/**
 A user sync between two peers as a state machine: two peers, two bags of messages in flight, and
 one step per delivered message.  The bags say that messages may arrive in any order.
 */
module SyncRun {
  import opened Wrappers
  import opened ResourceDocs
  import opened Exchange
  import opened Manifest
  import opened VectorClock
  import opened Peer
  import opened SyncRows

  datatype Side = Initiator | Responder

  function Other(side: Side): Side {
    if side.Initiator? then Responder else Initiator
  }

  /**
   `initiatorSent` and `responderSent` record that the side has handled a folder recipient message,
   which is when it sends its resources; `begun` records that the initiator has handled an addition
   complete message, which is when exchanges start.
   */
  datatype System = System(
    initiator: Peer,
    responder: Peer,
    toInitiator: multiset<Message>,
    toResponder: multiset<Message>,
    initiatorSent: bool,
    responderSent: bool,
    begun: bool)
  {
    function At(side: Side): Peer {
      if side.Initiator? then initiator else responder
    }

    function To(side: Side): multiset<Message> {
      if side.Initiator? then toInitiator else toResponder
    }

    function Sent(side: Side): bool {
      if side.Initiator? then initiatorSent else responderSent
    }
  }

  function Deliver(s: System, side: Side, m: Message): System
    requires m in s.To(side)
  {
    var out := Handle(s.At(side), m);
    if side.Initiator? then
      s.(initiator := out.peer,
         toInitiator := s.toInitiator - multiset{m},
         toResponder := s.toResponder + out.sends,
         initiatorSent := s.initiatorSent || m.FolderRecipients?,
         begun := s.begun || m.ResourceAdditionComplete?)
    else
      s.(responder := out.peer,
         toResponder := s.toResponder - multiset{m},
         toInitiator := s.toInitiator + out.sends,
         responderSent := s.responderSent || m.FolderRecipients?)
  }

  datatype Delivery = Delivery(side: Side, message: Message)

  ghost predicate Feasible(s: System, ds: seq<Delivery>)
    decreases |ds|
  {
    ds == [] || (ds[0].message in s.To(ds[0].side) && Feasible(Deliver(s, ds[0].side, ds[0].message), ds[1..]))
  }

  ghost function Run(s: System, ds: seq<Delivery>): System
    requires Feasible(s, ds)
    decreases |ds|
  {
    if ds == [] then s else Run(Deliver(s, ds[0].side, ds[0].message), ds[1..])
  }

  predicate Drained(s: System) {
    s.toInitiator == multiset{} && s.toResponder == multiset{}
  }

  // What the two peers bring

  /** Resources are only marked deleted, so what is shared is stored. */
  ghost predicate WellFormed(p: Peer) {
    p.sharedWithPeer <= p.store.Keys && p.manifest.None?
  }

  /** The start of a run: the initiator has sent its manifest and nothing else has happened. */
  ghost predicate Start(o: System) {
    && WellFormed(o.initiator) && WellFormed(o.responder)
    && o.initiator.isInitiator && !o.responder.isInitiator
    && o.toInitiator == multiset{}
    && (exists lists: RequestPayload ::
          ViewOf(lists) == LocalView(o.initiator) && o.toResponder == multiset{ManifestRequest(lists)})
    && !o.initiatorSent && !o.responderSent && !o.begun
    && forall id :: id in o.initiator.store && id in o.responder.store ==>
         OneHistory(o.initiator.store[id], o.responder.store[id])
  }

  /**
   What a run is judged against: its start and the comparison as each side sees it.  `Settled` lists
   what the comparison means for the two peers.
   */
  datatype Setting = Setting(start: System, initiatorPlan: ComparisonResult, responderPlan: ComparisonResult)
  {
    function Plan(side: Side): ComparisonResult {
      if side.Initiator? then initiatorPlan else responderPlan
    }

    function Begin(side: Side): Peer {
      start.At(side)
    }

    function Needs(side: Side): set<ResourceId> {
      Plan(side).localMissing.unknownResources
    }

    function Sends(side: Side): set<ResourceId> {
      Plan(side).remoteMissing.unknownResources
    }

    function Syncs(): set<ResourceId> {
      initiatorPlan.resourcesRequiringSync
    }
  }

  function SettingOf(o: System): Setting {
    Setting(o, Compare(LocalView(o.initiator), LocalView(o.responder)), Compare(LocalView(o.responder), LocalView(o.initiator)))
  }

  ghost predicate SettledSide(g: Setting, side: Side) {
    var other := Other(side);
    && g.Needs(side) == g.Sends(other)
    && g.Sends(side) <= g.Begin(side).store.Keys
    && g.Sends(side) !! g.Needs(side)
    && g.Sends(side) !! g.Syncs()
    && g.Syncs() <= g.Begin(side).store.Keys
    && g.Plan(side).localMissing.unknownFolders == g.Plan(other).remoteMissing.unknownFolders
    && g.Plan(side).localMissing.unknownFolders !! g.Plan(side).remoteMissing.unknownFolders
    && (forall f :: f in g.Plan(side).localMissing.unknownFolders ==> f !in g.Plan(side).foldersRequiringRecipientSync)
    && (forall f :: f in g.Plan(side).foldersRequiringRecipientSync ==>
          && f in g.Plan(other).foldersRequiringRecipientSync
          && g.Plan(side).foldersRequiringRecipientSync[f].onlyLocalKnows ==
               RecipientsOf(g.Begin(side).recipients, f) - RecipientsOf(g.Begin(other).recipients, f))
  }

  ghost predicate Settled(g: Setting) {
    && SettledSide(g, Initiator) && SettledSide(g, Responder)
    && g.responderPlan.Inverse() == g.initiatorPlan
    && g.responderPlan.resourcesRequiringSync == g.Syncs()
    && g.Begin(Initiator).isInitiator && !g.Begin(Responder).isInitiator
    && forall id :: id in g.Syncs() ==>
         && id in g.start.initiator.store && id in g.start.responder.store
         && OneHistory(g.start.initiator.store[id], g.start.responder.store[id])
  }

  lemma StartIsSettled(o: System)
    requires Start(o)
    ensures Settled(SettingOf(o))
  {
    var g := SettingOf(o);
    InverseOfCompare(LocalView(o.responder), LocalView(o.initiator));
    SideIsSettled(o, Initiator);
    SideIsSettled(o, Responder);
  }

  lemma SideIsSettled(o: System, side: Side)
    requires WellFormed(o.initiator) && WellFormed(o.responder)
    ensures SettledSide(SettingOf(o), side)
  {
  }

  /** The rows a side receives for the resources it needs. */
  function Incoming(g: Setting, side: Side): map<ResourceId, Row> {
    var from := g.Begin(Other(side));
    map id | id in from.store :: Outgoing(from, id)
  }

  /** The resources a side needs, by the manifests, and has stored in a way that makes their addition clash. */
  function Clashing(g: Setting, side: Side): set<ResourceId> {
    set id | id in g.Needs(side) && id in g.Begin(side).store && id in Incoming(g, side) &&
      Clash(g.Begin(side).store[id], Incoming(g, side)[id])
  }

  /** Every resource a side needs has a place: its folder or the folder it was created in, or there is a default folder. */
  ghost predicate Placeable(g: Setting, side: Side) {
    || g.Begin(side).defaultFolder.Some?
    || forall id :: id in g.Needs(side) && id in Incoming(g, side) ==>
         Incoming(g, side)[id].folder in g.Begin(side).folders || Incoming(g, side)[id].createdFolder in g.Begin(side).folders
  }

  /** The folders a side receives: it does not list them, and the other side lists them and has them live. */
  function Arriving(g: Setting, side: Side): set<FolderId> {
    g.Plan(side).localMissing.unknownFolders * g.Begin(Other(side)).live
  }

  function AllRecipients(g: Setting, f: FolderId): set<UserId> {
    RecipientsOf(g.start.initiator.recipients, f) + RecipientsOf(g.start.responder.recipients, f)
  }

  // Tags of messages in flight

  datatype Tag =
    | TNetworkSync | TNetworkSyncAck | TUnknownFolders | TFolderRecipients
    | TAddition(id: ResourceId) | TComplete
    | TVectors(id: ResourceId) | TUpdates(id: ResourceId) | TFinal(id: ResourceId) | TClocks(id: ResourceId)
    | TOpening

  function TagOf(m: Message): Tag {
    match m
    case NetworkSync => TNetworkSync
    case NetworkSyncAck => TNetworkSyncAck
    case UnknownFolders(_) => TUnknownFolders
    case FolderRecipients(_) => TFolderRecipients
    case ResourceAdditionRequest(id, _) => TAddition(id)
    case ResourceAdditionComplete => TComplete
    case StateVectorRequest(id, _) => TVectors(id)
    case UpdatesResponse(id, _) => TUpdates(id)
    case FinalUpdateMerge(id, _, _, _, _) => TFinal(id)
    case VectorClockResponse(id, _, _, _, _) => TClocks(id)
    case _ => TOpening
  }

  ghost predicate Has(bag: multiset<Message>, t: Tag) {
    exists m :: m in bag && TagOf(m) == t
  }

  // The invariant

  function AfterRequest(g: Setting): System {
    g.start.(responder := g.start.responder.(manifest := Some(g.responderPlan)),
             toResponder := multiset{},
             toInitiator := multiset{ManifestResponse(g.responderPlan)})
  }

  function AfterResponse(g: Setting): System {
    AfterRequest(g).(initiator := g.start.initiator.(manifest := Some(g.initiatorPlan)),
                     toInitiator := multiset{},
                     toResponder := multiset{ManifestAck})
  }

  function AfterAck(g: Setting): System {
    AfterResponse(g).(toResponder := multiset{}, toInitiator := multiset{NetworkSync})
  }

  function AfterOpening(g: Setting): System {
    AfterAck(g).(toInitiator := multiset{}, toResponder := multiset{NetworkSync, NetworkSyncAck})
  }

  /** The four states before both manifests are known and the folder sync starts. */
  ghost predicate Opening(g: Setting, s: System) {
    s == g.start || s == AfterRequest(g) || s == AfterResponse(g) || s == AfterAck(g)
  }

  /** Only the list of resources still missing changes once the manifest is known. */
  ghost predicate ManifestOk(plan: ComparisonResult, m: Option<ComparisonResult>) {
    && m.Some?
    && m.value.remoteMissing == plan.remoteMissing
    && m.value.resourcesRequiringSync == plan.resourcesRequiringSync
    && m.value.foldersRequiringRecipientSync == plan.foldersRequiringRecipientSync
    && m.value.localMissing.unknownResources <= plan.localMissing.unknownResources
  }

  function StillMissing(p: Peer): set<ResourceId> {
    if p.manifest.None? then {} else p.manifest.value.localMissing.unknownResources
  }

  ghost predicate SameIdentity(p: Peer, p0: Peer) {
    && p.isInitiator == p0.isInitiator
    && p.peerUser == p0.peerUser
    && p.peerDevice == p0.peerDevice
    && p.knownUsers == p0.knownUsers
    && p.sharedWithPeer == p0.sharedWithPeer
    && p.defaultFolder == p0.defaultFolder
    && p.draw == p0.draw
  }

  /**
   Share records only grow, and only by records one of the two sides had; folders grow only by those
   that arrive, and records only of those and of folders whose recipients differed.  A folder that was
   not stored arrives as live; a stored one keeps its mark.
   */
  ghost predicate FoldersOk(g: Setting, side: Side, p: Peer) {
    && g.Begin(side).folders <= p.folders <= g.Begin(side).folders + Arriving(g, side)
    && p.live == g.Begin(side).live + (p.folders - g.Begin(side).folders)
    && (forall f :: RecipientsOf(g.Begin(side).recipients, f) <= RecipientsOf(p.recipients, f) <= AllRecipients(g, f))
    && (forall f :: f !in Arriving(g, side) && f !in g.Plan(side).foldersRequiringRecipientSync ==>
          RecipientsOf(p.recipients, f) == RecipientsOf(g.Begin(side).recipients, f))
  }

  /** Folders known at the start, folders known now, and the default folder. */
  datatype Places = Places(known: set<FolderId>, now: set<FolderId>, home: Option<FolderId>)

  /** A row received keeps its folder if that was known all along, and goes elsewhere only if it is not known. */
  ghost predicate Placed(row: Row, folder: FolderId, at: Places) {
    && (row.folder in at.known ==> folder == row.folder)
    && (row.folder !in at.now && row.createdFolder in at.known ==> folder == row.createdFolder)
    && (row.folder !in at.now && row.createdFolder !in at.now ==> at.home == Some(folder))
    && (folder in at.now || at.home == Some(folder))
  }

  /**
   From the store `before` to the store `now`: rows sent are at most changed to the `outgoing` ones,
   rows received are copies of the `incoming` ones, placed by the folder rule, or add to a row that
   was there and does not clash; and every other row except those exchanged is untouched.
   */
  ghost predicate StoreFits(before: map<ResourceId, Row>, now: map<ResourceId, Row>,
                            incoming: map<ResourceId, Row>, outgoing: map<ResourceId, Row>,
                            needs: set<ResourceId>, sends: set<ResourceId>, syncs: set<ResourceId>,
                            missing: set<ResourceId>, at: Places)
  {
    && before.Keys <= now.Keys <= before.Keys + needs
    && needs - missing <= now.Keys
    && (forall id :: id in sends && id in before && id in now && id in outgoing ==>
          now[id] == before[id] || now[id] == outgoing[id])
    && (forall id :: id in before && id in now && id !in sends && id !in needs && id !in syncs ==> now[id] == before[id])
    && (forall id :: id in needs && id in before && id in now && id in incoming ==>
          || now[id] == before[id]
          || (!Clash(before[id], incoming[id]) && now[id] == Inserted(before[id], incoming[id])))
    && (forall id :: id in now && id !in before && id in incoming ==>
          now[id] == incoming[id].(folder := now[id].folder) && Placed(incoming[id], now[id].folder, at))
  }

  function PlacesOf(g: Setting, side: Side, folders: set<FolderId>): Places {
    Places(g.Begin(side).folders, folders, g.Begin(side).defaultFolder)
  }

  ghost predicate StoreOk(g: Setting, side: Side, p: Peer) {
    StoreFits(g.Begin(side).store, p.store, Incoming(g, side), Incoming(g, Other(side)), g.Needs(side), g.Sends(side), g.Syncs(),
              StillMissing(p), PlacesOf(g, side, p.folders))
  }

  ghost predicate SideOk(g: Setting, side: Side, p: Peer) {
    && SameIdentity(p, g.Begin(side))
    && ManifestOk(g.Plan(side), p.manifest)
    && FoldersOk(g, side, p)
    && StoreOk(g, side, p)
    && Clashing(g, side) <= StillMissing(p)
  }

  ghost predicate RowsInSync(g: Setting, s: System) {
    forall id :: id in g.Syncs() ==>
      && id in g.start.initiator.store && id in g.start.responder.store && id in s.initiator.store && id in s.responder.store
      && RowsOk(g.start.initiator.store[id], g.start.responder.store[id], s.initiator.store[id], s.responder.store[id])
  }

  ghost predicate ExchangeFits(g: Setting, s: System, m: Message)
    requires IsExchange(m)
  {
    && m.id in g.Syncs()
    && m.id in g.start.initiator.store && m.id in g.start.responder.store && m.id in s.initiator.store && m.id in s.responder.store
    && ExchangeOk(g.start.initiator.store[m.id], g.start.responder.store[m.id], s.initiator.store[m.id], s.responder.store[m.id], m)
  }

  /** Records for the folders that arrive: nothing invented, and complete. */
  ghost predicate FolderRecordsFit(g: Setting, side: Side, rs: map<FolderId, set<UserId>>) {
    && rs.Keys == Arriving(g, side)
    && (forall f :: RecipientsOf(rs, f) <= AllRecipients(g, f))
    && (forall f :: f in rs ==> RecipientsOf(g.Begin(Other(side)).recipients, f) <= RecipientsOf(rs, f))
  }

  ghost predicate RecipientUpdatesFit(g: Setting, side: Side, us: map<FolderId, set<UserId>>) {
    && us.Keys == g.Plan(side).foldersRequiringRecipientSync.Keys
    && (forall f :: RecipientsOf(us, f) <= AllRecipients(g, f))
    && (forall f :: f in us ==>
          RecipientsOf(g.Begin(Other(side)).recipients, f) - RecipientsOf(g.Begin(side).recipients, f) <= RecipientsOf(us, f))
  }

  /** What a message that is not part of an exchange may be and carry on its way to `side`. */
  ghost predicate PlainFits(g: Setting, side: Side, m: Message) {
    match m
    case NetworkSync => side.Responder?
    case NetworkSyncAck => true
    case UnknownFolders(rs) => FolderRecordsFit(g, side, rs)
    case FolderRecipients(us) => RecipientUpdatesFit(g, side, us)
    case ResourceAdditionRequest(id, row) =>
      id in g.Needs(side) && id in Incoming(g, side) && row == Incoming(g, side)[id]
    case ResourceAdditionComplete => true
    case _ => false
  }

  /** The initiator receives updates and clock responses, the responder vectors and final merges. */
  predicate ExchangeFor(side: Side, m: Message) {
    IsExchange(m) && (side.Initiator? <==> m.UpdatesResponse? || m.VectorClockResponse?)
  }

  ghost predicate Fits(g: Setting, s: System, side: Side, m: Message) {
    if IsExchange(m)
    then ExchangeFor(side, m) && ExchangeFits(g, s, m)
    else PlainFits(g, side, m)
  }

  ghost predicate AllFit(g: Setting, s: System, side: Side) {
    forall m :: m in s.To(side) ==> Fits(g, s, side, m)
  }

  ghost predicate Safe(g: Setting, s: System) {
    && SideOk(g, Initiator, s.initiator) && SideOk(g, Responder, s.responder)
    && RowsInSync(g, s)
    && AllFit(g, s, Initiator) && AllFit(g, s, Responder)
  }
}
