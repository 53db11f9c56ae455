/**
 One end of a user-sync connection: what a peer stores, the messages it exchanges, and what each
 message does to it.  `Handle` says it as a function; `PeerConnection` is the connection object
 whose methods do it step by step.
 */
module Peer {
  import opened Wrappers
  import opened ResourceDocs
  import opened Manifest
  import opened VectorClock

  type KeyId = string

  /** The keys of one resource: the table keeps one per user, and a key id belongs to one user. */
  type Keys = map<UserId, KeyId>

  /** A stored resource with its clock rows, its share records by id, and its keys. */
  datatype Row = Row(
    kind: ResourceType,
    docs: Docs,
    folder: FolderId,
    createdFolder: FolderId,
    clocks: ClockRows,
    shares: set<ShareId>,
    keys: Keys)

  datatype Message =
    | ManifestRequest(lists: RequestPayload)
    | ManifestResponse(result: ComparisonResult)
    | ManifestAck
    | NetworkSync
    | NetworkSyncAck
    | UnknownFolders(records: map<FolderId, set<UserId>>)
    | FolderRecipients(updates: map<FolderId, set<UserId>>)
    | ResourceAdditionRequest(id: ResourceId, row: Row)
    | ResourceAdditionComplete
    | StateVectorRequest(id: ResourceId, stateVectors: Payload)
    | UpdatesResponse(id: ResourceId, payload: Payload)
    | FinalUpdateMerge(id: ResourceId, payload: Payload, clocks: ClockRows, shares: set<ShareId>, keys: Keys)
    | VectorClockResponse(id: ResourceId, update: ClockRows, add: ClockRows, shares: set<ShareId>, keys: Keys)

  /**
   `folders` are the folder rows and `live` those not marked deleted; `recipients` are the folder
   share records, which outlive a deletion.  `sharedWithPeer` are the resources that have a share
   record for the user at the other end, `knownUsers` the users and devices the manifest lists.
   `draw` stands for the uuids drawn in the course of this sync.
   */
  datatype Peer = Peer(
    isInitiator: bool,
    peerUser: UserId,
    peerDevice: DeviceId,
    knownUsers: map<UserId, set<DeviceId>>,
    sharedWithPeer: set<ResourceId>,
    store: map<ResourceId, Row>,
    folders: set<FolderId>,
    live: set<FolderId>,
    recipients: map<FolderId, set<UserId>>,
    defaultFolder: Option<FolderId>,
    manifest: Option<ComparisonResult>,
    draw: nat)

  /** `ok` is false where the handler returns an error. */
  datatype Outcome = Outcome(peer: Peer, sends: multiset<Message>, ok: bool)

  function Failed(p: Peer): Outcome {
    Outcome(p, multiset{}, false)
  }

  /** What `get_user_manifest` collects for the user at the other end. */
  function LocalView(p: Peer): View {
    View(
      p.knownUsers,
      map r | r in p.sharedWithPeer && r in p.store :: ResourceView(p.store[r].shares, Values(p.store[r].clocks)),
      map f | f in p.recipients && p.peerUser in p.recipients[f] :: p.recipients[f])
  }

  function RecipientsOf(rs: map<FolderId, set<UserId>>, f: FolderId): set<UserId> {
    if f in rs then rs[f] else {}
  }

  /** Inserts share records, skipping those already present. */
  function AddRecipients(rs: map<FolderId, set<UserId>>, more: map<FolderId, set<UserId>>): map<FolderId, set<UserId>> {
    map f | f in rs.Keys + more.Keys :: RecipientsOf(rs, f) + RecipientsOf(more, f)
  }

  /** The folders among `ids` that are not marked deleted, with all their share records. */
  function FolderRecords(p: Peer, ids: set<FolderId>): map<FolderId, set<UserId>> {
    map f | f in ids && f in p.live :: RecipientsOf(p.recipients, f)
  }

  /** For every folder whose recipients differ, the records only this side knows. */
  function MissingRecipients(p: Peer, diffs: map<FolderId, RecipientDiff>): map<FolderId, set<UserId>> {
    map f | f in diffs :: RecipientsOf(p.recipients, f) * diffs[f].onlyLocalKnows
  }

  /** `save_vector_clock`: a row of value zero for a device that has none. */
  function WithClockFor(row: Row, device: DeviceId, uuid: RowId): Row {
    if device in row.clocks then row else row.(clocks := row.clocks[device := ClockRow(uuid, 0)])
  }

  /** The row as it is sent to the peer: with a clock row for the peer's device. */
  function Outgoing(p: Peer, id: ResourceId): Row
    requires id in p.store
  {
    WithClockFor(p.store[id], p.peerDevice, Drawn(p.draw, id))
  }

  /** The store once every resource in `ids` has a clock row for the peer's device. */
  function PreparedStore(p: Peer, ids: set<ResourceId>): map<ResourceId, Row> {
    map r | r in p.store :: if r in ids then Outgoing(p, r) else p.store[r]
  }

  lemma PreparedKeys(p: Peer, ids: set<ResourceId>)
    ensures PreparedStore(p, ids).Keys == p.store.Keys
  {
  }

  function AdditionRequests(store: map<ResourceId, Row>, ids: set<ResourceId>): multiset<Message>
    requires ids <= store.Keys
  {
    multiset(set r | r in ids :: ResourceAdditionRequest(r, store[r]))
  }

  function SendResources(p: Peer): Outcome {
    if p.manifest.None? || !(p.manifest.value.remoteMissing.unknownResources <= p.store.Keys) then Failed(p)
    else
      var ids := p.manifest.value.remoteMissing.unknownResources;
      var store := PreparedStore(p, ids);
      Outcome(
        p.(store := store),
        (if ids == {} then multiset{ResourceAdditionComplete} else multiset{}) + AdditionRequests(store, ids),
        true)
  }

  /** The row's own folder if the peer has it, else the folder it was created in, else the default folder. */
  function PlaceInFolder(p: Peer, row: Row): Option<FolderId> {
    if row.folder in p.folders then Some(row.folder)
    else if row.createdFolder in p.folders then Some(row.createdFolder)
    else p.defaultFolder
  }

  /** Some user has different keys: the table keeps one per user, and only an equal id is skipped. */
  predicate KeysClash(a: Keys, b: Keys) {
    exists u :: u in a && u in b && a[u] != b[u]
  }

  /** Some device has different clock rows, by row id. */
  predicate IdsClash(a: ClockRows, b: ClockRows) {
    exists d :: d in a && d in b && a[d].id != b[d].id
  }

  /** The keys of `more` that are not in `keys`, by id. */
  function MissingKeys(keys: Keys, more: Keys): Keys {
    map u | u in more && !(u in keys && keys[u] == more[u]) :: more[u]
  }

  /** An addition to a stored row is refused as a whole when a key or a clock row clashes. */
  predicate Clash(known: Row, row: Row) {
    KeysClash(known.keys, row.keys) || IdsClash(known.clocks, row.clocks)
  }

  /** A stored row once the absent clock rows, share records and keys of `row` are inserted. */
  function Inserted(known: Row, row: Row): Row {
    known.(clocks := row.clocks + known.clocks, shares := known.shares + row.shares, keys := row.keys + known.keys)
  }

  /** Insert-if-absent of a resource and of each of its clock rows, share records and keys, in one transaction. */
  function AddRow(store: map<ResourceId, Row>, id: ResourceId, row: Row): Option<map<ResourceId, Row>> {
    if id !in store then Some(store[id := row])
    else if Clash(store[id], row) then None
    else Some(store[id := Inserted(store[id], row)])
  }

  function RemoveMissing(m: Option<ComparisonResult>, id: ResourceId): Option<ComparisonResult> {
    if m.None? then None
    else Some(m.value.(localMissing := m.value.localMissing.(
                         unknownResources := m.value.localMissing.unknownResources - {id})))
  }

  function NothingMissing(m: Option<ComparisonResult>): bool {
    m.None? || m.value.localMissing.unknownResources == {}
  }

  function AddResource(p: Peer, id: ResourceId, row: Row): Outcome {
    var place := PlaceInFolder(p, row);
    if place.None? then Failed(p)
    else
      var store := AddRow(p.store, id, row.(folder := place.value));
      if store.None? then Failed(p)
      else
        var manifest := RemoveMissing(p.manifest, id);
        Outcome(
          p.(store := store.value, manifest := manifest),
          if NothingMissing(manifest) then multiset{ResourceAdditionComplete} else multiset{},
          true)
  }

  function VectorRequests(store: map<ResourceId, Row>, ids: set<ResourceId>): multiset<Message>
    requires ids <= store.Keys
  {
    multiset(set r | r in ids :: StateVectorRequest(r, StateVectors(store[r].kind, store[r].docs)))
  }

  function BeginExchanges(p: Peer): Outcome {
    if !p.isInitiator then Outcome(p, multiset{}, true)
    else if p.manifest.None? || !(p.manifest.value.resourcesRequiringSync <= p.store.Keys) then Failed(p)
    else Outcome(p, VectorRequests(p.store, p.manifest.value.resourcesRequiringSync), true)
  }

  function UpdatedRow(row: Row, payload: Payload): Row {
    row.(docs := Synced(row.kind, row.docs, payload))
  }

  /** Everything the initiator has on the resource, once the responder's updates are in. */
  function FinalFrom(id: ResourceId, row: Row, payload: Payload): Message {
    FinalUpdateMerge(id, Reply(row.kind, row.docs, payload), row.clocks, row.shares, row.keys)
  }

  /** The row once documents, keys, clocks and share records are merged. */
  function MergedRow(row: Row, m: Message): Row
    requires m.FinalUpdateMerge?
  {
    row.(docs := Synced(row.kind, row.docs, m.payload),
         clocks := MergedRows(row.clocks, m.clocks),
         shares := row.shares + m.shares,
         keys := row.keys + MissingKeys(row.keys, m.keys))
  }

  /** What the initiator lacks, judged by the rows it sent. */
  function ClockResponseFrom(row: Row, m: Message): Message
    requires m.FinalUpdateMerge?
  {
    VectorClockResponse(m.id, BehindRows(m.clocks, row.clocks), MissingRows(m.clocks, row.clocks),
                        row.shares - m.shares, MissingKeys(m.keys, row.keys))
  }

  /** Documents are written first, then keys: if a key is refused the documents stay and nothing else happens. */
  function RowAfterFinal(row: Row, m: Message): Row
    requires m.FinalUpdateMerge?
  {
    if KeysClash(row.keys, m.keys) then UpdatedRow(row, m.payload) else MergedRow(row, m)
  }

  function HandleFinal(p: Peer, m: Message): Outcome
    requires m.FinalUpdateMerge? && m.id in p.store
  {
    var row := p.store[m.id];
    var ok := !KeysClash(row.keys, m.keys);
    Outcome(p.(store := p.store[m.id := RowAfterFinal(row, m)]), if ok then multiset{ClockResponseFrom(row, m)} else multiset{}, ok)
  }

  /** The row once clocks and share records are taken in; None when a clock row is refused. */
  function ClockedRow(row: Row, m: Message): Option<Row>
    requires m.VectorClockResponse?
  {
    var clocks := AppliedRows(row.clocks, m.update, m.add);
    if clocks.None? then None else Some(row.(clocks := clocks.value, shares := row.shares + m.shares))
  }

  /** Clock rows are written first, then share records, then keys; what is refused stops the rest. */
  function RowAfterClocks(row: Row, m: Message): Row
    requires m.VectorClockResponse?
  {
    var clocked := ClockedRow(row, m);
    if clocked.None? then row
    else if KeysClash(row.keys, m.keys) then clocked.value
    else clocked.value.(keys := row.keys + m.keys)
  }

  function HandleClocks(p: Peer, m: Message): Outcome
    requires m.VectorClockResponse? && m.id in p.store
  {
    var row := p.store[m.id];
    Outcome(p.(store := p.store[m.id := RowAfterClocks(row, m)]), multiset{},
            ClockedRow(row, m).Some? && !KeysClash(row.keys, m.keys))
  }

  function HandleFolders(p: Peer, m: Message): Outcome
    requires m.UnknownFolders?
  {
    var p' := p.(folders := p.folders + m.records.Keys,
                 live := p.live + (m.records.Keys - p.folders),
                 recipients := AddRecipients(p.recipients, m.records));
    if p.manifest.None? then Failed(p')
    else
      Outcome(p', multiset{
        if p.isInitiator then FolderRecipients(MissingRecipients(p', p.manifest.value.foldersRequiringRecipientSync))
        else UnknownFolders(FolderRecords(p', p.manifest.value.remoteMissing.unknownFolders))}, true)
  }

  function HandleRecipients(p: Peer, m: Message): Outcome
    requires m.FolderRecipients?
  {
    if p.manifest.None? then Failed(p)
    else
      var p' := p.(recipients := AddRecipients(p.recipients, m.updates));
      var answer := if p.isInitiator then multiset{}
        else multiset{FolderRecipients(MissingRecipients(p', p.manifest.value.foldersRequiringRecipientSync))};
      var sent := SendResources(p');
      Outcome(sent.peer, answer + sent.sends, sent.ok)
  }

  function HandleManifest(p: Peer, m: Message): Outcome
    requires m.ManifestRequest? || m.ManifestResponse? || m.ManifestAck? || m.NetworkSync? || m.NetworkSyncAck?
  {
    match m
    case ManifestRequest(lists) =>
      var result := Compare(LocalView(p), ViewOf(lists));
      Outcome(p.(manifest := Some(result)), multiset{ManifestResponse(result)}, true)
    case ManifestResponse(result) =>
      Outcome(p.(manifest := Some(result.Inverse())), multiset{ManifestAck}, true)
    case ManifestAck =>
      if p.manifest.None? then Failed(p) else Outcome(p, multiset{NetworkSync}, true)
    case NetworkSync =>
      if !p.isInitiator then Outcome(p, multiset{NetworkSyncAck}, true)
      else if p.manifest.None? then Failed(p)
      else Outcome(p, multiset{NetworkSync, NetworkSyncAck}, true)
    case NetworkSyncAck =>
      if p.manifest.None? then Failed(p)
      else Outcome(p, multiset{UnknownFolders(FolderRecords(p, p.manifest.value.remoteMissing.unknownFolders))}, true)
  }

  function HandleUpdate(p: Peer, m: Message): Outcome
    requires m.StateVectorRequest? || m.UpdatesResponse? || m.FinalUpdateMerge? || m.VectorClockResponse?
  {
    if m.id !in p.store then Failed(p)
    else
      var row := p.store[m.id];
      match m
      case StateVectorRequest(id, vectors) =>
        Outcome(p, multiset{UpdatesResponse(id, Reply(row.kind, row.docs, vectors))}, true)
      case UpdatesResponse(id, payload) =>
        Outcome(p.(store := p.store[id := UpdatedRow(row, payload)]), multiset{FinalFrom(id, row, payload)}, true)
      case FinalUpdateMerge(_, _, _, _, _) => HandleFinal(p, m)
      case VectorClockResponse(_, _, _, _, _) => HandleClocks(p, m)
  }

  /** What one message does to the peer that receives it, and what is sent in return. */
  function Handle(p: Peer, m: Message): Outcome {
    match m
    case UnknownFolders(_) => HandleFolders(p, m)
    case FolderRecipients(_) => HandleRecipients(p, m)
    case ResourceAdditionRequest(id, row) => AddResource(p, id, row)
    case ResourceAdditionComplete => BeginExchanges(p)
    case StateVectorRequest(_, _) => HandleUpdate(p, m)
    case UpdatesResponse(_, _) => HandleUpdate(p, m)
    case FinalUpdateMerge(_, _, _, _, _) => HandleUpdate(p, m)
    case VectorClockResponse(_, _, _, _, _) => HandleUpdate(p, m)
    case _ => HandleManifest(p, m)
  }
}
