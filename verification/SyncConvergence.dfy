/** What a drained user sync has achieved, and exactly when its resource exchanges take place. */
module SyncConvergence {
  import opened Wrappers
  import opened Crdt
  import opened ResourceDocs
  import opened Exchange
  import opened Manifest
  import opened VectorClock
  import opened Peer
  import opened SyncRows
  import opened SyncRun
  import opened SyncSafety
  import opened SyncProgress

  ghost predicate OnTrack(g: Setting, s: System) {
    Opening(g, s) || Progress(g, s)
  }

  lemma StepStaysOnTrack(g: Setting, s: System, side: Side, m: Message)
    requires IsRunOf(g) && Settled(g) && OnTrack(g, s) && m in s.To(side)
    ensures OnTrack(g, Deliver(s, side, m))
  {
    hide Opening, Progress, IsRunOf, Settled, Deliver;
    if Opening(g, s) {
      OpeningStep(g, s, side, m);
      ProgressAtOpening(g);
    } else {
      StepKeepsProgress(g, s, side, m);
    }
  }

  lemma {:induction false} RunStaysOnTrack(g: Setting, s: System, ds: seq<Delivery>)
    requires IsRunOf(g) && Settled(g) && OnTrack(g, s) && Feasible(s, ds)
    ensures OnTrack(g, Run(s, ds))
    decreases |ds|
  {
    hide OnTrack, IsRunOf, Settled, Deliver;
    if ds != [] {
      StepStaysOnTrack(g, s, ds[0].side, ds[0].message);
      RunStaysOnTrack(g, Deliver(s, ds[0].side, ds[0].message), ds[1..]);
    }
  }

  lemma DrainedMadeProgress(o: System, ds: seq<Delivery>)
    requires Start(o) && Feasible(o, ds) && Drained(Run(o, ds))
    ensures Settled(SettingOf(o)) && Progress(SettingOf(o), Run(o, ds))
  {
    hide Progress, Settled, Start;
    StartIsSettled(o);
    RunStaysOnTrack(SettingOf(o), o, ds);
    if Opening(SettingOf(o), Run(o, ds)) {
      OpeningNotDrained(SettingOf(o), Run(o, ds));
    }
  }

  lemma OpeningNotDrained(g: Setting, s: System)
    requires IsRunOf(g) && Opening(g, s)
    ensures !Drained(s)
  {
    hide Compare, LocalView;
    if s == g.start {
      var lists: RequestPayload :| g.start.toResponder == multiset{ManifestRequest(lists)};
      assert ManifestRequest(lists) in s.toResponder;
    }
    assert ManifestResponse(g.responderPlan) in AfterRequest(g).toInitiator;
    assert ManifestAck in AfterResponse(g).toResponder;
    assert NetworkSync in AfterAck(g).toInitiator;
  }

  lemma NothingPending(s: System, chain: seq<Stage>, k: nat)
    requires Drained(s)
    ensures !Pending(s, chain, k)
  {
  }

  // Resources

  /** Every resource of the two manifests. */
  function AllListed(o: System): set<ResourceId> {
    LocalView(o.initiator).resources.Keys + LocalView(o.responder).resources.Keys
  }

  lemma DrainedFolderGoals(g: Setting, s: System)
    requires FolderProgress(g, s) && Drained(s)
    ensures FoldersDone(g, Responder, s.responder) && FoldersDone(g, Initiator, s.initiator)
    ensures RecipientsDone(g, Responder, s.responder) && s.responderSent
    ensures RecipientsDone(g, Initiator, s.initiator) && s.initiatorSent
  {
    hide FoldersDone, RecipientsDone, Pending;
    forall k: nat | 2 <= k <= 5 ensures FolderGoal(g, s, k) {
      NothingPending(s, FOLDER_CHAIN, k);
    }
    assert FolderGoal(g, s, 2) && FolderGoal(g, s, 3) && FolderGoal(g, s, 4) && FolderGoal(g, s, 5);
  }

  lemma OnlyClashesMissing(g: Setting, s: System, side: Side)
    requires Drained(s) && AdditionsProgress(g, s, side) && s.Sent(Other(side)) && Placeable(g, side)
    requires Clashing(g, side) <= StillMissing(s.At(side))
    ensures StillMissing(s.At(side)) == Clashing(g, side)
  {
    hide Clashing, StillMissing, Placeable;
  }

  lemma AllStored(o: System, s: System, side: Side)
    requires Start(o) && Settled(SettingOf(o)) && SideOk(SettingOf(o), side, s.At(side))
    ensures AllListed(o) - StillMissing(s.At(side)) <= s.At(side).store.Keys
    ensures o.At(side).store.Keys <= s.At(side).store.Keys
  {
    var g := SettingOf(o);
    SideStore(g, side, s.At(side));
    hide SideOk, Settled;
    assert AllListed(o) <= g.Begin(side).store.Keys + g.Needs(side);
  }

  /**
   Both sides end up with every resource either manifest lists, if their resources find folders; what
   stays on a missing list is exactly what clashed, and that was stored before.
   */
  lemma DrainedRunStoresEverything(o: System, ds: seq<Delivery>, side: Side)
    requires Start(o) && Feasible(o, ds) && Drained(Run(o, ds))
    ensures AllListed(o) - StillMissing(Run(o, ds).At(side)) <= Run(o, ds).At(side).store.Keys
    ensures Placeable(SettingOf(o), side) ==>
      && StillMissing(Run(o, ds).At(side)) == Clashing(SettingOf(o), side)
      && AllListed(o) <= Run(o, ds).At(side).store.Keys
  {
    hide Start, Run, Settled, SideOk, RowsInSync, ExchangeProgress, QuietUntilBegun, CompleteProgress, FolderProgress,
         AdditionsProgress, AllListed, StillMissing, Drained, Placeable;
    DrainedMadeProgress(o, ds);
    DrainedFolderGoals(SettingOf(o), Run(o, ds));
    SideStore(SettingOf(o), side, Run(o, ds).At(side));
    AllStored(o, Run(o, ds), side);
    if Placeable(SettingOf(o), side) {
      OnlyClashesMissing(SettingOf(o), Run(o, ds), side);
      assert Clashing(SettingOf(o), side) <= o.At(side).store.Keys;
    }
  }

  /** What a clash means, where the uuids drawn in this sync are new: different keys or rows, or a row the sender lacks. */
  lemma ClashIff(g: Setting, side: Side, id: ResourceId)
    requires id in g.Needs(side) && id in g.Begin(side).store && id in g.Begin(Other(side)).store
    requires forall d :: d in g.Begin(side).store[id].clocks ==>
      g.Begin(side).store[id].clocks[d].id != Drawn(g.Begin(Other(side)).draw, id)
    ensures var held, theirs, device := g.Begin(side).store[id], g.Begin(Other(side)).store[id], g.Begin(Other(side)).peerDevice;
      id in Clashing(g, side) <==>
        || (exists u :: u in held.keys && u in theirs.keys && held.keys[u] != theirs.keys[u])
        || (exists d :: d in held.clocks && d in theirs.clocks && held.clocks[d].id != theirs.clocks[d].id)
        || (device in held.clocks && device !in theirs.clocks)
  {
    var held, theirs, device := g.Begin(side).store[id], g.Begin(Other(side)).store[id], g.Begin(Other(side)).peerDevice;
    var sent := Outgoing(g.Begin(Other(side)), id);
    assert sent.keys == theirs.keys;
    if IdsClash(held.clocks, theirs.clocks) {
      var d :| d in held.clocks && d in theirs.clocks && held.clocks[d].id != theirs.clocks[d].id;
      assert sent.clocks[d] == theirs.clocks[d];
    }
    if device in held.clocks && device !in theirs.clocks {
      assert sent.clocks[device].id != held.clocks[device].id;
    }
  }

  // Folders

  /** The folders a side lists in its manifest. */
  function Listed(o: System, side: Side): map<FolderId, set<UserId>> {
    LocalView(o.At(side)).folders
  }

  lemma CommonFolderMerged(o: System, s: System, side: Side, f: FolderId)
    requires Start(o) && SideOk(SettingOf(o), side, s.At(side)) && RecipientsDone(SettingOf(o), side, s.At(side))
    requires f in Listed(o, side) && f in Listed(o, Other(side))
    ensures RecipientsOf(s.At(side).recipients, f) == AllRecipients(SettingOf(o), f)
  {
    var g, now, mine, theirs := SettingOf(o), s.At(side).recipients, o.At(side).recipients, o.At(Other(side)).recipients;
    SideFolders(g, side, s.At(side));
    hide SideOk;
    assert RecipientsOf(mine, f) <= RecipientsOf(now, f) <= AllRecipients(g, f);
    if mine[f] == theirs[f] {
      assert AllRecipients(g, f) == RecipientsOf(mine, f);
    } else {
      assert f in g.Plan(side).foldersRequiringRecipientSync;
    }
  }

  lemma UnlistedFolderSettled(o: System, s: System, side: Side, f: FolderId)
    requires Start(o) && SideOk(SettingOf(o), side, s.At(side)) && FoldersDone(SettingOf(o), side, s.At(side))
    requires f !in Listed(o, side) && f in Listed(o, Other(side))
    ensures f in o.At(Other(side)).live ==>
      f in s.At(side).folders && RecipientsOf(s.At(side).recipients, f) == AllRecipients(SettingOf(o), f)
    ensures f !in o.At(Other(side)).live ==>
      && (f in s.At(side).folders <==> f in o.At(side).folders)
      && RecipientsOf(s.At(side).recipients, f) == RecipientsOf(o.At(side).recipients, f)
  {
    var g, now := SettingOf(o), s.At(side).recipients;
    SideFolders(g, side, s.At(side));
    hide SideOk;
    assert RecipientsOf(o.At(side).recipients, f) <= RecipientsOf(now, f) <= AllRecipients(g, f);
    assert f in g.Plan(side).localMissing.unknownFolders && f !in g.Plan(side).foldersRequiringRecipientSync;
    assert f in Arriving(g, side) <==> f in o.At(Other(side)).live;
  }

  /** A folder both sides list ends up with exactly the recipients the two sides had together, on both. */
  lemma DrainedRunMergesRecipients(o: System, ds: seq<Delivery>, side: Side, f: FolderId)
    requires Start(o) && Feasible(o, ds) && Drained(Run(o, ds))
    requires f in Listed(o, side) && f in Listed(o, Other(side))
    ensures RecipientsOf(Run(o, ds).At(side).recipients, f) == AllRecipients(SettingOf(o), f)
  {
    hide Start, Run, Settled, SideOk, RowsInSync, ExchangeProgress, QuietUntilBegun, CompleteProgress, FolderProgress,
         AdditionsProgress, Listed, FoldersDone, RecipientsDone, Drained, AllRecipients;
    DrainedMadeProgress(o, ds);
    DrainedFolderGoals(SettingOf(o), Run(o, ds));
    CommonFolderMerged(o, Run(o, ds), side, f);
  }

  /**
   A folder only the other side lists arrives, with the recipients the two sides had together, if it
   is live there; if it is marked deleted there, nothing about it changes here.  So a folder that was
   not stored here is stored in the end if and only if it is live on the sending side.
   */
  lemma DrainedRunBringsFoldersIff(o: System, ds: seq<Delivery>, side: Side, f: FolderId)
    requires Start(o) && Feasible(o, ds) && Drained(Run(o, ds))
    requires f !in Listed(o, side) && f in Listed(o, Other(side))
    ensures f in o.At(Other(side)).live ==>
      && f in Run(o, ds).At(side).folders
      && RecipientsOf(Run(o, ds).At(side).recipients, f) == AllRecipients(SettingOf(o), f)
    ensures f !in o.At(Other(side)).live ==>
      && (f in Run(o, ds).At(side).folders <==> f in o.At(side).folders)
      && RecipientsOf(Run(o, ds).At(side).recipients, f) == RecipientsOf(o.At(side).recipients, f)
    ensures f !in o.At(side).folders ==> (f in Run(o, ds).At(side).folders <==> f in o.At(Other(side)).live)
  {
    hide Start, Run, Settled, SideOk, RowsInSync, ExchangeProgress, QuietUntilBegun, CompleteProgress, FolderProgress,
         AdditionsProgress, Listed, FoldersDone, RecipientsDone, Drained, AllRecipients;
    DrainedMadeProgress(o, ds);
    DrainedFolderGoals(SettingOf(o), Run(o, ds));
    UnlistedFolderSettled(o, Run(o, ds), side, f);
  }

  /** The share records of the side name the user at the other end: the side tells the other of the folder. */
  predicate Tells(p: Peer, f: FolderId) {
    f in p.recipients && p.peerUser in p.recipients[f]
  }

  lemma TellsIsListed(o: System, side: Side, f: FolderId)
    ensures Tells(o.At(side), f) <==> f in Listed(o, side)
  {
  }

  /** Told of by the other side only, and live there: the folders that arrive. */
  predicate ToldOf(o: System, side: Side, f: FolderId) {
    Tells(o.At(Other(side)), f) && !Tells(o.At(side), f) && f in o.At(Other(side)).live
  }

  lemma ArrivingIsToldOf(o: System, side: Side, f: FolderId)
    ensures f in Arriving(SettingOf(o), side) <==> ToldOf(o, side, f)
  {
    TellsIsListed(o, side, f);
    TellsIsListed(o, Other(side), f);
    hide Tells;
  }

  /**
   In every state of every run: a folder the other side does not tell of is stored here as it was, with
   the mark and the share records it had.
   */
  lemma UntoldFolderStays(o: System, ds: seq<Delivery>, side: Side, f: FolderId)
    requires Start(o) && Feasible(o, ds) && !Tells(o.At(Other(side)), f)
    ensures var p, q := o.At(side), Run(o, ds).At(side);
      && (f in q.folders <==> f in p.folders) && (f in q.live <==> f in p.live)
      && RecipientsOf(q.recipients, f) == RecipientsOf(p.recipients, f)
  {
    var g, s := SettingOf(o), Run(o, ds);
    TellsIsListed(o, Other(side), f);
    ArrivingIsToldOf(o, side, f);
    DiffersIsListed(o, side, f);
    hide Run, Feasible, Settled, Opening, SideOk, RowsInSync, AllFit, Listed, Arriving, Tells, AllRecipients;
    DeliveriesFailAsExpected(o, ds) by {
      assert Start(o);
    }
    if Safe(g, s) {
      SideFolders(g, side, s.At(side));
    } else {
      OpeningFolders(g, s, side);
    }
  }

  lemma DiffersIsListed(o: System, side: Side, f: FolderId)
    ensures f in SettingOf(o).Plan(side).foldersRequiringRecipientSync ==> f in Listed(o, side) && f in Listed(o, Other(side))
  {
  }

  lemma OpeningFolders(g: Setting, s: System, side: Side)
    requires Opening(g, s)
    ensures var p, q := g.Begin(side), s.At(side); q.folders == p.folders && q.live == p.live && q.recipients == p.recipients
  {
  }

  /**
   What a drained run leaves of the folders: stored are those that were and those told of and live; live
   are those that were live, and those that arrived and were not stored, so no mark is lost and no folder
   marked deleted is revived.
   */
  lemma DrainedRunFolders(o: System, ds: seq<Delivery>, side: Side, f: FolderId)
    requires Start(o) && Feasible(o, ds) && Drained(Run(o, ds))
    ensures var p, q, other := o.At(side), Run(o, ds).At(side), o.At(Other(side));
      && (f in q.folders <==> f in p.folders || ToldOf(o, side, f))
      && (f in q.live <==> f in p.live || (f !in p.folders && ToldOf(o, side, f)))
      && RecipientsOf(q.recipients, f) ==
           if ToldOf(o, side, f) || (Tells(p, f) && Tells(other, f))
           then RecipientsOf(p.recipients, f) + RecipientsOf(other.recipients, f)
           else RecipientsOf(p.recipients, f)
  {
    var g, s := SettingOf(o), Run(o, ds);
    TellsIsListed(o, side, f);
    TellsIsListed(o, Other(side), f);
    ArrivingIsToldOf(o, side, f);
    BothSidesRecipients(o, side, f);
    hide Start, Run, Settled, SideOk, RowsInSync, ExchangeProgress, QuietUntilBegun, CompleteProgress, FolderProgress,
         AdditionsProgress, Listed, RecipientsDone, Drained, AllRecipients, Tells, Arriving;
    DrainedMadeProgress(o, ds);
    DrainedFolderGoals(g, s);
    SideFolders(g, side, s.At(side));
    FoldersInTheEnd(g, side, s.At(side), f);
    if f in Listed(o, side) && f in Listed(o, Other(side)) {
      CommonFolderMerged(o, s, side, f);
    } else if f in Listed(o, Other(side)) {
      UnlistedFolderSettled(o, s, side, f);
    } else {
      UntoldFolderStays(o, ds, side, f);
    }
  }

  lemma BothSidesRecipients(o: System, side: Side, f: FolderId)
    ensures AllRecipients(SettingOf(o), f) == RecipientsOf(o.At(side).recipients, f) + RecipientsOf(o.At(Other(side)).recipients, f)
  {
  }

  lemma FoldersInTheEnd(g: Setting, side: Side, p: Peer, f: FolderId)
    requires FoldersOk(g, side, p) && FoldersDone(g, side, p)
    ensures f in p.folders <==> f in g.Begin(side).folders || f in Arriving(g, side)
    ensures f in p.live <==> f in g.Begin(side).live || (f !in g.Begin(side).folders && f in Arriving(g, side))
  {
    hide Arriving, AllRecipients;
  }

  lemma AddedTwice(rs: map<FolderId, set<UserId>>, more: map<FolderId, set<UserId>>)
    ensures AddRecipients(AddRecipients(rs, more), more) == AddRecipients(rs, more)
  {
  }

  /** Both sides start folder sync, so its messages arrive twice; the second copy changes nothing. */
  lemma RepeatedFolderMessage(p: Peer, m: Message)
    requires m.UnknownFolders? || m.FolderRecipients?
    ensures Handle(Handle(p, m).peer, m).peer == Handle(p, m).peer
  {
    hide HandleFolders, HandleRecipients;
    if m.UnknownFolders? {
      FoldersTwice(p, m);
    } else {
      RecipientsTwice(p, m);
    }
  }

  lemma FoldersTwice(p: Peer, m: Message)
    requires m.UnknownFolders?
    ensures HandleFolders(HandleFolders(p, m).peer, m).peer == HandleFolders(p, m).peer
  {
    hide AddRecipients, MissingRecipients, FolderRecords;
    AddedTwice(p.recipients, m.records);
    assert p.folders + m.records.Keys + m.records.Keys == p.folders + m.records.Keys;
    assert m.records.Keys - (p.folders + m.records.Keys) == {};
  }

  lemma RecipientsTwice(p: Peer, m: Message)
    requires m.FolderRecipients?
    ensures HandleRecipients(HandleRecipients(p, m).peer, m).peer == HandleRecipients(p, m).peer
  {
    hide AddRecipients, MissingRecipients, PreparedStore;
    AddedTwice(p.recipients, m.updates);
    if p.manifest.Some? {
      var p' := p.(recipients := AddRecipients(p.recipients, m.updates));
      PreparedTwice(p', p'.manifest.value.remoteMissing.unknownResources);
      PreparedKeys(p', p'.manifest.value.remoteMissing.unknownResources);
    }
  }

  lemma PreparedTwice(p: Peer, ids: set<ResourceId>)
    ensures PreparedStore(p.(store := PreparedStore(p, ids)), ids) == PreparedStore(p, ids)
  {
  }

  // Exchanges

  /** The documents of the state keys both sides store agree, and hold what either side had. */
  ghost predicate DocsReconciled(a: Row, b: Row, x: Row, y: Row) {
    && x.docs.Keys == a.docs.Keys && y.docs.Keys == b.docs.Keys
    && forall k :: Synchronised(a.kind, k, a.docs, b.docs) ==> x.docs[k] == y.docs[k] == Join(a.docs[k], b.docs[k])
  }

  /** The two rows agree on everything both sides started with. */
  ghost predicate Reconciled(a: Row, b: Row, x: Row, y: Row) {
    BookOf(x) == BookOf(y) == MergedBook(a, b) && DocsReconciled(a, b, x, y)
  }

  lemma CaughtUpMeansJoined(a: Row, b: Row, x: Row, k: StateKey)
    requires OneHistory(a, b) && Synchronised(a.kind, k, a.docs, b.docs)
    requires Grown(a.docs, x.docs) && DocsBelow(x.docs, History(a, b))
    requires SvLe(StateVectorOf(b.docs[k]), StateVectorOf(x.docs[k]))
    ensures x.docs[k] == Join(a.docs[k], b.docs[k])
  {
    var j := Join(a.docs[k], b.docs[k]);
    JoinIsLeastUpperBound(a.docs[k], b.docs[k]);
    SvLeMeansBelow(b.docs[k], x.docs[k], j);
    BelowBothWaysEqual(x.docs[k], j);
  }

  lemma GoalsReconcile(a: Row, b: Row, x: Row, y: Row)
    requires OneHistory(a, b) && RowsOk(a, b, x, y)
    requires RowGoal(a, b, x, y, 1) && RowGoal(a, b, x, y, 2) && RowGoal(a, b, x, y, 3)
    ensures DocsReconciled(a, b, x, y)
    ensures Reconciled(a, b, x, y) <==> KeysAgree(a, b)
  {
    if KeysClash(a.keys, b.keys) {
      assert a.keys != b.keys;
    }
    hide MergedBook, BookOf, History, OneHistory, DocsBelow, SvLe, Join, KeysClash;
    HistoryIsSymmetric(a, b);
    forall k | Synchronised(a.kind, k, a.docs, b.docs)
      ensures x.docs[k] == y.docs[k] == Join(a.docs[k], b.docs[k])
    {
      assert Synchronised(x.kind, k, x.docs, b.docs) && Synchronised(y.kind, k, y.docs, a.docs);
      CaughtUpMeansJoined(a, b, x, k);
      CaughtUpMeansJoined(b, a, y, k);
    }
  }

  lemma HistoryIsSymmetric(a: Row, b: Row)
    requires OneHistory(a, b)
    ensures OneHistory(b, a) && History(a, b) == History(b, a)
    ensures forall k :: k in a.docs && k in b.docs ==> Join(a.docs[k], b.docs[k]) == Join(b.docs[k], a.docs[k])
  {
    forall k | k in a.docs && k in b.docs ensures Join(a.docs[k], b.docs[k]) == Join(b.docs[k], a.docs[k]) {
      JoinIsLeastUpperBound(a.docs[k], b.docs[k]);
    }
    forall k | k in a.docs && k in b.docs ensures Coherent(b.docs[k], a.docs[k]) {
      assert Coherent(a.docs[k], b.docs[k]);
    }
    assert History(a, b).Keys == History(b, a).Keys;
  }

  /** The two rows of `id` are as they were at the start. */
  ghost predicate RowUntouched(g: Setting, s: System, id: ResourceId)
    requires RowsInSync(g, s) && id in g.Syncs()
  {
    s.initiator.store[id] == g.start.initiator.store[id] && s.responder.store[id] == g.start.responder.store[id]
  }

  ghost predicate RowReconciled(g: Setting, s: System, id: ResourceId)
    requires RowsInSync(g, s) && id in g.Syncs()
  {
    Reconciled(g.start.initiator.store[id], g.start.responder.store[id], s.initiator.store[id], s.responder.store[id])
  }

  ghost predicate RowDocsReconciled(g: Setting, s: System, id: ResourceId)
    requires RowsInSync(g, s) && id in g.Syncs()
  {
    DocsReconciled(g.start.initiator.store[id], g.start.responder.store[id], s.initiator.store[id], s.responder.store[id])
  }

  /** Clocks, share records and keys of `id` are as they were at the start. */
  ghost predicate RowBooksKept(g: Setting, s: System, id: ResourceId)
    requires RowsInSync(g, s) && id in g.Syncs()
  {
    && BookOf(s.initiator.store[id]) == BookOf(g.start.initiator.store[id])
    && BookOf(s.responder.store[id]) == BookOf(g.start.responder.store[id])
  }

  ghost predicate KeysAgreeOn(g: Setting, id: ResourceId)
    requires id in g.start.initiator.store && id in g.start.responder.store
  {
    KeysAgree(g.start.initiator.store[id], g.start.responder.store[id])
  }

  lemma ClashKeepsBooks(g: Setting, s: System, id: ResourceId)
    requires RowsInSync(g, s) && id in g.Syncs()
    ensures !KeysAgreeOn(g, id) ==> RowBooksKept(g, s, id)
  {
    hide KeysAgree, MergedBook, BookOf;
  }

  lemma BegunReconciles(g: Setting, s: System, id: ResourceId)
    requires Settled(g) && RowsInSync(g, s) && ExchangeProgress(g, s) && s.begun && Drained(s) && id in g.Syncs()
    ensures RowDocsReconciled(g, s, id) && (RowReconciled(g, s, id) <==> KeysAgreeOn(g, id))
    ensures !KeysAgreeOn(g, id) ==> RowBooksKept(g, s, id)
  {
    ClashKeepsBooks(g, s, id);
    hide RowsOk, Pending, RowGoal, Reconciled, DocsReconciled, OneHistory, Drained, KeysAgree;
    forall k: nat | 1 <= k <= 3 ensures ExchangeGoal(g, s, id, k) {
      NothingPending(s, ExchangeChain(id), k);
    }
    assert ExchangeGoal(g, s, id, 1) && ExchangeGoal(g, s, id, 2) && ExchangeGoal(g, s, id, 3);
    GoalsReconcile(g.start.initiator.store[id], g.start.responder.store[id], s.initiator.store[id], s.responder.store[id]);
  }

  /** A resource is in sync because its clocks or its share records differ, so rows left alone do not agree. */
  lemma UntouchedNotReconciled(o: System, s: System, id: ResourceId)
    requires Start(o) && RowsInSync(SettingOf(o), s) && id in SettingOf(o).Syncs()
    requires RowUntouched(SettingOf(o), s, id)
    ensures !RowReconciled(SettingOf(o), s, id)
  {
    var a, b := o.initiator.store[id], o.responder.store[id];
    assert ResourceView(a.shares, Values(a.clocks)) != ResourceView(b.shares, Values(b.clocks));
  }

  /** What decides in a drained state whether the exchanges took place. */
  ghost predicate Took(g: Setting, s: System) {
    g.Sends(Responder) == {} || (g.Sends(Initiator) != {} && StillMissing(s.responder) == {})
  }

  lemma BegunIff(g: Setting, s: System)
    requires Drained(s) && CompleteProgress(g, s) && QuietUntilBegun(g, s) && s.responderSent
    ensures s.begun <==> Took(g, s)
  {
    hide StillMissing, Quiet;
    assert !Has(s.toInitiator, TComplete);
  }

  lemma QuietKeepsRows(g: Setting, s: System, id: ResourceId)
    requires QuietUntilBegun(g, s) && !s.begun && RowsInSync(g, s) && id in g.Syncs()
    ensures RowUntouched(g, s, id)
  {
    hide RowsOk;
  }

  lemma DrainedSent(g: Setting, s: System)
    requires Progress(g, s) && Drained(s)
    ensures s.responderSent
  {
    hide SideOk, RowsInSync, FolderProgress, AdditionsProgress, ExchangeProgress, QuietUntilBegun, CompleteProgress, Drained;
    DrainedFolderGoals(g, s);
  }

  /**
   A drained run has reconciled a resource exactly when the exchanges took place and no user has
   different keys on the two sides.  If only the keys are in the way the documents agree and clocks,
   share records and keys are not merged; if the exchanges did not take place nothing has changed.
   */
  lemma DrainedRunReconciles(o: System, ds: seq<Delivery>)
    requires Start(o) && Feasible(o, ds) && Drained(Run(o, ds))
    ensures var g, s := SettingOf(o), Run(o, ds);
      && RowsInSync(g, s)
      && forall id :: id in g.Syncs() ==>
           && (RowReconciled(g, s, id) <==> Took(g, s) && KeysAgreeOn(g, id))
           && (Took(g, s) ==> RowDocsReconciled(g, s, id))
           && (Took(g, s) && !KeysAgreeOn(g, id) ==> RowBooksKept(g, s, id))
           && (!Took(g, s) ==> RowUntouched(g, s, id))
  {
    hide Start, Run, Settled, SideOk, RowsInSync, AllFit, FolderProgress, AdditionsProgress, ExchangeProgress,
         QuietUntilBegun, CompleteProgress, Drained, RowReconciled, RowDocsReconciled, RowUntouched, RowBooksKept, Took, KeysAgreeOn;
    var g, s := SettingOf(o), Run(o, ds);
    DrainedMadeProgress(o, ds);
    DrainedSent(g, s);
    BegunIff(g, s);
    forall id | id in g.Syncs()
      ensures RowReconciled(g, s, id) <==> Took(g, s) && KeysAgreeOn(g, id)
      ensures if Took(g, s) then RowDocsReconciled(g, s, id) else RowUntouched(g, s, id)
      ensures Took(g, s) && !KeysAgreeOn(g, id) ==> RowBooksKept(g, s, id)
    {
      if s.begun {
        BegunReconciles(g, s, id);
      } else {
        QuietKeepsRows(g, s, id);
        UntouchedNotReconciled(o, s, id);
      }
    }
  }

  /**
   The condition before the run, when the responder's new resources find folders: the responder has
   nothing to send, or the initiator has something to send and none of it clashes.
   */
  ghost predicate WillTake(g: Setting) {
    g.Sends(Responder) == {} || (g.Sends(Initiator) != {} && Clashing(g, Responder) == {})
  }

  lemma DrainedRunReconcilesIff(o: System, ds: seq<Delivery>)
    requires Start(o) && Feasible(o, ds) && Drained(Run(o, ds)) && Placeable(SettingOf(o), Responder)
    ensures var g, s := SettingOf(o), Run(o, ds);
      && RowsInSync(g, s)
      && (forall id :: id in g.Syncs() ==> (RowReconciled(g, s, id) <==> WillTake(g) && KeysAgreeOn(g, id)))
      && (if WillTake(g) then forall id :: id in g.Syncs() ==> RowDocsReconciled(g, s, id) && (KeysAgreeOn(g, id) || RowBooksKept(g, s, id))
          else forall id :: id in g.Syncs() ==> RowUntouched(g, s, id))
  {
    hide Start, Run, Settled, RowsInSync, Drained, RowReconciled, RowDocsReconciled, RowUntouched, RowBooksKept, KeysAgreeOn, Clashing,
         Placeable, StillMissing, AllListed;
    DrainedRunReconciles(o, ds);
    DrainedRunStoresEverything(o, ds, Responder);
  }

  // In terms of the two peers alone

  /** The resources one side shares with the other and the other does not share with it. */
  function Sending(o: System, side: Side): set<ResourceId> {
    o.At(side).sharedWithPeer - o.At(Other(side)).sharedWithPeer
  }

  lemma SendsIsSending(o: System, side: Side)
    requires Start(o)
    ensures SettingOf(o).Sends(side) == SettingOf(o).Needs(Other(side)) == Sending(o, side)
  {
    var g := SettingOf(o);
    assert LocalView(o.At(side)).resources.Keys == o.At(side).sharedWithPeer;
    assert LocalView(o.At(Other(side))).resources.Keys == o.At(Other(side)).sharedWithPeer;
  }

  /** In every state of every run: a resource that was not here is only here if the other side shares it. */
  lemma UnsharedNeverArrives(o: System, ds: seq<Delivery>, side: Side, id: ResourceId)
    requires Start(o) && Feasible(o, ds)
    requires id !in o.At(side).store && id !in o.At(Other(side)).sharedWithPeer
    ensures id !in Run(o, ds).At(side).store
  {
    SendsIsSending(o, Other(side));
    assert Other(Other(side)) == side;
    hide Start, Feasible, Run, Incoming, Clashing, Setting.Needs, Setting.Sends, Setting.Syncs, Placed, Outgoing;
    RowsOutsideTheSync(o, ds, side, id);
  }

  /** If resources find folders, stored in the end is exactly what was stored and what the other side shares. */
  lemma DrainedRunStoresIff(o: System, ds: seq<Delivery>, side: Side, id: ResourceId)
    requires Start(o) && Feasible(o, ds) && Drained(Run(o, ds)) && Placeable(SettingOf(o), side)
    ensures id in Run(o, ds).At(side).store <==> id in o.At(side).store || id in o.At(Other(side)).sharedWithPeer
  {
    assert id in o.At(Other(side)).sharedWithPeer ==> id in AllListed(o);
    hide Start, Feasible, Run, Drained, Placeable, AllListed, SettingOf;
    DrainedRunStoresEverything(o, ds, side);
    DrainedKeepsStored(o, ds, side);
    if id !in o.At(side).store && id !in o.At(Other(side)).sharedWithPeer {
      UnsharedNeverArrives(o, ds, side, id);
    }
  }

  lemma DrainedKeepsStored(o: System, ds: seq<Delivery>, side: Side)
    requires Start(o) && Feasible(o, ds) && Drained(Run(o, ds))
    ensures o.At(side).store.Keys <= Run(o, ds).At(side).store.Keys
  {
    hide Start, Run, Settled, SideOk, RowsInSync, ExchangeProgress, QuietUntilBegun, CompleteProgress, FolderProgress,
         AdditionsProgress, AllListed, StillMissing, Drained;
    DrainedMadeProgress(o, ds);
    AllStored(o, Run(o, ds), side);
  }

  /** The two rows have the same share records and the same clocks. */
  predicate SameBooks(x: Row, y: Row) {
    x.shares == y.shares && Values(x.clocks) == Values(y.clocks)
  }

  /** Both sides share the resource, so both store it all along. */
  predicate Common(o: System, id: ResourceId) {
    id in o.initiator.sharedWithPeer && id in o.responder.sharedWithPeer
  }

  lemma CommonIsInSyncIff(o: System, id: ResourceId)
    requires Start(o) && Common(o, id)
    ensures id in o.initiator.store && id in o.responder.store
    ensures id in SettingOf(o).Syncs() <==> !SameBooks(o.initiator.store[id], o.responder.store[id])
    ensures id !in Sending(o, Initiator) && id !in Sending(o, Responder)
  {
    var a, b := o.initiator.store[id], o.responder.store[id];
    assert LocalView(o.initiator).resources[id] == ResourceView(a.shares, Values(a.clocks));
    assert LocalView(o.responder).resources[id] == ResourceView(b.shares, Values(b.clocks));
  }

  lemma CommonUntouched(o: System, ds: seq<Delivery>, side: Side, id: ResourceId)
    requires Start(o) && Feasible(o, ds) && Common(o, id) && id !in SettingOf(o).Syncs()
    ensures id in o.At(side).store && id in Run(o, ds).At(side).store && Run(o, ds).At(side).store[id] == o.At(side).store[id]
  {
    CommonIsInSyncIff(o, id);
    SendsIsSending(o, side);
    SendsIsSending(o, Other(side));
    assert Other(Other(side)) == side;
    hide Start, Feasible, Run, Incoming, Clashing, Setting.Needs, Setting.Sends, Setting.Syncs, Placed, Outgoing, SameBooks, Sending;
    RowsOutsideTheSync(o, ds, side, id);
  }

  /** The exchanges can start: the responder sends nothing, or the initiator something and none of it is refused. */
  ghost predicate CanStart(o: System) {
    Sending(o, Responder) == {} || (Sending(o, Initiator) != {} && Clashing(SettingOf(o), Responder) == {})
  }

  lemma CanStartIsWillTake(o: System)
    requires Start(o)
    ensures CanStart(o) <==> WillTake(SettingOf(o))
  {
    SendsIsSending(o, Initiator);
    SendsIsSending(o, Responder);
    hide Start, Sending, Clashing, SettingOf;
  }

  /**
   A resource both sides share ends with the same share records and clocks on both exactly if it had them
   from the start, or the exchanges can start and no user has different keys.
   */
  lemma CommonResourceAgreesIff(o: System, ds: seq<Delivery>, id: ResourceId)
    requires Start(o) && Feasible(o, ds) && Drained(Run(o, ds)) && Placeable(SettingOf(o), Responder) && Common(o, id)
    ensures var s := Run(o, ds);
      && id in o.initiator.store && id in o.responder.store && id in s.initiator.store && id in s.responder.store
      && var a, b := o.initiator.store[id], o.responder.store[id];
         (SameBooks(s.initiator.store[id], s.responder.store[id]) <==>
            SameBooks(a, b) || (CanStart(o) && forall u :: u in a.keys && u in b.keys ==> a.keys[u] == b.keys[u]))
  {
    var g, s := SettingOf(o), Run(o, ds);
    CommonIsInSyncIff(o, id);
    CanStartIsWillTake(o);
    assert g.start == o;
    hide SettingOf, Setting.Syncs, CanStart, WillTake, SameBooks;
    if id in g.Syncs() {
      DrainedRunReconcilesIff(o, ds);
      ReconciledBooks(g, s, id);
    } else {
      CommonUntouched(o, ds, Initiator, id);
      CommonUntouched(o, ds, Responder, id);
    }
  }

  lemma ReconciledBooks(g: Setting, s: System, id: ResourceId)
    requires RowsInSync(g, s) && id in g.Syncs()
    ensures RowReconciled(g, s, id) ==> SameBooks(s.initiator.store[id], s.responder.store[id])
    ensures RowBooksKept(g, s, id) || RowUntouched(g, s, id) ==>
      (SameBooks(s.initiator.store[id], s.responder.store[id]) <==>
       SameBooks(g.start.initiator.store[id], g.start.responder.store[id]))
    ensures var a, b := g.start.initiator.store[id].keys, g.start.responder.store[id].keys;
      KeysAgreeOn(g, id) <==> forall u :: u in a && u in b ==> a[u] == b[u]
  {
    hide RowsOk, DocsReconciled;
  }
}
