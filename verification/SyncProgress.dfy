/**
 Progress of user-sync runs: every goal of the run is met or a message that will see to it is in
 flight, so a drained run has met them all.
 */
module SyncProgress {
  import opened Wrappers
  import opened ResourceDocs
  import opened Exchange
  import opened Manifest
  import opened VectorClock
  import opened Peer
  import opened SyncRows
  import opened SyncRun
  import opened SyncSafety

  // Bags after a delivery

  lemma HasAfter(s: System, side: Side, m: Message, to: Side, t: Tag)
    requires m in s.To(side) && Has(s.To(to), t) && !(to == side && TagOf(m) == t)
    ensures Has(Deliver(s, side, m).To(to), t)
  {
  }

  lemma SentAfter(s: System, side: Side, m: Message, x: Message)
    requires m in s.To(side) && x in Handle(s.At(side), m).sends
    ensures Has(Deliver(s, side, m).To(Other(side)), TagOf(x))
  {
  }

  // Chains of messages, each answered by the next

  datatype Stage = Stage(side: Side, tag: Tag)

  ghost predicate InFlightFor(s: System, stage: Stage) {
    Has(s.To(stage.side), stage.tag)
  }

  lemma AwaitedIs(s: System, stage: Stage)
    requires Has(s.To(stage.side), stage.tag)
    ensures InFlightFor(s, stage)
  {
  }

  /** A message of one of the chain's first stages, up to and including `k`, is in flight. */
  ghost predicate Pending(s: System, chain: seq<Stage>, k: nat) {
    exists j: nat :: j <= k && j < |chain| && InFlightFor(s, chain[j])
  }

  lemma PendingStep(s: System, side: Side, m: Message, chain: seq<Stage>, k: nat)
    requires m in s.To(side) && k < |chain| && Pending(s, chain, k)
    requires forall j: nat :: j < k && chain[j] == Stage(side, TagOf(m)) ==> InFlightFor(Deliver(s, side, m), chain[j + 1])
    ensures Pending(Deliver(s, side, m), chain, k) || chain[k] == Stage(side, TagOf(m))
  {
    hide Deliver;
    var j: nat :| j <= k && j < |chain| && InFlightFor(s, chain[j]);
    if chain[j] != Stage(side, TagOf(m)) {
      HasAfter(s, side, m, chain[j].side, chain[j].tag);
      assert InFlightFor(Deliver(s, side, m), chain[j]);
    } else if j < k {
      assert InFlightFor(Deliver(s, side, m), chain[j + 1]);
    }
  }

  // Folders

  const FOLDER_CHAIN: seq<Stage> := [
    Stage(Responder, TNetworkSync), Stage(Initiator, TNetworkSyncAck),
    Stage(Responder, TUnknownFolders), Stage(Initiator, TUnknownFolders),
    Stage(Responder, TFolderRecipients), Stage(Initiator, TFolderRecipients)]

  /** The side has every folder that arrives, with all the records of the other side. */
  ghost predicate FoldersDone(g: Setting, side: Side, p: Peer) {
    forall f :: f in Arriving(g, side) ==>
      f in p.folders && RecipientsOf(g.Begin(Other(side)).recipients, f) <= RecipientsOf(p.recipients, f)
  }

  /** The side has the other side's records of every folder whose recipients differed. */
  ghost predicate RecipientsDone(g: Setting, side: Side, p: Peer) {
    forall f :: f in g.Plan(side).foldersRequiringRecipientSync ==>
      RecipientsOf(g.Begin(Other(side)).recipients, f) <= RecipientsOf(p.recipients, f)
  }

  /** What delivering a message of stage `k` of the folder chain achieves. */
  ghost predicate FolderGoal(g: Setting, s: System, k: nat) {
    && (k == 2 ==> FoldersDone(g, Responder, s.responder))
    && (k == 3 ==> FoldersDone(g, Initiator, s.initiator))
    && (k == 4 ==> RecipientsDone(g, Responder, s.responder) && s.responderSent)
    && (k == 5 ==> RecipientsDone(g, Initiator, s.initiator) && s.initiatorSent)
  }

  ghost predicate FolderProgress(g: Setting, s: System) {
    forall k: nat :: 2 <= k <= 5 ==> Pending(s, FOLDER_CHAIN, k) || FolderGoal(g, s, k)
  }

  lemma RecordsGrow(p: Peer, m: Message)
    ensures p.folders <= Handle(p, m).peer.folders
    ensures forall f :: RecipientsOf(p.recipients, f) <= RecipientsOf(Handle(p, m).peer.recipients, f)
  {
  }

  lemma FolderGoalStays(g: Setting, s: System, side: Side, m: Message, k: nat)
    requires m in s.To(side) && FolderGoal(g, s, k)
    ensures FolderGoal(g, Deliver(s, side, m), k)
  {
    hide Handle;
    RecordsGrow(s.At(side), m);
  }

  /** The answer to a message of the folder chain is a message of its next stage. */
  lemma FolderAnswer(g: Setting, side: Side, p: Peer, m: Message, j: nat)
    requires Settled(g) && SideOk(g, side, p) && PlainFits(g, side, m)
    requires j < 5 && FOLDER_CHAIN[j] == Stage(side, TagOf(m))
    ensures FOLDER_CHAIN[j + 1].side == Other(side)
    ensures exists x :: x in Handle(p, m).sends && TagOf(x) == FOLDER_CHAIN[j + 1].tag
  {
    hide SideOk, Settled, PlainFits, Handle;
    if j == 4 {
      RecipientsAnswered(g, side, p, m);
    } else {
      ManifestKnown(g, side, p);
      EarlyAnswer(g, side, p, m, j);
    }
  }

  lemma EarlyAnswer(g: Setting, side: Side, p: Peer, m: Message, j: nat)
    requires j < 4 && FOLDER_CHAIN[j] == Stage(side, TagOf(m))
    requires p.manifest.Some? && (p.isInitiator <==> side.Initiator?)
    ensures exists x :: x in Handle(p, m).sends && TagOf(x) == FOLDER_CHAIN[j + 1].tag
  {
    hide AddRecipients, MissingRecipients, FolderRecords;
    var plan, p' := p.manifest.value, Handle(p, m).peer;
    var x := if j == 0 then NetworkSyncAck
      else if j == 1 then UnknownFolders(FolderRecords(p, plan.remoteMissing.unknownFolders))
      else if j == 2 then UnknownFolders(FolderRecords(p', plan.remoteMissing.unknownFolders))
      else FolderRecipients(MissingRecipients(p', plan.foldersRequiringRecipientSync));
    assert x in Handle(p, m).sends;
  }

  lemma RecipientsAnswered(g: Setting, side: Side, p: Peer, m: Message)
    requires Settled(g) && SideOk(g, side, p) && m.FolderRecipients? && PlainFits(g, side, m) && side.Responder?
    ensures exists x :: x in Handle(p, m).sends && TagOf(x) == TFolderRecipients
  {
    hide SideOk, Settled, PlainFits, SendResources, AddRecipients, MissingRecipients, Handle;
    RecipientsSends(g, side, p, m);
    var x := FolderRecipients(MissingRecipients(
      p.(recipients := AddRecipients(p.recipients, m.updates)), g.Plan(side).foldersRequiringRecipientSync));
    assert x in Handle(p, m).sends;
  }

  lemma FolderChainMoves(g: Setting, s: System, side: Side, m: Message, j: nat)
    requires Settled(g) && Safe(g, s) && m in s.To(side)
    requires j < 5 && FOLDER_CHAIN[j] == Stage(side, TagOf(m))
    ensures InFlightFor(Deliver(s, side, m), FOLDER_CHAIN[j + 1])
  {
    hide Handle, SideOk, Settled, Deliver, PlainFits, ExchangeFits, Safe, InFlightFor;
    InFlight(g, s, side, m);
    FolderAnswer(g, side, s.At(side), m, j);
    var x :| x in Handle(s.At(side), m).sends && TagOf(x) == FOLDER_CHAIN[j + 1].tag;
    SentAfter(s, side, m, x);
    AwaitedIs(Deliver(s, side, m), FOLDER_CHAIN[j + 1]);
  }

  lemma FoldersReached(g: Setting, side: Side, p: Peer, m: Message)
    requires m.UnknownFolders? && PlainFits(g, side, m)
    ensures FoldersDone(g, side, Handle(p, m).peer)
  {
  }

  lemma RecipientsReached(g: Setting, side: Side, p: Peer, m: Message)
    requires Settled(g) && SideOk(g, side, p) && m.FolderRecipients? && PlainFits(g, side, m)
    ensures RecipientsDone(g, side, Handle(p, m).peer)
  {
    hide StoreOk;
    var p' := p.(recipients := AddRecipients(p.recipients, m.updates));
    assert Handle(p, m).peer.recipients == p'.recipients by {
      ManifestKnown(g, side, p);
    }
    forall f | f in g.Plan(side).foldersRequiringRecipientSync
      ensures RecipientsOf(g.Begin(Other(side)).recipients, f) <= RecipientsOf(p'.recipients, f)
    {
      assert RecipientsOf(p'.recipients, f) == RecipientsOf(p.recipients, f) + RecipientsOf(m.updates, f);
      assert RecipientsOf(g.Begin(side).recipients, f) <= RecipientsOf(p.recipients, f);
    }
  }

  lemma FolderGoalReached(g: Setting, s: System, side: Side, m: Message, k: nat)
    requires Settled(g) && Safe(g, s) && m in s.To(side)
    requires 2 <= k <= 5 && FOLDER_CHAIN[k] == Stage(side, TagOf(m))
    ensures FolderGoal(g, Deliver(s, side, m), k)
  {
    hide Handle, SideOk, Settled, FoldersDone, RecipientsDone, PlainFits;
    InFlight(g, s, side, m);
    if k <= 3 {
      FoldersReached(g, side, s.At(side), m);
    } else {
      RecipientsReached(g, side, s.At(side), m);
    }
  }

  lemma FolderProgressStep(g: Setting, s: System, side: Side, m: Message)
    requires Settled(g) && Safe(g, s) && m in s.To(side) && FolderProgress(g, s)
    ensures FolderProgress(g, Deliver(s, side, m))
  {
    hide Safe, Settled, Deliver, FolderGoal, InFlightFor, Pending;
    forall k: nat | 2 <= k <= 5 ensures Pending(Deliver(s, side, m), FOLDER_CHAIN, k) || FolderGoal(g, Deliver(s, side, m), k) {
      if FolderGoal(g, s, k) {
        FolderGoalStays(g, s, side, m, k);
      } else {
        forall j: nat | j < k && FOLDER_CHAIN[j] == Stage(side, TagOf(m))
          ensures InFlightFor(Deliver(s, side, m), FOLDER_CHAIN[j + 1])
        {
          FolderChainMoves(g, s, side, m, j);
        }
        PendingStep(s, side, m, FOLDER_CHAIN, k);
        if FOLDER_CHAIN[k] == Stage(side, TagOf(m)) {
          FolderGoalReached(g, s, side, m, k);
        }
      }
    }
  }

  // Resources the sides lack

  /**
   Once the other side has sent its resources, each one still missing is in flight, unless its addition
   clashes; folders must be found for all of them.
   */
  ghost predicate AdditionsProgress(g: Setting, s: System, side: Side) {
    Placeable(g, side) && s.Sent(Other(side)) ==>
      forall id :: id in StillMissing(s.At(side)) && id !in Clashing(g, side) ==> Has(s.To(side), TAddition(id))
  }

  lemma MissingAfter(g: Setting, side: Side, p: Peer, m: Message)
    requires Settled(g) && SideOk(g, side, p) && (IsExchange(m) || PlainFits(g, side, m))
    ensures StillMissing(Handle(p, m).peer) ==
      if m.ResourceAdditionRequest? && Handle(p, m).ok then StillMissing(p) - {m.id} else StillMissing(p)
  {
    if m.ResourceAdditionRequest? {
      AdditionAnswered(g, side, p, m);
    } else {
      hide SideOk, Settled;
      OthersKeepManifest(p, m);
    }
  }

  lemma OthersKeepManifest(p: Peer, m: Message)
    requires !m.ManifestRequest? && !m.ManifestResponse? && !m.ResourceAdditionRequest?
    ensures Handle(p, m).peer.manifest == p.manifest
  {
    hide RowAfterFinal, RowAfterClocks, KeysClash;
  }

  lemma AdditionsSent(g: Setting, side: Side, p: Peer, m: Message, id: ResourceId)
    requires Settled(g) && SideOk(g, side, p) && m.FolderRecipients? && PlainFits(g, side, m) && id in g.Sends(side)
    ensures exists x :: x in Handle(p, m).sends && TagOf(x) == TAddition(id)
  {
    hide Settled, SideOk, PlainFits, Handle, SendResources;
    RecipientsSends(g, side, p, m);
    ResourcesSent(g, side, p.(recipients := AddRecipients(p.recipients, m.updates)));
    var x := ResourceAdditionRequest(id, Incoming(g, Other(side))[id]);
    assert x in AdditionRequests(Incoming(g, Other(side)), g.Sends(side));
    assert x in Handle(p, m).sends;
  }

  lemma AdditionsProgressStep(g: Setting, s: System, side: Side, m: Message, x: Side)
    requires Settled(g) && Safe(g, s) && m in s.To(side) && AdditionsProgress(g, s, x)
    ensures AdditionsProgress(g, Deliver(s, side, m), x)
  {
    hide Handle, SideOk, Settled, PlainFits, ExchangeFits, RowsInSync, Has, StillMissing, Clashing, Placeable, PlaceInFolder, Safe;
    InFlight(g, s, side, m);
    MissingAfter(g, side, s.At(side), m);
    if m.ResourceAdditionRequest? && Placeable(g, side) {
      AdditionHandled(g, side, s.At(side), m);
      PlaceFound(g, side, s.At(side), m);
    }
    StoresAfter(s, side, m);
    var s' := Deliver(s, side, m);
    if Placeable(g, x) && s'.Sent(Other(x)) {
      forall id | id in StillMissing(s'.At(x)) && id !in Clashing(g, x) ensures Has(s'.To(x), TAddition(id)) {
        if s.Sent(Other(x)) {
          hide Deliver;
          HasAfter(s, side, m, x, TAddition(id));
        } else {
          SentNow(g, s, side, m, x, id);
        }
      }
    }
  }

  /** The delivery that makes the other side send puts every resource still missing in flight. */
  lemma SentNow(g: Setting, s: System, side: Side, m: Message, x: Side, id: ResourceId)
    requires Settled(g) && Safe(g, s) && m in s.To(side)
    requires !s.Sent(Other(x)) && Deliver(s, side, m).Sent(Other(x)) && id in StillMissing(Deliver(s, side, m).At(x))
    ensures Has(Deliver(s, side, m).To(x), TAddition(id))
  {
    assert side == Other(x) && m.FolderRecipients?;
    StoresAfter(s, side, m);
    hide Handle, SideOk, Settled, PlainFits, ExchangeFits, RowsInSync, Has, StillMissing, Deliver;
    StillMissingIsSent(g, s, x);
    InFlight(g, s, side, m);
    AdditionsSent(g, side, s.At(side), m, id);
    var a :| a in Handle(s.At(side), m).sends && TagOf(a) == TAddition(id);
    SentAfter(s, side, m, a);
  }

  lemma StillMissingIsSent(g: Setting, s: System, side: Side)
    requires Settled(g) && Safe(g, s)
    ensures StillMissing(s.At(side)) <= g.Sends(Other(side))
  {
  }

  // The message that starts the exchanges

  /** Something will start the exchanges, if the responder sends nothing or the initiator something. */
  ghost predicate CompleteProgress(g: Setting, s: System) {
    && (s.responderSent && g.Sends(Responder) == {} ==> s.begun || Has(s.toInitiator, TComplete))
    && (g.Sends(Initiator) != {} ==> s.begun || Has(s.toInitiator, TComplete) || StillMissing(s.responder) != {})
  }

  lemma CompleteSent(g: Setting, p: Peer, m: Message)
    requires Settled(g) && SideOk(g, Responder, p) && PlainFits(g, Responder, m)
    ensures m.FolderRecipients? && g.Sends(Responder) == {} ==> ResourceAdditionComplete in Handle(p, m).sends
    ensures m.ResourceAdditionRequest? && Handle(p, m).ok && StillMissing(Handle(p, m).peer) == {} ==>
      ResourceAdditionComplete in Handle(p, m).sends
    ensures ResourceAdditionComplete in Handle(p, m).sends ==>
      || (m.ResourceAdditionRequest? && StillMissing(Handle(p, m).peer) == {})
      || (m.FolderRecipients? && g.Sends(Responder) == {})
  {
    if m.FolderRecipients? {
      CompleteSentWithResources(g, p, m);
    } else if m.ResourceAdditionRequest? {
      AdditionAnswered(g, Responder, p, m);
      hide Handle;
    } else {
      ManifestKnown(g, Responder, p);
    }
    hide SideOk, Settled;
  }

  lemma CompleteSentWithResources(g: Setting, p: Peer, m: Message)
    requires Settled(g) && SideOk(g, Responder, p) && PlainFits(g, Responder, m) && m.FolderRecipients?
    ensures ResourceAdditionComplete in Handle(p, m).sends <==> g.Sends(Responder) == {}
  {
  }

  lemma CompleteProgressStep(g: Setting, s: System, side: Side, m: Message)
    requires Settled(g) && Safe(g, s) && m in s.To(side) && CompleteProgress(g, s)
    ensures CompleteProgress(g, Deliver(s, side, m))
  {
    hide Handle, SideOk, Settled, PlainFits, ExchangeFits, RowsInSync, Has, StillMissing;
    InFlight(g, s, side, m);
    var s' := Deliver(s, side, m);
    if !s'.begun && Has(s.toInitiator, TComplete) {
      HasAfter(s, side, m, Initiator, TComplete);
    } else if side.Responder? {
      MissingAfter(g, side, s.responder, m);
      if !IsExchange(m) {
        CompleteSent(g, s.responder, m);
        if ResourceAdditionComplete in Handle(s.responder, m).sends {
          SentAfter(s, side, m, ResourceAdditionComplete);
        }
      }
    }
  }

  // Before the exchanges start

  /** Nothing of an exchange is in flight and the rows in sync are as they were. */
  ghost predicate Quiet(g: Setting, s: System) {
    && (forall x :: x in s.toInitiator + s.toResponder ==> !IsExchange(x))
    && KeepsSyncRows(g, g.start.initiator.store, s.initiator.store)
    && KeepsSyncRows(g, g.start.responder.store, s.responder.store)
  }

  /** If the responder has something to send, the exchanges start only after it has received something, and everything. */
  ghost predicate QuietUntilBegun(g: Setting, s: System) {
    && (!s.begun ==> Quiet(g, s))
    && (g.Sends(Responder) != {} && (s.begun || ResourceAdditionComplete in s.toInitiator) ==>
          g.Sends(Initiator) != {} && StillMissing(s.responder) == {})
  }

  lemma PlainDelivery(g: Setting, s: System, side: Side, m: Message)
    requires Settled(g) && Safe(g, s) && m in s.To(side) && !IsExchange(m)
    requires m.ResourceAdditionComplete? ==> side.Responder?
    ensures KeepsSyncRows(g, s.At(side).store, Handle(s.At(side), m).peer.store)
    ensures forall x :: x in Handle(s.At(side), m).sends ==> !IsExchange(x)
  {
    hide Handle, SideOk, Settled, PlainFits, RowsOk;
    InFlight(g, s, side, m);
    if m.ResourceAdditionComplete? {
      BeganExchanges(g, side, s.At(side));
    } else {
      PlainHandled(g, side, s.At(side), m);
    }
  }

  lemma QuietStep(g: Setting, s: System, side: Side, m: Message)
    requires Settled(g) && Safe(g, s) && m in s.To(side) && Quiet(g, s) && !Deliver(s, side, m).begun
    ensures Quiet(g, Deliver(s, side, m))
  {
    hide Handle, Safe, Settled, IsExchange;
    assert m in s.toInitiator + s.toResponder;
    assert m.ResourceAdditionComplete? ==> side.Responder?;
    PlainDelivery(g, s, side, m);
    BagsStayPlain(s, side, m);
    hide Deliver;
    StoresAfter(s, side, m);
  }

  lemma BagsStayPlain(s: System, side: Side, m: Message)
    requires m in s.To(side)
    requires forall x :: x in s.toInitiator + s.toResponder ==> !IsExchange(x)
    requires forall x :: x in Handle(s.At(side), m).sends ==> !IsExchange(x)
    ensures forall x :: x in Deliver(s, side, m).toInitiator + Deliver(s, side, m).toResponder ==> !IsExchange(x)
  {
  }

  lemma QuietUntilBegunStep(g: Setting, s: System, side: Side, m: Message)
    requires Settled(g) && Safe(g, s) && m in s.To(side) && QuietUntilBegun(g, s)
    ensures QuietUntilBegun(g, Deliver(s, side, m))
  {
    InFlight(g, s, side, m);
    MissingAfter(g, side, s.At(side), m);
    hide Handle, SideOk, Settled, RowsInSync, Quiet, PlainFits, StillMissing, ExchangeFits;
    var s' := Deliver(s, side, m);
    if !s'.begun {
      QuietStep(g, s, side, m);
    }
    if side.Responder? && ResourceAdditionComplete in Handle(s.responder, m).sends {
      if IsExchange(m) {
        ExchangesSendExchanges(s.responder, m);
      } else {
        CompleteSent(g, s.responder, m);
        if m.ResourceAdditionRequest? {
          AdditionsAreSent(g, m);
        }
      }
    }
  }

  lemma ExchangesSendExchanges(p: Peer, m: Message)
    requires IsExchange(m)
    ensures ResourceAdditionComplete !in Handle(p, m).sends
  {
    hide Reply, RowAfterFinal, RowAfterClocks, KeysClash;
  }

  lemma AdditionsAreSent(g: Setting, m: Message)
    requires Settled(g) && !IsExchange(m) && PlainFits(g, Responder, m) && m.ResourceAdditionRequest?
    ensures g.Sends(Initiator) != {}
  {
    assert m.id in g.Sends(Initiator);
  }

  // Exchanges

  function ExchangeChain(id: ResourceId): (chain: seq<Stage>)
    ensures |chain| == 4
  {
    [Stage(Responder, TVectors(id)), Stage(Initiator, TUpdates(id)), Stage(Responder, TFinal(id)), Stage(Initiator, TClocks(id))]
  }

  /** What delivering a message of stage `k` of an exchange achieves for the two rows. */
  ghost predicate RowGoal(a: Row, b: Row, x: Row, y: Row, k: nat) {
    && (k == 1 ==> CaughtUp(x.kind, x.docs, b.docs))
    && (k == 2 ==> CaughtUp(y.kind, y.docs, a.docs) && (KeysAgree(a, b) ==> BookOf(y) == MergedBook(a, b)))
    && (k == 3 ==> KeysAgree(a, b) ==> BookOf(x) == MergedBook(a, b))
  }

  ghost predicate ExchangeGoal(g: Setting, s: System, id: ResourceId, k: nat)
    requires RowsInSync(g, s) && id in g.Syncs()
  {
    RowGoal(g.start.initiator.store[id], g.start.responder.store[id], s.initiator.store[id], s.responder.store[id], k)
  }

  ghost predicate ExchangeProgress(g: Setting, s: System)
    requires RowsInSync(g, s)
  {
    s.begun ==> forall id, k: nat :: id in g.Syncs() && 1 <= k <= 3 ==>
      Pending(s, ExchangeChain(id), k) || ExchangeGoal(g, s, id, k)
  }

  lemma RowGoalStays(a: Row, b: Row, x: Row, y: Row, x': Row, y': Row, k: nat)
    requires Moves(a, b, x, y, x', y') && RowGoal(a, b, x, y, k)
    ensures RowGoal(a, b, x', y', k)
  {
    hide CaughtUp, Grown;
    if k == 1 {
      CaughtUpStays(x.kind, x.docs, x'.docs, b.docs);
    } else if k == 2 {
      CaughtUpStays(y.kind, y.docs, y'.docs, a.docs);
    }
  }

  lemma RowGoalReached(a: Row, b: Row, x: Row, y: Row, m: Message, z: Row, k: nat)
    requires RowsOk(a, b, x, y) && IsExchange(m) && ExchangeOk(a, b, x, y, m)
    requires 1 <= k <= 3 && TagOf(m) == ExchangeChain(m.id)[k].tag
    requires m.UpdatesResponse? ==> z == UpdatedRow(x, m.payload)
    requires m.FinalUpdateMerge? ==> z == RowAfterFinal(y, m)
    requires m.VectorClockResponse? ==> z == RowAfterClocks(x, m)
    ensures RowGoal(a, b, if k == 2 then x else z, if k == 2 then z else y, k)
  {
    hide CaughtUp, RowsOk, ExchangeOk, UpdatedRow, RowAfterFinal, RowAfterClocks, KeysAgree;
    if k == 1 {
      UpdatesDelivered(a, b, x, y, m);
    } else if k == 2 {
      FinalDelivered(a, b, x, y, m);
    } else {
      ClocksDelivered(a, b, x, y, m);
    }
  }

  lemma ExchangeAnswer(side: Side, p: Peer, m: Message, j: nat)
    requires IsExchange(m) && m.id in p.store && j < 3 && ExchangeChain(m.id)[j] == Stage(side, TagOf(m))
    requires j == 2 ==> Handle(p, m).ok
    ensures ExchangeChain(m.id)[j + 1].side == Other(side)
    ensures exists x :: x in Handle(p, m).sends && TagOf(x) == ExchangeChain(m.id)[j + 1].tag
  {
    hide Reply, Synced, RowAfterFinal, UpdatedRow, KeysClash;
    var row := p.store[m.id];
    var x := if j == 0 then UpdatesResponse(m.id, Reply(row.kind, row.docs, m.stateVectors))
      else if j == 1 then FinalFrom(m.id, row, m.payload)
      else ClockResponseFrom(row, m);
    assert x in Handle(p, m).sends;
  }

  lemma ExchangeChainMoves(g: Setting, s: System, side: Side, m: Message, id: ResourceId, j: nat)
    requires RowsInSync(g, s) && Safe(g, s) && m in s.To(side) && id in g.Syncs()
    requires j < 3 && ExchangeChain(id)[j] == Stage(side, TagOf(m))
    requires j == 2 ==> KeysAgree(g.start.initiator.store[id], g.start.responder.store[id])
    ensures InFlightFor(Deliver(s, side, m), ExchangeChain(id)[j + 1])
  {
    hide Handle, SideOk, Deliver, Safe, Settled, RowsOk, ExchangeOk, RowStep, RowAfter, KeysAgree;
    InFlight(g, s, side, m);
    ExchangeDelivered(g, s, side, m);
    ExchangeAnswer(side, s.At(side), m, j);
    var x :| x in Handle(s.At(side), m).sends && TagOf(x) == ExchangeChain(id)[j + 1].tag;
    SentAfter(s, side, m, x);
  }

  lemma ExchangeGoalReached(g: Setting, s: System, side: Side, m: Message, id: ResourceId, k: nat)
    requires Safe(g, s) && m in s.To(side) && RowsInSync(g, Deliver(s, side, m)) && id in g.Syncs()
    requires 1 <= k <= 3 && ExchangeChain(id)[k] == Stage(side, TagOf(m))
    ensures ExchangeGoal(g, Deliver(s, side, m), id, k)
  {
    hide Handle, SideOk, RowsOk, ExchangeOk, RowGoal, UpdatedRow, RowAfterFinal, RowAfterClocks, RowStep, ExchangeAccepted;
    InFlight(g, s, side, m);
    ExchangeDelivered(g, s, side, m);
    RowGoalReached(g.start.initiator.store[id], g.start.responder.store[id], s.initiator.store[id], s.responder.store[id],
                   m, RowAfter(s.At(side), m), k);
  }

  lemma RowsMoveStep(g: Setting, s: System, side: Side, m: Message)
    requires Settled(g) && Safe(g, s) && m in s.To(side)
    ensures RowsMove(g, s, Deliver(s, side, m))
  {
    hide Handle, SideOk, Settled, RowStep, RowAfter, RowsMove, RowsInSync, Moves, Fits, PlainFits, RowsOk, KeepsSyncRows;
    InFlight(g, s, side, m);
    if IsExchange(m) {
      ExchangeDelivered(g, s, side, m) by {
        assert Fits(g, s, side, m);
      }
      OneRowMoved(g, s, Deliver(s, side, m), side, m.id, RowAfter(s.At(side), m), Handle(s.At(side), m).sends);
    } else {
      RowsKept(g, s, side, m);
    }
  }

  lemma RowsKept(g: Setting, s: System, side: Side, m: Message)
    requires Settled(g) && Safe(g, s) && m in s.To(side) && !IsExchange(m)
    ensures RowsMove(g, s, Deliver(s, side, m))
  {
    hide Handle, SideOk, Settled, PlainFits, RowsOk, Moves;
    InFlight(g, s, side, m);
    if m.ResourceAdditionComplete? {
      BeganExchanges(g, side, s.At(side));
    } else {
      PlainHandled(g, side, s.At(side), m);
    }
    RowsUntouched(g, s, Deliver(s, side, m));
  }

  lemma ExchangeGoalStays(g: Setting, s: System, s': System, id: ResourceId, k: nat)
    requires RowsInSync(g, s) && RowsInSync(g, s') && RowsMove(g, s, s') && id in g.Syncs() && ExchangeGoal(g, s, id, k)
    ensures ExchangeGoal(g, s', id, k)
  {
    hide RowsOk, RowGoal, Moves;
    RowGoalStays(g.start.initiator.store[id], g.start.responder.store[id], s.initiator.store[id], s.responder.store[id],
                 s'.initiator.store[id], s'.responder.store[id], k);
  }

  lemma ExchangesBegin(g: Setting, s: System, m: Message, id: ResourceId)
    requires Settled(g) && Safe(g, s) && m in s.toInitiator && m.ResourceAdditionComplete? && id in g.Syncs()
    ensures InFlightFor(Deliver(s, Initiator, m), ExchangeChain(id)[0])
  {
    hide Handle, SideOk, Settled, RowsOk, Deliver, AllFit, InFlightFor, StateVectors;
    InFlight(g, s, Initiator, m);
    BeganExchanges(g, Initiator, s.initiator);
    var x := StateVectorRequest(id, StateVectors(s.initiator.store[id].kind, s.initiator.store[id].docs));
    assert x in VectorRequests(s.initiator.store, g.Syncs());
    SentAfter(s, Initiator, m, x);
    AwaitedIs(Deliver(s, Initiator, m), ExchangeChain(id)[0]);
  }

  lemma OneExchangeProgressStep(g: Setting, s: System, side: Side, m: Message, id: ResourceId, k: nat)
    requires Safe(g, s) && m in s.To(side) && id in g.Syncs() && 1 <= k <= 3
    requires RowsInSync(g, s) && RowsInSync(g, Deliver(s, side, m)) && RowsMove(g, s, Deliver(s, side, m))
    requires Pending(s, ExchangeChain(id), k) || ExchangeGoal(g, s, id, k)
    ensures Pending(Deliver(s, side, m), ExchangeChain(id), k) || ExchangeGoal(g, Deliver(s, side, m), id, k)
  {
    assert k == 3 && !ExchangeGoal(g, s, id, k) ==> KeysAgree(g.start.initiator.store[id], g.start.responder.store[id]);
    hide Safe, RowsMove, Deliver, ExchangeGoal, Pending, InFlightFor, RowsOk, KeysAgree;
    if ExchangeGoal(g, s, id, k) {
      ExchangeGoalStays(g, s, Deliver(s, side, m), id, k);
    } else {
      forall j: nat | j < k && ExchangeChain(id)[j] == Stage(side, TagOf(m))
        ensures InFlightFor(Deliver(s, side, m), ExchangeChain(id)[j + 1])
      {
        ExchangeChainMoves(g, s, side, m, id, j);
      }
      PendingStep(s, side, m, ExchangeChain(id), k);
      if ExchangeChain(id)[k] == Stage(side, TagOf(m)) {
        ExchangeGoalReached(g, s, side, m, id, k);
      }
    }
  }

  lemma ExchangeProgressStep(g: Setting, s: System, side: Side, m: Message)
    requires Settled(g) && Safe(g, s) && m in s.To(side) && RowsInSync(g, Deliver(s, side, m)) && ExchangeProgress(g, s)
    ensures ExchangeProgress(g, Deliver(s, side, m))
  {
    hide SideOk, Settled, RowsInSync, RowsMove, ExchangeGoal, InFlightFor, Handle, AllFit, ExchangeChain;
    RowsMoveStep(g, s, side, m);
    forall id, k: nat | Deliver(s, side, m).begun && id in g.Syncs() && 1 <= k <= 3
      ensures Pending(Deliver(s, side, m), ExchangeChain(id), k) || ExchangeGoal(g, Deliver(s, side, m), id, k)
    {
      if s.begun {
        OneExchangeProgressStep(g, s, side, m, id, k);
      } else {
        ExchangesBegin(g, s, m, id);
      }
    }
  }

  // All of it

  ghost predicate Progress(g: Setting, s: System) {
    && Safe(g, s)
    && FolderProgress(g, s)
    && AdditionsProgress(g, s, Initiator) && AdditionsProgress(g, s, Responder)
    && CompleteProgress(g, s)
    && QuietUntilBegun(g, s)
    && ExchangeProgress(g, s)
  }

  lemma StepKeepsProgress(g: Setting, s: System, side: Side, m: Message)
    requires Settled(g) && Progress(g, s) && m in s.To(side)
    ensures Progress(g, Deliver(s, side, m))
  {
    hide Settled, Deliver, Handle, SideOk, RowsInSync, AllFit, FolderProgress, AdditionsProgress, CompleteProgress,
         QuietUntilBegun, ExchangeProgress;
    StepKeepsSafe(g, s, side, m);
    FolderProgressStep(g, s, side, m);
    AdditionsProgressStep(g, s, side, m, Initiator);
    AdditionsProgressStep(g, s, side, m, Responder);
    CompleteProgressStep(g, s, side, m);
    QuietUntilBegunStep(g, s, side, m);
    ExchangeProgressStep(g, s, side, m);
  }

  lemma ProgressAtOpening(g: Setting)
    requires IsRunOf(g) && Settled(g)
    ensures Progress(g, AfterOpening(g))
  {
    hide SideOk, RowsInSync, AllFit, Compare, LocalView;
    var s := AfterOpening(g);
    OpeningEnds(g);
    assert NetworkSync in s.toResponder;
    assert InFlightFor(s, FOLDER_CHAIN[0]);
    assert g.Sends(Initiator) == StillMissing(s.responder);
  }
}
