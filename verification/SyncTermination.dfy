/**
 Every user sync ends: each message has a weight that exceeds the weights of everything its handler
 sends together, whatever the order of deliveries and although folder sync runs in both directions.
 */
module SyncTermination {
  import opened Wrappers
  import opened ResourceDocs
  import opened Exchange
  import opened Manifest
  import opened VectorClock
  import opened Peer
  import opened SyncRows
  import opened SyncRun
  import opened SyncSafety
  import opened SyncConvergence

  /** Sizes the weights depend on: resources each side sends and resources in sync. */
  datatype Sizes = Sizes(fromInitiator: nat, fromResponder: nat, inSync: nat)
  {
    /** The start of all exchanges: four messages each. */
    function Complete(): nat { 4 * inSync + 1 }

    function RecipientsToInitiator(): nat { 2 + fromInitiator * (Complete() + 1) }

    function RecipientsToResponder(): nat { 1 + RecipientsToInitiator() + Complete() + 2 * fromResponder }
  }

  function SizesOf(g: Setting): Sizes {
    Sizes(|g.Sends(Initiator)|, |g.Sends(Responder)|, |g.Syncs()|)
  }

  function AdditionWeight(z: Sizes, side: Side): nat {
    if side.Initiator? then 2 else z.Complete() + 1
  }

  function Weight(z: Sizes, side: Side, m: Message): nat {
    var last := z.RecipientsToResponder();
    match m
    case ManifestRequest(_) => 2 * last + 10
    case ManifestResponse(_) => 2 * last + 9
    case ManifestAck => 2 * last + 8
    case NetworkSync => if side.Initiator? then 2 * last + 7 else last + 4
    case NetworkSyncAck => if side.Initiator? then last + 3 else last + 2
    case UnknownFolders(_) => if side.Initiator? then last + 1 else last + 2
    case FolderRecipients(_) => if side.Initiator? then z.RecipientsToInitiator() else last
    case ResourceAdditionRequest(_, _) => AdditionWeight(z, side)
    case ResourceAdditionComplete => if side.Initiator? then z.Complete() else 1
    case StateVectorRequest(_, _) => 4
    case UpdatesResponse(_, _) => 3
    case FinalUpdateMerge(_, _, _, _, _) => 2
    case VectorClockResponse(_, _, _, _, _) => 1
  }

  // Totals over a bag

  ghost function Choice(bag: multiset<Message>): (m: Message)
    requires bag != multiset{}
    ensures m in bag
  {
    var m :| m in bag; m
  }

  ghost function Total(z: Sizes, side: Side, bag: multiset<Message>): nat {
    if bag == multiset{} then 0 else Weight(z, side, Choice(bag)) + Total(z, side, bag - multiset{Choice(bag)})
  }

  lemma {:induction false} TotalWithout(z: Sizes, side: Side, bag: multiset<Message>, m: Message)
    requires m in bag
    ensures Total(z, side, bag) == Weight(z, side, m) + Total(z, side, bag - multiset{m})
    decreases |bag|
  {
    hide Weight;
    var x := Choice(bag);
    if x != m {
      var less := bag - multiset{x};
      TotalWithout(z, side, less, m);
      TotalWithout(z, side, bag - multiset{m}, x);
      assert less - multiset{m} == bag - multiset{m} - multiset{x};
    }
  }

  lemma TotalWith(z: Sizes, side: Side, bag: multiset<Message>, m: Message)
    ensures Total(z, side, bag + multiset{m}) == Total(z, side, bag) + Weight(z, side, m)
  {
    TotalWithout(z, side, bag + multiset{m}, m);
    assert bag + multiset{m} - multiset{m} == bag;
  }

  lemma {:induction false} TotalOfSum(z: Sizes, side: Side, a: multiset<Message>, b: multiset<Message>)
    ensures Total(z, side, a + b) == Total(z, side, a) + Total(z, side, b)
    decreases |b|
  {
    hide Weight;
    if b == multiset{} {
      assert a + b == a;
    } else {
      var m :| m in b;
      TotalOfSum(z, side, a, b - multiset{m});
      TotalWithout(z, side, b, m);
      TotalWithout(z, side, a + b, m);
      assert a + b - multiset{m} == a + (b - multiset{m});
    }
  }

  lemma TotalOfNone(z: Sizes, side: Side)
    ensures Total(z, side, multiset{}) == 0
  {
  }

  lemma TotalOfOne(z: Sizes, side: Side, m: Message)
    ensures Total(z, side, multiset{m}) == Weight(z, side, m)
  {
  }

  lemma TotalOfTwo(z: Sizes, side: Side, m: Message, n: Message)
    ensures Total(z, side, multiset{m, n}) == Weight(z, side, m) + Weight(z, side, n)
  {
    assert multiset{m, n} == multiset{m} + multiset{n};
    TotalOfSum(z, side, multiset{m}, multiset{n});
    TotalOfOne(z, side, m);
    TotalOfOne(z, side, n);
  }

  lemma OneMore(n: nat, each: nat)
    ensures (n + 1) * each == n * each + each
  {
  }

  lemma {:induction false} TotalOfAdditions(z: Sizes, side: Side, rows: map<ResourceId, Row>, ids: set<ResourceId>)
    requires ids <= rows.Keys
    ensures Total(z, side, AdditionRequests(rows, ids)) == |ids| * AdditionWeight(z, side)
    decreases ids
  {
    hide Total, AdditionWeight;
    if ids == {} {
      TotalOfNone(z, side);
      assert AdditionRequests(rows, ids) == multiset{};
    } else {
      var id :| id in ids;
      var rest := ids - {id};
      TotalOfAdditions(z, side, rows, rest);
      TotalWith(z, side, AdditionRequests(rows, rest), ResourceAdditionRequest(id, rows[id]));
      assert AdditionRequests(rows, ids) == AdditionRequests(rows, rest) + multiset{ResourceAdditionRequest(id, rows[id])};
      OneMore(|rest|, AdditionWeight(z, side));
    }
  }

  lemma {:induction false} TotalOfVectorRequests(z: Sizes, rows: map<ResourceId, Row>, ids: set<ResourceId>)
    requires ids <= rows.Keys
    ensures Total(z, Responder, VectorRequests(rows, ids)) == 4 * |ids|
    decreases ids
  {
    hide StateVectors, Total;
    if ids == {} {
      assert Total(z, Responder, multiset{}) == 0 by {
        TotalOfNone(z, Responder);
      }
      assert VectorRequests(rows, ids) == multiset{};
    } else {
      var id :| id in ids;
      var rest := ids - {id};
      var m := StateVectorRequest(id, StateVectors(rows[id].kind, rows[id].docs));
      TotalOfVectorRequests(z, rows, rest);
      TotalWith(z, Responder, VectorRequests(rows, rest), m);
      assert VectorRequests(rows, ids) == VectorRequests(rows, rest) + multiset{m};
    }
  }

  // Every handler sends less than it was sent

  ghost predicate Lighter(g: Setting, side: Side, p: Peer, m: Message) {
    Total(SizesOf(g), Other(side), Handle(p, m).sends) < Weight(SizesOf(g), side, m)
  }

  lemma ResourcesWeigh(g: Setting, side: Side, p: Peer)
    requires Settled(g) && SideOk(g, side, p)
    ensures Total(SizesOf(g), Other(side), SendResources(p).sends) <=
      Weight(SizesOf(g), Other(side), ResourceAdditionComplete) + |g.Sends(side)| * AdditionWeight(SizesOf(g), Other(side))
  {
    hide Settled, SideOk, SendResources, AdditionRequests, Incoming, AdditionWeight, Weight;
    var z, sends, rows := SizesOf(g), g.Sends(side), Incoming(g, Other(side));
    ResourcesSent(g, side, p);
    TotalOfAdditions(z, Other(side), rows, sends);
    TotalOfOne(z, Other(side), ResourceAdditionComplete);
    TotalOfSum(z, Other(side), multiset{ResourceAdditionComplete}, AdditionRequests(rows, sends));
    assert multiset{} + AdditionRequests(rows, sends) == AdditionRequests(rows, sends);
  }

  /** The heaviest a recipients message can make a side send. */
  function RecipientsSend(g: Setting, side: Side): nat {
    var z, to := SizesOf(g), Other(side);
    (if side.Initiator? then 0 else z.RecipientsToInitiator()) +
    (if side.Initiator? then 1 else z.Complete()) +
    |g.Sends(side)| * AdditionWeight(z, to)
  }

  lemma RecipientsWeigh(g: Setting, side: Side, p: Peer, m: Message)
    requires Settled(g) && SideOk(g, side, p) && m.FolderRecipients? && PlainFits(g, side, m)
    ensures Total(SizesOf(g), Other(side), Handle(p, m).sends) <= RecipientsSend(g, side)
  {
    hide Settled, SideOk, PlainFits, Handle, SendResources, MissingRecipients, AddRecipients, AdditionWeight, SizesOf;
    var z, p' := SizesOf(g), p.(recipients := AddRecipients(p.recipients, m.updates));
    var answer := FolderRecipients(MissingRecipients(p', g.Plan(side).foldersRequiringRecipientSync));
    RecipientsSends(g, side, p, m);
    ResourcesWeigh(g, side, p');
    if side.Initiator? {
      assert SendResources(p').sends + multiset{} == SendResources(p').sends;
    } else {
      TotalOfOne(z, Other(side), answer);
      TotalOfSum(z, Other(side), SendResources(p').sends, multiset{answer});
    }
  }

  lemma RecipientsLighter(g: Setting, side: Side, p: Peer, m: Message)
    requires Settled(g) && SideOk(g, side, p) && m.FolderRecipients? && PlainFits(g, side, m)
    ensures Lighter(g, side, p, m)
  {
    hide Settled, SideOk, PlainFits, Handle;
    RecipientsWeigh(g, side, p, m);
  }

  lemma CompleteLighter(g: Setting, side: Side, p: Peer)
    requires Settled(g) && SideOk(g, side, p) && g.Syncs() <= p.store.Keys
    ensures Lighter(g, side, p, ResourceAdditionComplete)
  {
    hide Settled, SideOk, Handle;
    BeganExchanges(g, side, p);
    TotalOfVectorRequests(SizesOf(g), p.store, g.Syncs());
  }

  lemma SmallLighter(g: Setting, side: Side, p: Peer, m: Message)
    requires Settled(g) && SideOk(g, side, p)
    requires m.NetworkSync? || m.NetworkSyncAck? || m.UnknownFolders? || m.ResourceAdditionRequest?
    requires PlainFits(g, side, m)
    ensures Lighter(g, side, p, m)
  {
    hide SideOk, Settled, AddRow, AddRecipients, MissingRecipients, FolderRecords, PlainFits;
    hide Handle, Weight, SizesOf;
    var sends := Handle(p, m).sends;
    if sends == multiset{} {
      TotalOfNone(SizesOf(g), Other(side));
      SomeWeight(g, side, m);
    } else {
      OneSmallSend(g, side, p, m);
      var x :| x in sends;
      OnlyMember(sends, x);
      TotalOfOne(SizesOf(g), Other(side), x);
    }
  }

  lemma SomeWeight(g: Setting, side: Side, m: Message)
    ensures Weight(SizesOf(g), side, m) > 0
  {
  }

  lemma OnlyMember(bag: multiset<Message>, m: Message)
    requires m in bag && |bag| <= 1
    ensures bag == multiset{m}
  {
    assert |bag - multiset{m}| == 0;
    assert bag == bag - multiset{m} + multiset{m};
  }

  /** The handlers outside recipients and exchanges send at most one message. */
  lemma OneSmallSend(g: Setting, side: Side, p: Peer, m: Message)
    requires Settled(g) && SideOk(g, side, p)
    requires m.NetworkSync? || m.NetworkSyncAck? || m.UnknownFolders? || m.ResourceAdditionRequest?
    requires PlainFits(g, side, m)
    ensures |Handle(p, m).sends| <= 1
    ensures forall x :: x in Handle(p, m).sends ==> Weight(SizesOf(g), Other(side), x) < Weight(SizesOf(g), side, m)
  {
    hide SideOk, Settled, AddRow, AddRecipients, MissingRecipients, FolderRecords;
    ManifestKnown(g, side, p);
  }

  lemma ExchangeLighter(g: Setting, side: Side, p: Peer, m: Message)
    requires ExchangeFor(side, m) && m.id in p.store
    ensures Lighter(g, side, p, m)
  {
    hide Reply, Synced, RowAfterFinal, UpdatedRow, RowAfterClocks, ClockedRow, KeysClash, Total;
    var row := p.store[m.id];
    var x := if m.StateVectorRequest? then UpdatesResponse(m.id, Reply(row.kind, row.docs, m.stateVectors))
      else if m.UpdatesResponse? then FinalFrom(m.id, row, m.payload)
      else if m.FinalUpdateMerge? then ClockResponseFrom(row, m)
      else m;
    TotalOfOne(SizesOf(g), Other(side), x);
    TotalOfNone(SizesOf(g), Other(side));
    assert Handle(p, m).sends == multiset{} || (Handle(p, m).sends == multiset{x} && !m.VectorClockResponse?);
  }

  ghost function Load(g: Setting, s: System): nat {
    Total(SizesOf(g), Initiator, s.toInitiator) + Total(SizesOf(g), Responder, s.toResponder)
  }

  lemma LoadAfter(g: Setting, s: System, side: Side, m: Message)
    requires m in s.To(side) && Lighter(g, side, s.At(side), m)
    ensures Load(g, Deliver(s, side, m)) < Load(g, s)
  {
    hide Handle, Weight;
    TotalWithout(SizesOf(g), side, s.To(side), m);
    TotalOfSum(SizesOf(g), Other(side), s.To(Other(side)), Handle(s.At(side), m).sends);
  }

  lemma SafeLighter(g: Setting, s: System, side: Side, m: Message)
    requires Settled(g) && Safe(g, s) && m in s.To(side)
    ensures Lighter(g, side, s.At(side), m)
  {
    hide Settled, SideOk, Handle, Lighter, RowsOk, ExchangeOk;
    InFlight(g, s, side, m);
    if IsExchange(m) {
      ExchangeLighter(g, side, s.At(side), m);
    } else if m.ResourceAdditionComplete? {
      CompleteLighter(g, side, s.At(side));
    } else if m.FolderRecipients? {
      RecipientsLighter(g, side, s.At(side), m);
    } else {
      SmallLighter(g, side, s.At(side), m);
    }
  }

  lemma OpeningLoads(g: Setting)
    requires IsRunOf(g)
    ensures Load(g, g.start) > Load(g, AfterRequest(g)) > Load(g, AfterResponse(g)) > Load(g, AfterAck(g)) > Load(g, AfterOpening(g))
  {
    hide Compare, LocalView;
    var z := SizesOf(g);
    var lists: RequestPayload :| g.start.toResponder == multiset{ManifestRequest(lists)};
    TotalOfOne(z, Responder, ManifestRequest(lists));
    TotalOfOne(z, Initiator, ManifestResponse(g.responderPlan));
    TotalOfOne(z, Responder, ManifestAck);
    TotalOfOne(z, Initiator, NetworkSync);
    TotalOfTwo(z, Responder, NetworkSync, NetworkSyncAck);
  }

  lemma OpeningLighter(g: Setting, s: System, side: Side, m: Message)
    requires IsRunOf(g) && Opening(g, s) && m in s.To(side)
    ensures Load(g, Deliver(s, side, m)) < Load(g, s)
  {
    hide Deliver, Handle, IsRunOf, Load;
    OpeningLoads(g);
    if s == g.start {
      RequestOpens(g, side, m);
    } else if s == AfterRequest(g) {
      ResponseOpens(g, side, m);
    } else if s == AfterResponse(g) {
      AckOpens(g, side, m);
    } else {
      NetworkOpens(g, side, m);
    }
  }

  /** Every delivery of every reachable state makes the weight in flight strictly smaller. */
  lemma EveryDeliveryLightens(g: Setting, s: System, side: Side, m: Message)
    requires IsRunOf(g) && Settled(g) && Invariant(g, s) && m in s.To(side)
    ensures Load(g, Deliver(s, side, m)) < Load(g, s)
  {
    hide Deliver, Load, IsRunOf, Settled, Opening, Safe, Lighter;
    if Opening(g, s) {
      OpeningLighter(g, s, side, m);
    } else {
      SafeLighter(g, s, side, m);
      LoadAfter(g, s, side, m);
    }
  }

  lemma {:induction false} RunLightens(g: Setting, s: System, ds: seq<Delivery>)
    requires IsRunOf(g) && Settled(g) && Invariant(g, s) && Feasible(s, ds)
    ensures |ds| + Load(g, Run(s, ds)) <= Load(g, s)
    decreases |ds|
  {
    hide Deliver, Load, IsRunOf, Settled, Invariant;
    if ds != [] {
      EveryDeliveryLightens(g, s, ds[0].side, ds[0].message);
      StepKeepsInvariant(g, s, ds[0].side, ds[0].message);
      RunLightens(g, Deliver(s, ds[0].side, ds[0].message), ds[1..]);
    }
  }

  lemma FirstWeight(z: Sizes, lists: RequestPayload)
    ensures Weight(z, Responder, ManifestRequest(lists)) ==
      18 + 8 * z.inSync + 4 * z.fromResponder + 2 * (z.fromInitiator * (4 * z.inSync + 2))
  {
  }

  /** No run is longer than a bound that the two manifests determine. */
  lemma RunsAreBounded(o: System, ds: seq<Delivery>)
    requires Start(o) && Feasible(o, ds)
    ensures var z := SizesOf(SettingOf(o));
      |ds| <= 18 + 8 * z.inSync + 4 * z.fromResponder + 2 * (z.fromInitiator * (4 * z.inSync + 2))
  {
    hide LocalView, Compare, Weight, SizesOf;
    var z := SizesOf(SettingOf(o));
    var lists: RequestPayload :| o.toResponder == multiset{ManifestRequest(lists)};
    FirstWeight(z, lists);
    StartIsSettled(o);
    RunLightens(SettingOf(o), o, ds);
    TotalOfOne(z, Responder, ManifestRequest(lists));
  }

  lemma {:induction false} FinishFrom(g: Setting, s: System) returns (ds: seq<Delivery>)
    requires IsRunOf(g) && Settled(g) && Invariant(g, s)
    ensures Feasible(s, ds) && Drained(Run(s, ds))
    decreases Load(g, s)
  {
    hide Deliver, Load, IsRunOf, Settled, Invariant;
    if Drained(s) {
      ds := [];
    } else {
      var side := if s.toInitiator == multiset{} then Responder else Initiator;
      var m :| m in s.To(side);
      EveryDeliveryLightens(g, s, side, m);
      StepKeepsInvariant(g, s, side, m);
      var rest := FinishFrom(g, Deliver(s, side, m));
      ds := [Delivery(side, m)] + rest;
      assert ds[1..] == rest;
    }
  }

  lemma {:induction false} RunOfSum(s: System, ds: seq<Delivery>, more: seq<Delivery>)
    requires Feasible(s, ds) && Feasible(Run(s, ds), more)
    ensures Feasible(s, ds + more) && Run(s, ds + more) == Run(Run(s, ds), more)
    decreases |ds|
  {
    hide Deliver;
    if ds == [] {
      assert ds + more == more;
    } else {
      RunOfSum(Deliver(s, ds[0].side, ds[0].message), ds[1..], more);
      assert (ds + more)[1..] == ds[1..] + more;
    }
  }

  /** Every run can be continued to a drained one. */
  lemma EveryRunCanFinish(o: System, ds: seq<Delivery>)
    requires Start(o) && Feasible(o, ds)
    ensures exists more :: Feasible(o, ds + more) && Drained(Run(o, ds + more))
  {
    hide Start, Deliver;
    StartIsSettled(o);
    DeliveriesFailAsExpected(o, ds);
    var more := FinishFrom(SettingOf(o), Run(o, ds)) by {
      assert Start(o);
    }
    RunOfSum(o, ds, more);
  }
}
