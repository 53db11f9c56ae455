/**
 Runs of the document exchange of one resource between two peers: any number of exchanges at
 once, messages delivered in any order, and either side editing its stored documents at any time.
 */
module ExchangeRun {
  import opened Wrappers
  import opened Crdt
  import opened ResourceDocs
  import opened Exchange

  datatype Message = Request(payload: Payload) | Response(payload: Payload) | Final(payload: Payload)

  /**
   `history` collects every operation made so far.  A Yrs client id belongs to one document
   instance, so each side edits under its own clients only.
   */
  datatype State = State(
    kind: ResourceType,
    initiator: Docs,
    responder: Docs,
    history: Docs,
    initiatorClients: set<Client>,
    responderClients: set<Client>,
    inFlight: multiset<Message>,
    begun: bool)

  datatype Event =
    | EditInitiator(key: StateKey, client: Client, ops: seq<Op>)
    | EditResponder(key: StateKey, client: Client, ops: seq<Op>)
    | Begin
    | Deliver(message: Message)

  function Extend(d: Doc, c: Client, ops: seq<Op>): Doc
    requires ops != []
  {
    d[c := LogOf(d, c) + ops]
  }

  function AddOps(docs: Docs, k: StateKey, c: Client, ops: seq<Op>): Docs
    requires k in docs && ops != []
  {
    docs[k := Extend(docs[k], c, ops)]
  }

  predicate Enabled(s: State, e: Event) {
    match e
    case EditInitiator(k, c, ops) => k in s.initiator && k in s.history && c in s.initiatorClients && ops != []
    case EditResponder(k, c, ops) => k in s.responder && k in s.history && c in s.responderClients && ops != []
    case Begin => true
    case Deliver(m) => m in s.inFlight
  }

  function Next(s: State, e: Event): State
    requires Enabled(s, e)
  {
    match e
    case EditInitiator(k, c, ops) =>
      s.(initiator := AddOps(s.initiator, k, c, ops), history := AddOps(s.history, k, c, ops))
    case EditResponder(k, c, ops) =>
      s.(responder := AddOps(s.responder, k, c, ops), history := AddOps(s.history, k, c, ops))
    case Begin =>
      s.(inFlight := s.inFlight + multiset{Request(StateVectors(s.kind, s.initiator))}, begun := true)
    case Deliver(m) =>
      var rest := s.inFlight - multiset{m};
      match m
      case Request(p) =>
        s.(inFlight := rest + multiset{Response(Reply(s.kind, s.responder, p))})
      case Response(p) =>
        s.(initiator := Synced(s.kind, s.initiator, p),
           inFlight := rest + multiset{Final(Reply(s.kind, s.initiator, p))})
      case Final(p) =>
        s.(responder := Synced(s.kind, s.responder, p), inFlight := rest)
  }

  ghost predicate Feasible(s: State, es: seq<Event>)
    decreases |es|
  {
    es == [] || (Enabled(s, es[0]) && Feasible(Next(s, es[0]), es[1..]))
  }

  ghost function Run(s: State, es: seq<Event>): State
    requires Feasible(s, es)
    decreases |es|
  {
    if es == [] then s else Run(Next(s, es[0]), es[1..])
  }

  /** The documents hold every operation of the clients in `own` that was ever made. */
  ghost predicate OwnComplete(docs: Docs, history: Docs, own: set<Client>) {
    forall k, c :: k in docs && c in own ==> k in history && LogOf(docs[k], c) == LogOf(history[k], c)
  }

  ghost predicate Start(s: State) {
    && DocsBelow(s.initiator, s.history)
    && DocsBelow(s.responder, s.history)
    && s.initiatorClients !! s.responderClients
    && OwnComplete(s.initiator, s.history, s.initiatorClients)
    && OwnComplete(s.responder, s.history, s.responderClients)
    && s.inFlight == multiset{}
    && !s.begun
  }

  ghost predicate MessageOk(o: State, s: State, m: Message) {
    match m
    case Request(p) => RequestOk(s.kind, s.initiator, p)
    case Response(p) => UpdateOk(s.kind, s.responder, s.initiator, s.history, p) && Covers(p, o.responder)
    case Final(p) => UpdateOk(s.kind, s.initiator, s.responder, s.history, p) && Covers(p, o.initiator)
  }

  ghost predicate EarlyInFlight(s: State) {
    exists m :: m in s.inFlight && !m.Final?
  }

  /** Both sides hold what they started with, all their own operations, and nothing nobody made. */
  ghost predicate SidesOk(o: State, s: State) {
    && s.kind == o.kind
    && s.initiatorClients == o.initiatorClients
    && s.responderClients == o.responderClients
    && s.initiatorClients !! s.responderClients
    && Grown(o.initiator, s.initiator)
    && Grown(o.responder, s.responder)
    && Grown(o.history, s.history)
    && DocsBelow(s.initiator, s.history)
    && DocsBelow(s.responder, s.history)
    && OwnComplete(s.initiator, s.history, s.initiatorClients)
    && OwnComplete(s.responder, s.history, s.responderClients)
  }

  ghost predicate MessagesOk(o: State, s: State) {
    forall m :: m in s.inFlight ==> MessageOk(o, s, m)
  }

  /** Once begun, each side has caught up with the other's start or a message that will see to it is in flight. */
  ghost predicate Progress(o: State, s: State) {
    && (s.begun ==> EarlyInFlight(s) || CaughtUp(s.kind, s.initiator, o.responder))
    && (s.begun ==> s.inFlight != multiset{} || CaughtUp(s.kind, s.responder, o.initiator))
  }

  /** What holds in every state `s` of a run that starts in `o`. */
  ghost predicate Invariant(o: State, s: State) {
    SidesOk(o, s) && MessagesOk(o, s) && Progress(o, s)
  }

  lemma StartHasInvariant(o: State)
    requires Start(o)
    ensures Invariant(o, o)
  {
  }

  lemma MessagesStayOk(o: State, s: State, s': State, m: Message)
    requires MessageOk(o, s, m) && s'.kind == s.kind
    requires Grown(s.initiator, s'.initiator) && Grown(s.responder, s'.responder) && Grown(s.history, s'.history)
    ensures MessageOk(o, s', m)
  {
    match m
    case Request(p) => RequestStaysOk(s.kind, s.initiator, s'.initiator, p);
    case Response(p) =>
      UpdateStaysOk(s.kind, s.responder, s.initiator, s.history, s'.responder, s'.initiator, s'.history, p);
    case Final(p) =>
      UpdateStaysOk(s.kind, s.initiator, s.responder, s.history, s'.initiator, s'.responder, s'.history, p);
  }

  lemma ExtendGrows(d: Doc, h: Doc, c: Client, ops: seq<Op>)
    requires Below(d, h) && LogOf(d, c) == LogOf(h, c) && ops != []
    ensures Below(d, Extend(d, c, ops)) && Below(h, Extend(h, c, ops))
    ensures Below(Extend(d, c, ops), Extend(h, c, ops))
  {
  }

  /** Editing under a client whose operations are all present keeps the documents within the history. */
  lemma EditGrows(docs: Docs, history: Docs, own: set<Client>, k: StateKey, c: Client, ops: seq<Op>)
    requires DocsBelow(docs, history) && OwnComplete(docs, history, own)
    requires k in docs && k in history && c in own && ops != []
    ensures Grown(docs, AddOps(docs, k, c, ops)) && Grown(history, AddOps(history, k, c, ops))
    ensures DocsBelow(AddOps(docs, k, c, ops), AddOps(history, k, c, ops))
    ensures OwnComplete(AddOps(docs, k, c, ops), AddOps(history, k, c, ops), own)
  {
    assert LogOf(docs[k], c) == LogOf(history[k], c);
    ExtendGrows(docs[k], history[k], c, ops);
  }

  /** The other side's edit touches none of the clients in `own`. */
  lemma OthersEditKeepsOwn(docs: Docs, history: Docs, own: set<Client>, k: StateKey, c: Client, ops: seq<Op>)
    requires OwnComplete(docs, history, own) && k in history && c !in own && ops != []
    ensures OwnComplete(docs, AddOps(history, k, c, ops), own)
  {
  }

  lemma SyncedKeepsOwn(docs: Docs, docs': Docs, history: Docs, own: set<Client>)
    requires OwnComplete(docs, history, own) && Grown(docs, docs') && DocsBelow(docs', history)
    ensures OwnComplete(docs', history, own)
  {
  }

  /** What an edit leaves to check once both sides and the history have grown. */
  lemma GrowthKeepsSides(o: State, s: State, s': State)
    requires SidesOk(o, s)
    requires s' == s.(initiator := s'.initiator, responder := s'.responder, history := s'.history)
    requires Grown(s.initiator, s'.initiator) && Grown(s.responder, s'.responder) && Grown(s.history, s'.history)
    requires DocsBelow(s'.initiator, s'.history) && DocsBelow(s'.responder, s'.history)
    requires OwnComplete(s'.initiator, s'.history, s'.initiatorClients)
    requires OwnComplete(s'.responder, s'.history, s'.responderClients)
    ensures SidesOk(o, s')
  {
    GrownTransitive(o.initiator, s.initiator, s'.initiator);
    GrownTransitive(o.responder, s.responder, s'.responder);
    GrownTransitive(o.history, s.history, s'.history);
  }

  lemma GrowthKeepsMessages(o: State, s: State, s': State)
    requires MessagesOk(o, s) && s'.kind == s.kind && s'.inFlight == s.inFlight
    requires Grown(s.initiator, s'.initiator) && Grown(s.responder, s'.responder) && Grown(s.history, s'.history)
    ensures MessagesOk(o, s')
  {
    forall m | m in s'.inFlight ensures MessageOk(o, s', m) {
      MessagesStayOk(o, s, s', m);
    }
  }

  lemma GrowthKeepsProgress(o: State, s: State, s': State)
    requires Progress(o, s) && s'.kind == s.kind && s'.begun == s.begun && s'.inFlight == s.inFlight
    requires Grown(s.initiator, s'.initiator) && Grown(s.responder, s'.responder)
    ensures Progress(o, s')
  {
    if s.begun && CaughtUp(s.kind, s.initiator, o.responder) {
      CaughtUpStays(s.kind, s.initiator, s'.initiator, o.responder);
    }
    if s.begun && CaughtUp(s.kind, s.responder, o.initiator) {
      CaughtUpStays(s.kind, s.responder, s'.responder, o.initiator);
    }
  }

  lemma EditKeepsInvariant(o: State, s: State, e: Event)
    requires Invariant(o, s) && Enabled(s, e) && (e.EditInitiator? || e.EditResponder?)
    ensures Invariant(o, Next(s, e))
  {
    var s' := Next(s, e);
    if e.EditInitiator? {
      EditGrows(s.initiator, s.history, s.initiatorClients, e.key, e.client, e.ops);
      OthersEditKeepsOwn(s.responder, s.history, s.responderClients, e.key, e.client, e.ops);
      BelowGrown(s.responder, s.history, s'.history);
    } else {
      EditGrows(s.responder, s.history, s.responderClients, e.key, e.client, e.ops);
      OthersEditKeepsOwn(s.initiator, s.history, s.initiatorClients, e.key, e.client, e.ops);
      BelowGrown(s.initiator, s.history, s'.history);
    }
    GrowthKeepsSides(o, s, s');
    GrowthKeepsMessages(o, s, s');
    GrowthKeepsProgress(o, s, s');
  }

  lemma BeginKeepsInvariant(o: State, s: State)
    requires Invariant(o, s)
    ensures Invariant(o, Next(s, Begin))
  {
    var s' := Next(s, Begin);
    var m := Request(StateVectors(s.kind, s.initiator));
    RequestIsOk(s.kind, s.initiator);
    assert m in s'.inFlight;
    forall x | x in s'.inFlight ensures MessageOk(o, s', x) {
      assert x == m || x in s.inFlight;
    }
  }

  lemma DeliverRequestKeepsInvariant(o: State, s: State, m: Message)
    requires Invariant(o, s) && m in s.inFlight && m.Request?
    ensures Invariant(o, Next(s, Deliver(m)))
  {
    var s' := Next(s, Deliver(m));
    var r := Response(Reply(s.kind, s.responder, m.payload));
    AnswerToRequest(s.kind, s.initiator, s.responder, s.history, m.payload);
    CoversGrown(r.payload, o.responder, s.responder);
    assert r in s'.inFlight;
    forall x | x in s'.inFlight ensures MessageOk(o, s', x) {
      assert x == r || x in s.inFlight;
    }
  }

  lemma DeliverResponseKeepsInvariant(o: State, s: State, m: Message)
    requires Invariant(o, s) && m in s.inFlight && m.Response?
    ensures Invariant(o, Next(s, Deliver(m)))
  {
    var s' := Next(s, Deliver(m));
    var p := m.payload;
    var f := Final(Reply(s.kind, s.initiator, p));
    TakingInUpdate(s.kind, s.responder, s.initiator, s.history, p);
    AnswerToUpdate(s.kind, s.responder, s.initiator, s.history, p);
    GrownTransitive(o.initiator, s.initiator, s'.initiator);
    SyncedKeepsOwn(s.initiator, s'.initiator, s.history, s.initiatorClients);
    CoversGrown(f.payload, o.initiator, s'.initiator);
    assert f in s'.inFlight;
    forall x | x in s'.inFlight ensures MessageOk(o, s', x) {
      assert x == f || x in s.inFlight;
      if x in s.inFlight {
        MessagesStayOk(o, s, s', x);
      }
    }
    forall k ensures k in p <==> Synchronised(s.kind, k, o.responder, s'.initiator) {
      assert k in p <==> Synchronised(s.kind, k, s.responder, s.initiator);
    }
    assert forall k :: k in p ==> EntryOk(p[k], s.responder[k], s.initiator[k], s.history[k]);
    ReachedMeansCaughtUp(s.kind, s'.initiator, o.responder, p);
  }

  /** A final update leaves the responder's documents grown, within the history and caught up. */
  lemma FinalTaken(o: State, s: State, m: Message)
    requires SidesOk(o, s) && m.Final? && MessageOk(o, s, m)
    ensures var d := Synced(s.kind, s.responder, m.payload);
      Grown(s.responder, d) && DocsBelow(d, s.history) && CaughtUp(s.kind, d, o.initiator)
  {
    var p, d := m.payload, Synced(s.kind, s.responder, m.payload);
    TakingInUpdate(s.kind, s.initiator, s.responder, s.history, p);
    forall k ensures k in p <==> Synchronised(s.kind, k, o.initiator, d) {
      assert k in p <==> Synchronised(s.kind, k, s.initiator, s.responder);
    }
    assert forall k :: k in p ==> EntryOk(p[k], s.initiator[k], s.responder[k], s.history[k]);
    hide Synced, OwnComplete;
    ReachedMeansCaughtUp(s.kind, d, o.initiator, p);
  }

  lemma DeliverFinalKeepsInvariant(o: State, s: State, m: Message)
    requires Invariant(o, s) && m in s.inFlight && m.Final?
    ensures Invariant(o, Next(s, Deliver(m)))
  {
    var s', taken := Next(s, Deliver(m)), s.(responder := Synced(s.kind, s.responder, m.payload));
    assert MessageOk(o, s, m);
    hide MessageOk, Synced, OwnComplete, CaughtUp, Grown, DocsBelow;
    FinalTaken(o, s, m);
    SameDocsGrown(s.initiator);
    SameDocsGrown(s.history);
    SyncedKeepsOwn(s.responder, taken.responder, s.history, s.responderClients);
    GrowthKeepsSides(o, s, taken);
    GrowthKeepsMessages(o, s, taken);
    forall x | x in s'.inFlight ensures MessageOk(o, s', x) {
      SameMessage(o, taken, s', x);
    }
    if s.begun && EarlyInFlight(s) {
      var x :| x in s.inFlight && !x.Final?;
      assert x in s'.inFlight;
    }
  }

  lemma SameDocsGrown(d: Docs)
    ensures Grown(d, d)
  {
  }

  lemma SameMessage(o: State, s: State, s': State, m: Message)
    requires MessageOk(o, s, m) && s' == s.(inFlight := s'.inFlight, begun := s'.begun)
    ensures MessageOk(o, s', m)
  {
  }

  lemma StepKeepsInvariant(o: State, s: State, e: Event)
    requires Invariant(o, s) && Enabled(s, e)
    ensures Invariant(o, Next(s, e))
  {
    match e
    case EditInitiator(_, _, _) => EditKeepsInvariant(o, s, e);
    case EditResponder(_, _, _) => EditKeepsInvariant(o, s, e);
    case Begin => BeginKeepsInvariant(o, s);
    case Deliver(m) =>
      match m {
        case Request(_) => DeliverRequestKeepsInvariant(o, s, m);
        case Response(_) => DeliverResponseKeepsInvariant(o, s, m);
        case Final(_) => DeliverFinalKeepsInvariant(o, s, m);
      }
  }

  lemma {:induction false} RunKeepsInvariant(o: State, s: State, es: seq<Event>)
    requires Invariant(o, s) && Feasible(s, es)
    ensures Invariant(o, Run(s, es))
    ensures Grown(s.initiator, Run(s, es).initiator) && Grown(s.responder, Run(s, es).responder)
    decreases |es|
  {
    if es != [] {
      StepKeepsInvariant(o, s, es[0]);
      StepGrows(o, s, es[0]);
      var s' := Next(s, es[0]);
      RunKeepsInvariant(o, s', es[1..]);
      GrownTransitive(s.initiator, s'.initiator, Run(s, es).initiator);
      GrownTransitive(s.responder, s'.responder, Run(s, es).responder);
    }
  }

  lemma StepGrows(o: State, s: State, e: Event)
    requires Invariant(o, s) && Enabled(s, e)
    ensures Grown(s.initiator, Next(s, e).initiator) && Grown(s.responder, Next(s, e).responder)
  {
    if e.Deliver? && e.message.Response? {
      TakingInUpdate(s.kind, s.responder, s.initiator, s.history, e.message.payload);
    } else if e.Deliver? && e.message.Final? {
      TakingInUpdate(s.kind, s.initiator, s.responder, s.history, e.message.payload);
    } else if e.EditInitiator? {
      EditGrows(s.initiator, s.history, s.initiatorClients, e.key, e.client, e.ops);
    } else if e.EditResponder? {
      EditGrows(s.responder, s.history, s.responderClients, e.key, e.client, e.ops);
    }
  }

  // Main results

  /** No operation is ever lost, and no side ever holds an operation nobody made. */
  lemma NoOperationLost(o: State, es: seq<Event>)
    requires Start(o) && Feasible(o, es)
    ensures Grown(o.initiator, Run(o, es).initiator) && Grown(o.responder, Run(o, es).responder)
    ensures DocsBelow(Run(o, es).initiator, Run(o, es).history) && DocsBelow(Run(o, es).responder, Run(o, es).history)
  {
    StartHasInvariant(o);
    RunKeepsInvariant(o, o, es);
  }

  ghost predicate Reachable(o: State, s: State) {
    exists es :: Feasible(o, es) && Run(o, es) == s
  }

  lemma ReachableHasInvariant(o: State, s: State)
    requires Start(o) && Reachable(o, s)
    ensures Invariant(o, s)
  {
    StartHasInvariant(o);
    var es :| Feasible(o, es) && Run(o, es) == s;
    RunKeepsInvariant(o, o, es);
  }

  /** An edit appends its operations to one log of the editing side and of the history, and touches nothing else. */
  lemma EditAppends(s: State, e: Event)
    requires Enabled(s, e) && (e.EditInitiator? || e.EditResponder?)
    ensures var s', own := Next(s, e), e.EditInitiator?;
      && s' == s.(initiator := s'.initiator, responder := s'.responder, history := s'.history)
      && Appended(s.history, s'.history, e)
      && (if own then Appended(s.initiator, s'.initiator, e) else s'.initiator == s.initiator)
      && (if own then s'.responder == s.responder else Appended(s.responder, s'.responder, e))
  {
    AddOpsAppends(if e.EditInitiator? then s.initiator else s.responder, e);
    AddOpsAppends(s.history, e);
  }

  ghost predicate Appended(before: Docs, after: Docs, e: Event)
    requires e.EditInitiator? || e.EditResponder?
  {
    && after.Keys == before.Keys
    && forall k, c :: k in before ==>
         LogOf(after[k], c) == if k == e.key && c == e.client then LogOf(before[k], c) + e.ops else LogOf(before[k], c)
  }

  lemma AddOpsAppends(docs: Docs, e: Event)
    requires (e.EditInitiator? || e.EditResponder?) && e.key in docs && e.ops != []
    ensures Appended(docs, AddOps(docs, e.key, e.client, e.ops), e)
  {
  }

  /** What a side writes stays in its documents, behind what it had, whatever is delivered or written later. */
  lemma EditIsKept(o: State, s: State, e: Event, later: seq<Event>)
    requires Start(o) && Reachable(o, s) && Enabled(s, e) && (e.EditInitiator? || e.EditResponder?) && Feasible(Next(s, e), later)
    ensures var before, after := Writer(s, e), Writer(Run(Next(s, e), later), e);
      && e.key in before && e.key in after
      && LogOf(before[e.key], e.client) + e.ops <= LogOf(after[e.key], e.client)
  {
    ReachableHasInvariant(o, s);
    StepKeepsInvariant(o, s, e);
    RunKeepsInvariant(o, Next(s, e), later);
    EditAppends(s, e);
    hide Run, Invariant, Next, LogOf;
    assert Below(Writer(Next(s, e), e)[e.key], Writer(Run(Next(s, e), later), e)[e.key]);
  }

  /** The documents of the side that makes an edit. */
  function Writer(s: State, e: Event): Docs {
    if e.EditInitiator? then s.initiator else s.responder
  }

  /** The documents of the side that receives `m`. */
  function Receiver(s: State, m: Message): Docs {
    if m.Response? then s.initiator else s.responder
  }

  /** In every reachable state an update in flight fits the documents it is meant for. */
  lemma UpdateInFlight(o: State, s: State, m: Message, k: StateKey)
    requires Start(o) && Reachable(o, s)
    requires m in s.inFlight && !m.Request? && k in m.payload
    ensures k in DocumentStateKeys(s.kind) && k in Receiver(s, m) && k in s.history
    ensures Below(Receiver(s, m)[k], s.history[k])
    ensures exists sender :: EntryOk(m.payload[k], sender, Receiver(s, m)[k], s.history[k])
  {
    ReachableHasInvariant(o, s);
    assert MessageOk(o, s, m);
    var sender := if m.Response? then s.responder else s.initiator;
    assert Synchronised(s.kind, k, sender, Receiver(s, m));
    assert EntryOk(m.payload[k], sender[k], Receiver(s, m)[k], s.history[k]);
  }

  lemma EntryParts(e: DocData, sender: Doc, receiver: Doc, h: Doc)
    requires EntryOk(e, sender, receiver, h)
    ensures e.updates.Some? && e.stateVector.Some?
    ensures UpdateBelow(e.updates.value, h) && NoGap(receiver, e.updates.value)
  {
  }

  /** In every reachable state every update in flight is taken in completely when it arrives. */
  lemma EveryUpdateIntegrates(o: State, s: State, m: Message, k: StateKey)
    requires Start(o) && Reachable(o, s)
    requires m in s.inFlight && !m.Request? && k in m.payload
    ensures k in Receiver(Next(s, Deliver(m)), m) && m.payload[k].updates.Some? && m.payload[k].stateVector.Some?
    ensures forall c ::
      End(m.payload[k].updates.value, c) <= |LogOf(Receiver(Next(s, Deliver(m)), m)[k], c)|
    ensures SvLe(m.payload[k].stateVector.value, StateVectorOf(Receiver(Next(s, Deliver(m)), m)[k]))
  {
    hide Start, Reachable, EntryOk, Below, UpdateBelow, Apply, StateVectorOf, SvLe;
    UpdateInFlight(o, s, m, k);
    var e, d, h := m.payload[k], Receiver(s, m)[k], s.history[k];
    var sender :| EntryOk(e, sender, d, h);
    EntryParts(e, sender, d, h);
    IntegratesIffNoGap(d, e.updates.value, h);
    TakingInEntry(e, sender, d, h);
    assert Receiver(Next(s, Deliver(m)), m)[k] == TakeIn(d, e);
  }

  /**
   The initiator ends above the responder's documents as they were in `s1`, when the response was
   written, whatever happens before the response arrives in `s2`.
   */
  lemma InitiatorReachesResponder(o: State, s1: State, request: Message, between: seq<Event>, k: StateKey)
    requires Start(o) && Reachable(o, s1)
    requires request.Request? && request in s1.inFlight && k in request.payload && k in s1.responder
    requires Feasible(Next(s1, Deliver(request)), between)
    requires Response(Reply(s1.kind, s1.responder, request.payload)) in Run(Next(s1, Deliver(request)), between).inFlight
    ensures var m := Response(Reply(s1.kind, s1.responder, request.payload));
      var s2 := Next(Run(Next(s1, Deliver(request)), between), Deliver(m));
      k in s2.initiator && Below(s1.responder[k], s2.initiator[k])
  {
    hide Reachable, EntryOk, Below, Covers, OwnComplete, CaughtUp;
    ReachableHasInvariant(o, s1);
    var m := Response(Reply(s1.kind, s1.responder, request.payload));
    var s1' := Next(s1, Deliver(request));
    StepKeepsInvariant(o, s1, Deliver(request));
    RunKeepsInvariant(o, s1', between);
    assert MessageOk(o, s1, request);
    assert k in m.payload && m.payload[k].stateVector == Some(StateVectorOf(s1.responder[k]));
    LateDelivery(o, Run(s1', between), m, k, s1.responder);
  }

  lemma LateDelivery(o: State, s: State, m: Message, k: StateKey, earlier: Docs)
    requires m in s.inFlight && MessageOk(o, s, m) && !m.Request? && k in m.payload && k in earlier
    requires DocsBelow(s.initiator, s.history) && DocsBelow(s.responder, s.history)
    requires Grown(earlier, if m.Response? then s.responder else s.initiator)
    requires m.payload[k].stateVector == Some(StateVectorOf(earlier[k]))
    ensures k in Receiver(Next(s, Deliver(m)), m) && Below(earlier[k], Receiver(Next(s, Deliver(m)), m)[k])
  {
    hide Synced, DocsBelow, Grown, Below, UpdateOk, StateVectorOf;
    if m.Response? {
      DeliveryReaches(s.kind, s.responder, s.initiator, s.history, m.payload, k, earlier);
    } else {
      DeliveryReaches(s.kind, s.initiator, s.responder, s.history, m.payload, k, earlier);
    }
  }

  /**
   The responder ends above the initiator's documents as they were when the final update was
   written, just after the response had been taken in.
   */
  lemma ResponderReachesInitiator(o: State, s1: State, response: Message, between: seq<Event>, k: StateKey)
    requires Start(o) && Reachable(o, s1)
    requires response.Response? && response in s1.inFlight && k in response.payload
    requires Feasible(Next(s1, Deliver(response)), between)
    requires Final(Reply(s1.kind, s1.initiator, response.payload)) in Run(Next(s1, Deliver(response)), between).inFlight
    ensures var m := Final(Reply(s1.kind, s1.initiator, response.payload));
      var s1' := Next(s1, Deliver(response));
      var s2 := Next(Run(s1', between), Deliver(m));
      k in s1'.initiator && k in s2.responder && Below(s1'.initiator[k], s2.responder[k])
  {
    ReachableHasInvariant(o, s1);
    var m := Final(Reply(s1.kind, s1.initiator, response.payload));
    var s1' := Next(s1, Deliver(response));
    StepKeepsInvariant(o, s1, Deliver(response));
    RunKeepsInvariant(o, s1', between);
    assert MessageOk(o, s1, response);
    assert Synchronised(s1.kind, k, s1.responder, s1.initiator);
    assert EntryOk(response.payload[k], s1.responder[k], s1.initiator[k], s1.history[k]);
    assert k in m.payload && m.payload[k].stateVector == Some(StateVectorOf(s1'.initiator[k]));
    LateDelivery(o, Run(s1', between), m, k, s1'.initiator);
  }

  /** A payload with the state vector of an earlier version of the sender brings the receiver above it. */
  lemma DeliveryReaches(t: ResourceType, sender: Docs, receiver: Docs, h: Docs, p: Payload, k: StateKey, earlier: Docs)
    requires UpdateOk(t, sender, receiver, h, p) && DocsBelow(sender, h) && DocsBelow(receiver, h)
    requires k in p && k in earlier && Grown(earlier, sender)
    requires p[k].stateVector == Some(StateVectorOf(earlier[k]))
    ensures k in Synced(t, receiver, p) && Below(earlier[k], Synced(t, receiver, p)[k])
  {
    assert Synchronised(t, k, sender, receiver);
    TakingInUpdate(t, sender, receiver, h, p);
    BelowTransitive(earlier[k], sender[k], h[k]);
    SvLeMeansBelow(earlier[k], Synced(t, receiver, p)[k], h[k]);
  }

  ghost predicate NoEdits(es: seq<Event>) {
    forall i :: 0 <= i < |es| ==> es[i].Begin? || es[i].Deliver?
  }

  lemma {:induction false} HistoryStaysWithoutEdits(s: State, es: seq<Event>)
    requires Feasible(s, es) && NoEdits(es)
    ensures Run(s, es).history == s.history
    decreases |es|
  {
    if es != [] {
      HistoryStaysWithoutEdits(Next(s, es[0]), es[1..]);
    }
  }

  lemma DrainedWithinJoin(o: State, es: seq<Event>, k: StateKey)
    requires Start(o) && Feasible(o, es) && NoEdits(es)
    requires o.history == JoinDocs(o.initiator, o.responder)
    requires Run(o, es).begun && Run(o, es).inFlight == multiset{}
    requires Synchronised(o.kind, k, o.initiator, o.responder)
    ensures k in Run(o, es).initiator && Run(o, es).initiator[k] == Join(o.initiator[k], o.responder[k])
    ensures k in Run(o, es).responder && Run(o, es).responder[k] == Join(o.initiator[k], o.responder[k])
  {
    StartHasInvariant(o);
    RunKeepsInvariant(o, o, es);
    HistoryStaysWithoutEdits(o, es);
    var s := Run(o, es);
    var a, b, h := o.initiator[k], o.responder[k], o.history[k];
    BelowOneHistoryCoherent(a, b, h);
    JoinIsLeastUpperBound(a, b);
    assert Synchronised(o.kind, k, s.initiator, o.responder) && Synchronised(o.kind, k, s.responder, o.initiator);
    SvLeMeansBelow(b, s.initiator[k], h);
    SvLeMeansBelow(a, s.responder[k], h);
    BelowBothWaysEqual(s.initiator[k], h);
    BelowBothWaysEqual(s.responder[k], h);
  }

  /** Nothing depends on what the history holds beyond the two sides' documents. */
  lemma LeanStart(o: State)
    requires Start(o)
    ensures Start(o.(history := JoinDocs(o.initiator, o.responder)))
  {
    var h := JoinDocs(o.initiator, o.responder);
    forall k | k in o.initiator && k in o.responder ensures Below(o.initiator[k], h[k]) && Below(o.responder[k], h[k]) {
      BelowOneHistoryCoherent(o.initiator[k], o.responder[k], o.history[k]);
      JoinIsLeastUpperBound(o.initiator[k], o.responder[k]);
    }
    OwnWithinJoin(o.initiator, o.responder, o.history, o.initiatorClients);
    OwnWithinJoin(o.responder, o.initiator, o.history, o.responderClients);
    JoinDocsCommutes(o.initiator, o.responder, o.history);
  }

  lemma JoinDocsCommutes(a: Docs, b: Docs, h: Docs)
    requires DocsBelow(a, h) && DocsBelow(b, h)
    ensures JoinDocs(a, b) == JoinDocs(b, a)
  {
    hide Join;
    forall k | k in a && k in b ensures Join(a[k], b[k]) == Join(b[k], a[k]) {
      BelowOneHistoryCoherent(a[k], b[k], h[k]);
      JoinIsLeastUpperBound(a[k], b[k]);
    }
    assert JoinDocs(a, b).Keys == JoinDocs(b, a).Keys;
  }

  lemma OwnWithinJoin(mine: Docs, theirs: Docs, history: Docs, own: set<Client>)
    requires DocsBelow(mine, history) && DocsBelow(theirs, history) && OwnComplete(mine, history, own)
    ensures OwnComplete(mine, JoinDocs(mine, theirs), own)
  {
    forall k, c | k in mine && c in own ensures LogOf(mine[k], c) == LogOf(JoinDocs(mine, theirs)[k], c) {
      if k in theirs {
        assert LogOf(theirs[k], c) <= LogOf(history[k], c);
      }
    }
  }

  lemma {:induction false} HistoryIsNotRead(s: State, h: Docs, es: seq<Event>)
    requires Feasible(s, es) && NoEdits(es)
    ensures Feasible(s.(history := h), es) && Run(s.(history := h), es) == Run(s, es).(history := h)
    decreases |es|
  {
    hide Reply, Synced, StateVectors;
    if es != [] {
      assert Next(s.(history := h), es[0]) == Next(s, es[0]).(history := h);
      HistoryIsNotRead(Next(s, es[0]), h, es[1..]);
    }
  }

  /** A state key that is not stored on both sides, or that the resource type does not list. */
  lemma OtherKeyStays(o: State, s: State, e: Event, k: StateKey)
    requires Invariant(o, s) && Enabled(s, e) && (e.Begin? || e.Deliver?) && !Synchronised(s.kind, k, s.initiator, s.responder)
    ensures var s' := Next(s, e);
      && s'.kind == s.kind && s'.initiator.Keys == s.initiator.Keys && s'.responder.Keys == s.responder.Keys
      && (k in s.initiator ==> s'.initiator[k] == s.initiator[k])
      && (k in s.responder ==> s'.responder[k] == s.responder[k])
  {
    if e.Deliver? {
      assert MessageOk(o, s, e.message);
    }
    hide Invariant, EntryOk, Synced, Reply, StateVectors, Covers, RequestOk;
    if e.Deliver? && !e.message.Request? {
      assert k !in e.message.payload;
      SyncedElsewhere(s.kind, s.initiator, e.message.payload, k);
      SyncedElsewhere(s.kind, s.responder, e.message.payload, k);
    }
  }

  lemma SyncedElsewhere(t: ResourceType, docs: Docs, p: Payload, k: StateKey)
    requires k !in p
    ensures Synced(t, docs, p).Keys == docs.Keys && (k in docs ==> Synced(t, docs, p)[k] == docs[k])
  {
  }

  lemma {:induction false} OtherKeysStay(o: State, s: State, es: seq<Event>, k: StateKey)
    requires Start(o) && Invariant(o, s) && Feasible(s, es) && NoEdits(es)
    requires !Synchronised(s.kind, k, s.initiator, s.responder)
    ensures Run(s, es).initiator.Keys == s.initiator.Keys && Run(s, es).responder.Keys == s.responder.Keys
    ensures k in s.initiator ==> Run(s, es).initiator[k] == s.initiator[k]
    ensures k in s.responder ==> Run(s, es).responder[k] == s.responder[k]
    decreases |es|
  {
    hide Start, Invariant, Next;
    if es != [] {
      StepKeepsInvariant(o, s, es[0]);
      OtherKeyStays(o, s, es[0], k);
      OtherKeysStay(o, Next(s, es[0]), es[1..], k);
    }
  }

  /**
   A drained run without edits, from any start: every state key stored on both sides ends as the join
   on both, and every other state key keeps its documents on the side that has it.
   */
  lemma DrainedRunConverges(o: State, es: seq<Event>, k: StateKey)
    requires Start(o) && Feasible(o, es) && NoEdits(es)
    requires Run(o, es).begun && Run(o, es).inFlight == multiset{}
    ensures var s := Run(o, es);
      if IsDocumentKey(o.kind, k) && k in o.initiator && k in o.responder
      then k in s.initiator && k in s.responder && s.initiator[k] == s.responder[k] == Join(o.initiator[k], o.responder[k])
      else
        && (if k in o.initiator then k in s.initiator && s.initiator[k] == o.initiator[k] else k !in s.initiator)
        && (if k in o.responder then k in s.responder && s.responder[k] == o.responder[k] else k !in s.responder)
  {
    DocumentKeysAre(o.kind);
    hide Start, Next, IsDocumentKey, DocumentStateKeys;
    if Synchronised(o.kind, k, o.initiator, o.responder) {
      var lean := o.(history := JoinDocs(o.initiator, o.responder));
      LeanStart(o);
      HistoryIsNotRead(o, lean.history, es);
      DrainedWithinJoin(lean, es, k);
    } else {
      StartHasInvariant(o);
      OtherKeysStay(o, o, es, k);
    }
  }
}
