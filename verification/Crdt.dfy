/**
 A Yrs document as the sync layer sees it: one log of operations per client.  The state vector
 gives the length of every log, a diff carries the operations beyond a state vector, and applying
 an update extends the logs it continues.  A block that starts beyond the end of the local log
 stays pending and changes nothing.
 */
module Crdt {

  type Client = nat
  type Op = string
  type Log = seq<Op>

  /** A document holds a log for exactly the clients that have written to it. */
  type Doc = d: map<Client, Log> | forall c :: c in d ==> d[c] != [] witness map[]
  type StateVector = map<Client, nat>

  datatype Block = Block(start: nat, ops: seq<Op>)
  type Update = map<Client, Block>

  function LogOf(d: Doc, c: Client): Log {
    if c in d then d[c] else []
  }

  function Count(sv: StateVector, c: Client): nat {
    if c in sv then sv[c] else 0
  }

  function StateVectorOf(d: Doc): StateVector {
    map c | c in d :: |d[c]|
  }

  /** The operations of `d` that a document with state vector `sv` has not seen. */
  function Diff(d: Doc, sv: StateVector): Update {
    map c | c in d && Count(sv, c) < |d[c]| :: Block(Count(sv, c), d[c][Count(sv, c)..])
  }

  /** The log after a block arrived: extended when the block continues it, unchanged otherwise. */
  function Splice(l: Log, b: Block): Log {
    if b.start <= |l| < b.start + |b.ops| then l + b.ops[|l| - b.start..] else l
  }

  function NewLog(d: Doc, u: Update, c: Client): Log {
    if c in u then Splice(LogOf(d, c), u[c]) else LogOf(d, c)
  }

  function Apply(d: Doc, u: Update): Doc {
    map c | c in d.Keys + u.Keys && NewLog(d, u, c) != [] :: NewLog(d, u, c)
  }

  /** Where the block of `c` ends: the log length the sender had. */
  function End(u: Update, c: Client): nat {
    if c in u then u[c].start + |u[c].ops| else 0
  }

  /** Every block of `u` continues the log it is meant for. */
  ghost predicate NoGap(d: Doc, u: Update) {
    forall c :: c in u ==> u[c].start <= |LogOf(d, c)|
  }

  /** `h` holds everything `d` holds, in the same places. */
  ghost predicate Below(d: Doc, h: Doc) {
    forall c :: LogOf(d, c) <= LogOf(h, c)
  }

  /** `u` carries operations of `h`, each under its own client and position. */
  ghost predicate UpdateBelow(u: Update, h: Doc) {
    forall c :: c in u ==>
      && u[c].ops != []
      && End(u, c) <= |LogOf(h, c)|
      && u[c].ops == LogOf(h, c)[u[c].start..End(u, c)]
  }

  ghost predicate SvLe(a: StateVector, b: StateVector) {
    forall c :: Count(a, c) <= Count(b, c)
  }

  /** Applying `u` to `d` brings every log up to the length `sv` records. */
  ghost predicate Reaches(d: Doc, u: Update, sv: StateVector) {
    forall c :: Count(sv, c) <= |LogOf(d, c)| || Count(sv, c) <= End(u, c)
  }

  /** The document with the longer log of every client. */
  function Join(a: Doc, b: Doc): Doc {
    map c | c in a.Keys + b.Keys :: if |LogOf(a, c)| < |LogOf(b, c)| then LogOf(b, c) else LogOf(a, c)
  }

  /** The two documents come from one history: for every client one log continues the other. */
  ghost predicate Coherent(a: Doc, b: Doc) {
    forall c :: LogOf(a, c) <= LogOf(b, c) || LogOf(b, c) <= LogOf(a, c)
  }

  lemma SameLogsSameDoc(a: Doc, b: Doc)
    requires forall c :: LogOf(a, c) == LogOf(b, c)
    ensures a == b
  {
    forall c ensures c in a <==> c in b {
      assert LogOf(a, c) == LogOf(b, c);
    }
    assert a.Keys == b.Keys;
    forall c | c in a ensures a[c] == b[c] {
      assert LogOf(a, c) == LogOf(b, c);
    }
  }

  lemma BelowTransitive(a: Doc, b: Doc, c: Doc)
    requires Below(a, b) && Below(b, c)
    ensures Below(a, c)
  {
  }

  lemma BelowBothWaysEqual(a: Doc, b: Doc)
    requires Below(a, b) && Below(b, a)
    ensures a == b
  {
    forall c ensures LogOf(a, c) == LogOf(b, c) {
      assert LogOf(a, c) <= LogOf(b, c);
      assert LogOf(b, c) <= LogOf(a, c);
    }
    SameLogsSameDoc(a, b);
  }

  /** Below one history the state vector decides how two documents compare. */
  lemma SvLeMeansBelow(a: Doc, b: Doc, h: Doc)
    requires Below(a, h) && Below(b, h)
    ensures SvLe(StateVectorOf(a), StateVectorOf(b)) <==> Below(a, b)
  {
    if SvLe(StateVectorOf(a), StateVectorOf(b)) {
      forall c ensures LogOf(a, c) <= LogOf(b, c) {
        assert Count(StateVectorOf(a), c) <= Count(StateVectorOf(b), c);
        assert LogOf(a, c) <= LogOf(h, c) && LogOf(b, c) <= LogOf(h, c);
      }
    }
    if Below(a, b) {
      forall c ensures Count(StateVectorOf(a), c) <= Count(StateVectorOf(b), c) {
        assert LogOf(a, c) <= LogOf(b, c);
      }
    }
  }

  lemma DiffBelow(d: Doc, sv: StateVector, h: Doc)
    requires Below(d, h)
    ensures UpdateBelow(Diff(d, sv), h)
  {
  }

  /** A diff carries exactly the operations beyond the state vector, and nothing for a peer that has all of them. */
  lemma DiffIsTheRest(d: Doc, sv: StateVector)
    ensures forall c :: c in Diff(d, sv) <==> Count(sv, c) < |LogOf(d, c)|
    ensures forall c :: c in Diff(d, sv) && c in d ==>
      Diff(d, sv)[c].start == Count(sv, c) && LogOf(d, c)[..Count(sv, c)] + Diff(d, sv)[c].ops == LogOf(d, c)
    ensures Diff(d, StateVectorOf(d)) == map[]
  {
    assert forall c :: c in d ==> Count(StateVectorOf(d), c) == |d[c]|;
  }

  /** A diff against a state vector the receiver has reached applies without a gap and completely. */
  lemma DiffFits(d: Doc, sv: StateVector, e: Doc)
    requires SvLe(sv, StateVectorOf(e))
    ensures NoGap(e, Diff(d, sv))
    ensures Reaches(e, Diff(d, sv), StateVectorOf(d))
  {
  }

  lemma NewLogIs(d: Doc, u: Update, h: Doc, c: Client)
    requires Below(d, h) && UpdateBelow(u, h) && NoGap(d, u)
    ensures LogOf(Apply(d, u), c) == NewLog(d, u, c)
    ensures NewLog(d, u, c) == LogOf(h, c)[..if |LogOf(d, c)| < End(u, c) then End(u, c) else |LogOf(d, c)|]
  {
    var l, g := LogOf(d, c), LogOf(h, c);
    assert l <= g;
    if c in u {
      var b := u[c];
      if |l| < End(u, c) {
        assert b.ops == g[b.start..End(u, c)];
        assert l + b.ops[|l| - b.start..] == g[..End(u, c)];
      }
    }
  }

  /**
   Applying an update that fits never loses an operation, stays within the shared history, and
   brings the document up to the sender's state vector.
   */
  lemma ApplyGrows(d: Doc, u: Update, h: Doc)
    requires Below(d, h) && UpdateBelow(u, h) && NoGap(d, u)
    ensures Below(d, Apply(d, u)) && Below(Apply(d, u), h)
    ensures forall sv :: Reaches(d, u, sv) ==> SvLe(sv, StateVectorOf(Apply(d, u)))
  {
    var e := Apply(d, u);
    forall c ensures LogOf(d, c) <= LogOf(e, c) && LogOf(e, c) <= LogOf(h, c) && End(u, c) <= |LogOf(e, c)| {
      NewLogIs(d, u, h, c);
      assert LogOf(d, c) <= LogOf(h, c);
    }
    forall sv | Reaches(d, u, sv) ensures SvLe(sv, StateVectorOf(e)) {
      forall c ensures Count(sv, c) <= Count(StateVectorOf(e), c) {
        assert Count(sv, c) <= |LogOf(d, c)| || Count(sv, c) <= End(u, c);
        assert LogOf(d, c) <= LogOf(e, c) && End(u, c) <= |LogOf(e, c)|;
      }
    }
  }

  /** An update of the shared history is taken in completely exactly when no block leaves a gap. */
  lemma IntegratesIffNoGap(d: Doc, u: Update, h: Doc)
    requires Below(d, h) && UpdateBelow(u, h)
    ensures NoGap(d, u) <==> forall c :: End(u, c) <= |LogOf(Apply(d, u), c)|
  {
    if NoGap(d, u) {
      forall c ensures End(u, c) <= |LogOf(Apply(d, u), c)| {
        NewLogIs(d, u, h, c);
      }
    } else {
      var c :| c in u && |LogOf(d, c)| < u[c].start;
      assert End(u, c) > |LogOf(Apply(d, u), c)|;
    }
  }

  /**
   A log only grows, only by a block that continues it, only with the operations of that block behind
   its own length, and then up to the end of the block: a block behind a gap changes nothing.
   */
  lemma AppliedLog(d: Doc, u: Update, c: Client)
    ensures var before, after := LogOf(d, c), LogOf(Apply(d, u), c);
      if c in u && u[c].start <= |before| < u[c].start + |u[c].ops|
      then before <= after && |after| == u[c].start + |u[c].ops| && after[u[c].start..] == before[u[c].start..] + u[c].ops[|before| - u[c].start..]
      else after == before
  {
    ApplyIsNewLog(d, u, c);
    hide Apply;
  }

  lemma ApplyIsNewLog(d: Doc, u: Update, c: Client)
    ensures LogOf(Apply(d, u), c) == NewLog(d, u, c)
  {
    hide Splice;
  }

  /** A second copy of an update changes nothing. */
  lemma AppliedTwice(d: Doc, u: Update)
    ensures Apply(Apply(d, u), u) == Apply(d, u)
  {
    var e := Apply(d, u);
    forall c ensures LogOf(Apply(e, u), c) == LogOf(e, c) {
      AppliedLog(d, u, c);
      AppliedLog(e, u, c);
    }
    SameLogsSameDoc(Apply(e, u), e);
  }

  lemma JoinIsLeastUpperBound(a: Doc, b: Doc)
    requires Coherent(a, b)
    ensures Below(a, Join(a, b)) && Below(b, Join(a, b))
    ensures forall h: Doc :: Below(a, h) && Below(b, h) ==> Below(Join(a, b), h)
    ensures Join(a, b) == Join(b, a)
  {
    var j := Join(a, b);
    forall c ensures LogOf(a, c) <= LogOf(j, c) && LogOf(b, c) <= LogOf(j, c) && LogOf(j, c) == LogOf(Join(b, a), c) {
      assert LogOf(a, c) <= LogOf(b, c) || LogOf(b, c) <= LogOf(a, c);
    }
    SameLogsSameDoc(j, Join(b, a));
    forall h: Doc | Below(a, h) && Below(b, h) ensures Below(j, h) {
      forall c ensures LogOf(j, c) <= LogOf(h, c) {
        assert LogOf(a, c) <= LogOf(h, c) && LogOf(b, c) <= LogOf(h, c);
      }
    }
  }

  lemma BelowOneHistoryCoherent(a: Doc, b: Doc, h: Doc)
    requires Below(a, h) && Below(b, h)
    ensures Coherent(a, b)
  {
  }
}
