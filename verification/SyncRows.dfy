/**
 One common resource during a user sync.  `a` and `b` are the rows the initiator and the responder
 started with, `x` and `y` the rows they have now.
 */
module SyncRows {
  import opened Wrappers
  import opened Crdt
  import opened ResourceDocs
  import opened Exchange
  import opened Manifest
  import opened VectorClock
  import opened Peer

  /** The part of a row that is not documents, with clock rows read as clocks. */
  datatype Book = Book(clocks: Clocks, shares: set<ShareId>, keys: Keys)

  function BookOf(row: Row): Book {
    Book(Values(row.clocks), row.shares, row.keys)
  }

  function MergedBook(a: Row, b: Row): Book {
    Book(Max(Values(a.clocks), Values(b.clocks)), a.shares + b.shares, a.keys + b.keys)
  }

  /** No user has different keys on the two sides. */
  predicate KeysAgree(a: Row, b: Row) {
    !KeysClash(a.keys, b.keys)
  }

  /** The documents of the two sides come from one history. */
  ghost predicate OneHistory(a: Row, b: Row) {
    a.kind == b.kind && forall k :: k in a.docs && k in b.docs ==> Coherent(a.docs[k], b.docs[k])
  }

  function History(a: Row, b: Row): Docs {
    JoinDocs(a.docs, b.docs)
  }

  ghost predicate RowsOk(a: Row, b: Row, x: Row, y: Row) {
    && a.kind == b.kind == x.kind == y.kind
    && Grown(a.docs, x.docs) && DocsBelow(x.docs, History(a, b))
    && Grown(b.docs, y.docs) && DocsBelow(y.docs, History(a, b))
    && (BookOf(x) == BookOf(a) || (KeysAgree(a, b) && BookOf(x) == MergedBook(a, b) && BookOf(y) == MergedBook(a, b)))
    && (BookOf(y) == BookOf(b) || (KeysAgree(a, b) && BookOf(y) == MergedBook(a, b)))
  }

  /** What `top` has that `base` lacks, as a clock response carries it. */
  ghost predicate CarriesDelta(m: Message, base: Book, top: Book) {
    && m.VectorClockResponse?
    && Values(m.update) == Behind(base.clocks, top.clocks)
    && Values(m.add) == Missing(base.clocks, top.clocks)
    && m.shares == top.shares - base.shares
    && m.keys == MissingKeys(base.keys, top.keys)
  }

  function SentBook(m: Message): Book
    requires m.FinalUpdateMerge?
  {
    Book(Values(m.clocks), m.shares, m.keys)
  }

  ghost predicate FinalOk(a: Row, b: Row, x: Row, y: Row, m: Message) {
    && m.FinalUpdateMerge?
    && UpdateOk(x.kind, x.docs, y.docs, History(a, b), m.payload)
    && Covers(m.payload, a.docs)
    && (|| SentBook(m) == BookOf(a)
        || (KeysAgree(a, b) && SentBook(m) == MergedBook(a, b) && BookOf(x) == MergedBook(a, b)))
  }

  ghost predicate ClockResponseOk(a: Row, b: Row, x: Row, y: Row, m: Message) {
    && KeysAgree(a, b) && BookOf(y) == MergedBook(a, b)
    && (|| CarriesDelta(m, BookOf(a), MergedBook(a, b))
        || (CarriesDelta(m, MergedBook(a, b), MergedBook(a, b)) && BookOf(x) == MergedBook(a, b)))
  }

  predicate IsExchange(m: Message) {
    m.StateVectorRequest? || m.UpdatesResponse? || m.FinalUpdateMerge? || m.VectorClockResponse?
  }

  ghost predicate ExchangeOk(a: Row, b: Row, x: Row, y: Row, m: Message)
    requires IsExchange(m)
  {
    match m
    case StateVectorRequest(_, p) => RequestOk(x.kind, x.docs, p)
    case UpdatesResponse(_, p) => UpdateOk(x.kind, y.docs, x.docs, History(a, b), p) && Covers(p, b.docs)
    case FinalUpdateMerge(_, _, _, _, _) => FinalOk(a, b, x, y, m)
    case VectorClockResponse(_, _, _, _, _) => ClockResponseOk(a, b, x, y, m)
  }

  /** How the two rows may move in one step: documents grow, merged books stay merged. */
  ghost predicate Moves(a: Row, b: Row, x: Row, y: Row, x': Row, y': Row) {
    && x'.kind == x.kind && y'.kind == y.kind
    && Grown(x.docs, x'.docs) && Grown(y.docs, y'.docs)
    && (BookOf(x) == MergedBook(a, b) ==> BookOf(x') == MergedBook(a, b))
    && (BookOf(y) == MergedBook(a, b) ==> BookOf(y') == MergedBook(a, b))
  }

  lemma HistoryHolds(a: Row, b: Row)
    requires OneHistory(a, b)
    ensures RowsOk(a, b, a, b)
  {
    var h := History(a, b);
    forall k | k in a.docs ensures Below(a.docs[k], h[k]) {
      if k in b.docs {
        JoinIsLeastUpperBound(a.docs[k], b.docs[k]);
      }
    }
    forall k | k in b.docs ensures Below(b.docs[k], h[k]) {
      if k in a.docs {
        JoinIsLeastUpperBound(a.docs[k], b.docs[k]);
      }
    }
  }

  lemma ExchangeStaysOk(a: Row, b: Row, x: Row, y: Row, x': Row, y': Row, m: Message)
    requires x.kind == y.kind && Moves(a, b, x, y, x', y')
    requires IsExchange(m) && ExchangeOk(a, b, x, y, m)
    ensures ExchangeOk(a, b, x', y', m)
  {
    var h := History(a, b);
    match m
    case StateVectorRequest(_, p) => RequestStaysOk(x.kind, x.docs, x'.docs, p);
    case UpdatesResponse(_, p) => UpdateStaysOk(x.kind, y.docs, x.docs, h, y'.docs, x'.docs, h, p);
    case FinalUpdateMerge(_, p, _, _, _) => UpdateStaysOk(x.kind, x.docs, y.docs, h, x'.docs, y'.docs, h, p);
    case VectorClockResponse(_, _, _, _, _) =>
  }

  lemma RequestDelivered(a: Row, b: Row, x: Row, y: Row, m: Message)
    requires RowsOk(a, b, x, y) && m.StateVectorRequest? && ExchangeOk(a, b, x, y, m)
    ensures ExchangeOk(a, b, x, y, UpdatesResponse(m.id, Reply(y.kind, y.docs, m.stateVectors)))
  {
    AnswerToRequest(x.kind, x.docs, y.docs, History(a, b), m.stateVectors);
    CoversGrown(Reply(y.kind, y.docs, m.stateVectors), b.docs, y.docs);
  }

  lemma UpdatesDelivered(a: Row, b: Row, x: Row, y: Row, m: Message)
    requires RowsOk(a, b, x, y) && m.UpdatesResponse? && ExchangeOk(a, b, x, y, m)
    ensures var x' := UpdatedRow(x, m.payload);
      && RowsOk(a, b, x', y) && Moves(a, b, x, y, x', y)
      && ExchangeOk(a, b, x', y, FinalFrom(m.id, x, m.payload))
      && CaughtUp(x'.kind, x'.docs, b.docs)
  {
    var h, p, x' := History(a, b), m.payload, UpdatedRow(x, m.payload);
    TakingInUpdate(x.kind, y.docs, x.docs, h, p);
    AnswerToUpdate(x.kind, y.docs, x.docs, h, p);
    GrownTransitive(a.docs, x.docs, x'.docs);
    CoversGrown(Reply(x.kind, x.docs, p), a.docs, x'.docs);
    forall k ensures k in p <==> Synchronised(x.kind, k, b.docs, x'.docs) {
      assert k in p <==> Synchronised(x.kind, k, y.docs, x.docs);
    }
    ReachedMeansCaughtUp(x.kind, x'.docs, b.docs, p);
  }

  /**
   A final update brings the responder's documents level in any case; it is accepted, merged and
   answered exactly when no user has different keys on the two sides.
   */
  lemma FinalDelivered(a: Row, b: Row, x: Row, y: Row, m: Message)
    requires RowsOk(a, b, x, y) && m.FinalUpdateMerge? && ExchangeOk(a, b, x, y, m)
    ensures KeysClash(y.keys, m.keys) <==> !KeysAgree(a, b)
    ensures var y' := RowAfterFinal(y, m);
      && RowsOk(a, b, x, y') && Moves(a, b, x, y, x, y')
      && CaughtUp(y'.kind, y'.docs, a.docs)
      && (KeysAgree(a, b) ==> BookOf(y') == MergedBook(a, b) && ExchangeOk(a, b, x, y', ClockResponseFrom(y, m)))
  {
    BooksMerge(a, b, x, y, m);
    DocumentsMerge(a, b, x, y, m);
    hide UpdateOk, Covers, Grown, DocsBelow, MergedBook, History;
    SameDocsGrown(x.docs);
  }

  lemma DocumentsMerge(a: Row, b: Row, x: Row, y: Row, m: Message)
    requires RowsOk(a, b, x, y) && m.FinalUpdateMerge? && ExchangeOk(a, b, x, y, m)
    ensures var d := Synced(y.kind, y.docs, m.payload);
      && Grown(y.docs, d) && Grown(b.docs, d) && DocsBelow(d, History(a, b)) && CaughtUp(y.kind, d, a.docs)
      && RowAfterFinal(y, m).docs == d && RowAfterFinal(y, m).kind == y.kind
  {
    FinalDocs(y, m);
    hide MergedBook, BookOf, RowAfterFinal, SentBook, KeysAgree, Synced, EntryOk, History;
    var h, p, d := History(a, b), m.payload, Synced(y.kind, y.docs, m.payload);
    TakingInUpdate(x.kind, x.docs, y.docs, h, p);
    GrownTransitive(b.docs, y.docs, d);
    forall k ensures k in p <==> Synchronised(x.kind, k, a.docs, d) {
      assert k in p <==> Synchronised(x.kind, k, x.docs, y.docs);
    }
    ReachedMeansCaughtUp(x.kind, d, a.docs, p);
  }

  lemma FinalDocs(y: Row, m: Message)
    requires m.FinalUpdateMerge?
    ensures RowAfterFinal(y, m).docs == Synced(y.kind, y.docs, m.payload) && RowAfterFinal(y, m).kind == y.kind
  {
  }

  /** Whichever books meet, the responder ends merged and its answer is what the sent book lacks, if keys agree. */
  lemma BooksMerge(a: Row, b: Row, x: Row, y: Row, m: Message)
    requires RowsOk(a, b, x, y) && FinalOk(a, b, x, y, m)
    ensures KeysClash(y.keys, m.keys) <==> !KeysAgree(a, b)
    ensures KeysAgree(a, b) ==> BookOf(MergedRow(y, m)) == MergedBook(a, b)
    ensures KeysAgree(a, b) ==> ClockResponseOk(a, b, x, MergedRow(y, m), ClockResponseFrom(y, m))
    ensures !KeysAgree(a, b) ==> BookOf(RowAfterFinal(y, m)) == BookOf(y)
  {
    var top := MergedBook(a, b);
    MaxLaws(Values(a.clocks), Values(b.clocks));
    ValuesOfParts(y.clocks, m.clocks);
    ValuesOfParts(m.clocks, y.clocks);
    assert a.shares + top.shares == top.shares == b.shares + a.shares && top.shares + b.shares == top.shares;
    assert b.shares - a.shares == top.shares - a.shares;
    KeysMeet(a.keys, b.keys, y.keys, m.keys);
  }

  /** The key maps that can meet on the responder's side: `b` or the union, and `a` or the union. */
  lemma KeysMeet(a: Keys, b: Keys, y: Keys, m: Keys)
    requires y == b || (!KeysClash(a, b) && y == a + b)
    requires m == a || (!KeysClash(a, b) && m == a + b)
    ensures KeysClash(y, m) <==> KeysClash(a, b)
    ensures !KeysClash(a, b) ==> y + MissingKeys(y, m) == a + b && MissingKeys(m, y) == MissingKeys(m, a + b)
  {
    if KeysClash(a, b) {
      var u :| u in a && u in b && a[u] != b[u];
      assert u in y && u in m && y[u] != m[u];
    } else {
      assert (y + MissingKeys(y, m)).Keys == (a + b).Keys;
      assert MissingKeys(m, y).Keys == MissingKeys(m, a + b).Keys;
    }
  }

  lemma MaxLaws(c: Clocks, d: Clocks)
    ensures Max(d, c) == Max(c, d) && Max(Max(c, d), c) == Max(c, d) == Max(Max(c, d), Max(c, d))
    ensures Max(d, Max(c, d)) == Max(c, d) == Max(c, Max(c, d))
    ensures Behind(c, d) == Behind(c, Max(c, d)) && Missing(c, d) == Missing(c, Max(c, d))
  {
    MaxBasics(c, d);
    assert Missing(c, d).Keys == Missing(c, Max(c, d)).Keys;
    assert Behind(c, d).Keys == Behind(c, Max(c, d)).Keys;
  }

  lemma MaxBasics(c: Clocks, d: Clocks)
    ensures Max(d, c) == Max(c, d) && Max(Max(c, d), c) == Max(c, d) == Max(Max(c, d), Max(c, d))
    ensures Max(d, Max(c, d)) == Max(c, d) == Max(c, Max(c, d))
  {
    MaxCommutes(c, d);
    MaxAbsorbs(c, d);
    MaxAbsorbs(d, c);
    MaxCommutes(c, Max(c, d));
    MaxCommutes(d, Max(c, d));
    MaxOfSame(Max(c, d));
  }

  lemma MaxCommutes(c: Clocks, d: Clocks)
    ensures Max(d, c) == Max(c, d)
  {
  }

  lemma MaxAbsorbs(c: Clocks, d: Clocks)
    ensures Max(c, Max(c, d)) == Max(c, d)
  {
  }

  lemma MaxOfSame(c: Clocks)
    ensures Max(c, c) == c
  {
  }

  ghost predicate KeysWithin(a: Keys, b: Keys) {
    forall u :: u in a ==> u in b && a[u] == b[u]
  }

  lemma KeysFilled(base: Keys, top: Keys, x: Keys)
    requires KeysWithin(base, top) && (x == base || x == top)
    ensures !KeysClash(x, MissingKeys(base, top)) && x + MissingKeys(base, top) == top
  {
    assert (x + MissingKeys(base, top)).Keys == top.Keys;
  }

  /** A row whose book is `base` or already `top` has the book `top` after the answer that carries the difference. */
  lemma BookAfterClocks(base: Book, top: Book, x: Row, m: Message)
    requires CarriesDelta(m, base, top) && (BookOf(x) == base || BookOf(x) == top)
    requires Max(base.clocks, top.clocks) == top.clocks && base.shares <= top.shares && KeysWithin(base.keys, top.keys)
    ensures var x' := RowAfterClocks(x, m);
      BookOf(x') == top && x'.docs == x.docs && x'.kind == x.kind
  {
    MergeConverges(base.clocks, top.clocks);
    RepeatedAnswer(base.clocks, top.clocks);
    ValuesOfApplied(x.clocks, m.update, m.add);
    KeysFilled(base.keys, top.keys, x.keys);
    hide MissingKeys, KeysClash, Behind, Missing, Max, ApplyRows, AppliedRows, Values;
    assert base.shares + (top.shares - base.shares) == top.shares && top.shares + (top.shares - base.shares) == top.shares;
    if ClockedRow(x, m).None? {
      assert BookOf(x) == top;
    }
  }

  /** A clock response leaves the initiator merged: it applies, or it repeats one that has been applied. */
  lemma ClocksDelivered(a: Row, b: Row, x: Row, y: Row, m: Message)
    requires RowsOk(a, b, x, y) && m.VectorClockResponse? && ExchangeOk(a, b, x, y, m)
    ensures var x' := RowAfterClocks(x, m);
      && RowsOk(a, b, x', y) && Moves(a, b, x, y, x', y) && BookOf(x') == MergedBook(a, b)
  {
    var top := MergedBook(a, b);
    MaxLaws(Values(a.clocks), Values(b.clocks));
    assert KeysWithin(a.keys, top.keys) && KeysWithin(top.keys, top.keys);
    hide Max, Behind, Missing, RowAfterClocks, History, KeysWithin;
    BookAfterClocks(if CarriesDelta(m, BookOf(a), top) then BookOf(a) else top, top, x, m);
    SameDocsGrown(x.docs);
    SameDocsGrown(y.docs);
  }

  /** A clock response never meets a clashing key. */
  lemma ResponseKeysFit(a: Row, b: Row, x: Row, y: Row, m: Message)
    requires RowsOk(a, b, x, y) && m.VectorClockResponse? && ExchangeOk(a, b, x, y, m)
    ensures !KeysClash(x.keys, m.keys)
  {
    var top := a.keys + b.keys;
    assert KeysWithin(a.keys, top) && KeysWithin(top, top);
    KeysFilled(if CarriesDelta(m, BookOf(a), MergedBook(a, b)) then a.keys else top, top, x.keys);
  }

  lemma SameDocsGrown(d: Docs)
    ensures Grown(d, d)
  {
  }
}
