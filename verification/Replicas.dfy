/**
 Any number of devices holding one resource: they edit it, send it on and exchange it pairwise.
 The sync skips a resource when the clock rows of the two sides agree; this module says when that
 is safe.
 */
module Replicas {
  import opened Wrappers
  import opened Crdt
  import opened ResourceDocs
  import opened Exchange
  import opened Manifest
  import opened VectorClock
  import opened Peer
  import opened SyncRows
  import opened SyncRun
  import opened SyncConvergence

  /** One local save: operations appended to one state key under one client id. */
  datatype Edit = Edit(key: StateKey, client: Client, ops: seq<Op>)

  /**
   `replicas` are the devices' rows of the resource.  `base` and `initial` are the documents and
   clocks it was created with, `edits` every save since, and `owners` the device each client id
   belongs to.
   */
  datatype World = World(
    kind: ResourceType,
    replicas: map<DeviceId, Row>,
    base: Docs,
    initial: Clocks,
    edits: map<DeviceId, seq<Edit>>,
    owners: map<Client, DeviceId>)

  /** A uuid is drawn for every clock row that may have to be created. */
  datatype Event =
    | Save(device: DeviceId, edit: Edit, uuid: RowId)
    | Share(device: DeviceId, user: UserId, key: KeyId, share: ShareId, uuids: map<DeviceId, RowId>)
    | Add(from: DeviceId, to: DeviceId, uuid: RowId)
    | Sync(left: DeviceId, right: DeviceId)

  predicate Enabled(w: World, e: Event) {
    match e
    case Save(d, x, _) =>
      && d in w.replicas && x.ops != [] && (x.client !in w.owners || w.owners[x.client] == d)
      && (d in w.replicas[d].clocks ==> w.replicas[d].clocks[d].value < 0x7FFF_FFFF)
    case Share(d, _, _, _, _) => d in w.replicas
    case Add(from, to, _) => from in w.replicas && from != to
    case Sync(l, r) => l in w.replicas && r in w.replicas && l != r
  }

  function DocAt(docs: Docs, k: StateKey): Doc {
    if k in docs then docs[k] else map[]
  }

  function Extend(d: Doc, c: Client, ops: seq<Op>): Doc
    requires ops != []
  {
    d[c := LogOf(d, c) + ops]
  }

  function Saved(row: Row, d: DeviceId, x: Edit, uuid: RowId): Row
    requires x.ops != [] && (d in row.clocks ==> row.clocks[d].value < 0x7FFF_FFFF)
  {
    row.(docs := row.docs[x.key := Extend(DocAt(row.docs, x.key), x.client, x.ops)],
         clocks := Incremented(row.clocks, d, uuid))
  }

  /** Sharing with a user: a key, a share record and clock rows of value zero, unless there is a key or one of the rows. */
  function SharedWith(row: Row, user: UserId, key: KeyId, share: ShareId, uuids: map<DeviceId, RowId>): Row {
    if user in row.keys || !(uuids.Keys !! row.clocks.Keys) then row
    else
      row.(keys := row.keys[user := key], shares := row.shares + {share},
           clocks := row.clocks + map d | d in uuids :: ClockRow(uuids[d], 0))
  }

  /** The documents of one side after a complete exchange with a side that has `theirs`. */
  function JoinShared(t: ResourceType, mine: Docs, theirs: Docs): Docs {
    map k | k in mine :: if Synchronised(t, k, mine, theirs) then Join(mine[k], theirs[k]) else mine[k]
  }

  /** Where keys clash the documents are exchanged and nothing else. */
  function Exchanged(t: ResourceType, mine: Row, theirs: Row): Row {
    var row := mine.(docs := JoinShared(t, mine.docs, theirs.docs));
    if KeysClash(mine.keys, theirs.keys) then row
    else
      row.(clocks := MergedRows(mine.clocks, theirs.clocks),
           shares := mine.shares + theirs.shares,
           keys := mine.keys + theirs.keys)
  }

  function EditsOf(w: World, d: DeviceId): seq<Edit> {
    if d in w.edits then w.edits[d] else []
  }

  function Next(w: World, e: Event): World
    requires Enabled(w, e)
  {
    match e
    case Save(d, x, uuid) =>
      w.(replicas := w.replicas[d := Saved(w.replicas[d], d, x, uuid)],
         edits := w.edits[d := EditsOf(w, d) + [x]],
         owners := w.owners[x.client := d])
    case Share(d, user, key, share, uuids) =>
      w.(replicas := w.replicas[d := SharedWith(w.replicas[d], user, key, share, uuids)])
    case Add(from, to, uuid) =>
      var sent := WithClockFor(w.replicas[from], to, uuid);
      var before := w.replicas[from := sent];
      var after := AddRow(before, to, sent);
      w.(replicas := if after.Some? then after.value else before)
    case Sync(l, r) =>
      var x, y := w.replicas[l], w.replicas[r];
      w.(replicas := w.replicas[l := Exchanged(w.kind, x, y)][r := Exchanged(w.kind, y, x)])
  }

  // What a replica holds and what its clocks count

  /** The operations of client `c` at state key `k` among the edits, in order. */
  function Flat(es: seq<Edit>, k: StateKey, c: Client): Log {
    if es == [] then []
    else
      var last := es[|es| - 1];
      Flat(es[..|es| - 1], k, c) + (if last.key == k && last.client == c then last.ops else [])
  }

  function ValueAt(clocks: Clocks, d: DeviceId): nat {
    if d in clocks then clocks[d] else 0
  }

  /** How many of the device's edits the clocks count. */
  function Counted(w: World, clocks: Clocks, d: DeviceId): int {
    ValueAt(clocks, d) - ValueAt(w.initial, d)
  }

  /** The clocks count edits that were made. */
  ghost predicate ClocksOk(w: World, clocks: Clocks) {
    forall d :: 0 <= Counted(w, clocks, d) <= |EditsOf(w, d)|
  }

  /** The log of client `c` at key `k` when exactly the edits the clocks count are in. */
  ghost function CountedLog(w: World, clocks: Clocks, k: StateKey, c: Client): Log
    requires ClocksOk(w, clocks)
  {
    LogOf(DocAt(w.base, k), c) +
    if c in w.owners then Flat(EditsOf(w, w.owners[c])[..Counted(w, clocks, w.owners[c])], k, c) else []
  }

  /** The row holds the state keys the resource was created with, and exactly the edits its clocks count. */
  ghost predicate Exact(w: World, row: Row) {
    && row.kind == w.kind
    && ClocksOk(w, Values(row.clocks))
    && row.docs.Keys == w.base.Keys
    && forall k, c :: k in w.base ==> LogOf(row.docs[k], c) == CountedLog(w, Values(row.clocks), k, c)
  }

  ghost predicate EditOk(w: World, d: DeviceId, x: Edit) {
    x.ops != [] && x.key in w.base && x.client in w.owners && w.owners[x.client] == d
  }

  ghost predicate EditsOk(w: World) {
    && (forall d, i :: d in w.edits && 0 <= i < |w.edits[d]| ==> EditOk(w, d, w.edits[d][i]))
    && (forall d :: d in w.edits ==> d in w.replicas)
    && (forall d :: d in w.replicas ==> Counted(w, Values(w.replicas[d].clocks), d) == |EditsOf(w, d)|)
  }

  /** Every replica holds exactly the edits its clocks count. */
  ghost predicate Faithful(w: World) {
    && w.base.Keys <= (set k | k in DocumentStateKeys(w.kind))
    && EditsOk(w)
    && forall d :: d in w.replicas ==> Exact(w, w.replicas[d])
  }

  /** The resource has just been created on one device. */
  ghost predicate Created(w: World, d: DeviceId) {
    && w.base.Keys <= (set k | k in DocumentStateKeys(w.kind))
    && w.replicas.Keys == {d} && w.replicas[d].kind == w.kind
    && w.replicas[d].docs == w.base && Values(w.replicas[d].clocks) == w.initial
    && w.edits == map[]
  }

  lemma CreatedIsFaithful(w: World, d: DeviceId)
    requires Created(w, d)
    ensures Faithful(w)
  {
  }

  /** The two rows count the same edits of every device. */
  ghost predicate SameCounts(x: Row, y: Row) {
    forall d :: ValueAt(Values(x.clocks), d) == ValueAt(Values(y.clocks), d)
  }

  /** Rows that count the same edits hold equal documents. */
  lemma SameCountsSameDocs(w: World, x: Row, y: Row)
    requires Exact(w, x) && Exact(w, y) && SameCounts(x, y)
    ensures x.docs == y.docs
  {
    forall k | k in w.base ensures x.docs[k] == y.docs[k] {
      forall c ensures LogOf(x.docs[k], c) == LogOf(y.docs[k], c) {
        assert LogOf(x.docs[k], c) == CountedLog(w, Values(x.clocks), k, c);
        assert LogOf(y.docs[k], c) == CountedLog(w, Values(y.clocks), k, c);
      }
      SameLogsSameDoc(x.docs[k], y.docs[k]);
    }
  }

  // Logs of counted edits

  lemma {:induction false} FlatGrows(es: seq<Edit>, m: nat, n: nat, k: StateKey, c: Client)
    requires m <= n <= |es|
    ensures Flat(es[..m], k, c) <= Flat(es[..n], k, c)
    decreases n
  {
    if m < n {
      assert es[..n][..n - 1] == es[..n - 1];
      FlatGrows(es, m, n - 1, k, c);
    }
  }

  /** Of two exact rows the log of every client is the prefix of the other's, as the clocks say. */
  lemma CountedLogGrows(w: World, x: Clocks, y: Clocks, k: StateKey, c: Client)
    requires ClocksOk(w, x) && ClocksOk(w, y)
    requires c in w.owners ==> Counted(w, x, w.owners[c]) <= Counted(w, y, w.owners[c])
    ensures CountedLog(w, x, k, c) <= CountedLog(w, y, k, c)
  {
    if c in w.owners {
      FlatGrows(EditsOf(w, w.owners[c]), Counted(w, x, w.owners[c]), Counted(w, y, w.owners[c]), k, c);
    }
  }

  // Saving

  lemma {:induction false} NoOpsOfStrangers(w: World, es: seq<Edit>, d: DeviceId, k: StateKey, c: Client)
    requires c !in w.owners && forall i :: 0 <= i < |es| ==> EditOk(w, d, es[i])
    ensures Flat(es, k, c) == []
  {
    if es != [] {
      NoOpsOfStrangers(w, es[..|es| - 1], d, k, c);
    }
  }

  function Raised(clocks: Clocks, d: DeviceId): Clocks {
    clocks[d := ValueAt(clocks, d) + 1]
  }

  lemma ValuesOfIncremented(rows: ClockRows, d: DeviceId, uuid: RowId)
    requires d in rows ==> rows[d].value < 0x7FFF_FFFF
    ensures Values(Incremented(rows, d, uuid)) == Raised(Values(rows), d)
  {
  }

  lemma OldClocksOkAfterSave(w: World, d: DeviceId, x: Edit, u: RowId, clocks: Clocks)
    requires Enabled(w, Save(d, x, u)) && ClocksOk(w, clocks)
    ensures ClocksOk(Next(w, Save(d, x, u)), clocks)
  {
    hide Saved;
    var w' := Next(w, Save(d, x, u));
    forall o ensures 0 <= Counted(w', clocks, o) <= |EditsOf(w', o)| {
      assert 0 <= Counted(w, clocks, o) <= |EditsOf(w, o)|;
    }
  }

  /** What a save makes of the edits counted before it. */
  lemma OldCountAfterSave(w: World, d: DeviceId, x: Edit, u: RowId, clocks: Clocks, k: StateKey, c: Client)
    requires EditsOk(w) && Enabled(w, Save(d, x, u)) && ClocksOk(w, clocks)
    ensures ClocksOk(Next(w, Save(d, x, u)), clocks)
    ensures CountedLog(Next(w, Save(d, x, u)), clocks, k, c) == CountedLog(w, clocks, k, c)
  {
    hide Next, Flat, ClocksOk, Counted, EditsOk, Incremented, Values;
    OldClocksOkAfterSave(w, d, x, u, clocks);
    HistoryAfterSave(w, d, x, u);
    var w' := Next(w, Save(d, x, u));
    InitialStays(w, w', clocks);
    if c in w'.owners {
      var o := w'.owners[c];
      var n := Counted(w, clocks, o);
      assert 0 <= n <= |EditsOf(w, o)| by {
        CountInRange(w, clocks, o);
      }
      assert EditsOf(w', o)[..n] == EditsOf(w, o)[..n];
      if c !in w.owners {
        StrangersEdits(w, o, n, k, c);
      }
    }
  }

  lemma StrangersEdits(w: World, d: DeviceId, n: nat, k: StateKey, c: Client)
    requires EditsOk(w) && c !in w.owners && n <= |EditsOf(w, d)|
    ensures Flat(EditsOf(w, d)[..n], k, c) == []
  {
    hide Flat;
    NoOpsOfStrangers(w, EditsOf(w, d)[..n], d, k, c);
  }

  lemma HistoryAfterSave(w: World, d: DeviceId, x: Edit, u: RowId)
    requires Enabled(w, Save(d, x, u))
    ensures var w' := Next(w, Save(d, x, u));
      && w'.base == w.base && w'.initial == w.initial
      && w'.owners == w.owners[x.client := d] && w'.edits == w.edits[d := EditsOf(w, d) + [x]]
      && (x.client in w.owners ==> w.owners[x.client] == d)
  {
  }

  lemma InitialStays(w: World, w': World, clocks: Clocks)
    requires w'.initial == w.initial
    ensures forall d :: Counted(w', clocks, d) == Counted(w, clocks, d)
  {
  }

  lemma CountInRange(w: World, clocks: Clocks, d: DeviceId)
    requires ClocksOk(w, clocks)
    ensures 0 <= Counted(w, clocks, d) <= |EditsOf(w, d)|
  {
  }

  lemma ClocksOkAfterSave(w: World, d: DeviceId, x: Edit, u: RowId, clocks: Clocks)
    requires EditsOk(w) && Enabled(w, Save(d, x, u)) && ClocksOk(w, clocks) && Counted(w, clocks, d) == |EditsOf(w, d)|
    ensures ClocksOk(Next(w, Save(d, x, u)), Raised(clocks, d))
  {
    hide Saved;
    var w' := Next(w, Save(d, x, u));
    forall o ensures 0 <= Counted(w', Raised(clocks, d), o) <= |EditsOf(w', o)| {
      assert 0 <= Counted(w, clocks, o) <= |EditsOf(w, o)|;
    }
  }

  /** What a save adds to the edits its own device counts. */
  lemma NewCountAfterSave(w: World, d: DeviceId, x: Edit, u: RowId, clocks: Clocks, k: StateKey, c: Client)
    requires EditsOk(w) && Enabled(w, Save(d, x, u)) && ClocksOk(w, clocks) && Counted(w, clocks, d) == |EditsOf(w, d)|
    ensures ClocksOk(Next(w, Save(d, x, u)), Raised(clocks, d))
    ensures CountedLog(Next(w, Save(d, x, u)), Raised(clocks, d), k, c) ==
      CountedLog(w, clocks, k, c) + (if x.key == k && x.client == c then x.ops else [])
  {
    hide Saved, Flat, EditsOk, ClocksOk;
    ClocksOkAfterSave(w, d, x, u, clocks);
    OldCountAfterSave(w, d, x, u, clocks, k, c);
    var w', es := Next(w, Save(d, x, u)), EditsOf(w, d);
    if c in w'.owners && w'.owners[c] == d {
      assert EditsOf(w', d)[..|es| + 1] == es + [x] && EditsOf(w', d)[..|es|] == es;
      FlatSnoc(es, x, k, c);
      Regroup(LogOf(DocAt(w.base, k), c), Flat(es, k, c), if x.key == k && x.client == c then x.ops else []);
    }
  }

  lemma Regroup(a: Log, b: Log, c: Log)
    ensures a + (b + c) == (a + b) + c
  {
  }

  lemma FlatSnoc(es: seq<Edit>, x: Edit, k: StateKey, c: Client)
    ensures Flat(es + [x], k, c) == Flat(es, k, c) + (if x.key == k && x.client == c then x.ops else [])
  {
  }

  lemma LogOfExtend(docs: Docs, x: Edit, c: Client)
    requires x.ops != [] && x.key in docs
    ensures LogOf(Extend(DocAt(docs, x.key), x.client, x.ops), c) ==
      LogOf(docs[x.key], c) + (if x.client == c then x.ops else [])
  {
  }

  lemma SavedLog(w: World, d: DeviceId, x: Edit, u: RowId, row: Row, k: StateKey, c: Client)
    requires EditsOk(w) && Enabled(w, Save(d, x, u)) && Exact(w, row) && Counted(w, Values(row.clocks), d) == |EditsOf(w, d)|
    requires d in row.clocks ==> row.clocks[d].value < 0x7FFF_FFFF
    requires k in w.base && x.key in w.base
    ensures ClocksOk(Next(w, Save(d, x, u)), Values(Saved(row, d, x, u).clocks))
    ensures LogOf(Saved(row, d, x, u).docs[k], c) == CountedLog(Next(w, Save(d, x, u)), Values(Saved(row, d, x, u).clocks), k, c)
  {
    hide CountedLog, ClocksOk, Incremented, Extend, DocAt, EditsOk, Next, Values;
    ValuesOfIncremented(row.clocks, d, u);
    NewCountAfterSave(w, d, x, u, Values(row.clocks), k, c);
    assert LogOf(row.docs[k], c) == CountedLog(w, Values(row.clocks), k, c);
    LogOfExtend(row.docs, x, c);
  }

  lemma SaveSelf(w: World, d: DeviceId, x: Edit, u: RowId, row: Row)
    requires EditsOk(w) && Enabled(w, Save(d, x, u)) && Exact(w, row) && Counted(w, Values(row.clocks), d) == |EditsOf(w, d)|
    requires d in row.clocks ==> row.clocks[d].value < 0x7FFF_FFFF
    requires x.key in row.docs
    ensures Exact(Next(w, Save(d, x, u)), Saved(row, d, x, u))
  {
    hide CountedLog, ClocksOk, EditsOk, Incremented, Extend, Next, LogOf, DocAt;
    var w', row' := Next(w, Save(d, x, u)), Saved(row, d, x, u);
    SaveKeepsBase(w, d, x, u);
    assert row'.docs.Keys == row.docs.Keys;
    SavedLog(w, d, x, u, row, x.key, x.client);
    forall k, c | k in w.base ensures LogOf(row'.docs[k], c) == CountedLog(w', Values(row'.clocks), k, c) {
      SavedLog(w, d, x, u, row, k, c);
    }
  }

  lemma SaveKeepsBase(w: World, d: DeviceId, x: Edit, u: RowId)
    requires Enabled(w, Save(d, x, u))
    ensures var w' := Next(w, Save(d, x, u)); w'.base == w.base && w'.kind == w.kind && w'.initial == w.initial
  {
  }

  lemma SaveOthers(w: World, d: DeviceId, x: Edit, u: RowId, row: Row)
    requires EditsOk(w) && Enabled(w, Save(d, x, u)) && Exact(w, row)
    ensures Exact(Next(w, Save(d, x, u)), row)
  {
    hide CountedLog, ClocksOk, Saved, EditsOk;
    var w' := Next(w, Save(d, x, u));
    OldCountAfterSave(w, d, x, u, Values(row.clocks), x.key, x.client);
    forall k, c | k in w.base ensures LogOf(row.docs[k], c) == CountedLog(w', Values(row.clocks), k, c) {
      OldCountAfterSave(w, d, x, u, Values(row.clocks), k, c);
      assert LogOf(row.docs[k], c) == CountedLog(w, Values(row.clocks), k, c);
    }
  }

  lemma SaveKeepsEdits(w: World, d: DeviceId, x: Edit, u: RowId)
    requires EditsOk(w) && Enabled(w, Save(d, x, u)) && x.key in w.base
    requires Counted(w, Values(w.replicas[d].clocks), d) == |EditsOf(w, d)|
    ensures EditsOk(Next(w, Save(d, x, u)))
  {
    hide Saved, Counted;
    var w' := Next(w, Save(d, x, u));
    forall o | o in w'.replicas ensures Counted(w', Values(w'.replicas[o].clocks), o) == |EditsOf(w', o)| {
      OwnCountAfterSave(w, d, x, u, o);
    }
    forall o, i | o in w'.edits && 0 <= i < |w'.edits[o]| ensures EditOk(w', o, w'.edits[o][i]) {
      if o in w.edits && i < |w.edits[o]| {
        assert EditOk(w, o, w.edits[o][i]);
      }
    }
  }

  lemma OwnCountAfterSave(w: World, d: DeviceId, x: Edit, u: RowId, o: DeviceId)
    requires EditsOk(w) && Enabled(w, Save(d, x, u)) && o in w.replicas
    ensures var w' := Next(w, Save(d, x, u)); Counted(w', Values(w'.replicas[o].clocks), o) == |EditsOf(w', o)|
  {
    OwnEditsCounted(w, o);
    ValuesOfIncremented(w.replicas[d].clocks, d, u);
    hide EditsOk, Extend, DocAt, Values, Incremented;
  }

  lemma KeptKeysExact(w: World, d: DeviceId, x: Edit, u: RowId)
    requires Faithful(w) && Enabled(w, Save(d, x, u)) && x.key in w.replicas[d].docs
    ensures Faithful(Next(w, Save(d, x, u)))
  {
    hide CountedLog, ClocksOk, Saved, EditsOk;
    var w', row := Next(w, Save(d, x, u)), w.replicas[d];
    assert Exact(w, row);
    OwnEditsCounted(w, d);
    hide Exact;
    SaveSelf(w, d, x, u, row);
    SaveKeepsEdits(w, d, x, u) by {
      assert row.docs.Keys == w.base.Keys by {
        KeysOfExact(w, row);
      }
    }
    forall o | o in w'.replicas ensures Exact(w', w'.replicas[o]) {
      if o != d {
        SaveOthers(w, d, x, u, w.replicas[o]);
      }
    }
  }

  lemma KeysOfExact(w: World, row: Row)
    requires Exact(w, row)
    ensures row.docs.Keys == w.base.Keys
  {
  }

  /** A save keeps the replicas faithful exactly when the resource was created with the state key it is for. */
  lemma SaveIff(w: World, d: DeviceId, x: Edit, u: RowId)
    requires Faithful(w) && Enabled(w, Save(d, x, u))
    ensures Faithful(Next(w, Save(d, x, u))) <==> x.key in w.replicas[d].docs
  {
    var w', row := Next(w, Save(d, x, u)), w.replicas[d];
    KeysOfExact(w, row);
    if x.key in row.docs {
      KeptKeysExact(w, d, x, u);
    } else {
      assert x.key in w'.replicas[d].docs && x.key !in w'.base;
      hide Incremented, CountedLog, EditsOk, ClocksOk;
      assert !Exact(w', w'.replicas[d]);
    }
  }

  lemma OwnEditsCounted(w: World, d: DeviceId)
    requires EditsOk(w) && d in w.replicas
    ensures Counted(w, Values(w.replicas[d].clocks), d) == |EditsOf(w, d)|
  {
  }

  // Sending the resource on

  /** The row as it is sent: with a clock row for the receiver. */
  function SentTo(w: World, e: Event): Row
    requires e.Add? && Enabled(w, e)
  {
    WithClockFor(w.replicas[e.from], e.to, e.uuid)
  }

  /** The clock rows a holder gains from an addition that is not refused: none of them may count an edit. */
  ghost predicate AdditionHarmless(w: World, e: Event)
    requires e.Add? && Enabled(w, e)
  {
    e.to in w.replicas ==>
      || Clash(w.replicas[e.to], SentTo(w, e))
      || forall d :: d in w.replicas[e.from].clocks && d !in w.replicas[e.to].clocks ==>
           Counted(w, Values(w.replicas[e.from].clocks), d) == 0
  }

  ghost predicate SameHistory(w: World, w': World) {
    w'.kind == w.kind && w'.base == w.base && w'.initial == w.initial && w'.edits == w.edits && w'.owners == w.owners
  }

  /** Only how many edits are counted matters. */
  lemma SameCountsSameExact(w: World, w': World, row: Row, row': Row)
    requires Exact(w, row) && row'.docs == row.docs && row'.kind == row.kind && SameHistory(w, w') && SameCounts(row', row)
    ensures Exact(w', row')
  {
    hide Flat, Values;
    var mine, theirs := Values(row'.clocks), Values(row.clocks);
    forall d ensures 0 <= Counted(w', mine, d) <= |EditsOf(w', d)| {
      assert 0 <= Counted(w, theirs, d) <= |EditsOf(w, d)|;
    }
    forall k, c | k in w.base ensures LogOf(row'.docs[k], c) == CountedLog(w', mine, k, c) {
      assert LogOf(row.docs[k], c) == CountedLog(w, theirs, k, c);
    }
  }

  lemma FlatOfNext(w: World, es: seq<Edit>, d: DeviceId, m: nat, n: nat)
    requires m < n <= |es| && EditOk(w, d, es[m])
    ensures |Flat(es[..m], es[m].key, es[m].client)| < |Flat(es[..n], es[m].key, es[m].client)|
  {
    FlatGrows(es, m + 1, n, es[m].key, es[m].client);
    assert es[..m + 1] == es[..m] + [es[m]];
    FlatSnoc(es[..m], es[m], es[m].key, es[m].client);
  }

  /** Clocks that count more edits of `d` stand for more operations: the first edit only they count shows where. */
  lemma CountingMoreIsLonger(w: World, x: Clocks, y: Clocks, d: DeviceId) returns (k: StateKey, c: Client)
    requires EditsOk(w) && ClocksOk(w, x) && ClocksOk(w, y) && Counted(w, x, d) < Counted(w, y, d)
    ensures k in w.base && |CountedLog(w, x, k, c)| < |CountedLog(w, y, k, c)|
  {
    var es, m, n := EditsOf(w, d), Counted(w, x, d), Counted(w, y, d);
    assert 0 <= m && n <= |es|;
    assert EditOk(w, d, es[m]);
    k, c := es[m].key, es[m].client;
    FlatOfNext(w, es, d, m, n);
  }

  /** Documents fit one count only. */
  lemma CountIsUnique(w: World, x: Row, y: Row)
    requires EditsOk(w) && Exact(w, x) && Exact(w, y) && x.docs == y.docs
    ensures SameCounts(x, y)
  {
    forall d ensures ValueAt(Values(x.clocks), d) == ValueAt(Values(y.clocks), d) {
      CountsNoMore(w, x, y, d);
      CountsNoMore(w, y, x, d);
    }
  }

  lemma CountsNoMore(w: World, x: Row, y: Row, d: DeviceId)
    requires EditsOk(w) && Exact(w, x) && Exact(w, y) && x.docs == y.docs
    ensures Counted(w, Values(y.clocks), d) <= Counted(w, Values(x.clocks), d)
  {
    if Counted(w, Values(x.clocks), d) < Counted(w, Values(y.clocks), d) {
      var k, c := CountingMoreIsLonger(w, Values(x.clocks), Values(y.clocks), d);
      SameLogs(w, x, y, k, c);
    }
  }

  lemma SameLogs(w: World, x: Row, y: Row, k: StateKey, c: Client)
    requires Exact(w, x) && Exact(w, y) && x.docs == y.docs && k in w.base
    ensures CountedLog(w, Values(x.clocks), k, c) == CountedLog(w, Values(y.clocks), k, c)
  {
    hide ClocksOk, CountedLog;
    assert LogOf(x.docs[k], c) == CountedLog(w, Values(x.clocks), k, c);
  }

  /** A row whose documents stand still is as exact as before exactly if it counts what it counted. */
  lemma ExactIffSameCounts(w: World, w': World, row: Row, row': Row)
    requires EditsOk(w) && Exact(w, row) && row'.docs == row.docs && row'.kind == row.kind && SameHistory(w, w')
    ensures Exact(w', row') <==> SameCounts(row', row)
  {
    hide Exact, SameCounts;
    if Exact(w', row') {
      SameHistoryExact(w, w', row');
      CountIsUnique(w, row', row);
    } else if SameCounts(row', row) {
      SameCountsSameExact(w, w', row, row');
    }
  }

  lemma SameHistoryExact(w: World, w': World, row: Row)
    requires SameHistory(w, w')
    ensures Exact(w', row) <==> Exact(w, row)
  {
    if Exact(w, row) {
      SameCountsSameExact(w, w', row, row);
    } else if Exact(w', row) {
      SameCountsSameExact(w', w, row, row);
    }
  }

  lemma RowIsExact(w: World, d: DeviceId)
    requires Faithful(w) && d in w.replicas
    ensures EditsOk(w) && Exact(w, w.replicas[d])
    ensures w.base.Keys <= (set k | k in DocumentStateKeys(w.kind))
  {
  }

  /** Every device counts all edits of its own. */
  ghost predicate OwnEditsStay(w: World, w': World) {
    forall d :: d in w'.replicas ==> Counted(w, Values(w'.replicas[d].clocks), d) == |EditsOf(w, d)|
  }

  /** What a step that makes no edit leaves to check: the rows themselves, and that no device forgets an edit of its own. */
  lemma FaithfulAfter(w: World, w': World)
    requires Faithful(w) && SameHistory(w, w') && w.replicas.Keys <= w'.replicas.Keys && OwnEditsStay(w, w')
    ensures Faithful(w') <==> forall d :: d in w'.replicas ==> Exact(w, w'.replicas[d])
  {
    hide Exact, EditsOk, OwnEditsStay;
    EditsOkAfter(w, w');
    forall d | d in w'.replicas ensures Exact(w', w'.replicas[d]) <==> Exact(w, w'.replicas[d]) {
      SameHistoryExact(w, w', w'.replicas[d]);
    }
  }

  lemma EditsOkAfter(w: World, w': World)
    requires EditsOk(w) && SameHistory(w, w') && w.replicas.Keys <= w'.replicas.Keys && OwnEditsStay(w, w')
    ensures EditsOk(w')
  {
    hide Values;
    forall d, i | d in w'.edits && 0 <= i < |w'.edits[d]| ensures EditOk(w', d, w'.edits[d][i]) {
      assert EditOk(w, d, w.edits[d][i]);
    }
  }

  /** A clock row of value zero counts nothing. */
  lemma ZeroRowCounts(row: Row, d: DeviceId, uuid: RowId)
    ensures SameCounts(WithClockFor(row, d, uuid), row)
  {
  }

  lemma SentIsExact(w: World, e: Event)
    requires Faithful(w) && e.Add? && Enabled(w, e)
    ensures Exact(w, SentTo(w, e)) && SameCounts(SentTo(w, e), w.replicas[e.from])
  {
    hide Values;
    ZeroRowCounts(w.replicas[e.from], e.to, e.uuid);
    assert Exact(w, w.replicas[e.from]);
    hide Exact;
    SameCountsSameExact(w, w, w.replicas[e.from], SentTo(w, e));
  }

  /** What an addition makes of the replicas. */
  lemma RowsAfterAddition(w: World, e: Event)
    requires e.Add? && Enabled(w, e)
    ensures var w', sent := Next(w, e), SentTo(w, e);
      && SameHistory(w, w')
      && w'.replicas.Keys == w.replicas.Keys + {e.to}
      && (forall d :: d in w.replicas && d != e.to ==> w'.replicas[d] == if d == e.from then sent else w.replicas[d])
      && w'.replicas[e.to] ==
           if e.to !in w.replicas then sent
           else if Clash(w.replicas[e.to], sent) then w.replicas[e.to] else Inserted(w.replicas[e.to], sent)
  {
    hide Clash, Inserted, WithClockFor;
  }

  lemma CountsAfterInserting(w: World, held: Row, sent: Row)
    requires ClocksOk(w, Values(held.clocks)) && ClocksOk(w, Values(sent.clocks))
    ensures SameCounts(Inserted(held, sent), held) <==>
      forall d :: d in sent.clocks && d !in held.clocks ==> Counted(w, Values(sent.clocks), d) == 0
    ensures forall d :: 0 <= Counted(w, Values(held.clocks), d) <= Counted(w, Values(Inserted(held, sent).clocks), d) <= |EditsOf(w, d)|
  {
    var after := Inserted(held, sent);
    forall d ensures 0 <= Counted(w, Values(held.clocks), d) <= Counted(w, Values(after.clocks), d) <= |EditsOf(w, d)| {
      assert 0 <= Counted(w, Values(held.clocks), d) && 0 <= Counted(w, Values(sent.clocks), d);
    }
    forall d | d in sent.clocks && d !in held.clocks
      ensures Counted(w, Values(sent.clocks), d) == 0 <==> ValueAt(Values(after.clocks), d) == ValueAt(Values(held.clocks), d)
    {
      assert 0 <= Counted(w, Values(held.clocks), d) && 0 <= Counted(w, Values(sent.clocks), d);
    }
  }

  lemma OwnCountsAfterAddition(w: World, e: Event, d: DeviceId)
    requires Faithful(w) && e.Add? && Enabled(w, e) && d in Next(w, e).replicas
    ensures Counted(w, Values(Next(w, e).replicas[d].clocks), d) == |EditsOf(w, d)|
  {
    hide Faithful, Exact, ClocksOk, Next, Clash, Inserted, EditsOk, Values, SentTo, Counted, SameCounts;
    RowsAfterAddition(w, e);
    SentIsExact(w, e);
    RowIsExact(w, e.from);
    ExactClocksOk(w, SentTo(w, e));
    if d in w.replicas {
      RowIsExact(w, d);
      OwnEditsCounted(w, d);
      ExactClocksOk(w, w.replicas[d]);
      CountsAfterInserting(w, w.replicas[d], SentTo(w, e));
      SameCountOf(w, SentTo(w, e), w.replicas[e.from], d);
    } else {
      StrangersMadeNoEdits(w, d);
      CountInRange(w, Values(SentTo(w, e).clocks), d);
    }
  }

  lemma ExactClocksOk(w: World, row: Row)
    requires Exact(w, row)
    ensures ClocksOk(w, Values(row.clocks))
  {
  }

  lemma StrangersMadeNoEdits(w: World, d: DeviceId)
    requires EditsOk(w) && d !in w.replicas
    ensures EditsOf(w, d) == []
  {
  }

  /**
   Sending the resource to a device keeps the replicas faithful exactly when the device does not
   have it yet, refuses it, or gains clock rows that count no edits.
   */
  lemma AddIff(w: World, e: Event)
    requires Faithful(w) && e.Add? && Enabled(w, e)
    ensures Faithful(Next(w, e)) <==> AdditionHarmless(w, e)
  {
    hide Exact, Faithful, Next, Clash, Inserted, EditsOk, Values, SentTo, AdditionHarmless, Counted;
    var w', sent := Next(w, e), SentTo(w, e);
    RowsAfterAddition(w, e);
    SentIsExact(w, e);
    forall d | d in w'.replicas ensures Counted(w, Values(w'.replicas[d].clocks), d) == |EditsOf(w, d)| {
      OwnCountsAfterAddition(w, e, d);
    }
    FaithfulAfter(w, w');
    hide OwnEditsStay;
    forall d | d in w.replicas ensures Exact(w, w.replicas[d]) {
      RowIsExact(w, d);
    }
    if e.to in w.replicas {
      HolderIff(w, e);
    } else {
      NewHolderHarmless(w, e);
    }
  }

  lemma NewHolderHarmless(w: World, e: Event)
    requires e.Add? && Enabled(w, e) && e.to !in w.replicas
    ensures AdditionHarmless(w, e)
  {
  }

  lemma HolderIff(w: World, e: Event)
    requires Faithful(w) && e.Add? && Enabled(w, e) && e.to in w.replicas && Exact(w, SentTo(w, e))
    ensures var held, sent := w.replicas[e.to], SentTo(w, e);
      Exact(w, if Clash(held, sent) then held else Inserted(held, sent)) <==> AdditionHarmless(w, e)
  {
    var held, sent := w.replicas[e.to], SentTo(w, e);
    RowIsExact(w, e.to);
    CountsAfterInserting(w, held, sent);
    ExactIffSameCounts(w, w, held, Inserted(held, sent));
    GainedIff(w, e);
    hide Exact, Clash, SameCounts, EditsOk, Values, Counted, SentTo, Faithful;
  }

  /** The row for the receiver that sending may create makes no difference. */
  lemma GainedIff(w: World, e: Event)
    requires Faithful(w) && e.Add? && Enabled(w, e) && e.to in w.replicas
    ensures (forall d :: d in SentTo(w, e).clocks && d !in w.replicas[e.to].clocks ==> Counted(w, Values(SentTo(w, e).clocks), d) == 0)
      <==> (forall d :: d in w.replicas[e.from].clocks && d !in w.replicas[e.to].clocks ==>
              Counted(w, Values(w.replicas[e.from].clocks), d) == 0)
  {
    var held, sent, row := w.replicas[e.to], SentTo(w, e), w.replicas[e.from];
    RowIsExact(w, e.to);
    hide Faithful, EditsOk, Exact;
    forall d | d in row.clocks ensures d in sent.clocks && Counted(w, Values(sent.clocks), d) == Counted(w, Values(row.clocks), d) {
    }
    forall d | d in sent.clocks && d !in held.clocks && d !in row.clocks ensures Counted(w, Values(sent.clocks), d) == 0 {
      InitialCounted(w, held, d);
    }
  }

  lemma InitialCounted(w: World, held: Row, d: DeviceId)
    requires Exact(w, held) && d !in held.clocks
    ensures ValueAt(w.initial, d) == 0
  {
    assert 0 <= Counted(w, Values(held.clocks), d);
  }

  /** Whether and how sharing changes the row: not for a user with a key, nor over a clock row that is there. */
  lemma SharingMeans(row: Row, user: UserId, key: KeyId, share: ShareId, uuids: map<DeviceId, RowId>)
    ensures var after := SharedWith(row, user, key, share, uuids);
      if user in row.keys || exists d :: d in uuids && d in row.clocks then after == row
      else
        && after == row.(keys := row.keys[user := key], shares := row.shares + {share}, clocks := after.clocks)
        && after.clocks.Keys == row.clocks.Keys + uuids.Keys
        && (forall d :: d in row.clocks ==> after.clocks[d] == row.clocks[d])
        && (forall d :: d in uuids ==> after.clocks[d] == ClockRow(uuids[d], 0))
  {
    assert uuids.Keys !! row.clocks.Keys <==> !exists d :: d in uuids && d in row.clocks;
  }

  /** Sharing with a user never hides an edit: the clock rows it creates are of value zero. */
  lemma ShareKeeps(w: World, e: Event)
    requires Faithful(w) && e.Share? && Enabled(w, e)
    ensures Faithful(Next(w, e))
  {
    hide Faithful, EditsOk, Exact, Counted, Values, SameCounts, SharedWith;
    var w', row := Next(w, e), w.replicas[e.device];
    var row' := w'.replicas[e.device];
    SharingCounts(row, e.user, e.key, e.share, e.uuids);
    RowIsExact(w, e.device);
    SameCountsSameExact(w, w, row, row');
    forall d | d in w'.replicas ensures Counted(w, Values(w'.replicas[d].clocks), d) == |EditsOf(w, d)| {
      RowIsExact(w, d);
      OwnEditsCounted(w, d);
      SameCountOf(w, row', row, d);
    }
    forall d | d in w'.replicas ensures Exact(w, w'.replicas[d]) {
      RowIsExact(w, d);
    }
    FaithfulAfter(w, w');
  }

  lemma SameCountOf(w: World, x: Row, y: Row, d: DeviceId)
    requires SameCounts(x, y)
    ensures Counted(w, Values(x.clocks), d) == Counted(w, Values(y.clocks), d)
  {
    hide Values;
  }

  lemma SharingCounts(row: Row, user: UserId, key: KeyId, share: ShareId, uuids: map<DeviceId, RowId>)
    ensures var row' := SharedWith(row, user, key, share, uuids);
      SameCounts(row', row) && row'.docs == row.docs && row'.kind == row.kind
  {
  }

  // Exchanging

  lemma MaxCounts(w: World, x: Clocks, y: Clocks, d: DeviceId)
    ensures var m := Counted(w, Max(x, y), d);
      m == if Counted(w, x, d) < Counted(w, y, d) then Counted(w, y, d) else Counted(w, x, d)
  {
  }

  lemma MergedIsExact(w: World, x: Row, y: Row)
    requires w.base.Keys <= (set k | k in DocumentStateKeys(w.kind))
    requires Exact(w, x) && Exact(w, y) && !KeysClash(x.keys, y.keys)
    ensures Exact(w, Exchanged(w.kind, x, y))
  {
    ValuesOfMerged(x.clocks, y.clocks);
    hide CountedLog, Max, Counted, Join, DocumentStateKeys, Values, MergedRows;
    var z, xs, ys := Exchanged(w.kind, x, y), Values(x.clocks), Values(y.clocks);
    MaxClocksOk(w, xs, ys);
    hide ClocksOk;
    forall k, c | k in w.base ensures LogOf(z.docs[k], c) == CountedLog(w, Max(xs, ys), k, c) {
      assert LogOf(x.docs[k], c) == CountedLog(w, xs, k, c);
      assert LogOf(y.docs[k], c) == CountedLog(w, ys, k, c);
      LogOfJoin(x.docs[k], y.docs[k], c);
      LongerIsCounted(w, xs, ys, k, c);
    }
  }

  lemma LogOfJoin(a: Doc, b: Doc, c: Client)
    ensures LogOf(Join(a, b), c) == if |LogOf(a, c)| < |LogOf(b, c)| then LogOf(b, c) else LogOf(a, c)
  {
  }

  lemma MaxClocksOk(w: World, x: Clocks, y: Clocks)
    requires ClocksOk(w, x) && ClocksOk(w, y)
    ensures ClocksOk(w, Max(x, y))
  {
    forall d ensures 0 <= Counted(w, Max(x, y), d) <= |EditsOf(w, d)| {
      MaxCounts(w, x, y, d);
      CountInRange(w, x, d);
      CountInRange(w, y, d);
    }
  }

  lemma LongerIsCounted(w: World, x: Clocks, y: Clocks, k: StateKey, c: Client)
    requires ClocksOk(w, x) && ClocksOk(w, y) && ClocksOk(w, Max(x, y))
    ensures CountedLog(w, Max(x, y), k, c) ==
      if |CountedLog(w, x, k, c)| < |CountedLog(w, y, k, c)| then CountedLog(w, y, k, c) else CountedLog(w, x, k, c)
  {
    if c in w.owners {
      var d := w.owners[c];
      MaxCounts(w, x, y, d);
      if Counted(w, x, d) <= Counted(w, y, d) {
        CountedLogGrows(w, x, y, k, c);
      } else {
        CountedLogGrows(w, y, x, k, c);
      }
    }
  }

  /** Documents that gain an edit the clocks do not count. */
  lemma UncountedEdit(w: World, x: Row, y: Row, d: DeviceId)
    requires w.base.Keys <= (set k | k in DocumentStateKeys(w.kind)) && EditsOk(w)
    requires Exact(w, x) && Exact(w, y) && KeysClash(x.keys, y.keys)
    requires Counted(w, Values(x.clocks), d) < Counted(w, Values(y.clocks), d)
    ensures !Exact(w, Exchanged(w.kind, x, y))
    ensures Exchanged(w.kind, x, y).docs != x.docs
  {
    hide Counted, Join, DocumentStateKeys, Values, MergedRows, EditsOk, ClocksOk, CountedLog, KeysClash;
    var z, xs, ys := Exchanged(w.kind, x, y), Values(x.clocks), Values(y.clocks);
    var k, c := CountingMoreIsLonger(w, xs, ys, d);
    assert LogOf(x.docs[k], c) == CountedLog(w, xs, k, c) && LogOf(y.docs[k], c) == CountedLog(w, ys, k, c);
    LogOfJoin(x.docs[k], y.docs[k], c);
    assert LogOf(z.docs[k], c) == CountedLog(w, ys, k, c) != CountedLog(w, xs, k, c);
  }

  /** An exchange that merges no clocks changes nothing if the two sides count the same. */
  lemma NothingToExchange(w: World, x: Row, y: Row)
    requires Exact(w, x) && Exact(w, y) && KeysClash(x.keys, y.keys) && SameCounts(x, y)
    ensures Exchanged(w.kind, x, y) == x
  {
    SameCountsSameDocs(w, x, y);
    forall k | k in x.docs ensures Join(x.docs[k], x.docs[k]) == x.docs[k] {
      SelfJoin(x.docs[k]);
    }
    assert JoinShared(w.kind, x.docs, x.docs) == x.docs;
  }

  lemma SelfJoin(d: Doc)
    ensures Join(d, d) == d
  {
  }

  lemma RowsAfterSync(w: World, l: DeviceId, r: DeviceId)
    requires Enabled(w, Sync(l, r))
    ensures var w', x, y := Next(w, Sync(l, r)), w.replicas[l], w.replicas[r];
      && SameHistory(w, w') && w'.replicas.Keys == w.replicas.Keys
      && w'.replicas[l] == Exchanged(w.kind, x, y) && w'.replicas[r] == Exchanged(w.kind, y, x)
      && forall d :: d in w.replicas && d != l && d != r ==> w'.replicas[d] == w.replicas[d]
  {
    hide Exchanged;
  }

  lemma OwnCountsAfterSync(w: World, l: DeviceId, r: DeviceId, d: DeviceId)
    requires Faithful(w) && Enabled(w, Sync(l, r)) && d in w.replicas
    ensures Counted(w, Values(Next(w, Sync(l, r)).replicas[d].clocks), d) == |EditsOf(w, d)|
  {
    RowsAfterSync(w, l, r);
    OwnEditsCounted(w, d);
    assert Exact(w, w.replicas[l]) && Exact(w, w.replicas[r]);
    var xs, ys := Values(w.replicas[l].clocks), Values(w.replicas[r].clocks);
    ValuesOfMerged(w.replicas[l].clocks, w.replicas[r].clocks);
    ValuesOfMerged(w.replicas[r].clocks, w.replicas[l].clocks);
    MaxCounts(w, xs, ys, d);
    MaxCounts(w, ys, xs, d);
    CountInRange(w, xs, d);
    CountInRange(w, ys, d);
    hide Next, EditsOk, Values, MergedRows, Max, CountedLog, ClocksOk, KeysClash, JoinShared, Exact;
  }

  /** What a caller can check before an exchange: no user has different keys on the two sides, or the clocks count the same. */
  ghost predicate ExchangeHarmless(w: World, l: DeviceId, r: DeviceId)
    requires l in w.replicas && r in w.replicas
  {
    !KeysClash(w.replicas[l].keys, w.replicas[r].keys) || SameCounts(w.replicas[l], w.replicas[r])
  }

  /** An exchange keeps the replicas faithful exactly when its keys do not clash or there is nothing to exchange. */
  lemma SyncIff(w: World, l: DeviceId, r: DeviceId)
    requires Faithful(w) && Enabled(w, Sync(l, r))
    ensures Faithful(Next(w, Sync(l, r))) <==> ExchangeHarmless(w, l, r)
  {
    hide Faithful, Exact, Next, EditsOk, Values, Exchanged, KeysClash, SameCounts, Counted;
    var w', x, y := Next(w, Sync(l, r)), w.replicas[l], w.replicas[r];
    RowsAfterSync(w, l, r);
    forall d | d in w'.replicas ensures Counted(w, Values(w'.replicas[d].clocks), d) == |EditsOf(w, d)| {
      OwnCountsAfterSync(w, l, r, d);
    }
    FaithfulAfter(w, w');
    hide OwnEditsStay;
    forall d | d in w.replicas ensures Exact(w, w.replicas[d]) {
      RowIsExact(w, d);
    }
    RowIsExact(w, l);
    KeysClashBothWays(x.keys, y.keys);
    ExchangedIff(w, x, y);
  }

  lemma ExchangedIff(w: World, x: Row, y: Row)
    requires w.base.Keys <= (set k | k in DocumentStateKeys(w.kind)) && EditsOk(w) && Exact(w, x) && Exact(w, y)
    ensures Exact(w, Exchanged(w.kind, x, y)) && Exact(w, Exchanged(w.kind, y, x)) <==>
      !KeysClash(x.keys, y.keys) || SameCounts(x, y)
  {
    hide Exact, EditsOk, Values, Exchanged, KeysClash;
    KeysClashBothWays(x.keys, y.keys);
    if !KeysClash(x.keys, y.keys) {
      MergedIsExact(w, x, y);
      MergedIsExact(w, y, x);
    } else if SameCounts(x, y) {
      NothingToExchange(w, x, y);
      NothingToExchange(w, y, x);
    } else {
      var d :| ValueAt(Values(x.clocks), d) != ValueAt(Values(y.clocks), d);
      if Counted(w, Values(x.clocks), d) < Counted(w, Values(y.clocks), d) {
        UncountedEdit(w, x, y, d);
      } else {
        UncountedEdit(w, y, x, d);
      }
    }
  }

  lemma KeysClashBothWays(a: Keys, b: Keys)
    ensures KeysClash(a, b) <==> KeysClash(b, a)
  {
  }

  // Runs

  /** What decides, before a step, whether the replicas stay faithful. */
  ghost predicate Guarded(w: World, e: Event)
    requires Enabled(w, e)
  {
    match e
    case Save(d, x, _) => x.key in w.replicas[d].docs
    case Share(_, _, _, _, _) => true
    case Add(_, _, _) => AdditionHarmless(w, e)
    case Sync(l, r) => ExchangeHarmless(w, l, r)
  }

  /** A step keeps the replicas faithful exactly when it is guarded. */
  lemma StepIff(w: World, e: Event)
    requires Faithful(w) && Enabled(w, e)
    ensures Faithful(Next(w, e)) <==> Guarded(w, e)
  {
    hide Faithful, Next, AdditionHarmless, ExchangeHarmless;
    match e
    case Save(d, x, u) => SaveIff(w, d, x, u);
    case Share(_, _, _, _, _) => ShareKeeps(w, e);
    case Add(_, _, _) => AddIff(w, e);
    case Sync(l, r) => SyncIff(w, l, r);
  }

  ghost predicate GuardedRun(w: World, es: seq<Event>)
    decreases |es|
  {
    es == [] || (Enabled(w, es[0]) && Guarded(w, es[0]) && GuardedRun(Next(w, es[0]), es[1..]))
  }

  ghost function Run(w: World, es: seq<Event>): World
    requires GuardedRun(w, es)
    decreases |es|
  {
    if es == [] then w else Run(Next(w, es[0]), es[1..])
  }

  lemma {:induction false} RunKeepsFaithful(w: World, es: seq<Event>)
    requires Faithful(w) && GuardedRun(w, es)
    ensures Faithful(Run(w, es))
    decreases |es|
  {
    hide Faithful, Next, Enabled, Guarded;
    if es != [] {
      StepIff(w, es[0]);
      RunKeepsFaithful(Next(w, es[0]), es[1..]);
    }
  }

  /**
   Skipping is sound: after any guarded run from the creation of the resource, two devices whose
   clock rows, in whatever order they are listed, need no update hold equal documents.
   */
  lemma SkippingIsSound(w: World, creator: DeviceId, es: seq<Event>, l: DeviceId, r: DeviceId, ls: seq<Entry>, rs: seq<Entry>)
    requires Created(w, creator) && GuardedRun(w, es)
    requires l in Run(w, es).replicas && r in Run(w, es).replicas
    requires UniqueDevices(ls) && RowsOf(ls) == Run(w, es).replicas[l].clocks
    requires UniqueDevices(rs) && RowsOf(rs) == Run(w, es).replicas[r].clocks
    requires !NeedUpdate(ls, rs)
    ensures Run(w, es).replicas[l].docs == Run(w, es).replicas[r].docs
  {
    hide Next, Guarded, GuardedRun, NeedUpdate, Exact;
    CreatedIsFaithful(w, creator);
    RunKeepsFaithful(w, es);
    NeedUpdateIffClocksDiffer(ls, rs);
    SameCountsSameDocs(Run(w, es), Run(w, es).replicas[l], Run(w, es).replicas[r]);
  }

  // Where the guards are missing

  /** The clocks agree, so the sync skips the resource, although the documents differ. */
  ghost predicate HiddenDifference(w: World, x: DeviceId, y: DeviceId) {
    && x in w.replicas && y in w.replicas
    && Values(w.replicas[x].clocks) == Values(w.replicas[y].clocks)
    && w.replicas[x].docs != w.replicas[y].docs
  }

  /**
   A device that has the resource already and is sent it again takes over clock rows without their
   edits.  If the rows agree otherwise, the two devices no longer see that their documents differ.
   */
  lemma AdditionHidesEdits(w: World, e: Event)
    requires Faithful(w) && e.Add? && Enabled(w, e) && e.to in w.replicas && !AdditionHarmless(w, e)
    requires forall d :: d in w.replicas[e.to].clocks ==>
      d in w.replicas[e.from].clocks && w.replicas[e.to].clocks[d].value == w.replicas[e.from].clocks[d].value
    ensures HiddenDifference(Next(w, e), e.from, e.to)
  {
    ClocksAfterAddition(w, e);
    RowsAfterAddition(w, e);
    SentIsExact(w, e);
    RowIsExact(w, e.to);
    hide Exact, Faithful, Next, Clash, EditsOk, Values, SentTo, AdditionHarmless, Inserted;
    if SentTo(w, e).docs == w.replicas[e.to].docs {
      CountIsUnique(w, SentTo(w, e), w.replicas[e.to]);
      SameCountsHarmless(w, e);
    }
  }

  lemma ClocksAfterAddition(w: World, e: Event)
    requires e.Add? && Enabled(w, e) && e.to in w.replicas && !Clash(w.replicas[e.to], SentTo(w, e))
    requires forall d :: d in w.replicas[e.to].clocks ==>
      d in w.replicas[e.from].clocks && w.replicas[e.to].clocks[d].value == w.replicas[e.from].clocks[d].value
    ensures var w' := Next(w, e);
      && w'.replicas[e.from].clocks == w'.replicas[e.to].clocks
      && w'.replicas[e.from].docs == SentTo(w, e).docs && w'.replicas[e.to].docs == w.replicas[e.to].docs
  {
    RowsAfterAddition(w, e);
    hide Next, KeysClash;
  }

  lemma SameCountsHarmless(w: World, e: Event)
    requires Faithful(w) && e.Add? && Enabled(w, e) && e.to in w.replicas && Exact(w, SentTo(w, e))
    requires SameCounts(SentTo(w, e), w.replicas[e.to])
    ensures AdditionHarmless(w, e)
  {
    assert Exact(w, w.replicas[e.to]);
    forall d | d in w.replicas[e.from].clocks && d !in w.replicas[e.to].clocks
      ensures Counted(w, Values(w.replicas[e.from].clocks), d) == 0
    {
      InitialCounted(w, w.replicas[e.to], d);
      assert ValueAt(Values(SentTo(w, e).clocks), d) == ValueAt(Values(w.replicas[e.to].clocks), d);
    }
  }

  /**
   An exchange whose keys clash brings a device edits that its clocks do not count.  A third device
   with the same clocks no longer sees that its documents differ.
   */
  lemma ClashHidesEdits(w: World, l: DeviceId, r: DeviceId, third: DeviceId, d: DeviceId)
    requires Faithful(w) && Enabled(w, Sync(l, r)) && KeysClash(w.replicas[l].keys, w.replicas[r].keys)
    requires Counted(w, Values(w.replicas[l].clocks), d) < Counted(w, Values(w.replicas[r].clocks), d)
    requires third in w.replicas && third != r && third != l && Values(w.replicas[third].clocks) == Values(w.replicas[l].clocks)
    ensures HiddenDifference(Next(w, Sync(l, r)), l, third)
  {
    RowsAfterSync(w, l, r);
    assert Exact(w, w.replicas[l]) && Exact(w, w.replicas[r]) && Exact(w, w.replicas[third]);
    UncountedEdit(w, w.replicas[l], w.replicas[r], d);
    SameCountsSameDocs(w, w.replicas[third], w.replicas[l]);
  }

  function NewRow(): Row {
    Row(Chat, map["chat" := map[]], "home", "home", map["ann" := ClockRow(Named("1"), 1)], {}, map[])
  }

  function NewWorld(): World {
    World(Chat, map["ann" := NewRow()], NewRow().docs, Values(NewRow().clocks), map[], map[])
  }

  const TWO_COPIES_ONE_EDITED: seq<Event> :=
    [Add("ann", "bob", Named("2")), Add("ann", "cat", Named("3")), Save("cat", Edit("chat", 7, ["op"]), Named("4"))]

  lemma ExampleRun()
    ensures Created(NewWorld(), "ann") && GuardedRun(NewWorld(), TWO_COPIES_ONE_EDITED)
    ensures var w, a, b := Run(NewWorld(), TWO_COPIES_ONE_EDITED), ClockRow(Named("1"), 1), ClockRow(Named("2"), 0);
      && w.replicas.Keys == {"ann", "bob", "cat"} && w.initial == map["ann" := 1]
      && w.replicas["bob"].clocks == map["ann" := a, "bob" := b] && w.replicas["bob"].keys == map[]
      && w.replicas["cat"].clocks == map["ann" := a, "bob" := b, "cat" := ClockRow(Named("3"), 1)]
      && w.replicas["cat"].keys == map[]
  {
    var es, a, b := TWO_COPIES_ONE_EDITED, ClockRow(Named("1"), 1), ClockRow(Named("2"), 0);
    var w1 := Next(NewWorld(), es[0]);
    assert w1.replicas["ann"].clocks == w1.replicas["bob"].clocks == map["ann" := a, "bob" := b];
    var w2 := Next(w1, es[1]);
    assert w2.replicas["cat"].clocks == map["ann" := a, "bob" := b, "cat" := ClockRow(Named("3"), 0)];
    assert w2.replicas["bob"].clocks == map["ann" := a, "bob" := b];
    var w3 := Next(w2, es[2]);
    assert w3.replicas["cat"].clocks == map["ann" := a, "bob" := b, "cat" := ClockRow(Named("3"), 1)];
    assert w3.replicas["bob"].clocks == map["ann" := a, "bob" := b];
    hide Next;
    assert es[1..][1..] == [es[2]] && es[1..][1..][1..] == [];
    assert GuardedRun(w3, []) && GuardedRun(w2, [es[2]]) && GuardedRun(w1, es[1..]);
  }

  /** A guarded run that leads there: two copies are sent out, one is edited and sent to the holder of the other. */
  lemma AdditionHidesEditsExample()
    ensures Created(NewWorld(), "ann") && GuardedRun(NewWorld(), TWO_COPIES_ONE_EDITED)
    ensures var w, e := Run(NewWorld(), TWO_COPIES_ONE_EDITED), Add("cat", "bob", Named("5"));
      Enabled(w, e) && HiddenDifference(Next(w, e), "cat", "bob")
  {
    hide Next, Run, GuardedRun, Faithful, Created;
    ExampleRun();
    CreatedIsFaithful(NewWorld(), "ann");
    RunKeepsFaithful(NewWorld(), TWO_COPIES_ONE_EDITED);
    var w := Run(NewWorld(), TWO_COPIES_ONE_EDITED);
    assert "cat" in w.replicas["cat"].clocks && "cat" !in w.replicas["bob"].clocks;
    assert Counted(w, Values(w.replicas["cat"].clocks), "cat") == 1;
    AdditionHidesEdits(w, Add("cat", "bob", Named("5")));
  }

  /** A state key only one side stores is not exchanged, but the clocks that count its edits are. */
  lemma NewKeyStaysBehind(w: World, l: DeviceId, r: DeviceId, k: StateKey)
    requires Enabled(w, Sync(l, r)) && !KeysClash(w.replicas[l].keys, w.replicas[r].keys)
    requires k in w.replicas[l].docs && k !in w.replicas[r].docs
    ensures var w' := Next(w, Sync(l, r));
      && HiddenDifference(w', l, r)
      && k in w'.replicas[l].docs && w'.replicas[l].docs[k] == w.replicas[l].docs[k] && k !in w'.replicas[r].docs
  {
    var x, y := w.replicas[l], w.replicas[r];
    KeysClashBothWays(x.keys, y.keys);
    ValuesOfMerged(x.clocks, y.clocks);
    ValuesOfMerged(y.clocks, x.clocks);
    MaxBasics(Values(x.clocks), Values(y.clocks));
    RowsAfterSync(w, l, r);
    hide Next, Values, MergedRows, KeysClash;
    assert k in Exchanged(w.kind, x, y).docs && k !in Exchanged(w.kind, y, x).docs;
  }

  // A completed exchange of the protocol is a `Sync`

  lemma ExactMeansCoherent(w: World, x: Row, y: Row)
    requires Exact(w, x) && Exact(w, y)
    ensures OneHistory(x, y)
  {
    hide CountedLog, Values;
    var xs, ys := Values(x.clocks), Values(y.clocks);
    forall k | k in w.base ensures Coherent(x.docs[k], y.docs[k]) {
      forall c ensures LogOf(x.docs[k], c) <= LogOf(y.docs[k], c) || LogOf(y.docs[k], c) <= LogOf(x.docs[k], c) {
        assert LogOf(x.docs[k], c) == CountedLog(w, xs, k, c);
        assert LogOf(y.docs[k], c) == CountedLog(w, ys, k, c);
        if c !in w.owners || Counted(w, xs, w.owners[c]) <= Counted(w, ys, w.owners[c]) {
          CountedLogGrows(w, xs, ys, k, c);
        } else {
          CountedLogGrows(w, ys, xs, k, c);
        }
      }
    }
  }

  /** The rows a drained user sync leaves once its exchanges took place: merged, or with documents only where keys clash. */
  ghost predicate ExchangeDone(a: Row, b: Row, x: Row, y: Row) {
    && DocsReconciled(a, b, x, y)
    && (KeysAgree(a, b) ==> BookOf(x) == BookOf(y) == MergedBook(a, b))
    && (!KeysAgree(a, b) ==> BookOf(x) == BookOf(a) && BookOf(y) == BookOf(b))
  }

  lemma DoneIsExchanged(w: World, a: Row, b: Row, x: Row, y: Row)
    requires w.base.Keys <= (set k | k in DocumentStateKeys(w.kind))
    requires Exact(w, a) && Exact(w, b) && ExchangeDone(a, b, x, y)
    ensures x.docs == Exchanged(w.kind, a, b).docs && BookOf(x) == BookOf(Exchanged(w.kind, a, b))
    ensures y.docs == Exchanged(w.kind, b, a).docs && BookOf(y) == BookOf(Exchanged(w.kind, b, a))
  {
    hide Exact, BookOf, MergedBook, KeysAgree, KeysClash, MergedRows, DocsReconciled, JoinShared, OneHistory;
    ExactMeansCoherent(w, a, b);
    BooksExchanged(w.kind, a, b);
    KeysOfExact(w, a);
    KeysOfExact(w, b);
    KindOfExact(w, a);
    DocsDone(w, a, b, x, y);
  }

  lemma DocsDone(w: World, a: Row, b: Row, x: Row, y: Row)
    requires a.docs.Keys == b.docs.Keys == w.base.Keys <= (set k | k in DocumentStateKeys(w.kind)) && a.kind == w.kind
    requires OneHistory(a, b) && DocsReconciled(a, b, x, y)
    ensures x.docs == JoinShared(w.kind, a.docs, b.docs) && y.docs == JoinShared(w.kind, b.docs, a.docs)
  {
    hide Join, Coherent, DocumentStateKeys;
    forall k | k in a.docs ensures x.docs[k] == Join(a.docs[k], b.docs[k]) == Join(b.docs[k], a.docs[k]) == y.docs[k] {
      assert Synchronised(w.kind, k, a.docs, b.docs);
      JoinIsLeastUpperBound(a.docs[k], b.docs[k]);
    }
  }

  lemma KindOfExact(w: World, row: Row)
    requires Exact(w, row)
    ensures row.kind == w.kind
  {
  }

  lemma BooksExchanged(t: ResourceType, a: Row, b: Row)
    ensures KeysAgree(a, b) ==> BookOf(Exchanged(t, a, b)) == BookOf(Exchanged(t, b, a)) == MergedBook(a, b)
    ensures !KeysAgree(a, b) ==> BookOf(Exchanged(t, a, b)) == BookOf(a) && BookOf(Exchanged(t, b, a)) == BookOf(b)
  {
    KeysClashBothWays(a.keys, b.keys);
    ValuesOfMerged(a.clocks, b.clocks);
    ValuesOfMerged(b.clocks, a.clocks);
    MaxBasics(Values(a.clocks), Values(b.clocks));
    if KeysAgree(a, b) {
      assert a.keys + b.keys == b.keys + a.keys;
    }
    hide Values, MergedRows, Max, JoinShared;
  }

  /** What a drained user sync leaves for a resource in sync, where exchanges took place, is a `Sync` between the two devices. */
  lemma DrainedSyncIsExchange(w: World, o: System, ds: seq<Delivery>, id: ResourceId)
    requires w.base.Keys <= (set k | k in DocumentStateKeys(w.kind))
    requires Start(o) && Feasible(o, ds) && Drained(SyncRun.Run(o, ds))
    requires id in SettingOf(o).Syncs() && Took(SettingOf(o), SyncRun.Run(o, ds))
    requires id in o.initiator.store && Exact(w, o.initiator.store[id])
    requires id in o.responder.store && Exact(w, o.responder.store[id])
    ensures var s := SyncRun.Run(o, ds);
      && id in s.initiator.store && id in s.responder.store
      && var a, b, x, y := o.initiator.store[id], o.responder.store[id], s.initiator.store[id], s.responder.store[id];
      && x.docs == Exchanged(w.kind, a, b).docs && BookOf(x) == BookOf(Exchanged(w.kind, a, b))
      && y.docs == Exchanged(w.kind, b, a).docs && BookOf(y) == BookOf(Exchanged(w.kind, b, a))
  {
    var s := SyncRun.Run(o, ds);
    DrainedRunReconciles(o, ds);
    assert SettingOf(o).start == o;
    hide Start, Feasible, Drained, Exact, SyncRun.Run, SettingOf, RowsOk, DocsReconciled, Took, BookOf, MergedBook, KeysAgree, Exchanged;
    DoneIsExchanged(w, o.initiator.store[id], o.responder.store[id], s.initiator.store[id], s.responder.store[id]);
  }
}
