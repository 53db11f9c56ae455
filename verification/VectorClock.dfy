/**
 Vector clocks of one resource: one row per device.  `Merge` analyses two row lists; the lists it
 returns are written to the two stores by `UpdateVectorClocks`.
 */
module VectorClock {
  import opened Wrappers

  type DeviceId = string

  /** A row id is a uuid: one that was stored before, or one drawn in the course of a sync. */
  datatype RowId = Named(text: string) | Drawn(draw: nat, resource: string)

  /** A clock value as the 32-bit column holds it. */
  type ClockValue = v: nat | v < 0x8000_0000

  /** A row as it is listed and sent; its timestamps play no part in the protocol. */
  datatype Entry = Entry(id: RowId, deviceId: DeviceId, clockValue: ClockValue)

  /** The rows of one resource in the table, which keeps one per device. */
  datatype ClockRow = ClockRow(id: RowId, value: ClockValue)
  type ClockRows = map<DeviceId, ClockRow>

  /** The clocks alone. */
  type Clocks = map<DeviceId, nat>

  function Values(rows: ClockRows): Clocks {
    map d | d in rows :: rows[d].value
  }

  datatype MergeResult = MergeResult(
    updateLocal: seq<Entry>,
    addLocal: seq<Entry>,
    updateRemote: seq<Entry>,
    addRemote: seq<Entry>,
    localNeedsUpdate: bool,
    remoteNeedsUpdate: bool)

  /** The table allows one row per resource and device. */
  ghost predicate UniqueDevices(es: seq<Entry>) {
    forall i, j :: 0 <= i < j < |es| ==> es[i].deviceId != es[j].deviceId
  }

  function RowsOf(es: seq<Entry>): ClockRows {
    if es == [] then map[]
    else
      var last := es[|es| - 1];
      RowsOf(es[..|es| - 1])[last.deviceId := ClockRow(last.id, last.clockValue)]
  }

  function ClocksOf(es: seq<Entry>): Clocks {
    Values(RowsOf(es))
  }

  /** The first row of a device, as `iter().find` returns it. */
  function Find(es: seq<Entry>, d: DeviceId): (r: Option<Entry>)
    ensures r.Some? ==> r.value in es && r.value.deviceId == d
    ensures r.None? ==> forall e :: e in es ==> e.deviceId != d
  {
    if es == [] then None else if es[0].deviceId == d then Some(es[0]) else Find(es[1..], d)
  }

  /** The rows of `b` for devices `a` has no row for. */
  function Missing(a: Clocks, b: Clocks): Clocks {
    map d | d in b && d !in a :: b[d]
  }

  /** The rows of `b` that are ahead of `a`. */
  function Behind(a: Clocks, b: Clocks): Clocks {
    map d | d in a && d in b && a[d] < b[d] :: b[d]
  }

  /** The pointwise maximum, over the devices of either side. */
  function Max(a: Clocks, b: Clocks): Clocks {
    map d | d in a.Keys + b.Keys ::
      if d in a && d in b then (if a[d] < b[d] then b[d] else a[d]) else if d in a then a[d] else b[d]
  }

  /** Existing rows take the new values; rows that do not exist are not created. */
  function Overwritten(rows: Clocks, update: Clocks): Clocks {
    map d | d in rows :: if d in update then update[d] else rows[d]
  }

  /** Updates existing rows, then inserts; a second row for a device violates the table's uniqueness. */
  function ApplyRows(rows: Clocks, update: Clocks, add: Clocks): Option<Clocks> {
    if add.Keys !! rows.Keys then Some(Overwritten(rows, update) + add) else None
  }

  // The same on rows: a row that exists keeps its id

  function MissingRows(a: ClockRows, b: ClockRows): ClockRows {
    map d | d in b && d !in a :: b[d]
  }

  function BehindRows(a: ClockRows, b: ClockRows): ClockRows {
    map d | d in a && d in b && a[d].value < b[d].value :: b[d]
  }

  /** The rows of `a` raised to the values of `b`, and the rows only `b` has. */
  function MergedRows(a: ClockRows, b: ClockRows): ClockRows {
    map d | d in a.Keys + b.Keys ::
      if d !in a then b[d]
      else if d in b && a[d].value < b[d].value then a[d].(value := b[d].value)
      else a[d]
  }

  function OverwrittenRows(rows: ClockRows, update: ClockRows): ClockRows {
    map d | d in rows :: if d in update then rows[d].(value := update[d].value) else rows[d]
  }

  function AppliedRows(rows: ClockRows, update: ClockRows, add: ClockRows): Option<ClockRows> {
    if add.Keys !! rows.Keys then Some(OverwrittenRows(rows, update) + add) else None
  }

  lemma ValuesOfParts(a: ClockRows, b: ClockRows)
    ensures Values(MissingRows(a, b)) == Missing(Values(a), Values(b))
    ensures Values(BehindRows(a, b)) == Behind(Values(a), Values(b))
    ensures Values(MergedRows(a, b)) == Max(Values(a), Values(b))
  {
    ValuesOfBehind(a, b);
    ValuesOfMerged(a, b);
  }

  lemma ValuesOfBehind(a: ClockRows, b: ClockRows)
    ensures Values(BehindRows(a, b)) == Behind(Values(a), Values(b))
  {
    var r, v := Values(BehindRows(a, b)), Behind(Values(a), Values(b));
    assert r.Keys == v.Keys;
    forall d | d in r ensures r[d] == v[d] {
    }
  }

  lemma ValuesOfMerged(a: ClockRows, b: ClockRows)
    ensures Values(MergedRows(a, b)) == Max(Values(a), Values(b))
  {
    var r, v := Values(MergedRows(a, b)), Max(Values(a), Values(b));
    assert r.Keys == v.Keys;
    forall d | d in r ensures r[d] == v[d] {
    }
  }

  lemma ValuesOfApplied(rows: ClockRows, update: ClockRows, add: ClockRows)
    ensures ApplyRows(Values(rows), Values(update), Values(add)) ==
      match AppliedRows(rows, update, add) { case None => None case Some(r) => Some(Values(r)) }
  {
    assert Values(OverwrittenRows(rows, update)) == Overwritten(Values(rows), Values(update));
    assert Values(OverwrittenRows(rows, update) + add) == Overwritten(Values(rows), Values(update)) + Values(add);
  }

  /** Applying what a merge finds lacking gives the merged rows. */
  lemma AppliedIsMerged(l: ClockRows, m: ClockRows)
    ensures AppliedRows(l, BehindRows(l, m), MissingRows(l, m)) == Some(MergedRows(l, m))
  {
    var r := AppliedRows(l, BehindRows(l, m), MissingRows(l, m)).value;
    assert r.Keys == MergedRows(l, m).Keys;
    assert r == MergedRows(l, m);
  }

  /** A clock value written to the 32-bit column and read back as an unsigned 64-bit value. */
  function Stored(v: nat): (r: nat)
    requires v < 0x1_0000_0000_0000_0000
    ensures r % 0x1_0000_0000 == v % 0x1_0000_0000
    ensures r < 0x8000_0000 || 0x1_0000_0000_0000_0000 - 0x8000_0000 <= r < 0x1_0000_0000_0000_0000
  {
    var low := v % 0x1_0000_0000;
    if low < 0x8000_0000 then low else 0x1_0000_0000_0000_0000 - 0x1_0000_0000 + low
  }

  /** The column keeps a value exactly when it is a non-negative 32-bit value or a sign-extended negative one. */
  lemma StoredKeepsIff(v: nat)
    requires v < 0x1_0000_0000_0000_0000
    ensures Stored(v) == v <==> v < 0x8000_0000 || 0x1_0000_0000_0000_0000 - 0x8000_0000 <= v
  {
  }

  lemma RowsOfSnoc(es: seq<Entry>, e: Entry)
    ensures RowsOf(es + [e]) == RowsOf(es)[e.deviceId := ClockRow(e.id, e.clockValue)]
  {
    assert (es + [e])[..|es|] == es;
  }

  lemma ClocksOfSnoc(es: seq<Entry>, e: Entry)
    ensures ClocksOf(es + [e]) == ClocksOf(es)[e.deviceId := e.clockValue]
  {
    RowsOfSnoc(es, e);
    hide RowsOf;
  }

  lemma {:induction false} RowsOfUnique(es: seq<Entry>)
    requires UniqueDevices(es)
    ensures forall e :: e in es ==> e.deviceId in RowsOf(es) && RowsOf(es)[e.deviceId] == ClockRow(e.id, e.clockValue)
    ensures forall d :: d in RowsOf(es) ==> Entry(RowsOf(es)[d].id, d, RowsOf(es)[d].value) in es
  {
    if es != [] {
      var n := |es| - 1;
      RowsOfUnique(es[..n]);
      forall e | e in es ensures e.deviceId in RowsOf(es) && RowsOf(es)[e.deviceId] == ClockRow(e.id, e.clockValue) {
        var i :| 0 <= i < |es| && es[i] == e;
        if i < n {
          assert e in es[..n] && e.deviceId != es[n].deviceId;
        }
      }
    }
  }

  lemma FindIsRow(es: seq<Entry>, d: DeviceId)
    requires UniqueDevices(es)
    ensures Find(es, d) == if d in RowsOf(es) then Some(Entry(RowsOf(es)[d].id, d, RowsOf(es)[d].value)) else None
  {
    RowsOfUnique(es);
  }

  /** The four lists say what each side lacks; a flag is raised exactly when its lists are not both empty. */
  ghost predicate Analyses(r: MergeResult, l: ClockRows, m: ClockRows) {
    && UniqueDevices(r.updateLocal) && RowsOf(r.updateLocal) == BehindRows(l, m)
    && UniqueDevices(r.addLocal) && RowsOf(r.addLocal) == MissingRows(l, m)
    && UniqueDevices(r.updateRemote) && RowsOf(r.updateRemote) == BehindRows(m, l)
    && UniqueDevices(r.addRemote) && RowsOf(r.addRemote) == MissingRows(m, l)
    && (r.localNeedsUpdate <==> r.updateLocal != [] || r.addLocal != [])
    && (r.remoteNeedsUpdate <==> r.updateRemote != [] || r.addRemote != [])
  }

  lemma OneMoreMissing(l: ClockRows, c: ClockRows, d: DeviceId, v: ClockRow)
    requires d !in c
    ensures d !in MissingRows(l, c)
    ensures MissingRows(l, c[d := v]) == if d in l then MissingRows(l, c) else MissingRows(l, c)[d := v]
  {
  }

  lemma OneMoreBehind(l: ClockRows, c: ClockRows, d: DeviceId, v: ClockRow)
    requires d !in c
    ensures d !in BehindRows(l, c)
    ensures BehindRows(l, c[d := v]) == if d in l && l[d].value < v.value then BehindRows(l, c)[d := v] else BehindRows(l, c)
  {
  }

  lemma OneMoreAhead(l: ClockRows, c: ClockRows, d: DeviceId, v: ClockRow)
    requires d !in c
    ensures d !in BehindRows(c, l)
    ensures BehindRows(c[d := v], l) == if d in l && v.value < l[d].value then BehindRows(c, l)[d := l[d]] else BehindRows(c, l)
  {
  }

  lemma NextRow(es: seq<Entry>, i: nat)
    requires UniqueDevices(es) && i < |es|
    ensures es[i].deviceId !in RowsOf(es[..i])
    ensures RowsOf(es[..i + 1]) == RowsOf(es[..i])[es[i].deviceId := ClockRow(es[i].id, es[i].clockValue)]
  {
    RowsOfUnique(es[..i]);
    assert es[..i + 1] == es[..i] + [es[i]];
    RowsOfSnoc(es[..i], es[i]);
  }

  lemma Pushed(out: seq<Entry>, e: Entry)
    requires UniqueDevices(out) && e.deviceId !in RowsOf(out)
    ensures UniqueDevices(out + [e]) && RowsOf(out + [e]) == RowsOf(out)[e.deviceId := ClockRow(e.id, e.clockValue)]
  {
    RowsOfUnique(out);
    RowsOfSnoc(out, e);
  }

  method Merge(local: seq<Entry>, remote: seq<Entry>) returns (r: MergeResult)
    requires UniqueDevices(local) && UniqueDevices(remote)
    ensures Analyses(r, RowsOf(local), RowsOf(remote))
  {
    var updateLocal: seq<Entry>, addLocal: seq<Entry> := [], [];
    var updateRemote: seq<Entry>, addRemote: seq<Entry> := [], [];
    var localNeedsUpdate, remoteNeedsUpdate := false, false;
    ghost var l, m := RowsOf(local), RowsOf(remote);

    for i := 0 to |remote|
      invariant UniqueDevices(updateLocal) && RowsOf(updateLocal) == BehindRows(l, RowsOf(remote[..i]))
      invariant UniqueDevices(addLocal) && RowsOf(addLocal) == MissingRows(l, RowsOf(remote[..i]))
      invariant UniqueDevices(updateRemote) && RowsOf(updateRemote) == BehindRows(RowsOf(remote[..i]), l)
      invariant localNeedsUpdate <==> updateLocal != [] || addLocal != []
      invariant remoteNeedsUpdate <==> updateRemote != []
    {
      hide RowsOf, MissingRows, BehindRows;
      var entry := remote[i];
      ghost var row := ClockRow(entry.id, entry.clockValue);
      NextRow(remote, i);
      OneMoreMissing(l, RowsOf(remote[..i]), entry.deviceId, row);
      OneMoreBehind(l, RowsOf(remote[..i]), entry.deviceId, row);
      OneMoreAhead(l, RowsOf(remote[..i]), entry.deviceId, row);
      FindIsRow(local, entry.deviceId);
      var localEntry := Find(local, entry.deviceId);
      match localEntry {
        case Some(found) =>
          if found.clockValue < entry.clockValue {
            Pushed(updateLocal, entry);
            updateLocal := updateLocal + [entry];
            localNeedsUpdate := true;
          } else if entry.clockValue < found.clockValue {
            Pushed(updateRemote, found);
            updateRemote := updateRemote + [found];
            remoteNeedsUpdate := true;
          }
        case None =>
          Pushed(addLocal, entry);
          addLocal := addLocal + [entry];
          localNeedsUpdate := true;
      }
    }
    assert remote[..|remote|] == remote;

    for i := 0 to |local|
      invariant UniqueDevices(addRemote) && RowsOf(addRemote) == MissingRows(m, RowsOf(local[..i]))
      invariant remoteNeedsUpdate <==> updateRemote != [] || addRemote != []
    {
      hide RowsOf, MissingRows, BehindRows;
      var entry := local[i];
      NextRow(local, i);
      OneMoreMissing(m, RowsOf(local[..i]), entry.deviceId, ClockRow(entry.id, entry.clockValue));
      FindIsRow(remote, entry.deviceId);
      if Find(remote, entry.deviceId).None? {
        Pushed(addRemote, entry);
        addRemote := addRemote + [entry];
        remoteNeedsUpdate := true;
      }
    }
    assert local[..|local|] == local;
    r := MergeResult(updateLocal, addLocal, updateRemote, addRemote, localNeedsUpdate, remoteNeedsUpdate);
  }

  /** Every row of `es` has a counterpart in `other`. */
  ghost predicate AllKnown(es: seq<Entry>, other: seq<Entry>) {
    forall e :: e in es ==> Find(other, e.deviceId).Some?
  }

  /** No row of `es` disagrees with its counterpart. */
  ghost predicate NoneDiffer(es: seq<Entry>, other: seq<Entry>) {
    forall e :: e in es && Find(other, e.deviceId).Some? ==> Find(other, e.deviceId).value.clockValue == e.clockValue
  }

  ghost predicate NeedUpdate(local: seq<Entry>, remote: seq<Entry>) {
    !(AllKnown(local, remote) && AllKnown(remote, local) && NoneDiffer(local, remote))
  }

  /** The comparison that decides whether a common resource is exchanged at all. */
  method VectorClocksNeedUpdate(local: seq<Entry>, remote: seq<Entry>) returns (need: bool)
    ensures need <==> NeedUpdate(local, remote)
  {
    hide Find;
    for i := 0 to |local|
      invariant AllKnown(local[..i], remote)
    {
      assert local[..i + 1] == local[..i] + [local[i]];
      if Find(remote, local[i].deviceId).None? {
        return true;
      }
    }
    assert local[..|local|] == local;
    for i := 0 to |remote|
      invariant AllKnown(remote[..i], local)
    {
      assert remote[..i + 1] == remote[..i] + [remote[i]];
      if Find(local, remote[i].deviceId).None? {
        return true;
      }
    }
    assert remote[..|remote|] == remote;
    for i := 0 to |local|
      invariant NoneDiffer(local[..i], remote)
    {
      assert local[..i + 1] == local[..i] + [local[i]];
      if Find(remote, local[i].deviceId).value.clockValue != local[i].clockValue {
        return true;
      }
    }
    return false;
  }

  /** With one row per device the comparison finds exactly the differing clocks. */
  lemma NeedUpdateIffClocksDiffer(local: seq<Entry>, remote: seq<Entry>)
    requires UniqueDevices(local) && UniqueDevices(remote)
    ensures NeedUpdate(local, remote) <==> ClocksOf(local) != ClocksOf(remote)
  {
    var l, m := RowsOf(local), RowsOf(remote);
    RowsOfUnique(local);
    RowsOfUnique(remote);
    hide RowsOf, UniqueDevices, Find;
    forall d ensures Find(local, d) == (if d in l then Some(Entry(l[d].id, d, l[d].value)) else None)
             ensures Find(remote, d) == (if d in m then Some(Entry(m[d].id, d, m[d].value)) else None) {
      FindIsRow(local, d);
      FindIsRow(remote, d);
    }
    if !NeedUpdate(local, remote) {
      forall d ensures d in l <==> d in m {
        if d in l { assert Entry(l[d].id, d, l[d].value) in local; }
        if d in m { assert Entry(m[d].id, d, m[d].value) in remote; }
      }
      assert Values(l).Keys == Values(m).Keys;
      forall d | d in l ensures l[d].value == m[d].value {
        assert Entry(l[d].id, d, l[d].value) in local;
      }
    }
    if Values(l) == Values(m) {
      forall d ensures d in l <==> d in m {
        assert d in Values(l) <==> d in Values(m);
      }
      forall e | e in local ensures e.deviceId in m && m[e.deviceId].value == e.clockValue {
        assert Values(l)[e.deviceId] == Values(m)[e.deviceId];
      }
      assert forall e :: e in remote ==> e.deviceId in l;
    }
  }

  /**
   Two rows for one device, which the table's constraint rules out, would make the comparison depend
   on who makes it.
   */
  lemma NeedUpdateAsymmetricWithDuplicates(r: RowId, q: RowId, d: DeviceId)
    ensures NeedUpdate([Entry(r, d, 1), Entry(q, d, 2)], [Entry(r, d, 1)])
    ensures !NeedUpdate([Entry(r, d, 1)], [Entry(r, d, 1), Entry(q, d, 2)])
  {
  }

  /** Merging raises a flag exactly when the comparison asks for an exchange. */
  lemma FlagsMatchNeedUpdate(r: MergeResult, local: seq<Entry>, remote: seq<Entry>)
    requires UniqueDevices(local) && UniqueDevices(remote)
    requires Analyses(r, RowsOf(local), RowsOf(remote))
    ensures r.localNeedsUpdate || r.remoteNeedsUpdate <==> NeedUpdate(local, remote)
  {
    var l, m := RowsOf(local), RowsOf(remote);
    NeedUpdateIffClocksDiffer(local, remote);
    EmptyIffNoRows(r.updateLocal);
    EmptyIffNoRows(r.addLocal);
    EmptyIffNoRows(r.updateRemote);
    EmptyIffNoRows(r.addRemote);
    ValuesOfParts(l, m);
    ValuesOfParts(m, l);
    NothingLacking(Values(l), Values(m));
    EmptyValues(BehindRows(l, m));
    EmptyValues(MissingRows(l, m));
    EmptyValues(BehindRows(m, l));
    EmptyValues(MissingRows(m, l));
  }

  lemma EmptyValues(rows: ClockRows)
    ensures rows == map[] <==> Values(rows) == map[]
  {
    if rows != map[] {
      var d :| d in rows;
      assert d in Values(rows);
    }
  }

  lemma NothingLacking(l: Clocks, m: Clocks)
    ensures l == m <==> Behind(l, m) == Missing(l, m) == Behind(m, l) == Missing(m, l) == map[]
  {
    if Behind(l, m) == Missing(l, m) == Behind(m, l) == Missing(m, l) == map[] {
      forall d ensures d in l <==> d in m {
        assert d !in Missing(l, m) && d !in Missing(m, l);
      }
      assert l.Keys == m.Keys;
      forall d | d in l ensures l[d] == m[d] {
        assert d !in Behind(l, m) && d !in Behind(m, l);
      }
    }
  }

  lemma EmptyIffNoRows(es: seq<Entry>)
    requires UniqueDevices(es)
    ensures es == [] <==> RowsOf(es) == map[]
  {
    RowsOfUnique(es);
    if es != [] {
      assert es[0] in es;
    }
  }

  /** A clock for every device of either side, the larger where both have one. */
  ghost predicate IsLarger(x: Clocks, l: Clocks, m: Clocks) {
    && (forall d :: d in x <==> d in l || d in m)
    && (forall d :: d in l && d in x ==> l[d] <= x[d])
    && (forall d :: d in m && d in x ==> m[d] <= x[d])
    && (forall d :: d in x ==> (d in l && x[d] == l[d]) || (d in m && x[d] == m[d]))
  }

  lemma MaxIsLarger(l: Clocks, m: Clocks)
    ensures IsLarger(Max(l, m), l, m)
  {
  }

  /** Applying what `Merge` returns leaves both sides at the pointwise maximum. */
  lemma MergeConverges(l: Clocks, m: Clocks)
    ensures ApplyRows(l, Behind(l, m), Missing(l, m)) == Some(Max(l, m))
    ensures ApplyRows(m, Behind(m, l), Missing(m, l)) == Some(Max(l, m))
  {
    AppliedIsMax(l, m);
    AppliedIsMax(m, l);
    assert Max(l, m) == Max(m, l);
  }

  lemma AppliedIsMax(l: Clocks, m: Clocks)
    ensures ApplyRows(l, Behind(l, m), Missing(l, m)) == Some(Max(l, m))
  {
    var r := ApplyRows(l, Behind(l, m), Missing(l, m)).value;
    assert r.Keys == Max(l, m).Keys;
    assert r == Max(l, m);
  }

  /** A second copy of the same answer is refused if it inserts rows and changes nothing if it does not. */
  lemma RepeatedAnswer(l: Clocks, m: Clocks)
    ensures ApplyRows(Max(l, m), Behind(l, m), Missing(l, m)) ==
      if Missing(l, m) == map[] then Some(Max(l, m)) else None
  {
    var x := Max(l, m);
    if Missing(l, m) == map[] {
      var r := ApplyRows(x, Behind(l, m), Missing(l, m)).value;
      assert r.Keys == x.Keys;
      assert r == x;
    } else {
      var d :| d in Missing(l, m);
      assert d in x;
    }
  }

  lemma OverwriteNext(rows: ClockRows, u: ClockRows, d: DeviceId, v: ClockRow)
    ensures OverwrittenRows(rows, u[d := v]) ==
      if d in rows then OverwrittenRows(rows, u)[d := rows[d].(value := v.value)] else OverwrittenRows(rows, u)
    ensures d in rows ==> OverwrittenRows(rows, u)[d].id == rows[d].id
  {
  }

  method UpdateRows(rows: ClockRows, update: seq<Entry>) returns (after: ClockRows)
    requires UniqueDevices(update)
    ensures after == OverwrittenRows(rows, RowsOf(update))
  {
    after := rows;
    for i := 0 to |update|
      invariant after == OverwrittenRows(rows, RowsOf(update[..i]))
    {
      NextRow(update, i);
      OverwriteNext(rows, RowsOf(update[..i]), update[i].deviceId, ClockRow(update[i].id, update[i].clockValue));
      if update[i].deviceId in after {
        after := after[update[i].deviceId := after[update[i].deviceId].(value := Stored(update[i].clockValue))];
      }
    }
    assert update[..|update|] == update;
  }

  lemma InsertNext(rows: ClockRows, c: ClockRows, d: DeviceId, v: ClockRow)
    ensures rows + c[d := v] == (rows + c)[d := v]
    ensures d !in c ==> (d in rows + c <==> d in rows)
  {
  }

  /** Plain inserts: a second row for a device violates the table's constraint. */
  method InsertRows(rows: ClockRows, add: seq<Entry>) returns (ok: bool, after: ClockRows)
    requires UniqueDevices(add)
    ensures ok <==> RowsOf(add).Keys !! rows.Keys
    ensures ok ==> after == rows + RowsOf(add)
  {
    hide RowsOf, UniqueDevices;
    NoRows();
    assert add[..0] == [];
    after := rows;
    for i := 0 to |add|
      invariant RowsOf(add[..i]).Keys !! rows.Keys
      invariant after == rows + RowsOf(add[..i])
    {
      NextRow(add, i);
      RowsOfUnique(add);
      assert add[i] in add;
      InsertNext(rows, RowsOf(add[..i]), add[i].deviceId, ClockRow(add[i].id, add[i].clockValue));
      if add[i].deviceId in after {
        return false, rows;
      }
      after := after[add[i].deviceId := ClockRow(add[i].id, Stored(add[i].clockValue))];
    }
    assert add[..|add|] == add;
    ok := true;
  }

  /** `increment_vector_clock`: the row goes up by one, or is created with value one. */
  function Incremented(rows: ClockRows, d: DeviceId, uuid: RowId): ClockRows
    requires d in rows ==> rows[d].value < 0x7FFF_FFFF
  {
    rows[d := if d in rows then rows[d].(value := rows[d].value + 1) else ClockRow(uuid, 1)]
  }

  ghost predicate Distinct(ds: seq<DeviceId>) {
    forall i, j :: 0 <= i < j < |ds| ==> ds[i] != ds[j]
  }

  /** The rows of a new resource: one for the device that creates it, zero for the user's others. */
  function InitialClocks(ds: seq<DeviceId>, source: DeviceId): Clocks {
    map d | d in ds :: if d == source then 1 else 0
  }

  /** `ids` are the uuids drawn for the rows. */
  method CreateInitialEntries(deviceIds: seq<DeviceId>, source: DeviceId, ids: seq<RowId>) returns (es: seq<Entry>)
    requires |ids| == |deviceIds|
    ensures |es| == |deviceIds| && forall i :: 0 <= i < |es| ==>
      es[i] == Entry(ids[i], deviceIds[i], if deviceIds[i] == source then 1 else 0)
    ensures ClocksOf(es) == InitialClocks(deviceIds, source)
    ensures Distinct(deviceIds) ==> UniqueDevices(es)
  {
    es := [];
    for i := 0 to |deviceIds|
      invariant |es| == i && forall j :: 0 <= j < i ==>
        es[j] == Entry(ids[j], deviceIds[j], if deviceIds[j] == source then 1 else 0)
      invariant ClocksOf(es) == InitialClocks(deviceIds[..i], source)
    {
      var entry := Entry(ids[i], deviceIds[i], if deviceIds[i] == source then 1 else 0);
      hide ClocksOf, InitialClocks;
      ClocksOfSnoc(es, entry);
      InitialNext(deviceIds, i, source);
      es := es + [entry];
    }
    assert deviceIds[..|deviceIds|] == deviceIds;
  }

  lemma InitialNext(ds: seq<DeviceId>, i: nat, source: DeviceId)
    requires i < |ds|
    ensures InitialClocks(ds[..i + 1], source) == InitialClocks(ds[..i], source)[ds[i] := if ds[i] == source then 1 else 0]
  {
  }

  lemma NoRows()
    ensures UniqueDevices([]) && RowsOf([]) == map[]
  {
  }

  /** The rows in some order. */
  method EntriesOf(rows: ClockRows) returns (es: seq<Entry>)
    ensures UniqueDevices(es) && RowsOf(es) == rows
  {
    hide RowsOf, UniqueDevices;
    es := [];
    NoRows();
    var left := rows.Keys;
    while left != {}
      invariant left <= rows.Keys
      invariant UniqueDevices(es) && RowsOf(es) == map d | d in rows && d !in left :: rows[d]
      decreases left
    {
      var d :| d in left;
      Pushed(es, Entry(rows[d].id, d, rows[d].value));
      es := es + [Entry(rows[d].id, d, rows[d].value)];
      left := left - {d};
    }
  }

  lemma NothingLacked(l: ClockRows, m: ClockRows)
    requires BehindRows(l, m) == map[] && MissingRows(l, m) == map[]
    ensures MergedRows(l, m) == l
  {
    forall d | d in m ensures d in l && m[d].value <= l[d].value {
      assert d !in MissingRows(l, m) && d !in BehindRows(l, m);
    }
  }

  /** The clock rows of one resource; the database's uniqueness constraint makes them a map. */
  class ClockTable {
    var rows: ClockRows

    constructor (rows: ClockRows)
      ensures this.rows == rows
    {
      this.rows := rows;
    }

    /** Inserts a row for a device that has none; an existing row stays. */
    method SaveVectorClock(e: Entry)
      modifies this`rows
      ensures rows == if e.deviceId in old(rows) then old(rows) else old(rows)[e.deviceId := ClockRow(e.id, e.clockValue)]
    {
      if e.deviceId !in rows {
        rows := rows[e.deviceId := ClockRow(e.id, Stored(e.clockValue))];
      }
    }

    method IncrementVectorClock(d: DeviceId, uuid: RowId)
      requires d in rows ==> rows[d].value < 0x7FFF_FFFF
      modifies this`rows
      ensures rows == Incremented(old(rows), d, uuid)
    {
      if d in rows {
        rows := rows[d := rows[d].(value := Stored(rows[d].value + 1))];
      } else {
        rows := rows[d := ClockRow(uuid, 1)];
      }
    }

    /** A transaction: all updates and inserts happen, or none. */
    method UpdateVectorClocks(update: seq<Entry>, add: seq<Entry>) returns (ok: bool)
      requires UniqueDevices(update) && UniqueDevices(add)
      modifies this`rows
      ensures ok <==> AppliedRows(old(rows), RowsOf(update), RowsOf(add)).Some?
      ensures ok ==> rows == AppliedRows(old(rows), RowsOf(update), RowsOf(add)).value
      ensures !ok ==> rows == old(rows)
    {
      var after := UpdateRows(rows, update);
      assert after.Keys == rows.Keys;
      ok, after := InsertRows(after, add);
      if ok {
        rows := after;
      }
    }

    /** The merge of `FinalUpdateMerge`: local rows rise to the maximum, the answer lists what the remote lacks. */
    method MergeVectorClocks(remote: seq<Entry>) returns (addRemote: seq<Entry>, updateRemote: seq<Entry>)
      requires UniqueDevices(remote)
      modifies this`rows
      ensures rows == MergedRows(old(rows), RowsOf(remote))
      ensures Values(rows) == Max(Values(old(rows)), ClocksOf(remote))
      ensures IsLarger(Values(rows), Values(old(rows)), ClocksOf(remote))
      ensures UniqueDevices(addRemote) && RowsOf(addRemote) == MissingRows(RowsOf(remote), old(rows))
      ensures UniqueDevices(updateRemote) && RowsOf(updateRemote) == BehindRows(RowsOf(remote), old(rows))
    {
      hide IsLarger, Max, Missing, Behind, MissingRows, BehindRows, MergedRows, AppliedRows, RowsOf, UniqueDevices, Values;
      var local := EntriesOf(rows);
      var r := Merge(local, remote);
      ghost var before, theirs := rows, RowsOf(remote);
      AppliedIsMerged(before, theirs);
      ValuesOfParts(before, theirs);
      MaxIsLarger(Values(before), Values(theirs));
      if r.localNeedsUpdate {
        var ok := UpdateVectorClocks(r.updateLocal, r.addLocal);
      } else {
        EmptyIffNoRows(r.updateLocal);
        EmptyIffNoRows(r.addLocal);
        NothingLacked(before, theirs);
      }
      return r.addRemote, r.updateRemote;
    }
  }
}
