/** Starts from which every user sync ends without reconciling a resource, whatever the order of deliveries. */
module SyncFailures {
  import opened Wrappers
  import opened Crdt
  import opened ResourceDocs
  import opened Exchange
  import opened Manifest
  import opened VectorClock
  import opened Peer
  import opened SyncRows
  import opened SyncRun
  import opened SyncSafety
  import opened SyncConvergence
  import opened SyncTermination

  // Any two well-formed peers can start a sync: a manifest payload exists for each

  lemma {:induction false} Elements<T>(s: set<T>) returns (q: seq<T>)
    ensures ElementsOf(q) == s
    decreases s
  {
    if s == {} {
      q := [];
    } else {
      var x :| x in s;
      var rest := Elements(s - {x});
      q := rest + [x];
      assert s == ElementsOf(rest) + {x};
    }
  }

  lemma {:induction false} ListUsers(m: map<UserId, set<DeviceId>>) returns (us: seq<UserWithDeviceIds>)
    ensures UserMap(us) == m
    decreases m.Keys
  {
    if m.Keys == {} {
      us := [];
    } else {
      var u :| u in m;
      var rest := ListUsers(m - {u});
      var devices := Elements(m[u]);
      us := rest + [UserWithDeviceIds(u, devices)];
      assert us[..|rest|] == rest;
    }
  }

  lemma {:induction false} ListFolders(m: map<FolderId, set<UserId>>) returns (fs: seq<FolderManifestData>)
    ensures FolderMap(fs) == m
    decreases m.Keys
  {
    if m.Keys == {} {
      fs := [];
    } else {
      var f :| f in m;
      var rest := ListFolders(m - {f});
      var users := Elements(m[f]);
      fs := rest + [FolderManifestData(f, users)];
      assert fs[..|rest|] == rest;
    }
  }

  lemma {:induction false} ListClocks(rows: ClockRows) returns (es: seq<Entry>)
    ensures UniqueDevices(es) && RowsOf(es) == rows
    decreases rows.Keys
  {
    if rows.Keys == {} {
      es := [];
    } else {
      var d :| d in rows;
      var rest := ListClocks(rows - {d});
      Pushed(rest, Entry(rows[d].id, d, rows[d].value));
      es := rest + [Entry(rows[d].id, d, rows[d].value)];
    }
  }

  function RowViews(store: map<ResourceId, Row>): map<ResourceId, ResourceView> {
    map r | r in store :: ResourceView(store[r].shares, Values(store[r].clocks))
  }

  lemma RowViewsNext(store: map<ResourceId, Row>, r: ResourceId)
    requires r in store
    ensures RowViews(store) == RowViews(store - {r})[r := ResourceView(store[r].shares, Values(store[r].clocks))]
  {
    hide Values;
  }

  lemma {:induction false} ListResources(store: map<ResourceId, Row>) returns (rs: seq<ResourceManifestData>)
    ensures ClocksUnique(rs)
    ensures ResourceViews(rs) == RowViews(store)
    decreases store.Keys
  {
    if store.Keys == {} {
      rs := [];
      NothingListed();
      assert RowViews(store) == map[];
    } else {
      var r :| r in store;
      var rest := ListResources(store - {r});
      var shares := Elements(store[r].shares);
      var clocks := ListClocks(store[r].clocks);
      hide ResourceViews, RowViews, Values, UniqueDevices, RowsOf;
      RowViewsNext(store, r);
      rs := rest + [ResourceManifestData(r, shares, clocks)];
      NextResource(rest, ResourceManifestData(r, shares, clocks));
    }
  }

  lemma ListManifest(p: Peer) returns (lists: RequestPayload)
    ensures ViewOf(lists) == LocalView(p)
  {
    var shared := map r | r in p.sharedWithPeer && r in p.store :: p.store[r];
    var us := ListUsers(p.knownUsers);
    var rs := ListResources(shared);
    var fs := ListFolders(LocalView(p).folders);
    lists := PayloadLists(us, rs, fs);
  }

  ghost predicate DrainedRunOf(i: Peer, r: Peer, o: System, ds: seq<Delivery>) {
    Start(o) && o.initiator == i && o.responder == r && Feasible(o, ds) && Drained(Run(o, ds))
  }

  /** Two well-formed peers with coherent documents have a drained run. */
  lemma DrainedRunExists(i: Peer, r: Peer)
    requires WellFormed(i) && WellFormed(r) && i.isInitiator && !r.isInitiator
    requires forall id :: id in i.store && id in r.store ==> OneHistory(i.store[id], r.store[id])
    ensures exists o, ds :: DrainedRunOf(i, r, o, ds)
  {
    hide OneHistory, Run, Drained;
    var lists := ListManifest(i);
    var o := System(i, r, multiset{}, multiset{ManifestRequest(lists)}, false, false, false);
    assert Start(o) && Feasible(o, []);
    EveryRunCanFinish(o, []);
    var ds :| Feasible(o, [] + ds) && Drained(Run(o, [] + ds));
    assert DrainedRunOf(i, r, o, [] + ds);
  }

  function PeerWith(isInitiator: bool, peerUser: UserId, peerDevice: DeviceId, shared: set<ResourceId>,
                    store: map<ResourceId, Row>): Peer
  {
    Peer(isInitiator, peerUser, peerDevice, map[], shared, store, {"home"}, {"home"}, map[], Some("home"), None,
         if isInitiator then 0 else 1)
  }

  function Plain(value: ClockValue, keys: Keys): Row {
    Row(Chat, map[], "home", "home", map["device" := ClockRow(Named("row"), value)], {}, keys)
  }

  lemma PlanSets(o: System)
    ensures var g, l, r := SettingOf(o), LocalView(o.initiator).resources, LocalView(o.responder).resources;
      && g.start == o
      && g.Sends(Initiator) == g.Needs(Responder) == l.Keys - r.Keys && g.Sends(Responder) == r.Keys - l.Keys
      && forall id :: id in l && id in r && l[id] != r[id] ==> id in g.Syncs()
  {
    hide LocalView;
  }

  // The initiator has nothing new to send, the responder has

  const AHEAD_LEFT: Peer := PeerWith(true, "bob", "laptop", {"plan"}, map["plan" := Plain(1, map[])])
  const AHEAD_RIGHT: Peer := PeerWith(false, "ann", "phone", {"plan", "new"}, map["plan" := Plain(2, map[]), "new" := Plain(0, map[])])

  /** No exchange starts, so the differing resource is left alone by every run. */
  lemma ExchangesMayNeverStart()
    ensures exists o, ds :: DrainedRunOf(AHEAD_LEFT, AHEAD_RIGHT, o, ds)
    ensures forall o, ds :: DrainedRunOf(AHEAD_LEFT, AHEAD_RIGHT, o, ds) ==>
      var g, s := SettingOf(o), Run(o, ds);
      "plan" in g.Syncs() && RowsInSync(g, s) && !RowReconciled(g, s, "plan") && RowUntouched(g, s, "plan")
  {
    DrainedRunExists(AHEAD_LEFT, AHEAD_RIGHT);
    forall o, ds | DrainedRunOf(AHEAD_LEFT, AHEAD_RIGHT, o, ds)
      ensures var g, s := SettingOf(o), Run(o, ds);
        "plan" in g.Syncs() && RowsInSync(g, s) && !RowReconciled(g, s, "plan") && RowUntouched(g, s, "plan")
    {
      AheadSetting(o);
      hide RowsInSync, RowReconciled, RowUntouched, Run, Drained, Start, WillTake, KeysAgreeOn, Placeable, PeerWith, SettingOf;
      DrainedRunReconcilesIff(o, ds);
    }
  }

  lemma AheadSetting(o: System)
    requires Start(o) && o.initiator == AHEAD_LEFT && o.responder == AHEAD_RIGHT
    ensures var g := SettingOf(o); "plan" in g.Syncs() && !WillTake(g) && Placeable(g, Responder)
  {
    hide Start, SettingOf, Setting.Syncs, Setting.Sends, Setting.Needs, Clashing;
    PlanSets(o);
    var l, r := LocalView(o.initiator).resources, LocalView(o.responder).resources;
    assert l["plan"].clocks["device"] == 1 && r["plan"].clocks["device"] == 2;
    assert l.Keys == {"plan"} && r.Keys == {"plan", "new"};
    assert "new" in r.Keys - l.Keys && l.Keys - r.Keys == {};
  }

  // Both sides have shared the resource with bob, each with a key of its own, and both have edited it

  function Edited(client: Client, text: Op, device: DeviceId, keys: Keys): Row {
    Row(Chat, map["chat" := map[client := [text]]], "home", "home",
        map["laptop" := ClockRow(Named("row 1"), if device == "laptop" then 1 else 0),
            "phone" := ClockRow(Named("row 2"), if device == "phone" then 1 else 0)], {}, keys)
  }

  const SHARER_LEFT: Peer := PeerWith(true, "cat", "phone", {"plan"},
    map["plan" := Edited(1, "hello", "laptop", map["bob" := "key drawn by ann"])])
  const SHARER_RIGHT: Peer := PeerWith(false, "ann", "laptop", {"plan"},
    map["plan" := Edited(2, "hi", "phone", map["bob" := "key drawn by cat"])])

  /** Every run writes the joined documents on both sides and merges neither clocks nor share records nor keys. */
  lemma SharedTwiceNeverReconciles()
    ensures exists o, ds :: DrainedRunOf(SHARER_LEFT, SHARER_RIGHT, o, ds)
    ensures forall o, ds :: DrainedRunOf(SHARER_LEFT, SHARER_RIGHT, o, ds) ==>
      var g, s := SettingOf(o), Run(o, ds);
      && "plan" in g.Syncs() && RowsInSync(g, s) && !RowReconciled(g, s, "plan") && RowBooksKept(g, s, "plan")
      && s.initiator.store["plan"].docs == s.responder.store["plan"].docs == map["chat" := map[1 := ["hello"], 2 := ["hi"]]]
  {
    DrainedRunExists(SHARER_LEFT, SHARER_RIGHT);
    forall o, ds | DrainedRunOf(SHARER_LEFT, SHARER_RIGHT, o, ds)
      ensures var g, s := SettingOf(o), Run(o, ds);
        && "plan" in g.Syncs() && RowsInSync(g, s) && !RowReconciled(g, s, "plan") && RowBooksKept(g, s, "plan")
        && s.initiator.store["plan"].docs == s.responder.store["plan"].docs == map["chat" := map[1 := ["hello"], 2 := ["hi"]]]
    {
      SharersSetting(o);
      hide RowsInSync, RowReconciled, RowDocsReconciled, RowBooksKept, Run, Drained, Start, WillTake, KeysAgreeOn, Placeable;
      hide PeerWith, SettingOf;
      DrainedRunReconcilesIff(o, ds);
      SharersJoined(SettingOf(o), Run(o, ds));
    }
  }

  lemma SharersSetting(o: System)
    requires Start(o) && o.initiator == SHARER_LEFT && o.responder == SHARER_RIGHT
    ensures var g := SettingOf(o); g.start == o && "plan" in g.Syncs() && WillTake(g) && Placeable(g, Responder) && !KeysAgreeOn(g, "plan")
  {
    hide Start, SettingOf, Setting.Syncs, Setting.Sends, Setting.Needs, Clashing;
    PlanSets(o);
    var l, r := LocalView(o.initiator).resources, LocalView(o.responder).resources;
    assert l["plan"].clocks["laptop"] == 1 && r["plan"].clocks["laptop"] == 0;
    assert l.Keys == {"plan"} && r.Keys == {"plan"};
    assert r.Keys - l.Keys == {};
    assert "bob" in o.initiator.store["plan"].keys && "bob" in o.responder.store["plan"].keys;
  }

  lemma SharersJoined(g: Setting, s: System)
    requires g.start.initiator == SHARER_LEFT && g.start.responder == SHARER_RIGHT
    requires RowsInSync(g, s) && "plan" in g.Syncs() && RowDocsReconciled(g, s, "plan")
    ensures s.initiator.store["plan"].docs == s.responder.store["plan"].docs == map["chat" := map[1 := ["hello"], 2 := ["hi"]]]
  {
    hide RowsOk, DocsReconciled, Setting.Syncs;
    RowsJoined(SHARER_LEFT.store["plan"], SHARER_RIGHT.store["plan"], s.initiator.store["plan"], s.responder.store["plan"]);
  }

  lemma RowsJoined(a: Row, b: Row, x: Row, y: Row)
    requires a.kind == Chat && a.docs == map["chat" := map[1 := ["hello"]]] && b.docs == map["chat" := map[2 := ["hi"]]]
    requires DocsReconciled(a, b, x, y)
    ensures x.docs == y.docs == map["chat" := map[1 := ["hello"], 2 := ["hi"]]]
  {
    hide Join;
    assert Synchronised(a.kind, "chat", a.docs, b.docs);
    TextsJoined();
  }

  lemma TextsJoined()
    ensures Join(map[1 := ["hello"]], map[2 := ["hi"]]) == map[1 := ["hello"], 2 := ["hi"]]
  {
  }

  // The initiator's addition brings bob a key for a resource he already has from someone else

  const ADDER_LEFT: Peer := PeerWith(true, "bob", "laptop", {"plan", "gift"},
    map["plan" := Plain(1, map[]), "gift" := Plain(0, map["bob" := "key drawn by dave"])])
  const ADDER_RIGHT: Peer := PeerWith(false, "dave", "phone", {"plan", "new"},
    map["plan" := Plain(2, map[]), "gift" := Plain(0, map["bob" := "key drawn by ann"]), "new" := Plain(0, map[])])

  lemma AdderLists(o: System)
    requires Start(o) && o.initiator == ADDER_LEFT && o.responder == ADDER_RIGHT
    ensures var g := SettingOf(o);
      g.start == o && "plan" in g.Syncs() && g.Sends(Initiator) == g.Needs(Responder) == {"gift"} && g.Sends(Responder) == {"new"}
  {
    hide Start, SettingOf, Setting.Syncs, Setting.Sends, Setting.Needs;
    PlanSets(o);
    var l, r := LocalView(o.initiator).resources, LocalView(o.responder).resources;
    assert l["plan"].clocks["device"] == 1 && r["plan"].clocks["device"] == 2;
    assert l.Keys == {"plan", "gift"} && r.Keys == {"plan", "new"};
    hide LocalView;
    assert l.Keys - r.Keys == {"gift"} && r.Keys - l.Keys == {"new"};
  }

  lemma AdderClashes(g: Setting)
    requires g.start.initiator == ADDER_LEFT && g.start.responder == ADDER_RIGHT && g.Needs(Responder) == {"gift"}
    ensures Clashing(g, Responder) == {"gift"}
  {
    hide Setting.Needs, IdsClash;
    var held, sent := ADDER_RIGHT.store["gift"], Outgoing(ADDER_LEFT, "gift");
    assert "bob" in held.keys && "bob" in sent.keys && held.keys["bob"] != sent.keys["bob"];
    assert "gift" in Incoming(g, Responder) && Incoming(g, Responder)["gift"] == sent;
  }

  /** The plan is left alone although both sides had something to send, and bob waits for a resource he has. */
  ghost predicate Blocked(g: Setting, s: System) {
    && g.Sends(Initiator) != {} && "plan" in g.Syncs() && RowsInSync(g, s)
    && RowUntouched(g, s, "plan") && !RowReconciled(g, s, "plan")
    && StillMissing(s.responder) == {"gift"}
    && "gift" in g.start.responder.store && "gift" in s.responder.store
    && s.responder.store["gift"] == g.start.responder.store["gift"]
  }

  lemma AdderBlocked(o: System, ds: seq<Delivery>)
    requires DrainedRunOf(ADDER_LEFT, ADDER_RIGHT, o, ds)
    ensures Blocked(SettingOf(o), Run(o, ds))
  {
    AdderLists(o);
    AdderClashes(SettingOf(o));
    hide RowsInSync, RowReconciled, RowUntouched, RowDocsReconciled, RowBooksKept, Run, Drained, Start, KeysAgreeOn;
    assert Placeable(SettingOf(o), Responder);
    hide Placeable, PeerWith, SettingOf, StillMissing, Clashing, AllListed, Incoming, Placed, Inserted;
    DrainedRunReconcilesIff(o, ds);
    DrainedRunStoresEverything(o, ds, Responder);
    RowsOutsideTheSync(o, ds, Responder, "gift") by {
      assert Start(o);
    }
  }

  /**
   Every run refuses the addition, so bob never reports that he has everything: his row stays as it
   was, the resource stays on his list and no exchange starts.
   */
  lemma ClashingAdditionBlocksExchanges()
    ensures exists o, ds :: DrainedRunOf(ADDER_LEFT, ADDER_RIGHT, o, ds)
    ensures forall o, ds :: DrainedRunOf(ADDER_LEFT, ADDER_RIGHT, o, ds) ==> Blocked(SettingOf(o), Run(o, ds))
  {
    DrainedRunExists(ADDER_LEFT, ADDER_RIGHT);
    hide DrainedRunOf, Blocked;
    forall o, ds | DrainedRunOf(ADDER_LEFT, ADDER_RIGHT, o, ds) ensures Blocked(SettingOf(o), Run(o, ds)) {
      AdderBlocked(o, ds);
    }
  }
}
