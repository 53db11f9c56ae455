/** Safety of user-sync runs: what every delivery keeps, and that no handler fails for want of a manifest or a row. */
module SyncSafety {
  import opened Wrappers
  import opened ResourceDocs
  import opened Exchange
  import opened Manifest
  import opened VectorClock
  import opened Peer
  import opened SyncRows
  import opened SyncRun

  // Messages in flight stay right while the rows in sync move

  ghost predicate RowsMove(g: Setting, s: System, s': System)
    requires RowsInSync(g, s)
  {
    forall id :: id in g.Syncs() ==>
      && id in s'.initiator.store && id in s'.responder.store
      && Moves(g.start.initiator.store[id], g.start.responder.store[id],
               s.initiator.store[id], s.responder.store[id], s'.initiator.store[id], s'.responder.store[id])
  }

  lemma FitsStays(g: Setting, s: System, s': System, side: Side, m: Message)
    requires RowsInSync(g, s) && RowsMove(g, s, s') && Fits(g, s, side, m)
    ensures Fits(g, s', side, m)
  {
    if IsExchange(m) {
      ExchangeStaysOk(g.start.initiator.store[m.id], g.start.responder.store[m.id],
                      s.initiator.store[m.id], s.responder.store[m.id],
                      s'.initiator.store[m.id], s'.responder.store[m.id], m);
    }
  }

  lemma BagFits(g: Setting, s: System, s': System, side: Side, gone: multiset<Message>, more: multiset<Message>)
    requires RowsInSync(g, s) && RowsMove(g, s, s') && AllFit(g, s, side)
    requires s'.To(side) == s.To(side) - gone + more
    requires forall x :: x in more ==> Fits(g, s', side, x)
    ensures AllFit(g, s', side)
  {
    forall x | x in s'.To(side) ensures Fits(g, s', side, x) {
      if x !in more {
        assert x in s.To(side);
        FitsStays(g, s, s', side, x);
      }
    }
  }

  /** Enough to check after a delivery: the receiving side, the rows in sync and what was sent. */
  lemma SafeAfter(g: Setting, s: System, side: Side, m: Message)
    requires Safe(g, s) && m in s.To(side)
    requires SideOk(g, side, Handle(s.At(side), m).peer)
    requires RowsInSync(g, Deliver(s, side, m)) && RowsMove(g, s, Deliver(s, side, m))
    requires forall x :: x in Handle(s.At(side), m).sends ==> Fits(g, Deliver(s, side, m), Other(side), x)
    ensures Safe(g, Deliver(s, side, m))
  {
    hide Handle, SideOk, Fits, Moves;
    var s' := Deliver(s, side, m);
    BagFits(g, s, s', side, multiset{m}, multiset{});
    BagFits(g, s, s', Other(side), multiset{}, Handle(s.At(side), m).sends);
  }

  lemma RowsUntouched(g: Setting, s: System, s': System)
    requires RowsInSync(g, s)
    requires forall id :: id in g.Syncs() ==>
      && id in s.initiator.store && id in s'.initiator.store && s'.initiator.store[id] == s.initiator.store[id]
      && id in s.responder.store && id in s'.responder.store && s'.responder.store[id] == s.responder.store[id]
    ensures RowsInSync(g, s') && RowsMove(g, s, s')
  {
  }

  /** The store kept every row in sync. */
  ghost predicate KeepsSyncRows(g: Setting, before: map<ResourceId, Row>, after: map<ResourceId, Row>) {
    forall id :: id in g.Syncs() && id in before ==> id in after && after[id] == before[id]
  }

  /** Messages outside the exchanges, each fit for the side it goes to. */
  ghost predicate PlainSends(g: Setting, side: Side, sends: multiset<Message>) {
    forall x :: x in sends ==> !IsExchange(x) && PlainFits(g, side, x)
  }

  /** The same for a delivery outside the exchanges. */
  lemma SafeAfterOther(g: Setting, s: System, side: Side, m: Message)
    requires Safe(g, s) && m in s.To(side)
    requires SideOk(g, side, Handle(s.At(side), m).peer)
    requires KeepsSyncRows(g, s.At(side).store, Handle(s.At(side), m).peer.store)
    requires PlainSends(g, Other(side), Handle(s.At(side), m).sends)
    ensures Safe(g, Deliver(s, side, m))
  {
    RowsUntouched(g, s, Deliver(s, side, m));
    SafeAfter(g, s, side, m);
  }

  lemma InFlight(g: Setting, s: System, side: Side, m: Message)
    requires Safe(g, s) && m in s.To(side)
    ensures SideOk(g, side, s.At(side)) && Fits(g, s, side, m)
  {
  }

  // Folders and recipients

  lemma FolderRecordsSent(g: Setting, side: Side, p: Peer)
    requires Settled(g) && FoldersOk(g, side, p)
    ensures FolderRecordsFit(g, Other(side), FolderRecords(p, g.Plan(side).remoteMissing.unknownFolders))
  {
    var ids := g.Plan(side).remoteMissing.unknownFolders;
    assert FolderRecords(p, ids).Keys == ids * p.live;
    assert ids * p.live == Arriving(g, Other(side));
  }

  lemma RecipientsSent(g: Setting, side: Side, p: Peer)
    requires Settled(g) && FoldersOk(g, side, p)
    ensures RecipientUpdatesFit(g, Other(side), MissingRecipients(p, g.Plan(side).foldersRequiringRecipientSync))
  {
  }

  lemma FoldersAfterRecords(g: Setting, side: Side, p: Peer, m: Message)
    requires FoldersOk(g, side, p) && m.UnknownFolders? && FolderRecordsFit(g, side, m.records)
    ensures FoldersOk(g, side, HandleFolders(p, m).peer)
  {
    FoldersTaken(p, m);
    RecordsAdded(g, side, p, m.records);
    LiveAdded(g.Begin(side).live, g.Begin(side).folders, p.folders, m.records.Keys);
    hide HandleFolders, AddRecipients, Arriving, AllRecipients;
  }

  lemma FoldersTaken(p: Peer, m: Message)
    requires m.UnknownFolders?
    ensures var p' := HandleFolders(p, m).peer;
      && p'.folders == p.folders + m.records.Keys && p'.live == p.live + (m.records.Keys - p.folders)
      && p'.recipients == AddRecipients(p.recipients, m.records)
  {
    hide AddRecipients, FolderRecords, MissingRecipients;
  }

  lemma LiveAdded(live: set<FolderId>, begin: set<FolderId>, now: set<FolderId>, more: set<FolderId>)
    requires begin <= now
    ensures live + (now - begin) + (more - now) == live + (now + more - begin)
  {
  }

  lemma FoldersAfterRecipients(g: Setting, side: Side, p: Peer, us: map<FolderId, set<UserId>>)
    requires FoldersOk(g, side, p) && RecipientUpdatesFit(g, side, us)
    ensures FoldersOk(g, side, p.(recipients := AddRecipients(p.recipients, us)))
  {
    RecordsAdded(g, side, p, us);
  }

  lemma RecordsAdded(g: Setting, side: Side, p: Peer, more: map<FolderId, set<UserId>>)
    requires forall f :: RecipientsOf(g.Begin(side).recipients, f) <= RecipientsOf(p.recipients, f) <= AllRecipients(g, f)
    requires forall f :: RecipientsOf(more, f) <= AllRecipients(g, f)
    ensures forall f :: RecipientsOf(AddRecipients(p.recipients, more), f) == RecipientsOf(p.recipients, f) + RecipientsOf(more, f)
    ensures forall f :: RecipientsOf(g.Begin(side).recipients, f) <= RecipientsOf(AddRecipients(p.recipients, more), f) <= AllRecipients(g, f)
  {
    forall f
      ensures RecipientsOf(AddRecipients(p.recipients, more), f) == RecipientsOf(p.recipients, f) + RecipientsOf(more, f)
      ensures RecipientsOf(g.Begin(side).recipients, f) <= RecipientsOf(AddRecipients(p.recipients, more), f) <= AllRecipients(g, f)
    {
      assert RecipientsOf(g.Begin(side).recipients, f) <= RecipientsOf(p.recipients, f) <= AllRecipients(g, f);
    }
  }

  // Stores

  lemma StoreAfterSending(before: map<ResourceId, Row>, now: map<ResourceId, Row>,
                          incoming: map<ResourceId, Row>, outgoing: map<ResourceId, Row>,
                          needs: set<ResourceId>, sends: set<ResourceId>, syncs: set<ResourceId>,
                          missing: set<ResourceId>, at: Places, after: map<ResourceId, Row>)
    requires StoreFits(before, now, incoming, outgoing, needs, sends, syncs, missing, at)
    requires sends <= before.Keys && sends !! needs && sends <= outgoing.Keys && after.Keys == now.Keys
    requires forall r :: r in now ==> after[r] == if r in sends then outgoing[r] else now[r]
    ensures StoreFits(before, after, incoming, outgoing, needs, sends, syncs, missing, at)
  {
  }

  /** An addition clashes with what is stored now exactly if it clashed with what was stored at the start. */
  lemma AdditionVerdict(before: map<ResourceId, Row>, now: map<ResourceId, Row>,
                        incoming: map<ResourceId, Row>, outgoing: map<ResourceId, Row>,
                        needs: set<ResourceId>, sends: set<ResourceId>, syncs: set<ResourceId>,
                        missing: set<ResourceId>, at: Places, id: ResourceId, place: FolderId)
    requires StoreFits(before, now, incoming, outgoing, needs, sends, syncs, missing, at)
    requires id in incoming && id in needs
    ensures AddRow(now, id, incoming[id].(folder := place)).None? <==> id in before && Clash(before[id], incoming[id])
  {
    if id in now {
      var row := incoming[id];
      assert Clash(now[id], row.(folder := place)) <==> Clash(now[id], row);
      assert !Clash(row.(folder := now[id].folder), row);
      if id in before && !Clash(before[id], row) {
        InsertedFits(before[id], row);
      }
    }
  }

  lemma InsertedFits(known: Row, row: Row)
    requires !Clash(known, row)
    ensures !Clash(Inserted(known, row), row)
  {
  }

  lemma StoreAfterAdding(before: map<ResourceId, Row>, now: map<ResourceId, Row>,
                         incoming: map<ResourceId, Row>, outgoing: map<ResourceId, Row>,
                         needs: set<ResourceId>, sends: set<ResourceId>, syncs: set<ResourceId>,
                         missing: set<ResourceId>, at: Places, id: ResourceId, place: FolderId)
    requires StoreFits(before, now, incoming, outgoing, needs, sends, syncs, missing, at)
    requires id in incoming && id in needs && id !in sends && id !in syncs && Placed(incoming[id], place, at)
    requires AddRow(now, id, incoming[id].(folder := place)).Some?
    ensures StoreFits(before, AddRow(now, id, incoming[id].(folder := place)).value, incoming, outgoing, needs, sends, syncs,
                      missing - {id}, at)
  {
    hide Clash, Inserted, Placed, AddRow;
    AdditionVerdict(before, now, incoming, outgoing, needs, sends, syncs, missing, at, id, place);
    AddedRow(now, id, incoming[id].(folder := place));
    if id in now && id !in before {
      AddedToCopy(incoming[id], now[id], place);
      assert now[id := now[id]] == now;
    } else if id in before {
      AddedAgain(before[id], incoming[id], now[id], place);
    }
  }

  lemma AddedRow(store: map<ResourceId, Row>, id: ResourceId, row: Row)
    requires AddRow(store, id, row).Some?
    ensures AddRow(store, id, row).value == store[id := if id in store then Inserted(store[id], row) else row]
  {
  }

  /** Inserting a row into a copy of itself changes nothing; the folder does not matter. */
  lemma AddedToCopy(row: Row, now: Row, place: FolderId)
    requires now == row.(folder := now.folder)
    ensures Inserted(now, row.(folder := place)) == now
  {
    assert row.clocks + row.clocks == row.clocks && row.keys + row.keys == row.keys;
  }

  /** Inserting a row a second time changes nothing. */
  lemma AddedAgain(known: Row, row: Row, now: Row, place: FolderId)
    requires now == known || now == Inserted(known, row)
    ensures Inserted(now, row.(folder := place)) == Inserted(known, row)
  {
    assert row.clocks + (row.clocks + known.clocks) == row.clocks + known.clocks;
    assert row.keys + (row.keys + known.keys) == row.keys + known.keys;
  }

  lemma StoreAfterExchange(before: map<ResourceId, Row>, now: map<ResourceId, Row>,
                           incoming: map<ResourceId, Row>, outgoing: map<ResourceId, Row>,
                           needs: set<ResourceId>, sends: set<ResourceId>, syncs: set<ResourceId>,
                           missing: set<ResourceId>, at: Places, id: ResourceId, row: Row)
    requires StoreFits(before, now, incoming, outgoing, needs, sends, syncs, missing, at)
    requires id in syncs && id !in sends && id !in needs && id in before && id in now
    ensures StoreFits(before, now[id := row], incoming, outgoing, needs, sends, syncs, missing, at)
  {
  }

  lemma StoreWithMoreFolders(before: map<ResourceId, Row>, now: map<ResourceId, Row>,
                             incoming: map<ResourceId, Row>, outgoing: map<ResourceId, Row>,
                             needs: set<ResourceId>, sends: set<ResourceId>, syncs: set<ResourceId>,
                             missing: set<ResourceId>, at: Places, more: set<FolderId>)
    requires StoreFits(before, now, incoming, outgoing, needs, sends, syncs, missing, at)
    ensures StoreFits(before, now, incoming, outgoing, needs, sends, syncs, missing, at.(now := at.now + more))
  {
    hide Clash, Inserted;
  }

  // One lemma per message outside the exchanges

  lemma NetworkHandled(g: Setting, side: Side, p: Peer, m: Message)
    requires Settled(g) && SideOk(g, side, p)
    requires (m.NetworkSync? || m.NetworkSyncAck?) && PlainFits(g, side, m)
    ensures Handle(p, m).ok && Handle(p, m).peer == p
    ensures PlainSends(g, Other(side), Handle(p, m).sends)
  {
    ManifestKnown(g, side, p);
    if m.NetworkSyncAck? {
      FolderRecordsSent(g, side, p);
    }
    hide SideOk, Settled, FolderRecords, FolderRecordsFit;
  }

  lemma SideAfterFolders(g: Setting, side: Side, p: Peer, m: Message)
    requires SideOk(g, side, p) && m.UnknownFolders? && FolderRecordsFit(g, side, m.records)
    ensures SideOk(g, side, Handle(p, m).peer)
  {
    FoldersAfterRecords(g, side, p, m);
    StoreWithMoreFolders(g.Begin(side).store, p.store, Incoming(g, side), Incoming(g, Other(side)), g.Needs(side), g.Sends(side),
                         g.Syncs(), StillMissing(p), PlacesOf(g, side, p.folders), m.records.Keys);
    hide StoreFits, FoldersOk, Clashing, Incoming, FolderRecordsFit;
  }

  lemma FoldersHandled(g: Setting, side: Side, p: Peer, m: Message)
    requires Settled(g) && SideOk(g, side, p) && m.UnknownFolders? && PlainFits(g, side, m)
    ensures Handle(p, m).ok && SideOk(g, side, Handle(p, m).peer)
    ensures Handle(p, m).peer.store == p.store
    ensures PlainSends(g, Other(side), Handle(p, m).sends)
  {
    hide SideOk, Settled, FoldersOk, FolderRecords, MissingRecipients, FolderRecordsFit, RecipientUpdatesFit, AddRecipients;
    SideAfterFolders(g, side, p, m);
    ManifestKnown(g, side, p);
    SideFolders(g, side, Handle(p, m).peer);
    FolderRecordsSent(g, side, Handle(p, m).peer);
    RecipientsSent(g, side, Handle(p, m).peer);
  }

  /** What remains to check when only the store or the manifest changed. */
  lemma SideWith(g: Setting, side: Side, p: Peer, p': Peer)
    requires SideOk(g, side, p) && p' == p.(store := p'.store, manifest := p'.manifest)
    requires ManifestOk(g.Plan(side), p'.manifest) && StoreOk(g, side, p') && Clashing(g, side) <= StillMissing(p')
    ensures SideOk(g, side, p')
  {
    hide StoreOk, Clashing, StillMissing, ManifestOk;
  }

  lemma SideFolders(g: Setting, side: Side, p: Peer)
    requires SideOk(g, side, p)
    ensures FoldersOk(g, side, p)
  {
  }

  lemma ManifestKnown(g: Setting, side: Side, p: Peer)
    requires Settled(g) && SideOk(g, side, p)
    ensures p.manifest.Some?
    ensures p.manifest.value.remoteMissing == g.Plan(side).remoteMissing
    ensures p.manifest.value.foldersRequiringRecipientSync == g.Plan(side).foldersRequiringRecipientSync
    ensures p.manifest.value.resourcesRequiringSync == g.Syncs()
    ensures p.isInitiator <==> side.Initiator?
    ensures g.Sends(side) <= p.store.Keys
  {
  }

  /** What `SendResources` sends from the middle of a run: every row as it was at the start, with a clock row added. */
  lemma ResourcesSent(g: Setting, side: Side, p: Peer)
    requires Settled(g) && SideOk(g, side, p)
    ensures SendResources(p).ok
    ensures g.Sends(side) <= Incoming(g, Other(side)).Keys
    ensures SendResources(p).sends ==
      (if g.Sends(side) == {} then multiset{ResourceAdditionComplete} else multiset{}) +
      AdditionRequests(Incoming(g, Other(side)), g.Sends(side))
  {
    ManifestKnown(g, side, p);
    PreparedIsOutgoing(g, side, p);
    var sends, store, rows := g.Sends(side), PreparedStore(p, g.Sends(side)), Incoming(g, Other(side));
    hide SideOk, Settled, PreparedStore, Incoming;
    assert (set r | r in sends :: ResourceAdditionRequest(r, store[r])) == (set r | r in sends :: ResourceAdditionRequest(r, rows[r]));
  }

  lemma PreparedIsOutgoing(g: Setting, side: Side, p: Peer)
    requires Settled(g) && SideOk(g, side, p)
    ensures var store, rows := PreparedStore(p, g.Sends(side)), Incoming(g, Other(side));
      && g.Sends(side) <= rows.Keys && store.Keys == p.store.Keys && g.Sends(side) <= p.store.Keys
      && forall id :: id in p.store ==> store[id] == if id in g.Sends(side) then rows[id] else p.store[id]
  {
    hide FoldersOk, Clashing, Clash, Placed, Inserted;
    var rows := Incoming(g, Other(side));
    forall id | id in g.Sends(side) ensures id in rows && id in p.store && Outgoing(p, id) == rows[id] {
      assert p.store[id] == g.Begin(side).store[id] || p.store[id] == rows[id];
    }
  }

  lemma SideAfterSending(g: Setting, side: Side, p: Peer)
    requires Settled(g) && SideOk(g, side, p)
    ensures var p' := SendResources(p).peer;
      && SideOk(g, side, p') && p' == p.(store := p'.store)
      && KeepsSyncRows(g, p.store, p'.store)
      && p.store.Keys == p'.store.Keys
  {
    ManifestKnown(g, side, p);
    PreparedIsOutgoing(g, side, p);
    StoreAfterSending(g.Begin(side).store, p.store, Incoming(g, side), Incoming(g, Other(side)), g.Needs(side), g.Sends(side),
                      g.Syncs(), StillMissing(p), PlacesOf(g, side, p.folders), PreparedStore(p, g.Sends(side)));
    hide StoreFits, Clashing, Incoming, PreparedStore, PlacesOf, FoldersOk;
    SendingChangesStore(g, side, p);
    SideWith(g, side, p, SendResources(p).peer);
  }

  lemma SendingChangesStore(g: Setting, side: Side, p: Peer)
    requires Settled(g) && SideOk(g, side, p)
    ensures SendResources(p).peer == p.(store := PreparedStore(p, g.Sends(side)))
    ensures KeepsSyncRows(g, p.store, PreparedStore(p, g.Sends(side))) && ManifestOk(g.Plan(side), p.manifest)
  {
    ManifestKnown(g, side, p);
    PreparedIsOutgoing(g, side, p);
    assert g.Sends(side) !! g.Syncs();
    hide SettledSide, FoldersOk, StoreOk, Clashing, PreparedStore, Incoming;
  }

  lemma ResourcesFit(g: Setting, side: Side)
    requires Settled(g) && g.Sends(side) <= Incoming(g, Other(side)).Keys
    ensures PlainSends(g, Other(side), AdditionRequests(Incoming(g, Other(side)), g.Sends(side)) + multiset{ResourceAdditionComplete})
  {
  }

  lemma SideAfterRecipients(g: Setting, side: Side, p: Peer, m: Message)
    requires Settled(g) && SideOk(g, side, p) && m.FolderRecipients? && RecipientUpdatesFit(g, side, m.updates)
    ensures var p' := p.(recipients := AddRecipients(p.recipients, m.updates));
      SideOk(g, side, p') && FoldersOk(g, side, p')
  {
    FoldersAfterRecipients(g, side, p, m.updates);
    hide FoldersOk, StoreFits, Clashing;
  }

  /** What a recipients message makes a side send: the responder's records, then its resources. */
  lemma RecipientsSends(g: Setting, side: Side, p: Peer, m: Message)
    requires Settled(g) && SideOk(g, side, p) && m.FolderRecipients? && PlainFits(g, side, m)
    ensures var p' := p.(recipients := AddRecipients(p.recipients, m.updates));
      var out, sent := Handle(p, m), SendResources(p');
      && SideOk(g, side, p') && FoldersOk(g, side, p')
      && out.peer == sent.peer && out.ok && sent.ok
      && out.sends == sent.sends +
           (if side.Initiator? then multiset{}
            else multiset{FolderRecipients(MissingRecipients(p', g.Plan(side).foldersRequiringRecipientSync))})
  {
    hide SideOk, FoldersOk, StoreOk, RecipientUpdatesFit, SendResources, MissingRecipients, SettledSide;
    var p' := p.(recipients := AddRecipients(p.recipients, m.updates));
    SideAfterRecipients(g, side, p, m);
    ManifestKnown(g, side, p);
    ResourcesSent(g, side, p');
  }

  lemma RecipientsHandled(g: Setting, side: Side, p: Peer, m: Message)
    requires Settled(g) && SideOk(g, side, p) && m.FolderRecipients? && PlainFits(g, side, m)
    ensures Handle(p, m).ok && SideOk(g, side, Handle(p, m).peer)
    ensures KeepsSyncRows(g, p.store, Handle(p, m).peer.store)
    ensures PlainSends(g, Other(side), Handle(p, m).sends)
  {
    hide Handle, SideOk, RecipientUpdatesFit, SendResources, MissingRecipients, FoldersOk, Settled, AdditionRequests;
    var p' := p.(recipients := AddRecipients(p.recipients, m.updates));
    RecipientsSends(g, side, p, m);
    RecipientsSent(g, side, p');
    ResourcesSent(g, side, p');
    SideAfterSending(g, side, p');
    ResourcesFit(g, side);
  }

  lemma PlacementFits(g: Setting, side: Side, p: Peer, row: Row)
    requires SideOk(g, side, p)
    ensures PlaceInFolder(p, row).Some? ==> Placed(row, PlaceInFolder(p, row).value, PlacesOf(g, side, p.folders))
  {
    hide StoreOk, Clashing;
  }

  /** The store part of an addition: refused exactly for the clashing resources. */
  lemma AdditionStored(g: Setting, side: Side, p: Peer, id: ResourceId, row: Row)
    requires Settled(g) && SideOk(g, side, p) && PlainFits(g, side, ResourceAdditionRequest(id, row)) && PlaceInFolder(p, row).Some?
    ensures var store := AddRow(p.store, id, row.(folder := PlaceInFolder(p, row).value));
      && (store.None? <==> id in Clashing(g, side))
      && (store.Some? ==>
            && KeepsSyncRows(g, p.store, store.value)
            && StoreFits(g.Begin(side).store, store.value, Incoming(g, side), Incoming(g, Other(side)), g.Needs(side), g.Sends(side),
                         g.Syncs(), StillMissing(p) - {id}, PlacesOf(g, side, p.folders)))
  {
    PlacementFits(g, side, p, row);
    var place := PlaceInFolder(p, row).value;
    NeededIsNot(g, side, id);
    SideStore(g, side, p);
    hide PlaceInFolder, Placed, SideOk, Settled, StoreFits, AddRow, Clash;
    AdditionVerdict(g.Begin(side).store, p.store, Incoming(g, side), Incoming(g, Other(side)), g.Needs(side), g.Sends(side),
                    g.Syncs(), StillMissing(p), PlacesOf(g, side, p.folders), id, place);
    if id !in Clashing(g, side) {
      hide Clashing, Incoming;
      StoreAfterAdding(g.Begin(side).store, p.store, Incoming(g, side), Incoming(g, Other(side)), g.Needs(side), g.Sends(side),
                       g.Syncs(), StillMissing(p), PlacesOf(g, side, p.folders), id, place);
      AddedRowIsOne(g, p.store, id, row.(folder := place));
    }
  }

  lemma NeededIsNot(g: Setting, side: Side, id: ResourceId)
    requires Settled(g) && id in g.Needs(side)
    ensures id !in g.Sends(side) && id !in g.Syncs()
  {
  }

  lemma SameStoreKept(g: Setting, store: map<ResourceId, Row>)
    ensures KeepsSyncRows(g, store, store)
  {
  }

  lemma AddedRowIsOne(g: Setting, store: map<ResourceId, Row>, id: ResourceId, row: Row)
    requires id !in g.Syncs() && AddRow(store, id, row).Some?
    ensures KeepsSyncRows(g, store, AddRow(store, id, row).value)
  {
  }

  lemma SideAfterAdding(g: Setting, side: Side, p: Peer, id: ResourceId, row: Row)
    requires Settled(g) && SideOk(g, side, p) && PlainFits(g, side, ResourceAdditionRequest(id, row))
    requires PlaceInFolder(p, row).Some? && id !in Clashing(g, side)
    ensures AddResource(p, id, row).ok && SideOk(g, side, AddResource(p, id, row).peer)
    ensures KeepsSyncRows(g, p.store, AddResource(p, id, row).peer.store)
  {
    AdditionStored(g, side, p, id, row);
    SideStore(g, side, p);
    ManifestKnown(g, side, p);
    var p' := AddResource(p, id, row).peer;
    assert ManifestOk(g.Plan(side), p.manifest);
    hide PlaceInFolder, AddRow, StoreFits, Clashing, FoldersOk, SettledSide, SideOk, KeepsSyncRows, Incoming;
    SideWith(g, side, p, p');
  }

  /** An addition succeeds exactly when it finds a folder and does not clash; a failing one changes and sends nothing. */
  lemma AdditionHandled(g: Setting, side: Side, p: Peer, m: Message)
    requires Settled(g) && SideOk(g, side, p) && m.ResourceAdditionRequest? && PlainFits(g, side, m)
    ensures Handle(p, m).ok <==> PlaceInFolder(p, m.row).Some? && m.id !in Clashing(g, side)
    ensures !Handle(p, m).ok ==> Handle(p, m) == Failed(p)
    ensures SideOk(g, side, Handle(p, m).peer)
    ensures KeepsSyncRows(g, p.store, Handle(p, m).peer.store)
    ensures PlainSends(g, Other(side), Handle(p, m).sends)
  {
    hide SideOk, PlaceInFolder, AddRow, StoreFits, Clashing, Settled, KeepsSyncRows, FoldersOk;
    if PlaceInFolder(p, m.row).Some? {
      AdditionStored(g, side, p, m.id, m.row);
      if m.id !in Clashing(g, side) {
        SideAfterAdding(g, side, p, m.id, m.row);
      }
    }
    SameStoreKept(g, p.store);
  }

  lemma BeganExchanges(g: Setting, side: Side, p: Peer)
    requires Settled(g) && SideOk(g, side, p) && g.Syncs() <= p.store.Keys
    ensures Handle(p, ResourceAdditionComplete) ==
      Outcome(p, if side.Initiator? then VectorRequests(p.store, g.Syncs()) else multiset{}, true)
  {
  }

  lemma RequestsFit(g: Setting, s: System)
    requires RowsInSync(g, s) && g.Syncs() <= s.initiator.store.Keys
    ensures forall x :: x in VectorRequests(s.initiator.store, g.Syncs()) ==> Fits(g, s, Responder, x)
  {
    hide RowsOk;
    forall x | x in VectorRequests(s.initiator.store, g.Syncs()) ensures Fits(g, s, Responder, x) {
      RequestIsOk(s.initiator.store[x.id].kind, s.initiator.store[x.id].docs);
    }
  }

  lemma CompleteStep(g: Setting, s: System, side: Side, m: Message)
    requires Settled(g) && Safe(g, s) && m in s.To(side) && m.ResourceAdditionComplete?
    ensures Handle(s.At(side), m).ok
    ensures Safe(g, Deliver(s, side, m))
  {
    hide SideOk, Moves, Handle, RowsOk, Settled, AllFit;
    BeganExchanges(g, side, s.At(side));
    RowsUntouched(g, s, Deliver(s, side, m));
    RequestsFit(g, Deliver(s, side, m));
    SafeAfter(g, s, side, m);
  }

  /** What an exchange message does to the two rows it is about: `z` is the receiving side's row afterwards. */
  ghost predicate RowStep(a: Row, b: Row, x: Row, y: Row, side: Side, z: Row, id: ResourceId, sends: multiset<Message>) {
    var x', y' := if side.Initiator? then z else x, if side.Initiator? then y else z;
    && RowsOk(a, b, x', y')
    && Moves(a, b, x, y, x', y')
    && forall w :: w in sends ==>
         && IsExchange(w) && w.id == id && ExchangeOk(a, b, x', y', w)
         && (w.UpdatesResponse? || w.VectorClockResponse? <==> side.Responder?)
  }

  lemma RequestStep(a: Row, b: Row, x: Row, y: Row, p: Peer, m: Message)
    requires RowsOk(a, b, x, y) && m.StateVectorRequest? && ExchangeOk(a, b, x, y, m)
    requires m.id in p.store && p.store[m.id] == y
    ensures Handle(p, m).ok && Handle(p, m).peer == p.(store := p.store[m.id := y])
    ensures RowStep(a, b, x, y, Responder, y, m.id, Handle(p, m).sends)
  {
    hide RowsOk, ExchangeOk;
    assert p.store[m.id := y] == p.store;
    RequestDelivered(a, b, x, y, m);
  }

  lemma UpdatesStep(a: Row, b: Row, x: Row, y: Row, p: Peer, m: Message)
    requires RowsOk(a, b, x, y) && m.UpdatesResponse? && ExchangeOk(a, b, x, y, m)
    requires m.id in p.store && p.store[m.id] == x
    ensures Handle(p, m).ok && Handle(p, m).peer == p.(store := p.store[m.id := UpdatedRow(x, m.payload)])
    ensures RowStep(a, b, x, y, Initiator, UpdatedRow(x, m.payload), m.id, Handle(p, m).sends)
  {
    hide RowsOk, ExchangeOk, UpdatedRow, Moves;
    UpdatesDelivered(a, b, x, y, m);
  }

  lemma FinalStep(a: Row, b: Row, x: Row, y: Row, p: Peer, m: Message)
    requires RowsOk(a, b, x, y) && m.FinalUpdateMerge? && ExchangeOk(a, b, x, y, m)
    requires m.id in p.store && p.store[m.id] == y
    ensures (Handle(p, m).ok <==> KeysAgree(a, b)) && (!KeysAgree(a, b) ==> Handle(p, m).sends == multiset{})
    ensures Handle(p, m).peer == p.(store := p.store[m.id := RowAfterFinal(y, m)])
    ensures RowStep(a, b, x, y, Responder, RowAfterFinal(y, m), m.id, Handle(p, m).sends)
  {
    hide RowsOk, ExchangeOk, RowAfterFinal, Moves, KeysClash;
    FinalDelivered(a, b, x, y, m);
  }

  lemma ClocksStep(a: Row, b: Row, x: Row, y: Row, p: Peer, m: Message)
    requires RowsOk(a, b, x, y) && m.VectorClockResponse? && ExchangeOk(a, b, x, y, m)
    requires m.id in p.store && p.store[m.id] == x
    ensures Handle(p, m).ok <==> ClockedRow(x, m).Some?
    ensures Handle(p, m).peer == p.(store := p.store[m.id := RowAfterClocks(x, m)])
    ensures RowStep(a, b, x, y, Initiator, RowAfterClocks(x, m), m.id, Handle(p, m).sends)
  {
    ResponseKeysFit(a, b, x, y, m);
    hide RowsOk, ExchangeOk, Moves, ClockedRow, RowAfterClocks, KeysClash;
    ClocksDelivered(a, b, x, y, m);
  }

  /** The receiving side's row after an exchange message. */
  function RowAfter(p: Peer, m: Message): Row
    requires IsExchange(m) && m.id in p.store
  {
    var row := p.store[m.id];
    if m.UpdatesResponse? then UpdatedRow(row, m.payload)
    else if m.FinalUpdateMerge? then RowAfterFinal(row, m)
    else if m.VectorClockResponse? then RowAfterClocks(row, m)
    else row
  }

  /** Which exchange messages are handled without an error. */
  ghost predicate ExchangeAccepted(a: Row, b: Row, x: Row, m: Message) {
    && (m.FinalUpdateMerge? ==> KeysAgree(a, b))
    && (m.VectorClockResponse? ==> ClockedRow(x, m).Some?)
  }

  lemma RowDelivered(a: Row, b: Row, x: Row, y: Row, side: Side, p: Peer, m: Message)
    requires RowsOk(a, b, x, y) && ExchangeFor(side, m) && ExchangeOk(a, b, x, y, m)
    requires m.id in p.store && p.store[m.id] == if side.Initiator? then x else y
    ensures Handle(p, m).ok <==> ExchangeAccepted(a, b, x, m)
    ensures Handle(p, m).peer == p.(store := p.store[m.id := RowAfter(p, m)])
    ensures RowStep(a, b, x, y, side, RowAfter(p, m), m.id, Handle(p, m).sends)
  {
    hide RowsOk, ExchangeOk, Handle, RowStep, UpdatedRow, RowAfterFinal, RowAfterClocks, KeysAgree;
    if m.StateVectorRequest? {
      RequestStep(a, b, x, y, p, m);
    } else if m.UpdatesResponse? {
      UpdatesStep(a, b, x, y, p, m);
    } else if m.FinalUpdateMerge? {
      FinalStep(a, b, x, y, p, m);
    } else {
      ClocksStep(a, b, x, y, p, m);
    }
  }

  /** One row in sync moved, on one side; the others stand. */
  lemma OneRowMoved(g: Setting, s: System, s': System, side: Side, id: ResourceId, z: Row, sends: multiset<Message>)
    requires RowsInSync(g, s) && id in g.Syncs()
    requires s'.At(side).store == s.At(side).store[id := z]
    requires s'.At(Other(side)).store == s.At(Other(side)).store
    requires RowStep(g.start.initiator.store[id], g.start.responder.store[id], s.initiator.store[id], s.responder.store[id],
                     side, z, id, sends)
    ensures RowsInSync(g, s') && RowsMove(g, s, s')
    ensures forall w :: w in sends ==> Fits(g, s', Other(side), w)
  {
    hide ExchangeOk, JoinDocs;
    forall j | j in g.Syncs()
      ensures Moves(g.start.initiator.store[j], g.start.responder.store[j], s.initiator.store[j], s.responder.store[j],
                    s'.initiator.store[j], s'.responder.store[j])
      ensures RowsOk(g.start.initiator.store[j], g.start.responder.store[j], s'.initiator.store[j], s'.responder.store[j])
    {
      assert RowsOk(g.start.initiator.store[j], g.start.responder.store[j], s.initiator.store[j], s.responder.store[j]);
    }
  }

  /** An exchange message does to the system what it does to the row it names. */
  lemma ExchangeDelivered(g: Setting, s: System, side: Side, m: Message)
    requires RowsInSync(g, s) && m in s.To(side) && IsExchange(m) && Fits(g, s, side, m)
    ensures m.id in g.Syncs() && m.id in s.At(side).store
    ensures Handle(s.At(side), m).ok <==>
      ExchangeAccepted(g.start.initiator.store[m.id], g.start.responder.store[m.id], s.initiator.store[m.id], m)
    ensures Handle(s.At(side), m).peer == s.At(side).(store := s.At(side).store[m.id := RowAfter(s.At(side), m)])
    ensures RowStep(g.start.initiator.store[m.id], g.start.responder.store[m.id], s.initiator.store[m.id], s.responder.store[m.id],
                    side, RowAfter(s.At(side), m), m.id, Handle(s.At(side), m).sends)
  {
    hide RowsOk, ExchangeOk, Handle, RowStep, RowAfter, ExchangeAccepted;
    RowDelivered(g.start.initiator.store[m.id], g.start.responder.store[m.id], s.initiator.store[m.id],
                 s.responder.store[m.id], side, s.At(side), m);
  }

  lemma SideAfterExchange(g: Setting, side: Side, p: Peer, id: ResourceId, row: Row)
    requires Settled(g) && SideOk(g, side, p) && id in g.Syncs() && id in p.store
    ensures SideOk(g, side, p.(store := p.store[id := row]))
  {
    StoreAfterExchange(g.Begin(side).store, p.store, Incoming(g, side), Incoming(g, Other(side)), g.Needs(side), g.Sends(side),
                       g.Syncs(), StillMissing(p), PlacesOf(g, side, p.folders), id, row);
    hide StoreFits, Clashing, Incoming, FoldersOk, SettledSide;
    SideWith(g, side, p, p.(store := p.store[id := row]));
  }

  /**
   Which deliveries are handled without an error: additions that find a folder and do not clash, final
   updates where keys agree, clock responses whose rows can be inserted, and all other messages.
   */
  ghost predicate Accepted(g: Setting, s: System, side: Side, m: Message)
    requires RowsInSync(g, s) && Fits(g, s, side, m)
  {
    if IsExchange(m)
    then ExchangeAccepted(g.start.initiator.store[m.id], g.start.responder.store[m.id], s.initiator.store[m.id], m)
    else m.ResourceAdditionRequest? ==> PlaceInFolder(s.At(side), m.row).Some? && m.id !in Clashing(g, side)
  }

  lemma StoresAfter(s: System, side: Side, m: Message)
    requires m in s.To(side)
    ensures Deliver(s, side, m).At(side) == Handle(s.At(side), m).peer
    ensures Deliver(s, side, m).At(Other(side)) == s.At(Other(side))
  {
  }

  lemma ExchangeStep(g: Setting, s: System, side: Side, m: Message)
    requires Settled(g) && Safe(g, s) && m in s.To(side) && IsExchange(m)
    ensures Fits(g, s, side, m) && (Handle(s.At(side), m).ok <==> Accepted(g, s, side, m))
    ensures Safe(g, Deliver(s, side, m))
  {
    assert RowsInSync(g, s) by {
      hide RowsInSync;
    }
    StoresAfter(s, side, m);
    hide Handle, SideOk, Settled, RowsMove, RowAfter, RowStep, RowsOk, ExchangeOk, ExchangeAccepted, Safe, Deliver;
    InFlight(g, s, side, m);
    ExchangeDelivered(g, s, side, m);
    hide Fits, RowsInSync;
    SideAfterExchange(g, side, s.At(side), m.id, RowAfter(s.At(side), m));
    OneRowMoved(g, s, Deliver(s, side, m), side, m.id, RowAfter(s.At(side), m), Handle(s.At(side), m).sends);
    SafeAfter(g, s, side, m);
  }

  /** Every delivery keeps the state safe, and which of them fail is known. */
  lemma StepKeepsSafe(g: Setting, s: System, side: Side, m: Message)
    requires Settled(g) && Safe(g, s) && m in s.To(side)
    ensures Fits(g, s, side, m) && (Handle(s.At(side), m).ok <==> Accepted(g, s, side, m))
    ensures Safe(g, Deliver(s, side, m))
  {
    InFlight(g, s, side, m);
    hide SideOk, Settled, Handle, PlainFits, ExchangeFits, Clashing;
    if IsExchange(m) {
      ExchangeStep(g, s, side, m);
    } else if m.ResourceAdditionComplete? {
      CompleteStep(g, s, side, m);
    } else {
      PlainHandled(g, side, s.At(side), m);
      SafeAfterOther(g, s, side, m);
    }
  }

  lemma PlainHandled(g: Setting, side: Side, p: Peer, m: Message)
    requires Settled(g) && SideOk(g, side, p) && !IsExchange(m) && !m.ResourceAdditionComplete? && PlainFits(g, side, m)
    ensures Handle(p, m).ok <==>
      (m.ResourceAdditionRequest? ==> PlaceInFolder(p, m.row).Some? && m.id !in Clashing(g, side))
    ensures SideOk(g, side, Handle(p, m).peer)
    ensures KeepsSyncRows(g, p.store, Handle(p, m).peer.store)
    ensures PlainSends(g, Other(side), Handle(p, m).sends)
  {
    hide SideOk, Settled, Handle, FolderRecordsFit, RecipientUpdatesFit, Clashing, PlaceInFolder;
    if m.NetworkSync? || m.NetworkSyncAck? {
      NetworkHandled(g, side, p, m);
    } else if m.UnknownFolders? {
      FoldersHandled(g, side, p, m);
    } else if m.FolderRecipients? {
      RecipientsHandled(g, side, p, m);
    } else {
      AdditionHandled(g, side, p, m);
    }
  }

  // Runs

  /** What every state of a run satisfies. */
  ghost predicate Invariant(g: Setting, s: System) {
    Opening(g, s) || Safe(g, s)
  }

  ghost predicate IsRunOf(g: Setting) {
    Start(g.start) && g == SettingOf(g.start)
  }

  lemma SideAtStart(g: Setting, side: Side, p: Peer)
    requires Settled(g) && p == g.Begin(side).(manifest := Some(g.Plan(side)))
    ensures SideOk(g, side, p)
  {
  }

  lemma RowsAtStart(g: Setting, s: System)
    requires Settled(g) && s.initiator.store == g.start.initiator.store && s.responder.store == g.start.responder.store
    ensures RowsInSync(g, s)
  {
    hide RowsOk, OneHistory;
    forall id | id in g.Syncs()
      ensures RowsOk(g.start.initiator.store[id], g.start.responder.store[id], s.initiator.store[id], s.responder.store[id])
    {
      HistoryHolds(g.start.initiator.store[id], g.start.responder.store[id]);
    }
  }

  lemma OpeningEnds(g: Setting)
    requires Settled(g)
    ensures Safe(g, AfterOpening(g))
  {
    hide SideOk, RowsInSync;
    SideAtStart(g, Initiator, AfterOpening(g).initiator);
    SideAtStart(g, Responder, AfterOpening(g).responder);
    RowsAtStart(g, AfterOpening(g));
  }

  lemma RequestOpens(g: Setting, side: Side, m: Message)
    requires IsRunOf(g) && m in g.start.To(side)
    ensures side == Responder && Handle(g.start.responder, m).ok && Deliver(g.start, side, m) == AfterRequest(g)
  {
  }

  lemma ResponseOpens(g: Setting, side: Side, m: Message)
    requires IsRunOf(g) && m in AfterRequest(g).To(side)
    ensures side == Initiator && Handle(g.start.initiator, m).ok && Deliver(AfterRequest(g), side, m) == AfterResponse(g)
  {
    hide Compare, LocalView;
    InverseOfCompare(LocalView(g.start.responder), LocalView(g.start.initiator));
  }

  lemma AckOpens(g: Setting, side: Side, m: Message)
    requires IsRunOf(g) && m in AfterResponse(g).To(side)
    ensures side == Responder && Handle(AfterResponse(g).responder, m).ok && Deliver(AfterResponse(g), side, m) == AfterAck(g)
  {
  }

  lemma NetworkOpens(g: Setting, side: Side, m: Message)
    requires IsRunOf(g) && m in AfterAck(g).To(side)
    ensures side == Initiator && Handle(AfterAck(g).initiator, m).ok && Deliver(AfterAck(g), side, m) == AfterOpening(g)
  {
  }

  lemma OpeningStep(g: Setting, s: System, side: Side, m: Message)
    requires IsRunOf(g) && Opening(g, s) && m in s.To(side)
    ensures Handle(s.At(side), m).ok
    ensures Opening(g, Deliver(s, side, m)) || Deliver(s, side, m) == AfterOpening(g)
  {
    hide Deliver, Handle, IsRunOf;
    if s == g.start {
      RequestOpens(g, side, m);
    } else if s == AfterRequest(g) {
      ResponseOpens(g, side, m);
    } else if s == AfterResponse(g) {
      AckOpens(g, side, m);
    } else {
      NetworkOpens(g, side, m);
    }
  }

  /** In the opening every delivery succeeds; afterwards those that are accepted do. */
  ghost predicate Expected(g: Setting, s: System, side: Side, m: Message) {
    || (Opening(g, s) && Handle(s.At(side), m).ok)
    || (Safe(g, s) && Fits(g, s, side, m) && (Handle(s.At(side), m).ok <==> Accepted(g, s, side, m)))
  }

  lemma StepKeepsInvariant(g: Setting, s: System, side: Side, m: Message)
    requires IsRunOf(g) && Settled(g) && Invariant(g, s) && m in s.To(side)
    ensures Expected(g, s, side, m) && Invariant(g, Deliver(s, side, m))
  {
    hide Opening, Safe, Settled, Accepted;
    if Opening(g, s) {
      OpeningStep(g, s, side, m);
      OpeningEnds(g);
    } else {
      StepKeepsSafe(g, s, side, m);
    }
  }

  /** Every delivery of the run fails or succeeds as expected. */
  ghost predicate AllExpected(g: Setting, s: System, ds: seq<Delivery>)
    requires Feasible(s, ds)
    decreases |ds|
  {
    ds != [] ==>
      && Expected(g, s, ds[0].side, ds[0].message)
      && AllExpected(g, Deliver(s, ds[0].side, ds[0].message), ds[1..])
  }

  lemma {:induction false} RunFrom(g: Setting, s: System, ds: seq<Delivery>)
    requires IsRunOf(g) && Settled(g) && Invariant(g, s) && Feasible(s, ds)
    ensures AllExpected(g, s, ds) && Invariant(g, Run(s, ds))
    decreases |ds|
  {
    hide Invariant, Settled, Deliver, Handle, Expected;
    if ds != [] {
      StepKeepsInvariant(g, s, ds[0].side, ds[0].message);
      RunFrom(g, Deliver(s, ds[0].side, ds[0].message), ds[1..]);
    }
  }

  /**
   Whatever the order of deliveries, a handler fails exactly where a resource finds no folder, a key
   or a clock row clashes, or a clock response comes a second time; none lacks a manifest or a row.
   */
  lemma DeliveriesFailAsExpected(o: System, ds: seq<Delivery>)
    requires Start(o) && Feasible(o, ds)
    ensures AllExpected(SettingOf(o), o, ds) && Invariant(SettingOf(o), Run(o, ds))
  {
    StartIsSettled(o);
    RunFrom(SettingOf(o), o, ds);
  }

  /** Where keys agree, resources find folders and nothing clashes, only a repeated clock response can fail. */
  lemma SmoothDeliverySucceeds(g: Setting, s: System, side: Side, m: Message)
    requires IsRunOf(g) && Settled(g) && Invariant(g, s) && m in s.To(side) && !m.VectorClockResponse?
    requires Placeable(g, side) && Clashing(g, side) == {}
    requires forall id :: id in g.Syncs() && id in g.start.initiator.store && id in g.start.responder.store ==>
      KeysAgree(g.start.initiator.store[id], g.start.responder.store[id])
    ensures Handle(s.At(side), m).ok
  {
    hide Opening, Settled, Handle, Clashing, IsRunOf, Deliver;
    if Opening(g, s) {
      OpeningStep(g, s, side, m);
    } else {
      StepKeepsSafe(g, s, side, m);
      if m.ResourceAdditionRequest? {
        PlaceFound(g, side, s.At(side), m);
      }
    }
  }

  lemma PlaceFound(g: Setting, side: Side, p: Peer, m: Message)
    requires SideOk(g, side, p) && m.ResourceAdditionRequest? && PlainFits(g, side, m) && Placeable(g, side)
    ensures PlaceInFolder(p, m.row).Some?
  {
    hide StoreOk, Clashing;
  }

  // What it means for the manifests

  predicate ReadsManifest(p: Peer, m: Message) {
    || m.ManifestAck? || m.NetworkSyncAck? || m.UnknownFolders? || m.FolderRecipients?
    || (p.isInitiator && (m.NetworkSync? || m.ResourceAdditionComplete?))
  }

  ghost predicate ManifestsSafe(g: Setting, s: System, side: Side) {
    && (forall m :: m in s.To(side) && ReadsManifest(s.At(side), m) ==> s.At(side).manifest.Some?)
    && (s.At(side).manifest.Some? ==> s.At(side).manifest.value.remoteMissing == g.Plan(side).remoteMissing)
    && StillMissing(s.At(side)) <= g.Sends(Other(side))
  }

  lemma OpeningManifests(g: Setting, s: System, side: Side)
    requires IsRunOf(g) && Settled(g) && Opening(g, s)
    ensures ManifestsSafe(g, s, side)
  {
    assert g.Needs(side) == g.Sends(Other(side));
    hide Compare, LocalView, Settled;
    if s == g.start || s == AfterRequest(g) {
      EarlyManifests(g, s, side);
    }
  }

  lemma EarlyManifests(g: Setting, s: System, side: Side)
    requires IsRunOf(g) && (s == g.start || s == AfterRequest(g)) && g.Needs(side) == g.Sends(Other(side))
    ensures ManifestsSafe(g, s, side)
  {
  }

  lemma SafeManifests(g: Setting, s: System, side: Side)
    requires Settled(g) && Safe(g, s)
    ensures ManifestsSafe(g, s, side)
  {
  }

  /**
   A message whose handler reads the manifest never arrives before the manifest is known; what a
   side will send stays what the comparison said, the two comparisons are mutually inverse, and what
   a side still lacks is among what the other sends.
   */
  lemma ManifestSafety(o: System, ds: seq<Delivery>, side: Side)
    requires Start(o) && Feasible(o, ds)
    ensures ManifestsSafe(SettingOf(o), Run(o, ds), side)
    ensures SettingOf(o).responderPlan == SettingOf(o).initiatorPlan.Inverse()
  {
    hide Compare, LocalView, Safe, Opening, Run, ManifestsSafe, Settled;
    DeliveriesFailAsExpected(o, ds);
    StartIsSettled(o);
    InverseOfCompare(LocalView(o.initiator), LocalView(o.responder));
    if Opening(SettingOf(o), Run(o, ds)) {
      OpeningManifests(SettingOf(o), Run(o, ds), side);
    } else {
      SafeManifests(SettingOf(o), Run(o, ds), side);
    }
  }

  lemma AdditionAnswered(g: Setting, side: Side, p: Peer, m: Message)
    requires Settled(g) && SideOk(g, side, p) && m.ResourceAdditionRequest? && PlainFits(g, side, m)
    ensures var out := Handle(p, m);
      && StillMissing(out.peer) == (if out.ok then StillMissing(p) - {m.id} else StillMissing(p))
      && (ResourceAdditionComplete in out.sends <==> out.ok && StillMissing(out.peer) == {})
      && g.Needs(side) - StillMissing(out.peer) <= out.peer.store.Keys
      && Clashing(g, side) <= StillMissing(out.peer)
  {
    AdditionHandled(g, side, p, m);
    ManifestKnown(g, side, p);
    SideStore(g, side, Handle(p, m).peer);
    hide SideOk, PlaceInFolder, AddRow, Clashing;
  }

  /**
   A side announces that its additions are complete only once everything it lacked is stored, and
   never when an addition clashes.
   */
  lemma CompleteMeansAllStored(o: System, ds: seq<Delivery>, side: Side, id: ResourceId, row: Row)
    requires Start(o) && Feasible(o, ds)
    requires ResourceAdditionRequest(id, row) in Run(o, ds).To(side)
    ensures var g, out := SettingOf(o), Handle(Run(o, ds).At(side), ResourceAdditionRequest(id, row));
      && (ResourceAdditionComplete in out.sends <==> out.ok && StillMissing(out.peer) == {})
      && (ResourceAdditionComplete in out.sends ==> g.Needs(side) <= out.peer.store.Keys && Clashing(g, side) == {})
  {
    hide Invariant, Safe, Settled, Start, Handle, SideOk, Run, Feasible, Clashing;
    var g, s, m := SettingOf(o), Run(o, ds), ResourceAdditionRequest(id, row);
    DeliveriesFailAsExpected(o, ds);
    StartIsSettled(o);
    AdditionsComeLater(g, s, side, m);
    InFlight(g, s, side, m);
    AdditionAnswered(g, side, s.At(side), m);
  }

  lemma AdditionsComeLater(g: Setting, s: System, side: Side, m: Message)
    requires IsRunOf(g) && Invariant(g, s) && m.ResourceAdditionRequest? && m in s.To(side)
    ensures Safe(g, s)
  {
    hide Safe, Compare, LocalView;
  }

  lemma SideStore(g: Setting, side: Side, p: Peer)
    requires SideOk(g, side, p)
    ensures StoreOk(g, side, p) && Clashing(g, side) <= StillMissing(p)
  {
  }

  /**
   A row neither exchanged nor asked for by the other side is as it was; a row sent has at most gained a
   clock row; a row received although it was there keeps its documents; and any other row received is
   the other side's row, with a clock row for the receiver, in its own folder, the folder it was created
   in or the default folder, in this order of preference.
   */
  ghost predicate RowStands(g: Setting, side: Side, p: Peer, id: ResourceId) {
    var before, now, incoming := g.Begin(side).store, p.store, Incoming(g, side);
    && (id in before && id !in g.Syncs() && id !in g.Sends(side) && id !in g.Needs(side) ==> id in now && now[id] == before[id])
    && (id in before && id in g.Sends(side) ==>
          id in now && (now[id] == before[id] || now[id] == Outgoing(g.Begin(side), id)))
    && (id in before && id in g.Needs(side) ==>
          && id in now && id in incoming
          && (now[id] == before[id] || (id !in Clashing(g, side) && now[id] == Inserted(before[id], incoming[id]))))
    && (id in now && id !in before ==>
          && id in g.Needs(side) && id in incoming
          && now[id] == incoming[id].(folder := now[id].folder)
          && Placed(incoming[id], now[id].folder, PlacesOf(g, side, p.folders)))
  }

  lemma StoreStands(g: Setting, side: Side, p: Peer, id: ResourceId)
    requires Settled(g) && StoreOk(g, side, p)
    ensures RowStands(g, side, p, id)
  {
    hide Clash, Placed, Inserted, WithClockFor;
    assert g.Needs(side) <= Incoming(g, side).Keys;
    hide Settled;
  }

  lemma StartStands(g: Setting, side: Side, p: Peer, id: ResourceId)
    requires Settled(g) && p.store == g.Begin(side).store
    ensures RowStands(g, side, p, id)
  {
    hide Clash, Placed, Inserted, WithClockFor;
  }

  lemma OpeningStores(g: Setting, s: System, side: Side)
    requires Opening(g, s)
    ensures s.At(side).store == g.Begin(side).store
  {
  }

  /** In every state of every run the rows outside the sync stand. */
  lemma RowsOutsideTheSync(o: System, ds: seq<Delivery>, side: Side, id: ResourceId)
    requires Start(o) && Feasible(o, ds)
    ensures RowStands(SettingOf(o), side, Run(o, ds).At(side), id)
  {
    var g, s := SettingOf(o), Run(o, ds);
    hide SettingOf, Settled, Run, Feasible, RowsInSync, AllFit, SideOk, StoreOk, Start, Opening, RowStands;
    DeliveriesFailAsExpected(o, ds);
    StartIsSettled(o);
    if Safe(g, s) {
      SideStore(g, side, s.At(side));
      StoreStands(g, side, s.At(side), id);
    } else {
      OpeningStores(g, s, side);
      StartStands(g, side, s.At(side), id);
    }
  }
}
