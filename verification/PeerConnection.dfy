/**
 The connection object of one peer.  Its methods write the store, shrink the manifest and send
 messages one at a time; each is proved to do what `Handle` says of the state it started from.
 */
module PeerConnection {
  import opened Wrappers
  import opened ResourceDocs
  import opened Manifest
  import opened VectorClock
  import opened Peer
  import Handlers = Peer

  class PeerConnection {
    const isInitiator: bool
    const peerUser: UserId
    const peerDevice: DeviceId
    const knownUsers: map<UserId, set<DeviceId>>
    const sharedWithPeer: set<ResourceId>
    const defaultFolder: Option<FolderId>
    const draw: nat
    var store: map<ResourceId, Row>
    var folders: set<FolderId>
    var live: set<FolderId>
    var recipients: map<FolderId, set<UserId>>
    var manifest: Option<ComparisonResult>
    var outbox: multiset<Message>

    constructor (p: Peer)
      ensures State() == p && outbox == multiset{}
    {
      isInitiator, peerUser, peerDevice := p.isInitiator, p.peerUser, p.peerDevice;
      knownUsers, sharedWithPeer, defaultFolder, draw := p.knownUsers, p.sharedWithPeer, p.defaultFolder, p.draw;
      store, folders, live, recipients, manifest := p.store, p.folders, p.live, p.recipients, p.manifest;
      outbox := multiset{};
    }

    function State(): Peer
      reads this
    {
      Peer(isInitiator, peerUser, peerDevice, knownUsers, sharedWithPeer, store, folders, live, recipients, defaultFolder,
           manifest, draw)
    }

    method SendMessage(m: Message)
      modifies this`outbox
      ensures outbox == old(outbox) + multiset{m}
    {
      outbox := outbox + multiset{m};
    }

    // Resources

    /** The row as it goes out; a clock row for the peer's device is inserted if there is none. */
    method GetResourceForRemoteAddition(id: ResourceId) returns (row: Option<Row>)
      modifies this`store
      ensures row.Some? <==> id in old(store)
      ensures row.Some? ==> row.value == Outgoing(old(State()), id) && store == old(store)[id := row.value]
      ensures row.Some? ==> MarkedFor(old(store)[id], row.value, peerDevice, Drawn(draw, id))
      ensures row.None? ==> store == old(store)
    {
      if id !in store {
        return None;
      }
      var table := new ClockTable(store[id].clocks);
      table.SaveVectorClock(Entry(Drawn(draw, id), peerDevice, 0));
      store := store[id := store[id].(clocks := table.rows)];
      row := Some(store[id]);
    }

    /** Rows and messages appear one at a time; a missing row ends the pass after some of them. */
    method SendAdditions(ids: set<ResourceId>) returns (ok: bool)
      modifies this`store, this`outbox
      ensures ok <==> ids <= old(store).Keys
      ensures exists sent :: sent <= ids && SentSoFar(old(State()), ids, sent, store, old(outbox), outbox) && (ok ==> sent == ids)
    {
      hide AdditionRequests, WithClockFor;
      ghost var p, prepared := State(), PreparedStore(State(), ids);
      PreparedNothing(p, prepared);
      var left := ids;
      assert ids - left == {};
      while left != {}
        invariant left <= ids && ids - left <= p.store.Keys == prepared.Keys
        invariant store == PreparedStore(p, ids - left)
        invariant outbox == old(outbox) + AdditionRequests(prepared, ids - left)
        decreases left
      {
        hide PreparedStore;
        var id :| id in left;
        AdditionSent(p, ids, ids - left, id);
        assert ids - (left - {id}) == ids - left + {id};
        var row := GetResourceForRemoteAddition(id);
        if row.None? {
          assert SentSoFar(p, ids, ids - left, store, old(outbox), outbox);
          return false;
        }
        SendMessage(ResourceAdditionRequest(id, row.value));
        left := left - {id};
      }
      assert ids - left == ids;
      assert SentSoFar(p, ids, ids, store, old(outbox), outbox);
      ok := true;
    }

    /** A pass that fails has sent some of the resources and marked just those. */
    method SendResources() returns (ok: bool)
      modifies this`store, this`outbox
      ensures ok == Handlers.SendResources(old(State())).ok
      ensures ok ==> State() == Handlers.SendResources(old(State())).peer
      ensures ok ==> outbox == old(outbox) + Handlers.SendResources(old(State())).sends
      ensures ok ==>
        var ids := manifest.value.remoteMissing.unknownResources;
        && store.Keys == old(store).Keys && ids <= store.Keys
        && (forall r :: r in store && r !in ids ==> store[r] == old(store)[r])
        && (forall r :: r in ids ==> MarkedFor(old(store)[r], store[r], peerDevice, Drawn(draw, r)))
        && outbox == old(outbox) + (if ids == {} then multiset{ResourceAdditionComplete} else multiset{}) +
             multiset(set r | r in ids :: ResourceAdditionRequest(r, store[r]))
      ensures !ok && manifest.None? ==> State() == old(State()) && outbox == old(outbox)
      ensures !ok && manifest.Some? ==>
        var ids := manifest.value.remoteMissing.unknownResources;
        exists sent :: sent <= ids && SentSoFar(old(State()), ids, sent, store, old(outbox), outbox)
    {
      hide AdditionRequests, PreparedStore;
      if manifest.None? {
        return false;
      }
      var ids := manifest.value.remoteMissing.unknownResources;
      if ids == {} {
        SendMessage(ResourceAdditionComplete);
      }
      assert State() == old(State());
      ok := SendAdditions(ids);
      if ok {
        PreparedKeys(old(State()), ids);
        PreparedIsMarked(old(State()), ids);
        RequestsAre(store, ids);
      }
    }

    /** Takes the resource off the list of those still missing and says whether the list is empty. */
    method RemoveUserLocalMissingResource(id: ResourceId) returns (isEmpty: bool)
      modifies this`manifest
      ensures manifest == RemoveMissing(old(manifest), id) && isEmpty == NothingMissing(manifest)
    {
      if manifest.None? {
        return true;
      }
      var missing := manifest.value.localMissing;
      missing := missing.(unknownResources := missing.unknownResources - {id});
      manifest := Some(manifest.value.(localMissing := missing));
      isEmpty := missing.unknownResources == {};
    }

    /** One transaction: the resource, its keys, share records and clock rows are inserted where absent, or nothing is. */
    method SaveResourceSyncData(id: ResourceId, row: Row) returns (ok: bool)
      modifies this`store
      ensures ok <==> AddRow(old(store), id, row).Some?
      ensures store == if ok then AddRow(old(store), id, row).value else old(store)
      ensures !ok <==> id in old(store) && (KeysDiffer(old(store)[id].keys, row.keys) || RowIdsDiffer(old(store)[id].clocks, row.clocks))
      ensures ok && id !in old(store) ==> store == old(store)[id := row]
      ensures ok && id in old(store) ==> store == old(store)[id := store[id]] && FilledFrom(old(store)[id], store[id], row)
    {
      if id !in store {
        store := store[id := row];
        return true;
      }
      var known := store[id];
      var keysOk, keys := InsertKeys(known.keys, row.keys);
      var clocksOk, clocks := InsertClockRows(known.clocks, row.clocks);
      ok := keysOk && clocksOk;
      if ok {
        assert known.keys + row.keys == row.keys + known.keys;
        store := store[id := known.(keys := keys, shares := known.shares + row.shares, clocks := clocks)];
      }
    }

    /** The row's folder, else the folder it was created in, else the default folder. */
    method AddResourceSync(id: ResourceId, row: Row) returns (ok: bool)
      modifies this`store
      ensures ok <==> AddResource(old(State()), id, row).ok
      ensures store == AddResource(old(State()), id, row).peer.store
    {
      var placed := row;
      if row.folder !in folders {
        if row.createdFolder in folders {
          placed := row.(folder := row.createdFolder);
        } else if defaultFolder.None? {
          return false;
        } else {
          placed := row.(folder := defaultFolder.value);
        }
      }
      assert placed == row.(folder := PlaceInFolder(State(), row).value);
      hide AddRow;
      ok := SaveResourceSyncData(id, placed);
    }

    method ProcessResourceAdditionRequest(id: ResourceId, row: Row) returns (ok: bool)
      modifies this`store, this`manifest, this`outbox
      ensures ok == AddResource(old(State()), id, row).ok
      ensures State() == AddResource(old(State()), id, row).peer
      ensures outbox == old(outbox) + AddResource(old(State()), id, row).sends
      ensures ok ==> id in store && (id !in old(store) ==>
        && store[id] == row.(folder := store[id].folder)
        && if row.folder in folders then store[id].folder == row.folder
           else if row.createdFolder in folders then store[id].folder == row.createdFolder
           else defaultFolder == Some(store[id].folder))
      ensures outbox == old(outbox) +
        if ok && (manifest.None? || manifest.value.localMissing.unknownResources == {}) then multiset{ResourceAdditionComplete}
        else multiset{}
    {
      hide AddRow;
      ok := AddResourceSync(id, row);
      AddedIsPlaced(old(State()), id, row);
      if ok {
        var isEmpty := RemoveUserLocalMissingResource(id);
        if isEmpty {
          SendMessage(ResourceAdditionComplete);
        }
      }
    }

    method ProcessResourceAdditionComplete() returns (ok: bool)
      modifies this`outbox
      ensures ok == BeginExchanges(State()).ok
      ensures ok ==> outbox == old(outbox) + BeginExchanges(State()).sends
      ensures !isInitiator ==> ok && outbox == old(outbox)
      ensures isInitiator && ok ==>
        var ids := manifest.value.resourcesRequiringSync;
        ids <= store.Keys && outbox == old(outbox) +
          multiset(set r | r in ids :: StateVectorRequest(r, StateVectors(store[r].kind, store[r].docs)))
    {
      if !isInitiator {
        return true;
      }
      if manifest.None? {
        return false;
      }
      var ids := manifest.value.resourcesRequiringSync;
      var left := ids;
      while left != {}
        invariant left <= ids && ids - left <= store.Keys
        invariant outbox == old(outbox) + VectorRequests(store, ids - left)
        decreases left
      {
        var id :| id in left;
        if id !in store {
          return false;
        }
        var resource := new DecryptedResource(store[id].kind, store[id].docs);
        var stateVectors := resource.GetStateVectors();
        SendMessage(StateVectorRequest(id, stateVectors));
        VectorsSent(store, ids - left, id);
        left := left - {id};
        assert ids - left == ids - (left + {id}) + {id};
      }
      assert ids - left == ids;
      ok := true;
    }

    // The exchange of one resource

    /** On a copy: the documents taken in are not saved. */
    method GenerateUpdatesForPeer(id: ResourceId, stateVectors: Payload) returns (updates: Payload)
      requires id in store
      ensures updates == Reply(store[id].kind, store[id].docs, stateVectors)
    {
      var resource := new DecryptedResource(store[id].kind, store[id].docs);
      updates := resource.SyncUpdates(stateVectors);
    }

    method ApplyUpdatesAndGetPeerUpdates(id: ResourceId, payload: Payload) returns (updates: Payload)
      requires id in store
      modifies this`store
      ensures store == old(store)[id := UpdatedRow(old(store)[id], payload)]
      ensures updates == Reply(old(store)[id].kind, old(store)[id].docs, payload)
    {
      var resource := new DecryptedResource(store[id].kind, store[id].docs);
      updates := resource.SyncUpdates(payload);
      store := store[id := store[id].(docs := resource.data)];
    }

    method ApplyUpdates(id: ResourceId, payload: Payload)
      requires id in store
      modifies this`store
      ensures store == old(store)[id := UpdatedRow(old(store)[id], payload)]
    {
      var updates := ApplyUpdatesAndGetPeerUpdates(id, payload);
    }

    /** Inserts the keys only the peer has and lists those only this side has; None when one is refused. */
    method MergeResourceKeys(id: ResourceId, keys: Keys) returns (missingInRemote: Option<Keys>)
      requires id in store
      modifies this`store
      ensures missingInRemote == if KeysClash(old(store)[id].keys, keys) then None else Some(MissingKeys(keys, old(store)[id].keys))
      ensures missingInRemote.Some? ==>
        store == old(store)[id := old(store)[id].(keys := old(store)[id].keys + MissingKeys(old(store)[id].keys, keys))]
      ensures missingInRemote.None? ==> store == old(store)
    {
      hide MissingKeys, KeysClash;
      var row := store[id];
      MissingKeysClash(row.keys, keys);
      var localMissing, remoteMissing := FindMissingResourceKeys(row.keys, keys);
      var ok, after := InsertKeys(row.keys, localMissing);
      if !ok {
        return None;
      }
      store := store[id := row.(keys := after)];
      missingInRemote := Some(remoteMissing);
    }

    method MergeVectorClocks(id: ResourceId, clocks: ClockRows) returns (addClock: ClockRows, updateClock: ClockRows)
      requires id in store
      modifies this`store
      ensures store == old(store)[id := old(store)[id].(clocks := MergedRows(old(store)[id].clocks, clocks))]
      ensures addClock == MissingRows(clocks, old(store)[id].clocks) && updateClock == BehindRows(clocks, old(store)[id].clocks)
    {
      hide MissingRows, BehindRows, MergedRows;
      var table := new ClockTable(store[id].clocks);
      var remote := EntriesOf(clocks);
      var add, update := table.MergeVectorClocks(remote);
      store := store[id := store[id].(clocks := table.rows)];
      addClock, updateClock := RowsOf(add), RowsOf(update);
    }

    method MergeShareRecords(id: ResourceId, shares: set<ShareId>) returns (localOnly: set<ShareId>)
      requires id in store
      modifies this`store
      ensures store == old(store)[id := old(store)[id].(shares := old(store)[id].shares + shares)]
      ensures localOnly == old(store)[id].shares - shares
    {
      var remoteOnly, mine := CompareShareRecords(store[id].shares, shares);
      assert store[id].shares + remoteOnly == store[id].shares + shares;
      store := store[id := store[id].(shares := store[id].shares + remoteOnly)];
      localOnly := mine;
    }

    /**
     Documents, keys, clocks and share records are merged in turn, and the answer lists what the sender
     lacks of each.  A refused key ends the work after the documents.
     */
    method ProcessFinalUpdateMerge(m: Message) returns (answer: Option<Message>)
      requires m.FinalUpdateMerge? && m.id in store
      modifies this`store
      ensures answer.Some? <==> HandleFinal(old(State()), m).ok
      ensures answer.Some? ==> HandleFinal(old(State()), m).sends == multiset{answer.value}
      ensures store == HandleFinal(old(State()), m).peer.store
      ensures answer.None? <==> KeysDiffer(old(store)[m.id].keys, m.keys)
      ensures m.id in store && store == old(store)[m.id := store[m.id]]
      ensures answer.None? ==> store[m.id] == old(store)[m.id].(docs := store[m.id].docs)
      ensures answer.Some? ==> Merged(old(store)[m.id], store[m.id], m) && LacksNothing(answer.value, old(store)[m.id], m)
    {
      hide Synced, Reply, MissingRows, BehindRows, MergedRows, MissingKeys, KeysClash, KeysDiffer, HandleFinal, Merged, LacksNothing;
      FinalOutcome(State(), m);
      ClashIsDiffer(store[m.id].keys, m.keys);
      ApplyUpdates(m.id, m.payload);
      var remoteMissing := MergeResourceKeys(m.id, m.keys);
      if remoteMissing.None? {
        return None;
      }
      var addClock, updateClock := MergeVectorClocks(m.id, m.clocks);
      var localOnly := MergeShareRecords(m.id, m.shares);
      MergedRowIsMerged(old(store)[m.id], m);
      answer := Some(VectorClockResponse(m.id, updateClock, addClock, localOnly, remoteMissing.value));
    }

    method UpdateVectorClocks(id: ResourceId, update: ClockRows, add: ClockRows) returns (ok: bool)
      requires id in store
      modifies this`store
      ensures ok == AppliedRows(old(store)[id].clocks, update, add).Some?
      ensures ok ==> store == old(store)[id := old(store)[id].(clocks := AppliedRows(old(store)[id].clocks, update, add).value)]
      ensures !ok ==> store == old(store)
    {
      hide AppliedRows, RowsOf, UniqueDevices;
      var table := new ClockTable(store[id].clocks);
      var updates := EntriesOf(update);
      var adds := EntriesOf(add);
      ok := table.UpdateVectorClocks(updates, adds);
      if ok {
        store := store[id := store[id].(clocks := table.rows)];
      }
    }

    /** Clock rows, share records and keys are written in turn; what is refused ends the work. */
    method ProcessVectorClockResponse(m: Message) returns (ok: bool)
      requires m.VectorClockResponse? && m.id in store
      modifies this`store
      ensures ok == HandleClocks(old(State()), m).ok
      ensures store == HandleClocks(old(State()), m).peer.store
      ensures m.id in store && store == old(store)[m.id := store[m.id]]
      ensures TakesAnswer(old(store)[m.id], store[m.id], m, ok)
    {
      hide TakesAnswer;
      ClocksTaken(store[m.id], m);
      hide AppliedRows, KeysClash;
      var row := store[m.id];
      var clocksOk := UpdateVectorClocks(m.id, m.update, m.add);
      if !clocksOk {
        assert store[m.id := row] == store;
        return false;
      }
      store := store[m.id := store[m.id].(shares := row.shares + m.shares)];
      var keysOk, keys := InsertKeys(row.keys, m.keys);
      if keysOk {
        store := store[m.id := store[m.id].(keys := keys)];
      }
      ok := keysOk;
    }

    method ProcessResourceUpdateMessage(m: Message) returns (ok: bool)
      requires m.StateVectorRequest? || m.UpdatesResponse? || m.FinalUpdateMerge? || m.VectorClockResponse?
      modifies this`store, this`outbox
      ensures ok == HandleUpdate(old(State()), m).ok
      ensures State() == HandleUpdate(old(State()), m).peer
      ensures outbox == old(outbox) + HandleUpdate(old(State()), m).sends
    {
      hide Reply, UpdatedRow, RowAfterFinal, RowAfterClocks, ClockResponseFrom, ClockedRow, KeysClash;
      if m.id !in store {
        return false;
      }
      ok := true;
      match m {
        case StateVectorRequest(id, stateVectors) =>
          var updates := GenerateUpdatesForPeer(id, stateVectors);
          SendMessage(UpdatesResponse(id, updates));
        case UpdatesResponse(id, payload) =>
          var updates := ApplyUpdatesAndGetPeerUpdates(id, payload);
          ghost var row := old(store)[id];
          assert store[id].clocks == row.clocks && store[id].shares == row.shares && store[id].keys == row.keys by {
            BookUnchanged(row, payload);
          }
          SendMessage(FinalUpdateMerge(id, updates, store[id].clocks, store[id].shares, store[id].keys));
        case FinalUpdateMerge(_, _, _, _, _) =>
          var answer := ProcessFinalUpdateMerge(m);
          ok := answer.Some?;
          if ok {
            SendMessage(answer.value);
          }
        case VectorClockResponse(_, _, _, _, _) =>
          ok := ProcessVectorClockResponse(m);
      }
    }

    // Folders

    method CreateUnknownFoldersPayload(ids: set<FolderId>) returns (records: map<FolderId, set<UserId>>)
      ensures records == FolderRecords(State(), ids)
      ensures records == map f | f in ids && f in live :: RecipientsOf(recipients, f)
    {
      records := map[];
      var left := ids * live;
      while left != {}
        invariant left <= ids * live
        invariant records == map f | f in ids && f in live && f !in left :: RecipientsOf(recipients, f)
        decreases left
      {
        var f :| f in left;
        records := records[f := RecipientsOf(recipients, f)];
        left := left - {f};
      }
    }

    /** Inserts the records of `more`, folder by folder. */
    method SaveShareRecords(more: map<FolderId, set<UserId>>)
      modifies this`recipients
      ensures recipients == AddRecipients(old(recipients), more)
      ensures Together(old(recipients), more, recipients)
    {
      hide Together, AddRecipients;
      AddedTogether(recipients, more);
      var left := more.Keys;
      NothingAdded(recipients);
      assert (map g | g in more && g !in left :: more[g]) == map[];
      while left != {}
        invariant left <= more.Keys
        invariant recipients == AddRecipients(old(recipients), map g | g in more && g !in left :: more[g])
        decreases left
      {
        var f :| f in left;
        ghost var done := map g | g in more && g !in left :: more[g];
        RecipientsAdded(old(recipients), done, f, more[f]);
        recipients := recipients[f := RecipientsOf(recipients, f) + more[f]];
        left := left - {f};
        assert done[f := more[f]] == map g | g in more && g !in left :: more[g];
      }
      assert more == map g | g in more && g !in left :: more[g];
    }

    method GetMissingRemoteFolderShareRecords(diffs: map<FolderId, RecipientDiff>) returns (updates: map<FolderId, set<UserId>>)
      ensures updates == MissingRecipients(State(), diffs)
      ensures OnlyLocal(updates, recipients, diffs)
    {
      updates := map[];
      var left := diffs.Keys;
      while left != {}
        invariant left <= diffs.Keys
        invariant updates == map f | f in diffs && f !in left :: RecipientsOf(recipients, f) * diffs[f].onlyLocalKnows
        decreases left
      {
        var f :| f in left;
        updates := updates[f := RecipientsOf(recipients, f) * diffs[f].onlyLocalKnows];
        left := left - {f};
      }
    }

    method StartFolderSync() returns (ok: bool)
      modifies this`outbox
      ensures ok == HandleManifest(State(), NetworkSyncAck).ok
      ensures outbox == old(outbox) + HandleManifest(State(), NetworkSyncAck).sends
      ensures ok <==> manifest.Some?
      ensures ok ==> outbox == old(outbox) + multiset{
        UnknownFolders(map f | f in manifest.value.remoteMissing.unknownFolders && f in live :: RecipientsOf(recipients, f))}
    {
      if manifest.None? {
        return false;
      }
      var unknown := manifest.value.remoteMissing.unknownFolders;
      if unknown == {} {
        SendMessage(UnknownFolders(map[]));
      } else {
        var payload := CreateUnknownFoldersPayload(unknown);
        SendMessage(UnknownFolders(payload));
      }
      ok := true;
    }

    method ProcessUnknownFoldersPayload(m: Message) returns (ok: bool)
      requires m.UnknownFolders?
      modifies this`folders, this`live, this`recipients, this`outbox
      ensures ok == HandleFolders(old(State()), m).ok
      ensures State() == HandleFolders(old(State()), m).peer
      ensures outbox == old(outbox) + HandleFolders(old(State()), m).sends
      ensures folders == old(folders) + m.records.Keys && live == old(live) + (m.records.Keys - old(folders))
      ensures Together(old(recipients), m.records, recipients)
      ensures ok <==> manifest.Some?
      ensures ok && !isInitiator ==> outbox == old(outbox) + multiset{
        UnknownFolders(map f | f in manifest.value.remoteMissing.unknownFolders && f in live :: RecipientsOf(recipients, f))}
      ensures ok && isInitiator ==> exists updates ::
        && outbox == old(outbox) + multiset{FolderRecipients(updates)}
        && OnlyLocal(updates, recipients, manifest.value.foldersRequiringRecipientSync)
    {
      folders, live := folders + m.records.Keys, live + (m.records.Keys - folders);
      SaveShareRecords(m.records);
      if manifest.None? {
        return false;
      }
      if !isInitiator {
        var ours := CreateUnknownFoldersPayload(manifest.value.remoteMissing.unknownFolders);
        SendMessage(UnknownFolders(ours));
      } else {
        var missing := GetMissingRemoteFolderShareRecords(manifest.value.foldersRequiringRecipientSync);
        SendMessage(FolderRecipients(missing));
      }
      ok := true;
    }

    method ProcessFolderRecipientSync(m: Message) returns (ok: bool)
      requires m.FolderRecipients?
      modifies this`store, this`recipients, this`outbox
      ensures ok == HandleRecipients(old(State()), m).ok
      ensures ok ==> State() == HandleRecipients(old(State()), m).peer
      ensures ok ==> outbox == old(outbox) + HandleRecipients(old(State()), m).sends
      ensures manifest.Some? ==> Together(old(recipients), m.updates, recipients)
      ensures ok && !isInitiator ==> exists updates ::
        FolderRecipients(updates) in outbox && OnlyLocal(updates, recipients, manifest.value.foldersRequiringRecipientSync)
    {
      hide AddRecipients, MissingRecipients, OnlyLocal, Together, Handlers.SendResources, SentSoFar, MarkedFor;
      if manifest.None? {
        return false;
      }
      SaveShareRecords(m.updates);
      if !isInitiator {
        var missing := GetMissingRemoteFolderShareRecords(manifest.value.foldersRequiringRecipientSync);
        SendMessage(FolderRecipients(missing));
      }
      ok := SendResources();
    }

    // Manifests

    method GetUsers() returns (us: seq<UserWithDeviceIds>)
      ensures UserMap(us) == knownUsers
      ensures (set e | e in us :: e.userId) == knownUsers.Keys
      ensures forall e :: e in us && e.userId in knownUsers ==> ElementsOf(e.deviceIds) == knownUsers[e.userId]
    {
      hide UserMap, ElementsOf;
      NothingListed();
      us := [];
      var left := knownUsers.Keys;
      while left != {}
        invariant left <= knownUsers.Keys
        invariant UserMap(us) == map u | u in knownUsers && u !in left :: knownUsers[u]
        invariant (set e | e in us :: e.userId) == knownUsers.Keys - left
        invariant forall e :: e in us && e.userId in knownUsers ==> ElementsOf(e.deviceIds) == knownUsers[e.userId]
        decreases left
      {
        var u :| u in left;
        var devices := Elements(knownUsers[u]);
        NextUser(us, UserWithDeviceIds(u, devices));
        assert knownUsers.Keys - left + {u} == knownUsers.Keys - (left - {u});
        us := us + [UserWithDeviceIds(u, devices)];
        left := left - {u};
      }
    }

    method GetResourceManifestData() returns (rs: seq<ResourceManifestData>)
      ensures ClocksUnique(rs) && ResourceViews(rs) == LocalView(State()).resources
      ensures (set e | e in rs :: e.resourceId) == set r | r in store && r in sharedWithPeer
      ensures forall e :: e in rs && e.resourceId in store ==> ListsRow(e, store[e.resourceId])
    {
      hide ResourceViews, UniqueDevices, RowsOf, Values, ElementsOf;
      NothingListed();
      rs := [];
      var left := sharedWithPeer * store.Keys;
      while left != {}
        invariant left <= sharedWithPeer * store.Keys && ClocksUnique(rs)
        invariant (set e | e in rs :: e.resourceId) == sharedWithPeer * store.Keys - left
        invariant forall e :: e in rs && e.resourceId in store ==> ListsRow(e, store[e.resourceId])
        invariant ResourceViews(rs) ==
          map r | r in sharedWithPeer && r in store && r !in left :: ResourceView(store[r].shares, Values(store[r].clocks))
        decreases left
      {
        var r :| r in left;
        var shares := Elements(store[r].shares);
        var clocks := EntriesOf(store[r].clocks);
        NextResource(rs, ResourceManifestData(r, shares, clocks));
        assert sharedWithPeer * store.Keys - left + {r} == sharedWithPeer * store.Keys - (left - {r});
        rs := rs + [ResourceManifestData(r, shares, clocks)];
        left := left - {r};
      }
    }

    /** Folders with a share record for the user at the other end, whether they are marked deleted or not. */
    method GetFolderManifest() returns (fs: seq<FolderManifestData>)
      ensures FolderMap(fs) == LocalView(State()).folders
      ensures (set e | e in fs :: e.folderId) == set f | f in recipients && peerUser in recipients[f]
      ensures forall e :: e in fs && e.folderId in recipients ==> ElementsOf(e.recipientUserIds) == recipients[e.folderId]
    {
      hide FolderMap, ElementsOf;
      NothingListed();
      fs := [];
      var left := recipients.Keys;
      while left != {}
        invariant left <= recipients.Keys
        invariant FolderMap(fs) == map f | f in recipients && f !in left && peerUser in recipients[f] :: recipients[f]
        invariant (set e | e in fs :: e.folderId) == set f | f in recipients && f !in left && peerUser in recipients[f]
        invariant forall e :: e in fs && e.folderId in recipients ==> ElementsOf(e.recipientUserIds) == recipients[e.folderId]
        decreases left
      {
        var f :| f in left;
        if peerUser in recipients[f] {
          var users := Elements(recipients[f]);
          NextFolder(fs, FolderManifestData(f, users));
          fs := fs + [FolderManifestData(f, users)];
        }
        left := left - {f};
      }
    }

    /** The payload lists what the peer may know of this side, and nothing else. */
    method GetUserManifest() returns (lists: RequestPayload)
      ensures ViewOf(lists) == LocalView(State())
      ensures (set e | e in lists.users :: e.userId) == knownUsers.Keys
      ensures forall e :: e in lists.users && e.userId in knownUsers ==> ElementsOf(e.deviceIds) == knownUsers[e.userId]
      ensures (set e | e in lists.resources :: e.resourceId) == set r | r in store && r in sharedWithPeer
      ensures forall e :: e in lists.resources && e.resourceId in store ==>
        && ElementsOf(e.shareRecordIds) == store[e.resourceId].shares
        && UniqueDevices(e.vectorClocks) && RowsOf(e.vectorClocks) == store[e.resourceId].clocks
      ensures (set e | e in lists.folders :: e.folderId) == set f | f in recipients && peerUser in recipients[f]
      ensures forall e :: e in lists.folders && e.folderId in recipients ==> ElementsOf(e.recipientUserIds) == recipients[e.folderId]
    {
      var us := GetUsers();
      var rs := GetResourceManifestData();
      var fs := GetFolderManifest();
      lists := PayloadLists(us, rs, fs);
    }

    /** The first message of a sync, sent by the initiator only: what `Start` says is in flight. */
    method StartUserSync()
      modifies this`outbox
      ensures isInitiator ==> exists lists: RequestPayload ::
        ViewOf(lists) == LocalView(State()) && outbox == old(outbox) + multiset{ManifestRequest(lists)}
      ensures !isInitiator ==> outbox == old(outbox)
    {
      if isInitiator {
        var lists := GetUserManifest();
        SendMessage(ManifestRequest(lists));
      }
    }

    method ProcessUserManifestPayload(m: Message) returns (ok: bool)
      requires m.ManifestRequest? || m.ManifestResponse? || m.ManifestAck?
      modifies this`manifest, this`outbox
      ensures ok == HandleManifest(old(State()), m).ok
      ensures State() == HandleManifest(old(State()), m).peer
      ensures outbox == old(outbox) + HandleManifest(old(State()), m).sends
    {
      hide Compare, LocalView, ViewOf;
      ok := true;
      match m {
        case ManifestRequest(lists) =>
          var mine := GetUserManifest();
          var result := Manifest.ProcessUserManifestRequest(mine, lists);
          manifest := Some(result);
          SendMessage(ManifestResponse(result));
        case ManifestResponse(result) =>
          manifest := Some(result.Inverse());
          SendMessage(ManifestAck);
        case ManifestAck =>
          if manifest.None? {
            return false;
          }
          SendMessage(NetworkSync);
      }
    }

    method ProcessUserNetworkSync() returns (ok: bool)
      modifies this`outbox
      ensures ok == HandleManifest(State(), NetworkSync).ok
      ensures outbox == old(outbox) + HandleManifest(State(), NetworkSync).sends
      ensures ok <==> !isInitiator || manifest.Some?
      ensures ok ==> outbox == old(outbox) + if isInitiator then multiset{NetworkSync, NetworkSyncAck} else multiset{NetworkSyncAck}
    {
      if isInitiator {
        if manifest.None? {
          return false;
        }
        SendMessage(NetworkSync);
      }
      SendMessage(NetworkSyncAck);
      ok := true;
    }

    /**
     The dispatch.  A message does what `Handle` says, also where it fails; only a pass over missing
     rows, which no run meets, may end after some of its messages.
     */
    method ProcessMessage(m: Message) returns (ok: bool)
      modifies this
      ensures ok == Handle(old(State()), m).ok
      ensures ok || !m.FolderRecipients? ==> State() == Handle(old(State()), m).peer
      ensures ok || (!m.FolderRecipients? && !m.ResourceAdditionComplete?) ==> outbox == old(outbox) + Handle(old(State()), m).sends
    {
      hide HandleFolders, HandleRecipients, AddResource, HandleUpdate, Compare, LocalView;
      match m {
        case UnknownFolders(_) => ok := ProcessUnknownFoldersPayload(m);
        case FolderRecipients(_) => ok := ProcessFolderRecipientSync(m);
        case ResourceAdditionRequest(id, row) => ok := ProcessResourceAdditionRequest(id, row);
        case ResourceAdditionComplete => ok := ProcessResourceAdditionComplete();
        case StateVectorRequest(_, _) => ok := ProcessResourceUpdateMessage(m);
        case UpdatesResponse(_, _) => ok := ProcessResourceUpdateMessage(m);
        case FinalUpdateMerge(_, _, _, _, _) => ok := ProcessResourceUpdateMessage(m);
        case VectorClockResponse(_, _, _, _, _) => ok := ProcessResourceUpdateMessage(m);
        case NetworkSync => ok := ProcessUserNetworkSync();
        case NetworkSyncAck => ok := StartFolderSync();
        case _ => ok := ProcessUserManifestPayload(m);
      }
    }
  }

  /** Clocks, share records and keys are those of the two sides together; of two clocks the larger. */
  ghost predicate Merged(before: Row, after: Row, m: Message)
    requires m.FinalUpdateMerge?
  {
    && after == before.(docs := after.docs, clocks := after.clocks, shares := after.shares, keys := after.keys)
    && after.shares == before.shares + m.shares
    && after.keys.Keys == before.keys.Keys + m.keys.Keys
    && (forall u :: u in after.keys ==> after.keys[u] == if u in before.keys then before.keys[u] else m.keys[u])
    && after.clocks.Keys == before.clocks.Keys + m.clocks.Keys
    && (forall d :: d in after.clocks ==>
          if d !in before.clocks then after.clocks[d] == m.clocks[d]
          else
            && after.clocks[d].id == before.clocks[d].id
            && after.clocks[d].value ==
                 if d in m.clocks && before.clocks[d].value < m.clocks[d].value then m.clocks[d].value else before.clocks[d].value)
  }

  /** The answer carries what this side had and the message did not, and nothing else. */
  ghost predicate LacksNothing(answer: Message, before: Row, m: Message)
    requires m.FinalUpdateMerge?
  {
    && answer.VectorClockResponse? && answer.id == m.id
    && answer.shares == before.shares - m.shares
    && (forall u :: u in answer.keys <==> u in before.keys && !(u in m.keys && m.keys[u] == before.keys[u]))
    && (forall u :: u in answer.keys && u in before.keys ==> answer.keys[u] == before.keys[u])
    && (forall d :: d in answer.add <==> d in before.clocks && d !in m.clocks)
    && (forall d :: d in answer.add && d in before.clocks ==> answer.add[d] == before.clocks[d])
    && (forall d :: d in answer.update <==> d in before.clocks && d in m.clocks && m.clocks[d].value < before.clocks[d].value)
    && (forall d :: d in answer.update && d in before.clocks ==> answer.update[d] == before.clocks[d])
  }

  /**
   A row to be inserted for a device that has one stops everything; a key that differs stops the keys.
   What is taken in: raised and inserted clock rows, all share records, and all keys or none.
   */
  ghost predicate TakesAnswer(before: Row, after: Row, m: Message, ok: bool)
    requires m.VectorClockResponse?
  {
    var refused := exists d :: d in m.add && d in before.clocks;
    && (ok <==> !refused && !KeysDiffer(before.keys, m.keys))
    && (refused ==> after == before)
    && (!refused ==>
          && after == before.(clocks := after.clocks, shares := before.shares + m.shares, keys := after.keys)
          && after.keys == (if ok then before.keys + m.keys else before.keys)
          && after.clocks.Keys == before.clocks.Keys + m.add.Keys
          && (forall d :: d in m.add ==> after.clocks[d] == m.add[d])
          && (forall d :: d in before.clocks ==>
                && after.clocks[d].id == before.clocks[d].id
                && after.clocks[d].value == if d in m.update then m.update[d].value else before.clocks[d].value))
  }

  lemma ClocksTaken(before: Row, m: Message)
    requires m.VectorClockResponse?
    ensures TakesAnswer(before, RowAfterClocks(before, m), m, ClockedRow(before, m).Some? && !KeysClash(before.keys, m.keys))
  {
    ClashIsDiffer(before.keys, m.keys);
    hide KeysClash, KeysDiffer;
    if exists d :: d in m.add && d in before.clocks {
      var d :| d in m.add && d in before.clocks;
      assert d in m.add.Keys && d in before.clocks.Keys;
    }
  }

  lemma MergedRowIsMerged(before: Row, m: Message)
    requires m.FinalUpdateMerge?
    ensures Merged(before, MergedRow(before, m), m) || KeysDiffer(before.keys, m.keys)
    ensures LacksNothing(ClockResponseFrom(before, m), before, m)
  {
    hide Synced;
  }

  lemma FinalOutcome(p: Peer, m: Message)
    requires m.FinalUpdateMerge? && m.id in p.store
    ensures var row, out := p.store[m.id], HandleFinal(p, m);
      && out.ok == !KeysClash(row.keys, m.keys)
      && out.peer.store == p.store[m.id := if out.ok then MergedRow(row, m) else UpdatedRow(row, m.payload)]
      && (out.ok ==> out.sends == multiset{ClockResponseFrom(row, m)})
  {
    hide MergedRow, UpdatedRow, ClockResponseFrom, KeysClash;
  }

  // Rows of one resource

  /** One key per user: a second key for a user is refused, an equal one skipped; all happens or nothing. */
  method InsertKeys(keys: Keys, more: Keys) returns (ok: bool, after: Keys)
    ensures ok <==> !KeysClash(keys, more)
    ensures ok <==> !KeysDiffer(keys, more)
    ensures after == if ok then keys + more else keys
  {
    after := keys;
    var left := more.Keys;
    while left != {}
      invariant left <= more.Keys
      invariant forall u :: u in keys && u in more && u !in left ==> keys[u] == more[u]
      invariant after == keys + map u | u in more && u !in left :: more[u]
      decreases left
    {
      var u :| u in left;
      if u !in after {
        after := after[u := more[u]];
      } else if after[u] != more[u] {
        return false, keys;
      }
      left := left - {u};
    }
    ok := true;
  }

  /** One clock row per device, in the same way. */
  method InsertClockRows(rows: ClockRows, more: ClockRows) returns (ok: bool, after: ClockRows)
    ensures ok <==> !IdsClash(rows, more)
    ensures ok <==> !RowIdsDiffer(rows, more)
    ensures after == if ok then more + rows else rows
  {
    after := rows;
    var left := more.Keys;
    while left != {}
      invariant left <= more.Keys
      invariant forall d :: d in rows && d in more && d !in left ==> rows[d].id == more[d].id
      invariant after == (map d | d in more && d !in left :: more[d]) + rows
      decreases left
    {
      var d :| d in left;
      if d !in after {
        after := after[d := more[d]];
      } else if after[d].id != more[d].id {
        return false, rows;
      }
      left := left - {d};
    }
    ok := true;
  }

  method FindMissingResourceKeys(local: Keys, remote: Keys) returns (missingInLocal: Keys, missingInRemote: Keys)
    ensures missingInLocal == MissingKeys(local, remote) && missingInRemote == MissingKeys(remote, local)
  {
    missingInRemote := KeysWithout(local, remote);
    missingInLocal := KeysWithout(remote, local);
  }

  method KeysWithout(keys: Keys, others: Keys) returns (rest: Keys)
    ensures rest == MissingKeys(others, keys)
  {
    rest := map[];
    var left := keys.Keys;
    while left != {}
      invariant left <= keys.Keys
      invariant rest == map u | u in keys && u !in left && !(u in others && others[u] == keys[u]) :: keys[u]
      decreases left
    {
      var u :| u in left;
      if !(u in others && others[u] == keys[u]) {
        rest := rest[u := keys[u]];
      }
      left := left - {u};
    }
  }

  /** Both differences of the two sides' share records. */
  method CompareShareRecords(local: set<ShareId>, remote: set<ShareId>) returns (remoteOnly: set<ShareId>, localOnly: set<ShareId>)
    ensures remoteOnly == remote - local && localOnly == local - remote
  {
    remoteOnly, localOnly := {}, {};
    var left := local + remote;
    while left != {}
      invariant left <= local + remote
      invariant remoteOnly == remote - local - left && localOnly == local - remote - left
      decreases left
    {
      var id :| id in left;
      if id !in local {
        remoteOnly := remoteOnly + {id};
      } else if id !in remote {
        localOnly := localOnly + {id};
      }
      left := left - {id};
    }
  }

  method Elements<T(==)>(s: set<T>) returns (q: seq<T>)
    ensures ElementsOf(q) == s
  {
    q := [];
    var left := s;
    while left != {}
      invariant left <= s && ElementsOf(q) == s - left
      decreases left
    {
      var x :| x in left;
      assert ElementsOf(q + [x]) == ElementsOf(q) + {x};
      q := q + [x];
      left := left - {x};
    }
  }

  /** What keys a merge inserts decides whether it clashes. */
  lemma MissingKeysClash(keys: Keys, more: Keys)
    ensures KeysClash(keys, MissingKeys(keys, more)) <==> KeysClash(keys, more)
  {
    if KeysClash(keys, more) {
      var u :| u in keys && u in more && keys[u] != more[u];
      assert u in MissingKeys(keys, more);
    }
  }

  /** The row with a clock row for the device: the one it had, or a new one of value zero. */
  ghost predicate MarkedFor(before: Row, after: Row, device: DeviceId, uuid: RowId) {
    && after == before.(clocks := after.clocks)
    && after.clocks == if device in before.clocks then before.clocks else before.clocks[device := ClockRow(uuid, 0)]
  }

  /** Every folder of either map, with the recipients of both. */
  ghost predicate Together(a: map<FolderId, set<UserId>>, b: map<FolderId, set<UserId>>, sum: map<FolderId, set<UserId>>) {
    && sum.Keys == a.Keys + b.Keys
    && forall f, u :: f in sum ==> (u in sum[f] <==> (f in a && u in a[f]) || (f in b && u in b[f]))
  }

  lemma AddedTogether(a: map<FolderId, set<UserId>>, b: map<FolderId, set<UserId>>)
    ensures Together(a, b, AddRecipients(a, b))
  {
  }

  /** For every folder that differs, the stored share records of recipients only this side knows. */
  ghost predicate OnlyLocal(updates: map<FolderId, set<UserId>>, recipients: map<FolderId, set<UserId>>,
                            diffs: map<FolderId, RecipientDiff>)
  {
    && updates.Keys == diffs.Keys
    && forall f, u :: f in diffs && f in updates ==>
         (u in updates[f] <==> f in recipients && u in recipients[f] && u in diffs[f].onlyLocalKnows)
  }

  /** A manifest entry carries the share ids and the clock rows of the row. */
  ghost predicate ListsRow(e: ResourceManifestData, row: Row) {
    ElementsOf(e.shareRecordIds) == row.shares && UniqueDevices(e.vectorClocks) && RowsOf(e.vectorClocks) == row.clocks
  }

  ghost predicate KeysDiffer(a: Keys, b: Keys) {
    exists u :: u in a && u in b && a[u] != b[u]
  }

  lemma ClashIsDiffer(a: Keys, b: Keys)
    ensures KeysClash(a, b) <==> KeysDiffer(a, b)
  {
  }

  ghost predicate RowIdsDiffer(a: ClockRows, b: ClockRows) {
    exists d :: d in a && d in b && a[d].id != b[d].id
  }

  /** What `more` has and the stored row lacked is filled in, and what was there stands. */
  ghost predicate FilledFrom(before: Row, after: Row, more: Row) {
    && after == before.(clocks := after.clocks, shares := after.shares, keys := after.keys)
    && after.clocks.Keys == before.clocks.Keys + more.clocks.Keys
    && (forall d :: d in after.clocks ==> after.clocks[d] == if d in before.clocks then before.clocks[d] else more.clocks[d])
    && after.shares == before.shares + more.shares
    && after.keys.Keys == before.keys.Keys + more.keys.Keys
    && (forall u :: u in after.keys ==> after.keys[u] == if u in before.keys then before.keys[u] else more.keys[u])
  }

  /** Rows marked and messages sent for the resources `sent` out of `ids`. */
  ghost predicate SentSoFar(p: Peer, ids: set<ResourceId>, sent: set<ResourceId>,
                            store: map<ResourceId, Row>, before: multiset<Message>, outbox: multiset<Message>)
  {
    var prepared := PreparedStore(p, ids);
    sent <= prepared.Keys && store == PreparedStore(p, sent) && outbox == before + AdditionRequests(prepared, sent)
  }

  lemma AddedIsPlaced(p: Peer, id: ResourceId, row: Row)
    ensures var out := AddResource(p, id, row);
      out.ok ==>
        && id in out.peer.store
        && (id !in p.store ==>
              && out.peer.store[id] == row.(folder := out.peer.store[id].folder)
              && if row.folder in p.folders then out.peer.store[id].folder == row.folder
                 else if row.createdFolder in p.folders then out.peer.store[id].folder == row.createdFolder
                 else p.defaultFolder == Some(out.peer.store[id].folder))
  {
  }

  lemma VectorsSent(store: map<ResourceId, Row>, sent: set<ResourceId>, id: ResourceId)
    requires id in store && id !in sent && sent <= store.Keys
    ensures VectorRequests(store, sent + {id}) ==
      VectorRequests(store, sent) + multiset{StateVectorRequest(id, StateVectors(store[id].kind, store[id].docs))}
  {
  }

  lemma AdditionSent(p: Peer, ids: set<ResourceId>, sent: set<ResourceId>, id: ResourceId)
    requires id in ids && id !in sent && sent <= p.store.Keys
    ensures PreparedStore(p, sent).Keys == p.store.Keys == PreparedStore(p, ids).Keys
    ensures id in p.store ==>
      var store, row := PreparedStore(p, ids), Outgoing(p, id);
      && PreparedStore(p, sent)[id] == p.store[id]
      && AdditionRequests(store, sent + {id}) == AdditionRequests(store, sent) + multiset{ResourceAdditionRequest(id, row)}
      && PreparedStore(p, sent + {id}) == PreparedStore(p, sent)[id := row]
  {
    hide WithClockFor;
  }

  lemma PreparedIsMarked(p: Peer, ids: set<ResourceId>)
    ensures var after := PreparedStore(p, ids);
      forall r :: r in p.store ==>
        r in after && if r in ids then MarkedFor(p.store[r], after[r], p.peerDevice, Drawn(p.draw, r)) else after[r] == p.store[r]
  {
  }

  lemma RequestsAre(store: map<ResourceId, Row>, ids: set<ResourceId>)
    requires ids <= store.Keys
    ensures AdditionRequests(store, ids) == multiset(set r | r in ids :: ResourceAdditionRequest(r, store[r]))
  {
  }

  lemma BookUnchanged(row: Row, payload: Payload)
    ensures var r := UpdatedRow(row, payload); r.clocks == row.clocks && r.shares == row.shares && r.keys == row.keys
  {
  }

  lemma PreparedNothing(p: Peer, prepared: map<ResourceId, Row>)
    ensures PreparedStore(p, {}) == p.store && AdditionRequests(prepared, {}) == multiset{}
  {
  }

  lemma NothingAdded(rs: map<FolderId, set<UserId>>)
    ensures AddRecipients(rs, map[]) == rs
  {
    var sum := AddRecipients(rs, map[]);
    assert sum.Keys == rs.Keys;
    forall f | f in rs ensures sum[f] == rs[f] {
    }
  }

  lemma RecipientsAdded(rs: map<FolderId, set<UserId>>, more: map<FolderId, set<UserId>>, f: FolderId, us: set<UserId>)
    requires f !in more
    ensures AddRecipients(rs, more[f := us]) == AddRecipients(rs, more)[f := RecipientsOf(AddRecipients(rs, more), f) + us]
  {
    var sum := AddRecipients(rs, more);
    assert AddRecipients(rs, more[f := us]).Keys == sum.Keys + {f};
    assert RecipientsOf(sum, f) == RecipientsOf(rs, f);
  }
}
