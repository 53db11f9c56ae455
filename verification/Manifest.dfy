/**
 Manifest comparison of a user sync.  A list the original builds from a hash set has no duplicates
 and no promised order, so it is a set here; a list with one record per id is a map.
 */
module Manifest {
  import VectorClock

  type UserId = string
  type ResourceId = string
  type FolderId = string
  type ShareId = string
  type DeviceId = VectorClock.DeviceId
  type Clocks = VectorClock.Clocks

  datatype UserWithDeviceIds = UserWithDeviceIds(userId: UserId, deviceIds: seq<DeviceId>)
  datatype ResourceManifestData = ResourceManifestData(
    resourceId: ResourceId, shareRecordIds: seq<ShareId>, vectorClocks: seq<VectorClock.Entry>)
  datatype FolderManifestData = FolderManifestData(folderId: FolderId, recipientUserIds: seq<UserId>)

  datatype PayloadLists = PayloadLists(
    users: seq<UserWithDeviceIds>, resources: seq<ResourceManifestData>, folders: seq<FolderManifestData>)

  /** The table the clock rows are listed from keeps one per resource and device. */
  ghost predicate ClocksUnique(rs: seq<ResourceManifestData>) {
    forall r :: r in rs ==> VectorClock.UniqueDevices(r.vectorClocks)
  }

  type RequestPayload = p: PayloadLists | ClocksUnique(p.resources) witness PayloadLists([], [], [])

  datatype Differences = Differences(
    unknownUsers: set<UserId>,
    unknownDevicesFromCommonUsers: map<UserId, set<DeviceId>>,
    unknownResources: set<ResourceId>,
    unknownFolders: set<FolderId>)

  datatype RecipientDiff = RecipientDiff(onlyLocalKnows: set<UserId>, onlyRemoteKnows: set<UserId>)

  datatype ComparisonResult = ComparisonResult(
    localMissing: Differences,
    remoteMissing: Differences,
    resourcesRequiringSync: set<ResourceId>,
    foldersRequiringRecipientSync: map<FolderId, RecipientDiff>)
  {
    /** The same comparison from the other peer's side. */
    function Inverse(): ComparisonResult {
      ComparisonResult(
        remoteMissing,
        localMissing,
        resourcesRequiringSync,
        map f | f in foldersRequiringRecipientSync ::
          RecipientDiff(foldersRequiringRecipientSync[f].onlyRemoteKnows, foldersRequiringRecipientSync[f].onlyLocalKnows))
    }
  }

  /** What a payload says, with lists read as sets and maps. */
  datatype ResourceView = ResourceView(shares: set<ShareId>, clocks: Clocks)
  datatype View = View(
    users: map<UserId, set<DeviceId>>, resources: map<ResourceId, ResourceView>, folders: map<FolderId, set<UserId>>)

  function ElementsOf<T>(q: seq<T>): set<T> {
    set x | x in q
  }

  /** As a hash map collected from the list: the last record of an id wins. */
  function UserMap(us: seq<UserWithDeviceIds>): map<UserId, set<DeviceId>> {
    if us == [] then map[] else UserMap(us[..|us| - 1])[us[|us| - 1].userId := ElementsOf(us[|us| - 1].deviceIds)]
  }

  function ViewOfResource(r: ResourceManifestData): ResourceView {
    ResourceView(ElementsOf(r.shareRecordIds), VectorClock.ClocksOf(r.vectorClocks))
  }

  function ResourceMap(rs: seq<ResourceManifestData>): map<ResourceId, ResourceManifestData> {
    if rs == [] then map[] else ResourceMap(rs[..|rs| - 1])[rs[|rs| - 1].resourceId := rs[|rs| - 1]]
  }

  function FolderMap(fs: seq<FolderManifestData>): map<FolderId, set<UserId>> {
    if fs == [] then map[] else FolderMap(fs[..|fs| - 1])[fs[|fs| - 1].folderId := ElementsOf(fs[|fs| - 1].recipientUserIds)]
  }

  function ResourceViews(rs: seq<ResourceManifestData>): map<ResourceId, ResourceView> {
    map r | r in ResourceMap(rs) :: ViewOfResource(ResourceMap(rs)[r])
  }

  function ViewOf(p: RequestPayload): View {
    View(UserMap(p.users), ResourceViews(p.resources), FolderMap(p.folders))
  }

  /** For every user both sides know, the devices only `a` knows. */
  function ExtraDevices(a: map<UserId, set<DeviceId>>, b: map<UserId, set<DeviceId>>): map<UserId, set<DeviceId>> {
    map u | u in a && u in b && a[u] - b[u] != {} :: a[u] - b[u]
  }

  function Lacking(mine: View, theirs: View): Differences {
    Differences(
      theirs.users.Keys - mine.users.Keys,
      ExtraDevices(theirs.users, mine.users),
      theirs.resources.Keys - mine.resources.Keys,
      theirs.folders.Keys - mine.folders.Keys)
  }

  function RequiringSync(l: map<ResourceId, ResourceView>, r: map<ResourceId, ResourceView>): set<ResourceId> {
    set x | x in l && x in r && l[x] != r[x]
  }

  function RecipientDiffs(l: map<FolderId, set<UserId>>, r: map<FolderId, set<UserId>>): map<FolderId, RecipientDiff> {
    map f | f in l && f in r && l[f] != r[f] :: RecipientDiff(l[f] - r[f], r[f] - l[f])
  }

  function Compare(local: View, remote: View): ComparisonResult {
    ComparisonResult(
      Lacking(local, remote),
      Lacking(remote, local),
      RequiringSync(local.resources, remote.resources),
      RecipientDiffs(local.folders, remote.folders))
  }

  /** Both peers may compute the comparison: inverting one side's result gives the other side's. */
  lemma InverseOfCompare(l: View, r: View)
    ensures Compare(l, r).Inverse() == Compare(r, l)
  {
  }

  /** The devices of common users that `theirs` lists and `mine` does not: a user is named only if there are any. */
  ghost predicate ListsNewDevices(m: map<UserId, set<DeviceId>>, mine: map<UserId, set<DeviceId>>, theirs: map<UserId, set<DeviceId>>) {
    && (forall u :: u in m <==> u in mine && u in theirs && exists d :: d in theirs[u] && d !in mine[u])
    && (forall u :: u in m && u in mine && u in theirs ==> m[u] == theirs[u] - mine[u])
  }

  /** The parts of a comparison: what is lacking on a side is what the other side lists and it does not. */
  lemma CompareMeans(l: View, r: View)
    ensures var c := Compare(l, r);
      && c.localMissing.unknownUsers == r.users.Keys - l.users.Keys && c.remoteMissing.unknownUsers == l.users.Keys - r.users.Keys
      && ListsNewDevices(c.localMissing.unknownDevicesFromCommonUsers, l.users, r.users)
      && ListsNewDevices(c.remoteMissing.unknownDevicesFromCommonUsers, r.users, l.users)
      && c.localMissing.unknownResources == r.resources.Keys - l.resources.Keys
      && c.remoteMissing.unknownResources == l.resources.Keys - r.resources.Keys
      && c.localMissing.unknownFolders == r.folders.Keys - l.folders.Keys
      && c.remoteMissing.unknownFolders == l.folders.Keys - r.folders.Keys
      && (forall x :: x in c.resourcesRequiringSync <==>
            x in l.resources && x in r.resources &&
            (l.resources[x].shares != r.resources[x].shares || l.resources[x].clocks != r.resources[x].clocks))
      && (forall f :: f in c.foldersRequiringRecipientSync <==>
            f in l.folders && f in r.folders && l.folders[f] != r.folders[f])
      && (forall f :: f in c.foldersRequiringRecipientSync && f in l.folders && f in r.folders ==>
            && c.foldersRequiringRecipientSync[f].onlyLocalKnows == l.folders[f] - r.folders[f]
            && c.foldersRequiringRecipientSync[f].onlyRemoteKnows == r.folders[f] - l.folders[f])
  {
    ExtraDevicesAreNew(r.users, l.users);
    ExtraDevicesAreNew(l.users, r.users);
    hide ExtraDevices, ListsNewDevices;
  }

  lemma ExtraDevicesAreNew(a: map<UserId, set<DeviceId>>, b: map<UserId, set<DeviceId>>)
    ensures ListsNewDevices(ExtraDevices(a, b), b, a)
  {
    forall u | u in b && u in a ensures a[u] - b[u] != {} <==> exists d :: d in a[u] && d !in b[u] {
      var extra := a[u] - b[u];
      assert forall d :: d in extra <==> d in a[u] && d !in b[u];
      if extra != {} {
        var d :| d in extra;
      }
    }
  }

  lemma {:induction false} UserMapKeys(us: seq<UserWithDeviceIds>)
    ensures UserMap(us).Keys == set u | u in us :: u.userId
  {
    if us != [] {
      UserMapKeys(us[..|us| - 1]);
      assert us == us[..|us| - 1] + [us[|us| - 1]];
    }
  }

  lemma {:induction false} ResourceMapKeys(rs: seq<ResourceManifestData>)
    ensures ResourceMap(rs).Keys == set r | r in rs :: r.resourceId
    ensures forall x :: x in ResourceMap(rs) ==> ResourceMap(rs)[x] in rs
  {
    if rs != [] {
      ResourceMapKeys(rs[..|rs| - 1]);
      assert rs == rs[..|rs| - 1] + [rs[|rs| - 1]];
    }
  }

  lemma NothingListed()
    ensures UserMap([]) == map[] && FolderMap([]) == map[] && ResourceViews([]) == map[]
  {
  }

  lemma NextUser(us: seq<UserWithDeviceIds>, u: UserWithDeviceIds)
    ensures UserMap(us + [u]) == UserMap(us)[u.userId := ElementsOf(u.deviceIds)]
    ensures (set e | e in us + [u] :: e.userId) == (set e | e in us :: e.userId) + {u.userId}
  {
    assert (us + [u])[..|us|] == us;
  }

  lemma NextFolder(fs: seq<FolderManifestData>, f: FolderManifestData)
    ensures FolderMap(fs + [f]) == FolderMap(fs)[f.folderId := ElementsOf(f.recipientUserIds)]
    ensures (set e | e in fs + [f] :: e.folderId) == (set e | e in fs :: e.folderId) + {f.folderId}
  {
    assert (fs + [f])[..|fs|] == fs;
  }

  lemma NextResource(rs: seq<ResourceManifestData>, r: ResourceManifestData)
    ensures ResourceViews(rs + [r]) == ResourceViews(rs)[r.resourceId := ViewOfResource(r)]
    ensures (set e | e in rs + [r] :: e.resourceId) == (set e | e in rs :: e.resourceId) + {r.resourceId}
  {
    hide ViewOfResource;
    assert (rs + [r])[..|rs|] == rs;
  }

  /** Device lists of the common users, compared one user at a time. */
  method CompareDevicesForCommonUsers(
    local: map<UserId, set<DeviceId>>, remote: map<UserId, set<DeviceId>>, common: set<UserId>)
    returns (onlyLocal: map<UserId, set<DeviceId>>, onlyRemote: map<UserId, set<DeviceId>>)
    requires common == local.Keys * remote.Keys
    ensures onlyLocal == ExtraDevices(local, remote) && ListsNewDevices(onlyLocal, remote, local)
    ensures onlyRemote == ExtraDevices(remote, local) && ListsNewDevices(onlyRemote, local, remote)
  {
    onlyLocal, onlyRemote := map[], map[];
    var left := common;
    while left != {}
      invariant left <= common
      invariant onlyLocal == map u | u in common - left && local[u] - remote[u] != {} :: local[u] - remote[u]
      invariant onlyRemote == map u | u in common - left && remote[u] - local[u] != {} :: remote[u] - local[u]
      decreases left
    {
      var u :| u in left;
      left := left - {u};
      var devicesOnlyLocal := local[u] - remote[u];
      if devicesOnlyLocal != {} {
        onlyLocal := onlyLocal[u := devicesOnlyLocal];
      }
      var devicesOnlyRemote := remote[u] - local[u];
      if devicesOnlyRemote != {} {
        onlyRemote := onlyRemote[u := devicesOnlyRemote];
      }
    }
    ExtraDevicesAreNew(local, remote);
    ExtraDevicesAreNew(remote, local);
  }

  /** Share records are compared first; clocks decide only when the share records agree. */
  method CompareResourcesForCommonResources(
    local: seq<ResourceManifestData>, remote: seq<ResourceManifestData>, common: set<ResourceId>)
    returns (needingUpdate: set<ResourceId>)
    requires ClocksUnique(local) && ClocksUnique(remote)
    requires common == ResourceMap(local).Keys * ResourceMap(remote).Keys
    ensures needingUpdate == RequiringSync(ResourceViews(local), ResourceViews(remote))
    ensures forall x :: x in needingUpdate <==>
      x in common &&
      (|| ElementsOf(ResourceMap(local)[x].shareRecordIds) != ElementsOf(ResourceMap(remote)[x].shareRecordIds)
       || VectorClock.ClocksOf(ResourceMap(local)[x].vectorClocks) != VectorClock.ClocksOf(ResourceMap(remote)[x].vectorClocks))
  {
    var locals, remotes := ResourceMap(local), ResourceMap(remote);
    ResourceMapKeys(local);
    ResourceMapKeys(remote);
    hide ResourceMap, VectorClock.RowsOf, VectorClock.UniqueDevices, VectorClock.Values;
    needingUpdate := {};
    var left := common;
    while left != {}
      invariant left <= common
      invariant needingUpdate == set x | x in common - left && ViewOfResource(locals[x]) != ViewOfResource(remotes[x])
      decreases left
    {
      var x :| x in left;
      left := left - {x};
      if ElementsOf(locals[x].shareRecordIds) != ElementsOf(remotes[x].shareRecordIds) {
        needingUpdate := needingUpdate + {x};
      } else {
        var clocksDiffer := VectorClock.VectorClocksNeedUpdate(locals[x].vectorClocks, remotes[x].vectorClocks);
        VectorClock.NeedUpdateIffClocksDiffer(locals[x].vectorClocks, remotes[x].vectorClocks);
        if clocksDiffer {
          needingUpdate := needingUpdate + {x};
        }
      }
    }
  }

  method CompareRecipients(local: map<FolderId, set<UserId>>, remote: map<FolderId, set<UserId>>)
    returns (differences: map<FolderId, RecipientDiff>)
    ensures differences == RecipientDiffs(local, remote)
    ensures forall f :: f in differences <==> f in local && f in remote && local[f] != remote[f]
    ensures forall f :: f in differences ==> differences[f] == RecipientDiff(local[f] - remote[f], remote[f] - local[f])
  {
    differences := map[];
    var common := local.Keys * remote.Keys;
    var left := common;
    while left != {}
      invariant left <= common
      invariant differences == map f | f in common - left && local[f] != remote[f] ::
        RecipientDiff(local[f] - remote[f], remote[f] - local[f])
      decreases left
    {
      var f :| f in left;
      left := left - {f};
      var onlyLocal, onlyRemote := local[f] - remote[f], remote[f] - local[f];
      if onlyLocal != {} || onlyRemote != {} {
        differences := differences[f := RecipientDiff(onlyLocal, onlyRemote)];
      } else {
        assert local[f] == remote[f];
      }
    }
  }

  /** The whole comparison, from the two payloads. */
  method ProcessUserManifestRequest(local: RequestPayload, remote: RequestPayload) returns (result: ComparisonResult)
    ensures result == Compare(ViewOf(local), ViewOf(remote))
  {
    hide UserMap, ResourceMap, FolderMap, ViewOfResource, ClocksUnique;
    var localUsers, remoteUsers := set u | u in local.users :: u.userId, set u | u in remote.users :: u.userId;
    UserMapKeys(local.users);
    UserMapKeys(remote.users);
    var devicesOnlyLocal, devicesOnlyRemote :=
      CompareDevicesForCommonUsers(UserMap(local.users), UserMap(remote.users), localUsers * remoteUsers);

    var localResources := set r | r in local.resources :: r.resourceId;
    var remoteResources := set r | r in remote.resources :: r.resourceId;
    ResourceMapKeys(local.resources);
    ResourceMapKeys(remote.resources);
    var requiringSync :=
      CompareResourcesForCommonResources(local.resources, remote.resources, localResources * remoteResources);

    var localFolders, remoteFolders := FolderMap(local.folders), FolderMap(remote.folders);
    var recipientDifferences := CompareRecipients(localFolders, remoteFolders);

    result := ComparisonResult(
      Differences(remoteUsers - localUsers, devicesOnlyRemote, remoteResources - localResources,
                  remoteFolders.Keys - localFolders.Keys),
      Differences(localUsers - remoteUsers, devicesOnlyLocal, localResources - remoteResources,
                  localFolders.Keys - remoteFolders.Keys),
      requiringSync,
      recipientDifferences);
  }
}
