/**
 The resource sync engine: one kind against a remote listing, then the tree of resource managers
 (pkg/kubeserver/models/clusterresource.go:464-653, namespaceresource.go:150-205, cluster_api.go:80-105).
 */
module Sync {
  import opened Wrappers
  import opened ClusterTables
  import opened ClusterStore
  import Versions
  import Compare

  /** A row as loaded from the database. */
  datatype Loaded = Loaded(id: RowId, row: Row)

  ghost predicate IsLoaded(db: Db, kind: Kind, cluster: ClusterId, l: Loaded) {
    l.id in db && db[l.id] == l.row && Of(l.row, kind, cluster)
  }

  // ----- the steps on one row -----

  /** sClusterResAPI.UpdateFromRemoteObject: the closure runs under the row's lock, and the row is
      saved only when the closure accepts. */
  method UpdateFromRemoteObject(store: Store, l: Loaded, o: RemoteObject) returns (ok: bool)
    requires l.id in store.rows && store.rows[l.id] == l.row
    modifies store`rows, store`faults, store`trail
    ensures store.faults >= old(store.faults)
    ensures ok ==> Updated(old(store.rows), store.clusters, l.row, o).Some?
                   && store.rows == old(store.rows)[l.id := Updated(old(store.rows), store.clusters, l.row, o).value]
    ensures !ok ==> store.rows == old(store.rows)
    ensures store.faults == old(store.faults) ==> (ok <==> Updated(old(store.rows), store.clusters, l.row, o).Some?)
  {
    if !Versions.Accepts(l.row.version, o.version) { return false; }
    var row := l.row.(name := o.name, version := o.version);
    if l.row.kind.namespaceScope {
      ok := store.Query();
      if !ok || row.clusterId !in store.clusters { return false; }
      ok := store.Query();
      if !ok { return false; }
      var ns := Namespace(store.rows, row.clusterId, o.namespace);
      if !ns.Found? { return false; }
      row := row.(namespaceId := Some(ns.id));
    }
    ok := store.Query();
    if !ok || row.clusterId !in store.clusters { return false; }
    row := row.(externalId := o.uid, status := o.status);
    ok := store.Save(l.id, row);
  }

  predicate HasSuffix(s: string, suffix: string) {
    |suffix| <= |s| && s[|s| - |suffix|..] == suffix
  }

  predicate IsFailStatus(status: string) {
    HasSuffix(status, "_fail") || HasSuffix(status, "_failed")
  }

  /** The statuses that keep a row: anything, and then one of the two endings. */
  lemma FailStatusIff(status: string)
    ensures IsFailStatus(status) <==> exists s: string :: status == s + "_fail" || status == s + "_failed"
  {
    if HasSuffix(status, "_fail") { assert status == status[..|status| - 5] + "_fail"; }
    if HasSuffix(status, "_failed") { assert status == status[..|status| - 7] + "_failed"; }
    forall s: string | status == s + "_fail" || status == s + "_failed" ensures IsFailStatus(status) {
      assert status[|s|..] == "_fail" || status[|s|..] == "_failed";
    }
  }

  /** A row whose last operation failed is kept, and keeping it is no error. */
  method SyncRemovedClusterResource(store: Store, l: Loaded) returns (ok: bool)
    requires l.id in store.rows
    modifies store`rows, store`gone, store`faults, store`trail
    ensures store.faults >= old(store.faults)
    ensures ok ==> store.rows == if IsFailStatus(l.row.status) then old(store.rows) else old(store.rows) - {l.id}
    ensures !ok ==> store.rows == old(store.rows) && store.faults > old(store.faults)
    ensures store.gone == if store.rows == old(store.rows) then old(store.gone) else old(store.gone) + {l.id}
  {
    if IsFailStatus(l.row.status) { return true; }
    ok := store.Delete(l.id);
  }

  datatype Existence = Exists | Absent | LookupFailed

  /** IsRemoteObjectLocalExist of cluster kinds, of namespaced kinds and of releases. */
  method IsRemoteObjectLocalExist(store: Store, kind: Kind, cluster: ClusterId, o: RemoteObject)
    returns (r: Existence, id: RowId)
    modifies store`faults
    ensures store.faults >= old(store.faults)
    ensures store.faults == old(store.faults) && !kind.namespaceScope ==>
      match Fetch(store.rows, kind, cluster, None, o.name)
      case Found(i) => r == Exists && id == i
      case NoRows => r == Absent
      case DuplicateRows => r == LookupFailed
    ensures store.faults == old(store.faults) && kind == RELEASE ==> r == Absent
    ensures store.faults == old(store.faults) && kind.namespaceScope && kind != RELEASE ==>
      match Namespace(store.rows, cluster, o.namespace)
      case NoRows => r == Absent
      case DuplicateRows => r == LookupFailed
      case Found(ns) =>
        match Fetch(store.rows, kind, cluster, Some(ns), o.name)
        case Found(i) => r == Exists && id == i
        case _ => r == Absent
    ensures r == Exists ==> id in store.rows && Of(store.rows[id], kind, cluster) && store.rows[id].name == o.name
  {
    id := 0;
    var ok := store.Query();
    if !kind.namespaceScope {
      if !ok { return LookupFailed, id; }
      match Fetch(store.rows, kind, cluster, None, o.name)
      case Found(i) => return Exists, i;
      case NoRows => return Absent, id;
      case DuplicateRows => return LookupFailed, id;
    }
    if !ok { return LookupFailed, id; }
    if kind == RELEASE { return Absent, id; }
    match Namespace(store.rows, cluster, o.namespace)
    case NoRows => return Absent, id;
    case DuplicateRows => return LookupFailed, id;
    case Found(ns) =>
      ok := store.Query();
      if !ok { return Absent, id; }
      match Fetch(store.rows, kind, cluster, Some(ns), o.name)
      case Found(i) => return Exists, i;
      case _ => return Absent, id;
  }

  /** The object's row was inserted but the update after the insert did not go through. */
  ghost predicate HalfAdded(db: Db, db': Db, kind: Kind, cluster: ClusterId, o: RemoteObject) {
    && (kind.namespaceScope ==> Namespace(db, cluster, o.namespace).Found?) && NodeKnown(db, kind, cluster, o)
    && exists id: RowId :: id !in db && db' == db[id := NewRow(db, kind, cluster, o)]
  }

  method NewFromRemoteObject(store: Store, kind: Kind, cluster: ClusterId, o: RemoteObject)
    returns (id: RowId, ok: bool)
    modifies store`rows, store`faults, store`trail
    ensures store.faults >= old(store.faults)
    ensures ok ==> id !in old(store.rows) && (kind.namespaceScope ==> Namespace(old(store.rows), cluster, o.namespace).Found?)
                   && NodeKnown(old(store.rows), kind, cluster, o)
                   && store.rows == old(store.rows)[id := AddedRow(old(store.rows), kind, cluster, o)]
    ensures !ok ==> store.rows == old(store.rows) || HalfAdded(old(store.rows), store.rows, kind, cluster, o)
    ensures store.faults == old(store.faults) ==>
      (ok <==> Addable(old(store.rows), store.clusters, kind, cluster, o))
    ensures forall x :: x in store.rows && x !in old(store.rows) ==> x !in store.gone
    ensures old(store.rows).Keys <= store.rows.Keys
    ensures OnlyChanges(old(store.rows), store.rows, kind, cluster)
    ensures Moves(old(store.rows), store.rows, kind, cluster, [o])
    ensures Valid(old(store.rows)) ==> Valid(store.rows)
  {
    ghost var db: Db := store.rows;
    id := 0;
    var exist, _ := IsRemoteObjectLocalExist(store, kind, cluster, o);
    if exist != Absent { return id, false; }
    var row;
    row, ok := BuildRow(store, kind, cluster, o);
    if !ok { return; }
    id, ok := store.Insert(row);
    if !ok { return; }
    InsertMoves(db, kind, cluster, o, id, row);
    ghost var half: Db := store.rows;
    ok := UpdateFromRemoteObject(store, Loaded(id, row), o);
    InsertedAddable(db, half, kind, cluster, o, id, store.clusters);
    if ok { UpdateMoves(db, half, kind, cluster, o, id, store.clusters); }
  }

  /** The manager's own NewFromRemoteObject: the row with its namespace and, for a pod, its node looked up. */
  method BuildRow(store: Store, kind: Kind, cluster: ClusterId, o: RemoteObject) returns (row: Row, ok: bool)
    modifies store`faults
    ensures store.faults >= old(store.faults)
    ensures ok ==> row == NewRow(store.rows, kind, cluster, o) && NodeKnown(store.rows, kind, cluster, o)
                   && (kind.namespaceScope ==> Namespace(store.rows, cluster, o.namespace).Found?)
    ensures store.faults == old(store.faults) ==>
      (ok <==> NodeKnown(store.rows, kind, cluster, o)
               && (kind.namespaceScope ==> Namespace(store.rows, cluster, o.namespace).Found?))
  {
    row, ok := Row(kind, cluster, o.uid, o.name, "", STATUS_INIT, None, None), true;
    if kind.namespaceScope {
      ok := store.Query();
      if !ok { return; }
      var ns := Namespace(store.rows, cluster, o.namespace);
      if !ns.Found? { return row, false; }
      row := row.(namespaceId := Some(ns.id));
    }
    if kind == POD && o.node != "" {
      ok := store.Query();
      if !ok { return; }
      var node := Fetch(store.rows, NODE, cluster, None, o.node);
      if !node.Found? { return row, false; }
      row := row.(nodeId := Some(node.id));
    }
  }

  /** After the insert, what is left to be accepted are the version and the cluster. */
  lemma InsertedAddable(
    db: Db, half: Db, kind: Kind, cluster: ClusterId, o: RemoteObject, id: RowId, clusters: set<ClusterId>)
    requires id !in db && half == db[id := NewRow(db, kind, cluster, o)]
    requires kind.namespaceScope ==> Namespace(db, cluster, o.namespace).Found?
    ensures Updated(half, clusters, half[id], o).Some? <==> Versions.Accepts("", o.version) && cluster in clusters
  {
    TargetKept(db, half, clusters, kind, cluster, o);
  }

  /** The insert. */
  lemma InsertMoves(db: Db, kind: Kind, cluster: ClusterId, o: RemoteObject, id: RowId, row: Row)
    requires id !in db && row == NewRow(db, kind, cluster, o) && NodeKnown(db, kind, cluster, o)
    requires kind.namespaceScope ==> Namespace(db, cluster, o.namespace).Found?
    ensures Moves(db, db[id := row], kind, cluster, [o]) && OnlyChanges(db, db[id := row], kind, cluster)
    ensures HalfAdded(db, db[id := row], kind, cluster, o)
    ensures Valid(db) ==> Valid(db[id := row])
  {
    var db' := db[id := row];
    NodeKept(db, db', kind, cluster, o);
    assert o in [o];
    assert NewRowOf(db', kind, cluster, row, [o]);
  }

  /** The update after it. */
  lemma UpdateMoves(
    db: Db, half: Db, kind: Kind, cluster: ClusterId, o: RemoteObject, id: RowId, clusters: set<ClusterId>)
    requires id !in db && half == db[id := NewRow(db, kind, cluster, o)] && NodeKnown(db, kind, cluster, o)
    requires kind.namespaceScope ==> Namespace(db, cluster, o.namespace).Found?
    requires Updated(half, clusters, half[id], o).Some?
    ensures Updated(half, clusters, half[id], o).value == AddedRow(db, kind, cluster, o)
    ensures var db' := db[id := AddedRow(db, kind, cluster, o)];
            && Moves(db, db', kind, cluster, [o]) && OnlyChanges(db, db', kind, cluster)
            && half[id := AddedRow(db, kind, cluster, o)] == db' && (Valid(db) ==> Valid(db'))
  {
    TargetKept(db, half, clusters, kind, cluster, o);
    UpdatedIsTarget(half, clusters, half[id], o);
    var db' := db[id := AddedRow(db, kind, cluster, o)];
    NodeKept(db, db', kind, cluster, o);
    assert o in [o];
    assert NewRowOf(db', kind, cluster, db'[id], [o]);
  }

  // ----- one kind -----

  /** GetClusterModelObjects: the cluster's rows of the kind, in any order. */
  ghost predicate Loads(db: Db, kind: Kind, cluster: ClusterId, objs: seq<Loaded>) {
    && (forall l :: l in objs ==> IsLoaded(db, kind, cluster, l))
    && (forall id :: id in Ids(db, kind, cluster) ==> Loaded(id, db[id]) in objs)
    && DistinctIds(objs)
  }

  ghost predicate DistinctIds(objs: seq<Loaded>) {
    forall i, j :: 0 <= i < j < |objs| ==> objs[i].id != objs[j].id
  }

  ghost function IdSet(objs: seq<Loaded>): set<RowId> {
    set l | l in objs :: l.id
  }

  lemma IdSetNext(objs: seq<Loaded>, i: nat)
    requires DistinctIds(objs) && i < |objs|
    ensures IdSet(objs[..i + 1]) == IdSet(objs[..i]) + {objs[i].id} && objs[i].id !in IdSet(objs[..i])
  {
    assert objs[..i + 1] == objs[..i] + [objs[i]];
  }

  method GetClusterModelObjects(store: Store, kind: Kind, cluster: ClusterId) returns (objs: seq<Loaded>, ok: bool)
    modifies store`faults
    ensures store.faults >= old(store.faults)
    ensures !ok ==> store.faults > old(store.faults)
    ensures ok ==> store.faults == old(store.faults) && Loads(store.rows, kind, cluster, objs)
  {
    objs := [];
    ok := store.Query();
    if !ok { return; }
    var rest := Ids(store.rows, kind, cluster);
    while rest != {}
      invariant rest <= Ids(store.rows, kind, cluster)
      invariant forall l :: l in objs ==> IsLoaded(store.rows, kind, cluster, l) && l.id !in rest
      invariant forall id :: id in Ids(store.rows, kind, cluster) - rest ==> Loaded(id, store.rows[id]) in objs
      invariant DistinctIds(objs)
    {
      var id :| id in rest;
      rest := rest - {id};
      objs := objs + [Loaded(id, store.rows[id])];
    }
  }

  /** What removing leaves: rows go that are to be removed and no others, and without errors those of them
      in a failed status stay alone. */
  ghost predicate Removes(db: Db, gone: set<RowId>, db': Db, gone': set<RowId>, removed: seq<Loaded>, errors: nat) {
    && db'.Keys <= db.Keys && (forall id :: id in db' ==> db'[id] == db[id])
    && (forall id :: id in db && id !in db' ==> id in IdSet(removed))
    && IdsMove(db, gone, db', gone')
    && (errors == 0 && (forall l :: l in removed ==> !IsFailStatus(l.row.status)) ==> db' == db - IdSet(removed))
    && (errors == 0 ==> forall l :: l in removed ==> (l.id in db' <==> IsFailStatus(l.row.status)))
  }

  method RemoveRows(store: Store, removed: seq<Loaded>) returns (delCnt: nat, delErrCnt: nat)
    requires DistinctIds(removed) && forall l :: l in removed ==> l.id in store.rows
    modifies store`rows, store`gone, store`faults, store`trail
    ensures store.faults >= old(store.faults)
    ensures store.faults == old(store.faults) ==> delErrCnt == 0
    ensures Removes(old(store.rows), old(store.gone), store.rows, store.gone, removed, delErrCnt)
    ensures delCnt + delErrCnt == |removed|
  {
    delCnt, delErrCnt := 0, 0;
    for i := 0 to |removed|
      invariant store.faults >= old(store.faults)
      invariant store.faults == old(store.faults) ==> delErrCnt == 0
      invariant store.rows.Keys <= old(store.rows).Keys
      invariant forall id :: id in store.rows ==> store.rows[id] == old(store.rows)[id]
      invariant forall id :: id in old(store.rows) && id !in store.rows ==> id in IdSet(removed[..i])
      invariant IdsMove(old(store.rows), old(store.gone), store.rows, store.gone)
      invariant delErrCnt == 0 && (forall l :: l in removed[..i] ==> !IsFailStatus(l.row.status)) ==>
          store.rows == old(store.rows) - IdSet(removed[..i])
      invariant delErrCnt == 0 ==> forall k :: 0 <= k < i ==> (removed[k].id in store.rows <==> IsFailStatus(removed[k].row.status))
      invariant forall k :: i <= k < |removed| ==> removed[k].id in store.rows
      invariant delCnt + delErrCnt == i
    {
      IdSetNext(removed, i);
      assert removed[i].id in store.rows;
      var ok := SyncRemovedClusterResource(store, removed[i]);
      if ok { delCnt := delCnt + 1; } else { delErrCnt := delErrCnt + 1; }
    }
    assert removed[..|removed|] == removed;
  }

  /** Every pair's update goes through when no storage call fails. */
  ghost predicate Updatable(
    db: Db, clusters: set<ClusterId>, commonDB: seq<Loaded>, commonExt: seq<RemoteObject>)
    requires |commonDB| == |commonExt|
  {
    forall i :: 0 <= i < |commonDB| ==> Updated(db, clusters, commonDB[i].row, commonExt[i]).Some?
  }

  /** The first n ids' rows are what the first n objects ask for. */
  ghost predicate PlacedUpTo(
    db: Db, db': Db, kind: Kind, cluster: ClusterId, ids: seq<RowId>, objs: seq<RemoteObject>, n: nat)
  {
    && n <= |ids| && n <= |objs|
    && forall i :: 0 <= i < n ==>
         && ids[i] in db' && Plain(db'[ids[i]]) == Target(db, kind, cluster, objs[i])
         && (kind.namespaceScope ==> Namespace(db, cluster, objs[i].namespace).Found?)
  }

  ghost predicate Placed(
    db: Db, db': Db, kind: Kind, cluster: ClusterId, ids: seq<RowId>, objs: seq<RemoteObject>)
  {
    |ids| == |objs| && PlacedUpTo(db, db', kind, cluster, ids, objs, |ids|)
  }

  function IdsOf(objs: seq<Loaded>): (r: seq<RowId>)
    ensures |r| == |objs| && forall i :: 0 <= i < |r| ==> r[i] == objs[i].id
  {
    seq(|objs|, i requires 0 <= i < |objs| => objs[i].id)
  }

  lemma PlacedOneMore(
    db: Db, before: Db, after: Db, kind: Kind, cluster: ClusterId,
    ids: seq<RowId>, objs: seq<RemoteObject>, n: nat, row: Row)
    requires PlacedUpTo(db, before, kind, cluster, ids, objs, n)
    requires n < |ids| && n < |objs| && forall i :: 0 <= i < n ==> ids[i] != ids[n]
    requires Plain(row) == Target(db, kind, cluster, objs[n]) && after == before[ids[n] := row]
    requires kind.namespaceScope ==> Namespace(db, cluster, objs[n].namespace).Found?
    ensures PlacedUpTo(db, after, kind, cluster, ids, objs, n + 1)
  {
  }

  lemma OnlyChangesThenOne(db: Db, before: Db, id: RowId, row: Row, kind: Kind, cluster: ClusterId)
    requires OnlyChanges(db, before, kind, cluster) && Valid(before)
    requires Of(row, kind, cluster) && (!kind.namespaceScope ==> row.namespaceId == None)
    requires kind != POD ==> row.nodeId == None
    requires id in before ==> Of(before[id], kind, cluster)
    ensures OnlyChanges(db, before[id := row], kind, cluster) && Valid(before[id := row])
  {
  }

  /** The pairs from index n on have not been touched. */
  ghost predicate Pending(db: Db, kind: Kind, cluster: ClusterId, objs: seq<Loaded>, n: nat) {
    forall i :: n <= i < |objs| ==> IsLoaded(db, kind, cluster, objs[i])
  }

  lemma PendingNext(db: Db, kind: Kind, cluster: ClusterId, objs: seq<Loaded>, n: nat, row: Row)
    requires n < |objs| && DistinctIds(objs) && Pending(db, kind, cluster, objs, n)
    ensures Pending(db[objs[n].id := row], kind, cluster, objs, n + 1)
  {
  }

  lemma OnlyChangesThen(db: Db, mid: Db, db': Db, kind: Kind, cluster: ClusterId)
    requires OnlyChanges(db, mid, kind, cluster) && OnlyChanges(mid, db', kind, cluster)
    ensures OnlyChanges(db, db', kind, cluster)
  {
  }

  /** What updating leaves: no row comes or goes, and without errors each has become what its object asks
      for; updates that all go through make none when no call fails. */
  ghost predicate Updates(
    db: Db, db': Db, clusters: set<ClusterId>, kind: Kind, cluster: ClusterId,
    commonDB: seq<Loaded>, commonExt: seq<RemoteObject>, quiet: bool, errors: nat)
  {
    && |commonDB| == |commonExt|
    && OnlyChanges(db, db', kind, cluster) && Valid(db') && db'.Keys == db.Keys && Moves(db, db', kind, cluster, [])
    && (quiet && Updatable(db, clusters, commonDB, commonExt) ==> errors == 0)
    && (errors == 0 ==>
          && Placed(db, db', kind, cluster, IdsOf(commonDB), commonExt)
          && forall o :: o in commonExt ==> NamespaceKnown(db, kind, cluster, o))
  }

  method UpdateRows(store: Store, kind: Kind, cluster: ClusterId, commonDB: seq<Loaded>, commonExt: seq<RemoteObject>)
    returns (updateCnt: nat, updateErrCnt: nat)
    requires |commonDB| == |commonExt| && DistinctIds(commonDB) && Valid(store.rows)
    requires forall l :: l in commonDB ==> IsLoaded(store.rows, kind, cluster, l)
    requires forall i :: 0 <= i < |commonDB| ==> commonDB[i].row.externalId == commonExt[i].uid
    modifies store`rows, store`faults, store`trail
    ensures store.faults >= old(store.faults)
    ensures updateCnt + updateErrCnt == |commonDB|
    ensures Updates(old(store.rows), store.rows, store.clusters, kind, cluster, commonDB, commonExt,
                    store.faults == old(store.faults), updateErrCnt)
  {
    updateCnt, updateErrCnt := 0, 0;
    ghost var db: Db := store.rows;
    for i := 0 to |commonDB|
      invariant store.faults >= old(store.faults)
      invariant OnlyChanges(db, store.rows, kind, cluster) && Valid(store.rows)
      invariant store.rows.Keys == db.Keys
      invariant Moves(db, store.rows, kind, cluster, []) && updateCnt + updateErrCnt == i
      invariant Pending(store.rows, kind, cluster, commonDB, i)
      invariant store.faults == old(store.faults) && Updatable(db, store.clusters, commonDB, commonExt) ==>
          updateErrCnt == 0
      invariant updateErrCnt == 0 ==>
          PlacedUpTo(db, store.rows, kind, cluster, IdsOf(commonDB), commonExt, i)
    {
      var l, o := commonDB[i], commonExt[i];
      ghost var before := store.rows;
      assert IsLoaded(before, kind, cluster, l);
      TargetKept(db, before, store.clusters, kind, cluster, o);
      var ok := UpdateFromRemoteObject(store, l, o);
      if ok {
        ghost var row := Target(db, kind, cluster, o).(nodeId := l.row.nodeId);
        UpdatedIsTarget(before, store.clusters, l.row, o);
        UpdatedMoves(db, before, kind, cluster, l, o, row);
        PendingNext(before, kind, cluster, commonDB, i, row);
        OnlyChangesThenOne(db, before, l.id, row, kind, cluster);
        if updateErrCnt == 0 {
          PlacedOneMore(db, before, store.rows, kind, cluster, IdsOf(commonDB), commonExt, i, row);
        }
        updateCnt := updateCnt + 1;
      } else {
        updateErrCnt := updateErrCnt + 1;
      }
    }
  }

  lemma UpdatedMoves(db: Db, before: Db, kind: Kind, cluster: ClusterId, l: Loaded, o: RemoteObject, row: Row)
    requires Moves(db, before, kind, cluster, []) && OnlyChanges(db, before, kind, cluster) && Valid(before)
    requires db.Keys == before.Keys && IsLoaded(before, kind, cluster, l) && l.row.externalId == o.uid
    requires row == Target(db, kind, cluster, o).(nodeId := l.row.nodeId)
    requires kind.namespaceScope ==> Namespace(db, cluster, o.namespace).Found?
    ensures Moves(db, before[l.id := row], kind, cluster, [])
  {
    var after := before[l.id := row];
    assert l.id in Ids(before, kind, cluster);
    assert kind.namespaceScope ==> SameRows(db, after, NAMESPACE, cluster);
    forall id | id in Ids(after, kind, cluster) ensures KeptRow(after, db[id], after[id]) {
      assert id in Ids(before, kind, cluster);
    }
  }

  predicate NamespaceKnown(db: Db, kind: Kind, cluster: ClusterId, o: RemoteObject) {
    kind.namespaceScope ==> Namespace(db, cluster, o.namespace).Found?
  }

  /** The rows a new row refers to are there. */
  predicate RefsKnown(db: Db, kind: Kind, cluster: ClusterId, o: RemoteObject) {
    NamespaceKnown(db, kind, cluster, o) && NodeKnown(db, kind, cluster, o)
  }

  lemma RefsKept(db: Db, db': Db, kind: Kind, cluster: ClusterId, o: RemoteObject)
    requires OnlyChanges(db, db', kind, cluster)
    ensures NamespaceKnown(db, kind, cluster, o) == NamespaceKnown(db', kind, cluster, o)
    ensures NodeKnown(db, kind, cluster, o) == NodeKnown(db', kind, cluster, o)
  {
    NamespacesKept(db, db', kind, cluster);
    TargetKept(db, db', {}, kind, cluster, o);
    NodeKept(db, db', kind, cluster, o);
  }

  /** Every object whose references are there can be added, in whatever order. */
  ghost predicate AllAddable(db: Db, clusters: set<ClusterId>, kind: Kind, cluster: ClusterId, objs: seq<RemoteObject>) {
    && DistinctNames(kind, objs)
    && forall o :: o in objs && RefsKnown(db, kind, cluster, o) ==> Addable(db, clusters, kind, cluster, o)
  }

  lemma AddOneOfMany(
    db: Db, clusters: set<ClusterId>, kind: Kind, cluster: ClusterId, objs: seq<RemoteObject>, id: RowId)
    requires |objs| > 0 && id !in db && AllAddable(db, clusters, kind, cluster, objs)
    requires RefsKnown(db, kind, cluster, objs[0])
    ensures AllAddable(db[id := AddedRow(db, kind, cluster, objs[0])], clusters, kind, cluster, objs[1..])
  {
    var db' := db[id := AddedRow(db, kind, cluster, objs[0])];
    forall o | o in objs[1..] && RefsKnown(db', kind, cluster, o) ensures Addable(db', clusters, kind, cluster, o) {
      RefsKept(db, db', kind, cluster, o);
      InsertLeavesAddable(db, clusters, kind, cluster, id, objs[0], o);
    }
  }

  /** The objects a reference of which is missing. */
  function Unknown(db: Db, kind: Kind, cluster: ClusterId, objs: seq<RemoteObject>): seq<RemoteObject> {
    if objs == [] then []
    else
      var n := |objs| - 1;
      Unknown(db, kind, cluster, objs[..n]) + if RefsKnown(db, kind, cluster, objs[n]) then [] else [objs[n]]
  }

  lemma {:induction false} UnknownMembers(db: Db, kind: Kind, cluster: ClusterId, objs: seq<RemoteObject>)
    ensures forall o :: o in Unknown(db, kind, cluster, objs) <==> o in objs && !RefsKnown(db, kind, cluster, o)
    ensures DistinctUids(objs) ==> DistinctUids(Unknown(db, kind, cluster, objs))
  {
    if objs != [] {
      var n := |objs| - 1;
      var front := Unknown(db, kind, cluster, objs[..n]);
      UnknownMembers(db, kind, cluster, objs[..n]);
      assert objs == objs[..n] + [objs[n]];
      if DistinctUids(objs) {
        forall i | 0 <= i < |front| ensures front[i].uid != objs[n].uid {
          assert front[i] in front;
          var k :| 0 <= k < n && objs[..n][k] == front[i];
        }
      }
    }
  }

  /** The others. */
  function Known(db: Db, kind: Kind, cluster: ClusterId, objs: seq<RemoteObject>): seq<RemoteObject> {
    if objs == [] then []
    else
      var n := |objs| - 1;
      Known(db, kind, cluster, objs[..n]) + if RefsKnown(db, kind, cluster, objs[n]) then [objs[n]] else []
  }

  lemma {:induction false} KnownMembers(db: Db, kind: Kind, cluster: ClusterId, objs: seq<RemoteObject>)
    ensures forall o :: o in Known(db, kind, cluster, objs) <==> o in objs && RefsKnown(db, kind, cluster, o)
    ensures DistinctUids(objs) ==> DistinctUids(Known(db, kind, cluster, objs))
  {
    if objs != [] {
      var n := |objs| - 1;
      var front := Known(db, kind, cluster, objs[..n]);
      KnownMembers(db, kind, cluster, objs[..n]);
      assert objs == objs[..n] + [objs[n]];
      if DistinctUids(objs) {
        forall i | 0 <= i < |front| ensures front[i].uid != objs[n].uid {
          assert front[i] in front;
          var k :| 0 <= k < n && objs[..n][k] == front[i];
        }
      }
    }
  }

  lemma DistinctJoin(a: seq<RemoteObject>, b: seq<RemoteObject>)
    requires DistinctUids(a) && DistinctUids(b) && forall x, y :: x in a && y in b ==> x.uid != y.uid
    ensures DistinctUids(a + b)
  {
    var all := a + b;
    forall i, j | 0 <= i < j < |all| ensures all[i].uid != all[j].uid {
      assert all[i] == (if i < |a| then a[i] else b[i - |a|]) && all[j] == if j < |a| then a[j] else b[j - |a|];
    }
  }

  lemma DistinctParts(a: seq<RemoteObject>, b: seq<RemoteObject>)
    requires DistinctUids(a + b)
    ensures DistinctUids(a) && DistinctUids(b) && forall x, y :: x in a && y in b ==> x.uid != y.uid
  {
    var all := a + b;
    assert forall i :: 0 <= i < |a| ==> all[i] == a[i];
    assert forall j :: 0 <= j < |b| ==> all[|a| + j] == b[j];
    forall x, y | x in a && y in b ensures x.uid != y.uid {
      var i :| 0 <= i < |a| && a[i] == x;
      var j :| 0 <= j < |b| && b[j] == y;
      assert all[i].uid != all[|a| + j].uid;
    }
  }

  /** Rows only come on top. */
  ghost predicate Extends(db: Db, db': Db, ids: seq<RowId>) {
    && (forall id :: id in db ==> id in db' && db'[id] == db[id])
    && (forall id :: id in ids ==> id !in db)
    && (forall id :: id in db' ==> id in db || id in ids)
  }

  /** What adding leaves: rows of the kind come on top; without errors and skips each object has one, and so
      have, when no call fails, just those of an addable listing whose references are there. */
  ghost predicate Adds(
    db: Db, db': Db, clusters: set<ClusterId>, kind: Kind, cluster: ClusterId, gone: set<RowId>, added: seq<RemoteObject>,
    quiet: bool, errors: nat, skipped: seq<RemoteObject>, ids: seq<RowId>, done: seq<RemoteObject>)
  {
    && Adding(db, db', kind, cluster, added, gone)
    && (errors == 0 && skipped == [] ==> done == added && PlacedOn(db, db', kind, cluster, ids, done))
    && (quiet && AllAddable(db, clusters, kind, cluster, added) ==>
          && errors == 0 && skipped == Unknown(db, kind, cluster, added)
          && done == Known(db, kind, cluster, added) && PlacedOn(db, db', kind, cluster, ids, done))
  }

  /** A namespaced object that cannot be added is logged and skipped; for cluster kinds it is an error. done
      lists the objects that were added, under ids. */
  method AddRows(store: Store, kind: Kind, cluster: ClusterId, added: seq<RemoteObject>)
    returns (addCnt: nat, addErrCnt: nat, skipped: seq<RemoteObject>, ghost ids: seq<RowId>, ghost done: seq<RemoteObject>)
    requires Valid(store.rows)
    modifies store`rows, store`faults, store`trail
    ensures store.faults >= old(store.faults)
    ensures addCnt + addErrCnt + |skipped| == |added|
    ensures Adds(old(store.rows), store.rows, store.clusters, kind, cluster, store.gone, added,
                 store.faults == old(store.faults), addErrCnt, skipped, ids, done)
  {
    addCnt, addErrCnt, skipped, ids, done := 0, 0, [], [], [];
    ghost var db: Db := store.rows;
    ghost var smooth := AllAddable(db, store.clusters, kind, cluster, added);
    AddsNone(db, store.clusters, kind, cluster, store.gone, added, smooth);
    for i := 0 to |added|
      invariant store.faults >= old(store.faults) && addCnt + addErrCnt + |skipped| == i
      invariant AddsUpTo(db, store.rows, store.clusters, kind, cluster, store.gone, added, i, addErrCnt, skipped, ids, done,
                         smooth && store.faults == old(store.faults))
    {
      addCnt, addErrCnt, skipped, ids, done := AddOne(
        store, kind, cluster, db, added, i, addCnt, addErrCnt, skipped, ids, done, smooth && store.faults == old(store.faults));
    }
    AddsAll(db, store.rows, store.clusters, kind, cluster, store.gone, added, addErrCnt, skipped, ids, done,
            smooth, store.faults == old(store.faults));
  }

  /** One turn of the loop. */
  method AddOne(
    store: Store, kind: Kind, cluster: ClusterId, ghost db: Db, added: seq<RemoteObject>, i: nat, addCnt: nat,
    addErrCnt: nat, skipped: seq<RemoteObject>, ghost ids: seq<RowId>, ghost done: seq<RemoteObject>, ghost smooth: bool)
    returns (addCnt': nat, addErrCnt': nat, skipped': seq<RemoteObject>, ghost ids': seq<RowId>, ghost done': seq<RemoteObject>)
    requires i < |added|
    requires AddsUpTo(db, store.rows, store.clusters, kind, cluster, store.gone, added, i, addErrCnt, skipped, ids, done, smooth)
    modifies store`rows, store`faults, store`trail
    ensures store.faults >= old(store.faults)
    ensures addCnt' + addErrCnt' + |skipped'| == addCnt + addErrCnt + |skipped| + 1
    ensures AddsUpTo(db, store.rows, store.clusters, kind, cluster, store.gone, added, i + 1, addErrCnt', skipped', ids', done',
                     smooth && store.faults == old(store.faults))
  {
    addCnt', addErrCnt', skipped', ids', done' := addCnt, addErrCnt, skipped, ids, done;
    ghost var before := store.rows;
    var id, ok := NewFromRemoteObject(store, kind, cluster, added[i]);
    AddingOne(db, before, store.rows, kind, cluster, added, added[i], store.gone);
    AddedNext(db, before, store.rows, store.clusters, kind, cluster, added, i, addErrCnt, skipped, ids, done,
              smooth, smooth && store.faults == old(store.faults), ok, id);
    if ok {
      addCnt', ids', done' := addCnt + 1, ids + [id], done + [added[i]];
    } else if kind.namespaceScope {
      skipped' := skipped + [added[i]];
    } else {
      addErrCnt' := addErrCnt + 1;
    }
  }

  ghost predicate AddsUpTo(
    db: Db, now: Db, clusters: set<ClusterId>, kind: Kind, cluster: ClusterId, gone: set<RowId>, added: seq<RemoteObject>,
    i: nat, addErrCnt: nat, skipped: seq<RemoteObject>, ids: seq<RowId>, done: seq<RemoteObject>, smooth: bool)
  {
    && Adding(db, now, kind, cluster, added, gone)
    && AddedUpTo(db, now, clusters, kind, cluster, added, i, addErrCnt, skipped, ids, done, smooth)
  }

  lemma AddsNone(
    db: Db, clusters: set<ClusterId>, kind: Kind, cluster: ClusterId, gone: set<RowId>, added: seq<RemoteObject>, smooth: bool)
    requires Valid(db) && (smooth ==> AllAddable(db, clusters, kind, cluster, added))
    ensures AddsUpTo(db, db, clusters, kind, cluster, gone, added, 0, 0, [], [], [], smooth)
  {
    AddedNone(db, clusters, kind, cluster, added, smooth);
  }

  lemma AddsAll(
    db: Db, now: Db, clusters: set<ClusterId>, kind: Kind, cluster: ClusterId, gone: set<RowId>, added: seq<RemoteObject>,
    addErrCnt: nat, skipped: seq<RemoteObject>, ids: seq<RowId>, done: seq<RemoteObject>, smooth: bool, quiet: bool)
    requires AllAddable(db, clusters, kind, cluster, added) ==> smooth
    requires AddsUpTo(
      db, now, clusters, kind, cluster, gone, added, |added|, addErrCnt, skipped, ids, done, smooth && quiet)
    ensures Adds(db, now, clusters, kind, cluster, gone, added, quiet, addErrCnt, skipped, ids, done)
  {
    AddedAll(db, now, clusters, kind, cluster, added, addErrCnt, skipped, ids, done, smooth && quiet);
  }

  lemma AddedAll(
    db: Db, now: Db, clusters: set<ClusterId>, kind: Kind, cluster: ClusterId, added: seq<RemoteObject>,
    addErrCnt: nat, skipped: seq<RemoteObject>, ids: seq<RowId>, done: seq<RemoteObject>, smooth: bool)
    requires AddedUpTo(db, now, clusters, kind, cluster, added, |added|, addErrCnt, skipped, ids, done, smooth)
    ensures smooth ==> addErrCnt == 0 && skipped == Unknown(db, kind, cluster, added) && done == Known(db, kind, cluster, added)
    ensures addErrCnt == 0 && skipped == [] ==> done == added
    ensures (addErrCnt == 0 && skipped == []) || smooth ==> PlacedOn(db, now, kind, cluster, ids, done)
  {
    assert added[..|added|] == added;
  }

  lemma AddedNone(db: Db, clusters: set<ClusterId>, kind: Kind, cluster: ClusterId, added: seq<RemoteObject>, smooth: bool)
    requires smooth ==> AllAddable(db, clusters, kind, cluster, added)
    ensures AddedUpTo(db, db, clusters, kind, cluster, added, 0, 0, [], [], [], smooth)
  {
    assert added[0..] == added && added[..0] == [];
  }

  /** What the loop knows at i: of objects without error or skip that all before it are placed, and of a
      smooth run which ones are. */
  ghost predicate AddedUpTo(
    db: Db, now: Db, clusters: set<ClusterId>, kind: Kind, cluster: ClusterId, added: seq<RemoteObject>, i: nat,
    addErrCnt: nat, skipped: seq<RemoteObject>, ids: seq<RowId>, done: seq<RemoteObject>, smooth: bool)
  {
    && i <= |added|
    && (smooth ==> addErrCnt == 0 && Smooth(db, now, clusters, kind, cluster, added, i, skipped, done))
    && (addErrCnt == 0 && skipped == [] ==> done == added[..i])
    && ((addErrCnt == 0 && skipped == []) || smooth ==> PlacedOn(db, now, kind, cluster, ids, done))
  }

  lemma AddedNext(
    db: Db, before: Db, now: Db, clusters: set<ClusterId>, kind: Kind, cluster: ClusterId, added: seq<RemoteObject>, i: nat,
    addErrCnt: nat, skipped: seq<RemoteObject>, ids: seq<RowId>, done: seq<RemoteObject>,
    smooth: bool, smooth': bool, ok: bool, id: RowId)
    requires i < |added| && (smooth' ==> smooth)
    requires AddedUpTo(db, before, clusters, kind, cluster, added, i, addErrCnt, skipped, ids, done, smooth)
    requires OnlyChanges(db, before, kind, cluster) && OnlyChanges(db, now, kind, cluster)
    requires smooth' ==> (ok <==> Addable(before, clusters, kind, cluster, added[i]))
    requires ok ==> id !in before && now == before[id := AddedRow(before, kind, cluster, added[i])]
                    && (kind.namespaceScope ==> Namespace(before, cluster, added[i].namespace).Found?)
    requires !ok ==> now == before || HalfAdded(before, now, kind, cluster, added[i])
    ensures ok ==>
      AddedUpTo(db, now, clusters, kind, cluster, added, i + 1, addErrCnt, skipped, ids + [id], done + [added[i]], smooth')
    ensures !ok && kind.namespaceScope ==>
      AddedUpTo(db, now, clusters, kind, cluster, added, i + 1, addErrCnt, skipped + [added[i]], ids, done, smooth')
    ensures !ok && !kind.namespaceScope ==>
      AddedUpTo(db, now, clusters, kind, cluster, added, i + 1, addErrCnt + 1, skipped, ids, done, smooth')
  {
    assert added[..i + 1] == added[..i] + [added[i]];
    if smooth' {
      SmoothNext(db, before, now, clusters, kind, cluster, added, i, skipped, done, ok, id);
    }
    if ok && PlacedOn(db, before, kind, cluster, ids, done) {
      AddedOneMore(db, before, kind, cluster, ids, done, added[i], id);
    }
  }

  /** The objects before i are added or, for want of a reference, skipped; the rest still can be added. */
  ghost predicate Smooth(
    db: Db, now: Db, clusters: set<ClusterId>, kind: Kind, cluster: ClusterId, added: seq<RemoteObject>, i: nat,
    skipped: seq<RemoteObject>, done: seq<RemoteObject>)
  {
    && i <= |added| && OnlyChanges(db, now, kind, cluster)
    && skipped == Unknown(db, kind, cluster, added[..i]) && done == Known(db, kind, cluster, added[..i])
    && AllAddable(now, clusters, kind, cluster, added[i..])
  }

  lemma SmoothNext(
    db: Db, before: Db, now: Db, clusters: set<ClusterId>, kind: Kind, cluster: ClusterId, added: seq<RemoteObject>, i: nat,
    skipped: seq<RemoteObject>, done: seq<RemoteObject>, ok: bool, id: RowId)
    requires i < |added| && Smooth(db, before, clusters, kind, cluster, added, i, skipped, done)
    requires ok <==> Addable(before, clusters, kind, cluster, added[i])
    requires ok ==> id !in before && now == before[id := AddedRow(before, kind, cluster, added[i])]
    requires !ok ==> now == before || HalfAdded(before, now, kind, cluster, added[i])
    requires OnlyChanges(db, now, kind, cluster)
    ensures Smooth(db, now, clusters, kind, cluster, added, i + 1,
                   if ok then skipped else skipped + [added[i]], if ok then done + [added[i]] else done)
    ensures !ok ==> kind.namespaceScope && now == before
  {
    assert added[i..][0] == added[i] && added[i..][1..] == added[i + 1..];
    assert added[..i + 1][..i] == added[..i] && added[..i + 1][i] == added[i];
    RefsKept(db, before, kind, cluster, added[i]);
    assert added[i] in added[i..];
    if ok { AddOneOfMany(before, clusters, kind, cluster, added[i..], id); }
  }

  /** Rows of the kind come on top, and nothing else changes. */
  ghost predicate Adding(db: Db, now: Db, kind: Kind, cluster: ClusterId, added: seq<RemoteObject>, gone: set<RowId>) {
    && OnlyChanges(db, now, kind, cluster) && Valid(now)
    && Moves(db, now, kind, cluster, added) && db.Keys <= now.Keys
    && forall id :: id in now && id !in db ==> id !in gone
  }

  lemma AddingOne(
    db: Db, before: Db, now: Db, kind: Kind, cluster: ClusterId, added: seq<RemoteObject>, o: RemoteObject, gone: set<RowId>)
    requires Adding(db, before, kind, cluster, added, gone) && o in added && Valid(now)
    requires OnlyChanges(before, now, kind, cluster) && Moves(before, now, kind, cluster, [o]) && before.Keys <= now.Keys
    requires forall id :: id in now && id !in before ==> id !in gone
    ensures Adding(db, now, kind, cluster, added, gone)
  {
    OnlyChangesThen(db, before, now, kind, cluster);
    MovesMore(before, now, kind, cluster, [o], added);
    MovesThen(db, before, now, kind, cluster, added);
  }

  /** The objects have rows under the ids, and nothing else came. */
  ghost predicate PlacedOn(db: Db, now: Db, kind: Kind, cluster: ClusterId, ids: seq<RowId>, done: seq<RemoteObject>) {
    Placed(db, now, kind, cluster, ids, done) && Extends(db, now, ids)
  }

  lemma AddedOneMore(
    db: Db, before: Db, kind: Kind, cluster: ClusterId, ids: seq<RowId>, done: seq<RemoteObject>, o: RemoteObject, id: RowId)
    requires PlacedOn(db, before, kind, cluster, ids, done)
    requires OnlyChanges(db, before, kind, cluster) && id !in before
    requires kind.namespaceScope ==> Namespace(before, cluster, o.namespace).Found?
    ensures PlacedOn(db, before[id := AddedRow(before, kind, cluster, o)], kind, cluster, ids + [id], done + [o])
  {
    var row := AddedRow(before, kind, cluster, o);
    TargetKept(db, before, {}, kind, cluster, o);
    PlacedOneMore(db, before, before[id := row], kind, cluster, ids + [id], done + [o], |ids|, row);
  }

  // ----- the parts of the diff -----

  function LocalKey(l: Loaded): string { l.row.externalId }

  function RemoteKey(o: RemoteObject): string { o.uid }

  ghost predicate Diff(
    objs: seq<Loaded>, remote: seq<RemoteObject>,
    removed: seq<Loaded>, commonDB: seq<Loaded>, commonExt: seq<RemoteObject>, added: seq<RemoteObject>)
  {
    Compare.IsDiff(objs, LocalKey, remote, RemoteKey, removed, commonDB, commonExt, added)
  }

  lemma DiffLocal(
    objs: seq<Loaded>, remote: seq<RemoteObject>,
    removed: seq<Loaded>, commonDB: seq<Loaded>, commonExt: seq<RemoteObject>, added: seq<RemoteObject>)
    requires Diff(objs, remote, removed, commonDB, commonExt, added) && DistinctIds(objs)
    ensures DistinctIds(removed) && DistinctIds(commonDB) && IdSet(removed) !! IdSet(commonDB)
    ensures forall l :: l in objs <==> l in removed || l in commonDB
    ensures |commonDB| == |commonExt|
    ensures forall i :: 0 <= i < |commonDB| ==> commonDB[i].row.externalId == commonExt[i].uid
  {
    assert |Compare.Map(LocalKey, commonDB)| == |Compare.Map(RemoteKey, commonExt)|;
    forall i | 0 <= i < |commonDB| ensures commonDB[i].row.externalId == commonExt[i].uid {
      assert Compare.Map(LocalKey, commonDB)[i] == Compare.Map(RemoteKey, commonExt)[i];
    }
    var all := removed + commonDB;
    assert multiset(all) == multiset(objs);
    Compare.PairwisePermutation((l: Loaded, m: Loaded) => l.id != m.id, objs, all);
    forall l | true ensures l in objs <==> l in removed || l in commonDB {
      assert l in objs <==> l in multiset(all);
    }
    assert forall i :: 0 <= i < |removed| ==> removed[i] == all[i];
    assert forall i :: 0 <= i < |commonDB| ==> commonDB[i] == all[|removed| + i];
  }

  lemma DiffRemote(
    kind: Kind, objs: seq<Loaded>, remote: seq<RemoteObject>,
    removed: seq<Loaded>, commonDB: seq<Loaded>, commonExt: seq<RemoteObject>, added: seq<RemoteObject>)
    requires Diff(objs, remote, removed, commonDB, commonExt, added)
    ensures forall o :: o in remote <==> o in commonExt || o in added
    ensures DistinctUids(remote) ==> DistinctUids(commonExt + added)
    ensures DistinctNames(kind, remote) ==> DistinctNames(kind, commonExt + added)
  {
    var all := commonExt + added;
    assert multiset(all) == multiset(remote);
    forall o | true ensures o in remote <==> o in commonExt || o in added {
      assert o in remote <==> o in multiset(all);
    }
    if DistinctUids(remote) {
      Compare.PairwisePermutation((o: RemoteObject, p: RemoteObject) => o.uid != p.uid, remote, all);
    }
    if DistinctNames(kind, remote) {
      Compare.PairwisePermutation((o: RemoteObject, p: RemoteObject) => !SameName(kind, o, p), remote, all);
    }
  }

  lemma {:induction false} KeyAbsent(remote: seq<RemoteObject>, k: string)
    requires forall i :: 0 <= i < |remote| ==> remote[i].uid != k
    ensures Compare.Count(RemoteKey, remote, k) == 0
  {
    if remote != [] { KeyAbsent(remote[1..], k); }
  }

  lemma {:induction false} KeyOnce(remote: seq<RemoteObject>, k: string)
    requires DistinctUids(remote)
    ensures Compare.Count(RemoteKey, remote, k) <= 1
  {
    if remote != [] {
      var rest := remote[1..];
      assert forall i :: 0 <= i < |rest| ==> rest[i] == remote[i + 1];
      if remote[0].uid == k { KeyAbsent(rest, k); } else { KeyOnce(rest, k); }
    }
  }

  lemma {:induction false} CountsMember<T>(key: T -> string, s: seq<T>, x: T)
    requires x in s
    ensures Compare.Count(key, s, key(x)) >= 1
  {
    if s[0] != x { CountsMember(key, s[1..], x); }
  }

  /** No row of the kind has an added object's key. */
  lemma AddedAreNew(
    db: Db, kind: Kind, cluster: ClusterId, objs: seq<Loaded>, remote: seq<RemoteObject>,
    removed: seq<Loaded>, commonDB: seq<Loaded>, commonExt: seq<RemoteObject>, added: seq<RemoteObject>)
    requires Loads(db, kind, cluster, objs) && Diff(objs, remote, removed, commonDB, commonExt, added)
    requires DistinctUids(remote)
    ensures forall o :: o in added ==> !HasKey(db, kind, cluster, o)
  {
    forall o, id | o in added && id in Ids(db, kind, cluster) ensures db[id].externalId != o.uid {
      var l := Loaded(id, db[id]);
      assert l in objs;
      Compare.DiffCounts(objs, LocalKey, remote, RemoteKey, removed, commonDB, commonExt, added, o.uid);
      KeyOnce(remote, o.uid);
      CountsMember(RemoteKey, added, o);
      CountsMember(LocalKey, objs, l);
    }
  }

  /** Kept rows and added rows together mirror the listing. */
  lemma PlacedMirrors(
    db: Db, db': Db, kind: Kind, cluster: ClusterId, remote: seq<RemoteObject>, ids: seq<RowId>, objs: seq<RemoteObject>)
    requires Placed(db, db', kind, cluster, ids, objs)
    requires forall id :: id in Ids(db', kind, cluster) ==> id in ids
    requires forall o :: o in remote <==> o in objs
    requires DistinctUids(objs)
    requires kind.namespaceScope ==> SameRows(db, db', NAMESPACE, cluster)
    ensures Mirrors(db', kind, cluster, remote)
  {
    forall o | o in remote ensures HasRow(db', kind, cluster, o) {
      TargetKept(db, db', {}, kind, cluster, o);
      var i :| 0 <= i < |objs| && objs[i] == o;
      assert ids[i] in db' && Plain(db'[ids[i]]) == Target(db', kind, cluster, o);
    }
    forall id | id in db' && Of(db'[id], kind, cluster) ensures IsListed(db', kind, cluster, id, remote) {
      assert id in Ids(db', kind, cluster);
      var i :| 0 <= i < |ids| && ids[i] == id;
      TargetKept(db, db', {}, kind, cluster, objs[i]);
      assert objs[i] in remote && Plain(db'[id]) == Target(db', kind, cluster, objs[i]);
    }
    forall id, id' | id in Ids(db', kind, cluster) && id' in Ids(db', kind, cluster)
                     && db'[id].externalId == db'[id'].externalId
      ensures id == id'
    {
      var i :| 0 <= i < |ids| && ids[i] == id;
      var j :| 0 <= j < |ids| && ids[j] == id';
      assert objs[i].uid == objs[j].uid;
      assert i == j;
    }
  }

  ghost predicate NoFailRows(db: Db, kind: Kind, cluster: ClusterId) {
    forall id :: id in Ids(db, kind, cluster) ==> !IsFailStatus(db[id].status)
  }

  /** A row of the kind has the object's key, so the object is not added. */
  ghost predicate HasKey(db: Db, kind: Kind, cluster: ClusterId, o: RemoteObject) {
    exists id :: id in Ids(db, kind, cluster) && db[id].externalId == o.uid
  }

  /** What a listing has to offer for its updates and adds to be accepted, apart from the rows they refer to. */
  ghost predicate Agreeable(
    db: Db, clusters: set<ClusterId>, kind: Kind, cluster: ClusterId, objs: seq<RemoteObject>)
  {
    && cluster in clusters && DistinctUids(objs) && DistinctNames(kind, objs)
    && (forall o :: o in objs ==> Versions.IsVersion(o.version))
    && (forall id, o | id in Ids(db, kind, cluster) && o in objs ::
          db[id].externalId == o.uid ==> Versions.Follows(db[id].version, o.version))
  }

  lemma AgreeableReordered(
    db: Db, clusters: set<ClusterId>, kind: Kind, cluster: ClusterId, objs: seq<RemoteObject>, all: seq<RemoteObject>)
    requires Agreeable(db, clusters, kind, cluster, objs)
    requires DistinctUids(all) && DistinctNames(kind, all) && forall o :: o in all ==> o in objs
    ensures Agreeable(db, clusters, kind, cluster, all)
  {
  }

  /** The removed rows go first: the kept rows are then the pairs' rows. */
  lemma RemovedFirst(
    db: Db, kind: Kind, cluster: ClusterId, objs: seq<Loaded>, remote: seq<RemoteObject>,
    removed: seq<Loaded>, commonDB: seq<Loaded>, commonExt: seq<RemoteObject>, added: seq<RemoteObject>)
    requires Loads(db, kind, cluster, objs) && Diff(objs, remote, removed, commonDB, commonExt, added)
    ensures |commonDB| == |commonExt|
    ensures forall l :: l in commonDB ==> IsLoaded(db - IdSet(removed), kind, cluster, l)
    ensures Ids(db - IdSet(removed), kind, cluster) == IdSet(commonDB)
    ensures OnlyChanges(db, db - IdSet(removed), kind, cluster)
  {
    DiffLocal(objs, remote, removed, commonDB, commonExt, added);
    var kept := db - IdSet(removed);
    forall l | l in commonDB ensures IsLoaded(kept, kind, cluster, l) {
      assert l in objs && l.id in IdSet(commonDB);
    }
    forall id | id in Ids(kept, kind, cluster) ensures id in IdSet(commonDB) {
      var l := Loaded(id, db[id]);
      assert l in objs;
      assert l in removed ==> l.id in IdSet(removed);
    }
  }

  lemma KeptUpdatable(
    db: Db, kept: Db, clusters: set<ClusterId>, kind: Kind, cluster: ClusterId, objs: seq<Loaded>, remote: seq<RemoteObject>,
    removed: seq<Loaded>, commonDB: seq<Loaded>, commonExt: seq<RemoteObject>, added: seq<RemoteObject>)
    requires Loads(db, kind, cluster, objs) && Diff(objs, remote, removed, commonDB, commonExt, added)
    requires Agreeable(db, clusters, kind, cluster, remote) && |commonDB| == |commonExt|
    requires OnlyChanges(db, kept, kind, cluster)
    requires forall o :: o in commonExt ==> NamespaceKnown(kept, kind, cluster, o)
    ensures Updatable(kept, clusters, commonDB, commonExt)
  {
    DiffLocal(objs, remote, removed, commonDB, commonExt, added);
    DiffRemote(kind, objs, remote, removed, commonDB, commonExt, added);
    forall i | 0 <= i < |commonDB| ensures Updated(kept, clusters, commonDB[i].row, commonExt[i]).Some? {
      var l, o := commonDB[i], commonExt[i];
      assert l in objs && o in remote && l.id in Ids(db, kind, cluster);
      Versions.FollowsIsAccepted(l.row.version, o.version);
    }
  }

  lemma NamespacesKept(db: Db, db': Db, kind: Kind, cluster: ClusterId)
    requires OnlyChanges(db, db', kind, cluster)
    ensures kind.namespaceScope ==> SameRows(db, db', NAMESPACE, cluster)
  {
  }

  lemma UpdatedRowsListed(
    kept: Db, updated: Db, kind: Kind, cluster: ClusterId, ids: seq<RowId>, commonExt: seq<RemoteObject>)
    requires OnlyChanges(kept, updated, kind, cluster)
    requires Placed(kept, updated, kind, cluster, ids, commonExt)
    requires forall id :: id in Ids(updated, kind, cluster) ==> id in ids
    ensures forall id :: id in Ids(updated, kind, cluster) ==> IsListed(updated, kind, cluster, id, commonExt)
  {
    NamespacesKept(kept, updated, kind, cluster);
    forall id | id in Ids(updated, kind, cluster) ensures IsListed(updated, kind, cluster, id, commonExt) {
      var i :| 0 <= i < |ids| && ids[i] == id;
      TargetKept(kept, updated, {}, kind, cluster, commonExt[i]);
      assert commonExt[i] in commonExt;
    }
  }

  lemma NamesApart(kind: Kind, commonExt: seq<RemoteObject>, added: seq<RemoteObject>)
    requires DistinctNames(kind, commonExt + added)
    ensures DistinctNames(kind, added)
    ensures forall o, p :: o in added && p in commonExt ==> !SameName(kind, o, p)
  {
    var all := commonExt + added;
    forall i, j | 0 <= i < j < |added| ensures !SameName(kind, added[i], added[j]) {
      assert added[i] == all[|commonExt| + i] && added[j] == all[|commonExt| + j];
    }
    forall i, j | 0 <= i < |commonExt| && 0 <= j < |added| ensures !SameName(kind, added[j], commonExt[i]) {
      assert all[i] == commonExt[i] && all[|commonExt| + j] == added[j];
    }
  }

  /** No spurious duplicate refusal: once removed rows are gone and kept rows carry their remote
      names, no added object finds its name taken, even one recreated under a new UID. */
  lemma AddedNamesFree(
    db: Db, kept: Db, updated: Db, clusters: set<ClusterId>, kind: Kind, cluster: ClusterId,
    ids: seq<RowId>, commonExt: seq<RemoteObject>, added: seq<RemoteObject>)
    requires Agreeable(db, clusters, kind, cluster, commonExt + added)
    requires OnlyChanges(db, kept, kind, cluster) && OnlyChanges(kept, updated, kind, cluster)
    requires Placed(kept, updated, kind, cluster, ids, commonExt)
    requires forall id :: id in Ids(updated, kind, cluster) ==> id in ids
    ensures AllAddable(updated, clusters, kind, cluster, added)
  {
    NamesApart(kind, commonExt, added);
    UpdatedRowsListed(kept, updated, kind, cluster, ids, commonExt);
    forall o | o in added && RefsKnown(updated, kind, cluster, o) ensures Addable(updated, clusters, kind, cluster, o) {
      assert o in commonExt + added;
      Versions.RejectedIffOlder("", o.version);
      OthersLeaveNameFree(updated, kind, cluster, o, commonExt);
    }
  }

  /** Kept rows and new rows side by side. */
  lemma PlacedJoin(
    kept: Db, updated: Db, final: Db, kind: Kind, cluster: ClusterId,
    ids: seq<RowId>, commonExt: seq<RemoteObject>, newIds: seq<RowId>, added: seq<RemoteObject>)
    requires OnlyChanges(kept, updated, kind, cluster)
    requires Placed(kept, updated, kind, cluster, ids, commonExt)
    requires Placed(updated, final, kind, cluster, newIds, added) && Extends(updated, final, newIds)
    ensures Placed(kept, final, kind, cluster, ids + newIds, commonExt + added)
  {
    NamespacesKept(kept, updated, kind, cluster);
    var allIds, all := ids + newIds, commonExt + added;
    forall i | 0 <= i < |allIds|
      ensures allIds[i] in final && Plain(final[allIds[i]]) == Target(kept, kind, cluster, all[i])
      ensures kind.namespaceScope ==> Namespace(kept, cluster, all[i].namespace).Found?
    {
      TargetKept(kept, updated, {}, kind, cluster, all[i]);
    }
  }

  lemma RemovedOnly(
    db: Db, kept: Db, kind: Kind, cluster: ClusterId, objs: seq<Loaded>, removed: seq<Loaded>, commonDB: seq<Loaded>)
    requires Loads(db, kind, cluster, objs) && Valid(db)
    requires forall l :: l in objs <==> l in removed || l in commonDB
    requires IdSet(removed) !! IdSet(commonDB)
    requires kept.Keys <= db.Keys && forall id :: id in kept ==> kept[id] == db[id]
    requires forall id :: id in db && id !in kept ==> id in IdSet(removed)
    ensures OnlyChanges(db, kept, kind, cluster) && Valid(kept)
    ensures forall l :: l in commonDB ==> IsLoaded(kept, kind, cluster, l)
  {
    forall id | id in IdSet(removed) ensures id in Ids(db, kind, cluster) {
      var l :| l in removed && l.id == id;
      assert IsLoaded(db, kind, cluster, l);
    }
    forall l | l in commonDB ensures IsLoaded(kept, kind, cluster, l) {
      assert IsLoaded(db, kind, cluster, l) && l.id in IdSet(commonDB);
    }
  }

  lemma RemovedAreLoaded(db: Db, kind: Kind, cluster: ClusterId, objs: seq<Loaded>, removed: seq<Loaded>)
    requires Loads(db, kind, cluster, objs) && forall l :: l in removed ==> l in objs
    ensures NoFailRows(db, kind, cluster) ==> forall l :: l in removed ==> !IsFailStatus(l.row.status)
  {
    forall l | l in removed ensures l in objs && l.id in Ids(db, kind, cluster) && db[l.id] == l.row {}
  }

  lemma SettledMirrors(
    kept: Db, updated: Db, final: Db, kind: Kind, cluster: ClusterId, remote: seq<RemoteObject>,
    commonDB: seq<Loaded>, commonExt: seq<RemoteObject>, newIds: seq<RowId>, added: seq<RemoteObject>)
    requires Ids(kept, kind, cluster) == IdSet(commonDB)
    requires OnlyChanges(kept, updated, kind, cluster) && updated.Keys == kept.Keys
    requires OnlyChanges(updated, final, kind, cluster)
    requires Placed(kept, updated, kind, cluster, IdsOf(commonDB), commonExt)
    requires Placed(updated, final, kind, cluster, newIds, added) && Extends(updated, final, newIds)
    requires forall o :: o in remote <==> o in commonExt || o in added
    requires DistinctUids(commonExt + added)
    ensures Mirrors(final, kind, cluster, remote)
  {
    var ids := IdsOf(commonDB);
    KeptIds(kept, updated, kind, cluster, commonDB);
    NamespacesKept(kept, updated, kind, cluster);
    NamespacesKept(updated, final, kind, cluster);
    PlacedJoin(kept, updated, final, kind, cluster, ids, commonExt, newIds, added);
    forall id | id in Ids(final, kind, cluster) ensures id in ids + newIds {
      if id in updated { assert id in Ids(updated, kind, cluster); }
    }
    PlacedMirrors(kept, final, kind, cluster, remote, ids + newIds, commonExt + added);
  }

  lemma KeptIds(kept: Db, updated: Db, kind: Kind, cluster: ClusterId, commonDB: seq<Loaded>)
    requires Ids(kept, kind, cluster) == IdSet(commonDB)
    requires OnlyChanges(kept, updated, kind, cluster) && updated.Keys == kept.Keys
    ensures forall id :: id in Ids(updated, kind, cluster) ==> id in IdsOf(commonDB)
  {
    forall id | id in Ids(updated, kind, cluster) ensures id in IdsOf(commonDB) {
      assert id in Ids(kept, kind, cluster);
      var l :| l in commonDB && l.id == id;
      var i :| 0 <= i < |commonDB| && commonDB[i] == l;
      assert IdsOf(commonDB)[i] == id;
    }
  }

  /** For an agreeable listing the updates go through whose namespaces are there, and if all do, then the
      adds go through whose references are there. */
  lemma NothingElseRefused(
    db: Db, kept: Db, updated: Db, clusters: set<ClusterId>, kind: Kind, cluster: ClusterId,
    objs: seq<Loaded>, remote: seq<RemoteObject>,
    removed: seq<Loaded>, commonDB: seq<Loaded>, commonExt: seq<RemoteObject>, added: seq<RemoteObject>)
    requires Loads(db, kind, cluster, objs) && Diff(objs, remote, removed, commonDB, commonExt, added)
    requires Agreeable(db, clusters, kind, cluster, remote) && |commonDB| == |commonExt|
    requires OnlyChanges(db, kept, kind, cluster) && Ids(kept, kind, cluster) == IdSet(commonDB)
    requires OnlyChanges(kept, updated, kind, cluster) && updated.Keys == kept.Keys
    ensures (forall o :: o in commonExt ==> NamespaceKnown(kept, kind, cluster, o)) ==>
      Updatable(kept, clusters, commonDB, commonExt)
    ensures Placed(kept, updated, kind, cluster, IdsOf(commonDB), commonExt) ==>
      AllAddable(updated, clusters, kind, cluster, added)
  {
    if forall o :: o in commonExt ==> NamespaceKnown(kept, kind, cluster, o) {
      KeptUpdatable(db, kept, clusters, kind, cluster, objs, remote, removed, commonDB, commonExt, added);
    }
    if Placed(kept, updated, kind, cluster, IdsOf(commonDB), commonExt) {
      DiffRemote(kind, objs, remote, removed, commonDB, commonExt, added);
      KeptIds(kept, updated, kind, cluster, commonDB);
      AgreeableReordered(db, clusters, kind, cluster, remote, commonExt + added);
      AddedNamesFree(db, kept, updated, clusters, kind, cluster, IdsOf(commonDB), commonExt, added);
    }
  }

  /** The pairs are the objects with a row; the added ones have none. */
  lemma KeysOfParts(
    db: Db, kind: Kind, cluster: ClusterId, objs: seq<Loaded>, remote: seq<RemoteObject>,
    removed: seq<Loaded>, commonDB: seq<Loaded>, commonExt: seq<RemoteObject>, added: seq<RemoteObject>)
    requires Loads(db, kind, cluster, objs) && Diff(objs, remote, removed, commonDB, commonExt, added)
    requires DistinctUids(remote)
    ensures forall o :: o in commonExt <==> o in remote && HasKey(db, kind, cluster, o)
    ensures forall o :: o in added <==> o in remote && !HasKey(db, kind, cluster, o)
    ensures DistinctUids(added)
  {
    var all := commonExt + added;
    assert forall i :: 0 <= i < |added| ==> added[i] == all[|commonExt| + i];
    DiffLocal(objs, remote, removed, commonDB, commonExt, added);
    DiffRemote(kind, objs, remote, removed, commonDB, commonExt, added);
    AddedAreNew(db, kind, cluster, objs, remote, removed, commonDB, commonExt, added);
    forall o | o in commonExt ensures HasKey(db, kind, cluster, o) {
      var i :| 0 <= i < |commonExt| && commonExt[i] == o;
      assert commonDB[i] in objs && commonDB[i].id in Ids(db, kind, cluster);
    }
  }

  /** The three parts of a sync move rows as one. */
  lemma PartsMove(
    db: Db, gone: set<RowId>, kept: Db, gone': set<RowId>, updated: Db, final: Db, kind: Kind, cluster: ClusterId,
    remote: seq<RemoteObject>, added: seq<RemoteObject>)
    requires IdsMove(db, gone, kept, gone') && OnlyChanges(db, kept, kind, cluster)
    requires forall id :: id in kept ==> id in db && kept[id] == db[id]
    requires OnlyChanges(kept, updated, kind, cluster) && kept.Keys == updated.Keys
    requires Moves(kept, updated, kind, cluster, [])
    requires Adding(updated, final, kind, cluster, added, gone') && Valid(updated)
    requires forall o :: o in added ==> o in remote
    ensures Moves(db, final, kind, cluster, remote) && RefsMove(db, final, kind, cluster) && IdsMove(db, gone, final, gone')
  {
    MovesMore(kept, updated, kind, cluster, [], remote);
    MovesMore(updated, final, kind, cluster, added, remote);
    assert Moves(db, kept, kind, cluster, remote);
    MovesThen(db, kept, updated, kind, cluster, remote);
    OnlyChangesThen(db, kept, updated, kind, cluster);
    MovesThen(db, updated, final, kind, cluster, remote);
    MovesRefs(db, final, kind, cluster, remote);
  }

  // ----- a whole kind -----

  datatype SyncResult = SyncResult(
    addCnt: nat, addErrCnt: nat, updateCnt: nat, updateErrCnt: nat, delCnt: nat, delErrCnt: nat, errors: nat)
  {
    predicate IsError() { errors > 0 }
  }

  const FAILED := SyncResult(0, 0, 0, 0, 0, 0, 1)

  function Listed(listing: Option<seq<RemoteObject>>): seq<RemoteObject> {
    if listing.Some? then listing.value else []
  }

  /** When no call fails, missing references alone make errors and skips. */
  lemma PartsOutcome(
    db: Db, kept: Db, updated: Db, clusters: set<ClusterId>, kind: Kind, cluster: ClusterId, remote: seq<RemoteObject>,
    commonExt: seq<RemoteObject>, added: seq<RemoteObject>, updateErrCnt: nat, addErrCnt: nat, skipped: seq<RemoteObject>)
    requires OnlyChanges(db, kept, kind, cluster) && OnlyChanges(db, updated, kind, cluster) && DistinctUids(added)
    requires forall o :: o in commonExt <==> o in remote && HasKey(db, kind, cluster, o)
    requires forall o :: o in added <==> o in remote && !HasKey(db, kind, cluster, o)
    requires updateErrCnt == 0 <==> forall o :: o in commonExt ==> NamespaceKnown(kept, kind, cluster, o)
    requires updateErrCnt == 0 ==> AllAddable(updated, clusters, kind, cluster, added)
    requires AllAddable(updated, clusters, kind, cluster, added) ==>
      addErrCnt == 0 && skipped == Unknown(updated, kind, cluster, added)
    ensures updateErrCnt + addErrCnt > 0 <==>
      exists o :: o in remote && HasKey(db, kind, cluster, o) && !NamespaceKnown(db, kind, cluster, o)
    ensures updateErrCnt + addErrCnt == 0 ==> Skips(db, kind, cluster, remote, skipped)
  {
    forall o | true
      ensures NamespaceKnown(db, kind, cluster, o) == NamespaceKnown(kept, kind, cluster, o)
      ensures RefsKnown(db, kind, cluster, o) == RefsKnown(updated, kind, cluster, o)
    {
      RefsKept(db, kept, kind, cluster, o);
      RefsKept(db, updated, kind, cluster, o);
    }
    UnknownMembers(updated, kind, cluster, added);
  }

  /** What the sync of one kind promises: only its rows in the cluster move; without error and skips they
      mirror the listing, and rows that are not in it go unless their status is a failed one; and an
      agreeable listing, when no call fails, has exactly the errors and skips that missing references make,
      and apart from the skips it is mirrored. */
  ghost predicate Synced(
    db: Db, gone: set<RowId>, db': Db, gone': set<RowId>, clusters: set<ClusterId>, kind: Kind, cluster: ClusterId,
    remote: seq<RemoteObject>, quiet: bool, error: bool, skipped: seq<RemoteObject>)
  {
    && OnlyChanges(db, db', kind, cluster) && Valid(db')
    && Moves(db, db', kind, cluster, remote) && RefsMove(db, db', kind, cluster) && IdsMove(db, gone, db', gone')
    && (!error && skipped == [] && NoFailRows(db, kind, cluster) && DistinctUids(remote) ==>
          Mirrors(db', kind, cluster, remote))
    && (!error ==> UnlistedGone(db, db', kind, cluster, remote))
    && (quiet && NoFailRows(db, kind, cluster) && Agreeable(db, clusters, kind, cluster, remote) ==>
          && (error <==> exists o :: o in remote && HasKey(db, kind, cluster, o) && !NamespaceKnown(db, kind, cluster, o))
          && (!error ==> Skips(db, kind, cluster, remote, skipped) && MirrorsBut(db', kind, cluster, remote, skipped)))
  }

  ghost predicate UnlistedGone(db: Db, db': Db, kind: Kind, cluster: ClusterId, remote: seq<RemoteObject>) {
    forall id :: id in Ids(db, kind, cluster) && !IsKey(remote, db[id].externalId) ==>
                   (id in db' <==> IsFailStatus(db[id].status))
  }

  ghost predicate IsKey(remote: seq<RemoteObject>, uid: string) {
    exists o :: o in remote && o.uid == uid
  }

  /** The objects without a row of which a reference is missing, each once. */
  ghost predicate Skips(db: Db, kind: Kind, cluster: ClusterId, remote: seq<RemoteObject>, skipped: seq<RemoteObject>) {
    && DistinctUids(skipped)
    && forall o :: o in skipped <==>
         o in remote && !HasKey(db, kind, cluster, o) && !RefsKnown(db, kind, cluster, o)
  }

  /** The node of a pod's row is written when the row is made and never again: a row that was there keeps what
      it had, and a new one names its node exactly when the pod was scheduled by then. */
  lemma PodNodes(db: Db, db': Db, cluster: ClusterId, remote: seq<RemoteObject>, id: RowId, o: RemoteObject)
    requires Moves(db, db', POD, cluster, remote) && DistinctUids(remote)
    requires id in Ids(db', POD, cluster) && o in remote && o.uid == db'[id].externalId
    ensures id in db ==> db'[id].nodeId == db[id].nodeId
    ensures id !in db ==> (db'[id].nodeId.Some? <==> o.node != "")
    ensures id !in db && o.node != "" ==>
      Refers(db', db'[id].nodeId, NODE, cluster) && db'[db'[id].nodeId.value].name == o.node
  {
    if id !in db {
      var p :| p in remote && db'[id].externalId == p.uid && NodeKnown(db', POD, cluster, p)
               && db'[id].nodeId == NodeIdOf(db', POD, cluster, p);
      var i :| 0 <= i < |remote| && remote[i] == o;
      var j :| 0 <= j < |remote| && remote[j] == p;
      assert i == j;
    }
  }

  /** A first sync, into tables without rows of the kind: when no call fails, every object whose references
      are there gets its row, with its key, name, version and status. */
  lemma FirstSyncAdds(
    db: Db, gone: set<RowId>, db': Db, gone': set<RowId>, clusters: set<ClusterId>, kind: Kind, cluster: ClusterId,
    remote: seq<RemoteObject>, error: bool, skipped: seq<RemoteObject>, o: RemoteObject)
    requires Synced(db, gone, db', gone', clusters, kind, cluster, remote, true, error, skipped)
    requires forall id :: id in db ==> !(db[id].kind == kind && db[id].clusterId == cluster)
    requires cluster in clusters && forall p :: p in remote ==> Versions.IsVersion(p.version)
    requires forall i, j | 0 <= i < j < |remote| ::
      && remote[i].uid != remote[j].uid
      && (remote[i].name == remote[j].name ==> kind.namespaceScope && remote[i].namespace != remote[j].namespace)
    requires o in remote
    requires kind.namespaceScope ==> exists ns :: OneNamed(db, NAMESPACE, cluster, o.namespace, ns)
    requires kind == POD && o.node != "" ==> exists node :: OneNamed(db, NODE, cluster, o.node, node)
    ensures !error
    ensures exists id :: id in db' && db'[id].kind == kind && db'[id].clusterId == cluster && db'[id].externalId == o.uid
                         && db'[id].name == o.name && db'[id].version == o.version && db'[id].status == o.status
  {
    assert Ids(db, kind, cluster) == {};
    FoundIff(db, NAMESPACE, cluster, o.namespace);
    FoundIff(db, NODE, cluster, o.node);
    assert RefsKnown(db, kind, cluster, o) && o !in skipped;
    assert HasRow(db', kind, cluster, o);
    var id :| id in db' && Plain(db'[id]) == Target(db', kind, cluster, o);
  }

  lemma SkipsNone(db: Db, kind: Kind, cluster: ClusterId, remote: seq<RemoteObject>, skipped: seq<RemoteObject>)
    requires Skips(db, kind, cluster, remote, skipped)
    ensures skipped == [] <==>
      forall o :: o in remote ==> HasKey(db, kind, cluster, o) || RefsKnown(db, kind, cluster, o)
  {
    if skipped != [] { assert skipped[0] in skipped; }
  }

  /** The listing compared with the rows, and the three parts applied in order. */
  method ApplyDiff(store: Store, kind: Kind, cluster: ClusterId, dbObjs: seq<Loaded>, remote: seq<RemoteObject>)
    returns (result: SyncResult, skipped: seq<RemoteObject>)
    requires Valid(store.rows) && Loads(store.rows, kind, cluster, dbObjs)
    modifies store`rows, store`gone, store`faults, store`trail
    ensures store.faults >= old(store.faults)
    ensures Synced(old(store.rows), old(store.gone), store.rows, store.gone, store.clusters, kind, cluster, remote,
                   store.faults == old(store.faults), result.IsError(), skipped)
    ensures !result.IsError() ==>
      && result.addCnt + |skipped| + result.updateCnt == |remote| && result.updateCnt + result.delCnt == |dbObjs|
  {
    ghost var db: Db, gone := store.rows, store.gone;
    var removed, commonDB, commonExt, added := Compare.CompareSets(dbObjs, LocalKey, remote, RemoteKey);
    BeforeRemoving(db, kind, cluster, dbObjs, remote, removed, commonDB, commonExt, added);
    PartsSizes(dbObjs, remote, removed, commonDB, commonExt, added);

    ghost var faults := store.faults;
    var delCnt, delErrCnt := RemoveRows(store, removed);
    ghost var kept: Db := store.rows;
    BeforeUpdating(db, gone, kept, store.gone, kind, cluster, dbObjs, remote, removed, commonDB, commonExt, added, delErrCnt);
    ghost var quietRemoves := store.faults == faults;

    faults := store.faults;
    var updateCnt, updateErrCnt := UpdateRows(store, kind, cluster, commonDB, commonExt);
    ghost var updated: Db := store.rows;
    ghost var quietUpdates := store.faults == faults;

    faults := store.faults;
    var addCnt, addErrCnt;
    ghost var newIds, done;
    addCnt, addErrCnt, skipped, newIds, done := AddRows(store, kind, cluster, added);
    ghost var course := Course(
      db, gone, kept, updated, store.rows, store.gone, dbObjs, remote, removed, commonDB, commonExt, added,
      delErrCnt, updateErrCnt, addErrCnt, skipped, newIds, done, quietRemoves, quietUpdates, store.faults == faults);
    CourseMoves(course, store.clusters, kind, cluster);
    CourseMirrors(course, store.clusters, kind, cluster);
    CourseUnlisted(course, store.clusters, kind, cluster);
    CourseQuiet(course, store.clusters, kind, cluster);
    result := SyncResult(addCnt, addErrCnt, updateCnt, updateErrCnt, delCnt, delErrCnt, delErrCnt + updateErrCnt + addErrCnt);
  }

  lemma BeforeRemoving(
    db: Db, kind: Kind, cluster: ClusterId, objs: seq<Loaded>, remote: seq<RemoteObject>,
    removed: seq<Loaded>, commonDB: seq<Loaded>, commonExt: seq<RemoteObject>, added: seq<RemoteObject>)
    requires Loads(db, kind, cluster, objs) && Diff(objs, remote, removed, commonDB, commonExt, added)
    ensures DistinctIds(removed) && forall l :: l in removed ==> l.id in db
  {
    DiffLocal(objs, remote, removed, commonDB, commonExt, added);
    forall l | l in removed ensures l.id in db { assert l in objs; }
  }

  lemma BeforeUpdating(
    db: Db, gone: set<RowId>, kept: Db, gone': set<RowId>, kind: Kind, cluster: ClusterId, objs: seq<Loaded>, remote: seq<RemoteObject>,
    removed: seq<Loaded>, commonDB: seq<Loaded>, commonExt: seq<RemoteObject>, added: seq<RemoteObject>, errors: nat)
    requires Loads(db, kind, cluster, objs) && Diff(objs, remote, removed, commonDB, commonExt, added) && Valid(db)
    requires Removes(db, gone, kept, gone', removed, errors)
    ensures |commonDB| == |commonExt| && DistinctIds(commonDB) && Valid(kept) && OnlyChanges(db, kept, kind, cluster)
    ensures forall l :: l in commonDB ==> IsLoaded(kept, kind, cluster, l)
    ensures forall i :: 0 <= i < |commonDB| ==> commonDB[i].row.externalId == commonExt[i].uid
  {
    DiffLocal(objs, remote, removed, commonDB, commonExt, added);
    RemovedOnly(db, kept, kind, cluster, objs, removed, commonDB);
  }

  /** The sync of one kind from its diff on: the tables as its parts left them, the four parts of the diff,
      what went wrong, and during which parts no call failed. */
  datatype Course = Course(
    db: Db, gone: set<RowId>, kept: Db, updated: Db, final: Db, gone': set<RowId>,
    objs: seq<Loaded>, remote: seq<RemoteObject>,
    removed: seq<Loaded>, commonDB: seq<Loaded>, commonExt: seq<RemoteObject>, added: seq<RemoteObject>,
    delErrors: nat, updateErrors: nat, addErrors: nat, skipped: seq<RemoteObject>,
    newIds: seq<RowId>, done: seq<RemoteObject>, quietRemoves: bool, quietUpdates: bool, quietAdds: bool)
  {
    predicate IsError() { delErrors + updateErrors + addErrors > 0 }

    predicate Quiet() { quietRemoves && quietUpdates && quietAdds }
  }

  ghost predicate Ran(c: Course, clusters: set<ClusterId>, kind: Kind, cluster: ClusterId) {
    && Valid(c.db) && Loads(c.db, kind, cluster, c.objs)
    && Diff(c.objs, c.remote, c.removed, c.commonDB, c.commonExt, c.added)
    && OnlyChanges(c.db, c.kept, kind, cluster)
    && Removes(c.db, c.gone, c.kept, c.gone', c.removed, c.delErrors) && (c.quietRemoves ==> c.delErrors == 0)
    && Updates(c.kept, c.updated, clusters, kind, cluster, c.commonDB, c.commonExt, c.quietUpdates, c.updateErrors)
    && Adds(c.updated, c.final, clusters, kind, cluster, c.gone', c.added, c.quietAdds, c.addErrors, c.skipped, c.newIds, c.done)
  }

  lemma CourseMoves(c: Course, clusters: set<ClusterId>, kind: Kind, cluster: ClusterId)
    requires Ran(c, clusters, kind, cluster)
    ensures OnlyChanges(c.db, c.final, kind, cluster) && Valid(c.final)
    ensures Moves(c.db, c.final, kind, cluster, c.remote) && RefsMove(c.db, c.final, kind, cluster)
    ensures IdsMove(c.db, c.gone, c.final, c.gone')
  {
    DiffRemote(kind, c.objs, c.remote, c.removed, c.commonDB, c.commonExt, c.added);
    PartsMove(c.db, c.gone, c.kept, c.gone', c.updated, c.final, kind, cluster, c.remote, c.added);
    OnlyChangesThen(c.db, c.kept, c.updated, kind, cluster);
    OnlyChangesThen(c.db, c.updated, c.final, kind, cluster);
  }

  /** The rows that stay are those of the common part. */
  lemma CourseKeeps(c: Course, clusters: set<ClusterId>, kind: Kind, cluster: ClusterId)
    requires Ran(c, clusters, kind, cluster) && NoFailRows(c.db, kind, cluster) && c.delErrors == 0
    ensures Ids(c.kept, kind, cluster) == IdSet(c.commonDB)
  {
    DiffLocal(c.objs, c.remote, c.removed, c.commonDB, c.commonExt, c.added);
    RemovedAreLoaded(c.db, kind, cluster, c.objs, c.removed);
    RemovedFirst(c.db, kind, cluster, c.objs, c.remote, c.removed, c.commonDB, c.commonExt, c.added);
  }

  lemma CourseMirrors(c: Course, clusters: set<ClusterId>, kind: Kind, cluster: ClusterId)
    requires Ran(c, clusters, kind, cluster)
    ensures !c.IsError() && c.skipped == [] && NoFailRows(c.db, kind, cluster) && DistinctUids(c.remote) ==>
      Mirrors(c.final, kind, cluster, c.remote)
  {
    if !c.IsError() && c.skipped == [] && NoFailRows(c.db, kind, cluster) && DistinctUids(c.remote) {
      CourseKeeps(c, clusters, kind, cluster);
      DiffRemote(kind, c.objs, c.remote, c.removed, c.commonDB, c.commonExt, c.added);
      SettledMirrors(c.kept, c.updated, c.final, kind, cluster, c.remote, c.commonDB, c.commonExt, c.newIds, c.added);
    }
  }

  lemma CourseUnlisted(c: Course, clusters: set<ClusterId>, kind: Kind, cluster: ClusterId)
    requires Ran(c, clusters, kind, cluster)
    ensures c.delErrors == 0 ==> UnlistedGone(c.db, c.final, kind, cluster, c.remote)
  {
    if c.delErrors == 0 {
      UnlistedAreRemoved(
        c.db, c.kept, c.final, kind, cluster, c.objs, c.remote, c.removed, c.commonDB, c.commonExt, c.added);
    }
  }

  lemma CourseQuiet(c: Course, clusters: set<ClusterId>, kind: Kind, cluster: ClusterId)
    requires Ran(c, clusters, kind, cluster)
    ensures c.Quiet() && NoFailRows(c.db, kind, cluster) && Agreeable(c.db, clusters, kind, cluster, c.remote) ==>
      && (c.IsError() <==>
            exists o :: o in c.remote && HasKey(c.db, kind, cluster, o) && !NamespaceKnown(c.db, kind, cluster, o))
      && (!c.IsError() ==>
            Skips(c.db, kind, cluster, c.remote, c.skipped) && MirrorsBut(c.final, kind, cluster, c.remote, c.skipped))
  {
    if c.Quiet() && NoFailRows(c.db, kind, cluster) && Agreeable(c.db, clusters, kind, cluster, c.remote) {
      CourseKeeps(c, clusters, kind, cluster);
      CourseOutcome(c, clusters, kind, cluster);
      if !c.IsError() {
        CourseMirrorsBut(c, clusters, kind, cluster);
      }
    }
  }

  lemma CourseOutcome(c: Course, clusters: set<ClusterId>, kind: Kind, cluster: ClusterId)
    requires Ran(c, clusters, kind, cluster) && c.Quiet() && Agreeable(c.db, clusters, kind, cluster, c.remote)
    requires Ids(c.kept, kind, cluster) == IdSet(c.commonDB)
    ensures c.IsError() <==>
      exists o :: o in c.remote && HasKey(c.db, kind, cluster, o) && !NamespaceKnown(c.db, kind, cluster, o)
    ensures !c.IsError() ==> Skips(c.db, kind, cluster, c.remote, c.skipped)
    ensures c.updateErrors == 0 ==> AllAddable(c.updated, clusters, kind, cluster, c.added)
  {
    NothingElseRefused(
      c.db, c.kept, c.updated, clusters, kind, cluster, c.objs, c.remote, c.removed, c.commonDB, c.commonExt, c.added);
    KeysOfParts(c.db, kind, cluster, c.objs, c.remote, c.removed, c.commonDB, c.commonExt, c.added);
    OnlyChangesThen(c.db, c.kept, c.updated, kind, cluster);
    PartsOutcome(c.db, c.kept, c.updated, clusters, kind, cluster, c.remote, c.commonExt, c.added,
                 c.updateErrors, c.addErrors, c.skipped);
  }

  lemma CourseMirrorsBut(c: Course, clusters: set<ClusterId>, kind: Kind, cluster: ClusterId)
    requires Ran(c, clusters, kind, cluster) && c.Quiet() && !c.IsError() && DistinctUids(c.remote)
    requires AllAddable(c.updated, clusters, kind, cluster, c.added)
    requires Ids(c.kept, kind, cluster) == IdSet(c.commonDB)
    ensures MirrorsBut(c.final, kind, cluster, c.remote, c.skipped)
  {
    DiffRemote(kind, c.objs, c.remote, c.removed, c.commonDB, c.commonExt, c.added);
    PartsMirror(c.db, c.kept, c.updated, c.final, kind, cluster, c.remote, c.commonDB, c.commonExt, c.newIds,
                c.added, c.done, c.skipped);
  }

  lemma PartsSizes(
    objs: seq<Loaded>, remote: seq<RemoteObject>,
    removed: seq<Loaded>, commonDB: seq<Loaded>, commonExt: seq<RemoteObject>, added: seq<RemoteObject>)
    requires Diff(objs, remote, removed, commonDB, commonExt, added)
    ensures |removed| + |commonDB| == |objs| && |added| + |commonExt| == |remote| && |commonDB| == |commonExt|
  {
    assert |multiset(removed) + multiset(commonDB)| == |multiset(objs)|;
    assert |multiset(added) + multiset(commonExt)| == |multiset(remote)|;
    assert |Compare.Map(LocalKey, commonDB)| == |Compare.Map(RemoteKey, commonExt)|;
  }

  /** Rows whose key is not listed are among the removed. */
  lemma UnlistedAreRemoved(
    db: Db, kept: Db, final: Db, kind: Kind, cluster: ClusterId, objs: seq<Loaded>, remote: seq<RemoteObject>,
    removed: seq<Loaded>, commonDB: seq<Loaded>, commonExt: seq<RemoteObject>, added: seq<RemoteObject>)
    requires Loads(db, kind, cluster, objs) && Diff(objs, remote, removed, commonDB, commonExt, added)
    requires forall l :: l in removed ==> (l.id in kept <==> IsFailStatus(l.row.status))
    requires kept.Keys <= final.Keys && forall id :: id in final && id in db ==> id in kept
    ensures UnlistedGone(db, final, kind, cluster, remote)
  {
    DiffLocal(objs, remote, removed, commonDB, commonExt, added);
    DiffRemote(kind, objs, remote, removed, commonDB, commonExt, added);
    forall l | l in commonDB ensures IsKey(remote, l.row.externalId) {
      var i :| 0 <= i < |commonDB| && commonDB[i] == l;
      assert commonExt[i] in remote;
    }
    forall id | id in Ids(db, kind, cluster) && !IsKey(remote, db[id].externalId)
      ensures id in final <==> IsFailStatus(db[id].status)
    {
      var l := Loaded(id, db[id]);
      assert l in objs;
      assert l in removed;
    }
  }

  /** What is kept and what is added, together, is all of the listing but the skips. */
  lemma PartsMirror(
    db: Db, kept: Db, updated: Db, final: Db, kind: Kind, cluster: ClusterId, remote: seq<RemoteObject>,
    commonDB: seq<Loaded>, commonExt: seq<RemoteObject>, newIds: seq<RowId>,
    added: seq<RemoteObject>, done: seq<RemoteObject>, skipped: seq<RemoteObject>)
    requires Ids(kept, kind, cluster) == IdSet(commonDB)
    requires OnlyChanges(kept, updated, kind, cluster) && updated.Keys == kept.Keys
    requires OnlyChanges(updated, final, kind, cluster)
    requires Placed(kept, updated, kind, cluster, IdsOf(commonDB), commonExt)
    requires PlacedOn(updated, final, kind, cluster, newIds, done)
    requires forall o :: o in remote <==> o in commonExt || o in added
    requires DistinctUids(commonExt + added)
    requires done == Known(updated, kind, cluster, added) && skipped == Unknown(updated, kind, cluster, added)
    ensures MirrorsBut(final, kind, cluster, remote, skipped)
  {
    KnownMembers(updated, kind, cluster, added);
    UnknownMembers(updated, kind, cluster, added);
    DistinctParts(commonExt, added);
    DistinctJoin(commonExt, done);
    var all := commonExt + done;
    SettledMirrors(kept, updated, final, kind, cluster, all, commonDB, commonExt, newIds, done);
    forall id | id in final && Of(final[id], kind, cluster) ensures IsListed(final, kind, cluster, id, remote) {
      assert IsListed(final, kind, cluster, id, all);
      var o :| o in all && Plain(final[id]) == Target(final, kind, cluster, o);
      assert o in remote;
    }
    forall o | o in remote && o !in skipped ensures HasRow(final, kind, cluster, o) {
      assert o in all;
    }
  }

  /** syncClusterResources. The listing is None when the remote call fails; skipped holds the
      namespaced objects whose add was only logged. */
  method SyncKind(
    store: Store, kind: Kind, cluster: ClusterId, listing: Option<seq<RemoteObject>>, inTask: set<RowId>)
    returns (result: SyncResult, skipped: seq<RemoteObject>)
    requires Valid(store.rows)
    modifies store`rows, store`gone, store`faults, store`trail
    ensures store.faults >= old(store.faults)
    ensures !result.IsError() ==> listing.Some? && inTask * Ids(old(store.rows), kind, cluster) == {}
    ensures listing.None? || inTask * Ids(old(store.rows), kind, cluster) != {} ==> store.rows == old(store.rows)
    ensures !result.IsError() ==> result.addCnt + |skipped| + result.updateCnt == |listing.value|
    ensures Synced(
      old(store.rows), old(store.gone), store.rows, store.gone, store.clusters, kind, cluster, Listed(listing),
      store.faults == old(store.faults) && listing.Some? && inTask * Ids(old(store.rows), kind, cluster) == {},
      result.IsError(), skipped)
  {
    skipped := [];
    ghost var db: Db := store.rows;
    var ok := store.Query();
    if !ok || listing == None { return FAILED, skipped; }
    var dbObjs;
    dbObjs, ok := GetClusterModelObjects(store, kind, cluster);
    if !ok { return FAILED, skipped; }
    if exists i :: 0 <= i < |dbObjs| && dbObjs[i].id in inTask {
      ghost var i :| 0 <= i < |dbObjs| && dbObjs[i].id in inTask;
      assert IsLoaded(db, kind, cluster, dbObjs[i]) && dbObjs[i].id in inTask * Ids(db, kind, cluster);
      return FAILED, skipped;
    }
    forall id | id in Ids(db, kind, cluster) ensures id !in inTask {
      var l := Loaded(id, db[id]);
      assert l in dbObjs;
      var i :| 0 <= i < |dbObjs| && dbObjs[i] == l;
    }
    result, skipped := ApplyDiff(store, kind, cluster, dbObjs, listing.value);
  }
}
