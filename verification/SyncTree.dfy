/**
 A full sync of one cluster: every kind of the manager tree in turn, stopping at the first kind
 that reports an error (pkg/kubeserver/models/clusterresource.go:464-488, clusters.go:2412-2424).
 */
module SyncTree {
  import opened Wrappers
  import opened ClusterTables
  import opened ClusterStore
  import opened ManagerTree
  import Managers
  import Versions
  import Sync

  /** A fixed picture of the cluster: the listing of each kind. */
  type Snapshot = map<Kind, seq<RemoteObject>>

  /** Only rows of the given kinds in the cluster differ. */
  ghost predicate OnlyKinds(db: Db, db': Db, ks: seq<Kind>, cluster: ClusterId) {
    forall id | id in db.Keys + db'.Keys ::
      (id in db && id in db' && db[id] == db'[id])
      || ((id in db ==> Touched(db[id], ks, cluster)) && (id in db' ==> Touched(db'[id], ks, cluster)))
  }

  predicate Touched(row: Row, ks: seq<Kind>, cluster: ClusterId) {
    row.kind in ks && row.clusterId == cluster
  }

  ghost predicate AllMirror(db: Db, ks: seq<Kind>, cluster: ClusterId, remote: Snapshot) {
    forall k :: k in ks ==> k in remote && Mirrors(db, k, cluster, remote[k])
  }

  /** What the tables and the snapshot must be like for an error-free sync to mean a mirror. */
  ghost predicate Fit(db: Db, ks: seq<Kind>, cluster: ClusterId, remote: Snapshot) {
    forall k :: k in ks ==> Sync.NoFailRows(db, k, cluster) && (k in remote ==> DistinctUids(remote[k]))
  }

  // ----- syncing kinds one after the other -----

  lemma OnlyKindsAppend(db: Db, mid: Db, db': Db, a: seq<Kind>, b: seq<Kind>, cluster: ClusterId)
    requires OnlyKinds(db, mid, a, cluster) && OnlyKinds(mid, db', b, cluster)
    ensures OnlyKinds(db, db', a + b, cluster)
  {
  }

  lemma UntouchedKind(db: Db, db': Db, ks: seq<Kind>, cluster: ClusterId, k: Kind)
    requires OnlyKinds(db, db', ks, cluster) && k !in ks
    ensures SameRows(db, db', k, cluster)
    ensures Ids(db, k, cluster) == Ids(db', k, cluster)
  {
  }

  lemma MirrorAppend(mid: Db, db': Db, a: seq<Kind>, b: seq<Kind>, cluster: ClusterId, remote: Snapshot)
    requires RefsFirst(a + b)
    requires AllMirror(mid, a, cluster, remote) && OnlyKinds(mid, db', b, cluster)
    requires AllMirror(db', b, cluster, remote)
    ensures AllMirror(db', a + b, cluster, remote)
  {
    forall k | k in a ensures Mirrors(db', k, cluster, remote[k]) {
      NotLater(a, b, k);
      UntouchedKind(mid, db', b, cluster, k);
      if k.namespaceScope {
        UntouchedKind(mid, db', b, cluster, NAMESPACE);
      }
      MirrorsKept(mid, db', k, cluster, remote[k]);
    }
  }

  lemma NotLater(a: seq<Kind>, b: seq<Kind>, k: Kind)
    requires RefsFirst(a + b) && k in a
    ensures k !in b && (k.namespaceScope ==> NAMESPACE !in b) && (k == POD ==> NODE !in b)
  {
    var ks := a + b;
    var i :| 0 <= i < |a| && a[i] == k;
    forall j | 0 <= j < |b| ensures b[j] != k && !Needs(k, b[j]) {
      assert ks[i] == k && ks[|a| + j] == b[j];
    }
  }

  lemma FitLater(db: Db, mid: Db, a: seq<Kind>, b: seq<Kind>, cluster: ClusterId, remote: Snapshot)
    requires RefsFirst(a + b) && Fit(db, a + b, cluster, remote) && OnlyKinds(db, mid, a, cluster)
    ensures Fit(mid, b, cluster, remote)
  {
    forall k | k in b ensures Sync.NoFailRows(mid, k, cluster) {
      assert k in a + b;
      if k in a { NotLater(a, b, k); }
      UntouchedKind(db, mid, a, cluster, k);
    }
  }

  lemma RefsFirstParts(a: seq<Kind>, b: seq<Kind>)
    requires RefsFirst(a + b)
    ensures RefsFirst(a) && RefsFirst(b)
  {
    var ks := a + b;
    assert forall i :: 0 <= i < |a| ==> a[i] == ks[i];
    assert forall i :: 0 <= i < |b| ==> b[i] == ks[|a| + i];
  }

  // ----- pods whose rows are new -----

  /** A pod's row was there under its key, or is one of the listing, with its node there. */
  ghost predicate PodKnown(db: Db, db': Db, cluster: ClusterId, pods: seq<RemoteObject>, id: RowId)
    requires id in db'
  {
    || (exists x :: x in Ids(db, POD, cluster) && db[x].externalId == db'[id].externalId)
    || (exists o :: o in pods && o.uid == db'[id].externalId && NodeKnown(db', POD, cluster, o))
  }

  ghost predicate PodsKnown(db: Db, db': Db, cluster: ClusterId, remote: Snapshot) {
    POD in remote ==> forall id :: id in Ids(db', POD, cluster) ==> PodKnown(db, db', cluster, remote[POD], id)
  }

  lemma SyncedPodsKnown(db: Db, db': Db, k: Kind, cluster: ClusterId, remote: Snapshot)
    requires OnlyChanges(db, db', k, cluster)
    requires k in remote ==> Moves(db, db', k, cluster, remote[k])
    ensures PodsKnown(db, db', cluster, remote)
  {
    forall id | POD in remote && id in Ids(db', POD, cluster) ensures PodKnown(db, db', cluster, remote[POD], id) {
      if k == POD && id !in db {
        var o :| o in remote[POD] && db'[id].externalId == o.uid && NodeKnown(db', POD, cluster, o)
                 && db'[id].nodeId == NodeIdOf(db', POD, cluster, o);
      } else {
        assert id in Ids(db, POD, cluster);
      }
    }
  }

  lemma PodsKnownAppend(db: Db, mid: Db, db': Db, a: seq<Kind>, b: seq<Kind>, cluster: ClusterId, remote: Snapshot)
    requires RefsFirst(a + b) && OnlyKinds(db, mid, a, cluster) && OnlyKinds(mid, db', b, cluster)
    requires PodsKnown(db, mid, cluster, remote) && PodsKnown(mid, db', cluster, remote)
    ensures PodsKnown(db, db', cluster, remote)
  {
    if POD in a {
      NotLater(a, b, POD);
      UntouchedKind(mid, db', b, cluster, POD);
      UntouchedKind(mid, db', b, cluster, NODE);
      forall id | POD in remote && id in Ids(db', POD, cluster) ensures PodKnown(db, db', cluster, remote[POD], id) {
        assert id in Ids(mid, POD, cluster) && PodKnown(db, mid, cluster, remote[POD], id);
        if o :| o in remote[POD] && o.uid == mid[id].externalId && NodeKnown(mid, POD, cluster, o) {
          NodeKept(mid, db', POD, cluster, o);
        }
      }
    } else {
      UntouchedKind(db, mid, a, cluster, POD);
      forall id | POD in remote && id in Ids(db', POD, cluster) ensures PodKnown(db, db', cluster, remote[POD], id) {
        assert PodKnown(mid, db', cluster, remote[POD], id);
      }
    }
  }

  // ----- when nothing is refused -----

  /** What makes every row step of a kind go through, apart from the rows it refers to. */
  ghost predicate Agreeable(
    db: Db, clusters: set<ClusterId>, k: Kind, cluster: ClusterId, remote: Snapshot, inTask: set<RowId>)
  {
    && k in remote && Sync.Agreeable(db, clusters, k, cluster, remote[k])
    && Sync.NoFailRows(db, k, cluster) && inTask * Ids(db, k, cluster) == {}
  }

  ghost predicate Lists(objs: seq<RemoteObject>, name: string) {
    exists p :: p in objs && p.name == name
  }

  /** Every object's namespace is in the snapshot, and so is the node of every pod that has no row yet. */
  ghost predicate RefsListed(db: Db, cluster: ClusterId, k: Kind, remote: Snapshot) {
    && (k in remote && k.namespaceScope ==>
          NAMESPACE in remote && forall o :: o in remote[k] ==> Lists(remote[NAMESPACE], o.namespace))
    && (k in remote && k == POD ==>
          NODE in remote && forall o :: o in remote[k] && o.node != "" ==>
                                  Lists(remote[NODE], o.node) || Sync.HasKey(db, k, cluster, o))
  }

  ghost predicate Closed(db: Db, cluster: ClusterId, ks: seq<Kind>, remote: Snapshot) {
    forall k :: k in ks ==> RefsListed(db, cluster, k, remote)
  }

  /** The kind referred to has been synced or comes first. */
  ghost predicate DepReady(db: Db, ks: seq<Kind>, cluster: ClusterId, remote: Snapshot, dep: Kind) {
    && ((exists k :: k in ks && Needs(k, dep)) ==> dep in remote && DistinctNames(dep, remote[dep]))
    && (Led(ks, dep) || (dep in remote && Mirrors(db, dep, cluster, remote[dep])))
  }

  ghost predicate Ready(
    db: Db, clusters: set<ClusterId>, ks: seq<Kind>, cluster: ClusterId, remote: Snapshot, inTask: set<RowId>)
  {
    && RefsFirst(ks) && Closed(db, cluster, ks, remote)
    && (forall k :: k in ks ==> Agreeable(db, clusters, k, cluster, remote, inTask))
    && DepReady(db, ks, cluster, remote, NAMESPACE) && DepReady(db, ks, cluster, remote, NODE)
  }

  lemma ReadyIsFit(db: Db, clusters: set<ClusterId>, ks: seq<Kind>, cluster: ClusterId, remote: Snapshot, inTask: set<RowId>)
    requires Ready(db, clusters, ks, cluster, remote, inTask)
    ensures Fit(db, ks, cluster, remote)
  {
  }

  lemma DepReadyFirst(db: Db, a: seq<Kind>, b: seq<Kind>, cluster: ClusterId, remote: Snapshot, dep: Kind)
    requires DepReady(db, a + b, cluster, remote, dep)
    ensures DepReady(db, a, cluster, remote, dep)
  {
    if Led(a + b, dep) {
      forall j | 0 <= j < |a| ensures LedAt(a, dep, j) {
        assert LedAt(a + b, dep, j);
        assert (a + b)[..j] == a[..j] && (a + b)[j] == a[j];
      }
    }
  }

  lemma ReadyFirst(
    db: Db, clusters: set<ClusterId>, a: seq<Kind>, b: seq<Kind>, cluster: ClusterId, remote: Snapshot, inTask: set<RowId>)
    requires Ready(db, clusters, a + b, cluster, remote, inTask)
    ensures Ready(db, clusters, a, cluster, remote, inTask)
  {
    RefsFirstParts(a, b);
    DepReadyFirst(db, a, b, cluster, remote, NAMESPACE);
    DepReadyFirst(db, a, b, cluster, remote, NODE);
  }

  lemma DepReadyLater(db: Db, mid: Db, a: seq<Kind>, b: seq<Kind>, cluster: ClusterId, remote: Snapshot, dep: Kind)
    requires DepReady(db, a + b, cluster, remote, dep) && !dep.namespaceScope
    requires OnlyKinds(db, mid, a, cluster) && AllMirror(mid, a, cluster, remote)
    ensures DepReady(mid, b, cluster, remote, dep)
  {
    if dep !in a {
      if Led(a + b, dep) {
        forall j | 0 <= j < |b| ensures LedAt(b, dep, j) {
          assert LedAt(a + b, dep, |a| + j);
          assert (a + b)[..|a| + j] == a + b[..j] && (a + b)[|a| + j] == b[j];
        }
      } else {
        UntouchedKind(db, mid, a, cluster, dep);
        MirrorsKept(db, mid, dep, cluster, remote[dep]);
      }
    }
  }

  lemma ReadyLater(
    db: Db, mid: Db, clusters: set<ClusterId>, a: seq<Kind>, b: seq<Kind>, cluster: ClusterId, remote: Snapshot, inTask: set<RowId>)
    requires Ready(db, clusters, a + b, cluster, remote, inTask)
    requires OnlyKinds(db, mid, a, cluster) && AllMirror(mid, a, cluster, remote)
    ensures Ready(mid, clusters, b, cluster, remote, inTask)
  {
    RefsFirstParts(a, b);
    forall k | k in b
      ensures Agreeable(mid, clusters, k, cluster, remote, inTask) && RefsListed(mid, cluster, k, remote)
    {
      assert k in a + b;
      if k in a { NotLater(a, b, k); }
      UntouchedKind(db, mid, a, cluster, k);
      forall o | Sync.HasKey(db, k, cluster, o) ensures Sync.HasKey(mid, k, cluster, o) {
        var id :| id in Ids(db, k, cluster) && db[id].externalId == o.uid;
        assert id in Ids(mid, k, cluster);
      }
    }
    DepReadyLater(db, mid, a, b, cluster, remote, NAMESPACE);
    DepReadyLater(db, mid, a, b, cluster, remote, NODE);
  }

  /** Once a kind that is not namespaced mirrors its listing, every object in it is found by name ... */
  lemma ListedIsFound(db: Db, kind: Kind, cluster: ClusterId, objs: seq<RemoteObject>, name: string)
    requires !kind.namespaceScope && Mirrors(db, kind, cluster, objs) && DistinctNames(kind, objs) && Lists(objs, name)
    ensures Fetch(db, kind, cluster, None, name).Found?
  {
    var p :| p in objs && p.name == name;
    assert HasRow(db, kind, cluster, p);
    var id :| id in db && Plain(db[id]) == Target(db, kind, cluster, p);
    forall x | x in db && Matches(db[x], kind, cluster, None, name) ensures x == id {
      assert IsListed(db, kind, cluster, x, objs);
      var q :| q in objs && Plain(db[x]) == Target(db, kind, cluster, q);
      var i :| 0 <= i < |objs| && objs[i] == p;
      var j :| 0 <= j < |objs| && objs[j] == q;
      assert SameName(kind, p, q);
      assert i == j;
      assert x in Ids(db, kind, cluster) && id in Ids(db, kind, cluster);
    }
    SingleIsFound(db, kind, cluster, None, name, id);
  }

  /** ... and whatever is found by name is in it. */
  lemma FoundIsListed(db: Db, kind: Kind, cluster: ClusterId, objs: seq<RemoteObject>, name: string)
    requires Mirrors(db, kind, cluster, objs) && Fetch(db, kind, cluster, None, name).Found?
    ensures Lists(objs, name)
  {
    var id := Fetch(db, kind, cluster, None, name).id;
    assert IsListed(db, kind, cluster, id, objs);
    var q :| q in objs && Plain(db[id]) == Target(db, kind, cluster, q);
  }

  /** At the turn of a kind, what its objects refer to is there. */
  lemma ReadyRefsKnown(
    db: Db, clusters: set<ClusterId>, k: Kind, cluster: ClusterId, remote: Snapshot, inTask: set<RowId>, o: RemoteObject)
    requires Ready(db, clusters, [k], cluster, remote, inTask) && k in remote && o in remote[k]
    ensures Sync.NamespaceKnown(db, k, cluster, o)
    ensures NodeKnown(db, k, cluster, o) || Sync.HasKey(db, k, cluster, o)
  {
    var ks := [k];
    assert k in ks && ks[..0] == [] && ks[0] == k;
    assert Led(ks, NAMESPACE) ==> LedAt(ks, NAMESPACE, 0);
    assert Led(ks, NODE) ==> LedAt(ks, NODE, 0);
    if k.namespaceScope {
      ListedIsFound(db, NAMESPACE, cluster, remote[NAMESPACE], o.namespace);
    }
    if k == POD && o.node != "" && Lists(remote[NODE], o.node) {
      ListedIsFound(db, NODE, cluster, remote[NODE], o.node);
    }
  }

  // ----- the walk -----

  /** What a sync of the kinds ks, in order, promises. An error-free sync that skipped nothing
      leaves a mirror; and when no storage call fails and the snapshot is agreeable and closed, the sync is
      error-free and skips nothing. */
  ghost predicate Promise(
    db: Db, db': Db, clusters: set<ClusterId>, ks: seq<Kind>, cluster: ClusterId, remote: Snapshot, inTask: set<RowId>,
    quiet: bool, ok: bool, skipCnt: nat)
  {
    && OnlyKinds(db, db', ks, cluster)
    && (RefsFirst(ks) ==> PodsKnown(db, db', cluster, remote))
    && (ok && skipCnt == 0 && RefsFirst(ks) && Fit(db, ks, cluster, remote) ==> AllMirror(db', ks, cluster, remote))
    && (quiet && Ready(db, clusters, ks, cluster, remote, inTask) ==> ok && skipCnt == 0)
  }

  lemma PromiseAppend(
    db: Db, mid: Db, db': Db, clusters: set<ClusterId>, a: seq<Kind>, b: seq<Kind>, cluster: ClusterId,
    remote: Snapshot, inTask: set<RowId>, quietA: bool, quietB: bool, skipA: nat, ok: bool, skipB: nat)
    requires Promise(db, mid, clusters, a, cluster, remote, inTask, quietA, true, skipA)
    requires Promise(mid, db', clusters, b, cluster, remote, inTask, quietB, ok, skipB)
    ensures Promise(db, db', clusters, a + b, cluster, remote, inTask, quietA && quietB, ok, skipA + skipB)
  {
    var ks := a + b;
    OnlyKindsAppend(db, mid, db', a, b, cluster);
    if RefsFirst(ks) {
      RefsFirstParts(a, b);
      PodsKnownAppend(db, mid, db', a, b, cluster, remote);
    }
    if RefsFirst(ks) && Fit(db, ks, cluster, remote) {
      assert Fit(db, a, cluster, remote);
      FitLater(db, mid, a, b, cluster, remote);
      if ok && skipA == skipB == 0 {
        MirrorAppend(mid, db', a, b, cluster, remote);
      }
    }
    if quietA && quietB && Ready(db, clusters, ks, cluster, remote, inTask) {
      ReadyFirst(db, clusters, a, b, cluster, remote, inTask);
      ReadyIsFit(db, clusters, a, cluster, remote, inTask);
      ReadyLater(db, mid, clusters, a, b, cluster, remote, inTask);
    }
  }

  /** A walk cut short by an error. */
  lemma PromiseCut(
    db: Db, mid: Db, clusters: set<ClusterId>, a: seq<Kind>, b: seq<Kind>, cluster: ClusterId,
    remote: Snapshot, inTask: set<RowId>, quiet: bool, skipCnt: nat)
    requires Promise(db, mid, clusters, a, cluster, remote, inTask, quiet, false, skipCnt)
    ensures Promise(db, mid, clusters, a + b, cluster, remote, inTask, quiet, false, skipCnt)
  {
    OnlyKindsAppend(db, mid, mid, a, b, cluster);
    if RefsFirst(a + b) {
      RefsFirstParts(a, b);
    }
    if Ready(db, clusters, a + b, cluster, remote, inTask) {
      ReadyFirst(db, clusters, a, b, cluster, remote, inTask);
    }
  }

  /** One kind, with its listing looked up in the snapshot. */
  method SyncOne(store: Store, kind: Kind, cluster: ClusterId, remote: Snapshot, inTask: set<RowId>)
    returns (ok: bool, skipCnt: nat)
    requires Valid(store.rows)
    modifies store`rows, store`gone, store`faults, store`trail
    ensures store.faults >= old(store.faults) && Valid(store.rows)
    ensures Promise(old(store.rows), store.rows, store.clusters, [kind], cluster, remote, inTask,
                    store.faults == old(store.faults), ok, skipCnt)
  {
    ghost var db: Db := store.rows;
    var listing := if kind in remote then Some(remote[kind]) else None;
    var result, skipped := Sync.SyncKind(store, kind, cluster, listing, inTask);
    ok, skipCnt := !result.IsError(), |skipped|;
    assert kind in [kind];
    SyncedPodsKnown(db, store.rows, kind, cluster, remote);
    if store.faults == old(store.faults) && Ready(db, store.clusters, [kind], cluster, remote, inTask) {
      assert Agreeable(db, store.clusters, kind, cluster, remote, inTask);
      forall o | o in remote[kind]
        ensures Sync.NamespaceKnown(db, kind, cluster, o)
        ensures NodeKnown(db, kind, cluster, o) || Sync.HasKey(db, kind, cluster, o)
      {
        ReadyRefsKnown(db, store.clusters, kind, cluster, remote, inTask, o);
      }
      Sync.SkipsNone(db, kind, cluster, remote[kind], skipped);
    }
  }

  method SyncManager(store: Store, man: Manager, cluster: ClusterId, remote: Snapshot, inTask: set<RowId>)
    returns (ok: bool, skipCnt: nat)
    requires Valid(store.rows)
    modifies store`rows, store`gone, store`faults, store`trail
    ensures store.faults >= old(store.faults) && Valid(store.rows)
    ensures Promise(old(store.rows), store.rows, store.clusters, Visit(man), cluster, remote, inTask,
                    store.faults == old(store.faults), ok, skipCnt)
    decreases man
  {
    ghost var db: Db := store.rows;
    ok, skipCnt := SyncOne(store, man.kind, cluster, remote, inTask);
    ghost var mid: Db, faults := store.rows, store.faults;
    if !ok {
      PromiseCut(db, mid, store.clusters, [man.kind], Preorder(man.subs), cluster, remote, inTask,
                 faults == old(store.faults), skipCnt);
      return;
    }
    var n;
    ok, n := SyncClusterResources(store, man.subs, cluster, remote, inTask);
    PromiseAppend(db, mid, store.rows, store.clusters, [man.kind], Preorder(man.subs), cluster, remote, inTask,
                  faults == old(store.faults), store.faults == faults, skipCnt, ok, n);
    skipCnt := skipCnt + n;
  }

  method SyncClusterResources(
    store: Store, mans: seq<Manager>, cluster: ClusterId, remote: Snapshot, inTask: set<RowId>)
    returns (ok: bool, skipCnt: nat)
    requires Valid(store.rows)
    modifies store`rows, store`gone, store`faults, store`trail
    ensures store.faults >= old(store.faults) && Valid(store.rows)
    ensures Promise(old(store.rows), store.rows, store.clusters, Preorder(mans), cluster, remote, inTask,
                    store.faults == old(store.faults), ok, skipCnt)
    decreases mans
  {
    ok, skipCnt := true, 0;
    ghost var db: Db := store.rows;
    var i := 0;
    assert mans[..0] == [] && mans[..|mans|] == mans;
    while i < |mans|
      invariant i <= |mans| && ok
      invariant store.faults >= old(store.faults) && Valid(store.rows)
      invariant PromiseUpTo(db, store.rows, store.clusters, mans, i, cluster, remote, inTask,
                            store.faults == old(store.faults), skipCnt)
    {
      ghost var mid: Db, faults := store.rows, store.faults;
      var n;
      ok, n := SyncManager(store, mans[i], cluster, remote, inTask);
      PromiseNext(db, mid, store.rows, store.clusters, mans, i, cluster, remote, inTask,
                  faults == old(store.faults), store.faults == faults, skipCnt, ok, n);
      skipCnt := skipCnt + n;
      if !ok { return; }
      i := i + 1;
    }
  }

  /** The walk has gone through the first i managers without an error. */
  ghost predicate PromiseUpTo(
    db: Db, now: Db, clusters: set<ClusterId>, mans: seq<Manager>, i: nat, cluster: ClusterId,
    remote: Snapshot, inTask: set<RowId>, quiet: bool, skipCnt: nat)
  {
    i <= |mans| && Promise(db, now, clusters, Preorder(mans[..i]), cluster, remote, inTask, quiet, true, skipCnt)
  }

  /** One manager more; an error ends the walk. */
  lemma PromiseNext(
    db: Db, mid: Db, db': Db, clusters: set<ClusterId>, mans: seq<Manager>, i: nat, cluster: ClusterId,
    remote: Snapshot, inTask: set<RowId>, quietA: bool, quietB: bool, skipA: nat, ok: bool, skipB: nat)
    requires i < |mans|
    requires PromiseUpTo(db, mid, clusters, mans, i, cluster, remote, inTask, quietA, skipA)
    requires Promise(mid, db', clusters, Visit(mans[i]), cluster, remote, inTask, quietB, ok, skipB)
    ensures ok ==> PromiseUpTo(db, db', clusters, mans, i + 1, cluster, remote, inTask, quietA && quietB, skipA + skipB)
    ensures !ok ==> Promise(db, db', clusters, Preorder(mans), cluster, remote, inTask,
                            quietA && quietB, false, skipA + skipB)
  {
    PreorderNext(mans, i);
    PromiseAppend(db, mid, db', clusters, Preorder(mans[..i]), Visit(mans[i]), cluster, remote, inTask,
                  quietA, quietB, skipA, ok, skipB);
    if !ok {
      PromiseCut(db, db', clusters, Preorder(mans[..i + 1]), Preorder(mans[i + 1..]), cluster, remote, inTask,
                 quietA && quietB, skipA + skipB);
    }
  }

  // ----- a whole cluster -----

  /** What a sync of all roots promises when the walk meets every kind after those it refers to: an
      error-free sync that skipped nothing leaves a mirror; and for an agreeable snapshot, when no call
      fails, it is error-free and skips nothing, and it leaves a mirror, if and only if the snapshot is closed. */
  ghost predicate Converged(
    db: Db, db': Db, clusters: set<ClusterId>, ks: seq<Kind>, cluster: ClusterId, remote: Snapshot, inTask: set<RowId>,
    quiet: bool, ok: bool, skipCnt: nat)
  {
    && (ok && skipCnt == 0 && Fit(db, ks, cluster, remote) ==> AllMirror(db', ks, cluster, remote))
    && (quiet && (forall k :: k in ks ==> Agreeable(db, clusters, k, cluster, remote, inTask)) ==>
          && (ok && skipCnt == 0 <==> Closed(db, cluster, ks, remote))
          && (AllMirror(db', ks, cluster, remote) <==> Closed(db, cluster, ks, remote)))
  }

  lemma LedDepReady(
    db: Db, clusters: set<ClusterId>, ks: seq<Kind>, cluster: ClusterId, remote: Snapshot, inTask: set<RowId>, dep: Kind)
    requires Led(ks, dep) && forall k :: k in ks ==> Agreeable(db, clusters, k, cluster, remote, inTask)
    ensures DepReady(db, ks, cluster, remote, dep)
  {
    if k :| k in ks && Needs(k, dep) {
      var j :| 0 <= j < |ks| && ks[j] == k;
      assert LedAt(ks, dep, j);
      assert dep in ks;
    }
  }

  /** The other half: a mirror shows the snapshot closed. */
  lemma MirrorIsClosed(db: Db, db': Db, ks: seq<Kind>, cluster: ClusterId, remote: Snapshot)
    requires SyncOrder(ks) && AllMirror(db', ks, cluster, remote) && PodsKnown(db, db', cluster, remote)
    requires forall k :: k in ks ==> DistinctUids(remote[k])
    ensures Closed(db, cluster, ks, remote)
  {
    forall k | k in ks ensures RefsListed(db, cluster, k, remote) {
      var j :| 0 <= j < |ks| && ks[j] == k;
      assert LedAt(ks, NAMESPACE, j) && LedAt(ks, NODE, j);
      forall o | o in remote[k] && k.namespaceScope ensures Lists(remote[NAMESPACE], o.namespace) {
        assert HasRow(db', k, cluster, o);
        FoundIsListed(db', NAMESPACE, cluster, remote[NAMESPACE], o.namespace);
      }
      forall o | o in remote[k] && k == POD && o.node != ""
        ensures Lists(remote[NODE], o.node) || Sync.HasKey(db, k, cluster, o)
      {
        PodIsListed(db, db', cluster, remote, o);
      }
    }
  }

  lemma PodIsListed(db: Db, db': Db, cluster: ClusterId, remote: Snapshot, o: RemoteObject)
    requires POD in remote && NODE in remote && PodsKnown(db, db', cluster, remote) && DistinctUids(remote[POD])
    requires Mirrors(db', POD, cluster, remote[POD]) && Mirrors(db', NODE, cluster, remote[NODE])
    requires o in remote[POD] && o.node != ""
    ensures Lists(remote[NODE], o.node) || Sync.HasKey(db, POD, cluster, o)
  {
    assert HasRow(db', POD, cluster, o);
    var id :| id in db' && Plain(db'[id]) == Target(db', POD, cluster, o);
    assert id in Ids(db', POD, cluster) && PodKnown(db, db', cluster, remote[POD], id);
    if p :| p in remote[POD] && p.uid == o.uid && NodeKnown(db', POD, cluster, p) {
      var i :| 0 <= i < |remote[POD]| && remote[POD][i] == o;
      var j :| 0 <= j < |remote[POD]| && remote[POD][j] == p;
      assert i == j;
      FoundIsListed(db', NODE, cluster, remote[NODE], o.node);
    }
  }

  lemma PromiseConverges(
    db: Db, db': Db, clusters: set<ClusterId>, ks: seq<Kind>, cluster: ClusterId, remote: Snapshot, inTask: set<RowId>,
    quiet: bool, ok: bool, skipCnt: nat)
    requires SyncOrder(ks) && Promise(db, db', clusters, ks, cluster, remote, inTask, quiet, ok, skipCnt)
    ensures Converged(db, db', clusters, ks, cluster, remote, inTask, quiet, ok, skipCnt)
  {
    SyncOrderIsFirst(ks);
    if quiet && forall k :: k in ks ==> Agreeable(db, clusters, k, cluster, remote, inTask) {
      LedDepReady(db, clusters, ks, cluster, remote, inTask, NAMESPACE);
      LedDepReady(db, clusters, ks, cluster, remote, inTask, NODE);
      assert Closed(db, cluster, ks, remote) ==> Ready(db, clusters, ks, cluster, remote, inTask);
      assert Fit(db, ks, cluster, remote);
      if AllMirror(db', ks, cluster, remote) {
        MirrorIsClosed(db, db', ks, cluster, remote);
      }
    }
  }

  /** Whole-tree convergence against a fixed snapshot; no other cluster is touched. */
  method SyncCluster(store: Store, roots: seq<Manager>, cluster: ClusterId, remote: Snapshot, inTask: set<RowId>)
    returns (ok: bool, skipCnt: nat)
    requires Valid(store.rows)
    modifies store`rows, store`gone, store`faults, store`trail
    ensures forall id :: id in old(store.rows) && old(store.rows)[id].clusterId != cluster ==>
      id in store.rows && store.rows[id] == old(store.rows)[id]
    ensures forall id :: id in store.rows && store.rows[id].clusterId != cluster ==> id in old(store.rows)
    ensures SyncOrder(Preorder(roots)) ==>
      Converged(old(store.rows), store.rows, store.clusters, Preorder(roots), cluster, remote, inTask,
                store.faults == old(store.faults), ok, skipCnt)
  {
    ok, skipCnt := SyncClusterResources(store, roots, cluster, remote, inTask);
    if SyncOrder(Preorder(roots)) {
      PromiseConverges(old(store.rows), store.rows, store.clusters, Preorder(roots), cluster, remote, inTask,
                       store.faults == old(store.faults), ok, skipCnt);
    }
  }

  /** The sync of the program's own managers. */
  method SyncAll(store: Store, cluster: ClusterId, remote: Snapshot, inTask: set<RowId>) returns (ok: bool, skipCnt: nat)
    requires Valid(store.rows)
    modifies store`rows, store`gone, store`faults, store`trail
    ensures Converged(old(store.rows), store.rows, store.clusters, Managers.KINDS, cluster, remote, inTask,
                      store.faults == old(store.faults), ok, skipCnt)
  {
    Managers.ManagersInSyncOrder();
    ok, skipCnt := SyncCluster(store, Managers.MANAGERS, cluster, remote, inTask);
  }

  // ----- an error-free sync that leaves no mirror -----

  /** A row that stands for an object was there under its key, or was made with its references there. */
  lemma RowNeedsRefs(db: Db, db': Db, kind: Kind, cluster: ClusterId, objs: seq<RemoteObject>, o: RemoteObject)
    requires Moves(db, db', kind, cluster, objs) && OnlyChanges(db, db', kind, cluster) && DistinctUids(objs) && o in objs
    ensures HasRow(db', kind, cluster, o) ==> Sync.HasKey(db, kind, cluster, o) || Sync.RefsKnown(db, kind, cluster, o)
  {
    Sync.RefsKept(db, db', kind, cluster, o);
    if HasRow(db', kind, cluster, o) {
      var id :| id in db' && Plain(db'[id]) == Target(db', kind, cluster, o);
      assert id in Ids(db', kind, cluster);
      if id in db {
        assert id in Ids(db, kind, cluster);
      } else {
        var p :| p in objs && db'[id].externalId == p.uid && NodeKnown(db', kind, cluster, p)
                 && db'[id].nodeId == NodeIdOf(db', kind, cluster, p);
        var i :| 0 <= i < |objs| && objs[i] == o;
        var j :| 0 <= j < |objs| && objs[j] == p;
        assert i == j;
      }
    }
  }

  /** One new object in a namespace that is not there, or one new pod on a node that is not: the object is
      skipped, no error is reported, and there is no mirror. */
  method MissingReferenceIsSkipped(store: Store, kind: Kind, cluster: ClusterId, o: RemoteObject)
    returns (ok: bool, skipCnt: nat)
    requires Valid(store.rows) && kind.namespaceScope && Sync.NoFailRows(store.rows, kind, cluster)
    requires Sync.Agreeable(store.rows, store.clusters, kind, cluster, [o])
    requires !Sync.HasKey(store.rows, kind, cluster, o) && !Sync.RefsKnown(store.rows, kind, cluster, o)
    modifies store`rows, store`gone, store`faults, store`trail
    ensures store.faults == old(store.faults) ==> ok && skipCnt == 1 && !Mirrors(store.rows, kind, cluster, [o])
  {
    ghost var db: Db := store.rows;
    var result, skipped := Sync.SyncKind(store, kind, cluster, Some([o]), {});
    ok, skipCnt := !result.IsError(), |skipped|;
    assert o in [o];
    RowNeedsRefs(db, store.rows, kind, cluster, [o], o);
    if store.faults == old(store.faults) {
      assert o in skipped;
      forall i | 0 <= i < |skipped| ensures skipped[i] == o {
        assert skipped[i] in skipped;
        assert skipped[i] in [o];
      }
      FirstTwoApart(skipped);
    }
  }

  lemma FirstTwoApart(objs: seq<RemoteObject>)
    requires DistinctUids(objs)
    ensures |objs| >= 2 ==> objs[0].uid != objs[1].uid
  {
  }

  /** Both can happen: a listing whose object names a namespace, or a pod a node, that no row bears. */
  lemma ReferencesCanBeMissing(kind: Kind, cluster: ClusterId, ns: Row, o: RemoteObject)
    requires kind.namespaceScope && Versions.IsVersion(o.version)
    requires Of(ns, NAMESPACE, cluster) && ns.name == o.namespace && ns.namespaceId == ns.nodeId == None
    ensures var db: Db := map[];
            Valid(db) && Sync.Agreeable(db, {cluster}, kind, cluster, [o]) && !Sync.HasKey(db, kind, cluster, o)
            && !Sync.NamespaceKnown(db, kind, cluster, o)
    ensures kind == POD && o.node != "" ==>
      var db: Db := map[0 := ns];
      Valid(db) && Sync.Agreeable(db, {cluster}, kind, cluster, [o]) && !Sync.HasKey(db, kind, cluster, o)
      && Sync.NamespaceKnown(db, kind, cluster, o) && !NodeKnown(db, kind, cluster, o)
  {
    var db: Db := map[0 := ns];
    SingleIsFound(db, NAMESPACE, cluster, None, o.namespace, 0);
  }
}
