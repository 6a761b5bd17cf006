/**
 Purging a cluster's rows and garbage collecting rows of clusters that are gone. Both walk the
 manager tree children first (pkg/kubeserver/models/clusters.go:820-830 and 1155-1174,
 clusterresource.go:160-164 and 809-824, namespaceresource.go:207-214, cluster_api.go:107-130).
 */
module Purge {
  import opened Wrappers
  import opened ClusterTables
  import opened ClusterStore
  import opened ManagerTree
  import Managers
  import Compare
  import Sync

  /** Each existing namespace a row refers to, and each existing node, is in the row's own cluster. */
  ghost predicate RefsInCluster(db: Db) {
    forall id :: id in db ==>
      && (NamespaceExists(db, db[id].namespaceId) ==> db[db[id].namespaceId.value].clusterId == db[id].clusterId)
      && (NodeExists(db, db[id].nodeId) ==> db[db[id].nodeId.value].clusterId == db[id].clusterId)
  }

  predicate NamespaceExists(db: Db, ns: Option<RowId>) {
    ns.Some? && ns.value in db && db[ns.value].kind == NAMESPACE
  }

  // ----- purge -----

  /** No remaining row refers to a namespace row that was there at first and is gone. */
  ghost predicate NoOrphan(db: Db, db': Db) {
    forall id :: id in db' && db'[id].kind.namespaceScope && NamespaceExists(db, db'[id].namespaceId) ==>
      db'[id].namespaceId.value in db'
  }

  /** The walk reaches the kind, and not the namespaces up to there. */
  predicate Precedes(plan: seq<Kind>, kind: Kind) {
    exists r :: 0 <= r < |plan| && plan[r] == kind && NAMESPACE !in plan[..r + 1]
  }

  predicate InNamespaceOf(db: Db, cluster: ClusterId, row: Row) {
    row.kind.namespaceScope && NamespaceExists(db, row.namespaceId) && db[row.namespaceId.value].clusterId == cluster
  }

  /** What can be said before the purge: the rows in the cluster's namespaces are the cluster's own, of
      kinds the walk takes before the namespaces. */
  ghost predicate Safe(db: Db, plan: seq<Kind>, cluster: ClusterId) {
    NAMESPACE in plan ==>
      forall id :: id in db && InNamespaceOf(db, cluster, db[id]) ==>
                     db[id].clusterId == cluster && Precedes(plan, db[id].kind)
  }

  /** The kinds plan[..n] are purged; of the kinds plan[..m] rows may be gone; all else is as at first. */
  ghost predicate PurgedTo(db: Db, db': Db, plan: seq<Kind>, cluster: ClusterId, n: nat, m: nat) {
    && n <= m <= |plan|
    && (forall id :: id in db' ==> id in db && db'[id] == db[id])
    && (forall id :: id in db && id !in db' ==> db[id].clusterId == cluster && db[id].kind in plan[..m])
    && (forall id :: id in db' && db'[id].clusterId == cluster ==> db'[id].kind !in plan[..n])
  }

  /** Every state on the way is safe: by the time a namespace row goes, the rows in it are gone. */
  lemma PurgedToIsSafe(db: Db, db': Db, plan: seq<Kind>, cluster: ClusterId, n: nat, m: nat)
    requires PurgedTo(db, db', plan, cluster, n, m) && m <= n + 1 && Safe(db, plan, cluster)
    ensures NoOrphan(db, db')
  {
    forall id | id in db' && db'[id].kind.namespaceScope && NamespaceExists(db, db'[id].namespaceId)
      ensures db'[id].namespaceId.value in db'
    {
      var ns, k := db'[id].namespaceId.value, db'[id].kind;
      assert forall q :: 0 <= q < m ==> plan[..m][q] == plan[q];
      if db[ns].clusterId == cluster && NAMESPACE in plan {
        assert InNamespaceOf(db, cluster, db[id]);
        var r :| 0 <= r < |plan| && plan[r] == k && NAMESPACE !in plan[..r + 1];
        assert forall q :: 0 <= q < n ==> plan[..n][q] == plan[q];
        assert r >= n;
        assert plan[..m] <= plan[..r + 1];
      }
    }
  }

  /** Once the namespaces are purged and nothing later on the walk, a row that was not protected is
      left without its namespace. */
  lemma NamespacesPurgedIsUnsafe(db: Db, db': Db, plan: seq<Kind>, cluster: ClusterId, n: nat)
    requires n < |plan| && plan[n] == NAMESPACE && NAMESPACE !in plan[..n]
    requires PurgedTo(db, db', plan, cluster, n + 1, n + 1) && !Safe(db, plan, cluster)
    ensures !NoOrphan(db, db')
    ensures exists ns :: ns in db && ns !in db' && Of(db[ns], NAMESPACE, cluster)
  {
    var id :| id in db && InNamespaceOf(db, cluster, db[id])
              && !(db[id].clusterId == cluster && Precedes(plan, db[id].kind));
    var ns, k := db[id].namespaceId.value, db[id].kind;
    assert plan[..n + 1] == plan[..n] + [NAMESPACE];
    if k in plan[..n] {
      var r :| 0 <= r < n && plan[..n][r] == k;
      assert plan[..r + 1] == plan[..n][..r + 1];
      assert Precedes(plan, k);
    }
    assert id in db' && ns !in db';
  }

  /** A state written since leaves a row without its namespace. */
  ghost predicate Orphans(db: Db, before: seq<Db>, trail: seq<Db>) {
    exists i :: |before| <= i < |trail| && !NoOrphan(db, trail[i])
  }

  /** Every state written since is safe, when the plan is. */
  ghost predicate SafeSince(db: Db, plan: seq<Kind>, cluster: ClusterId, before: seq<Db>, trail: seq<Db>) {
    && |before| <= |trail| && trail[..|before|] == before
    && (Safe(db, plan, cluster) ==> !Orphans(db, before, trail))
  }

  /** Going through plan[n..m] has shown it, when the plan is not. */
  ghost predicate ShownSince(db: Db, plan: seq<Kind>, cluster: ClusterId, n: nat, m: nat, before: seq<Db>, trail: seq<Db>)
    requires n <= m <= |plan|
  {
    !Safe(db, plan, cluster) && NAMESPACE !in plan[..n] && NAMESPACE in plan[..m] ==> Orphans(db, before, trail)
  }

  lemma SafeSinceThen(db: Db, plan: seq<Kind>, cluster: ClusterId, a: seq<Db>, b: seq<Db>, c: seq<Db>)
    requires SafeSince(db, plan, cluster, a, b) && SafeSince(db, plan, cluster, b, c)
    ensures SafeSince(db, plan, cluster, a, c)
  {
    assert c[..|a|] == c[..|b|][..|a|] == a;
    assert forall i :: |a| <= i < |b| ==> c[i] == c[..|b|][i];
  }

  lemma ShownSinceThen(
    db: Db, plan: seq<Kind>, cluster: ClusterId, n: nat, m: nat, k: nat, a: seq<Db>, b: seq<Db>, c: seq<Db>)
    requires n <= m <= k <= |plan|
    requires |a| <= |b| <= |c| && c[..|b|] == b
    requires ShownSince(db, plan, cluster, n, m, a, b) && ShownSince(db, plan, cluster, m, k, b, c)
    ensures ShownSince(db, plan, cluster, n, k, a, c)
  {
    if Orphans(db, a, b) {
      var i :| |a| <= i < |b| && !NoOrphan(db, b[i]);
      assert c[i] == c[..|b|][i];
    }
  }

  /** An error-free walk over plan[n..m]. */
  ghost predicate Walked(
    db: Db, now: Db, plan: seq<Kind>, cluster: ClusterId, n: nat, m: nat, before: seq<Db>, trail: seq<Db>)
  {
    && n <= m <= |plan| && PurgedTo(db, now, plan, cluster, m, m)
    && SafeSince(db, plan, cluster, before, trail) && ShownSince(db, plan, cluster, n, m, before, trail)
  }

  lemma WalkOn(
    db: Db, now: Db, plan: seq<Kind>, cluster: ClusterId, n: nat, m: nat, k: nat, a: seq<Db>, b: seq<Db>, c: seq<Db>)
    requires n <= m <= k <= |plan| && SafeSince(db, plan, cluster, a, b) && ShownSince(db, plan, cluster, n, m, a, b)
    requires Walked(db, now, plan, cluster, m, k, b, c)
    ensures Walked(db, now, plan, cluster, n, k, a, c)
  {
    SafeSinceThen(db, plan, cluster, a, b, c);
    ShownSinceThen(db, plan, cluster, n, m, k, a, b, c);
  }

  lemma PurgeOneMore(
    db: Db, before: Db, plan: seq<Kind>, cluster: ClusterId, n: nat, id: RowId, trail0: seq<Db>, trail: seq<Db>)
    requires n < |plan| && PurgedTo(db, before, plan, cluster, n, n + 1)
    requires id in before && Of(before[id], plan[n], cluster)
    requires SafeSince(db, plan, cluster, trail0, trail)
    ensures PurgedTo(db, before - {id}, plan, cluster, n, n + 1)
    ensures SafeSince(db, plan, cluster, trail0, trail + [before - {id}])
  {
    assert plan[..n + 1][n] == plan[n];
    if Safe(db, plan, cluster) {
      PurgedToIsSafe(db, before - {id}, plan, cluster, n, n + 1);
    }
  }

  lemma KindPurged(db: Db, before: Db, after: Db, plan: seq<Kind>, cluster: ClusterId, n: nat, objs: seq<Sync.Loaded>)
    requires n < |plan| && Sync.Loads(before, plan[n], cluster, objs)
    requires PurgedTo(db, after, plan, cluster, n, n + 1) && after == before - Sync.IdSet(objs)
    ensures PurgedTo(db, after, plan, cluster, n + 1, n + 1)
  {
    assert plan[..n + 1] == plan[..n] + [plan[n]];
    forall id | id in after && after[id].clusterId == cluster ensures after[id].kind != plan[n] {
      var l := Sync.Loaded(id, before[id]);
      assert l in objs ==> l.id in Sync.IdSet(objs);
      assert id in Ids(before, plan[n], cluster) ==> l in objs;
    }
  }

  /** The state after the last namespace row has gone is one of those written. */
  lemma KindShown(
    db: Db, before: Db, after: Db, plan: seq<Kind>, cluster: ClusterId, n: nat, trail0: seq<Db>, trail: seq<Db>)
    requires n < |plan| && PurgedTo(db, before, plan, cluster, n, n) && PurgedTo(db, after, plan, cluster, n + 1, n + 1)
    requires |trail0| <= |trail| && (before != after ==> |trail| > |trail0| && trail[|trail| - 1] == after)
    ensures ShownSince(db, plan, cluster, n, n + 1, trail0, trail)
  {
    assert plan[..n + 1] == plan[..n] + [plan[n]];
    if !Safe(db, plan, cluster) && NAMESPACE !in plan[..n] && plan[n] == NAMESPACE {
      NamespacesPurgedIsUnsafe(db, after, plan, cluster, n);
      var ns :| ns in db && ns !in after && Of(db[ns], NAMESPACE, cluster);
      assert ns in before;
    }
  }

  /** The first i rows of the kind are gone. */
  ghost predicate Deleting(
    db: Db, before: Db, now: Db, plan: seq<Kind>, cluster: ClusterId, n: nat, objs: seq<Sync.Loaded>, i: nat,
    trail0: seq<Db>, trail: seq<Db>)
  {
    && i <= |objs| && now == before - Sync.IdSet(objs[..i])
    && PurgedTo(db, now, plan, cluster, n, n + 1)
    && SafeSince(db, plan, cluster, trail0, trail)
    && (i > 0 ==> |trail| > |trail0| && trail[|trail| - 1] == now)
  }

  lemma DeleteOne(
    db: Db, before: Db, now: Db, plan: seq<Kind>, cluster: ClusterId, n: nat, objs: seq<Sync.Loaded>, i: nat,
    trail0: seq<Db>, trail: seq<Db>)
    requires n < |plan| && Sync.Loads(before, plan[n], cluster, objs) && i < |objs|
    requires Deleting(db, before, now, plan, cluster, n, objs, i, trail0, trail)
    ensures objs[i].id in now
    ensures var now' := now - {objs[i].id};
            Deleting(db, before, now', plan, cluster, n, objs, i + 1, trail0, trail + [now'])
  {
    Sync.IdSetNext(objs, i);
    assert Sync.IsLoaded(before, plan[n], cluster, objs[i]);
    PurgeOneMore(db, now, plan, cluster, n, objs[i].id, trail0, trail);
  }

  /** SClusterResourceBaseManager.PurgeAllByCluster, at position n of a walk over the plan. */
  method PurgeAllByCluster(
    store: Store, kind: Kind, cluster: ClusterId, ghost db: Db, ghost plan: seq<Kind>, ghost n: nat)
    returns (ok: bool)
    requires n < |plan| && plan[n] == kind && PurgedTo(db, store.rows, plan, cluster, n, n)
    modifies store`rows, store`gone, store`faults, store`trail
    ensures IdsMove(old(store.rows), old(store.gone), store.rows, store.gone)
    ensures store.faults >= old(store.faults) && (ok <==> store.faults == old(store.faults))
    ensures PurgedTo(db, store.rows, plan, cluster, n, n + 1)
    ensures SafeSince(db, plan, cluster, old(store.trail), store.trail)
    ensures ok ==> Walked(db, store.rows, plan, cluster, n, n + 1, old(store.trail), store.trail)
  {
    var objs;
    assert plan[..n + 1] == plan[..n] + [kind];
    objs, ok := Sync.GetClusterModelObjects(store, kind, cluster);
    if !ok { return; }
    ghost var before: Db := store.rows;
    assert objs[..0] == [];
    for i := 0 to |objs|
      invariant store.faults == old(store.faults)
      invariant Deleting(db, before, store.rows, plan, cluster, n, objs, i, old(store.trail), store.trail)
      invariant IdsMove(old(store.rows), old(store.gone), store.rows, store.gone)
    {
      DeleteOne(db, before, store.rows, plan, cluster, n, objs, i, old(store.trail), store.trail);
      ok := store.Delete(objs[i].id);
      if !ok { return; }
    }
    assert objs[..|objs|] == objs;
    KindPurged(db, before, store.rows, plan, cluster, n, objs);
    KindShown(db, before, store.rows, plan, cluster, n, old(store.trail), store.trail);
  }

  /** One manager of the walk: its sub managers, then its own rows. */
  method PurgeManager(
    store: Store, man: Manager, cluster: ClusterId, ghost db: Db, ghost plan: seq<Kind>, ghost n: nat, ghost m: nat)
    returns (ok: bool)
    requires n <= m <= |plan| && plan[n..m] == VisitAfter(man)
    requires PurgedTo(db, store.rows, plan, cluster, n, n)
    modifies store`rows, store`gone, store`faults, store`trail
    ensures IdsMove(old(store.rows), old(store.gone), store.rows, store.gone)
    ensures store.faults >= old(store.faults) && (ok <==> store.faults == old(store.faults))
    ensures PurgedTo(db, store.rows, plan, cluster, n, m)
    ensures SafeSince(db, plan, cluster, old(store.trail), store.trail)
    ensures ok ==> Walked(db, store.rows, plan, cluster, n, m, old(store.trail), store.trail)
    decreases man
  {
    ghost var mid := m - 1;
    SubsPart(plan, n, m, man);
    ok := PurgeSubClusterResource(store, man.subs, cluster, db, plan, n, mid);
    PurgedLoosely(db, store.rows, plan, cluster, n, mid, n, m);
    if !ok { return; }
    ghost var trail := store.trail;
    ok := PurgeAllByCluster(store, man.kind, cluster, db, plan, mid);
    PurgedLoosely(db, store.rows, plan, cluster, mid, m, n, m);
    SafeSinceThen(db, plan, cluster, old(store.trail), trail, store.trail);
    if ok { WalkOn(db, store.rows, plan, cluster, n, mid, m, old(store.trail), trail, store.trail); }
  }

  lemma SubsPart(plan: seq<Kind>, n: nat, m: nat, man: Manager)
    requires n <= m <= |plan| && plan[n..m] == VisitAfter(man)
    ensures n < m && plan[n..m - 1] == Postorder(man.subs) && plan[m - 1] == man.kind
  {
    var subs := Postorder(man.subs);
    assert plan[n..m][..|subs|] == subs && plan[n..m][|subs|] == man.kind;
    assert plan[n..m - 1] == plan[n..m][..m - 1 - n];
  }

  /** purgeSubClusterResource: the first error ends the walk. */
  method PurgeSubClusterResource(
    store: Store, mans: seq<Manager>, cluster: ClusterId, ghost db: Db, ghost plan: seq<Kind>, ghost n: nat, ghost m: nat)
    returns (ok: bool)
    requires n <= m <= |plan| && plan[n..m] == Postorder(mans)
    requires PurgedTo(db, store.rows, plan, cluster, n, n)
    modifies store`rows, store`gone, store`faults, store`trail
    ensures IdsMove(old(store.rows), old(store.gone), store.rows, store.gone)
    ensures store.faults >= old(store.faults) && (ok <==> store.faults == old(store.faults))
    ensures PurgedTo(db, store.rows, plan, cluster, n, m)
    ensures SafeSince(db, plan, cluster, old(store.trail), store.trail)
    ensures ok ==> Walked(db, store.rows, plan, cluster, n, m, old(store.trail), store.trail)
    decreases mans
  {
    ok := true;
    var i := 0;
    ghost var at := n;
    assert mans[..0] == [];
    while i < |mans|
      invariant i <= |mans| && ok && store.faults == old(store.faults)
      invariant n <= at <= m && plan[n..at] == Postorder(mans[..i])
      invariant Walked(db, store.rows, plan, cluster, n, at, old(store.trail), store.trail)
      invariant IdsMove(old(store.rows), old(store.gone), store.rows, store.gone)
    {
      ghost var next := NextPart(plan, n, at, m, mans, i);
      ghost var trail := store.trail;
      ok := PurgeManager(store, mans[i], cluster, db, plan, at, next);
      if !ok {
        SafeSinceThen(db, plan, cluster, old(store.trail), trail, store.trail);
        PurgedLoosely(db, store.rows, plan, cluster, at, next, n, m);
        return;
      }
      WalkOn(db, store.rows, plan, cluster, n, at, next, old(store.trail), trail, store.trail);
      at := next;
      i := i + 1;
    }
    assert mans[..|mans|] == mans;
    assert |plan[n..at]| == |plan[n..m]|;
    PurgedLoosely(db, store.rows, plan, cluster, m, m, n, m);
  }

  /** The part of the plan that manager i walks. */
  lemma NextPart(plan: seq<Kind>, n: nat, at: nat, m: nat, mans: seq<Manager>, i: nat) returns (next: nat)
    requires i < |mans| && n <= at <= m <= |plan|
    requires plan[n..m] == Postorder(mans) && plan[n..at] == Postorder(mans[..i])
    ensures at <= next <= m && plan[at..next] == VisitAfter(mans[i]) && plan[n..next] == Postorder(mans[..i + 1])
  {
    PostorderNext(mans, i);
    var a, b, rest := Postorder(mans[..i]), VisitAfter(mans[i]), Postorder(mans[i + 1..]);
    next := at + |b|;
    assert |plan[n..at]| == at - n && |plan[n..m]| == m - n;
    Slice(plan, n, m, |a|, |a| + |b|);
    Slice(plan, n, m, 0, |a| + |b|);
    Middle(a, b, rest);
  }

  lemma Slice(s: seq<Kind>, n: nat, m: nat, x: nat, y: nat)
    requires n <= m <= |s| && x <= y <= m - n
    ensures s[n..m][x..y] == s[n + x..n + y]
  {
    var a, b := s[n..m][x..y], s[n + x..n + y];
    assert |a| == |b| && forall k :: 0 <= k < |a| ==> a[k] == s[n..m][x + k] == s[n + x + k] == b[k];
  }

  lemma Middle(a: seq<Kind>, b: seq<Kind>, c: seq<Kind>)
    ensures (a + b + c)[|a|..|a| + |b|] == b && (a + b + c)[0..|a| + |b|] == a + b
  {
  }

  lemma PurgedLoosely(
    db: Db, db': Db, plan: seq<Kind>, cluster: ClusterId, n: nat, m: nat, n': nat, m': nat)
    requires PurgedTo(db, db', plan, cluster, n, m) && n' <= n && m <= m' <= |plan|
    ensures PurgedTo(db, db', plan, cluster, n', m')
  {
    assert plan[..n'] <= plan[..n] && plan[..m] <= plan[..m'];
    assert forall k :: k in plan[..n'] ==> k in plan[..n];
    assert forall k :: k in plan[..m] ==> k in plan[..m'];
  }

  /** PurgeAllClusterResource. An error-free purge leaves exactly the rows of other clusters and of kinds
      outside the tree. If the rows and the tree are safe then no state on the way, finished or not, has a
      row left whose namespace row the purge has deleted; and if they are not, an error-free purge goes
      through such a state. */
  method PurgeAllClusterResource(store: Store, roots: seq<Manager>, cluster: ClusterId) returns (ok: bool)
    modifies store`rows, store`gone, store`faults, store`trail
    ensures IdsMove(old(store.rows), old(store.gone), store.rows, store.gone)
    ensures store.faults == old(store.faults) ==> ok
    ensures forall id :: id in store.rows ==> id in old(store.rows) && store.rows[id] == old(store.rows)[id]
    ensures forall id :: id in old(store.rows) && old(store.rows)[id].clusterId != cluster ==> id in store.rows
    ensures ok ==> store.rows == OutsidePurge(old(store.rows), cluster, Preorder(roots))
    ensures |old(store.trail)| <= |store.trail|
    ensures Safe(old(store.rows), Postorder(roots), cluster) ==>
      !Orphans(old(store.rows), old(store.trail), store.trail)
    ensures ok && !Safe(old(store.rows), Postorder(roots), cluster) ==>
      Orphans(old(store.rows), old(store.trail), store.trail)
  {
    ghost var db: Db, plan := store.rows, Postorder(roots);
    KindsAlike(roots);
    assert plan[0..|plan|] == plan;
    ok := PurgeSubClusterResource(store, roots, cluster, db, plan, 0, |plan|);
    assert plan[..|plan|] == plan;
  }

  ghost function OutsidePurge(db: Db, cluster: ClusterId, ks: seq<Kind>): Db {
    map id | id in db && !(db[id].clusterId == cluster && db[id].kind in ks) :: db[id]
  }

  lemma KindsAlike(mans: seq<Manager>)
    ensures forall k :: k in Preorder(mans) <==> k in Postorder(mans)
  {
    SameKinds(mans);
    forall k | true ensures k in Preorder(mans) <==> k in Postorder(mans) {
      assert k in multiset(Preorder(mans)) <==> k in multiset(Postorder(mans));
    }
  }

  /** In the registered tree, with references inside clusters, that is to say: no row of a namespaced kind
      that stands at the root is in a namespace of the cluster. */
  lemma RegisteredIsSafeIff(db: Db, before: seq<Kind>, below: seq<Kind>, after: seq<Kind>, cluster: ClusterId)
    requires RefsInCluster(db) && Distinct(Preorder(Registered(before, below, after)))
    requires forall id :: id in db && db[id].kind.namespaceScope ==> db[id].kind in before + below + after
    ensures Safe(db, Postorder(Registered(before, below, after)), cluster) <==>
            forall id :: id in db && InNamespaceOf(db, cluster, db[id]) ==> db[id].kind !in after
  {
    var plan := Postorder(Registered(before, below, after));
    var n := |before + below|;
    DistinctBothWays(Registered(before, below, after));
    RegisteredWalks(before, below, after);
    assert plan[n] == NAMESPACE && plan[..n] == before + below;
    assert forall q :: 0 <= q < n ==> plan[..n][q] == plan[q];
    forall k | k in before + below + after ensures Precedes(plan, k) <==> k !in after {
      FirstPart(plan, before + below, after, n, k);
    }
  }

  lemma DistinctBothWays(mans: seq<Manager>)
    requires Distinct(Preorder(mans))
    ensures Distinct(Postorder(mans))
  {
    SameKinds(mans);
    Compare.PairwisePermutation((k: Kind, l: Kind) => k != l, Preorder(mans), Postorder(mans));
  }

  /** For the program's own managers: a purge is safe if and only if no volume claim is in a namespace of
      the cluster, since claims are namespaced and yet registered at the root. */
  lemma SafeIffNoClaims(db: Db, cluster: ClusterId)
    requires RefsInCluster(db) && forall id :: id in db ==> db[id].kind in Managers.KINDS
    ensures Safe(db, Postorder(Managers.MANAGERS), cluster) <==>
            forall id :: id in db && InNamespaceOf(db, cluster, db[id]) ==> db[id].kind != Managers.CLAIM
  {
    Managers.ManagersInSyncOrder();
    Managers.NamespacedAtTheRoot();
    RegisteredIsSafeIff(db, Managers.BEFORE, Managers.BELOW, Managers.AFTER, cluster);
  }

  /** A row of a kind that stands at the root, in a namespace of the cluster, is never safe. */
  lemma LateIsNotSafe(
    db: Db, before: seq<Kind>, below: seq<Kind>, after: seq<Kind>, cluster: ClusterId, id: RowId)
    requires Distinct(Preorder(Registered(before, below, after)))
    requires id in db && InNamespaceOf(db, cluster, db[id]) && db[id].kind in after
    ensures !Safe(db, Postorder(Registered(before, below, after)), cluster)
  {
    var plan := Postorder(Registered(before, below, after));
    var n := |before + below|;
    DistinctBothWays(Registered(before, below, after));
    RegisteredWalks(before, below, after);
    assert plan[n] == NAMESPACE;
    assert NAMESPACE !in before + below by {
      assert forall q :: 0 <= q < n ==> (before + below)[q] == plan[q];
    }
    FirstPart(plan, before + below, after, n, db[id].kind);
  }

  lemma ClaimIsNotSafe(db: Db, cluster: ClusterId, id: RowId)
    requires id in db && InNamespaceOf(db, cluster, db[id]) && db[id].kind == Managers.CLAIM
    ensures !Safe(db, Postorder(Managers.MANAGERS), cluster)
  {
    Managers.ManagersInSyncOrder();
    Managers.NamespacedAtTheRoot();
    LateIsNotSafe(db, Managers.BEFORE, Managers.BELOW, Managers.AFTER, cluster, id);
  }

  /** A claim and its namespace are enough to make it go wrong. */
  lemma ClaimLeftWithoutNamespace(cluster: ClusterId, ns: Row, claim: Row)
    requires Of(ns, NAMESPACE, cluster) && Of(claim, Managers.CLAIM, cluster)
    requires ns.namespaceId == None && claim.namespaceId == Some(0) && ns.nodeId == claim.nodeId == None
    ensures var db: Db := map[0 := ns, 1 := claim];
            Valid(db) && RefsInCluster(db) && !Safe(db, Postorder(Managers.MANAGERS), cluster)
  {
    ClaimIsNotSafe(map[0 := ns, 1 := claim], cluster, 1);
  }

  lemma FirstPart(plan: seq<Kind>, first: seq<Kind>, after: seq<Kind>, n: nat, k: Kind)
    requires n == |first| && plan == first + [NAMESPACE, NODE] + after && NAMESPACE !in first
    requires Distinct(plan) && (k in first || k in after)
    ensures Precedes(plan, k) <==> k !in after
  {
    if k in after {
      var q :| 0 <= q < |after| && after[q] == k;
      assert plan[n + 2 + q] == k && plan[n] == NAMESPACE;
      forall r | 0 <= r < |plan| && plan[r] == k ensures NAMESPACE in plan[..r + 1] {
        assert r == n + 2 + q;
        assert plan[..r + 1][n] == NAMESPACE;
      }
    } else {
      var r :| 0 <= r < |first| && first[r] == k;
      assert plan[r] == k && plan[..r + 1] == first[..r + 1];
    }
  }

  // ----- garbage collection -----

  predicate NodeExists(db: Db, node: Option<RowId>) {
    node.Some? && node.value in db && db[node.value].kind == NODE
  }

  /** What keeps a namespaced row: its namespace is there, or it is a pod and its node is. */
  predicate Anchored(db: Db, row: Row) {
    && row.kind.namespaceScope
    && (NamespaceExists(db, row.namespaceId) || (row.kind == POD && NodeExists(db, row.nodeId)))
  }

  /** GetGCQuery: rows whose cluster is gone, for a namespaced kind only those whose namespace is gone as
      well, and of pods only those whose node is gone too. The columns are never NULL
      (namespaceresource.go:33, pods.go:70): a row without a namespace or node holds the empty string,
      which is no row's id, so the query picks it. */
  function GcQuery(db: Db, clusters: set<ClusterId>, kind: Kind): set<RowId> {
    set id | id in db && db[id].kind == kind && db[id].clusterId !in clusters && !Anchored(db, db[id])
  }

  /** One pass over the kinds in order. */
  function GcPass(db: Db, clusters: set<ClusterId>, ks: seq<Kind>): Db
    decreases ks
  {
    if ks == [] then db else GcPass(db - GcQuery(db, clusters, ks[0]), clusters, ks[1..])
  }

  lemma {:induction false} GcPassAppend(db: Db, clusters: set<ClusterId>, a: seq<Kind>, b: seq<Kind>)
    ensures GcPass(db, clusters, a + b) == GcPass(GcPass(db, clusters, a), clusters, b)
    decreases a
  {
    if a == [] {
      assert a + b == b;
    } else {
      assert (a + b)[0] == a[0] && (a + b)[1..] == a[1..] + b;
      GcPassAppend(db - GcQuery(db, clusters, a[0]), clusters, a[1..], b);
    }
  }

  /** A pass only deletes, and never a row of a live cluster, whatever the order and the references. */
  lemma {:induction false} GcSparesLive(db: Db, clusters: set<ClusterId>, ks: seq<Kind>)
    ensures forall id :: id in GcPass(db, clusters, ks) ==> id in db && GcPass(db, clusters, ks)[id] == db[id]
    ensures forall id :: id in db && db[id].clusterId in clusters ==> id in GcPass(db, clusters, ks)
    decreases ks
  {
    if ks != [] {
      GcSparesLive(db - GcQuery(db, clusters, ks[0]), clusters, ks[1..]);
    }
  }

  /** A row its kind's query would pick now is gone after the pass. */
  lemma {:induction false} GcTakes(db: Db, clusters: set<ClusterId>, ks: seq<Kind>, id: RowId)
    requires id in db && db[id].kind in ks && db[id].clusterId !in clusters
    requires !Anchored(db, db[id])
    ensures id !in GcPass(db, clusters, ks)
    decreases ks
  {
    var db' := db - GcQuery(db, clusters, ks[0]);
    if ks[0] == db[id].kind {
      GcSparesLive(db', clusters, ks[1..]);
    } else {
      GcTakes(db', clusters, ks[1..], id);
    }
  }

  /** A dead cluster's row that no pass ever takes: its namespace, or a pod's node, is one of a live cluster. */
  predicate Stuck(db: Db, clusters: set<ClusterId>, row: Row) {
    && row.clusterId !in clusters && row.kind.namespaceScope
    && ((row.namespaceId.Some? && row.namespaceId.value in db && Live(db[row.namespaceId.value], NAMESPACE, clusters))
        || (row.kind == POD && row.nodeId.Some? && row.nodeId.value in db && Live(db[row.nodeId.value], NODE, clusters)))
  }

  predicate Live(row: Row, kind: Kind, clusters: set<ClusterId>) {
    row.kind == kind && row.clusterId in clusters
  }

  lemma {:induction false} GcLeavesStuck(db: Db, clusters: set<ClusterId>, ks: seq<Kind>, id: RowId)
    requires id in db && Stuck(db, clusters, db[id])
    ensures id in GcPass(db, clusters, ks)
    decreases ks
  {
    if ks != [] {
      GcLeavesStuck(db - GcQuery(db, clusters, ks[0]), clusters, ks[1..], id);
    }
  }

  /** What two passes leave: live rows and stuck rows. */
  ghost function Remaining(db: Db, clusters: set<ClusterId>): Db {
    map id | id in db && (db[id].clusterId in clusters || Stuck(db, clusters, db[id])) :: db[id]
  }

  /** Garbage collection settles in two passes, in any visiting order that covers the kinds in use:
      the first takes the dead clusters' namespaces, the second the rows that were in them, and a
      third finds nothing. */
  lemma TwoPassesSettle(db: Db, clusters: set<ClusterId>, ks: seq<Kind>)
    requires NAMESPACE in ks && NODE in ks && forall id :: id in db ==> db[id].kind in ks
    ensures GcPass(GcPass(db, clusters, ks), clusters, ks) == Remaining(db, clusters)
    ensures GcPass(Remaining(db, clusters), clusters, ks) == Remaining(db, clusters)
  {
    var one := GcPass(db, clusters, ks);
    var two := GcPass(one, clusters, ks);
    GcSparesLive(db, clusters, ks);
    GcSparesLive(one, clusters, ks);
    forall id | id in db ensures id in two <==> id in Remaining(db, clusters) {
      var row := db[id];
      if row.clusterId !in clusters {
        if Stuck(db, clusters, row) {
          GcLeavesStuck(db, clusters, ks, id);
          assert Stuck(one, clusters, one[id]);
          GcLeavesStuck(one, clusters, ks, id);
        } else {
          if row.kind.namespaceScope && NamespaceExists(db, row.namespaceId) { GcTakes(db, clusters, ks, row.namespaceId.value); }
          if row.kind == POD && NodeExists(db, row.nodeId) { GcTakes(db, clusters, ks, row.nodeId.value); }
          if id in one { GcTakes(one, clusters, ks, id); }
        }
      }
    }
    assert two == Remaining(db, clusters);
    RemainingIsFixed(db, clusters, ks);
  }

  lemma RemainingIsFixed(db: Db, clusters: set<ClusterId>, ks: seq<Kind>)
    ensures GcPass(Remaining(db, clusters), clusters, ks) == Remaining(db, clusters)
  {
    var rest := Remaining(db, clusters);
    GcSparesLive(rest, clusters, ks);
    forall id | id in rest ensures id in GcPass(rest, clusters, ks) {
      if rest[id].clusterId !in clusters {
        assert Stuck(rest, clusters, rest[id]);
        GcLeavesStuck(rest, clusters, ks, id);
      }
    }
  }

  /** Two passes delete exactly the rows whose cluster is gone if and only if no such row refers to a
      namespace or a node of a live cluster. */
  lemma GcExactIffNoneStuck(db: Db, clusters: set<ClusterId>, ks: seq<Kind>)
    requires NAMESPACE in ks && NODE in ks && forall id :: id in db ==> db[id].kind in ks
    ensures GcPass(GcPass(db, clusters, ks), clusters, ks) == (map id | id in db && db[id].clusterId in clusters :: db[id])
            <==> (forall id :: id in db ==> !Stuck(db, clusters, db[id]))
  {
    TwoPassesSettle(db, clusters, ks);
    var live := map id | id in db && db[id].clusterId in clusters :: db[id];
    assert forall id :: id in db && Stuck(db, clusters, db[id]) ==> id in Remaining(db, clusters) && id !in live;
    assert (forall id :: id in db ==> !Stuck(db, clusters, db[id])) ==> Remaining(db, clusters) == live;
  }

  /** References that stay in the cluster leave nothing stuck. */
  lemma RefsInClusterNoneStuck(db: Db, clusters: set<ClusterId>)
    requires RefsInCluster(db)
    ensures forall id :: id in db ==> !Stuck(db, clusters, db[id])
  {
  }

  /** One pass is not enough when children are visited first: a pod and its namespace, both of a
      cluster that is gone. */
  lemma OnePassIsNotEnough()
    ensures var db: Db := map[0 := Row(NAMESPACE, 7, "a", "ns", "1", "active", None, None),
                              1 := Row(POD, 7, "b", "pod", "1", "active", Some(0), None)];
            var ks := [POD, NAMESPACE, NODE];
            1 in GcPass(db, {}, ks) && GcPass(GcPass(db, {}, ks), {}, ks) == map[]
  {
    var ns, pod := Row(NAMESPACE, 7, "a", "ns", "1", "active", None, None), Row(POD, 7, "b", "pod", "1", "active", Some(0), None);
    var db: Db := map[0 := ns, 1 := pod];
    var ks := [POD, NAMESPACE, NODE];
    assert GcQuery(db, {}, POD) == {};
    assert db - {} == db;
    assert ks[1..] == [NAMESPACE, NODE] && ks[1..][1..] == [NODE] && ks[1..][1..][1..] == [];
    assert GcPass(db, {}, ks) == GcPass(db, {}, [NAMESPACE, NODE]);
    assert 1 !in GcQuery(db, {}, NAMESPACE);
    var db' := db - GcQuery(db, {}, NAMESPACE);
    assert GcPass(db, {}, [NAMESPACE, NODE]) == GcPass(db', {}, [NODE]);
    assert GcPass(db', {}, [NODE]) == db' - GcQuery(db', {}, NODE);
    TwoPassesSettle(db, {}, ks);
  }

  /** A row that is stuck: a dead cluster's, in a namespace of a live one. */
  lemma StuckRowStays(ks: seq<Kind>)
    requires NAMESPACE in ks && NODE in ks && POD in ks
    ensures var db: Db := map[0 := Row(NAMESPACE, 1, "a", "ns", "1", "active", None, None),
                              1 := Row(POD, 7, "b", "pod", "1", "active", Some(0), None)];
            GcPass(GcPass(db, {1}, ks), {1}, ks) == db && !RefsInCluster(db)
  {
    var ns, pod := Row(NAMESPACE, 1, "a", "ns", "1", "active", None, None), Row(POD, 7, "b", "pod", "1", "active", Some(0), None);
    var db: Db := map[0 := ns, 1 := pod];
    assert Stuck(db, {1}, pod) && db[1] == pod && db[0] == ns;
    TwoPassesSettle(db, {1}, ks);
    assert Remaining(db, {1}) == db;
  }

  method PerformGC(store: Store, man: Manager) returns (ok: bool)
    modifies store`rows, store`gone, store`faults, store`trail
    ensures IdsMove(old(store.rows), old(store.gone), store.rows, store.gone)
    ensures store.faults >= old(store.faults)
    ensures store.faults == old(store.faults) ==> ok && store.rows == GcPass(old(store.rows), store.clusters, VisitAfter(man))
    ensures OnlyDeadGone(old(store.rows), store.rows, store.clusters)
    decreases man
  {
    ok := true;
    ghost var db: Db := store.rows;
    var i := 0;
    assert man.subs[..0] == [];
    while i < |man.subs|
      invariant i <= |man.subs|
      invariant store.faults >= old(store.faults)
      invariant store.faults == old(store.faults) ==> store.rows == GcPass(db, store.clusters, Postorder(man.subs[..i]))
      invariant OnlyDeadGone(db, store.rows, store.clusters)
      invariant IdsMove(old(store.rows), old(store.gone), store.rows, store.gone)
    {
      PostorderNext(man.subs, i);
      GcPassAppend(db, store.clusters, Postorder(man.subs[..i]), VisitAfter(man.subs[i]));
      ok := PerformGC(store, man.subs[i]);
      if !ok { return; }
      i := i + 1;
    }
    assert man.subs[..|man.subs|] == man.subs;
    GcPassAppend(db, store.clusters, Postorder(man.subs), [man.kind]);
    ok := GcKind(store, man.kind);
    assert [man.kind][1..] == [];
  }

  /** No row changes, and none of a live cluster goes. */
  ghost predicate OnlyDeadGone(db: Db, db': Db, clusters: set<ClusterId>) {
    && (forall id :: id in db' ==> id in db && db'[id] == db[id])
    && (forall id :: id in db && db[id].clusterId in clusters ==> id in db')
  }

  method GcKind(store: Store, kind: Kind) returns (ok: bool)
    modifies store`rows, store`gone, store`faults, store`trail
    ensures IdsMove(old(store.rows), old(store.gone), store.rows, store.gone)
    ensures store.faults >= old(store.faults)
    ensures store.faults == old(store.faults) ==>
      ok && store.rows == old(store.rows) - GcQuery(old(store.rows), store.clusters, kind)
    ensures OnlyDeadGone(old(store.rows), store.rows, store.clusters)
  {
    ok := store.Query();
    if !ok { return; }
    ghost var db: Db := store.rows;
    var rest := GcQuery(store.rows, store.clusters, kind);
    ghost var all := rest;
    while rest != {}
      invariant rest <= all && store.faults == old(store.faults) && ok
      invariant store.rows == db - (all - rest)
      invariant IdsMove(old(store.rows), old(store.gone), store.rows, store.gone)
    {
      var id :| id in rest;
      ok := store.Delete(id);
      if !ok { return; }
      rest := rest - {id};
    }
  }

  /** SClusterManager.PerformGc: an error of one root is logged and the next root goes on. */
  method PerformGc(store: Store, roots: seq<Manager>)
    modifies store`rows, store`gone, store`faults, store`trail
    ensures IdsMove(old(store.rows), old(store.gone), store.rows, store.gone)
    ensures store.faults >= old(store.faults)
    ensures store.faults == old(store.faults) ==> store.rows == GcPass(old(store.rows), store.clusters, Postorder(roots))
    ensures OnlyDeadGone(old(store.rows), store.rows, store.clusters)
  {
    ghost var db: Db := store.rows;
    assert roots[..0] == [];
    for i := 0 to |roots|
      invariant store.faults >= old(store.faults)
      invariant store.faults == old(store.faults) ==> store.rows == GcPass(db, store.clusters, Postorder(roots[..i]))
      invariant OnlyDeadGone(db, store.rows, store.clusters)
      invariant IdsMove(old(store.rows), old(store.gone), store.rows, store.gone)
    {
      PostorderNext(roots, i);
      GcPassAppend(db, store.clusters, Postorder(roots[..i]), VisitAfter(roots[i]));
      var _ := PerformGC(store, roots[i]);
    }
    assert roots[..|roots|] == roots;
  }
}
