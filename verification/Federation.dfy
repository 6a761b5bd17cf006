/**
 Federated objects and the joint rows that attach them to clusters, every request being one step
 (pkg/kubeserver/models/fed_api.go:112-248, federated_resource.go:117-144 and 199-305,
 federated_namespaces.go:98-117, federated_namespace_resource.go:85-109, clusters.go:1137-1185).
 */
module Federation {

  type FedId = nat
  type ClusterId = nat
  type JointId = nat

  /** The federated managers, each with its own joint table. */
  datatype FedKind = FedNamespaces | FedClusterRoles | FedClusterRoleBindings | FedRoles | FedRoleBindings {
    predicate NamespaceScope() { FedRoles? || FedRoleBindings? }
  }

  /** namespace is the federatednamespace_id of objects in namespace scope. */
  datatype FedObject = FedObject(kind: FedKind, namespace: FedId)

  /** A row of the kind's joint table. */
  datatype Joint = Joint(kind: FedKind, fed: FedId, cluster: ClusterId)

  datatype State = State(clusters: set<ClusterId>, objects: map<FedId, FedObject>, joints: map<JointId, Joint>)

  const EMPTY := State({}, map[], map[])

  // ----- lookups -----

  predicate IsLive(s: State, kind: FedKind, fed: FedId) {
    fed in s.objects && s.objects[fed].kind == kind
  }

  function JointsOf(s: State, kind: FedKind, fed: FedId, cluster: ClusterId): set<JointId> {
    set j | j in s.joints && s.joints[j] == Joint(kind, fed, cluster)
  }

  /** GetAttachedClusters: the clusters in the object's joint rows that still exist. */
  function AttachedClusters(s: State, kind: FedKind, fed: FedId): set<ClusterId> {
    set j | j in s.joints && s.joints[j].kind == kind && s.joints[j].fed == fed
            && s.joints[j].cluster in s.clusters :: s.joints[j].cluster
  }

  /** FetchModelsByFednamespace over all namespace scope managers: the joint rows of live objects in
      the federated namespace. */
  function JointsInNamespace(s: State, ns: FedId): set<JointId> {
    set j | j in s.joints && s.joints[j].kind.NamespaceScope()
            && IsLive(s, s.joints[j].kind, s.joints[j].fed) && s.objects[s.joints[j].fed].namespace == ns
  }

  // ----- the checks of each request -----

  predicate CanCreate(s: State, fed: FedId, obj: FedObject) {
    fed !in s.objects && (obj.kind.NamespaceScope() ==> IsLive(s, FedNamespaces, obj.namespace))
  }

  /** The object is fetched, then ValidateAttachCluster runs. */
  predicate CanAttach(s: State, fed: FedId, cluster: ClusterId) {
    && fed in s.objects && cluster in s.clusters
    && JointsOf(s, s.objects[fed].kind, fed, cluster) == {}
    && (s.objects[fed].kind.NamespaceScope() ==> IsLive(s, FedNamespaces, s.objects[fed].namespace))
  }

  predicate CanDetach(s: State, fed: FedId, cluster: ClusterId) {
    fed in s.objects && cluster in s.clusters && JointsOf(s, s.objects[fed].kind, fed, cluster) != {}
  }

  /** ValidateDeleteCondition; a federated namespace also asks for its namespaced objects' joints. */
  predicate CanDelete(s: State, fed: FedId) {
    && fed in s.objects && AttachedClusters(s, s.objects[fed].kind, fed) == {}
    && (s.objects[fed].kind.FedNamespaces? ==> JointsInNamespace(s, fed) == {})
  }

  // ----- the same, said of the rows -----

  /** Some joint row is of the kind, object and cluster. */
  ghost predicate IsAttached(s: State, kind: FedKind, fed: FedId, cluster: ClusterId) {
    exists j :: j in s.joints && s.joints[j].kind == kind && s.joints[j].fed == fed && s.joints[j].cluster == cluster
  }

  /** The federated namespace that a role or role binding names. */
  predicate NamespaceThere(s: State, obj: FedObject) {
    obj.kind == FedRoles || obj.kind == FedRoleBindings ==>
      obj.namespace in s.objects && s.objects[obj.namespace].kind == FedNamespaces
  }

  /** Still in use: attached to a live cluster, or a namespace one of whose objects is attached. */
  ghost predicate InUse(s: State, fed: FedId)
    requires fed in s.objects
  {
    || (exists j :: j in s.joints && s.joints[j].kind == s.objects[fed].kind && s.joints[j].fed == fed
                    && s.joints[j].cluster in s.clusters)
    || (s.objects[fed].kind == FedNamespaces
        && exists j :: j in s.joints && (s.joints[j].kind == FedRoles || s.joints[j].kind == FedRoleBindings)
                       && s.joints[j].fed in s.objects && s.objects[s.joints[j].fed].kind == s.joints[j].kind
                       && s.objects[s.joints[j].fed].namespace == fed)
  }

  lemma AttachedIff(s: State, kind: FedKind, fed: FedId, cluster: ClusterId)
    ensures IsAttached(s, kind, fed, cluster) <==> JointsOf(s, kind, fed, cluster) != {}
  {
    if IsAttached(s, kind, fed, cluster) {
      var j :| j in s.joints && s.joints[j].kind == kind && s.joints[j].fed == fed && s.joints[j].cluster == cluster;
      assert j in JointsOf(s, kind, fed, cluster);
    } else {
      assert JointsOf(s, kind, fed, cluster) == {};
    }
  }

  lemma InUseIff(s: State, fed: FedId)
    requires fed in s.objects
    ensures CanDelete(s, fed) <==> !InUse(s, fed)
  {
    var kind := s.objects[fed].kind;
    forall j | j in s.joints && s.joints[j].kind == kind && s.joints[j].fed == fed && s.joints[j].cluster in s.clusters
      ensures s.joints[j].cluster in AttachedClusters(s, kind, fed)
    {
    }
    forall j | j in s.joints && (s.joints[j].kind == FedRoles || s.joints[j].kind == FedRoleBindings)
               && s.joints[j].fed in s.objects && s.objects[s.joints[j].fed].kind == s.joints[j].kind
               && s.objects[s.joints[j].fed].namespace == fed
      ensures j in JointsInNamespace(s, fed)
    {
    }
    if !InUse(s, fed) {
      assert AttachedClusters(s, kind, fed) == {};
      assert kind == FedNamespaces ==> JointsInNamespace(s, fed) == {};
    }
  }

  // ----- the invariant -----

  /** A joint row's object is live, and so is its federated namespace if it has one. */
  predicate HasMaster(s: State, j: Joint) {
    && IsLive(s, j.kind, j.fed)
    && (j.kind.NamespaceScope() ==> IsLive(s, FedNamespaces, s.objects[j.fed].namespace))
  }

  predicate Refs(s: State) {
    forall j :: j in s.joints ==> HasMaster(s, s.joints[j]) && s.joints[j].cluster in s.clusters
  }

  predicate Unique(s: State) {
    forall i, j :: i in s.joints && j in s.joints && s.joints[i] == s.joints[j] ==> i == j
  }

  predicate Inv(s: State) {
    Refs(s) && Unique(s)
  }

  // ----- purging a cluster -----

  /** Joint rows only go. */
  ghost predicate Shrinks(s: State, s': State) {
    && s'.clusters == s.clusters && s'.objects == s.objects
    && forall j :: j in s'.joints ==> j in s.joints && s'.joints[j] == s.joints[j]
  }

  ghost predicate OneGone(s: State, s': State, kind: FedKind, fed: FedId, cluster: ClusterId) {
    exists j :: j in JointsOf(s, kind, fed, cluster)
                && JointsOf(s', kind, fed, cluster) == JointsOf(s, kind, fed, cluster) - {j}
  }

  /** What an error-free purge of the kinds does: the pass finds the live objects attached to the
      cluster and deletes one joint row of each. */
  ghost predicate Purged(s: State, s': State, kinds: seq<FedKind>, cluster: ClusterId) {
    && Shrinks(s, s')
    && (forall j :: j in s.joints && j !in s'.joints ==>
          s.joints[j].cluster == cluster && s.joints[j].kind in kinds && IsLive(s, s.joints[j].kind, s.joints[j].fed))
    && (forall kind, fed :: kind in kinds && IsLive(s, kind, fed) && JointsOf(s, kind, fed, cluster) != {} ==>
          OneGone(s, s', kind, fed, cluster))
  }

  lemma PurgedThen(s: State, mid: State, s': State, a: seq<FedKind>, kind: FedKind, cluster: ClusterId)
    requires Purged(s, mid, a, cluster) && Purged(mid, s', [kind], cluster) && kind !in a
    ensures Purged(s, s', a + [kind], cluster)
  {
    forall k, fed | k in a + [kind] && IsLive(s, k, fed) && JointsOf(s, k, fed, cluster) != {}
      ensures OneGone(s, s', k, fed, cluster)
    {
      if k == kind {
        OtherKindsKept(s, mid, a, cluster, k, fed);
        assert OneGone(mid, s', k, fed, cluster);
      } else {
        OtherKindsKept(mid, s', [kind], cluster, k, fed);
        assert OneGone(s, mid, k, fed, cluster);
      }
    }
  }

  lemma OtherKindsKept(s: State, s': State, kinds: seq<FedKind>, cluster: ClusterId, kind: FedKind, fed: FedId)
    requires Purged(s, s', kinds, cluster) && kind !in kinds
    ensures JointsOf(s', kind, fed, cluster) == JointsOf(s, kind, fed, cluster)
  {
  }

  ghost predicate CoversKinds(kinds: seq<FedKind>) {
    forall k: FedKind :: k in kinds
  }

  predicate HasJoints(s: State, cluster: ClusterId) {
    exists j :: j in s.joints && s.joints[j].cluster == cluster
  }

  /** Purge completeness, exactly: although a pass deletes one joint row per object found, no joint
      row of the cluster is left if and only if each of them had a live object and was the only one
      of its object. All other joint rows are kept in any case. */
  lemma PurgeCompleteIff(s: State, s': State, kinds: seq<FedKind>, cluster: ClusterId)
    requires Purged(s, s', kinds, cluster) && CoversKinds(kinds)
    ensures !HasJoints(s', cluster) <==>
      (forall j :: j in s.joints && s.joints[j].cluster == cluster ==>
         IsLive(s, s.joints[j].kind, s.joints[j].fed)
         && forall i :: i in s.joints && s.joints[i] == s.joints[j] ==> i == j)
    ensures forall j :: j in s.joints && s.joints[j].cluster != cluster ==> j in s'.joints && s'.joints[j] == s.joints[j]
  {
    forall j | j in s.joints && s.joints[j].cluster == cluster && IsLive(s, s.joints[j].kind, s.joints[j].fed)
      ensures j !in s'.joints || exists i :: i in s.joints && s.joints[i] == s.joints[j] && i != j
      ensures (exists i :: i in s.joints && s.joints[i] == s.joints[j] && i != j) ==> HasJoints(s', cluster)
    {
      var x := s.joints[j];
      assert j in JointsOf(s, x.kind, x.fed, cluster);
      assert OneGone(s, s', x.kind, x.fed, cluster);
      var g :| g in JointsOf(s, x.kind, x.fed, cluster)
               && JointsOf(s', x.kind, x.fed, cluster) == JointsOf(s, x.kind, x.fed, cluster) - {g};
      if i :| i in s.joints && s.joints[i] == x && i != j {
        var k := if g == j then i else j;
        assert k in JointsOf(s', x.kind, x.fed, cluster);
        assert k in s'.joints && s'.joints[k].cluster == cluster;
      } else {
        assert g == j;
        assert j in s'.joints ==> j in JointsOf(s', x.kind, x.fed, cluster);
      }
    }
    forall j | j in s.joints && s.joints[j].cluster == cluster && !IsLive(s, s.joints[j].kind, s.joints[j].fed)
      ensures HasJoints(s', cluster)
    {
      assert j in s'.joints && s'.joints[j].cluster == cluster;
    }
  }

  lemma PurgeComplete(s: State, s': State, kinds: seq<FedKind>, cluster: ClusterId)
    requires Inv(s) && Purged(s, s', kinds, cluster) && CoversKinds(kinds)
    ensures s' == s.(joints := map j | j in s.joints && s.joints[j].cluster != cluster :: s.joints[j])
  {
    PurgeCompleteIff(s, s', kinds, cluster);
    assert forall j :: j in s'.joints ==> s'.joints[j].cluster != cluster;
  }

  // ----- requests and runs -----

  datatype Request =
    | CreateObject(fed: FedId, obj: FedObject)
    | AttachCluster(fed: FedId, cluster: ClusterId)
    | DetachCluster(fed: FedId, cluster: ClusterId)
    | DeleteObject(fed: FedId)
    | AddCluster(cluster: ClusterId)
    | DropCluster(cluster: ClusterId)

  /** A request that is refused, or that fails before it writes, changes nothing; a failing purge may
      have deleted some of the cluster's joint rows, and then the cluster stays. */
  ghost predicate Next(s: State, r: Request, s': State) {
    s' == s || match r
      case CreateObject(fed, obj) =>
        CanCreate(s, fed, obj) && s' == s.(objects := s.objects[fed := obj])
      case AttachCluster(fed, cluster) =>
        CanAttach(s, fed, cluster)
        && exists j: JointId :: j !in s.joints && s' == Attached(s, fed, s.objects[fed].kind, cluster, j)
      case DetachCluster(fed, cluster) =>
        CanDetach(s, fed, cluster)
        && exists j :: j in JointsOf(s, s.objects[fed].kind, fed, cluster) && s' == Without(s, j)
      case DeleteObject(fed) =>
        CanDelete(s, fed) && s' == s.(objects := s.objects - {fed})
      case AddCluster(cluster) =>
        s' == s.(clusters := s.clusters + {cluster})
      case DropCluster(cluster) =>
        Shrinks(s, s') || Dropped(s, s', cluster)
  }

  function Attached(s: State, fed: FedId, kind: FedKind, cluster: ClusterId, j: JointId): State {
    s.(joints := s.joints[j := Joint(kind, fed, cluster)])
  }

  function Without(s: State, j: JointId): State {
    s.(joints := s.joints - {j})
  }

  ghost predicate Dropped(s: State, s': State, cluster: ClusterId) {
    exists mid, kinds :: CoversKinds(kinds) && Purged(s, mid, kinds, cluster)
                         && s' == mid.(clusters := mid.clusters - {cluster})
  }

  /** The delete check is sound because the other parts of the invariant hold: no joint row is left
      that needs the object. */
  lemma DeleteCheckSound(s: State, fed: FedId)
    requires Inv(s) && CanDelete(s, fed)
    ensures forall j :: j in s.joints ==>
      s.joints[j].fed != fed && (s.joints[j].kind.NamespaceScope() ==> s.objects[s.joints[j].fed].namespace != fed)
  {
    forall j | j in s.joints
      ensures s.joints[j].fed != fed
      ensures s.joints[j].kind.NamespaceScope() ==> s.objects[s.joints[j].fed].namespace != fed
    {
      var x := s.joints[j];
      assert HasMaster(s, x);
      assert x.fed == fed ==> x.cluster in AttachedClusters(s, x.kind, fed);
      assert x.kind.NamespaceScope() && s.objects[x.fed].namespace == fed ==> j in JointsInNamespace(s, fed);
    }
  }

  /** With a joint row of a cluster that is gone the same check lets an object go that is still referred to. */
  lemma DeleteCheckNeedsLiveClusters()
    ensures var s := State({}, map[1 := FedObject(FedClusterRoles, 0)], map[5 := Joint(FedClusterRoles, 1, 9)]);
            Unique(s) && HasMaster(s, s.joints[5]) && CanDelete(s, 1) && !HasMaster(s.(objects := s.objects - {1}), s.joints[5])
  {
  }

  lemma NextKeepsInv(s: State, r: Request, s': State)
    requires Inv(s) && Next(s, r, s')
    ensures Inv(s')
  {
    if s' != s {
      match r
      case CreateObject(fed, obj) => {
        forall j | j in s'.joints ensures HasMaster(s', s'.joints[j]) {
          assert HasMaster(s, s.joints[j]);
        }
      }
      case AttachCluster(fed, cluster) => {
        var j: JointId :| j !in s.joints && s' == Attached(s, fed, s.objects[fed].kind, cluster, j);
        forall i | i in s.joints ensures s.joints[i] != s'.joints[j] {
          assert i !in JointsOf(s, s.objects[fed].kind, fed, cluster);
        }
      }
      case DetachCluster(_, _) =>
      case DeleteObject(fed) => {
        DeleteCheckSound(s, fed);
      }
      case AddCluster(_) =>
      case DropCluster(cluster) => {
        if !Shrinks(s, s') {
          var mid, kinds :| CoversKinds(kinds) && Purged(s, mid, kinds, cluster)
                            && s' == mid.(clusters := mid.clusters - {cluster});
          PurgeComplete(s, mid, kinds, cluster);
        }
      }
    }
  }

  ghost predicate IsRun(states: seq<State>, requests: seq<Request>) {
    && |states| == |requests| + 1 && states[0] == EMPTY
    && forall i :: 0 <= i < |requests| ==> Next(states[i], requests[i], states[i + 1])
  }

  /** The rows a joint row names: its cluster, its object of its kind and, of a role or role binding, the
      federated namespace. */
  ghost predicate RowsThere(s: State, j: Joint) {
    && j.cluster in s.clusters
    && j.fed in s.objects && s.objects[j.fed].kind == j.kind
    && (j.kind == FedRoles || j.kind == FedRoleBindings ==>
          s.objects[j.fed].namespace in s.objects && s.objects[s.objects[j.fed].namespace].kind == FedNamespaces)
  }

  predicate SamePair(j: Joint, k: Joint) {
    j.kind == k.kind && j.fed == k.fed && j.cluster == k.cluster
  }

  /** Over every sequence of requests, every joint row has a live federated object, a live cluster
      and, if namespaced, a live federated namespace, and no object is attached twice. */
  lemma {:induction false} RunsKeepInv(states: seq<State>, requests: seq<Request>, i: nat)
    requires IsRun(states, requests) && i < |states|
    ensures Inv(states[i])
    ensures var s := states[i];
      && (forall j :: j in s.joints ==> RowsThere(s, s.joints[j]))
      && forall j, k | j in s.joints && k in s.joints && SamePair(s.joints[j], s.joints[k]) :: j == k
  {
    if i > 0 {
      RunsKeepInv(states, requests, i - 1);
      NextKeepsInv(states[i - 1], requests[i - 1], states[i]);
    }
  }
}
