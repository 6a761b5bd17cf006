/**
 Reconciling one joint row with the rows of its cluster: the resource is found by its id, or adopted
 by name while no id is set, or created (pkg/kubeserver/models/fed_api.go:322-512,
 federated_joint_resource.go:194-203).
 */
module Reconcile {
  import opened Wrappers
  import opened ClusterTables
  import ClusterStore

  /** What a joint row asks of its cluster. name and namespace are those of the federated object. */
  datatype Joint = Joint(kind: Kind, cluster: ClusterId, name: string, namespace: string, resourceId: Option<RowId>)

  datatype Existence = Exists(id: RowId) | Missing | Refused

  predicate NamespaceKnown(db: Db, j: Joint) {
    j.kind.namespaceScope ==> Namespace(db, j.cluster, j.namespace).Found?
  }

  /** FetchClusterNamespace: the id the lookup by name is narrowed to. */
  function NamespaceOf(db: Db, j: Joint): Option<RowId> {
    var ns := Namespace(db, j.cluster, j.namespace);
    if j.kind.namespaceScope && ns.Found? then Some(ns.id) else None
  }

  /** IsResourceExist when no query fails. */
  function Existing(db: Db, clusters: set<ClusterId>, j: Joint): Existence {
    match j.resourceId
    case Some(r) => if r in db && Of(db[r], j.kind, j.cluster) then Exists(r) else Missing
    case None =>
      if j.cluster !in clusters || !NamespaceKnown(db, j) then Refused
      else match Fetch(db, j.kind, j.cluster, NamespaceOf(db, j), j.name)
           case Found(id) => Exists(id)
           case NoRows => Missing
           case DuplicateRows => Refused
  }

  /** A row as DoCreate inserts it: no remote object is behind it yet. */
  predicate IsCreated(db: Db, j: Joint, row: Row) {
    Of(row, j.kind, j.cluster) && row.name == j.name && row.namespaceId == NamespaceOf(db, j)
    && row.nodeId == None
  }

  /** The rows the name check of a create counts: those of the name in the namespace, or in the cluster
      for kinds that are not namespaced, but none of the system cluster. */
  predicate Counts(system: Option<ClusterId>, db: Db, j: Joint, row: Row) {
    && row.kind == j.kind && row.name == j.name && Some(row.clusterId) != system
    && if j.kind.namespaceScope then row.namespaceId == NamespaceOf(db, j) else row.clusterId == j.cluster
  }

  predicate NameTaken(system: Option<ClusterId>, db: Db, j: Joint) {
    exists id :: id in db && Counts(system, db, j, db[id])
  }

  /** Nothing the tables hold keeps a reconcile from creating the resource. */
  predicate Creatable(system: Option<ClusterId>, db: Db, clusters: set<ClusterId>, j: Joint) {
    && Existing(db, clusters, j).Missing? && j.cluster in clusters && NamespaceKnown(db, j)
    && !NameTaken(system, db, j)
  }

  /** Nothing the tables hold makes a reconcile fail. */
  predicate CanReconcile(system: Option<ClusterId>, db: Db, clusters: set<ClusterId>, j: Joint) {
    j.cluster in clusters && (Existing(db, clusters, j).Exists? || Creatable(system, db, clusters, j))
  }

  /** Everything one reconcile may do: link a row that exists, or create one where none was found and
      link it. Either write may fail. */
  ghost predicate Reconciled(
    system: Option<ClusterId>, clusters: set<ClusterId>, db: Db, j: Joint, db': Db, j': Joint,
    created: Option<RowId>, linked: bool)
  {
    && (match created
        case None =>
          && db' == db
          && (linked ==> j.cluster in clusters && j'.resourceId.Some?
                         && Existing(db, clusters, j) == Exists(j'.resourceId.value))
        case Some(id) =>
          && Creatable(system, db, clusters, j)
          && id !in db && id in db' && db' == db[id := db'[id]] && IsCreated(db, j, db'[id])
          && (linked ==> j'.resourceId == Some(id)))
    && j' == j.(resourceId := j'.resourceId)
    && (if linked then j'.resourceId.Some? else j' == j)
  }

  predicate AtName(db: Db, j: Joint, id: RowId, ns: Option<RowId>) {
    && id in db && Matches(db[id], j.kind, j.cluster, ns, j.name)
    && (j.kind.namespaceScope ==>
          ns.Some? && ns.value in db && Matches(db[ns.value], NAMESPACE, j.cluster, None, j.namespace))
  }

  ghost predicate Named(db: Db, j: Joint) {
    exists id, ns :: AtName(db, j, id, ns)
  }

  /** The joint row holds an id, and the row is gone. */
  predicate Stale(db: Db, j: Joint) {
    j.resourceId.Some? && !(j.resourceId.value in db && Of(db[j.resourceId.value], j.kind, j.cluster))
  }

  /** No reconcile creates the resource: it is there at the id held or, while none is held, under its name
      in a namespace of that name. Beside a stale id the row of that name still takes the name, except
      in the system cluster. */
  ghost predicate Settled(system: Option<ClusterId>, db: Db, j: Joint) {
    if Stale(db, j) then Some(j.cluster) != system && Named(db, j)
    else j.resourceId.Some? || Named(db, j)
  }

  /** The writes to the joint row and to the tables, in the order the code issues them. */
  class JointRow {
    var joint: Joint

    constructor (joint: Joint)
      ensures this.joint == joint
    {
      this.joint := joint;
    }

    /** SetResource. */
    method SetResource(store: ClusterStore.Store, id: RowId) returns (ok: bool)
      modifies this, store`faults
      ensures joint == if ok then old(joint).(resourceId := Some(id)) else old(joint)
      ensures if ok then store.faults == old(store.faults) else store.faults > old(store.faults)
    {
      ok := store.Query();
      if ok {
        joint := joint.(resourceId := Some(id));
      }
    }

    /** IsResourceExist. */
    method IsResourceExist(store: ClusterStore.Store) returns (r: Existence)
      modifies store`faults
      ensures if store.faults == old(store.faults) then r == Existing(store.rows, store.clusters, joint)
              else r.Refused? && store.faults > old(store.faults)
    {
      var ok := store.Query();
      if !ok {
        return Refused;
      }
      match joint.resourceId
      case None =>
        if joint.cluster !in store.clusters {
          return Refused;
        }
        var ns: Option<RowId> := None;
        if joint.kind.namespaceScope {
          var found := Namespace(store.rows, joint.cluster, joint.namespace);
          if !found.Found? {
            return Refused;
          }
          ns := Some(found.id);
        }
        match Fetch(store.rows, joint.kind, joint.cluster, ns, joint.name) {
          case Found(id) => return Exists(id);
          case NoRows => return Missing;
          case DuplicateRows => return Refused;
        }
      case Some(id) =>
        if id in store.rows && Of(store.rows[id], joint.kind, joint.cluster) {
          return Exists(id);
        }
        return Missing;
    }

    /** createResource: accepted is the verdict of the resource manager's own validation; the name check
        that follows it in DoCreate is NameTaken. */
    method CreateResource(store: ClusterStore.Store, system: Option<ClusterId>, accepted: bool, row: Row)
      returns (ok: bool, created: Option<RowId>, linked: bool)
      requires joint.cluster in store.clusters && Existing(store.rows, store.clusters, joint).Missing?
      modifies this, store`rows, store`faults, store`trail
      ensures Reconciled(system, store.clusters, old(store.rows), old(joint), store.rows, joint, created, linked)
      ensures ok <==> linked
      ensures ok ==> created.Some?
      ensures created.Some? ==> accepted
      ensures !ok ==> !accepted || store.faults > old(store.faults)
                      || !Creatable(system, old(store.rows), store.clusters, old(joint))
    {
      created, linked := None, false;
      var ns: Option<RowId> := None;
      if joint.kind.namespaceScope {
        var found := Namespace(store.rows, joint.cluster, joint.namespace);
        if !found.Found? {
          return false, None, false;
        }
        ns := Some(found.id);
      }
      if !accepted {
        return false, None, false;
      }
      var queried := store.Query();
      if !queried || NameTaken(system, store.rows, joint) {
        return false, None, false;
      }
      ghost var before := store.rows;
      var id, inserted := store.Insert(
        row.(kind := joint.kind, clusterId := joint.cluster, name := joint.name, namespaceId := ns, nodeId := None));
      if !inserted {
        return false, None, false;
      }
      assert store.rows == before[id := store.rows[id]];
      created := Some(id);
      linked := SetResource(store, id);
      ok := linked;
    }

    /** ReconcileResource, up to the background task that carries the change to the cluster. When it
        reports success the joint row holds the id of a row of its own cluster. */
    method ReconcileResource(store: ClusterStore.Store, system: Option<ClusterId>, accepted: bool, row: Row)
      returns (ok: bool, created: Option<RowId>, linked: bool)
      modifies this, store`rows, store`faults, store`trail
      ensures Reconciled(system, store.clusters, old(store.rows), old(joint), store.rows, joint, created, linked)
      ensures ok ==> linked && joint.resourceId.Some? && !Stale(store.rows, joint)
      ensures created.Some? ==> accepted
      ensures ok ==> CanReconcile(system, old(store.rows), store.clusters, old(joint))
      ensures !ok ==> !accepted || store.faults > old(store.faults)
                      || !CanReconcile(system, old(store.rows), store.clusters, old(joint))
    {
      ok, created, linked := false, None, false;
      var found := IsResourceExist(store);
      if found.Refused? || joint.cluster !in store.clusters {
        return;
      }
      if found.Exists? {
        linked := SetResource(store, found.id);
        ok := linked;
      } else {
        ok, created, linked := CreateResource(store, system, accepted, row);
      }
    }
  }

  // ----- what a create leaves -----

  /** A name found in the tables is a name taken, outside the system cluster. */
  lemma NamedIsTaken(system: Option<ClusterId>, db: Db, j: Joint)
    requires Named(db, j) && NamespaceKnown(db, j) && Some(j.cluster) != system
    ensures NameTaken(system, db, j)
  {
    var id, ns :| AtName(db, j, id, ns);
    if j.kind.namespaceScope {
      assert ns == NamespaceOf(db, j);
    }
    assert Counts(system, db, j, db[id]);
  }

  /** After a create the resource is found if and only if its id was stored or none was held. If not, the
      next reconcile creates a second row in the system cluster, and fails in any other. */
  lemma AfterCreate(
    system: Option<ClusterId>, clusters: set<ClusterId>, db: Db, j: Joint, db': Db, j': Joint, id: RowId, linked: bool)
    requires Reconciled(system, clusters, db, j, db', j', Some(id), linked)
    requires j.resourceId != Some(id)
    ensures Named(db', j')
    ensures Existing(db', clusters, j') == Exists(id) <==> linked || j.resourceId.None?
    ensures Creatable(system, db', clusters, j') <==> !linked && j.resourceId.Some? && Some(j.cluster) == system
    ensures CanReconcile(system, db', clusters, j') <==> linked || j.resourceId.None? || Some(j.cluster) == system
  {
    if j.kind.namespaceScope {
      assert SameRows(db, db', NAMESPACE, j.cluster);
      SameLookups(db, db', NAMESPACE, j.cluster, None, j.namespace);
    }
    var ns := NamespaceOf(db, j);
    assert AtName(db', j', id, ns);
    if Some(j.cluster) != system {
      NamedIsTaken(system, db', j');
    } else {
      assert forall x :: x in db' && Counts(system, db', j', db'[x]) ==> x in db && Counts(system, db, j, db[x]);
    }
    if j.resourceId.None? {
      assert forall x :: x in db ==> !Matches(db[x], j.kind, j.cluster, ns, j.name);
      SingleIsFound(db', j.kind, j.cluster, ns, j.name, id);
    }
  }

  // ----- runs: reconciles mixed with whatever else writes the tables -----

  /** past holds every row that ever was; ids are never given out twice. */
  datatype World = World(system: Option<ClusterId>, clusters: set<ClusterId>, db: Db, past: Db, joint: Joint)

  datatype Action = Reconciling(created: Option<RowId>, linked: bool) | Others

  /** A row stays what it is: no write moves it to another table or cluster. */
  ghost predicate SameTables(db: Db, past: Db) {
    forall id :: id in db ==> id in past && past[id].kind == db[id].kind && past[id].clusterId == db[id].clusterId
  }

  ghost predicate Step(w: World, a: Action, w': World) {
    && w'.system == w.system
    && w.past.Keys <= w'.past.Keys && (forall id :: id in w.past ==> w'.past[id] == w.past[id])
    && (forall id :: id in w'.db && id !in w.db ==> id !in w.past)
    && SameTables(w'.db, w'.past)
    && match a
       case Reconciling(created, linked) =>
         && w'.clusters == w.clusters
         && Reconciled(w.system, w.clusters, w.db, w.joint, w'.db, w'.joint, created, linked)
       case Others => w'.joint == w.joint
  }

  ghost predicate IsRun(ws: seq<World>, actions: seq<Action>) {
    && |ws| == |actions| + 1 && SameTables(ws[0].db, ws[0].past)
    && forall i :: 0 <= i < |actions| ==> Step(ws[i], actions[i], ws[i + 1])
  }

  /** The id held, if any, came from a row of the joint's own table and cluster. */
  predicate OwnCluster(w: World) {
    w.joint.resourceId.Some? ==>
      w.joint.resourceId.value in w.past && Of(w.past[w.joint.resourceId.value], w.joint.kind, w.joint.cluster)
  }

  lemma {:induction false} ResourceIdComesFromOwnCluster(ws: seq<World>, actions: seq<Action>, i: nat)
    requires IsRun(ws, actions) && i < |ws| && OwnCluster(ws[0])
    ensures OwnCluster(ws[i])
    ensures ws[i].joint == ws[0].joint.(resourceId := ws[i].joint.resourceId)
    ensures SameTables(ws[i].db, ws[i].past) && ws[i].system == ws[0].system
  {
    if i > 0 {
      ResourceIdComesFromOwnCluster(ws, actions, i - 1);
      assert Step(ws[i - 1], actions[i - 1], ws[i]);
    }
  }

  /** A row that is gone stays gone, so an id never leads to a row other than the one it was set for. */
  lemma {:induction false} GoneStaysGone(ws: seq<World>, actions: seq<Action>, i: nat, j: nat, id: RowId)
    requires IsRun(ws, actions) && i <= j < |ws|
    requires id in ws[i].past && id !in ws[i].db
    ensures id in ws[j].past && id !in ws[j].db
  {
    if i < j {
      GoneStaysGone(ws, actions, i, j - 1, id);
      assert Step(ws[j - 1], actions[j - 1], ws[j]);
    }
  }

  /** The row at the id held stays, and so does every row of the joint's name with its namespace. */
  ghost predicate Keeps(db: Db, db': Db, j: Joint) {
    && (j.resourceId.Some? && !Stale(db, j) ==> !Stale(db', j))
    && forall id, ns :: AtName(db, j, id, ns) ==> AtName(db', j, id, ns)
  }

  /** The ways to lose sight of a resource: somebody else removes or renames it or its namespace, or, in
      the system cluster alone, the id of a created row is not stored beside a stale one. */
  ghost predicate Loses(w: World, a: Action, w': World) {
    match a
    case Others => !Keeps(w.db, w'.db, w.joint)
    case Reconciling(created, linked) =>
      Some(w.joint.cluster) == w.system && created.Some? && !linked && w.joint.resourceId.Some?
  }

  ghost function Losses(ws: seq<World>, actions: seq<Action>): nat
    requires |ws| == |actions| + 1
    decreases actions
  {
    if actions == [] then 0
    else (if Loses(ws[0], actions[0], ws[1]) then 1 else 0) + Losses(ws[1..], actions[1..])
  }

  function Creates(actions: seq<Action>): nat {
    if actions == [] then 0
    else (if actions[0].Reconciling? && actions[0].created.Some? then 1 else 0) + Creates(actions[1..])
  }

  ghost function Open(w: World): nat {
    if Settled(w.system, w.db, w.joint) then 0 else 1
  }

  lemma SettledIsNotCreatable(system: Option<ClusterId>, db: Db, clusters: set<ClusterId>, j: Joint)
    requires Settled(system, db, j)
    ensures !Creatable(system, db, clusters, j)
  {
    if NamespaceKnown(db, j) && Named(db, j) {
      if Some(j.cluster) != system {
        NamedIsTaken(system, db, j);
      }
      var id, ns :| AtName(db, j, id, ns);
      assert j.kind.namespaceScope ==> ns == NamespaceOf(db, j);
      assert Matches(db[id], j.kind, j.cluster, NamespaceOf(db, j), j.name);
    }
  }

  lemma SettledKept(w: World, w': World)
    requires Settled(w.system, w.db, w.joint) && Keeps(w.db, w'.db, w.joint)
    requires OwnCluster(w) && Step(w, Others, w')
    ensures Settled(w'.system, w'.db, w'.joint)
  {
    var j := w.joint;
    if Named(w.db, j) {
      var id, ns :| AtName(w.db, j, id, ns);
      assert AtName(w'.db, j, id, ns);
    }
  }

  lemma OneStep(w: World, a: Action, w': World)
    requires Step(w, a, w') && OwnCluster(w) && SameTables(w.db, w.past)
    ensures Creates([a]) + Open(w') <= Open(w) + if Loses(w, a, w') then 1 else 0
  {
    assert Creates([a]) == if a.Reconciling? && a.created.Some? then 1 else 0;
    match a
    case Others => if Settled(w.system, w.db, w.joint) && Keeps(w.db, w'.db, w.joint) { SettledKept(w, w'); }
    case Reconciling(created, linked) =>
      if created.Some? {
        if Settled(w.system, w.db, w.joint) { SettledIsNotCreatable(w.system, w.db, w.clusters, w.joint); }
        AfterCreate(w.system, w.clusters, w.db, w.joint, w'.db, w'.joint, created.value, linked);
      }
  }

  /** Over any run the resource is created at most once more than it is lost, and not even once more
      when it was there to begin with. */
  lemma {:induction false} CreatesAreBounded(ws: seq<World>, actions: seq<Action>)
    requires IsRun(ws, actions) && OwnCluster(ws[0])
    ensures Creates(actions) + Open(ws[|ws| - 1]) <= Open(ws[0]) + Losses(ws, actions)
    decreases actions
  {
    if actions != [] {
      var w, w' := ws[0], ws[1];
      assert Step(w, actions[0], w');
      ResourceIdComesFromOwnCluster(ws, actions, 1);
      var rest, after := ws[1..], actions[1..];
      forall i | 0 <= i < |after| ensures Step(rest[i], after[i], rest[i + 1]) {
        assert Step(ws[i + 1], actions[i + 1], ws[i + 2]);
      }
      CreatesAreBounded(rest, after);
      OneStep(w, actions[0], w');
    }
  }

  lemma {:induction false} NothingLost(ws: seq<World>, actions: seq<Action>)
    requires |ws| == |actions| + 1
    requires forall i :: 0 <= i < |actions| ==> !Loses(ws[i], actions[i], ws[i + 1])
    ensures Losses(ws, actions) == 0
    decreases actions
  {
    if actions != [] {
      var rest, after := ws[1..], actions[1..];
      forall i | 0 <= i < |after| ensures !Loses(rest[i], after[i], rest[i + 1]) {
        assert !Loses(ws[i + 1], actions[i + 1], ws[i + 2]);
      }
      NothingLost(rest, after);
    }
  }

  /** Reconcile stability, outside the system cluster: while no other write loses the row the resource is
      created at most once, whichever of its own writes fail, and never when the cluster already has it. */
  lemma CreatedAtMostOnce(ws: seq<World>, actions: seq<Action>)
    requires IsRun(ws, actions) && OwnCluster(ws[0]) && Some(ws[0].joint.cluster) != ws[0].system
    requires forall i :: 0 <= i < |actions| && actions[i].Others? ==> Keeps(ws[i].db, ws[i + 1].db, ws[i].joint)
    ensures Creates(actions) <= 1
    ensures Settled(ws[0].system, ws[0].db, ws[0].joint) ==> Creates(actions) == 0
  {
    forall i | 0 <= i < |actions| ensures !Loses(ws[i], actions[i], ws[i + 1]) {
      ResourceIdComesFromOwnCluster(ws, actions, i);
    }
    CreatesAreBounded(ws, actions);
    NothingLost(ws, actions);
  }

  // ----- what the rows say -----

  /** A row the name check of a create counts, in namespace row ns. */
  predicate TakesName(system: Option<ClusterId>, row: Row, j: Joint, ns: RowId) {
    && row.kind == j.kind && row.name == j.name && Some(row.clusterId) != system
    && (j.kind.namespaceScope ==> row.namespaceId == Some(ns))
    && (!j.kind.namespaceScope ==> row.clusterId == j.cluster)
  }

  /** While no id is held, in a live cluster that has the namespace as row ns: the resource is the one row of
      its name there, and a reconcile can succeed if and only if there is just one, or none and nothing takes
      the name. */
  lemma UnlinkedReconcilesIff(system: Option<ClusterId>, db: Db, clusters: set<ClusterId>, j: Joint, ns: RowId)
    requires j.resourceId.None? && j.cluster in clusters
    requires j.kind.namespaceScope ==> OneNamed(db, NAMESPACE, j.cluster, j.namespace, ns)
    ensures forall id :: Existing(db, clusters, j) == Exists(id) <==> OneHasName(db, j.kind, j.cluster, ns, j.name, id)
    ensures CanReconcile(system, db, clusters, j) <==>
      || (exists id :: OneHasName(db, j.kind, j.cluster, ns, j.name, id))
      || (forall id :: id in db ==>
            !HasName(db[id], j.kind, j.cluster, ns, j.name) && !TakesName(system, db[id], j, ns))
  {
    FoundIff(db, NAMESPACE, j.cluster, j.namespace);
    NamedFoundIff(db, j.kind, j.cluster, ns, j.name);
    assert Fetch(db, j.kind, j.cluster, NamespaceOf(db, j), j.name)
        == Fetch(db, j.kind, j.cluster, if j.kind.namespaceScope then Some(ns) else None, j.name);
    forall id | id in db ensures Counts(system, db, j, db[id]) <==> TakesName(system, db[id], j, ns) {}
  }

  /** With an id held: its row is enough, and without it the name must be free of every row. */
  lemma LinkedReconcilesIff(
    system: Option<ClusterId>, db: Db, clusters: set<ClusterId>, j: Joint, id: RowId, ns: RowId)
    requires j.resourceId == Some(id) && j.cluster in clusters
    requires j.kind.namespaceScope ==> OneNamed(db, NAMESPACE, j.cluster, j.namespace, ns)
    ensures CanReconcile(system, db, clusters, j) <==>
      || (id in db && db[id].kind == j.kind && db[id].clusterId == j.cluster)
      || (forall x :: x in db ==> !TakesName(system, db[x], j, ns))
  {
    FoundIff(db, NAMESPACE, j.cluster, j.namespace);
    forall x | x in db ensures Counts(system, db, j, db[x]) <==> TakesName(system, db[x], j, ns) {}
  }

  /** In no other case can it: not in a cluster that is gone, nor, unless the id held has its row, without
      just one row of the namespace. */
  lemma NeedsClusterAndNamespace(system: Option<ClusterId>, db: Db, clusters: set<ClusterId>, j: Joint)
    requires CanReconcile(system, db, clusters, j)
    ensures j.cluster in clusters
    ensures j.kind.namespaceScope ==>
      || (exists ns :: OneNamed(db, NAMESPACE, j.cluster, j.namespace, ns))
      || (j.resourceId.Some? && j.resourceId.value in db && db[j.resourceId.value].kind == j.kind
          && db[j.resourceId.value].clusterId == j.cluster)
  {
    FoundIff(db, NAMESPACE, j.cluster, j.namespace);
  }

  // ----- what a stale id does -----

  /** With a stale id a reconcile goes through if and only if it can create: the row of that name, if there
      is one, is not adopted. */
  lemma StaleReconcilesIff(system: Option<ClusterId>, db: Db, clusters: set<ClusterId>, j: Joint)
    requires Stale(db, j) && j.cluster in clusters && NamespaceKnown(db, j) && Some(j.cluster) != system
    requires RefsToOwnCluster(db, j)
    ensures CanReconcile(system, db, clusters, j) <==> !Named(db, j)
  {
    if Named(db, j) {
      NamedIsTaken(system, db, j);
    } else {
      forall id | id in db ensures !Counts(system, db, j, db[id]) {
        assert !AtName(db, j, id, NamespaceOf(db, j));
      }
    }
  }

  /** Rows in the joint's namespace are rows of its cluster. */
  predicate RefsToOwnCluster(db: Db, j: Joint) {
    j.kind.namespaceScope ==>
      forall id :: id in db && db[id].kind == j.kind && db[id].namespaceId == NamespaceOf(db, j) ==> db[id].clusterId == j.cluster
  }

  /** Once a joint row holds a stale id beside a row of its name, every reconcile fails for as long as that
      row and its namespace stay. */
  lemma {:induction false} StaleStaysStuck(ws: seq<World>, actions: seq<Action>, i: nat, id: RowId, ns: Option<RowId>)
    requires IsRun(ws, actions) && OwnCluster(ws[0]) && Some(ws[0].joint.cluster) != ws[0].system && i < |ws|
    requires Stale(ws[0].db, ws[0].joint)
    requires forall k :: 0 <= k <= i ==> AtName(ws[k].db, ws[0].joint, id, ns)
    ensures ws[i].joint == ws[0].joint && Stale(ws[i].db, ws[i].joint)
    ensures !CanReconcile(ws[i].system, ws[i].db, ws[i].clusters, ws[i].joint)
    ensures forall k :: 0 <= k < i && actions[k].Reconciling? ==> actions[k] == Reconciling(None, false)
  {
    var j := ws[0].joint;
    ResourceIdComesFromOwnCluster(ws, actions, 0);
    GoneStaysGone(ws, actions, 0, i, j.resourceId.value);
    assert AtName(ws[i].db, j, id, ns);
    if NamespaceKnown(ws[i].db, j) {
      NamedIsTaken(ws[0].system, ws[i].db, j);
    }
    ResourceIdComesFromOwnCluster(ws, actions, i);
    if i > 0 {
      StaleStaysStuck(ws, actions, i - 1, id, ns);
      assert Step(ws[i - 1], actions[i - 1], ws[i]);
    }
  }

  /** How that comes about without a single failure: the resource is created and linked, its object is made
      anew in the cluster, and a sync replaces the row. */
  lemma RemadeObjectGetsStuck(cluster: ClusterId, name: string, row: Row) returns (ws: seq<World>, actions: seq<Action>)
    ensures IsRun(ws, actions) && |ws| == 3 && ws[0].db == map[] && OwnCluster(ws[0]) && ws[0].joint.resourceId.None?
    ensures actions == [Reconciling(Some(1), true), Others]
    ensures Stale(ws[2].db, ws[2].joint) && Named(ws[2].db, ws[2].joint)
    ensures forall clusters :: !CanReconcile(ws[2].system, ws[2].db, clusters, ws[2].joint)
  {
    var kind := Kind("rbacclusterrole", false);
    var made := row.(kind := kind, clusterId := cluster, name := name, namespaceId := None, nodeId := None);
    var j := Joint(kind, cluster, name, "", None);
    var w0 := World(None, {cluster}, map[], map[], j);
    var w1 := World(None, {cluster}, map[1 := made], map[1 := made], j.(resourceId := Some(1)));
    var w2 := World(None, {cluster}, map[2 := made], map[1 := made, 2 := made], w1.joint);
    ws, actions := [w0, w1, w2], [Reconciling(Some(1), true), Others];
    assert w1.db == w0.db[1 := made];
    assert Step(w0, actions[0], w1) && Step(w1, actions[1], w2);
    assert AtName(w2.db, w2.joint, 2, None);
    NamedIsTaken(None, w2.db, w2.joint);
  }

  /** In the system cluster the name is never taken, and the bound of one create is passed although no row
      goes away: a stale id is held, and the id of a created row is not stored. */
  lemma SystemClusterCreatesAgain(cluster: ClusterId, name: string, row: Row) returns (ws: seq<World>, actions: seq<Action>)
    ensures IsRun(ws, actions) && OwnCluster(ws[0]) && ws[0].system == Some(cluster) && Creates(actions) == 2
    ensures forall i :: 0 <= i < |actions| ==> ws[i].db.Keys <= ws[i + 1].db.Keys
    ensures |ws| == 3 && Matching(ws[2].db, ws[2].joint.kind, cluster, None, name) == {1, 2}
  {
    var kind := Kind("rbacclusterrole", false);
    var made := row.(kind := kind, clusterId := cluster, name := name, namespaceId := None, nodeId := None);
    var stale := Joint(kind, cluster, name, "", Some(0));
    var p0, p1, p2 := map[0 := made], map[0 := made, 1 := made], map[0 := made, 1 := made, 2 := made];
    var w0 := World(Some(cluster), {cluster}, map[], p0, stale);
    var w1 := World(Some(cluster), {cluster}, map[1 := made], p1, stale);
    var w2 := World(Some(cluster), {cluster}, map[1 := made, 2 := made], p2, stale.(resourceId := Some(2)));
    var a0, a1 := Reconciling(Some(1), false), Reconciling(Some(2), true);
    assert Step(w0, a0, w1);
    assert w2.db == w1.db[2 := made];
    assert Step(w1, a1, w2);
    ws, actions := [w0, w1, w2], [a0, a1];
    assert Creates([a0, a1]) == 1 + Creates([a1]) by { assert [a0, a1][1..] == [a1]; }
    assert Creates([a1]) == 1 + Creates([]);
  }
}
