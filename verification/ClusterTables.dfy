/**
 The local tables that mirror the objects of Kubernetes clusters, as values: rows, the lookups the
 resource managers run over them, and the row a remote object asks for.
 */
module ClusterTables {
  import opened Wrappers
  import Versions

  type ClusterId = nat
  type RowId = nat

  /** A resource kind and its table. */
  datatype Kind = Kind(name: string, namespaceScope: bool)

  const NAMESPACE := Kind("namespace", false)
  const NODE := Kind("k8s_node", false)
  const POD := Kind("pod", true)
  const RELEASE := Kind("release", true)

  /** The status column's default, before a remote object sets it. */
  const STATUS_INIT := "init"

  /** A row; only kinds in namespace scope use namespaceId, and only pods nodeId. */
  datatype Row = Row(
    kind: Kind, clusterId: ClusterId, externalId: string, name: string,
    version: string, status: string, namespaceId: Option<RowId>, nodeId: Option<RowId>)

  /** A remote object; status is what its kind's SetStatusByRemoteObject derives from it, and node is where
      a pod runs, empty before it is scheduled. A Helm release has no UID and no version of its own: its
      key is made of cluster, namespace and name, and its version is empty. */
  datatype RemoteObject = RemoteObject(
    uid: string, name: string, namespace: string, version: string, status: string, node: string)

  /** All tables at once: row ids are unique across them. */
  type Db = map<RowId, Row>

  ghost predicate Valid(db: Db) {
    forall id :: id in db ==>
      && (!db[id].kind.namespaceScope ==> db[id].namespaceId == None)
      && (db[id].kind != POD ==> db[id].nodeId == None)
  }

  predicate Of(row: Row, kind: Kind, cluster: ClusterId) {
    row.kind == kind && row.clusterId == cluster
  }

  function Ids(db: Db, kind: Kind, cluster: ClusterId): set<RowId> {
    set id | id in db && Of(db[id], kind, cluster)
  }

  // ----- lookups by name -----

  predicate Matches(row: Row, kind: Kind, cluster: ClusterId, ns: Option<RowId>, name: string) {
    Of(row, kind, cluster) && row.name == name && (kind.namespaceScope && ns.Some? ==> row.namespaceId == ns)
  }

  function Matching(db: Db, kind: Kind, cluster: ClusterId, ns: Option<RowId>, name: string): set<RowId> {
    set id | id in db && Matches(db[id], kind, cluster, ns, name)
  }

  datatype Fetched = Found(id: RowId) | NoRows | DuplicateRows

  /** FetchClusterResourceByName: one match is the answer, several are an error of their own. */
  function Fetch(db: Db, kind: Kind, cluster: ClusterId, ns: Option<RowId>, name: string): (r: Fetched)
    ensures r.NoRows? <==> forall id :: id in db ==> !Matches(db[id], kind, cluster, ns, name)
    ensures r.Found? ==> r.id in db && Matches(db[r.id], kind, cluster, ns, name)
    ensures r.Found? ==> forall id :: id in db && Matches(db[id], kind, cluster, ns, name) ==> id == r.id
  {
    var m := Matching(db, kind, cluster, ns, name);
    assert forall id :: id in m <==> id in db && Matches(db[id], kind, cluster, ns, name);
    if m == {} then NoRows
    else if exists id :: id in m && m == {id} then
      var id :| id in m && m == {id};
      Found(id)
    else DuplicateRows
  }

  lemma SingleIsFound(db: Db, kind: Kind, cluster: ClusterId, ns: Option<RowId>, name: string, id: RowId)
    requires id in db && Matches(db[id], kind, cluster, ns, name)
    requires forall x :: x in db && Matches(db[x], kind, cluster, ns, name) ==> x == id
    ensures Fetch(db, kind, cluster, ns, name) == Found(id)
  {
    assert Matching(db, kind, cluster, ns, name) == {id};
  }

  /** The lookup of a namespace row by name. */
  function Namespace(db: Db, cluster: ClusterId, name: string): Fetched {
    Fetch(db, NAMESPACE, cluster, None, name)
  }

  /** Two databases with the same rows of a kind in a cluster. */
  ghost predicate SameRows(db: Db, db': Db, kind: Kind, cluster: ClusterId) {
    forall id :: (id in db && Of(db[id], kind, cluster)) || (id in db' && Of(db'[id], kind, cluster)) ==>
                   id in db && id in db' && db[id] == db'[id]
  }

  /** Nothing but rows of one kind in one cluster differs. */
  ghost predicate OnlyChanges(db: Db, db': Db, kind: Kind, cluster: ClusterId) {
    forall id :: (id in db && !Of(db[id], kind, cluster)) || (id in db' && !Of(db'[id], kind, cluster)) ==>
                   id in db && id in db' && db[id] == db'[id]
  }

  lemma SameLookups(db: Db, db': Db, kind: Kind, cluster: ClusterId, ns: Option<RowId>, name: string)
    requires SameRows(db, db', kind, cluster)
    ensures Fetch(db, kind, cluster, ns, name) == Fetch(db', kind, cluster, ns, name)
  {
    var r, r' := Fetch(db, kind, cluster, ns, name), Fetch(db', kind, cluster, ns, name);
    if r.Found? { SingleIsFound(db', kind, cluster, ns, name, r.id); }
    if r'.Found? { SingleIsFound(db, kind, cluster, ns, name, r'.id); }
  }

  // ----- rows asked for by remote objects -----

  /** A row apart from its node, which no update writes. */
  function Plain(row: Row): Row { row.(nodeId := None) }

  /** The row a remote object stands for once it is synced, apart from its node. */
  function Target(db: Db, kind: Kind, cluster: ClusterId, o: RemoteObject): Row {
    var ns := Namespace(db, cluster, o.namespace);
    Row(kind, cluster, o.uid, o.name, o.version, o.status,
        if kind.namespaceScope && ns.Found? then Some(ns.id) else None, None)
  }

  /** The lookup a new pod's node goes through; a pod that is not scheduled has none. */
  predicate NodeKnown(db: Db, kind: Kind, cluster: ClusterId, o: RemoteObject) {
    kind == POD && o.node != "" ==> Fetch(db, NODE, cluster, None, o.node).Found?
  }

  function NodeIdOf(db: Db, kind: Kind, cluster: ClusterId, o: RemoteObject): Option<RowId> {
    var node := Fetch(db, NODE, cluster, None, o.node);
    if kind == POD && o.node != "" && node.Found? then Some(node.id) else None
  }

  lemma NodeKept(db: Db, db': Db, kind: Kind, cluster: ClusterId, o: RemoteObject)
    requires kind == POD ==> SameRows(db, db', NODE, cluster)
    ensures NodeKnown(db, kind, cluster, o) == NodeKnown(db', kind, cluster, o)
    ensures NodeIdOf(db, kind, cluster, o) == NodeIdOf(db', kind, cluster, o)
  {
    if kind == POD {
      SameLookups(db, db', NODE, cluster, None, o.node);
    }
  }

  /** What UpdateFromRemoteObject writes: nothing when the version is older, the row's cluster is
      gone, or the object's namespace has no single row. */
  function Updated(db: Db, clusters: set<ClusterId>, row: Row, o: RemoteObject): Option<Row> {
    if !Versions.Accepts(row.version, o.version) then None
    else if row.clusterId !in clusters then None
    else if !row.kind.namespaceScope then
      Some(row.(name := o.name, version := o.version, externalId := o.uid, status := o.status))
    else
      var ns := Namespace(db, row.clusterId, o.namespace);
      if !ns.Found? then None
      else Some(row.(name := o.name, version := o.version, namespaceId := Some(ns.id),
                     externalId := o.uid, status := o.status))
  }

  lemma UpdatedIsTarget(db: Db, clusters: set<ClusterId>, row: Row, o: RemoteObject)
    requires !row.kind.namespaceScope ==> row.namespaceId == None
    requires Updated(db, clusters, row, o).Some?
    ensures Updated(db, clusters, row, o).value == Target(db, row.kind, row.clusterId, o).(nodeId := row.nodeId)
  {
  }

  /** Writing rows of a namespaced kind does not move the namespaces they are resolved against. */
  lemma TargetKept(db: Db, db': Db, clusters: set<ClusterId>, kind: Kind, cluster: ClusterId, o: RemoteObject)
    requires kind.namespaceScope ==> SameRows(db, db', NAMESPACE, cluster)
    ensures Target(db, kind, cluster, o) == Target(db', kind, cluster, o)
    ensures kind.namespaceScope ==> Namespace(db, cluster, o.namespace) == Namespace(db', cluster, o.namespace)
    ensures forall row :: Of(row, kind, cluster) ==> Updated(db, clusters, row, o) == Updated(db', clusters, row, o)
  {
    if kind.namespaceScope {
      SameLookups(db, db', NAMESPACE, cluster, None, o.namespace);
    }
  }

  /** The row NewFromRemoteObject inserts, before the update that follows it. */
  function NewRow(db: Db, kind: Kind, cluster: ClusterId, o: RemoteObject): Row {
    Target(db, kind, cluster, o).(version := "", status := STATUS_INIT, nodeId := NodeIdOf(db, kind, cluster, o))
  }

  /** The same row after that update. */
  function AddedRow(db: Db, kind: Kind, cluster: ClusterId, o: RemoteObject): Row {
    Target(db, kind, cluster, o).(nodeId := NodeIdOf(db, kind, cluster, o))
  }

  /** IsRemoteObjectLocalExist finds no row, so an insert goes ahead. A namespaced kind treats
      several rows of that name as none. The check of releases looks for the namespace's name where its id
      is expected, so it finds nothing. */
  ghost predicate NameFree(db: Db, kind: Kind, cluster: ClusterId, o: RemoteObject) {
    if kind.namespaceScope then
      var ns := Namespace(db, cluster, o.namespace);
      ns.Found? && (kind == RELEASE || !Fetch(db, kind, cluster, Some(ns.id), o.name).Found?)
    else Fetch(db, kind, cluster, None, o.name).NoRows?
  }

  /** NewFromRemoteObject goes through when no storage call fails. */
  ghost predicate Addable(db: Db, clusters: set<ClusterId>, kind: Kind, cluster: ClusterId, o: RemoteObject) {
    && NameFree(db, kind, cluster, o) && NodeKnown(db, kind, cluster, o)
    && Versions.Accepts("", o.version) && cluster in clusters
  }

  /** Just one row of a kind in the cluster has the name. */
  ghost predicate OneNamed(db: Db, kind: Kind, cluster: ClusterId, name: string, id: RowId) {
    forall x :: x in db && db[x].kind == kind && db[x].clusterId == cluster && db[x].name == name <==> x == id
  }

  lemma FoundIff(db: Db, kind: Kind, cluster: ClusterId, name: string)
    ensures Fetch(db, kind, cluster, None, name).Found? <==> exists id :: OneNamed(db, kind, cluster, name, id)
    ensures forall id :: OneNamed(db, kind, cluster, name, id) ==> Fetch(db, kind, cluster, None, name) == Found(id)
  {
    var r := Fetch(db, kind, cluster, None, name);
    if r.Found? { assert OneNamed(db, kind, cluster, name, r.id); }
    forall id | OneNamed(db, kind, cluster, name, id) ensures r == Found(id) {
      SingleIsFound(db, kind, cluster, None, name, id);
    }
  }

  /** An update goes through in a live cluster if the version follows and, for a namespaced kind, just one
      namespace row of the cluster has the object's namespace for a name; otherwise it does not. */
  lemma UpdatedIff(db: Db, clusters: set<ClusterId>, row: Row, o: RemoteObject)
    requires Versions.IsVersion(row.version) && Versions.IsVersion(o.version)
    ensures Updated(db, clusters, row, o).Some? <==>
      && row.clusterId in clusters && Versions.Follows(row.version, o.version)
      && (row.kind.namespaceScope ==> exists ns :: OneNamed(db, NAMESPACE, row.clusterId, o.namespace, ns))
    ensures Updated(db, clusters, row, o).Some? ==>
      var row' := Updated(db, clusters, row, o).value;
      && row'.kind == row.kind && row'.clusterId == row.clusterId && row'.nodeId == row.nodeId
      && row'.externalId == o.uid && row'.name == o.name && row'.version == o.version && row'.status == o.status
      && (row.kind.namespaceScope ==>
            row'.namespaceId.Some? && OneNamed(db, NAMESPACE, row.clusterId, o.namespace, row'.namespaceId.value))
      && (!row.kind.namespaceScope ==> row'.namespaceId == row.namespaceId)
  {
    Versions.RejectedIffOlder(row.version, o.version);
    FoundIff(db, NAMESPACE, row.clusterId, o.namespace);
  }

  /** The rows of the kind with the object's name in the cluster and, for a namespaced kind, in a namespace. */
  predicate HasName(row: Row, kind: Kind, cluster: ClusterId, ns: RowId, name: string) {
    && row.kind == kind && row.clusterId == cluster && row.name == name
    && (kind.namespaceScope ==> row.namespaceId == Some(ns))
  }

  ghost predicate OneHasName(db: Db, kind: Kind, cluster: ClusterId, ns: RowId, name: string, id: RowId) {
    forall x :: x in db && HasName(db[x], kind, cluster, ns, name) <==> x == id
  }

  /** The lookup by name, said of the rows. */
  lemma NamedFoundIff(db: Db, kind: Kind, cluster: ClusterId, ns: RowId, name: string)
    ensures var r := Fetch(db, kind, cluster, if kind.namespaceScope then Some(ns) else None, name);
      && (forall id :: OneHasName(db, kind, cluster, ns, name, id) <==> r == Found(id))
      && (r == NoRows <==> forall x :: x in db ==> !HasName(db[x], kind, cluster, ns, name))
  {
    var arg := if kind.namespaceScope then Some(ns) else None;
    var r := Fetch(db, kind, cluster, arg, name);
    assert forall x :: x in db ==> (Matches(db[x], kind, cluster, arg, name) <==> HasName(db[x], kind, cluster, ns, name));
    forall id | OneHasName(db, kind, cluster, ns, name, id) ensures r == Found(id) {
      SingleIsFound(db, kind, cluster, arg, name, id);
    }
  }

  /** An object of a kind that is not namespaced can be added to a live cluster if and only if no row of the
      kind there has its name. */
  lemma ClusterAddableIff(db: Db, clusters: set<ClusterId>, kind: Kind, cluster: ClusterId, o: RemoteObject)
    requires Versions.IsVersion(o.version) && !kind.namespaceScope
    ensures Addable(db, clusters, kind, cluster, o) <==>
      cluster in clusters && forall x :: x in db ==> !HasName(db[x], kind, cluster, 0, o.name)
  {
    Versions.RejectedIffOlder("", o.version);
    assert forall x :: x in db ==> (Matches(db[x], kind, cluster, None, o.name) <==> HasName(db[x], kind, cluster, 0, o.name));
  }

  /** One of a namespaced kind, if and only if just one namespace row there has its namespace for a name, for
      a scheduled pod just one node row its node, and no row, or more than one, in that namespace has its
      name; for a release the last does not matter. */
  lemma NamespacedAddableIff(
    db: Db, clusters: set<ClusterId>, kind: Kind, cluster: ClusterId, o: RemoteObject, ns: RowId)
    requires Versions.IsVersion(o.version) && kind.namespaceScope
    ensures Addable(db, clusters, kind, cluster, o) ==> exists n :: OneNamed(db, NAMESPACE, cluster, o.namespace, n)
    ensures OneNamed(db, NAMESPACE, cluster, o.namespace, ns) ==>
      (Addable(db, clusters, kind, cluster, o) <==>
        && cluster in clusters
        && (kind == POD && o.node != "" ==> exists n :: OneNamed(db, NODE, cluster, o.node, n))
        && (kind == RELEASE || !exists id :: OneHasName(db, kind, cluster, ns, o.name, id)))
  {
    Versions.RejectedIffOlder("", o.version);
    FoundIff(db, NAMESPACE, cluster, o.namespace);
    FoundIff(db, NODE, cluster, o.node);
    NamedFoundIff(db, kind, cluster, ns, o.name);
  }

  predicate SameName(kind: Kind, o: RemoteObject, p: RemoteObject) {
    o.name == p.name && (kind.namespaceScope ==> o.namespace == p.namespace)
  }

  /** When every row of the kind belongs to an object of another name, the name is free. */
  lemma OthersLeaveNameFree(db: Db, kind: Kind, cluster: ClusterId, o: RemoteObject, others: seq<RemoteObject>)
    requires kind.namespaceScope ==> Namespace(db, cluster, o.namespace).Found?
    requires forall id :: id in Ids(db, kind, cluster) ==> IsListed(db, kind, cluster, id, others)
    requires forall p :: p in others ==> !SameName(kind, o, p)
    ensures NameFree(db, kind, cluster, o)
  {
    var ns := if kind.namespaceScope then Some(Namespace(db, cluster, o.namespace).id) else None;
    forall id | id in db ensures !Matches(db[id], kind, cluster, ns, o.name) {
      if id in Ids(db, kind, cluster) {
        assert IsListed(db, kind, cluster, id, others);
        var p :| p in others && Plain(db[id]) == Target(db, kind, cluster, p);
        assert !SameName(kind, o, p);
        if kind.namespaceScope && o.namespace != p.namespace {
          NamespacesApart(db, cluster, o.namespace, p.namespace);
        }
      }
    }
  }

  lemma NamespacesApart(db: Db, cluster: ClusterId, a: string, b: string)
    requires a != b
    ensures var x, y := Namespace(db, cluster, a), Namespace(db, cluster, b);
            x.Found? && y.Found? ==> x.id != y.id
  {
  }

  /** An insert under another name leaves an addable object addable. */
  lemma InsertLeavesAddable(
    db: Db, clusters: set<ClusterId>, kind: Kind, cluster: ClusterId, id: RowId, p: RemoteObject, o: RemoteObject)
    requires id !in db && !SameName(kind, o, p)
    requires Addable(db, clusters, kind, cluster, o)
    requires kind.namespaceScope ==> Namespace(db, cluster, p.namespace).Found?
    ensures Addable(db[id := AddedRow(db, kind, cluster, p)], clusters, kind, cluster, o)
  {
    var db' := db[id := AddedRow(db, kind, cluster, p)];
    NodeKept(db, db', kind, cluster, o);
    if kind.namespaceScope {
      TargetKept(db, db', clusters, kind, cluster, o);
      var ns := Namespace(db, cluster, o.namespace);
      if o.namespace != p.namespace {
        NamespacesApart(db, cluster, o.namespace, p.namespace);
      }
      assert !Matches(db'[id], kind, cluster, Some(ns.id), o.name);
      var r := Fetch(db', kind, cluster, Some(ns.id), o.name);
      if r.Found? {
        forall x | x in db && Matches(db[x], kind, cluster, Some(ns.id), o.name) ensures x == r.id {
          assert db'[x] == db[x];
        }
        SingleIsFound(db, kind, cluster, Some(ns.id), o.name, r.id);
      }
    }
  }

  // ----- how rows move -----

  predicate Refers(db: Db, ref: Option<RowId>, kind: Kind, cluster: ClusterId) {
    ref.Some? && ref.value in db && Of(db[ref.value], kind, cluster)
  }

  /** An update leaves a row's node, and writes its namespace only with one of the cluster. */
  predicate KeptRefs(db': Db, row: Row, row': Row) {
    && row'.nodeId == row.nodeId
    && (row'.namespaceId == row.namespaceId || Refers(db', row'.namespaceId, NAMESPACE, row'.clusterId))
  }

  predicate NewRefs(db': Db, row': Row) {
    && (row'.namespaceId.Some? ==> Refers(db', row'.namespaceId, NAMESPACE, row'.clusterId))
    && (row'.nodeId.Some? ==> Refers(db', row'.nodeId, NODE, row'.clusterId))
  }

  /** Rows of the kind refer to what they did before, or to rows of their cluster. */
  ghost predicate RefsMove(db: Db, db': Db, kind: Kind, cluster: ClusterId) {
    forall id :: id in Ids(db', kind, cluster) ==> RowRefsMove(db, db', id)
  }

  predicate RowRefsMove(db: Db, db': Db, id: RowId)
    requires id in db'
  {
    if id in db then KeptRefs(db', db[id], db'[id]) else NewRefs(db', db'[id])
  }

  /** A sync's update leaves the key as well. */
  predicate KeptRow(db': Db, row: Row, row': Row) {
    row'.externalId == row.externalId && KeptRefs(db', row, row')
  }

  /** A new row is some object's, in its namespace, and a pod's row has the node the pod was on. */
  ghost predicate NewRowOf(db': Db, kind: Kind, cluster: ClusterId, row': Row, objs: seq<RemoteObject>) {
    && (kind.namespaceScope ==> Refers(db', row'.namespaceId, NAMESPACE, cluster))
    && (!kind.namespaceScope ==> row'.namespaceId == None)
    && exists o :: o in objs && row'.externalId == o.uid && NodeKnown(db', kind, cluster, o)
                   && row'.nodeId == NodeIdOf(db', kind, cluster, o)
  }

  /** Each row of the kind was there before, or is new. */
  ghost predicate Moves(db: Db, db': Db, kind: Kind, cluster: ClusterId, objs: seq<RemoteObject>) {
    forall id :: id in Ids(db', kind, cluster) ==>
                   if id in db then KeptRow(db', db[id], db'[id]) else NewRowOf(db', kind, cluster, db'[id], objs)
  }

  lemma MovesRefs(db: Db, db': Db, kind: Kind, cluster: ClusterId, objs: seq<RemoteObject>)
    requires Moves(db, db', kind, cluster, objs)
    ensures RefsMove(db, db', kind, cluster)
  {
    forall id | id in Ids(db', kind, cluster) ensures RowRefsMove(db, db', id) {
      if id !in db {
        assert NewRowOf(db', kind, cluster, db'[id], objs);
        var o :| o in objs && db'[id].nodeId == NodeIdOf(db', kind, cluster, o);
      }
    }
  }

  /** Ids of deleted rows are kept and not given out again. */
  ghost predicate IdsMove(db: Db, gone: set<RowId>, db': Db, gone': set<RowId>) {
    && gone <= gone' && db.Keys <= db'.Keys + gone'
    && (forall id :: id in db' && id !in db ==> id !in gone')
    && (forall id :: id in gone' && id !in gone ==> id !in db')
  }

  lemma IdsMoveThen(a: Db, goneA: set<RowId>, b: Db, goneB: set<RowId>, c: Db, goneC: set<RowId>)
    requires IdsMove(a, goneA, b, goneB) && IdsMove(b, goneB, c, goneC)
    ensures IdsMove(a, goneA, c, goneC)
  {
  }

  lemma NewRowOfKept(db: Db, db': Db, kind: Kind, cluster: ClusterId, row: Row, row': Row, objs: seq<RemoteObject>)
    requires OnlyChanges(db, db', kind, cluster) && NewRowOf(db, kind, cluster, row, objs)
    requires KeptRow(db', row, row') && Of(row', kind, cluster) && (!kind.namespaceScope ==> row'.namespaceId == None)
    ensures NewRowOf(db', kind, cluster, row', objs)
  {
    var o :| o in objs && row.externalId == o.uid && NodeKnown(db, kind, cluster, o)
             && row.nodeId == NodeIdOf(db, kind, cluster, o);
    NodeKept(db, db', kind, cluster, o);
  }

  lemma MovesThen(db: Db, mid: Db, db': Db, kind: Kind, cluster: ClusterId, objs: seq<RemoteObject>)
    requires Moves(db, mid, kind, cluster, objs) && Moves(mid, db', kind, cluster, objs)
    requires OnlyChanges(db, mid, kind, cluster) && OnlyChanges(mid, db', kind, cluster)
    requires Valid(db') && forall id :: id in db' && id !in mid ==> id !in db
    ensures Moves(db, db', kind, cluster, objs)
  {
    forall id | id in Ids(db', kind, cluster)
      ensures if id in db then KeptRow(db', db[id], db'[id]) else NewRowOf(db', kind, cluster, db'[id], objs)
    {
      if id in mid && id !in db {
        NewRowOfKept(mid, db', kind, cluster, mid[id], db'[id], objs);
      }
    }
  }

  lemma MovesMore(db: Db, db': Db, kind: Kind, cluster: ClusterId, objs: seq<RemoteObject>, all: seq<RemoteObject>)
    requires Moves(db, db', kind, cluster, objs) && forall o :: o in objs ==> o in all
    ensures Moves(db, db', kind, cluster, all)
  {
    forall id | id in Ids(db', kind, cluster) && id !in db ensures NewRowOf(db', kind, cluster, db'[id], all) {
      var o :| o in objs && db'[id].externalId == o.uid && NodeKnown(db', kind, cluster, o)
               && db'[id].nodeId == NodeIdOf(db', kind, cluster, o);
      assert o in all;
    }
  }

  // ----- mirroring -----

  /** The same for a listing some objects of which were skipped. */
  ghost predicate MirrorsBut(
    db: Db, kind: Kind, cluster: ClusterId, objs: seq<RemoteObject>, skipped: seq<RemoteObject>)
  {
    && (forall o :: o in objs && o !in skipped ==> HasRow(db, kind, cluster, o))
    && (forall id :: id in db && Of(db[id], kind, cluster) ==> IsListed(db, kind, cluster, id, objs))
    && OneRowPerUid(db, kind, cluster)
  }

  /** The rows of a kind in a cluster are exactly the listed objects' rows, one per UID. */
  ghost predicate Mirrors(db: Db, kind: Kind, cluster: ClusterId, objs: seq<RemoteObject>) {
    && (forall o :: o in objs ==> HasRow(db, kind, cluster, o))
    && (forall id :: id in db && Of(db[id], kind, cluster) ==> IsListed(db, kind, cluster, id, objs))
    && OneRowPerUid(db, kind, cluster)
  }

  ghost predicate HasRow(db: Db, kind: Kind, cluster: ClusterId, o: RemoteObject) {
    && (kind.namespaceScope ==> Namespace(db, cluster, o.namespace).Found?)
    && exists id :: id in db && Plain(db[id]) == Target(db, kind, cluster, o)
  }

  ghost predicate IsListed(db: Db, kind: Kind, cluster: ClusterId, id: RowId, objs: seq<RemoteObject>) {
    id in db && exists o :: o in objs && Plain(db[id]) == Target(db, kind, cluster, o)
  }

  ghost predicate OneRowPerUid(db: Db, kind: Kind, cluster: ClusterId) {
    forall id, id' | id in Ids(db, kind, cluster) && id' in Ids(db, kind, cluster) ::
      db[id].externalId == db[id'].externalId ==> id == id'
  }

  ghost predicate DistinctUids(objs: seq<RemoteObject>) {
    forall i, j :: 0 <= i < j < |objs| ==> objs[i].uid != objs[j].uid
  }

  ghost predicate DistinctNames(kind: Kind, objs: seq<RemoteObject>) {
    forall i, j :: 0 <= i < j < |objs| ==> !SameName(kind, objs[i], objs[j])
  }

  lemma MirrorsKept(db: Db, db': Db, kind: Kind, cluster: ClusterId, objs: seq<RemoteObject>)
    requires Mirrors(db, kind, cluster, objs)
    requires SameRows(db, db', kind, cluster)
    requires kind.namespaceScope ==> SameRows(db, db', NAMESPACE, cluster)
    ensures Mirrors(db', kind, cluster, objs)
  {
    forall o | o in objs ensures HasRow(db', kind, cluster, o) {
      TargetKept(db, db', {}, kind, cluster, o);
      assert HasRow(db, kind, cluster, o);
      var id :| id in db && Plain(db[id]) == Target(db, kind, cluster, o);
      assert id in db' && Plain(db'[id]) == Target(db', kind, cluster, o);
    }
    forall id | id in db' && Of(db'[id], kind, cluster) ensures IsListed(db', kind, cluster, id, objs) {
      assert IsListed(db, kind, cluster, id, objs);
      var o :| o in objs && Plain(db[id]) == Target(db, kind, cluster, o);
      TargetKept(db, db', {}, kind, cluster, o);
    }
  }

  /** What mirroring gives a reader: a bijection by UID between the listed objects and the rows,
      with equal names and versions and with namespace ids that name the object's namespace in the
      same cluster. The chosen ids are the rows in listing order. */
  lemma MirrorsBijection(db: Db, kind: Kind, cluster: ClusterId, objs: seq<RemoteObject>) returns (ids: seq<RowId>)
    requires Mirrors(db, kind, cluster, objs) && DistinctUids(objs)
    ensures |ids| == |objs|
    ensures forall i, j :: 0 <= i < j < |ids| ==> ids[i] != ids[j]
    ensures Ids(db, kind, cluster) == set i | 0 <= i < |ids| :: ids[i]
    ensures forall i :: 0 <= i < |ids| ==>
      && ids[i] in db && db[ids[i]].externalId == objs[i].uid && db[ids[i]].name == objs[i].name
      && db[ids[i]].version == objs[i].version && db[ids[i]].status == objs[i].status
    ensures kind.namespaceScope ==> forall i :: 0 <= i < |ids| ==>
      && db[ids[i]].namespaceId.Some? && db[ids[i]].namespaceId.value in db
      && var ns := db[db[ids[i]].namespaceId.value];
      && Of(ns, NAMESPACE, cluster) && ns.name == objs[i].namespace
  {
    ids := RowsInOrder(db, kind, cluster, objs);
    forall id | id in Ids(db, kind, cluster) ensures exists i :: 0 <= i < |ids| && ids[i] == id {
      assert IsListed(db, kind, cluster, id, objs);
      var o :| o in objs && Plain(db[id]) == Target(db, kind, cluster, o);
      var i :| 0 <= i < |objs| && objs[i] == o;
      assert db[ids[i]].externalId == db[id].externalId;
      assert ids[i] == id;
    }
    forall i | 0 <= i < |ids| ensures ids[i] in Ids(db, kind, cluster) {}
  }

  lemma RowsInOrder(db: Db, kind: Kind, cluster: ClusterId, objs: seq<RemoteObject>) returns (ids: seq<RowId>)
    requires Mirrors(db, kind, cluster, objs)
    ensures |ids| == |objs|
    ensures forall i :: 0 <= i < |ids| ==> ids[i] in db && Plain(db[ids[i]]) == Target(db, kind, cluster, objs[i])
    ensures kind.namespaceScope ==> forall i :: 0 <= i < |ids| ==> Namespace(db, cluster, objs[i].namespace).Found?
  {
    ids := [];
    for n := 0 to |objs|
      invariant |ids| == n
      invariant forall i :: 0 <= i < n ==> ids[i] in db && Plain(db[ids[i]]) == Target(db, kind, cluster, objs[i])
      invariant kind.namespaceScope ==> forall i :: 0 <= i < n ==> Namespace(db, cluster, objs[i].namespace).Found?
    {
      assert HasRow(db, kind, cluster, objs[n]);
      var id :| id in db && Plain(db[id]) == Target(db, kind, cluster, objs[n]);
      ids := ids + [id];
    }
  }
}
