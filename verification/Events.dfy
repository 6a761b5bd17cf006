/**
 Informer events: each one patches the rows it is about, by name, while the feed is on
 (pkg/kubeserver/client/cache.go:262-331, pkg/kubeserver/models/clusterresource.go:1180-1267).
 */
module Events {
  import opened Wrappers
  import opened ClusterTables
  import opened ClusterStore
  import Versions
  import Sync

  datatype Event = Added(obj: RemoteObject) | Modified(obj: RemoteObject) | Deleted(obj: RemoteObject)

  /** The remote objects of one cluster-scoped kind by name. */
  type Remote = map<string, RemoteObject>

  function Apply(remote: Remote, e: Event): Remote {
    match e
    case Added(o) => remote[o.name := o]
    case Modified(o) => remote[o.name := o]
    case Deleted(o) => remote - {o.name}
  }

  function ApplyAll(remote: Remote, events: seq<Event>): Remote
    decreases events
  {
    if events == [] then remote else ApplyAll(Apply(remote, events[0]), events[1..])
  }

  /** One row per remote object, found by name, and holding exactly what the object asks for. */
  ghost predicate MirrorsByName(db: Db, kind: Kind, cluster: ClusterId, remote: Remote) {
    && (forall n :: n in remote ==> remote[n].name == n && NamedRow(db, kind, cluster, n))
    && (forall id :: id in Ids(db, kind, cluster) ==>
          db[id].name in remote && Plain(db[id]) == Target(db, kind, cluster, remote[db[id].name]))
    && (forall id, id' | id in Ids(db, kind, cluster) && id' in Ids(db, kind, cluster) ::
          db[id].name == db[id'].name ==> id == id')
  }

  ghost predicate NamedRow(db: Db, kind: Kind, cluster: ClusterId, name: string) {
    exists id :: id in Ids(db, kind, cluster) && db[id].name == name
  }

  /** The feed never goes back: a new version follows the one it replaces, and no object
      puts its row in a fail status. */
  ghost predicate Forward(remote: Remote, e: Event) {
    match e
    case Deleted(o) => o.name in remote ==> !Sync.IsFailStatus(remote[o.name].status)
    case _ =>
      Versions.Follows(if e.obj.name in remote then remote[e.obj.name].version else "", e.obj.version)
  }

  ghost predicate AllForward(remote: Remote, events: seq<Event>)
    decreases events
  {
    events == [] || (Forward(remote, events[0]) && AllForward(Apply(remote, events[0]), events[1..]))
  }

  function ByName(objs: seq<RemoteObject>): Remote {
    if objs == [] then map[] else ByName(objs[..|objs| - 1])[objs[|objs| - 1].name := objs[|objs| - 1]]
  }

  lemma {:induction false} ByNameExact(kind: Kind, objs: seq<RemoteObject>)
    requires !kind.namespaceScope && DistinctNames(kind, objs)
    ensures forall n :: n in ByName(objs) ==> ByName(objs)[n] in objs && ByName(objs)[n].name == n
    ensures forall i :: 0 <= i < |objs| ==> objs[i].name in ByName(objs) && ByName(objs)[objs[i].name] == objs[i]
  {
    if objs != [] {
      var n := |objs| - 1;
      var front, last := objs[..n], objs[n];
      assert forall i :: 0 <= i < n ==> front[i] == objs[i];
      ByNameExact(kind, front);
      var m := ByName(front);
      var all := m[last.name := last];
      forall x | x in all ensures all[x] in objs && all[x].name == x {
        assert x != last.name ==> m[x] in front;
      }
      forall i | 0 <= i < n ensures objs[i].name in m && m[objs[i].name] == objs[i] && objs[i].name != last.name {
        assert front[i] == objs[i] && !SameName(kind, objs[i], last);
      }
    }
  }

  /** A sync hands over to the feed: rows that mirror a listing mirror it by name. */
  lemma SyncHandsOver(db: Db, kind: Kind, cluster: ClusterId, objs: seq<RemoteObject>)
    requires !kind.namespaceScope && Mirrors(db, kind, cluster, objs)
    requires DistinctUids(objs) && DistinctNames(kind, objs)
    ensures MirrorsByName(db, kind, cluster, ByName(objs))
  {
    var remote := ByName(objs);
    ByNameExact(kind, objs);
    forall o | o in objs ensures o.name in remote && remote[o.name] == o {
      var i :| 0 <= i < |objs| && objs[i] == o;
    }
    forall n | n in remote ensures NamedRow(db, kind, cluster, n) {
      assert HasRow(db, kind, cluster, remote[n]);
      var id :| id in db && Plain(db[id]) == Target(db, kind, cluster, remote[n]);
      assert id in Ids(db, kind, cluster) && db[id].name == n;
    }
    forall id | id in Ids(db, kind, cluster)
      ensures db[id].name in remote && Plain(db[id]) == Target(db, kind, cluster, remote[db[id].name])
    {
      assert IsListed(db, kind, cluster, id, objs);
    }
    forall id, id' | id in Ids(db, kind, cluster) && id' in Ids(db, kind, cluster) && db[id].name == db[id'].name
      ensures id == id'
    {
      assert db[id].externalId == db[id'].externalId;
    }
  }

  // ----- the two handlers -----

  lemma MirroredLookup(db: Db, kind: Kind, cluster: ClusterId, remote: Remote, name: string)
    requires MirrorsByName(db, kind, cluster, remote)
    ensures name !in remote ==> Fetch(db, kind, cluster, None, name).NoRows?
    ensures name in remote ==> var r := Fetch(db, kind, cluster, None, name);
      r.Found? && r.id in Ids(db, kind, cluster) && db[r.id].name == name
  {
    if name in remote {
      assert NamedRow(db, kind, cluster, name);
      var id :| id in Ids(db, kind, cluster) && db[id].name == name;
      forall x | x in db && Matches(db[x], kind, cluster, None, name) ensures x == id {
        assert x in Ids(db, kind, cluster);
      }
      SingleIsFound(db, kind, cluster, None, name, id);
    } else {
      forall id | id in db ensures !Matches(db[id], kind, cluster, None, name) {
        assert id in Ids(db, kind, cluster) ==> db[id].name in remote;
      }
    }
  }

  /** Writing the object's row, over the row of that name or as a new one, follows the remote side. */
  lemma WrittenMirrors(db: Db, kind: Kind, cluster: ClusterId, remote: Remote, id: RowId, o: RemoteObject, row: Row)
    requires !kind.namespaceScope && MirrorsByName(db, kind, cluster, remote)
    requires if o.name in remote then id in Ids(db, kind, cluster) && db[id].name == o.name else id !in db
    requires Plain(row) == Target(db, kind, cluster, o)
    ensures MirrorsByName(db[id := row], kind, cluster, remote[o.name := o])
  {
    var db', remote' := db[id := row], remote[o.name := o];
    assert Ids(db', kind, cluster) == Ids(db, kind, cluster) + {id};
    assert id in Ids(db', kind, cluster) && db'[id].name == o.name;
    forall n | n in remote' ensures remote'[n].name == n && NamedRow(db', kind, cluster, n) {
      if n != o.name {
        assert NamedRow(db, kind, cluster, n);
        var x :| x in Ids(db, kind, cluster) && db[x].name == n;
        assert x in Ids(db', kind, cluster) && db'[x].name == n;
      }
    }
    forall x | x in Ids(db, kind, cluster) && x != id ensures db'[x] == db[x] && db[x].name != o.name {
      assert db[x].name in remote;
    }
    forall x | x in Ids(db', kind, cluster)
      ensures db'[x].name in remote' && Plain(db'[x]) == Target(db', kind, cluster, remote'[db'[x].name])
    {
    }
  }

  lemma ErasedMirrors(db: Db, kind: Kind, cluster: ClusterId, remote: Remote, id: RowId)
    requires !kind.namespaceScope && MirrorsByName(db, kind, cluster, remote)
    requires id in Ids(db, kind, cluster)
    ensures MirrorsByName(db - {id}, kind, cluster, remote - {db[id].name})
  {
    var db', remote' := db - {id}, remote - {db[id].name};
    assert Ids(db', kind, cluster) == Ids(db, kind, cluster) - {id};
    forall n | n in remote' ensures NamedRow(db', kind, cluster, n) {
      assert NamedRow(db, kind, cluster, n);
      var x :| x in Ids(db, kind, cluster) && db[x].name == n;
      assert x in Ids(db', kind, cluster) && db'[x].name == n;
    }
  }

  // ----- what the handlers do to any row -----

  /** Where a lookup by name looks: anywhere in the cluster, or in the object's namespace. */
  function Scope(db: Db, kind: Kind, cluster: ClusterId, o: RemoteObject): Option<RowId> {
    var ns := Namespace(db, cluster, o.namespace);
    if kind.namespaceScope && ns.Found? then Some(ns.id) else None
  }

  /** A delete event, when no call fails. */
  ghost predicate Erases(db: Db, db': Db, kind: Kind, cluster: ClusterId, o: RemoteObject, ok: bool) {
    if !Sync.NamespaceKnown(db, kind, cluster, o) then !ok && db' == db
    else match Fetch(db, kind, cluster, Scope(db, kind, cluster, o), o.name)
      case NoRows => ok && db' == db
      case DuplicateRows => !ok && db' == db
      case Found(id) => ok && db' == if Sync.IsFailStatus(db[id].status) then db else db - {id}
  }

  /** An add or update event, when no call fails. */
  ghost predicate Writes(
    db: Db, db': Db, clusters: set<ClusterId>, kind: Kind, cluster: ClusterId, o: RemoteObject, ok: bool)
  {
    var found := Fetch(db, kind, cluster, Scope(db, kind, cluster, o), o.name);
    if !Sync.NamespaceKnown(db, kind, cluster, o) then !ok && db' == db
    else if found.Found? && kind != RELEASE then
      var row := Updated(db, clusters, db[found.id], o);
      ok == row.Some? && db' == if ok then db[found.id := row.value] else db
    else
      && ok == Addable(db, clusters, kind, cluster, o)
      && (ok ==> exists id: RowId :: id !in db && db' == db[id := AddedRow(db, kind, cluster, o)])
  }

  /** The same, said of the rows: ns is the namespace's row, and plays no part for other kinds. */
  lemma ErasesRows(db: Db, db': Db, kind: Kind, cluster: ClusterId, o: RemoteObject, ok: bool, ns: RowId)
    requires Erases(db, db', kind, cluster, o, ok)
    requires kind.namespaceScope ==> OneNamed(db, NAMESPACE, cluster, o.namespace, ns)
    ensures forall id :: OneHasName(db, kind, cluster, ns, o.name, id) ==>
      ok && (if Sync.IsFailStatus(db[id].status) then db' == db else db' == db - {id})
    ensures (forall x :: x in db ==> !HasName(db[x], kind, cluster, ns, o.name)) ==> ok && db' == db
    ensures (forall id :: !OneHasName(db, kind, cluster, ns, o.name, id)) ==>
      (exists x :: x in db && HasName(db[x], kind, cluster, ns, o.name)) ==> !ok && db' == db
  {
    FoundIff(db, NAMESPACE, cluster, o.namespace);
    NamedFoundIff(db, kind, cluster, ns, o.name);
  }

  lemma WritesRows(
    db: Db, db': Db, clusters: set<ClusterId>, kind: Kind, cluster: ClusterId, o: RemoteObject, ok: bool, ns: RowId)
    requires Writes(db, db', clusters, kind, cluster, o, ok)
    requires kind.namespaceScope ==> OneNamed(db, NAMESPACE, cluster, o.namespace, ns)
    ensures kind != RELEASE ==> forall id :: OneHasName(db, kind, cluster, ns, o.name, id) ==>
      && ok == Updated(db, clusters, db[id], o).Some?
      && (ok ==> db' == db[id := Updated(db, clusters, db[id], o).value]) && (!ok ==> db' == db)
    ensures (forall x :: x in db ==> !HasName(db[x], kind, cluster, ns, o.name)) ==>
      && ok == Addable(db, clusters, kind, cluster, o)
      && (ok ==> exists id: RowId :: id !in db && db' == db[id := AddedRow(db, kind, cluster, o)])
  {
    FoundIff(db, NAMESPACE, cluster, o.namespace);
    NamedFoundIff(db, kind, cluster, ns, o.name);
  }

  /** For a mirrored kind the written row follows the remote side. */
  lemma WritesMirrors(
    db: Db, db': Db, clusters: set<ClusterId>, kind: Kind, cluster: ClusterId, o: RemoteObject, ok: bool, remote: Remote)
    requires Writes(db, db', clusters, kind, cluster, o, ok) && Valid(db)
    requires !kind.namespaceScope && cluster in clusters && MirrorsByName(db, kind, cluster, remote)
    requires Forward(remote, Modified(o))
    ensures ok && MirrorsByName(db', kind, cluster, remote[o.name := o])
  {
    MirroredLookup(db, kind, cluster, remote, o.name);
    Versions.FollowsIsAccepted(if o.name in remote then remote[o.name].version else "", o.version);
    if o.name in remote {
      var id := Fetch(db, kind, cluster, None, o.name).id;
      UpdatedIsTarget(db, clusters, db[id], o);
      WrittenMirrors(db, kind, cluster, remote, id, o, Updated(db, clusters, db[id], o).value);
    } else {
      var id: RowId :| id !in db && db' == db[id := AddedRow(db, kind, cluster, o)];
      WrittenMirrors(db, kind, cluster, remote, id, o, AddedRow(db, kind, cluster, o));
    }
  }

  lemma ErasesMirrors(
    db: Db, db': Db, kind: Kind, cluster: ClusterId, o: RemoteObject, ok: bool, remote: Remote)
    requires Erases(db, db', kind, cluster, o, ok)
    requires !kind.namespaceScope && MirrorsByName(db, kind, cluster, remote) && Forward(remote, Deleted(o))
    ensures ok && MirrorsByName(db', kind, cluster, remote - {o.name})
  {
    MirroredLookup(db, kind, cluster, remote, o.name);
    if o.name in remote {
      ErasedMirrors(db, kind, cluster, remote, Fetch(db, kind, cluster, None, o.name).id);
    } else {
      assert remote - {o.name} == remote;
    }
  }

  method ProcessCreateOrUpdate(store: Store, kind: Kind, cluster: ClusterId, o: RemoteObject) returns (ok: bool)
    requires Valid(store.rows)
    modifies store`rows, store`faults, store`trail
    ensures store.faults >= old(store.faults)
    ensures OnlyChanges(old(store.rows), store.rows, kind, cluster) && Valid(store.rows)
    ensures RefsMove(old(store.rows), store.rows, kind, cluster)
    ensures IdsMove(old(store.rows), old(store.gone), store.rows, store.gone)
    ensures store.faults == old(store.faults) ==> Writes(old(store.rows), store.rows, store.clusters, kind, cluster, o, ok)
  {
    ghost var db: Db := store.rows;
    var exist, id := Sync.IsRemoteObjectLocalExist(store, kind, cluster, o);
    if exist == Sync.LookupFailed { return false; }
    if exist == Sync.Exists {
      ok := UpdateExisting(store, kind, cluster, id, o);
    } else {
      id, ok := Sync.NewFromRemoteObject(store, kind, cluster, o);
    }
  }

  /** onRemoteObjectUpdate. */
  method UpdateExisting(store: Store, kind: Kind, cluster: ClusterId, id: RowId, o: RemoteObject) returns (ok: bool)
    requires Valid(store.rows) && id in store.rows && Of(store.rows[id], kind, cluster)
    modifies store`rows, store`faults, store`trail
    ensures store.faults >= old(store.faults)
    ensures ok ==> Updated(old(store.rows), store.clusters, old(store.rows)[id], o).Some?
                   && store.rows == old(store.rows)[id := Updated(old(store.rows), store.clusters, old(store.rows)[id], o).value]
    ensures !ok ==> store.rows == old(store.rows)
    ensures store.faults == old(store.faults) ==> ok == Updated(old(store.rows), store.clusters, old(store.rows)[id], o).Some?
    ensures OnlyChanges(old(store.rows), store.rows, kind, cluster) && Valid(store.rows)
    ensures RefsMove(old(store.rows), store.rows, kind, cluster)
    ensures IdsMove(old(store.rows), old(store.gone), store.rows, store.gone)
  {
    var l := Sync.Loaded(id, store.rows[id]);
    ok := Sync.UpdateFromRemoteObject(store, l, o);
    if ok { UpdatedIsTarget(old(store.rows), store.clusters, l.row, o); }
  }

  method ProcessDelete(store: Store, kind: Kind, cluster: ClusterId, o: RemoteObject) returns (ok: bool)
    requires Valid(store.rows)
    modifies store`rows, store`gone, store`faults, store`trail
    ensures store.faults >= old(store.faults)
    ensures OnlyChanges(old(store.rows), store.rows, kind, cluster) && Valid(store.rows)
    ensures RefsMove(old(store.rows), store.rows, kind, cluster)
    ensures IdsMove(old(store.rows), old(store.gone), store.rows, store.gone)
    ensures store.faults == old(store.faults) ==> Erases(old(store.rows), store.rows, kind, cluster, o, ok)
  {
    var nsId: Option<RowId> := None;
    if kind.namespaceScope {
      ok := store.Query();
      if !ok { return; }
      var ns := Namespace(store.rows, cluster, o.namespace);
      if !ns.Found? { return false; }
      nsId := Some(ns.id);
    }
    ok := store.Query();
    if !ok { return; }
    match Fetch(store.rows, kind, cluster, nsId, o.name)
    case NoRows => return true;
    case DuplicateRows => return false;
    case Found(id) =>
      ok := Sync.SyncRemovedClusterResource(store, Sync.Loaded(id, store.rows[id]));
  }

  /** One event, when no call fails. */
  ghost predicate Handled(db: Db, db': Db, clusters: set<ClusterId>, kind: Kind, cluster: ClusterId, e: Event, ok: bool) {
    if e.Deleted? then Erases(db, db', kind, cluster, e.obj, ok) else Writes(db, db', clusters, kind, cluster, e.obj, ok)
  }

  lemma HandledMirrors(
    db: Db, db': Db, clusters: set<ClusterId>, kind: Kind, cluster: ClusterId, e: Event, ok: bool, remote: Remote)
    requires Handled(db, db', clusters, kind, cluster, e, ok) && Valid(db)
    requires !kind.namespaceScope && cluster in clusters && MirrorsByName(db, kind, cluster, remote)
    requires Forward(remote, e)
    ensures ok && MirrorsByName(db', kind, cluster, Apply(remote, e))
  {
    if e.Deleted? {
      ErasesMirrors(db, db', kind, cluster, e.obj, ok, remote);
    } else {
      WritesMirrors(db, db', clusters, kind, cluster, e.obj, ok, remote);
    }
  }

  method Process(store: Store, kind: Kind, cluster: ClusterId, e: Event) returns (ok: bool)
    requires Valid(store.rows)
    modifies store`rows, store`gone, store`faults, store`trail
    ensures store.faults >= old(store.faults)
    ensures OnlyChanges(old(store.rows), store.rows, kind, cluster) && Valid(store.rows)
    ensures RefsMove(old(store.rows), store.rows, kind, cluster)
    ensures IdsMove(old(store.rows), old(store.gone), store.rows, store.gone)
    ensures store.faults == old(store.faults) ==>
      Handled(old(store.rows), store.rows, store.clusters, kind, cluster, e, ok)
  {
    if e.Deleted? {
      ok := ProcessDelete(store, kind, cluster, e.obj);
    } else {
      ok := ProcessCreateOrUpdate(store, kind, cluster, e.obj);
    }
  }

  // ----- the feed -----

  /** The informer cache of a cluster; events pass only while bidirectionalSync is on. */
  class CacheFactory {
    var bidirectionalSync: bool

    constructor ()
      ensures !bidirectionalSync
    {
      bidirectionalSync := false;
    }

    method EnableBidirectionalSync()
      modifies this
      ensures bidirectionalSync
    {
      bidirectionalSync := true;
    }

    method DisableBidirectionalSync()
      modifies this
      ensures !bidirectionalSync
    {
      bidirectionalSync := false;
    }

    /** eventHandler.run around OnAdd, OnUpdate and OnDelete; a handler's error is only logged. */
    method Handle(store: Store, kind: Kind, cluster: ClusterId, e: Event, ghost remote: Remote)
      requires Valid(store.rows)
      modifies store`rows, store`gone, store`faults, store`trail
      ensures store.faults >= old(store.faults)
      ensures OnlyChanges(old(store.rows), store.rows, kind, cluster) && Valid(store.rows)
      ensures RefsMove(old(store.rows), store.rows, kind, cluster)
      ensures IdsMove(old(store.rows), old(store.gone), store.rows, store.gone)
      ensures !bidirectionalSync ==> store.rows == old(store.rows) && store.faults == old(store.faults)
      ensures bidirectionalSync && store.faults == old(store.faults) && !kind.namespaceScope && cluster in store.clusters
              && MirrorsByName(old(store.rows), kind, cluster, remote) && Forward(remote, e)
              ==> MirrorsByName(store.rows, kind, cluster, Apply(remote, e))
      ensures bidirectionalSync && store.faults == old(store.faults) ==>
        exists ok :: Handled(old(store.rows), store.rows, store.clusters, kind, cluster, e, ok)
    {
      if !bidirectionalSync { return; }
      ghost var db: Db := store.rows;
      var ok := Process(store, kind, cluster, e);
      if store.faults == old(store.faults) && !kind.namespaceScope && cluster in store.clusters
         && MirrorsByName(db, kind, cluster, remote) && Forward(remote, e)
      {
        HandledMirrors(db, store.rows, store.clusters, kind, cluster, e, ok, remote);
      }
    }

    /** Replaying any run of events keeps the rows a mirror of the remote side, an update that
        carries a new UID for an existing name included. */
    method Replay(store: Store, kind: Kind, cluster: ClusterId, events: seq<Event>, ghost remote: Remote)
      requires Valid(store.rows)
      modifies store`rows, store`gone, store`faults, store`trail
      ensures store.faults >= old(store.faults)
      ensures OnlyChanges(old(store.rows), store.rows, kind, cluster) && Valid(store.rows)
      ensures !bidirectionalSync ==> store.rows == old(store.rows)
      ensures bidirectionalSync && store.faults == old(store.faults) && !kind.namespaceScope && cluster in store.clusters
              && MirrorsByName(old(store.rows), kind, cluster, remote) && AllForward(remote, events)
              ==> MirrorsByName(store.rows, kind, cluster, ApplyAll(remote, events))
    {
      ghost var db: Db, now := store.rows, remote;
      for i := 0 to |events|
        invariant store.faults >= old(store.faults)
        invariant OnlyChanges(db, store.rows, kind, cluster) && Valid(store.rows)
        invariant !bidirectionalSync ==> store.rows == db
        invariant ApplyAll(now, events[i..]) == ApplyAll(remote, events)
        invariant AllForward(remote, events) ==> AllForward(now, events[i..])
        invariant bidirectionalSync && store.faults == old(store.faults) && !kind.namespaceScope && cluster in store.clusters
                  && MirrorsByName(db, kind, cluster, remote) && AllForward(remote, events)
                  ==> MirrorsByName(store.rows, kind, cluster, now)
      {
        assert events[i..][0] == events[i] && events[i..][1..] == events[i + 1..];
        Handle(store, kind, cluster, events[i], now);
        now := Apply(now, events[i]);
      }
    }
  }
}
