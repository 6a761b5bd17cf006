/**
 Every reference between rows stays inside one cluster, whatever syncs, events, purges, garbage
 collections and creates the tables go through: each namespace or node is looked up in the row's own
 cluster, and no id is given out twice (pkg/kubeserver/models/namespaceresource.go:167-205,
 pods.go:404-420). So garbage collection is exact on all tables that are reached.
 */
module References {
  import opened Wrappers
  import opened ClusterTables
  import Purge
  import Reconcile

  /** The row referred to is one of the cluster, or was deleted. */
  predicate RefKept(db: Db, gone: set<RowId>, ref: Option<RowId>, kind: Kind, cluster: ClusterId) {
    ref.Some? ==> Refers(db, ref, kind, cluster) || (ref.value in gone && ref.value !in db)
  }

  ghost predicate Referenced(db: Db, gone: set<RowId>) {
    && gone !! db.Keys
    && forall id :: id in db ==> RowReferenced(db, gone, db[id])
  }

  predicate RowReferenced(db: Db, gone: set<RowId>, row: Row) {
    && RefKept(db, gone, row.namespaceId, NAMESPACE, row.clusterId)
    && RefKept(db, gone, row.nodeId, NODE, row.clusterId)
  }

  /** One kind's rows in a cluster moved, by a sync or an event; rows went, by a purge or a garbage
      collection; or a row was created for a joint row. */
  ghost predicate Step(db: Db, gone: set<RowId>, db': Db, gone': set<RowId>) {
    && IdsMove(db, gone, db', gone')
    && ((exists kind, cluster :: OnlyChanges(db, db', kind, cluster) && RefsMove(db, db', kind, cluster))
        || (forall id :: id in db' ==> id in db && db'[id] == db[id])
        || (exists j, id :: id !in db && id in db' && db' == db[id := db'[id]] && Reconcile.IsCreated(db, j, db'[id])))
  }

  lemma RefMoves(
    db: Db, gone: set<RowId>, db': Db, gone': set<RowId>, kind: Kind, cluster: ClusterId,
    ref: Option<RowId>, to: Kind, own: ClusterId)
    requires IdsMove(db, gone, db', gone') && gone !! db.Keys && OnlyChanges(db, db', kind, cluster)
    requires RefKept(db, gone, ref, to, own)
    ensures RefKept(db', gone', ref, to, own)
  {
  }

  lemma MovesKeepReferenced(
    db: Db, gone: set<RowId>, db': Db, gone': set<RowId>, kind: Kind, cluster: ClusterId)
    requires Referenced(db, gone) && IdsMove(db, gone, db', gone')
    requires OnlyChanges(db, db', kind, cluster) && RefsMove(db, db', kind, cluster)
    ensures Referenced(db', gone')
  {
    forall id | id in db' ensures RowReferenced(db', gone', db'[id]) {
      var row := db'[id];
      assert id in Ids(db', kind, cluster) ==> RowRefsMove(db, db', id);
      if id in db {
        assert RowReferenced(db, gone, db[id]);
        RefMoves(db, gone, db', gone', kind, cluster, db[id].namespaceId, NAMESPACE, db[id].clusterId);
        RefMoves(db, gone, db', gone', kind, cluster, db[id].nodeId, NODE, db[id].clusterId);
        assert Of(row, kind, cluster) ==> id in Ids(db', kind, cluster);
        assert db[id].clusterId == row.clusterId;
      } else {
        assert id in Ids(db', kind, cluster);
      }
    }
  }

  lemma StepKeepsReferenced(db: Db, gone: set<RowId>, db': Db, gone': set<RowId>)
    requires Referenced(db, gone) && Step(db, gone, db', gone')
    ensures Referenced(db', gone')
  {
    if kind, cluster :| OnlyChanges(db, db', kind, cluster) && RefsMove(db, db', kind, cluster) {
      MovesKeepReferenced(db, gone, db', gone', kind, cluster);
    } else if forall id :: id in db' ==> id in db && db'[id] == db[id] {
      forall id | id in db' ensures RowReferenced(db', gone', db'[id]) {
        assert RowReferenced(db, gone, db[id]);
      }
    } else {
      var j, id :| id !in db && id in db' && db' == db[id := db'[id]] && Reconcile.IsCreated(db, j, db'[id]);
      forall x | x in db' ensures RowReferenced(db', gone', db'[x]) {
        assert x in db ==> RowReferenced(db, gone, db[x]);
      }
    }
  }

  /** The tables and the deleted ids, at one moment. */
  datatype Moment = Moment(db: Db, gone: set<RowId>)

  ghost predicate IsRun(ms: seq<Moment>) {
    && |ms| > 0 && ms[0].db == map[] && ms[0].gone == {}
    && forall i :: 0 <= i < |ms| - 1 ==> Step(ms[i].db, ms[i].gone, ms[i + 1].db, ms[i + 1].gone)
  }

  lemma {:induction false} RunsKeepReferenced(ms: seq<Moment>, i: nat)
    requires IsRun(ms) && i < |ms|
    ensures Referenced(ms[i].db, ms[i].gone)
  {
    if i > 0 {
      RunsKeepReferenced(ms, i - 1);
      StepKeepsReferenced(ms[i - 1].db, ms[i - 1].gone, ms[i].db, ms[i].gone);
    }
  }

  lemma ReferencedInCluster(db: Db, gone: set<RowId>)
    requires Referenced(db, gone)
    ensures Purge.RefsInCluster(db)
  {
    forall id | id in db ensures RowReferenced(db, gone, db[id]) {}
  }

  /** At every moment of every run from empty tables, whichever clusters are left, two passes delete exactly
      the rows whose cluster is gone. */
  lemma GcIsExact(ms: seq<Moment>, i: nat, clusters: set<ClusterId>, ks: seq<Kind>)
    requires IsRun(ms) && i < |ms| && NAMESPACE in ks && NODE in ks
    requires forall id :: id in ms[i].db ==> ms[i].db[id].kind in ks
    ensures var db := ms[i].db;
            Purge.GcPass(Purge.GcPass(db, clusters, ks), clusters, ks)
            == map id | id in db && db[id].clusterId in clusters :: db[id]
  {
    var db := ms[i].db;
    RunsKeepReferenced(ms, i);
    ReferencedInCluster(db, ms[i].gone);
    Purge.RefsInClusterNoneStuck(db, clusters);
    Purge.GcExactIffNoneStuck(db, clusters, ks);
  }
}
