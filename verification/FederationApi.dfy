/**
 The federation requests as they run over the tables. Each storage call may fail; a failing call
 changes nothing and ends the request.
 */
module FederationApi {
  import opened Federation
  import Fresh

  class FedTables {
    var clusters: set<ClusterId>
    var objects: map<FedId, FedObject>
    var joints: map<JointId, Joint>
    ghost var faults: nat

    function Now(): State
      reads this
    {
      State(clusters, objects, joints)
    }

    constructor ()
      ensures Now() == EMPTY && faults == 0
    {
      clusters, objects, joints, faults := {}, map[], map[], 0;
    }

    // ----- storage -----

    /** A storage call answers or fails. */
    method Call() returns (ok: bool)
      modifies this`faults
      ensures if ok then faults == old(faults) else faults > old(faults)
    {
      if * {
        return true;
      }
      faults := faults + 1;
      return false;
    }

    /** GetFederatedJointClusterModel: the first joint row of the object in the cluster. */
    method GetJointModel(kind: FedKind, fed: FedId, cluster: ClusterId) returns (found: bool, j: JointId, ok: bool)
      modifies this`faults
      ensures ok ==> (found <==> JointsOf(Now(), kind, fed, cluster) != {})
      ensures ok && found ==> j in JointsOf(Now(), kind, fed, cluster)
      ensures if ok then faults == old(faults) else faults > old(faults)
    {
      found, j := false, 0;
      ok := Call();
      if !ok { return; }
      var s := JointsOf(Now(), kind, fed, cluster);
      if s != {} {
        j :| j in s;
        found := true;
      }
    }

    method DeleteJoint(j: JointId) returns (ok: bool)
      modifies this`joints, this`faults
      ensures joints == if ok then old(joints) - {j} else old(joints)
      ensures if ok then faults == old(faults) else faults > old(faults)
    {
      ok := Call();
      if ok { joints := joints - {j}; }
    }

    // ----- requests -----

    /** When no call fails, an object is created if and only if its id is new and its federated namespace, if
        it is to have one, is there. */
    method Create(fed: FedId, obj: FedObject) returns (ok: bool)
      modifies this`objects, this`faults
      ensures Next(old(Now()), CreateObject(fed, obj), Now())
      ensures faults >= old(faults)
      ensures ok ==> fed !in old(objects) && NamespaceThere(old(Now()), obj)
      ensures objects == if ok then old(objects)[fed := obj] else old(objects)
      ensures faults == old(faults) ==> (ok <==> fed !in old(objects) && NamespaceThere(old(Now()), obj))
    {
      ok := Call();
      if !ok || !CanCreate(Now(), fed, obj) { return false; }
      ok := Call();
      if !ok { return; }
      objects := objects[fed := obj];
    }

    /** The section under the object's lock: the cluster and the joint table are looked at again,
        the object itself is not. */
    method JustAttachCluster(fed: FedId, kind: FedKind, cluster: ClusterId) returns (ok: bool, ghost j: JointId)
      modifies this`joints, this`faults
      ensures faults >= old(faults)
      ensures ok ==> cluster in clusters && JointsOf(old(Now()), kind, fed, cluster) == {}
                     && j !in old(joints) && joints == old(joints)[j := Joint(kind, fed, cluster)]
      ensures !ok ==> joints == old(joints)
      ensures faults == old(faults) ==> (ok <==> cluster in clusters && JointsOf(old(Now()), kind, fed, cluster) == {})
    {
      ok := Call();
      if !ok || cluster !in clusters { return false, 0; }
      var attached, first;
      attached, first, ok := GetJointModel(kind, fed, cluster);
      if !ok || attached { return false, 0; }
      ghost var unused := Fresh.Unused(joints.Keys);
      assert unused !in joints;
      var id :| id !in joints;
      ok := Call();
      j := id;
      if !ok { return; }
      joints := joints[id := Joint(kind, fed, cluster)];
    }

    /** When no call fails, an attach inserts the one new joint row if and only if the object is there, the
        cluster is, no joint row of the two is, and a namespaced object's federated namespace is. The
        reconcile of the new row comes after the insert, so the request can fail with the row there;
        synced is its outcome. */
    method PerformAttachCluster(fed: FedId, cluster: ClusterId, synced: bool)
      returns (ok: bool, attached: bool, ghost j: JointId)
      modifies this`joints, this`faults
      ensures Next(old(Now()), AttachCluster(fed, cluster), Now())
      ensures faults >= old(faults)
      ensures ok <==> attached && synced
      ensures attached ==> fed in objects && j !in old(joints) && joints == old(joints)[j := Joint(objects[fed].kind, fed, cluster)]
      ensures !attached ==> joints == old(joints)
      ensures faults == old(faults) ==>
        (attached <==>
          && fed in objects && cluster in clusters && !IsAttached(old(Now()), objects[fed].kind, fed, cluster)
          && NamespaceThere(old(Now()), objects[fed]))
    {
      attached := Call();
      ok, j := false, 0;
      if !attached { return; }
      if fed in objects { AttachedIff(Now(), objects[fed].kind, fed, cluster); }
      if !CanAttach(Now(), fed, cluster) { return false, false, 0; }
      ghost var was := Now();
      attached, j := JustAttachCluster(fed, objects[fed].kind, cluster);
      assert attached ==> Now() == Attached(was, fed, objects[fed].kind, cluster, j);
      ok := attached && synced;
    }

    method DetachUnderLock(fed: FedId, kind: FedKind, cluster: ClusterId) returns (ok: bool, ghost j: JointId)
      modifies this`joints, this`faults
      ensures if ok then faults == old(faults) else faults > old(faults)
      ensures ok ==> if JointsOf(old(Now()), kind, fed, cluster) == {} then joints == old(joints)
                     else j in JointsOf(old(Now()), kind, fed, cluster) && joints == old(joints) - {j}
      ensures !ok ==> joints == old(joints)
    {
      var attached, first;
      j := 0;
      attached, first, ok := GetJointModel(kind, fed, cluster);
      if !ok { return; }
      if !attached { return true, 0; }
      attached, first, ok := GetJointModel(kind, fed, cluster);
      if !ok { return; }
      j := first;
      ok := DeleteJoint(first);
    }

    /** When no call fails, a detach succeeds if and only if the object is there, the cluster is, and some
        joint row is of the two; and then exactly one such row is gone. */
    method PerformDetachCluster(fed: FedId, cluster: ClusterId) returns (ok: bool, ghost j: JointId)
      modifies this`joints, this`faults
      ensures Next(old(Now()), DetachCluster(fed, cluster), Now())
      ensures faults >= old(faults)
      ensures ok ==> fed in objects && j in old(joints) && old(joints)[j].kind == objects[fed].kind
                     && old(joints)[j].fed == fed && old(joints)[j].cluster == cluster && joints == old(joints) - {j}
      ensures !ok ==> joints == old(joints)
      ensures faults == old(faults) ==>
        (ok <==> fed in objects && cluster in clusters && IsAttached(old(Now()), objects[fed].kind, fed, cluster))
      ensures ok && Unique(old(Now())) ==> JointsOf(Now(), objects[fed].kind, fed, cluster) == {}
    {
      ok := Call();
      j := 0;
      if !ok { return; }
      if fed in objects { AttachedIff(Now(), objects[fed].kind, fed, cluster); }
      if !CanDetach(Now(), fed, cluster) { return false, 0; }
      ghost var was := Now();
      ok, j := DetachUnderLock(fed, objects[fed].kind, cluster);
      assert ok ==> Now() == Without(was, j);
    }

    /** When no call fails, an object is deleted if and only if it is there and not in use. */
    method Delete(fed: FedId) returns (ok: bool)
      modifies this`objects, this`faults
      ensures Next(old(Now()), DeleteObject(fed), Now())
      ensures faults >= old(faults)
      ensures ok ==> fed in old(objects) && !InUse(old(Now()), fed)
      ensures objects == if ok then old(objects) - {fed} else old(objects)
      ensures faults == old(faults) ==> (ok <==> fed in old(objects) && !InUse(old(Now()), fed))
    {
      ok := Call();
      if !ok { return; }
      if fed in objects { InUseIff(Now(), fed); }
      if !CanDelete(Now(), fed) { return false; }
      ok := Call();
      if !ok { return; }
      objects := objects - {fed};
    }

    // ----- purging a cluster -----

    /** SFedResourceBaseManager.PurgeAllByCluster of one federated manager. */
    method PurgeAllByCluster(kind: FedKind, cluster: ClusterId) returns (ok: bool)
      modifies this`joints, this`faults
      ensures if ok then faults == old(faults) else faults > old(faults)
      ensures Shrinks(old(Now()), Now())
      ensures ok ==> Purged(old(Now()), Now(), [kind], cluster)
    {
      ok := Call();
      if !ok { return; }
      ghost var s := Now();
      var objs := set fed | fed in objects && objects[fed].kind == kind && JointsOf(Now(), kind, fed, cluster) != {};
      ghost var all := objs;
      while objs != {}
        invariant objs <= all && ok && faults == old(faults)
        invariant PurgedBut(s, Now(), kind, cluster, all, objs)
      {
        var fed :| fed in objs;
        var found, j;
        ghost var before := Now();
        found, j, ok := GetJointModel(kind, fed, cluster);
        if !ok { return; }
        if found {
          ok := DeleteJoint(j);
          if !ok { return; }
          OneMoreGone(s, before, j, kind, fed, cluster, all, objs);
          assert Now() == Without(before, j);
        }
        objs := objs - {fed};
      }
    }

    /** PurgeAllFedResource: the managers come out of a map, so in any order. */
    method PurgeAllFedResource(kinds: seq<FedKind>, cluster: ClusterId) returns (ok: bool)
      requires forall i, j :: 0 <= i < j < |kinds| ==> kinds[i] != kinds[j]
      modifies this`joints, this`faults
      ensures if ok then faults == old(faults) else faults > old(faults)
      ensures Shrinks(old(Now()), Now())
      ensures ok ==> Purged(old(Now()), Now(), kinds, cluster)
    {
      ok := true;
      assert kinds[..0] == [];
      for i := 0 to |kinds|
        invariant ok && faults == old(faults) && Shrinks(old(Now()), Now())
        invariant Purged(old(Now()), Now(), kinds[..i], cluster)
      {
        ghost var mid := Now();
        ok := PurgeAllByCluster(kinds[i], cluster);
        if !ok { return; }
        assert kinds[..i + 1] == kinds[..i] + [kinds[i]];
        PurgedThen(old(Now()), mid, Now(), kinds[..i], kinds[i], cluster);
      }
      assert kinds[..|kinds|] == kinds;
    }

    /** The federation side of SCluster.RealDelete: the cluster row goes only after the purge. */
    method RealDelete(kinds: seq<FedKind>, cluster: ClusterId) returns (ok: bool)
      requires forall i, j :: 0 <= i < j < |kinds| ==> kinds[i] != kinds[j]
      requires CoversKinds(kinds)
      modifies this`joints, this`clusters, this`faults
      ensures Next(old(Now()), DropCluster(cluster), Now())
      ensures if ok then faults == old(faults) else faults > old(faults)
      ensures clusters == if ok then old(clusters) - {cluster} else old(clusters)
      ensures ok ==> cluster !in clusters && (Inv(old(Now())) ==> !HasJoints(Now(), cluster))
    {
      ok := PurgeAllFedResource(kinds, cluster);
      if !ok { return; }
      ghost var mid := Now();
      if Inv(old(Now())) { PurgeComplete(old(Now()), mid, kinds, cluster); }
      ok := Call();
      if !ok { return; }
      clusters := clusters - {cluster};
      assert Now() == mid.(clusters := mid.clusters - {cluster});
    }
  }

  /** Of the objects in all, those not in rest have lost one joint row each, and nothing else is gone. */
  ghost predicate PurgedBut(s: State, now: State, kind: FedKind, cluster: ClusterId, all: set<FedId>, rest: set<FedId>) {
    && Shrinks(s, now)
    && (forall fed :: fed in rest ==>
          JointsOf(now, kind, fed, cluster) == JointsOf(s, kind, fed, cluster) != {})
    && (forall j :: j in s.joints && j !in now.joints ==>
          s.joints[j].kind == kind && s.joints[j].cluster == cluster && s.joints[j].fed in all)
    && (forall fed :: fed in all - rest ==> OneGone(s, now, kind, fed, cluster))
  }

  lemma OneMoreGone(
    s: State, before: State, j: JointId, kind: FedKind, fed: FedId, cluster: ClusterId, all: set<FedId>, rest: set<FedId>)
    requires PurgedBut(s, before, kind, cluster, all, rest) && fed in rest && rest <= all
    requires j in JointsOf(before, kind, fed, cluster)
    ensures PurgedBut(s, Without(before, j), kind, cluster, all, rest - {fed})
  {
    var after := Without(before, j);
    assert forall x :: x != fed ==> JointsOf(after, kind, x, cluster) == JointsOf(before, kind, x, cluster);
    assert JointsOf(after, kind, fed, cluster) == JointsOf(s, kind, fed, cluster) - {j};
    assert OneGone(s, after, kind, fed, cluster);
    forall x | x in all - (rest - {fed}) && x != fed ensures OneGone(s, after, kind, x, cluster) {
      assert OneGone(s, before, kind, x, cluster);
    }
  }
}
