/**
 The live clients by cluster id. Adding and removing run under the action lock; an update is a removal
 and an addition with the lock free in between (pkg/kubeserver/client/manager.go:78-139,
 client.go:101-104).
 */
module ClientRegistry {

  type ClusterId = nat

  datatype Status = Running | OtherStatus

  datatype Cluster = Cluster(id: ClusterId, status: Status)

  class Client {
    const cluster: Cluster
    var closes: nat

    constructor (cluster: Cluster)
      ensures this.cluster == cluster && closes == 0
    {
      this.cluster := cluster;
      closes := 0;
    }

    function GetId(): ClusterId { cluster.id }

    method Close()
      modifies this
      ensures closes == old(closes) + 1
    {
      closes := closes + 1;
    }
  }

  datatype AddResult = Added | NotRunning | AlreadyAdded | BuildFailed

  class ClustersManager {
    var clusterManager: map<ClusterId, Client>
    /** Every client ever built. */
    ghost var built: set<Client>

    /** What holds whenever the action lock is free: registered clients are keyed by their own id, and
        every client ever built is either registered and open, or out of the map and closed once. */
    ghost predicate Valid()
      reads this, built
    {
      && (forall id :: id in clusterManager ==> clusterManager[id] in built && clusterManager[id].GetId() == id)
      && (forall c :: c in built ==> c.closes == if Registered(c) then 0 else 1)
    }

    predicate Registered(c: Client)
      reads this
    {
      c.GetId() in clusterManager && clusterManager[c.GetId()] == c
    }

    constructor ()
      ensures Valid() && clusterManager == map[] && built == {}
    {
      clusterManager, built := map[], {};
    }

    /** The API server, the kubeconfig and the informers: works says whether all the steps go through. */
    method BuildManager(dbCluster: Cluster, works: bool) returns (cm: Client?)
      ensures cm != null <==> works
      ensures cm != null ==> fresh(cm) && cm.cluster == dbCluster && cm.closes == 0
    {
      if !works {
        return null;
      }
      cm := new Client(dbCluster);
    }

    /** addClient: one section of the action lock. */
    method AddClient(dbCluster: Cluster, ignoreStatus: bool, works: bool) returns (r: AddResult)
      requires Valid()
      modifies this
      ensures Valid() && old(built) <= built && fresh(built - old(built))
      ensures r == NotRunning <==> !ignoreStatus && dbCluster.status != Running
      ensures r == AlreadyAdded <==> (ignoreStatus || dbCluster.status == Running) && dbCluster.id in old(clusterManager)
      ensures r == Added <==> (ignoreStatus || dbCluster.status == Running) && dbCluster.id !in old(clusterManager) && works
      ensures r == Added ==> dbCluster.id in clusterManager && clusterManager[dbCluster.id].closes == 0
      ensures if r == Added
              then clusterManager == old(clusterManager)[dbCluster.id := clusterManager[dbCluster.id]]
                   && fresh(clusterManager[dbCluster.id]) && built == old(built) + {clusterManager[dbCluster.id]}
              else clusterManager == old(clusterManager) && built == old(built)
    {
      if !ignoreStatus && dbCluster.status != Running { return NotRunning; }
      if dbCluster.id in clusterManager { return AlreadyAdded; }
      var cm := BuildManager(dbCluster, works);
      if cm == null { return BuildFailed; }
      built := built + {cm};
      clusterManager := clusterManager[cm.GetId() := cm];
      return Added;
    }

    /** RemoveClient: one section of the action lock. */
    method RemoveClient(clusterId: ClusterId)
      requires Valid()
      modifies this, built
      ensures Valid() && built == old(built)
      ensures clusterManager == old(clusterManager) - {clusterId}
      ensures forall c :: c in built ==>
        c.closes == old(c.closes) + if old(Registered(c)) && c.GetId() == clusterId then 1 else 0
    {
      if clusterId !in clusterManager { return; }
      var cm := clusterManager[clusterId];
      clusterManager := clusterManager - {clusterId};
      cm.Close();
    }

    /** Any number of sections of other requests. */
    method Others()
      requires Valid()
      modifies this, built
      ensures Valid() && old(built) <= built && fresh(built - old(built))
      ensures forall c :: c in old(built) && !old(Registered(c)) ==> !Registered(c)
    {
      var steps: nat := *;
      while steps > 0
        invariant Valid() && old(built) <= built && fresh(built - old(built))
        invariant forall c :: c in old(built) && !old(Registered(c)) ==> !Registered(c)
      {
        steps := steps - 1;
        var cluster: Cluster, ignoreStatus: bool, works: bool := *, *, *;
        if * {
          var _ := AddClient(cluster, ignoreStatus, works);
        } else {
          RemoveClient(cluster.id);
        }
      }
    }

    /** UpdateClient: whatever runs between its two sections, the registry stays valid, and the update
        either registers a client of its own or finds that another request has. */
    method UpdateClient(dbCluster: Cluster, ignoreStatus: bool, works: bool) returns (r: AddResult)
      requires Valid()
      modifies this, built
      ensures Valid() && old(built) <= built && fresh(built - old(built))
      ensures r == Added || r == AlreadyAdded ==>
        dbCluster.id in clusterManager && clusterManager[dbCluster.id] !in old(built)
      ensures (ignoreStatus || dbCluster.status == Running) && works ==> r == Added || r == AlreadyAdded
      ensures r == NotRunning <==> !ignoreStatus && dbCluster.status != Running
      ensures old(dbCluster.id in clusterManager) ==> old(clusterManager)[dbCluster.id].closes == 1
    {
      RemoveClient(dbCluster.id);
      assert forall c :: c in old(built) && c.GetId() == dbCluster.id ==> !Registered(c);
      Others();
      r := AddClient(dbCluster, ignoreStatus, works);
      assert forall c :: c in old(built) && c.GetId() == dbCluster.id ==> !Registered(c);
    }
  }
}
