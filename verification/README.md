# Keeping one state equal to another: a Dafny model of the kubeserver core

The kubeserver keeps database rows equal to the objects of many Kubernetes clusters, keeps federated
objects attached to those clusters, and keeps one live client per cluster. This project models that
code and proves what it is for. `dafny verify dfyconfig.toml` checks everything.

| file | what it models |
|---|---|
| `Compare.dfy`, `Versions.dfy` | the sort-and-merge diff by key; the resourceVersion guard with its 32-bit parse |
| `ClusterTables.dfy`, `ClusterStore.dfy` | rows and lookups as values; the store that the managers write, every call of which may fail |
| `Sync.dfy`, `ManagerTree.dfy`, `Managers.dfy`, `SyncTree.dfy` | the sync of one kind, the walks over a tree of managers, the program's own tree, the sync of a whole cluster |
| `Events.dfy`, `Purge.dfy`, `References.dfy` | informer events; purging a cluster and garbage collection; references between rows over all of these |
| `Federation.dfy`, `FederationApi.dfy`, `FederationLocks.dfy` | the federation requests as a protocol, as methods over the tables, and interleaved under their locks |
| `Reconcile.dfy` | linking a joint row to the resource in its cluster |
| `ClientRegistry.dfy`, `RegistryLocks.dfy` | the live clients: the objects and their sections, and every interleaving step by step |
| `IPPools.dfy`, `Labels.dfy`, `Machines.dfy`, `Charts.dfy` | the calico IP pools of a node, the template comparison, first node and deploy order, the in-place chart filter |
| `Wrappers.dfy`, `Fresh.dfy` | the Option type; an id that is not taken |

How the model is put together:

- Tables are maps from ids to records, queries are sets over them, and a lookup by name answers one
  row, none, or the duplicate error, as the code does.
- A storage or remote call may fail at any moment; `faults` counts the failures, so a claim "when no
  call fails" reads `faults == old(faults)`. `trail` keeps the tables as each write left them, so a
  claim can be about all states on the way.
- What an operation does is stated on the rows and fields themselves beside the relation it is tied to:
  when no call fails, it goes through if and only if the rows are so. For the two lock models that is
  said of a request that runs alone.
- Code that changes state is a class with methods; each method is tied to a relation or function on
  values, and the lemmas are about those. A critical section is one step, and the two `Locks` files
  break requests into the steps between which others may run.

Results worth knowing before reading on, because the code does not simply do what one would hope:

- The guard on versions saturates: at or above 2^31-1 it accepts older versions
  (`Versions.DecreasesIffBothOverBound`, `Versions.GuardLetsVersionGoDown`).
- A namespaced object that cannot be added during a sync is only logged, so an error-free sync need not
  leave a mirror (`SyncTree.MissingReferenceIsSkipped`). For a snapshot with acceptable names and
  versions, and without failing calls, it does if and only if every namespace named is listed, and the
  node of every pod that had no row (`SyncTree.SyncCluster`, `SyncTree.SyncAll`).
- Garbage collection needs two passes, and even then would leave a row of a dead cluster that refers to
  a namespace or node of a live one (`Purge.GcExactIffNoneStuck`, `Purge.StuckRowStays`). The writers
  make no such row (`References.GcIsExact`).
- Volume claims are namespaced but registered at the root of the manager tree. A sync still visits the
  namespaces first, but a purge deletes the namespaces before the claims in them
  (`Purge.SafeIffNoClaims`, `Purge.ClaimLeftWithoutNamespace`).
- One joint row per object and cluster holds under every interleaving, but the references do not: the
  task that attaches a namespaced object inserts after the object was deleted
  (`FederationLocks.TaskOutlivesItsObject`). An attach that runs as an action, under the object's lock
  from the start, leaves such a row only in a cluster that is gone
  (`FederationLocks.ActionsKeepTheirObjects`). `FederationLocks.RefsThroughoutIff` says exactly when the
  references stay good.
- A joint row that holds the id of a resource that is gone does not adopt a row of that name, and the
  name check refuses to create a second one: every reconcile then fails until the row goes
  (`Reconcile.StaleStaysStuck`). In the system cluster, whose rows that check does not count, it creates
  a second one (`Reconcile.SystemClusterCreatesAgain`).
- The comment on the template comparison promises equality apart from the hash. The code deviates
  when the second map alone has the hash and the first has one label more, and for empty label values
  (`Labels.ExactUnlessHashOutweighs`, `Labels.WhereTheCheckErrs`).
- A node's managed CIDRs reach the configured ones exactly when each was managed before or is written
  as the agent prints it (`IPPools.ReachesConfiguredIff`). Otherwise every run deletes and makes pools
  anew (`IPPools.NeverSettles`, `IPPools.BareAddressIsRemade`).
- A cluster whose first node was deleted gets none again until its last machine is gone
  (`Machines.LostFirstNodeStaysLost`), and until then no deploy list is found. Self-built clusters refuse
  to delete the first node while others stay, and then there always is one
  (`Machines.GuardedRunsKeepExactlyOne`); but a machine without an address is deleted without that check
  (machines.go:492-496), and a batch delete can fail half-way.

## Model

| member | source | states |
|---|---|---|
| Compare.CompareSets | pkg/kubeserver/models/compare.go:46-103 | the merge of two lists in any order and with duplicate keys: removed and commonDB are the local list, added and commonExt the remote one, the common lists agree key by key, and their keys are the multiset intersection, the leftovers the two differences |
| Compare.DiffCounts | pkg/kubeserver/models/compare.go:72-101 | a key held m times locally and n times remotely is min(m, n) times common, the rest removed or added |
| Compare.Sort | pkg/kubeserver/models/compare.go:18-30 | the in-place library sort under the key order: a sorted permutation, ties in any order |
| Compare.CompareKeysTransitive | pkg/kubeserver/models/compare.go:28-30 | the key order is transitive, strictly if either step is strict |
| Compare.CompareKeysMeaning | pkg/kubeserver/models/compare.go:75-76 | comparing keys answers zero exactly for equal keys and is antisymmetric |
| Compare.ToElements | pkg/kubeserver/models/compare.go:32-44 | one keyed entry per object, in order |
| Versions.ParseSaturates | pkg/kubeserver/models/clusterresource.go:730-734 | the 32-bit parse with its error dropped is the decimal value capped at 2^31-1 |
| Versions.RejectedIffOlder | pkg/kubeserver/models/clusterresource.go:730-737 | an update is rejected if and only if its version is lower and below the bound, a missing version counting as zero; a row without a version takes any |
| Versions.DecreasesIffBothOverBound | pkg/kubeserver/models/clusterresource.go:730-743 | the stored version can go down if and only if both versions are at or over the bound |
| Versions.GuardLetsVersionGoDown | pkg/kubeserver/models/clusterresource.go:730-743 | a concrete pair of versions on which it does go down |
| Versions.RunKeepsGreatest | pkg/kubeserver/models/clusterresource.go:724-745 | below the bound, after any run of updates in any order the row holds the greatest version seen |
| ClusterTables.Fetch | pkg/kubeserver/models/clusterresource.go:227-264 | the lookup by name: the answer is the only match, no match, or the duplicate error |
| ClusterTables.UpdatedIff | pkg/kubeserver/models/clusterresource.go:724-745 | an update goes through if and only if the version follows, the row's cluster is there and, for a namespaced kind, just one namespace row of it has the namespace's name; and every column of the row it writes, status and namespace id included |
| ClusterTables.ClusterAddableIff | pkg/kubeserver/models/clusterresource.go:579-606 | an object of a kind that is not namespaced can be added to a live cluster if and only if no row of the kind there has its name |
| ClusterTables.NamespacedAddableIff | pkg/kubeserver/models/namespaceresource.go:150-205 | one of a namespaced kind if and only if just one row has its namespace's name, for a scheduled pod just one its node's, and not just one row in that namespace its name; for a release the last does not matter |
| ClusterTables.MirrorsBijection | pkg/kubeserver/models/clusterresource.go:490-577 | what a mirror gives: rows in bijection with remote objects by UID, equal in name, version and status, each namespace id naming the object's namespace in the same cluster |
| ClusterTables.OthersLeaveNameFree | pkg/kubeserver/models/namespaceresource.go:150-165 | when all rows belong to objects of other names, the existence check finds the name free |
| Sync.UpdateFromRemoteObject | pkg/kubeserver/models/cluster_api.go:80-105 | the locked update of a row: the whole new row or no change; refused exactly for an older version, a cluster that is gone or a namespace without a single row |
| Sync.SyncRemovedClusterResource | pkg/kubeserver/models/clusterresource.go:608-642 | the row goes unless its status is a failed one, and then keeping it is no error |
| Sync.FailStatusIff | pkg/kubeserver/models/clusterresource.go:608-642 | the statuses that keep a row are those that end in one of the two suffixes |
| Sync.IsRemoteObjectLocalExist | pkg/kubeserver/models/namespaceresource.go:150-165 | the existence check of both kinds, its errors and what counts as absent |
| Sync.BuildRow | pkg/kubeserver/models/pods.go:404-420 | the row a manager builds for a remote object, its namespace and for a pod its node looked up by name; it fails exactly when one of them is not found |
| Sync.NewFromRemoteObject | pkg/kubeserver/models/clusterresource.go:579-606 | insert and update: the object's row under a new id, nothing, or the half-added row a failing update leaves; it goes through if and only if the object is addable when no call fails |
| Sync.PodNodes | pkg/kubeserver/models/pods.go:404-486 | a pod's node is written when its row is made and kept ever after: a new row names its node exactly when the pod was scheduled by then |
| Sync.RemoveRows | pkg/kubeserver/models/clusterresource.go:543-549 | exactly the removed rows go that are in no failed status, and the counts say how many |
| Sync.UpdateRows | pkg/kubeserver/models/clusterresource.go:551-559 | without errors every kept row becomes what its remote object asks for, and no row comes or goes |
| Sync.AddRows | pkg/kubeserver/models/clusterresource.go:561-575 | without errors and skips every added object has a new row, and only those rows are new; of an addable listing, when no call fails, just the objects whose references are there have one |
| Sync.UnlistedAreRemoved | pkg/kubeserver/models/clusterresource.go:543-549 | after a sync whose removals made no error, of the rows whose object is no longer listed those in a failed status are there and the others are not |
| Sync.AddedNamesFree | pkg/kubeserver/models/clusterresource.go:543-606 | no spurious duplicate refusal: after removals and updates no added object finds its name taken, even one recreated under a new UID |
| Sync.NothingElseRefused | pkg/kubeserver/models/clusterresource.go:551-575 | for an agreeable listing the updates go through whose namespaces are there, and then the adds whose references are there |
| Sync.PartsOutcome | pkg/kubeserver/models/clusterresource.go:551-575 | when no call fails, errors are exactly the updates, and skips exactly the adds, for which a reference is missing |
| Sync.AddedAreNew | pkg/kubeserver/models/clusterresource.go:533-575 | no row has the key of an added object |
| Sync.SettledMirrors | pkg/kubeserver/models/clusterresource.go:490-577 | kept and new rows together mirror the listing |
| Sync.ApplyDiff | pkg/kubeserver/models/clusterresource.go:533-577 | the comparison and the three parts in order, with everything the sync of a kind promises |
| Sync.SyncKind | pkg/kubeserver/models/clusterresource.go:490-577 | the sync of one kind: without error and skips the rows mirror the listing; nothing else changes, rows keep their keys and nodes, references stay in the cluster; for an agreeable listing without failing calls there is an error if and only if a kept object's namespace is missing, and the skipped are exactly the new objects a reference of which is missing |
| Sync.FirstSyncAdds | pkg/kubeserver/models/clusterresource.go:490-577 | what the first sync of a kind in a live cluster does, when no call fails and the listing has decimal or empty versions and no doubles: no error, and a row with its name, version and status for every object whose references are there |
| ManagerTree.RegisteredWalks | pkg/kubeserver/models/k8smodels.go:76-101 | the two walks over a tree of the registered shape, namespaces below nodes and the rest at the root, spelled out |
| ManagerTree.RegisteredIsLed | pkg/kubeserver/models/namespace.go:28-52 | a sync of such a tree visits the namespaces before every namespaced kind, those at the root included, and the nodes before the pods |
| Managers.ManagersInSyncOrder | pkg/kubeserver/models/pvcs.go:33-52 | the program's own tree, in which the namespaced claims stand at the root, is of that order and has no kind twice |
| Managers.NamespacedAtTheRoot | pkg/kubeserver/models/pvcs.go:33-52 | the scopes of the program's kinds: all below the namespaces are namespaced, and at the root the claims alone |
| ManagerTree.SameKinds | pkg/kubeserver/models/syncbase.go:17-34 | the two walks of a tree visit the same kinds equally often |
| SyncTree.SyncManager | pkg/kubeserver/models/clusterresource.go:473-486 | one manager, then its sub managers, an error ending the walk |
| SyncTree.SyncClusterResources | pkg/kubeserver/models/clusterresource.go:464-488 | the recursive walk keeps what every kind promises, also when it is cut short |
| SyncTree.MirrorAppend | pkg/kubeserver/models/clusterresource.go:473-486 | syncing later kinds keeps the mirrors of earlier ones, because the kinds they refer to come first |
| SyncTree.ListedIsFound | pkg/kubeserver/models/namespaceresource.go:150-205 | once namespaces or nodes mirror the snapshot, each listed one is found by name |
| SyncTree.FoundIsListed | pkg/kubeserver/models/namespaceresource.go:150-205 | and each one found by name is listed |
| SyncTree.MirrorIsClosed | pkg/kubeserver/models/clusterresource.go:561-575 | a mirror of every kind shows the snapshot closed: every namespace named is listed, and the node of every pod that had no row |
| SyncTree.PromiseConverges | pkg/kubeserver/models/clusterresource.go:464-488 | with the walk in order, error-free and without skips means a mirror, and both mean a closed snapshot, and the other way round |
| SyncTree.SyncCluster | pkg/kubeserver/models/clusterresource.go:464-488 | whole-tree convergence, for any tree walked in sync order: an error-free sync without skips leaves every kind mirroring the snapshot, other clusters untouched; and for an agreeable snapshot, when no call fails, the sync is error-free without skips, and leaves a mirror, if and only if the snapshot is closed |
| SyncTree.SyncAll | pkg/kubeserver/models/clusters.go:2412-2424 | the same, without any condition on the tree, for the managers the program registers, pods with their nodes among them |
| SyncTree.MissingReferenceIsSkipped | pkg/kubeserver/models/clusterresource.go:561-575 | one new object whose namespace or node is missing: no error, one skip, no mirror |
| SyncTree.ReferencesCanBeMissing | pkg/kubeserver/models/pods.go:404-420 | tables and objects on which that happens, for a namespace and for a node |
| Events.SyncHandsOver | pkg/kubeserver/models/clusters.go:2412-2436 | rows that mirror a listing mirror it by name, so the feed can take over from a sync |
| Events.WrittenMirrors | pkg/kubeserver/models/clusterresource.go:1180-1206 | writing an object's row, over the row of its name or as a new one, follows the remote side, a new UID included |
| Events.ErasedMirrors | pkg/kubeserver/models/clusterresource.go:1208-1235 | deleting the row found by name follows the remote deletion |
| Events.ProcessCreateOrUpdate | pkg/kubeserver/models/clusterresource.go:1180-1206 | an add or update event of any kind, when no call fails, does what the lookup by name calls for |
| Events.WritesRows | pkg/kubeserver/models/clusterresource.go:1180-1206 | that is, on the rows: if just one has the object's name in its scope, that row is updated, and if none has it, a row is added |
| Events.WritesMirrors | pkg/kubeserver/models/clusterresource.go:1180-1206 | and so the mirror is carried over to the new remote side |
| Events.ProcessDelete | pkg/kubeserver/models/clusterresource.go:1208-1235 | a delete event of any kind, when no call fails, does what the lookup by name calls for |
| Events.ErasesRows | pkg/kubeserver/models/clusterresource.go:1208-1235 | that is, on the rows: the one of the object's name in its scope goes unless its status is a failed one, none is no error, and several are an error |
| Events.CacheFactory.Handle | pkg/kubeserver/client/cache.go:295-331 | with the feed off an event does nothing; with it on, one event is followed |
| Events.CacheFactory.Replay | pkg/kubeserver/client/cache.go:295-331 | replaying any sequence of events from a mirror ends in a mirror of the remote side they lead to |
| Purge.PurgedToIsSafe | pkg/kubeserver/models/clusters.go:1159-1174 | at every point of the walk no remaining row refers to a namespace row the purge deleted, if each row in the cluster's namespaces is the cluster's own and of a kind the walk takes before the namespaces |
| Purge.NamespacesPurgedIsUnsafe | pkg/kubeserver/models/clusters.go:1159-1174 | if some row is not, then once the namespaces are purged such a row is left |
| Purge.PurgeAllByCluster | pkg/kubeserver/models/clusterresource.go:809-824 | one table's rows of the cluster go, one by one; each state on the way is safe or, for the namespaces of unsafe tables, one of them is not |
| Purge.PurgeSubClusterResource | pkg/kubeserver/models/clusters.go:1159-1174 | the recursive walk, children first and cut short by the first error |
| Purge.PurgeAllClusterResource | pkg/kubeserver/models/clusters.go:1155-1174 | an error-free purge leaves exactly the rows of other clusters and of kinds outside the tree, and it passes a state with a row whose namespace row it has deleted if and only if the tables are unsafe for the walk; of safe tables no purge does, finished or not |
| Purge.RegisteredIsSafeIff | pkg/kubeserver/models/clusters.go:1155-1174 | with references inside clusters, safe means for a registered tree that no row of a namespaced kind at the root is in a namespace of the cluster |
| Purge.SafeIffNoClaims | pkg/kubeserver/models/pvcs.go:33-52 | for the program's managers: a purge is safe if and only if no volume claim is in a namespace of the cluster |
| Purge.ClaimLeftWithoutNamespace | pkg/kubeserver/models/pvcs.go:33-52 | a claim and its namespace are tables on which the purge goes through such a state |
| Purge.PerformGC | pkg/kubeserver/models/cluster_api.go:107-130 | one manager's collection, children first: exactly one pass over its kinds when no call fails, and never a row of a live cluster |
| Purge.PerformGc | pkg/kubeserver/models/clusters.go:820-830 | the same over all roots, where an error of one root lets the next go on |
| Purge.GcSparesLive | pkg/kubeserver/models/clusterresource.go:160-164 | whatever the visiting order, no pass touches a row of a live cluster |
| Purge.GcTakes | pkg/kubeserver/models/namespaceresource.go:207-214 | a row the query would pick at the start of a pass is gone at its end |
| Purge.GcLeavesStuck | pkg/kubeserver/models/namespaceresource.go:207-214 | a dead cluster's row in a live cluster's namespace, or a pod on its node, survives every pass |
| Purge.TwoPassesSettle | pkg/kubeserver/models/cluster_api.go:107-130 | two passes reach live and stuck rows, and a third changes nothing, in any visiting order |
| Purge.GcExactIffNoneStuck | pkg/kubeserver/models/cluster_api.go:107-130 | two passes delete exactly the dead clusters' rows if and only if none of them refers to a live cluster's namespace or node |
| Purge.StuckRowStays | pkg/kubeserver/models/pods.go:87-92 | tables on which such a row stays |
| References.RunsKeepReferenced | pkg/kubeserver/models/namespaceresource.go:167-205 | over any run of syncs, events, deletions and creates from empty tables, every reference is to a row of the same cluster or to one that was deleted |
| References.GcIsExact | pkg/kubeserver/models/cluster_api.go:107-130 | so at every moment of such a run, whichever clusters are left, two passes delete exactly the rows whose cluster is gone |
| Purge.OnePassIsNotEnough | pkg/kubeserver/models/cluster_api.go:107-130 | tables on which one pass, children first, leaves a row behind |
| Federation.NextKeepsInv | pkg/kubeserver/models/fed_api.go:159-248 | every request keeps the reference invariant and the uniqueness of joint rows together |
| Federation.RunsKeepInv | pkg/kubeserver/models/fed_api.go:112-248 | over every sequence of requests each joint row has a live object, a live cluster and, if namespaced, a live federated namespace, and no object is attached twice |
| Federation.AttachedIff | pkg/kubeserver/models/federated_joint_resource.go:156-166 | the lookup of a joint row finds one if and only if some row has that kind, object and cluster |
| Federation.InUseIff | pkg/kubeserver/models/federated_resource.go:292-305 | the delete checks refuse exactly an object attached to a live cluster and a federated namespace with an attached object in it |
| Federation.DeleteCheckSound | pkg/kubeserver/models/federated_resource.go:292-305 | when the delete checks pass no joint row needs the object, given the rest of the invariant |
| Federation.DeleteCheckNeedsLiveClusters | pkg/kubeserver/models/fed_api.go:112-122 | a state without the cluster half of the invariant in which the same check lets a referenced object go |
| Federation.PurgeCompleteIff | pkg/kubeserver/models/federated_resource.go:117-144 | a pass that deletes one joint row per object found leaves none of the cluster if and only if each had a live object and was its object's only one; all other rows stay |
| Federation.PurgeComplete | pkg/kubeserver/models/clusters.go:1176-1185 | so under the invariant an error-free purge removes exactly the cluster's joint rows |
| FederationApi.FedTables.Create | pkg/kubeserver/models/federated_namespace_resource.go:47-64 | creating is a step of the protocol; when no call fails it goes through if and only if the id is new and a namespaced object's federated namespace is there |
| FederationApi.FedTables.JustAttachCluster | pkg/kubeserver/models/fed_api.go:181-213 | the section under the object's lock: one new joint row if the cluster lives and none is there, else no change |
| FederationApi.FedTables.PerformAttachCluster | pkg/kubeserver/models/fed_api.go:159-179 | attaching is a step of the protocol; when no call fails the joint row is inserted if and only if object, cluster and federated namespace are there and no joint row of the two is; success needs the reconcile as well, which can fail with the row already there |
| FederationApi.FedTables.PerformDetachCluster | pkg/kubeserver/models/fed_api.go:215-248 | detaching is a step of the protocol; when no call fails it succeeds if and only if object and cluster are there and some joint row is of the two, and then exactly one such row is gone |
| FederationApi.FedTables.Delete | pkg/kubeserver/models/federated_namespaces.go:101-117 | deleting is a step of the protocol; when no call fails the object goes if and only if it is there and not in use |
| FederationApi.FedTables.PurgeAllByCluster | pkg/kubeserver/models/federated_resource.go:117-144 | the loop deletes one joint row of each live object attached to the cluster and nothing else |
| FederationApi.FedTables.PurgeAllFedResource | pkg/kubeserver/models/clusters.go:1176-1185 | the same over all federated managers in any order |
| FederationApi.FedTables.RealDelete | pkg/kubeserver/models/clusters.go:1137-1153 | the cluster row goes only after the purge, and then no joint row of it is left |
| FederationLocks.InterleavingsKeepUnique | pkg/kubeserver/models/fed_api.go:159-248 | whatever the interleaving of actions, tasks, deletes and purges, at most one joint row per object and cluster |
| FederationLocks.OthersInsertElsewhere | pkg/kubeserver/models/fed_api.go:181-213 | between a re-check and its insert no other request inserts for the same object |
| FederationLocks.StepKeepsRefsIff | pkg/kubeserver/models/fed_api.go:159-213 | a step keeps the references if and only if it finds its object, namespace and cluster there, or no joint row left |
| FederationLocks.RefsThroughoutIff | pkg/kubeserver/models/fed_api.go:159-248 | the references are good at every moment of an interleaving if and only if every move finds what it needs |
| FederationLocks.AttachAlone | pkg/kubeserver/models/fed_api.go:159-213 | an attach that runs alone under the locks inserts its row if and only if the cluster is there and no joint row of the two is, and leaves no lock behind |
| FederationLocks.DetachAlone | pkg/kubeserver/models/fed_api.go:215-248 | a detach that runs alone takes one joint row of the two away if and only if the cluster is there and there is one |
| FederationLocks.DeleteAlone | pkg/kubeserver/models/federated_resource.go:292-305 | a delete that runs alone takes the object away if and only if it is not in use |
| FederationLocks.TaskAlone | pkg/kubeserver/tasks/fed_resource_task.go:99-185 | the task that runs alone attaches a role or role binding, whose namespace is attached, if and only if cluster and federated namespace are there and no joint row of the two is |
| FederationLocks.TaskAttachesBoth | pkg/kubeserver/tasks/fed_resource_task.go:99-185 | with nothing attached yet the task inserts a joint row of the federated namespace and then one of its object, if cluster and namespace are there, and otherwise none |
| FederationLocks.PurgeAlone | pkg/kubeserver/models/clusters.go:1137-1185 | a purge that runs alone can take every joint row of the cluster, if each has its object, leaves all others, and at its end the cluster is gone |
| FederationLocks.ActionsKeepTheirObjects | pkg/kubeserver/models/federated_resource.go:229-271 | in every interleaving each joint row of a kind attached by dispatched actions alone has its live object, unless its cluster is gone |
| FederationLocks.ActionOutlivesItsCluster | pkg/kubeserver/models/clusters.go:1137-1153 | a full interleaving for that exception: the purge misses a row about to be inserted |
| FederationLocks.TaskOutlivesItsObject | pkg/kubeserver/tasks/fed_resource_task.go:99-185 | a full interleaving from empty tables in which the task that attaches a namespaced object inserts a joint row of an object deleted since it was loaded |
| Reconcile.JointRow.IsResourceExist | pkg/kubeserver/models/fed_api.go:365-422 | found by id when one is held, else by name in the namespace of the federated one; duplicates and a missing namespace are errors |
| Reconcile.JointRow.CreateResource | pkg/kubeserver/models/fed_api.go:447-488 | refused when the name is taken; else a row of the joint's table, cluster, name and namespace under a new id, then linked; either write may fail |
| Reconcile.JointRow.ReconcileResource | pkg/kubeserver/models/fed_api.go:424-512 | success means the joint row holds the id of a row of its own cluster; when the manager accepts and no call fails, it succeeds if and only if the tables let it |
| Reconcile.UnlinkedReconcilesIff | pkg/kubeserver/models/fed_api.go:365-488 | while no id is held, in a live cluster whose namespace is there: a reconcile can succeed if and only if just one row has the name there, or none has it and nothing takes the name |
| Reconcile.LinkedReconcilesIff | pkg/kubeserver/models/fed_api.go:365-488 | with an id held, there: if and only if its row is there or nothing takes the name |
| Reconcile.NeedsClusterAndNamespace | pkg/kubeserver/models/fed_api.go:365-445 | in no other case can it succeed |
| Reconcile.ResourceIdComesFromOwnCluster | pkg/kubeserver/models/federated_joint_resource.go:192-201 | over any run of reconciles and other writes a held id came from a row of the joint's own table and cluster |
| Reconcile.GoneStaysGone | pkg/kubeserver/models/fed_api.go:322-326 | with ids given out once, a row that is gone is never found by its id again |
| Reconcile.NamedIsTaken | vendor/yunion.io/x/onecloud/pkg/cloudcommon/db/namevalidator.go:31-71 | a row of the joint's name in its namespace takes the name, except in the system cluster, whose rows the name check does not count |
| Reconcile.AfterCreate | pkg/kubeserver/models/fed_api.go:447-488 | after a create the row is found if and only if its id was stored or none was held; if not, the next reconcile can create again exactly in the system cluster and fails in any other |
| Reconcile.CreatesAreBounded | pkg/kubeserver/models/fed_api.go:398-512 | over any run there is at most one create more than losses, and not even that when the resource was there; a loss is another write to the row or its namespace or, in the system cluster alone, an id that was not stored beside a stale one |
| Reconcile.CreatedAtMostOnce | pkg/kubeserver/models/fed_api.go:398-512 | outside the system cluster, while no other write loses the row, the resource is created at most once, whichever writes of the reconciles fail, and never when it is there |
| Reconcile.StaleReconcilesIff | pkg/kubeserver/models/fed_api.go:398-488 | with a stale id, in an ordinary live cluster whose namespace is there, a reconcile can succeed if and only if no row of that name is there |
| Reconcile.StaleStaysStuck | pkg/kubeserver/models/fed_api.go:398-488 | outside the system cluster, beside a row of its name a stale id makes every later reconcile fail for as long as that row and its namespace stay |
| Reconcile.RemadeObjectGetsStuck | pkg/kubeserver/models/fed_api.go:398-488 | a run without a failure that gets there: the object is made anew in the cluster and the sync replaces its row |
| Reconcile.SystemClusterCreatesAgain | pkg/kubeserver/models/clusterresource.go:180-206 | in the system cluster, a run that creates two rows of one name though no row went away |
| ClientRegistry.ClustersManager.AddClient | pkg/kubeserver/client/manager.go:96-121 | one section: refused exactly for a cluster that is not running unless its status is ignored, and for one that has a client; else, if building works, a new client under its own id |
| ClientRegistry.ClustersManager.RemoveClient | pkg/kubeserver/client/manager.go:128-139 | one section: the cluster's client leaves the map and is closed once, no other client is touched |
| ClientRegistry.ClustersManager.UpdateClient | pkg/kubeserver/client/manager.go:123-126 | whatever runs between its two sections, the old client ends closed once and the registered one is newer; a cluster that can have a client gets one |
| RegistryLocks.StepKeepsInv | pkg/kubeserver/client/manager.go:78-139 | every step of every thread keeps the locks, the keys and the count of closes right, mid-section states included |
| RegistryLocks.QuietMomentsAreClean | pkg/kubeserver/client/manager.go:78-139 | in every interleaving, when the action lock is free every client ever built is in the map and open or out of it and closed exactly once, and no cluster has two open clients |
| RegistryLocks.SectionsExclude | pkg/kubeserver/client/manager.go:78-94 | sections of the action lock, and lookups and additions under the manager lock, exclude one another |
| RegistryLocks.SomebodyCanGoOn | pkg/kubeserver/client/manager.go:78-139 | the two locks never block all requests |
| RegistryLocks.AddAlone | pkg/kubeserver/client/manager.go:96-121 | an addition that runs alone: a running cluster, or one whose status is ignored, has the client built, registered and open, if it had none; else map and clients are as before |
| RegistryLocks.RemoveAlone | pkg/kubeserver/client/manager.go:128-139 | a removal that runs alone: the cluster's client leaves the map and is closed once |
| RegistryLocks.UpdateAlone | pkg/kubeserver/client/manager.go:123-126 | an update that runs alone goes on to its addition after the removal |
| IPPools.Agent.ListIPPools | pkg/calico-node-agent/serve/serve.go:181-202 | exactly the pools with the node's selector and the agent's value under the managed label, each once |
| IPPools.Agent.DeleteUnconfigured | pkg/calico-node-agent/serve/serve.go:222-241 | the pools with an unconfigured CIDR go, the others are kept and listed |
| IPPools.Agent.CreateIPPool | pkg/calico-node-agent/serve/serve.go:132-170 | the pool made has the printed CIDR, the node's selector and the label, or nothing changes |
| IPPools.Agent.SyncIPPools | pkg/calico-node-agent/serve/serve.go:222-257 | whatever fails, a pool with another node's selector, without the managed label or with another value under it is there unchanged, so are configured pools, and anything else left is a new pool made from the configuration; success gives the grown set, for CIDRs in printed form the configured one, and writes nothing exactly when managed and configured were equal; with well-formed pools and CIDRs only a failing call can make it fail |
| IPPools.ReachesConfiguredIff | pkg/calico-node-agent/serve/serve.go:243-254 | success makes managed equal configured if and only if each CIDR was managed before or is in printed form |
| IPPools.NeverSettles | pkg/calico-node-agent/serve/serve.go:222-257 | a configured CIDR that is not in printed form and not managed never gets managed, however many runs succeed, so no run finds the sets equal |
| IPPools.BareAddressIsRemade | pkg/calico-node-agent/serve/serve.go:222-257 | an address without a mask: each run ends with the pool of its printed form, which is not configured and is deleted by the next |
| IPPools.GrownOfCanonical | pkg/calico-node-agent/serve/serve.go:243-254 | for CIDRs in printed form the result is the union |
| IPPools.RunsConverge | pkg/calico-node-agent/serve/serve.go:222-257 | after a run cut short a run without failing calls succeeds and converges, and the next writes nothing |
| IPPools.OtherNodesKeepTheirs | pkg/calico-node-agent/serve/serve.go:122-124 | the selectors of two nodes differ, so other nodes' managed sets stay |
| IPPools.PoolNamesDiffer | pkg/calico-node-agent/serve/serve.go:115-120 | although dots and slashes both become dashes, printed IPv4 CIDRs keep different pool names |
| Labels.LabelsEqual | pkg/kubeserver/models/helper.go:739-750 | the loop over the larger map accepts all maps that agree without the hash, and only those unless the hash outweighs a label |
| Labels.ExactUnlessHashOutweighs | pkg/kubeserver/models/helper.go:735-750 | when no empty value stands for a missing key, the check is exact if and only if not: equal sizes, the hash in the second map alone, its other labels all in the first |
| Labels.CoveredIff | pkg/kubeserver/models/helper.go:741-750 | the counting argument: a covered larger map equals the smaller one up to the hash |
| Labels.WhereTheCheckErrs | pkg/kubeserver/models/helper.go:735-750 | two pairs of maps wrongly taken for equal, one for each condition |
| Labels.EqualIgnoreHash | pkg/kubeserver/models/helper.go:739-754 | with the other parts of the templates compared as one value |
| Labels.FindNewReplicaSet | pkg/kubeserver/models/helper.go:713-733 | the first replica set whose template equals the deployment's up to the hash, none only if there is none |
| Machines.RunsKeepOneFirstNode | pkg/kubeserver/models/machines.go:340-351 | over any run of creates, deletes and status changes a cluster has at most one first node, a control-plane |
| Machines.LostFirstNodeStaysLost | pkg/kubeserver/models/machines.go:340-351 | without a first node a cluster gets none until it has no machine |
| Machines.GuardedRunsKeepExactlyOne | pkg/kubeserver/drivers/clusters/self_build.go:748-759 | over runs whose deletes respect the guard on the first node, every cluster with machines has exactly one first node, a control-plane |
| Machines.GuardedDeployFindsList | pkg/kubeserver/models/clusters.go:1567-1616 | so in such a run a cluster with machines has one that, running or asked for, makes every deploy find its list |
| Machines.FirstNodeRuleIff | pkg/kubeserver/models/machines.go:318-351 | a control-plane is accepted anywhere, a node beside other machines alone, any other role never; the first machine of a cluster is its first node |
| Machines.GetDeployMachines | pkg/kubeserver/models/clusters.go:1567-1616 | fails exactly when no first node is running or asked for; else first node, control-planes, workers in list order, each of them running or asked for and no such machine left out but further first nodes, complete if and only if only one first node is included |
| Machines.DeployListsAreComplete | pkg/kubeserver/models/clusters.go:1567-1616 | over any run that condition holds, so a deploy list found is a permutation of the included machines led by a control-plane |
| Machines.GroupsPartition | pkg/kubeserver/models/clusters.go:1593-1606 | every machine is in exactly one of the three groups |
| Machines.MachineTable.Create | pkg/kubeserver/models/machines.go:311-368 | when no call fails, exactly one more machine if and only if the first-node rule accepts its role, a first node if and only if the cluster has no machine |
| Machines.MachineTable.CreateMachineRecords | pkg/kubeserver/models/clusters.go:1820-1862 | control-planes are made first, so the first-node rule refuses none; an empty cluster without control-planes in the data is refused before any write |
| Machines.CreatingIsARun | pkg/kubeserver/models/clusters.go:1820-1862 | however far it gets, creating records keeps the first-node invariant of every cluster |
| Machines.DeployOrderIsMakingOrder | pkg/kubeserver/models/clusters.go:1567-1616 | machines made for an empty cluster are deployed in the order they were made |
| Charts.FilterInPlace | pkg/kubeserver/helm/chart.go:129-144 | writing to the prefix of the slice being read gives the filter of the original, overwrites no unread entry and leaves the rest |
| Charts.ApplyConstraint | pkg/kubeserver/helm/chart.go:112-147 | no version keeps all, a bad constraint is an error with all results; else every entry kept has a version that meets the constraint or is no semantic one, and of every such result there is itself or, unless all versions are asked for, just one entry of its name |
| Charts.FirstPerNameIsReduction | pkg/kubeserver/helm/chart.go:130-144 | the reduction keeps, in order, exactly the first entry of each name |

## Left out

- The database, lock manager and task framework: tables, atomic sections and failing calls stand for them; ids are never given out twice.
- Kubernetes, Helm, calico and cloud clients, kubeconfig files, HTTP handlers: listings, parsers and the semantic version library are parameters.
- Kind-specific overrides: a pod's node lookup and GC query and the releases' existence check are modelled. The further columns that nodes, pods and secrets write, and how a kind derives its status, are not; that status is part of the remote object. A release has no version: its objects and rows hold an empty one.
- Lookups by id or name: ids and names are taken to be different strings, so the lookup is by name.
- An empty cluster id in a lookup, which the code refuses, has no counterpart. The namespace and node columns are never NULL, so the GC query takes a row without one.
- Permissions, domain filters, operation logs and sync messages; the name check of a create counts a cluster's rows as rows of the cluster's domain, and names are not empty.
- The validation of a federated request is one step; its single queries are not interleaved, and neither is the task's wait for the namespace to become active.
- Sync runs of the same cluster that overlap, events dropped while the feed is off, and rows in a failed status beyond what the sync of one kind says of them.
- Events.CacheFactory.Replay: events of cluster-scoped kinds only, because a namespace's delete event may come before those of its contents and the code promises no agreement there.
- FederationApi.FedTables.PerformAttachCluster: the outcome of the reconcile after the insert is a parameter, because that reconcile is modelled by itself in Reconcile.
- Reconcile.JointRow.ReconcileResource: does not model the background create and update tasks that follow, nor the federated object going away meanwhile; reconciles of one joint row are sequential.
- RegistryLocks.SectionsExclude: makes no claim about a removal and a lookup, because a removal deletes from the map under the action lock alone.
- Machines.GuardedRunsKeepExactlyOne: a delete of all machines of a cluster is one step; a batch that fails half-way, and the direct delete of a machine without an address, are not guarded.
- Machines.RunsKeepOneFirstNode: sequential requests only, because the count and the insert are not under one lock.
- IPPools.Agent.CreateIPPool: the block size, taken from the mask length, is not part of the pool.
- Cluster and machine drivers, the deploy and health-check tasks, components: a driver's validation accepts or refuses.
- The node usage totals and their floating-point fractions: sums over pods that would only add easy members.
- The union and intersection of API resources over clusters (pkg/kubeserver/api/cluster.go:282-316): the code drops the result it appends, so there is no union or intersection to prove.
