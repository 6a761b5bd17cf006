/**
 The same requests interleaved. A dispatched action holds the lock of its federated object from before it
 reads the object again until it returns; a delete holds it over its check and its write. The task that
 attaches a namespaced object loads and validates outside the lock, attaches the object's federated
 namespace first, and takes the lock only for the re-check and the insert. A cluster's purge takes no
 lock (pkg/kubeserver/models/fed_api.go:159-248, federated_resource.go:117-144 and 229-271,
 federated_namespace_resource.go:111-123, pkg/kubeserver/tasks/fed_resource_task.go:99-185,
 clusters.go:1137-1153).
 */
module FederationLocks {
  import opened Wrappers
  import opened Federation

  type ThreadId = nat

  datatype Route = ByAction | ByTask

  /** What a task goes on with once the federated namespace of its object is attached. */
  datatype Pending = Pending(fed: FedId, obj: FedObject)

  datatype Pc =
    | Idle
    | ActionFetched(fed: FedId, cluster: ClusterId, detach: bool)       // for the lock
    | ActionLocked(fed: FedId, cluster: ClusterId, detach: bool)        // object not read again yet
    | TaskLoaded(fed: FedId, obj: FedObject, cluster: ClusterId)        // namespace not seen to yet
    | AttachLoaded(fed: FedId, obj: FedObject, cluster: ClusterId, route: Route, later: Option<Pending>)
    | AttachValidated(fed: FedId, obj: FedObject, cluster: ClusterId, route: Route, later: Option<Pending>)
    | AttachLocked(fed: FedId, obj: FedObject, cluster: ClusterId, route: Route, later: Option<Pending>)
    | AttachChecked(fed: FedId, obj: FedObject, cluster: ClusterId, route: Route, later: Option<Pending>)
    | DetachLoaded(fed: FedId, obj: FedObject, cluster: ClusterId)
    | DetachValidated(fed: FedId, obj: FedObject, cluster: ClusterId)
    | DetachFound(fed: FedId, joint: JointId)
    | DeleteFetched(fed: FedId)                                         // for the lock
    | DeleteLocked(fed: FedId)
    | DeleteChecked(fed: FedId)
    | Purging(cluster: ClusterId)
  {
    /** The object whose lock the request holds; an action's attach takes it a second time. */
    function Held(): Option<FedId> {
      match this
      case ActionLocked(f, _, _) => Some(f)
      case AttachLoaded(f, _, _, route, _) => if route.ByAction? then Some(f) else None
      case AttachValidated(f, _, _, route, _) => if route.ByAction? then Some(f) else None
      case AttachLocked(f, _, _, _, _) => Some(f)
      case AttachChecked(f, _, _, _, _) => Some(f)
      case DetachLoaded(f, _, _) => Some(f)
      case DetachValidated(f, _, _) => Some(f)
      case DetachFound(f, _) => Some(f)
      case DeleteLocked(f) => Some(f)
      case DeleteChecked(f) => Some(f)
      case _ => None
    }
  }

  /** made and seen are the objects and clusters there have ever been; ids are given out once. */
  datatype World = World(
    db: State, made: map<FedId, FedObject>, seen: set<ClusterId>, locks: map<FedId, ThreadId>, pcs: map<ThreadId, Pc>)

  const START := World(EMPTY, map[], {}, map[], map[])

  function At(w: World, t: ThreadId): Pc {
    if t in w.pcs then w.pcs[t] else Idle
  }

  function Goto(w: World, t: ThreadId, pc: Pc): World {
    w.(pcs := w.pcs[t := pc])
  }

  function Lock(w: World, t: ThreadId, fed: FedId): World {
    w.(locks := w.locks[fed := t])
  }

  /** Thread t goes on at pc and gives up the lock it holds, if any. */
  function Leave(w: World, t: ThreadId, pc: Pc): World {
    var held := At(w, t).Held();
    Goto(if held.Some? then w.(locks := w.locks - {held.value}) else w, t, pc)
  }

  datatype Step =
    | Create(fed: FedId, obj: FedObject)
    | AddClusterRow(cluster: ClusterId)
    | StartAction(fed: FedId, cluster: ClusterId, detach: bool)
    | StartTask(fed: FedId, cluster: ClusterId)
    | StartDelete(fed: FedId)
    | StartPurge(cluster: ClusterId)
    | Advance
    | Write(id: JointId)
    | PurgeJoint(joint: JointId)
    | DropClusterRow

  predicate WaitsForLock(pc: Pc) {
    pc.ActionFetched? || pc.DeleteFetched? || (pc.AttachValidated? && pc.route.ByTask?)
  }

  /** Whether thread t can take the step now. Namespaced objects are attached by the task alone. */
  predicate Enabled(w: World, t: ThreadId, step: Step) {
    var pc := At(w, t);
    match step
    case Create(fed, obj) => pc.Idle? && CanCreate(w.db, fed, obj) && fed !in w.made
    case AddClusterRow(cluster) => pc.Idle? && cluster !in w.seen
    case StartAction(fed, cluster, detach) =>
      pc.Idle? && fed in w.db.objects && (w.db.objects[fed].kind.NamespaceScope() ==> detach)
    case StartTask(fed, cluster) => pc.Idle? && fed in w.db.objects && w.db.objects[fed].kind.NamespaceScope()
    case StartDelete(fed) => pc.Idle? && fed in w.db.objects
    case StartPurge(_) => pc.Idle?
    case Advance =>
      !(pc.Idle? || pc.AttachChecked? || pc.DetachFound? || pc.DeleteChecked? || pc.Purging?)
      && (WaitsForLock(pc) ==> pc.fed !in w.locks)
    case Write(id) => (pc.AttachChecked? && id !in w.db.joints) || pc.DetachFound? || pc.DeleteChecked?
    case PurgeJoint(j) => pc.Purging? && j in w.db.joints && w.db.joints[j].cluster == pc.cluster
                          && IsLive(w.db, w.db.joints[j].kind, w.db.joints[j].fed)
    case DropClusterRow => pc.Purging?
  }

  /** ValidateAttachCluster on a loaded object: the object itself is not looked up. */
  predicate Validates(s: State, fed: FedId, obj: FedObject, cluster: ClusterId) {
    && cluster in s.clusters && JointsOf(s, obj.kind, fed, cluster) == {}
    && (obj.kind.NamespaceScope() ==> IsLive(s, FedNamespaces, obj.namespace))
  }

  function FirstJoint(s: State, kind: FedKind, fed: FedId, cluster: ClusterId): Option<JointId> {
    if j :| j in JointsOf(s, kind, fed, cluster) && forall i :: i in JointsOf(s, kind, fed, cluster) ==> j <= i
    then Some(j) else None
  }

  /** Where a request goes on from a step that writes no table; Idle is its end or its failure. */
  function NextPc(s: State, pc: Pc): Pc {
    match pc
    case ActionFetched(fed, cluster, detach) => ActionLocked(fed, cluster, detach)
    case ActionLocked(fed, cluster, detach) =>
      if fed !in s.objects then Idle
      else if detach then DetachLoaded(fed, s.objects[fed], cluster)
      else AttachLoaded(fed, s.objects[fed], cluster, ByAction, None)
    case TaskLoaded(fed, obj, cluster) =>
      if !IsLive(s, FedNamespaces, obj.namespace) then Idle
      else if JointsOf(s, FedNamespaces, obj.namespace, cluster) != {} then AttachLoaded(fed, obj, cluster, ByTask, None)
      else AttachLoaded(obj.namespace, s.objects[obj.namespace], cluster, ByTask, Some(Pending(fed, obj)))
    case AttachLoaded(fed, obj, cluster, route, later) =>
      if Validates(s, fed, obj, cluster) then AttachValidated(fed, obj, cluster, route, later) else Idle
    case AttachValidated(fed, obj, cluster, route, later) => AttachLocked(fed, obj, cluster, route, later)
    case AttachLocked(fed, obj, cluster, route, later) =>
      if cluster in s.clusters && JointsOf(s, obj.kind, fed, cluster) == {}
      then AttachChecked(fed, obj, cluster, route, later) else Idle
    case DetachLoaded(fed, obj, cluster) =>
      if cluster in s.clusters && JointsOf(s, obj.kind, fed, cluster) != {} then DetachValidated(fed, obj, cluster) else Idle
    case DetachValidated(fed, obj, cluster) =>
      var j := FirstJoint(s, obj.kind, fed, cluster);
      if j.Some? then DetachFound(fed, j.value) else Idle
    case DeleteFetched(fed) => DeleteLocked(fed)
    case DeleteLocked(fed) => if CanDelete(s, fed) then DeleteChecked(fed) else Idle
    case _ => Idle
  }

  function Written(s: State, pc: Pc, id: JointId): State {
    match pc
    case AttachChecked(fed, obj, cluster, _, _) => Attached(s, fed, obj.kind, cluster, id)
    case DetachFound(_, joint) => Without(s, joint)
    case DeleteChecked(fed) => s.(objects := s.objects - {fed})
    case _ => s
  }

  function AfterWrite(pc: Pc): Pc {
    if pc.AttachChecked? && pc.later.Some? then AttachLoaded(pc.later.value.fed, pc.later.value.obj, pc.cluster, ByTask, None)
    else Idle
  }

  function After(w: World, t: ThreadId, step: Step): World
    requires Enabled(w, t, step)
  {
    var pc := At(w, t);
    match step
    case Create(fed, obj) => w.(db := w.db.(objects := w.db.objects[fed := obj]), made := w.made[fed := obj])
    case AddClusterRow(cluster) => w.(db := w.db.(clusters := w.db.clusters + {cluster}), seen := w.seen + {cluster})
    case StartAction(fed, cluster, detach) => Goto(w, t, ActionFetched(fed, cluster, detach))
    case StartTask(fed, cluster) => Goto(w, t, TaskLoaded(fed, w.db.objects[fed], cluster))
    case StartDelete(fed) => Goto(w, t, DeleteFetched(fed))
    case StartPurge(cluster) => Goto(w, t, Purging(cluster))
    case Advance =>
      var next := NextPc(w.db, pc);
      if WaitsForLock(pc) then Lock(Goto(w, t, next), t, pc.fed)
      else if next.Idle? then Leave(w, t, Idle)
      else Goto(w, t, next)
    case Write(id) => Leave(w.(db := Written(w.db, pc, id)), t, AfterWrite(pc))
    case PurgeJoint(j) => w.(db := Without(w.db, j))
    case DropClusterRow => Goto(w.(db := w.db.(clusters := w.db.clusters - {pc.cluster})), t, Idle)
  }

  // ----- uniqueness under any interleaving -----

  /** A lock has one holder, and a request inside a section is that holder. */
  ghost predicate LocksHeld(w: World) {
    && (forall t: ThreadId :: At(w, t).Held().Some? ==> HoldsIt(w, t))
    && (forall f :: f in w.locks ==> At(w, w.locks[f]).Held() == Some(f))
  }

  predicate HoldsIt(w: World, t: ThreadId)
    requires At(w, t).Held().Some?
  {
    var f := At(w, t).Held().value;
    f in w.locks && w.locks[f] == t
  }

  /** Between the re-check and the insert no joint row of the pair can appear. */
  ghost predicate ChecksHold(w: World) {
    forall t: ThreadId :: At(w, t).AttachChecked? ==>
      JointsOf(w.db, At(w, t).obj.kind, At(w, t).fed, At(w, t).cluster) == {}
  }

  ghost predicate WorldInv(w: World) {
    LocksHeld(w) && ChecksHold(w) && Unique(w.db)
  }

  lemma OthersStay(w: World, t: ThreadId, step: Step, u: ThreadId)
    requires Enabled(w, t, step) && u != t
    ensures At(After(w, t, step), u) == At(w, u)
  {
  }

  /** What a step does to the locks: take a free one, give up the one held, or nothing. */
  lemma LockMoves(w: World, t: ThreadId, step: Step)
    requires Enabled(w, t, step)
    ensures var w', held, held' := After(w, t, step), At(w, t).Held(), At(After(w, t, step), t).Held();
            || (w'.locks == w.locks && held' == held)
            || (held.None? && held'.Some? && held'.value !in w.locks && w'.locks == w.locks[held'.value := t])
            || (held.Some? && held'.None? && w'.locks == w.locks - {held.value})
  {
  }

  lemma StepKeepsLocks(w: World, t: ThreadId, step: Step)
    requires LocksHeld(w) && Enabled(w, t, step)
    ensures LocksHeld(After(w, t, step))
  {
    var w' := After(w, t, step);
    LockMoves(w, t, step);
    forall u: ThreadId | At(w', u).Held().Some? ensures HoldsIt(w', u) {
      if u != t {
        OthersStay(w, t, step, u);
        assert HoldsIt(w, u);
        assert At(w, t).Held().Some? ==> HoldsIt(w, t);
      } else {
        assert At(w, t).Held().Some? ==> HoldsIt(w, t);
      }
    }
    forall f | f in w'.locks ensures At(w', w'.locks[f]).Held() == Some(f) {
      assert f in w.locks ==> At(w, w.locks[f]).Held() == Some(f);
      if w'.locks[f] != t {
        OthersStay(w, t, step, w'.locks[f]);
      } else {
        assert At(w, t).Held().Some? ==> HoldsIt(w, t);
      }
    }
  }

  /** Two requests never hold the lock of one object. */
  lemma OneHolder(w: World, t: ThreadId, u: ThreadId)
    requires LocksHeld(w) && t != u && At(w, t).Held().Some?
    ensures At(w, u).Held() != At(w, t).Held()
  {
    assert HoldsIt(w, t);
    assert At(w, u).Held().Some? ==> HoldsIt(w, u);
  }

  /** While one request is past its check, no other inserts a row of the same object. */
  lemma OthersInsertElsewhere(w: World, t: ThreadId, step: Step, u: ThreadId)
    requires WorldInv(w) && Enabled(w, t, step) && u != t && At(w, u).AttachChecked?
    ensures var pc := At(w, u); JointsOf(After(w, t, step).db, pc.obj.kind, pc.fed, pc.cluster) == {}
  {
    var pc, db' := At(w, u), After(w, t, step).db;
    OneHolder(w, u, t);
    forall j | j in db'.joints ensures db'.joints[j] != Joint(pc.obj.kind, pc.fed, pc.cluster) {
      if j in w.db.joints {
        assert j !in JointsOf(w.db, pc.obj.kind, pc.fed, pc.cluster);
        assert db'.joints[j] == w.db.joints[j];
      } else {
        assert step.Write? && At(w, t).AttachChecked? && db'.joints[j].fed == At(w, t).fed;
      }
    }
  }

  lemma StepKeepsChecks(w: World, t: ThreadId, step: Step)
    requires WorldInv(w) && Enabled(w, t, step)
    ensures ChecksHold(After(w, t, step)) && Unique(After(w, t, step).db)
  {
    var w' := After(w, t, step);
    forall u: ThreadId | At(w', u).AttachChecked?
      ensures JointsOf(w'.db, At(w', u).obj.kind, At(w', u).fed, At(w', u).cluster) == {}
    {
      if u == t {
        assert step.Advance? && w'.db == w.db;
      } else {
        OthersStay(w, t, step, u);
        OthersInsertElsewhere(w, t, step, u);
      }
    }
    if step.Write? && At(w, t).AttachChecked? {
      var pc := At(w, t);
      forall j | j in w.db.joints ensures w.db.joints[j] != Joint(pc.obj.kind, pc.fed, pc.cluster) {
        assert j !in JointsOf(w.db, pc.obj.kind, pc.fed, pc.cluster);
      }
    }
  }

  // ----- runs -----

  datatype Move = Move(thread: ThreadId, step: Step)

  /** Moves that lead from world to world. */
  ghost predicate Leads(worlds: seq<World>, moves: seq<Move>) {
    && |worlds| == |moves| + 1
    && forall i :: 0 <= i < |moves| ==>
         && Enabled(worlds[i], moves[i].thread, moves[i].step)
         && worlds[i + 1] == After(worlds[i], moves[i].thread, moves[i].step)
  }

  ghost predicate IsInterleaving(worlds: seq<World>, moves: seq<Move>) {
    Leads(worlds, moves) && worlds[0] == START
  }

  /** Joint uniqueness: whatever interleaving of attaches, detaches, deletes and purges, there is
      never more than one joint row of a federated object in a cluster. */
  lemma {:induction false} InterleavingsKeepUnique(worlds: seq<World>, moves: seq<Move>, i: nat)
    requires IsInterleaving(worlds, moves) && i < |worlds|
    ensures WorldInv(worlds[i])
  {
    if i > 0 {
      InterleavingsKeepUnique(worlds, moves, i - 1);
      StepKeepsLocks(worlds[i - 1], moves[i - 1].thread, moves[i - 1].step);
      StepKeepsChecks(worlds[i - 1], moves[i - 1].thread, moves[i - 1].step);
    }
  }

  // ----- objects attached by actions alone -----

  predicate OnlyByAction(kind: FedKind) {
    kind.FedClusterRoles? || kind.FedClusterRoleBindings?
  }

  predicate Attaching(pc: Pc) {
    pc.AttachLoaded? || pc.AttachValidated? || pc.AttachLocked? || pc.AttachChecked?
  }

  predicate IsMade(w: World, fed: FedId, obj: FedObject) {
    fed in w.made && w.made[fed] == obj
  }

  /** A request carries objects that were made, and a task attaches no object of these kinds. */
  predicate PcRecorded(w: World, pc: Pc) {
    && (pc.TaskLoaded? ==> IsMade(w, pc.fed, pc.obj) && pc.obj.kind.NamespaceScope())
    && (Attaching(pc) ==>
          && IsMade(w, pc.fed, pc.obj) && (pc.route.ByTask? ==> !OnlyByAction(pc.obj.kind))
          && (pc.later.Some? ==> IsMade(w, pc.later.value.fed, pc.later.value.obj) && !OnlyByAction(pc.later.value.obj.kind)))
    && (pc.AttachChecked? ==> pc.cluster in w.seen)
    && (pc.DeleteChecked? ==> pc.fed in w.made)
  }

  ghost predicate Recorded(w: World) {
    && (forall f :: f in w.db.objects ==> IsMade(w, f, w.db.objects[f]))
    && w.db.clusters <= w.seen
    && (forall j :: j in w.db.joints ==>
          var x := w.db.joints[j]; x.fed in w.made && x.kind == w.made[x.fed].kind && x.cluster in w.seen)
    && (forall t: ThreadId :: PcRecorded(w, At(w, t)))
  }

  /** An action's object cannot go while the action holds its lock, and past the check of a delete no live
      cluster has a joint row of its object. */
  predicate PcGuards(w: World, pc: Pc) {
    && (Attaching(pc) && pc.route.ByAction? ==> pc.fed in w.db.objects)
    && (pc.DeleteChecked? ==>
          forall j :: j in w.db.joints && w.db.joints[j].fed == pc.fed ==> w.db.joints[j].cluster !in w.db.clusters)
  }

  ghost predicate Guarded(w: World) {
    forall t: ThreadId :: PcGuards(w, At(w, t))
  }

  /** A joint row of such a kind has its object, or else its cluster is gone. */
  ghost predicate MastersKept(w: World) {
    forall j :: j in w.db.joints && OnlyByAction(w.db.joints[j].kind) ==>
                  w.db.joints[j].fed in w.db.objects || w.db.joints[j].cluster !in w.db.clusters
  }

  lemma StepKeepsPcRecords(w: World, t: ThreadId, step: Step)
    requires Recorded(w) && Enabled(w, t, step)
    ensures PcRecorded(After(w, t, step), At(After(w, t, step), t))
  {
    assert PcRecorded(w, At(w, t));
  }

  lemma StepKeepsRecords(w: World, t: ThreadId, step: Step)
    requires Recorded(w) && Enabled(w, t, step)
    ensures Recorded(After(w, t, step))
  {
    var w' := After(w, t, step);
    assert PcRecorded(w, At(w, t));
    forall u: ThreadId ensures PcRecorded(w', At(w', u)) {
      if u != t {
        assert PcRecorded(w, At(w, u));
        OthersStay(w, t, step, u);
      } else {
        StepKeepsPcRecords(w, t, step);
      }
    }
  }

  lemma StepKeepsGuards(w: World, t: ThreadId, step: Step)
    requires LocksHeld(w) && Recorded(w) && Guarded(w) && Enabled(w, t, step)
    ensures Guarded(After(w, t, step))
  {
    var w' := After(w, t, step);
    assert PcGuards(w, At(w, t)) && PcRecorded(w, At(w, t));
    forall u: ThreadId ensures PcGuards(w', At(w', u)) {
      assert PcGuards(w, At(w, u));
      if u != t {
        OthersStay(w, t, step, u);
        if At(w, u).Held().Some? { OneHolder(w, u, t); }
      } else if At(w', t).DeleteChecked? {
        CheckedIsClear(w, t, step);
      }
    }
  }

  lemma ItsClusterIsAttached(s: State, j: JointId)
    requires j in s.joints
    ensures var x := s.joints[j]; x.cluster in s.clusters ==> x.cluster in AttachedClusters(s, x.kind, x.fed)
  {
  }

  lemma CheckedIsClear(w: World, t: ThreadId, step: Step)
    requires Recorded(w) && Enabled(w, t, step) && At(After(w, t, step), t).DeleteChecked?
    ensures PcGuards(After(w, t, step), At(After(w, t, step), t))
  {
    var fed := At(After(w, t, step), t).fed;
    if At(w, t).DeleteLocked? {
      forall j | j in w.db.joints && w.db.joints[j].fed == fed ensures w.db.joints[j].cluster !in w.db.clusters {
        assert w.db.joints[j].kind == w.db.objects[fed].kind;
        ItsClusterIsAttached(w.db, j);
      }
    }
  }

  lemma StepKeepsMasters(w: World, t: ThreadId, step: Step)
    requires Recorded(w) && Guarded(w) && MastersKept(w) && Enabled(w, t, step)
    ensures MastersKept(After(w, t, step))
  {
    assert PcGuards(w, At(w, t)) && PcRecorded(w, At(w, t));
  }

  lemma {:induction false} InterleavingsKeepMasters(worlds: seq<World>, moves: seq<Move>, i: nat)
    requires IsInterleaving(worlds, moves) && i < |worlds|
    ensures Recorded(worlds[i]) && Guarded(worlds[i]) && MastersKept(worlds[i])
  {
    if i > 0 {
      var w, t, step := worlds[i - 1], moves[i - 1].thread, moves[i - 1].step;
      InterleavingsKeepMasters(worlds, moves, i - 1);
      InterleavingsKeepUnique(worlds, moves, i - 1);
      StepKeepsRecords(w, t, step);
      StepKeepsGuards(w, t, step);
      StepKeepsMasters(w, t, step);
    }
  }

  /** An attach that runs as an action leaves no joint row of a deleted object: in every interleaving, each
      joint row of a kind attached by actions alone has its live object, unless its cluster is gone. */
  lemma ActionsKeepTheirObjects(worlds: seq<World>, moves: seq<Move>, i: nat)
    requires IsInterleaving(worlds, moves) && i < |worlds|
    ensures var s := worlds[i].db;
            forall j :: j in s.joints && OnlyByAction(s.joints[j].kind) && s.joints[j].cluster in s.clusters ==>
                          IsLive(s, s.joints[j].kind, s.joints[j].fed)
  {
    InterleavingsKeepMasters(worlds, moves, i);
  }

  // ----- references under interleaving: exactly when they break -----

  predicate Needs(s: State, j: Joint, fed: FedId) {
    j.fed == fed || (j.kind.NamespaceScope() && j.fed in s.objects && s.objects[j.fed].namespace == fed)
  }

  /** What a step has to find for the references to stay good. */
  ghost predicate FindsReferences(w: World, t: ThreadId, step: Step) {
    var pc := At(w, t);
    if step.Write? && pc.AttachChecked? then
      HasMaster(w.db, Joint(pc.obj.kind, pc.fed, pc.cluster)) && pc.cluster in w.db.clusters
    else if step.Write? && pc.DeleteChecked? then
      forall j :: j in w.db.joints ==> !Needs(w.db, w.db.joints[j], pc.fed)
    else if step.DropClusterRow? && pc.Purging? then
      !HasJoints(w.db, pc.cluster)
    else true
  }

  /** A step from good references keeps them good if and only if it finds what it needs: an attach
      its object, namespace and cluster still there when it inserts, a delete no joint row left when
      it writes, a cluster's removal no joint row left after its purge. */
  lemma StepKeepsRefsIff(w: World, t: ThreadId, step: Step)
    requires Refs(w.db) && Enabled(w, t, step)
    ensures Refs(After(w, t, step).db) <==> FindsReferences(w, t, step)
  {
    var s, s', pc := w.db, After(w, t, step).db, At(w, t);
    if step.Write? && pc.AttachChecked? {
      assert step.id in s'.joints && s'.joints[step.id] == Joint(pc.obj.kind, pc.fed, pc.cluster);
      forall j | j in s.joints ensures HasMaster(s', s'.joints[j]) <==> HasMaster(s, s.joints[j]) {}
    } else {
      forall j | j in s'.joints ensures j in s.joints && s.joints[j] == s'.joints[j] && HasMaster(s, s.joints[j]) {}
    }
  }

  ghost predicate AllRefs(worlds: seq<World>) {
    forall i :: 0 <= i < |worlds| ==> Refs(worlds[i].db)
  }

  ghost predicate AllFind(worlds: seq<World>, moves: seq<Move>)
    requires |worlds| == |moves| + 1
  {
    forall i :: 0 <= i < |moves| ==> FindsReferences(worlds[i], moves[i].thread, moves[i].step)
  }

  /** The references are good at every moment of an interleaving if and only if every move finds what it
      needs. */
  lemma RefsThroughoutIff(worlds: seq<World>, moves: seq<Move>)
    requires IsInterleaving(worlds, moves)
    ensures AllRefs(worlds) <==> AllFind(worlds, moves)
  {
    if AllRefs(worlds) {
      forall i | 0 <= i < |moves| ensures FindsReferences(worlds[i], moves[i].thread, moves[i].step) {
        assert Refs(worlds[i].db) && Refs(worlds[i + 1].db);
        StepKeepsRefsIff(worlds[i], moves[i].thread, moves[i].step);
      }
    }
    if AllFind(worlds, moves) {
      forall i | 0 <= i < |worlds| ensures Refs(worlds[i].db) {
        FindingKeepsRefs(worlds, moves, i);
      }
    }
  }

  lemma {:induction false} FindingKeepsRefs(worlds: seq<World>, moves: seq<Move>, i: nat)
    requires IsInterleaving(worlds, moves) && AllFind(worlds, moves) && i < |worlds|
    ensures Refs(worlds[i].db)
  {
    if i > 0 {
      FindingKeepsRefs(worlds, moves, i - 1);
      StepKeepsRefsIff(worlds[i - 1], moves[i - 1].thread, moves[i - 1].step);
    }
  }

  // ----- two runs in which they break -----

  lemma Then(worlds: seq<World>, moves: seq<Move>, t: ThreadId, step: Step) returns (worlds': seq<World>, moves': seq<Move>)
    requires Leads(worlds, moves) && Enabled(worlds[|worlds| - 1], t, step)
    ensures Leads(worlds', moves') && worlds'[0] == worlds[0]
    ensures worlds'[|worlds'| - 1] == After(worlds[|worlds| - 1], t, step)
  {
    worlds', moves' := worlds + [After(worlds[|worlds| - 1], t, step)], moves + [Move(t, step)];
    forall i | 0 <= i < |moves'|
      ensures Enabled(worlds'[i], moves'[i].thread, moves'[i].step)
              && worlds'[i + 1] == After(worlds'[i], moves'[i].thread, moves'[i].step)
    {
      assert i < |moves| ==> moves'[i] == moves[i] && worlds'[i] == worlds[i];
    }
  }

  const SPACE := FedObject(FedNamespaces, 0)
  const ROLE := FedObject(FedRoles, 1)
  const CLUSTER_ROLE := FedObject(FedClusterRoles, 0)

  /** The task loads the role and begins with its namespace. */
  lemma TaskStarted() returns (worlds: seq<World>, moves: seq<Move>)
    ensures IsInterleaving(worlds, moves)
    ensures var w := worlds[|worlds| - 1];
            w.db == State({3}, map[1 := SPACE, 2 := ROLE], map[]) && w.locks == map[]
            && w.pcs == map[0 := AttachLoaded(1, SPACE, 3, ByTask, Some(Pending(2, ROLE)))]
  {
    worlds, moves := Then([START], [], 0, Create(1, SPACE));
    worlds, moves := Then(worlds, moves, 0, Create(2, ROLE));
    worlds, moves := Then(worlds, moves, 0, AddClusterRow(3));
    worlds, moves := Then(worlds, moves, 0, StartTask(2, 3));
    assert JointsOf(worlds[|worlds| - 1].db, FedNamespaces, 1, 3) == {};
    worlds, moves := Then(worlds, moves, 0, Advance);
  }

  /** The namespace is attached. */
  lemma NamespaceAttached(before: seq<World>, begun: seq<Move>) returns (worlds: seq<World>, moves: seq<Move>)
    requires IsInterleaving(before, begun)
    requires var w := before[|before| - 1];
             w.db == State({3}, map[1 := SPACE, 2 := ROLE], map[]) && w.locks == map[]
             && w.pcs == map[0 := AttachLoaded(1, SPACE, 3, ByTask, Some(Pending(2, ROLE)))]
    ensures IsInterleaving(worlds, moves)
    ensures var w := worlds[|worlds| - 1];
            w.db == State({3}, map[1 := SPACE, 2 := ROLE], map[10 := Joint(FedNamespaces, 1, 3)]) && w.locks == map[]
            && w.pcs == map[0 := AttachLoaded(2, ROLE, 3, ByTask, None)]
  {
    assert JointsOf(before[|before| - 1].db, FedNamespaces, 1, 3) == {};
    worlds, moves := Then(before, begun, 0, Advance);
    worlds, moves := Then(worlds, moves, 0, Advance);
    worlds, moves := Then(worlds, moves, 0, Advance);
    worlds, moves := Then(worlds, moves, 0, Write(10));
  }

  /** The role is validated, and its delete begins before the task takes the lock. */
  lemma RoleValidated(before: seq<World>, begun: seq<Move>) returns (worlds: seq<World>, moves: seq<Move>)
    requires IsInterleaving(before, begun)
    requires var w := before[|before| - 1];
             w.db == State({3}, map[1 := SPACE, 2 := ROLE], map[10 := Joint(FedNamespaces, 1, 3)]) && w.locks == map[]
             && w.pcs == map[0 := AttachLoaded(2, ROLE, 3, ByTask, None)]
    ensures IsInterleaving(worlds, moves)
    ensures var w := worlds[|worlds| - 1];
            w.db == before[|before| - 1].db && w.locks == map[2 := 4]
            && At(w, 0) == AttachValidated(2, ROLE, 3, ByTask, None) && At(w, 4) == DeleteLocked(2)
  {
    assert JointsOf(before[|before| - 1].db, FedRoles, 2, 3) == {};
    worlds, moves := Then(before, begun, 0, Advance);
    worlds, moves := Then(worlds, moves, 4, StartDelete(2));
    worlds, moves := Then(worlds, moves, 4, Advance);
  }

  lemma RoleDeleted(before: seq<World>, begun: seq<Move>) returns (worlds: seq<World>, moves: seq<Move>)
    requires IsInterleaving(before, begun)
    requires var w := before[|before| - 1];
             w.db == State({3}, map[1 := SPACE, 2 := ROLE], map[10 := Joint(FedNamespaces, 1, 3)])
             && w.locks == map[2 := 4] && At(w, 0) == AttachValidated(2, ROLE, 3, ByTask, None) && At(w, 4) == DeleteLocked(2)
    ensures IsInterleaving(worlds, moves)
    ensures var w := worlds[|worlds| - 1];
            w.db == State({3}, map[1 := SPACE], map[10 := Joint(FedNamespaces, 1, 3)]) && w.locks == map[]
            && At(w, 0) == AttachValidated(2, ROLE, 3, ByTask, None)
  {
    assert AttachedClusters(before[|before| - 1].db, FedRoles, 2) == {};
    worlds, moves := Then(before, begun, 4, Advance);
    worlds, moves := Then(worlds, moves, 4, Write(0));
  }

  /** A run from empty tables that ends with a joint row of a deleted object: the task's insert comes last. */
  lemma TaskOutlivesItsObject() returns (worlds: seq<World>, moves: seq<Move>)
    ensures IsInterleaving(worlds, moves)
    ensures var s := worlds[|worlds| - 1].db;
            11 in s.joints && s.joints[11] == Joint(FedRoles, 2, 3) && 3 in s.clusters && !HasMaster(s, s.joints[11])
  {
    worlds, moves := TaskStarted();
    worlds, moves := NamespaceAttached(worlds, moves);
    worlds, moves := RoleValidated(worlds, moves);
    worlds, moves := RoleDeleted(worlds, moves);
    worlds, moves := Then(worlds, moves, 0, Advance);
    assert JointsOf(worlds[|worlds| - 1].db, FedRoles, 2, 3) == {};
    worlds, moves := Then(worlds, moves, 0, Advance);
    worlds, moves := Then(worlds, moves, 0, Write(11));
  }

  lemma ActionLoaded() returns (worlds: seq<World>, moves: seq<Move>)
    ensures IsInterleaving(worlds, moves)
    ensures var w := worlds[|worlds| - 1];
            w.db == State({2}, map[1 := CLUSTER_ROLE], map[]) && w.locks == map[1 := 0]
            && w.pcs == map[0 := AttachLoaded(1, CLUSTER_ROLE, 2, ByAction, None)]
  {
    worlds, moves := Then([START], [], 0, Create(1, CLUSTER_ROLE));
    worlds, moves := Then(worlds, moves, 0, AddClusterRow(2));
    worlds, moves := Then(worlds, moves, 0, StartAction(1, 2, false));
    worlds, moves := Then(worlds, moves, 0, Advance);
    worlds, moves := Then(worlds, moves, 0, Advance);
  }

  lemma ActionChecked() returns (worlds: seq<World>, moves: seq<Move>)
    ensures IsInterleaving(worlds, moves)
    ensures var w := worlds[|worlds| - 1];
            w.db == State({2}, map[1 := CLUSTER_ROLE], map[]) && w.locks == map[1 := 0]
            && w.pcs == map[0 := AttachChecked(1, CLUSTER_ROLE, 2, ByAction, None)]
  {
    worlds, moves := ActionLoaded();
    assert JointsOf(worlds[|worlds| - 1].db, FedClusterRoles, 1, 2) == {};
    worlds, moves := Then(worlds, moves, 0, Advance);
    worlds, moves := Then(worlds, moves, 0, Advance);
    worlds, moves := Then(worlds, moves, 0, Advance);
  }

  /** The purge misses the joint row about to be inserted. */
  lemma ClusterDropped() returns (worlds: seq<World>, moves: seq<Move>)
    ensures IsInterleaving(worlds, moves)
    ensures var w := worlds[|worlds| - 1];
            w.db == State({}, map[1 := CLUSTER_ROLE], map[5 := Joint(FedClusterRoles, 1, 2)]) && w.locks == map[]
            && At(w, 4) == Idle
  {
    worlds, moves := ActionChecked();
    worlds, moves := Then(worlds, moves, 4, StartPurge(2));
    worlds, moves := Then(worlds, moves, 4, DropClusterRow);
    worlds, moves := Then(worlds, moves, 0, Write(5));
  }

  lemma DeleteBegun() returns (worlds: seq<World>, moves: seq<Move>)
    ensures IsInterleaving(worlds, moves)
    ensures var w := worlds[|worlds| - 1];
            w.db == State({}, map[1 := CLUSTER_ROLE], map[5 := Joint(FedClusterRoles, 1, 2)]) && w.locks == map[1 := 4]
            && At(w, 4) == DeleteLocked(1)
  {
    worlds, moves := ClusterDropped();
    worlds, moves := Then(worlds, moves, 4, StartDelete(1));
    worlds, moves := Then(worlds, moves, 4, Advance);
  }

  /** An action cannot outlive its object, but it can outlive its cluster; and since no check counts a
      cluster that is gone, the object can then go too. */
  lemma ActionOutlivesItsCluster() returns (worlds: seq<World>, moves: seq<Move>)
    ensures IsInterleaving(worlds, moves)
    ensures var s := worlds[|worlds| - 1].db;
            5 in s.joints && s.joints[5] == Joint(FedClusterRoles, 1, 2) && 2 !in s.clusters && 1 !in s.objects
  {
    worlds, moves := DeleteBegun();
    assert AttachedClusters(worlds[|worlds| - 1].db, FedClusterRoles, 1) == {};
    worlds, moves := Then(worlds, moves, 4, Advance);
    worlds, moves := Then(worlds, moves, 4, Write(0));
  }

  // ----- a request that runs alone -----

  /** Moves of one thread. */
  ghost predicate Alone(worlds: seq<World>, moves: seq<Move>, t: ThreadId) {
    Leads(worlds, moves) && forall i :: 0 <= i < |moves| ==> moves[i].thread == t
  }

  /** The request is over, no lock is left behind and no other request has moved. */
  ghost predicate Over(w: World, w': World, t: ThreadId) {
    && At(w', t).Idle? && w'.locks == w.locks && w'.made == w.made && w'.seen == w.seen
    && forall u: ThreadId :: u != t ==> At(w', u) == At(w, u)
  }

  /** On the way: only the thread itself, the lock of its object and no table have changed. */
  ghost predicate OnWay(w: World, w': World, t: ThreadId, pc: Pc) {
    && At(w', t) == pc && w'.db == w.db && w'.made == w.made && w'.seen == w.seen
    && w'.locks == (if pc.Held().Some? then w.locks[pc.Held().value := t] else w.locks)
    && forall u: ThreadId :: u != t ==> At(w', u) == At(w, u)
  }

  lemma AloneThen(worlds: seq<World>, moves: seq<Move>, t: ThreadId, step: Step) returns (worlds': seq<World>, moves': seq<Move>)
    requires Alone(worlds, moves, t) && Enabled(worlds[|worlds| - 1], t, step)
    ensures Alone(worlds', moves', t) && worlds'[0] == worlds[0]
    ensures worlds'[|worlds'| - 1] == After(worlds[|worlds| - 1], t, step)
  {
    worlds', moves' := worlds + [After(worlds[|worlds| - 1], t, step)], moves + [Move(t, step)];
    forall i | 0 <= i < |moves'|
      ensures Enabled(worlds'[i], moves'[i].thread, moves'[i].step)
              && worlds'[i + 1] == After(worlds'[i], moves'[i].thread, moves'[i].step) && moves'[i].thread == t
    {
      assert i < |moves| ==> moves'[i] == moves[i] && worlds'[i] == worlds[i];
    }
  }

  /** The next step of a request on its way that writes nothing. */
  lemma AdvanceOn(w: World, worlds: seq<World>, moves: seq<Move>, t: ThreadId, pc: Pc)
    returns (worlds': seq<World>, moves': seq<Move>)
    requires Alone(worlds, moves, t) && OnWay(w, worlds[|worlds| - 1], t, pc) && worlds[0] == w
    requires !(pc.Idle? || pc.AttachChecked? || pc.DetachFound? || pc.DeleteChecked? || pc.Purging?)
    requires pc.fed !in w.locks
    ensures Alone(worlds', moves', t) && worlds'[0] == w
    ensures var next := NextPc(w.db, pc);
            if next.Idle? then Over(w, worlds'[|worlds'| - 1], t) && worlds'[|worlds'| - 1].db == w.db
            else OnWay(w, worlds'[|worlds'| - 1], t, next)
  {
    worlds', moves' := AloneThen(worlds, moves, t, Advance);
  }

  /** The write that ends it. */
  lemma WriteOn(w: World, worlds: seq<World>, moves: seq<Move>, t: ThreadId, pc: Pc, id: JointId)
    returns (worlds': seq<World>, moves': seq<Move>)
    requires Alone(worlds, moves, t) && OnWay(w, worlds[|worlds| - 1], t, pc) && worlds[0] == w
    requires (pc.AttachChecked? && id !in w.db.joints && pc.later.None?) || pc.DetachFound? || pc.DeleteChecked?
    requires pc.fed !in w.locks
    ensures Alone(worlds', moves', t) && worlds'[0] == w && Over(w, worlds'[|worlds'| - 1], t)
    ensures worlds'[|worlds'| - 1].db == Written(w.db, pc, id)
  {
    worlds', moves' := AloneThen(worlds, moves, t, Write(id));
  }

  lemma FirstIff(s: State, kind: FedKind, fed: FedId, cluster: ClusterId)
    ensures IsAttached(s, kind, fed, cluster) <==> FirstJoint(s, kind, fed, cluster).Some?
  {
    AttachedIff(s, kind, fed, cluster);
    if JointsOf(s, kind, fed, cluster) != {} {
      var first := Least(JointsOf(s, kind, fed, cluster));
    }
  }

  lemma Least(s: set<JointId>) returns (least: JointId)
    requires s != {}
    ensures least in s && forall i :: i in s ==> least <= i
    decreases s
  {
    least :| least in s;
    if s != {least} {
      var other := Least(s - {least});
      assert s == (s - {least}) + {least};
      if other < least { least := other; }
    }
  }

  lemma ActionBegun(w: World, t: ThreadId, fed: FedId, cluster: ClusterId, detach: bool)
    returns (worlds: seq<World>, moves: seq<Move>)
    requires At(w, t).Idle? && fed in w.db.objects && fed !in w.locks
    requires w.db.objects[fed].kind == FedRoles || w.db.objects[fed].kind == FedRoleBindings ==> detach
    ensures Alone(worlds, moves, t) && worlds[0] == w
    ensures OnWay(w, worlds[|worlds| - 1], t,
      if detach then DetachLoaded(fed, w.db.objects[fed], cluster)
      else AttachLoaded(fed, w.db.objects[fed], cluster, ByAction, None))
  {
    worlds, moves := AloneThen([w], [], t, StartAction(fed, cluster, detach));
    worlds, moves := AdvanceOn(w, worlds, moves, t, ActionFetched(fed, cluster, detach));
    worlds, moves := AdvanceOn(w, worlds, moves, t, ActionLocked(fed, cluster, detach));
  }

  /** An attach that runs alone, on an object that is neither role nor role binding: it inserts its joint
      row if and only if the cluster is there and no joint row of the two is. */
  lemma AttachAlone(w: World, t: ThreadId, fed: FedId, cluster: ClusterId, id: JointId)
    returns (worlds: seq<World>, moves: seq<Move>)
    requires At(w, t).Idle? && fed in w.db.objects && fed !in w.locks && id !in w.db.joints
    requires w.db.objects[fed].kind != FedRoles && w.db.objects[fed].kind != FedRoleBindings
    ensures Alone(worlds, moves, t) && worlds[0] == w && Over(w, worlds[|worlds| - 1], t)
    ensures var kind := w.db.objects[fed].kind;
      worlds[|worlds| - 1].db ==
        if cluster in w.db.clusters && !IsAttached(w.db, kind, fed, cluster)
        then w.db.(joints := w.db.joints[id := Joint(kind, fed, cluster)]) else w.db
  {
    var obj := w.db.objects[fed];
    AttachedIff(w.db, obj.kind, fed, cluster);
    worlds, moves := ActionBegun(w, t, fed, cluster, false);
    worlds, moves := AdvanceOn(w, worlds, moves, t, AttachLoaded(fed, obj, cluster, ByAction, None));
    if cluster in w.db.clusters && !IsAttached(w.db, obj.kind, fed, cluster) {
      worlds, moves := AdvanceOn(w, worlds, moves, t, AttachValidated(fed, obj, cluster, ByAction, None));
      worlds, moves := AdvanceOn(w, worlds, moves, t, AttachLocked(fed, obj, cluster, ByAction, None));
      worlds, moves := WriteOn(w, worlds, moves, t, AttachChecked(fed, obj, cluster, ByAction, None), id);
    }
  }

  /** A detach that runs alone takes one joint row of the two away if and only if the cluster is there and
      there is one. */
  lemma DetachAlone(w: World, t: ThreadId, fed: FedId, cluster: ClusterId)
    returns (worlds: seq<World>, moves: seq<Move>)
    requires At(w, t).Idle? && fed in w.db.objects && fed !in w.locks
    ensures Alone(worlds, moves, t) && worlds[0] == w && Over(w, worlds[|worlds| - 1], t)
    ensures var kind, s := w.db.objects[fed].kind, worlds[|worlds| - 1].db;
      if cluster in w.db.clusters && IsAttached(w.db, kind, fed, cluster)
      then exists j :: j in w.db.joints && w.db.joints[j] == Joint(kind, fed, cluster) && s == w.db.(joints := w.db.joints - {j})
      else s == w.db
  {
    var obj := w.db.objects[fed];
    AttachedIff(w.db, obj.kind, fed, cluster);
    FirstIff(w.db, obj.kind, fed, cluster);
    worlds, moves := ActionBegun(w, t, fed, cluster, true);
    worlds, moves := AdvanceOn(w, worlds, moves, t, DetachLoaded(fed, obj, cluster));
    if cluster in w.db.clusters && IsAttached(w.db, obj.kind, fed, cluster) {
      worlds, moves := AdvanceOn(w, worlds, moves, t, DetachValidated(fed, obj, cluster));
      var j := FirstJoint(w.db, obj.kind, fed, cluster).value;
      worlds, moves := WriteOn(w, worlds, moves, t, DetachFound(fed, j), 0);
    }
  }

  /** A delete that runs alone takes the object away if and only if it is not in use. */
  lemma DeleteAlone(w: World, t: ThreadId, fed: FedId) returns (worlds: seq<World>, moves: seq<Move>)
    requires At(w, t).Idle? && fed in w.db.objects && fed !in w.locks
    ensures Alone(worlds, moves, t) && worlds[0] == w && Over(w, worlds[|worlds| - 1], t)
    ensures worlds[|worlds| - 1].db == if InUse(w.db, fed) then w.db else w.db.(objects := w.db.objects - {fed})
  {
    InUseIff(w.db, fed);
    worlds, moves := AloneThen([w], [], t, StartDelete(fed));
    worlds, moves := AdvanceOn(w, worlds, moves, t, DeleteFetched(fed));
    worlds, moves := AdvanceOn(w, worlds, moves, t, DeleteLocked(fed));
    if !InUse(w.db, fed) {
      worlds, moves := WriteOn(w, worlds, moves, t, DeleteChecked(fed), 0);
    }
  }

  /** The task on a role or role binding that runs alone, its namespace being attached already: it inserts
      if and only if the namespace's object and the cluster are there and no joint row of the two is. */
  lemma TaskAlone(w: World, t: ThreadId, fed: FedId, cluster: ClusterId, id: JointId)
    returns (worlds: seq<World>, moves: seq<Move>)
    requires At(w, t).Idle? && fed in w.db.objects && fed !in w.locks && id !in w.db.joints
    requires w.db.objects[fed].kind == FedRoles || w.db.objects[fed].kind == FedRoleBindings
    requires IsAttached(w.db, FedNamespaces, w.db.objects[fed].namespace, cluster)
    ensures Alone(worlds, moves, t) && worlds[0] == w && Over(w, worlds[|worlds| - 1], t)
    ensures var obj := w.db.objects[fed];
      worlds[|worlds| - 1].db ==
        if cluster in w.db.clusters && !IsAttached(w.db, obj.kind, fed, cluster)
           && obj.namespace in w.db.objects && w.db.objects[obj.namespace].kind == FedNamespaces
        then w.db.(joints := w.db.joints[id := Joint(obj.kind, fed, cluster)]) else w.db
  {
    var obj := w.db.objects[fed];
    AttachedIff(w.db, FedNamespaces, obj.namespace, cluster);
    worlds, moves := AloneThen([w], [], t, StartTask(fed, cluster));
    worlds, moves := AdvanceOn(w, worlds, moves, t, TaskLoaded(fed, obj, cluster));
    if IsLive(w.db, FedNamespaces, obj.namespace) {
      worlds, moves := TaskAttaches(w, worlds, moves, t, fed, cluster, id);
    }
  }

  lemma TaskAttaches(
    w: World, before: seq<World>, begun: seq<Move>, t: ThreadId, fed: FedId, cluster: ClusterId, id: JointId)
    returns (worlds: seq<World>, moves: seq<Move>)
    requires fed in w.db.objects && fed !in w.locks && id !in w.db.joints
    requires IsLive(w.db, FedNamespaces, w.db.objects[fed].namespace)
    requires Alone(before, begun, t) && before[0] == w
    requires OnWay(w, before[|before| - 1], t, AttachLoaded(fed, w.db.objects[fed], cluster, ByTask, None))
    ensures Alone(worlds, moves, t) && worlds[0] == w && Over(w, worlds[|worlds| - 1], t)
    ensures var kind := w.db.objects[fed].kind;
      worlds[|worlds| - 1].db ==
        if cluster in w.db.clusters && !IsAttached(w.db, kind, fed, cluster)
        then w.db.(joints := w.db.joints[id := Joint(kind, fed, cluster)]) else w.db
  {
    var obj := w.db.objects[fed];
    AttachedIff(w.db, obj.kind, fed, cluster);
    worlds, moves := AdvanceOn(w, before, begun, t, AttachLoaded(fed, obj, cluster, ByTask, None));
    if cluster in w.db.clusters && !IsAttached(w.db, obj.kind, fed, cluster) {
      worlds, moves := AdvanceOn(w, worlds, moves, t, AttachValidated(fed, obj, cluster, ByTask, None));
      worlds, moves := AdvanceOn(w, worlds, moves, t, AttachLocked(fed, obj, cluster, ByTask, None));
      worlds, moves := WriteOn(w, worlds, moves, t, AttachChecked(fed, obj, cluster, ByTask, None), id);
    }
  }

  lemma Joined(worlds: seq<World>, moves: seq<Move>, worlds': seq<World>, moves': seq<Move>, t: ThreadId)
    requires Alone(worlds, moves, t) && Alone(worlds', moves', t) && worlds'[0] == worlds[|worlds| - 1]
    ensures Alone(worlds + worlds'[1..], moves + moves', t)
  {
    var ws, ms := worlds + worlds'[1..], moves + moves';
    forall i | 0 <= i < |ms|
      ensures Enabled(ws[i], ms[i].thread, ms[i].step) && ws[i + 1] == After(ws[i], ms[i].thread, ms[i].step)
              && ms[i].thread == t
    {
      if i < |moves| {
        assert ms[i] == moves[i] && ws[i] == worlds[i] && ws[i + 1] == worlds[i + 1];
      } else {
        var k := i - |moves|;
        assert ms[i] == moves'[k] && ws[i] == worlds'[k] && ws[i + 1] == worlds'[k + 1];
      }
    }
  }

  lemma WriteOnAndGoOn(w: World, worlds: seq<World>, moves: seq<Move>, t: ThreadId, pc: Pc, id: JointId)
    returns (worlds': seq<World>, moves': seq<Move>)
    requires Alone(worlds, moves, t) && OnWay(w, worlds[|worlds| - 1], t, pc) && worlds[0] == w
    requires pc.AttachChecked? && id !in w.db.joints && pc.later.Some? && pc.fed !in w.locks
    ensures Alone(worlds', moves', t) && worlds'[0] == w
    ensures OnWay(w.(db := Attached(w.db, pc.fed, pc.obj.kind, pc.cluster, id)), worlds'[|worlds'| - 1], t,
                  AttachLoaded(pc.later.value.fed, pc.later.value.obj, pc.cluster, ByTask, None))
  {
    worlds', moves' := AloneThen(worlds, moves, t, Write(id));
    assert w.locks[pc.fed := t] - {pc.fed} == w.locks;
    var mid, now, last := w.(db := Attached(w.db, pc.fed, pc.obj.kind, pc.cluster, id)), worlds[|worlds| - 1], worlds'[|worlds'| - 1];
    forall u: ThreadId | u != t ensures At(last, u) == At(mid, u) {
      assert At(last, u) == At(now, u) == At(w, u) == At(mid, u);
    }
  }

  /** The task up to the joint row of the namespace, with its own object still to come. */
  lemma TaskAttachesNamespace(w: World, t: ThreadId, fed: FedId, cluster: ClusterId, id: JointId)
    returns (worlds: seq<World>, moves: seq<Move>)
    requires At(w, t).Idle? && fed in w.db.objects && fed !in w.locks && id !in w.db.joints && cluster in w.db.clusters
    requires w.db.objects[fed].kind.NamespaceScope() && w.db.objects[fed].namespace !in w.locks
    requires IsLive(w.db, FedNamespaces, w.db.objects[fed].namespace)
    requires JointsOf(w.db, FedNamespaces, w.db.objects[fed].namespace, cluster) == {}
    ensures Alone(worlds, moves, t) && worlds[0] == w
    ensures OnWay(w.(db := Attached(w.db, w.db.objects[fed].namespace, FedNamespaces, cluster, id)),
                  worlds[|worlds| - 1], t, AttachLoaded(fed, w.db.objects[fed], cluster, ByTask, None))
  {
    var obj := w.db.objects[fed];
    var ns, later := obj.namespace, Some(Pending(fed, obj));
    var space := w.db.objects[ns];
    worlds, moves := AloneThen([w], [], t, StartTask(fed, cluster));
    worlds, moves := AdvanceOn(w, worlds, moves, t, TaskLoaded(fed, obj, cluster));
    worlds, moves := AdvanceOn(w, worlds, moves, t, AttachLoaded(ns, space, cluster, ByTask, later));
    worlds, moves := AdvanceOn(w, worlds, moves, t, AttachValidated(ns, space, cluster, ByTask, later));
    worlds, moves := AdvanceOn(w, worlds, moves, t, AttachLocked(ns, space, cluster, ByTask, later));
    worlds, moves := WriteOnAndGoOn(w, worlds, moves, t, AttachChecked(ns, space, cluster, ByTask, later), id);
  }

  lemma TaskGivesUp(w: World, t: ThreadId, fed: FedId, cluster: ClusterId)
    returns (worlds: seq<World>, moves: seq<Move>)
    requires At(w, t).Idle? && fed in w.db.objects && fed !in w.locks && w.db.objects[fed].namespace !in w.locks
    requires w.db.objects[fed].kind.NamespaceScope()
    requires JointsOf(w.db, FedNamespaces, w.db.objects[fed].namespace, cluster) == {}
    requires cluster !in w.db.clusters || !IsLive(w.db, FedNamespaces, w.db.objects[fed].namespace)
    ensures Alone(worlds, moves, t) && worlds[0] == w && Over(w, worlds[|worlds| - 1], t)
    ensures worlds[|worlds| - 1].db == w.db
  {
    var obj := w.db.objects[fed];
    worlds, moves := AloneThen([w], [], t, StartTask(fed, cluster));
    worlds, moves := AdvanceOn(w, worlds, moves, t, TaskLoaded(fed, obj, cluster));
    if IsLive(w.db, FedNamespaces, obj.namespace) {
      worlds, moves := AdvanceOn(w, worlds, moves, t,
        AttachLoaded(obj.namespace, w.db.objects[obj.namespace], cluster, ByTask, Some(Pending(fed, obj))));
    }
  }

  /** The task that runs alone while nothing is attached yet: if cluster and federated namespace are there it
      inserts a joint row of the namespace and then one of the object, and otherwise none. */
  lemma TaskAttachesBoth(w: World, t: ThreadId, fed: FedId, cluster: ClusterId, first: JointId, second: JointId)
    returns (worlds: seq<World>, moves: seq<Move>)
    requires At(w, t).Idle? && fed in w.db.objects && fed !in w.locks && w.db.objects[fed].namespace !in w.locks
    requires first !in w.db.joints && second !in w.db.joints && first != second
    requires w.db.objects[fed].kind == FedRoles || w.db.objects[fed].kind == FedRoleBindings
    requires !IsAttached(w.db, FedNamespaces, w.db.objects[fed].namespace, cluster)
    requires !IsAttached(w.db, w.db.objects[fed].kind, fed, cluster)
    ensures Alone(worlds, moves, t) && worlds[0] == w && Over(w, worlds[|worlds| - 1], t)
    ensures var obj := w.db.objects[fed];
      worlds[|worlds| - 1].db ==
        if cluster in w.db.clusters && obj.namespace in w.db.objects && w.db.objects[obj.namespace].kind == FedNamespaces
        then w.db.(joints := w.db.joints[first := Joint(FedNamespaces, obj.namespace, cluster)][second := Joint(obj.kind, fed, cluster)])
        else w.db
  {
    var obj := w.db.objects[fed];
    AttachedIff(w.db, FedNamespaces, obj.namespace, cluster);
    if cluster in w.db.clusters && IsLive(w.db, FedNamespaces, obj.namespace) {
      worlds, moves := TaskAttachesNamespace(w, t, fed, cluster, first);
      var mid := worlds[|worlds| - 1];
      assert !IsAttached(mid.db, obj.kind, fed, cluster);
      var worlds', moves' := TaskAttaches(mid, [mid], [], t, fed, cluster, second);
      Joined(worlds, moves, worlds', moves', t);
      worlds, moves := worlds + worlds'[1..], moves + moves';
      assert worlds[|worlds| - 1] == worlds'[|worlds'| - 1];
    } else {
      worlds, moves := TaskGivesUp(w, t, fed, cluster);
    }
  }

  // ----- a purge that runs alone -----

  /** The cluster's joint rows that are in left are still there, and all of other clusters. */
  ghost predicate PurgedDownTo(w: World, w': World, t: ThreadId, cluster: ClusterId, left: set<JointId>) {
    && At(w', t) == Purging(cluster) && w'.locks == w.locks && w'.made == w.made && w'.seen == w.seen
    && (forall u: ThreadId :: u != t ==> At(w', u) == At(w, u))
    && w'.db.clusters == w.db.clusters && w'.db.objects == w.db.objects
    && w'.db.joints == map j | j in w.db.joints && (w.db.joints[j].cluster != cluster || j in left) :: w.db.joints[j]
  }

  lemma {:induction false} PurgeRest(
    w: World, before: seq<World>, begun: seq<Move>, t: ThreadId, cluster: ClusterId, left: set<JointId>)
    returns (worlds: seq<World>, moves: seq<Move>)
    requires Alone(before, begun, t) && before[0] == w && PurgedDownTo(w, before[|before| - 1], t, cluster, left)
    requires forall j | j in left ::
      && j in w.db.joints && w.db.joints[j].cluster == cluster
      && w.db.joints[j].fed in w.db.objects && w.db.objects[w.db.joints[j].fed].kind == w.db.joints[j].kind
    ensures Alone(worlds, moves, t) && worlds[0] == w && PurgedDownTo(w, worlds[|worlds| - 1], t, cluster, {})
    decreases left
  {
    worlds, moves := before, begun;
    if left != {} {
      var j :| j in left;
      worlds, moves := AloneThen(before, begun, t, PurgeJoint(j));
      assert PurgedDownTo(w, worlds[|worlds| - 1], t, cluster, left - {j});
      worlds, moves := PurgeRest(w, worlds, moves, t, cluster, left - {j});
    }
  }

  /** A cluster's joint rows all of which have their object can all go in a purge that runs alone, and no row
      of another cluster does; at its end the cluster is gone. */
  lemma PurgeAlone(w: World, t: ThreadId, cluster: ClusterId) returns (worlds: seq<World>, moves: seq<Move>)
    requires At(w, t).Idle?
    requires forall j | j in w.db.joints && w.db.joints[j].cluster == cluster ::
      w.db.joints[j].fed in w.db.objects && w.db.objects[w.db.joints[j].fed].kind == w.db.joints[j].kind
    ensures Alone(worlds, moves, t) && worlds[0] == w && Over(w, worlds[|worlds| - 1], t)
    ensures worlds[|worlds| - 1].db == w.db.(
      clusters := w.db.clusters - {cluster},
      joints := map j | j in w.db.joints && w.db.joints[j].cluster != cluster :: w.db.joints[j])
  {
    worlds, moves := AloneThen([w], [], t, StartPurge(cluster));
    var left := set j | j in w.db.joints && w.db.joints[j].cluster == cluster;
    worlds, moves := PurgeRest(w, worlds, moves, t, cluster, left);
    worlds, moves := AloneThen(worlds, moves, t, DropClusterRow);
  }

  /** No purge takes a joint row of another cluster. */
  lemma PurgeTakesOwn(w: World, t: ThreadId, step: Step, j: JointId)
    requires Enabled(w, t, step) && At(w, t).Purging? && j in w.db.joints && j !in After(w, t, step).db.joints
    ensures w.db.joints[j].cluster == At(w, t).cluster
  {
  }
}
