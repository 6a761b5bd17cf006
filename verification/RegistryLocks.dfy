/**
 The client registry step by step, with its two locks: any number of threads add, update, remove and
 look up clients. A removal deletes from the map under the action lock alone
 (pkg/kubeserver/client/manager.go:78-139, client.go:106-126).
 */
module RegistryLocks {
  import opened Wrappers

  type ThreadId = nat
  type ClusterId = nat
  type ClientId = nat

  /** What an update goes on with once its removal is done. */
  datatype Target = Target(cluster: ClusterId, running: bool, ignoreStatus: bool)

  datatype Pc =
    | Idle
    | AddWaiting(target: Target)                            // for the action lock
    | AddEntered(target: Target)                            // status not looked at yet
    | AddLooking(cluster: ClusterId)                        // for the manager lock
    | AddReading(cluster: ClusterId)                        // in getManager
    | AddBuilding(cluster: ClusterId)
    | AddStoring(client: ClientId)                          // for the manager lock
    | AddWriting(client: ClientId)                          // in addManager
    | AddLeaving
    | RemoveWaiting(cluster: ClusterId, after: Option<Target>)
    | RemoveLooking(cluster: ClusterId, after: Option<Target>)
    | RemoveReading(cluster: ClusterId, after: Option<Target>)
    | RemoveDeleting(cluster: ClusterId, client: ClientId, after: Option<Target>)
    | RemoveClosing(client: ClientId, after: Option<Target>)
    | RemoveLeaving(after: Option<Target>)
    | GetWaiting(cluster: ClusterId)
    | GetReading(cluster: ClusterId)
  {
    predicate InAction() {
      !(Idle? || AddWaiting? || RemoveWaiting? || GetWaiting? || GetReading?)
    }

    predicate InManager() {
      AddReading? || AddWriting? || RemoveReading? || GetReading?
    }

    /** The client a section has in hand, built and not stored yet or deleted and not closed yet. */
    function InHand(): Option<ClientId> {
      if AddStoring? || AddWriting? || RemoveClosing? then Some(client) else None
    }
  }

  datatype Client = Client(cluster: ClusterId, closes: nat)

  datatype World = World(
    managers: map<ClusterId, ClientId>, clients: map<ClientId, Client>,
    actionLock: Option<ThreadId>, managerLock: Option<ThreadId>, pcs: map<ThreadId, Pc>)

  const START := World(map[], map[], None, None, map[])

  function At(w: World, t: ThreadId): Pc {
    if t in w.pcs then w.pcs[t] else Idle
  }

  /** The requests a thread can start. */
  datatype Start = Add(target: Target) | Update(target: Target) | Remove(cluster: ClusterId) | Get(cluster: ClusterId)

  /** Whether thread t can take its next step; building may bring any client that is new. */
  predicate Enabled(w: World, t: ThreadId, built: Option<ClientId>) {
    match At(w, t)
    case AddWaiting(_) => w.actionLock == None
    case RemoveWaiting(_, _) => w.actionLock == None
    case AddLooking(_) => w.managerLock == None
    case AddStoring(_) => w.managerLock == None
    case RemoveLooking(_, _) => w.managerLock == None
    case GetWaiting(_) => w.managerLock == None
    case AddBuilding(_) => built.Some? ==> built.value !in w.clients
    case AddWriting(client) => client in w.clients
    case RemoveClosing(client, _) => client in w.clients
    case _ => true
  }

  function Goto(w: World, t: ThreadId, pc: Pc): World {
    w.(pcs := w.pcs[t := pc])
  }

  /** One step of thread t. start and built are used only where the code has that choice: which
      request begins, and whether building a client works out and which client it is. */
  function After(w: World, t: ThreadId, start: Start, built: Option<ClientId>): World
    requires Enabled(w, t, built)
  {
    match At(w, t)
    case Idle =>
      Goto(w, t, match start
        case Add(target) => AddWaiting(target)
        case Update(target) => RemoveWaiting(target.cluster, Some(target))
        case Remove(cluster) => RemoveWaiting(cluster, None)
        case Get(cluster) => GetWaiting(cluster))
    case AddWaiting(target) => Goto(w.(actionLock := Some(t)), t, AddEntered(target))
    case AddEntered(target) =>
      Goto(w, t, if target.running || target.ignoreStatus then AddLooking(target.cluster) else AddLeaving)
    case AddLooking(cluster) => Goto(w.(managerLock := Some(t)), t, AddReading(cluster))
    case AddReading(cluster) =>
      Goto(w.(managerLock := None), t, if cluster in w.managers then AddLeaving else AddBuilding(cluster))
    case AddBuilding(cluster) =>
      if built == None then Goto(w, t, AddLeaving)
      else Goto(w.(clients := w.clients[built.value := Client(cluster, 0)]), t, AddStoring(built.value))
    case AddStoring(client) => Goto(w.(managerLock := Some(t)), t, AddWriting(client))
    case AddWriting(client) =>
      Goto(w.(managers := w.managers[w.clients[client].cluster := client], managerLock := None), t, AddLeaving)
    case AddLeaving => Goto(w.(actionLock := None), t, Idle)
    case RemoveWaiting(cluster, after) => Goto(w.(actionLock := Some(t)), t, RemoveLooking(cluster, after))
    case RemoveLooking(cluster, after) => Goto(w.(managerLock := Some(t)), t, RemoveReading(cluster, after))
    case RemoveReading(cluster, after) =>
      Goto(w.(managerLock := None), t,
           if cluster in w.managers then RemoveDeleting(cluster, w.managers[cluster], after) else RemoveLeaving(after))
    case RemoveDeleting(cluster, client, after) =>
      Goto(w.(managers := w.managers - {cluster}), t, RemoveClosing(client, after))
    case RemoveClosing(client, after) =>
      Goto(w.(clients := w.clients[client := w.clients[client].(closes := w.clients[client].closes + 1)]), t,
           RemoveLeaving(after))
    case RemoveLeaving(after) =>
      Goto(w.(actionLock := None), t, if after.Some? then AddWaiting(after.value) else Idle)
    case GetWaiting(cluster) => Goto(w.(managerLock := Some(t)), t, GetReading(cluster))
    case GetReading(_) => Goto(w.(managerLock := None), t, Idle)
  }

  // ----- the invariant -----

  /** A thread is in a section exactly when it holds the section's lock. */
  ghost predicate LocksHeld(w: World) {
    && (forall t: ThreadId :: At(w, t).InAction() <==> w.actionLock == Some(t))
    && (forall t: ThreadId :: At(w, t).InManager() <==> w.managerLock == Some(t))
  }

  /** The section in progress, if any. */
  function Active(w: World): Pc {
    if w.actionLock.Some? then At(w, w.actionLock.value) else Idle
  }

  predicate Registered(w: World, c: ClientId) {
    c in w.clients && w.clients[c].cluster in w.managers && w.managers[w.clients[c].cluster] == c
  }

  /** Clients are keyed by their own cluster; a client is open while it is registered or in hand and
      closed exactly once otherwise. */
  ghost predicate ClientsKept(w: World) {
    && (forall id :: id in w.managers ==> w.managers[id] in w.clients && w.clients[w.managers[id]].cluster == id)
    && (forall c :: c in w.clients ==>
          w.clients[c].closes == if Registered(w, c) || Active(w).InHand() == Some(c) then 0 else 1)
  }

  /** What the section in progress has seen is still so: nobody else writes. */
  ghost predicate SectionKnows(w: World) {
    match Active(w)
    case AddBuilding(cluster) => cluster !in w.managers
    case AddStoring(c) => c in w.clients && w.clients[c].cluster !in w.managers
    case AddWriting(c) => c in w.clients && w.clients[c].cluster !in w.managers
    case RemoveDeleting(cluster, c, _) => cluster in w.managers && w.managers[cluster] == c
    case RemoveClosing(c, _) => c in w.clients && !Registered(w, c)
    case _ => true
  }

  ghost predicate Inv(w: World) {
    LocksHeld(w) && ClientsKept(w) && SectionKnows(w)
  }

  lemma StepKeepsLocks(w: World, t: ThreadId, start: Start, built: Option<ClientId>)
    requires LocksHeld(w) && Enabled(w, t, built)
    ensures LocksHeld(After(w, t, start, built))
    ensures forall u :: u != t ==> At(After(w, t, start, built), u) == At(w, u)
  {
    var w' := After(w, t, start, built);
    forall u | u != t ensures At(w', u) == At(w, u) {}
  }

  /** Outside the action lock a step leaves the clients and the section in progress alone. */
  lemma OutsideKeepsClients(w: World, t: ThreadId, start: Start, built: Option<ClientId>)
    requires Inv(w) && Enabled(w, t, built) && !At(w, t).InAction()
    ensures ClientsKept(After(w, t, start, built)) && SectionKnows(After(w, t, start, built))
  {
    var w' := After(w, t, start, built);
    StepKeepsLocks(w, t, start, built);
    assert w'.managers == w.managers && w'.clients == w.clients;
    assert w.actionLock.Some? ==> w.actionLock.value != t && Active(w') == Active(w);
    assert Active(w').InHand() == Active(w).InHand();
    forall c | c in w'.clients ensures Registered(w', c) == Registered(w, c) {}
  }

  lemma InsideKeepsClients(w: World, t: ThreadId, start: Start, built: Option<ClientId>)
    requires Inv(w) && Enabled(w, t, built) && At(w, t).InAction()
    ensures ClientsKept(After(w, t, start, built))
  {
    var w' := After(w, t, start, built);
    assert w.actionLock == Some(t) && Active(w) == At(w, t);
    assert Active(w') == At(w', t) || Active(w') == Idle;
  }

  lemma InsideKnows(w: World, t: ThreadId, start: Start, built: Option<ClientId>)
    requires Inv(w) && Enabled(w, t, built) && At(w, t).InAction()
    ensures SectionKnows(After(w, t, start, built))
  {
    var w' := After(w, t, start, built);
    assert w.actionLock == Some(t) && Active(w) == At(w, t);
    assert Active(w') == At(w', t) || Active(w') == Idle;
  }

  lemma StepKeepsInv(w: World, t: ThreadId, start: Start, built: Option<ClientId>)
    requires Inv(w) && Enabled(w, t, built)
    ensures Inv(After(w, t, start, built))
  {
    StepKeepsLocks(w, t, start, built);
    if At(w, t).InAction() {
      InsideKeepsClients(w, t, start, built);
      InsideKnows(w, t, start, built);
    } else {
      OutsideKeepsClients(w, t, start, built);
    }
  }

  // ----- runs -----

  datatype Move = Move(thread: ThreadId, start: Start, built: Option<ClientId>)

  ghost predicate IsRun(worlds: seq<World>, moves: seq<Move>) {
    && |worlds| == |moves| + 1 && worlds[0] == START
    && forall i :: 0 <= i < |moves| ==>
         && Enabled(worlds[i], moves[i].thread, moves[i].built)
         && worlds[i + 1] == After(worlds[i], moves[i].thread, moves[i].start, moves[i].built)
  }

  lemma {:induction false} RunsKeepInv(worlds: seq<World>, moves: seq<Move>, i: nat)
    requires IsRun(worlds, moves) && i < |worlds|
    ensures Inv(worlds[i])
  {
    if i > 0 {
      RunsKeepInv(worlds, moves, i - 1);
      StepKeepsInv(worlds[i - 1], moves[i - 1].thread, moves[i - 1].start, moves[i - 1].built);
    }
  }

  predicate IsOpen(w: World, c: ClientId) {
    c in w.clients && w.clients[c].closes == 0
  }

  /** At every moment of every interleaving at which no thread is in a section, every client ever
      built is either in the map, under its own cluster's id, and open, or out of it and closed
      exactly once; so no cluster has two open clients. */
  lemma QuietMomentsAreClean(worlds: seq<World>, moves: seq<Move>, i: nat)
    requires IsRun(worlds, moves) && i < |worlds| && worlds[i].actionLock == None
    ensures forall c :: c in worlds[i].clients ==>
      worlds[i].clients[c].closes == if Registered(worlds[i], c) then 0 else 1
    ensures forall c, d | IsOpen(worlds[i], c) && IsOpen(worlds[i], d) ::
      worlds[i].clients[c].cluster == worlds[i].clients[d].cluster ==> c == d
  {
    RunsKeepInv(worlds, moves, i);
  }

  /** Additions to the map and lookups exclude one another; so do two sections of the action lock. */
  lemma SectionsExclude(worlds: seq<World>, moves: seq<Move>, i: nat, t: ThreadId, u: ThreadId)
    requires IsRun(worlds, moves) && i < |worlds| && t != u
    ensures !(At(worlds[i], t).InAction() && At(worlds[i], u).InAction())
    ensures !(At(worlds[i], t).InManager() && At(worlds[i], u).InManager())
  {
    RunsKeepInv(worlds, moves, i);
  }

  /** The locks cannot block for good: while some request is unfinished, some thread can go on. */
  lemma SomebodyCanGoOn(worlds: seq<World>, moves: seq<Move>, i: nat, t: ThreadId) returns (u: ThreadId)
    requires IsRun(worlds, moves) && i < |worlds| && At(worlds[i], t) != Idle
    ensures At(worlds[i], u) != Idle && Enabled(worlds[i], u, None)
  {
    var w := worlds[i];
    RunsKeepInv(worlds, moves, i);
    u := if w.managerLock.Some? then w.managerLock.value else if w.actionLock.Some? then w.actionLock.value else t;
    if At(w, u).InAction() {
      assert Active(w) == At(w, u);
    }
  }

  // ----- a request that runs alone -----

  /** Moves of one thread, each as After has it. */
  ghost predicate Alone(worlds: seq<World>, moves: seq<Move>, t: ThreadId) {
    && |worlds| == |moves| + 1
    && forall i :: 0 <= i < |moves| ==>
         && moves[i].thread == t && Enabled(worlds[i], t, moves[i].built)
         && worlds[i + 1] == After(worlds[i], t, moves[i].start, moves[i].built)
  }

  ghost predicate LocksFree(w: World) {
    w.actionLock == None && w.managerLock == None
  }

  /** The thread is at pc with the locks that go with it; map and clients are the ones given, and nobody
      else has moved. */
  ghost predicate Stands(
    w: World, w': World, t: ThreadId, pc: Pc, managers: map<ClusterId, ClientId>, clients: map<ClientId, Client>)
  {
    && At(w', t) == pc && w'.managers == managers && w'.clients == clients
    && w'.actionLock == (if pc.InAction() then Some(t) else None)
    && w'.managerLock == (if pc.InManager() then Some(t) else None)
    && forall u: ThreadId :: u != t ==> At(w', u) == At(w, u)
  }

  /** One move more. The thread stands where After puts it. */
  lemma Then(
    w: World, before: seq<World>, begun: seq<Move>, t: ThreadId, start: Start, built: Option<ClientId>,
    pc: Pc, managers: map<ClusterId, ClientId>, clients: map<ClientId, Client>)
    returns (worlds: seq<World>, moves: seq<Move>)
    requires Alone(before, begun, t) && Stands(w, before[|before| - 1], t, pc, managers, clients)
    requires Enabled(before[|before| - 1], t, built)
    ensures var last := After(before[|before| - 1], t, start, built);
            Leads(w, before[0], worlds, moves, t, At(last, t), last.managers, last.clients)
  {
    var now := before[|before| - 1];
    var last := After(now, t, start, built);
    OneMore(before, begun, t, start, built);
    worlds, moves := before + [last], begun + [Move(t, start, built)];
    assert worlds[0] == before[0];
    StandsAfter(w, now, t, start, built, pc, managers, clients);
  }

  lemma OneMore(worlds: seq<World>, moves: seq<Move>, t: ThreadId, start: Start, built: Option<ClientId>)
    requires Alone(worlds, moves, t) && Enabled(worlds[|worlds| - 1], t, built)
    ensures Alone(worlds + [After(worlds[|worlds| - 1], t, start, built)], moves + [Move(t, start, built)], t)
  {
    var worlds', moves' := worlds + [After(worlds[|worlds| - 1], t, start, built)], moves + [Move(t, start, built)];
    forall i | 0 <= i < |moves'|
      ensures moves'[i].thread == t && Enabled(worlds'[i], t, moves'[i].built)
              && worlds'[i + 1] == After(worlds'[i], t, moves'[i].start, moves'[i].built)
    {
      assert i < |moves| ==> moves'[i] == moves[i] && worlds'[i] == worlds[i];
    }
  }

  lemma StandsAfter(
    w: World, now: World, t: ThreadId, start: Start, built: Option<ClientId>,
    pc: Pc, managers: map<ClusterId, ClientId>, clients: map<ClientId, Client>)
    requires Stands(w, now, t, pc, managers, clients) && Enabled(now, t, built)
    ensures var last := After(now, t, start, built); Stands(w, last, t, At(last, t), last.managers, last.clients)
  {
    var last := After(now, t, start, built);
    forall u: ThreadId | u != t ensures At(last, u) == At(w, u) {
      assert At(last, u) == At(now, u);
    }
  }

  /** Moves of one thread that lead from a world to where it stands. */
  ghost predicate Leads(
    w: World, first: World, worlds: seq<World>, moves: seq<Move>, t: ThreadId,
    pc: Pc, managers: map<ClusterId, ClientId>, clients: map<ClientId, Client>)
  {
    Alone(worlds, moves, t) && worlds[0] == first && Stands(w, worlds[|worlds| - 1], t, pc, managers, clients)
  }

  function AddedManagers(managers: map<ClusterId, ClientId>, target: Target, built: Option<ClientId>)
    : map<ClusterId, ClientId>
  {
    if (target.running || target.ignoreStatus) && target.cluster !in managers && built.Some?
    then managers[target.cluster := built.value] else managers
  }

  function AddedClients(
    managers: map<ClusterId, ClientId>, clients: map<ClientId, Client>, target: Target, built: Option<ClientId>)
    : map<ClientId, Client>
  {
    if (target.running || target.ignoreStatus) && target.cluster !in managers && built.Some?
    then clients[built.value := Client(target.cluster, 0)] else clients
  }

  /** The section of an addition, up to where it builds a client or gives up. */
  lemma AddLooksUp(
    w: World, first: World, before: seq<World>, begun: seq<Move>, t: ThreadId, start: Start, target: Target,
    managers: map<ClusterId, ClientId>, clients: map<ClientId, Client>)
    returns (worlds: seq<World>, moves: seq<Move>)
    requires Leads(w, first, before, begun, t, AddWaiting(target), managers, clients)
    ensures Leads(w, first, worlds, moves, t,
      if !(target.running || target.ignoreStatus) || target.cluster in managers then AddLeaving
      else AddBuilding(target.cluster), managers, clients)
  {
    worlds, moves := Then(w, before, begun, t, start, None, AddWaiting(target), managers, clients);
    worlds, moves := Then(w, worlds, moves, t, start, None, AddEntered(target), managers, clients);
    if target.running || target.ignoreStatus {
      worlds, moves := Then(w, worlds, moves, t, start, None, AddLooking(target.cluster), managers, clients);
      worlds, moves := Then(w, worlds, moves, t, start, None, AddReading(target.cluster), managers, clients);
    }
  }

  lemma AddBuilds(
    w: World, first: World, before: seq<World>, begun: seq<Move>, t: ThreadId, start: Start, cluster: ClusterId, c: ClientId,
    managers: map<ClusterId, ClientId>, clients: map<ClientId, Client>)
    returns (worlds: seq<World>, moves: seq<Move>)
    requires Leads(w, first, before, begun, t, AddBuilding(cluster), managers, clients) && c !in clients
    ensures Leads(w, first, worlds, moves, t, AddLeaving, managers[cluster := c], clients[c := Client(cluster, 0)])
  {
    var clients' := clients[c := Client(cluster, 0)];
    worlds, moves := Then(w, before, begun, t, start, Some(c), AddBuilding(cluster), managers, clients);
    worlds, moves := Then(w, worlds, moves, t, start, None, AddStoring(c), managers, clients');
    worlds, moves := Then(w, worlds, moves, t, start, None, AddWriting(c), managers, clients');
  }

  lemma AddSection(
    w: World, first: World, before: seq<World>, begun: seq<Move>, t: ThreadId, start: Start, target: Target,
    built: Option<ClientId>, managers: map<ClusterId, ClientId>, clients: map<ClientId, Client>)
    returns (worlds: seq<World>, moves: seq<Move>)
    requires Leads(w, first, before, begun, t, AddWaiting(target), managers, clients)
    requires built.Some? ==> built.value !in clients
    ensures Leads(w, first, worlds, moves, t, Idle,
      AddedManagers(managers, target, built), AddedClients(managers, clients, target, built))
  {
    worlds, moves := AddLooksUp(w, first, before, begun, t, start, target, managers, clients);
    if (target.running || target.ignoreStatus) && target.cluster !in managers {
      if built.Some? {
        worlds, moves := AddBuilds(w, first, worlds, moves, t, start, target.cluster, built.value, managers, clients);
      } else {
        worlds, moves := Then(w, worlds, moves, t, start, None, AddBuilding(target.cluster), managers, clients);
      }
    }
    worlds, moves := Then(w, worlds, moves, t, start, None, AddLeaving,
      AddedManagers(managers, target, built), AddedClients(managers, clients, target, built));
  }

  /** An addition that runs alone: a running cluster, or one whose status is ignored, gets the client that is
      built, registered and open, if it had none; otherwise nothing changes. */
  lemma AddAlone(w: World, t: ThreadId, target: Target, built: Option<ClientId>)
    returns (worlds: seq<World>, moves: seq<Move>)
    requires At(w, t) == Idle && LocksFree(w) && (built.Some? ==> built.value !in w.clients)
    ensures Leads(w, w, worlds, moves, t, Idle,
      if (target.running || target.ignoreStatus) && target.cluster !in w.managers && built.Some?
      then w.managers[target.cluster := built.value] else w.managers,
      if (target.running || target.ignoreStatus) && target.cluster !in w.managers && built.Some?
      then w.clients[built.value := Client(target.cluster, 0)] else w.clients)
  {
    worlds, moves := Then(w, [w], [], t, Add(target), None, Idle, w.managers, w.clients);
    worlds, moves := AddSection(w, w, worlds, moves, t, Add(target), target, built, w.managers, w.clients);
  }

  function RemovedManagers(managers: map<ClusterId, ClientId>, cluster: ClusterId): map<ClusterId, ClientId> {
    managers - {cluster}
  }

  /** The cluster's client, if it has one, closed once more. */
  function RemovedClients(managers: map<ClusterId, ClientId>, clients: map<ClientId, Client>, cluster: ClusterId)
    : map<ClientId, Client>
  {
    if cluster in managers && managers[cluster] in clients then
      var c := managers[cluster];
      clients[c := clients[c].(closes := clients[c].closes + 1)]
    else clients
  }

  lemma RemoveLooksUp(
    w: World, first: World, before: seq<World>, begun: seq<Move>, t: ThreadId, start: Start, cluster: ClusterId,
    after: Option<Target>, managers: map<ClusterId, ClientId>, clients: map<ClientId, Client>)
    returns (worlds: seq<World>, moves: seq<Move>)
    requires Leads(w, first, before, begun, t, RemoveWaiting(cluster, after), managers, clients)
    ensures Leads(w, first, worlds, moves, t,
      if cluster in managers then RemoveDeleting(cluster, managers[cluster], after) else RemoveLeaving(after),
      managers, clients)
  {
    worlds, moves := Then(w, before, begun, t, start, None, RemoveWaiting(cluster, after), managers, clients);
    worlds, moves := Then(w, worlds, moves, t, start, None, RemoveLooking(cluster, after), managers, clients);
    worlds, moves := Then(w, worlds, moves, t, start, None, RemoveReading(cluster, after), managers, clients);
  }

  lemma RemoveCloses(
    w: World, first: World, before: seq<World>, begun: seq<Move>, t: ThreadId, start: Start, cluster: ClusterId,
    after: Option<Target>, managers: map<ClusterId, ClientId>, clients: map<ClientId, Client>)
    returns (worlds: seq<World>, moves: seq<Move>)
    requires cluster in managers && managers[cluster] in clients
    requires Leads(w, first, before, begun, t, RemoveDeleting(cluster, managers[cluster], after), managers, clients)
    ensures Leads(w, first, worlds, moves, t, RemoveLeaving(after),
      RemovedManagers(managers, cluster), RemovedClients(managers, clients, cluster))
  {
    var c := managers[cluster];
    worlds, moves := Then(w, before, begun, t, start, None, RemoveDeleting(cluster, c, after), managers, clients);
    worlds, moves := Then(w, worlds, moves, t, start, None, RemoveClosing(c, after), managers - {cluster}, clients);
  }

  lemma RemoveSection(
    w: World, first: World, before: seq<World>, begun: seq<Move>, t: ThreadId, start: Start, cluster: ClusterId,
    after: Option<Target>, managers: map<ClusterId, ClientId>, clients: map<ClientId, Client>)
    returns (worlds: seq<World>, moves: seq<Move>)
    requires Leads(w, first, before, begun, t, RemoveWaiting(cluster, after), managers, clients)
    requires cluster in managers ==> managers[cluster] in clients
    ensures Leads(w, first, worlds, moves, t, if after.Some? then AddWaiting(after.value) else Idle,
      RemovedManagers(managers, cluster), RemovedClients(managers, clients, cluster))
  {
    worlds, moves := RemoveLooksUp(w, first, before, begun, t, start, cluster, after, managers, clients);
    var managers', clients' := RemovedManagers(managers, cluster), RemovedClients(managers, clients, cluster);
    if cluster in managers {
      worlds, moves := RemoveCloses(w, first, worlds, moves, t, start, cluster, after, managers, clients);
    } else {
      assert managers' == managers;
    }
    worlds, moves := Then(w, worlds, moves, t, start, None, RemoveLeaving(after), managers', clients');
  }

  /** A removal that runs alone takes the cluster's client out of the map and closes it once. */
  lemma RemoveAlone(w: World, t: ThreadId, cluster: ClusterId) returns (worlds: seq<World>, moves: seq<Move>)
    requires At(w, t) == Idle && LocksFree(w) && (cluster in w.managers ==> w.managers[cluster] in w.clients)
    ensures Leads(w, w, worlds, moves, t, Idle,
      RemovedManagers(w.managers, cluster), RemovedClients(w.managers, w.clients, cluster))
  {
    worlds, moves := Then(w, [w], [], t, Remove(cluster), None, Idle, w.managers, w.clients);
    worlds, moves := RemoveSection(w, w, worlds, moves, t, Remove(cluster), cluster, None, w.managers, w.clients);
  }

  /** An update that runs alone is a removal and then an addition. */
  lemma UpdateAlone(w: World, t: ThreadId, target: Target, built: Option<ClientId>)
    returns (worlds: seq<World>, moves: seq<Move>)
    requires At(w, t) == Idle && LocksFree(w) && (built.Some? ==> built.value !in w.clients)
    requires target.cluster in w.managers ==> w.managers[target.cluster] in w.clients
    ensures var managers := RemovedManagers(w.managers, target.cluster);
            var clients := RemovedClients(w.managers, w.clients, target.cluster);
            Leads(w, w, worlds, moves, t, Idle,
              AddedManagers(managers, target, built), AddedClients(managers, clients, target, built))
  {
    worlds, moves := Then(w, [w], [], t, Update(target), None, Idle, w.managers, w.clients);
    worlds, moves := RemoveSection(w, w, worlds, moves, t, Update(target), target.cluster, Some(target), w.managers, w.clients);
    worlds, moves := AddSection(w, w, worlds, moves, t, Update(target), target, built,
      RemovedManagers(w.managers, target.cluster), RemovedClients(w.managers, w.clients, target.cluster));
  }

  /** A lookup changes nothing. */
  lemma GetAlone(w: World, t: ThreadId, cluster: ClusterId) returns (worlds: seq<World>, moves: seq<Move>)
    requires At(w, t) == Idle && LocksFree(w)
    ensures Leads(w, w, worlds, moves, t, Idle, w.managers, w.clients)
  {
    worlds, moves := Then(w, [w], [], t, Get(cluster), None, Idle, w.managers, w.clients);
    worlds, moves := Then(w, worlds, moves, t, Get(cluster), None, GetWaiting(cluster), w.managers, w.clients);
    worlds, moves := Then(w, worlds, moves, t, Get(cluster), None, GetReading(cluster), w.managers, w.clients);
  }
}
