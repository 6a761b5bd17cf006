/**
 The machines of a cluster: the first one made is its first node and a control-plane, and they are
 deployed first node, control-planes, workers (pkg/kubeserver/models/machines.go:291-368,
 pkg/kubeserver/models/clusters.go:1567-1616 and 1762-1862).
 */
module Machines {
  import opened Wrappers

  type ClusterId = nat

  const CONTROLPLANE := "controlplane"
  const NODE := "node"

  datatype Machine = Machine(cluster: ClusterId, name: string, role: string, firstNode: bool, running: bool) {
    predicate IsControlplane() { role == CONTROLPLANE }
  }

  /** What a machine is created from. */
  datatype MachineData = MachineData(name: string, role: string)

  /** The members with a property, in list order. */
  function Filter<T>(s: seq<T>, p: T -> bool): seq<T> {
    if s == [] then [] else (if p(s[0]) then [s[0]] else []) + Filter(s[1..], p)
  }

  lemma {:induction false} FilterAppend<T>(a: seq<T>, b: seq<T>, p: T -> bool)
    ensures Filter(a + b, p) == Filter(a, p) + Filter(b, p)
  {
    if a == [] {
      assert a + b == b;
    } else {
      var h := if p(a[0]) then [a[0]] else [];
      FilterAppend(a[1..], b, p);
      assert (a + b)[0] == a[0] && (a + b)[1..] == a[1..] + b;
      assert Filter(a + b, p) == h + Filter(a[1..] + b, p);
      assert Filter(a, p) == h + Filter(a[1..], p);
    }
  }

  lemma FilterOne<T>(s: seq<T>, i: nat, p: T -> bool)
    requires i < |s|
    ensures Filter(s[..i + 1], p) == Filter(s[..i], p) + if p(s[i]) then [s[i]] else []
  {
    assert s[..i + 1] == s[..i] + [s[i]];
    FilterAppend(s[..i], [s[i]], p);
  }

  lemma {:induction false} FilterMembers<T>(s: seq<T>, p: T -> bool)
    ensures forall x :: x in Filter(s, p) <==> x in s && p(x)
  {
    if s != [] {
      FilterMembers(s[1..], p);
      assert forall x :: x in s <==> x == s[0] || x in s[1..];
    }
  }

  lemma {:induction false} NonePass<T>(s: seq<T>, p: T -> bool)
    requires forall i :: 0 <= i < |s| ==> !p(s[i])
    ensures Filter(s, p) == []
  {
    if s != [] {
      NonePass(s[1..], p);
    }
  }

  function InCluster(cluster: ClusterId): Machine -> bool { (m: Machine) => m.cluster == cluster }

  function OfCluster(ms: seq<Machine>, cluster: ClusterId): seq<Machine> {
    Filter(ms, InCluster(cluster))
  }

  // ----- the first node -----

  predicate ValidRole(role: string) {
    role == CONTROLPLANE || role == NODE
  }

  /** What ValidateCreateData makes of the first_node key; None refuses the role. */
  function FirstNodeRule(ms: seq<Machine>, cluster: ClusterId, role: string): Option<bool> {
    if !ValidRole(role) then None
    else if OfCluster(ms, cluster) == [] && role != CONTROLPLANE then None
    else Some(OfCluster(ms, cluster) == [])
  }

  /** A control-plane is accepted anywhere and a node beside other machines alone, any other role never; the
      first machine of a cluster becomes its first node. */
  lemma FirstNodeRuleIff(ms: seq<Machine>, cluster: ClusterId, role: string)
    ensures FirstNodeRule(ms, cluster, role).Some? <==>
      role == "controlplane" || (role == "node" && exists m :: m in ms && m.cluster == cluster)
    ensures FirstNodeRule(ms, cluster, role).Some? ==>
      (FirstNodeRule(ms, cluster, role).value <==> forall m :: m in ms ==> m.cluster != cluster)
  {
    var mine := OfCluster(ms, cluster);
    FilterMembers(ms, InCluster(cluster));
    assert mine != [] ==> mine[0] in mine;
  }

  /** A cluster has at most one first node, and it is a control-plane. */
  ghost predicate OneFirstNode(ms: seq<Machine>, cluster: ClusterId) {
    && (forall m :: m in ms && m.cluster == cluster && m.firstNode ==> m.IsControlplane())
    && forall i, j :: 0 <= i < j < |ms| && ms[i].cluster == cluster && ms[j].cluster == cluster ==>
                        !(ms[i].firstNode && ms[j].firstNode)
  }

  predicate SameIdentity(m: Machine, m': Machine) {
    m'.cluster == m.cluster && m'.role == m.role && m'.firstNode == m.firstNode
  }

  /** A create, a delete, or a status change. */
  ghost predicate Step(ms: seq<Machine>, ms': seq<Machine>) {
    || (exists m :: ms' == ms + [m] && FirstNodeRule(ms, m.cluster, m.role) == Some(m.firstNode))
    || (exists i :: 0 <= i < |ms| && ms' == ms[..i] + ms[i + 1..])
    || (exists i, m :: 0 <= i < |ms| && SameIdentity(ms[i], m) && ms' == ms[i := m])
  }

  lemma CreateKeepsOneFirstNode(ms: seq<Machine>, m: Machine, cluster: ClusterId)
    requires OneFirstNode(ms, cluster) && FirstNodeRule(ms, m.cluster, m.role) == Some(m.firstNode)
    ensures OneFirstNode(ms + [m], cluster)
  {
    FilterMembers(ms, InCluster(m.cluster));
    if m.cluster == cluster && m.firstNode {
      forall k | 0 <= k < |ms| ensures ms[k].cluster != cluster {
        assert ms[k] in ms && !InCluster(cluster)(ms[k]);
      }
    }
  }

  lemma DeleteKeepsOneFirstNode(ms: seq<Machine>, i: nat, cluster: ClusterId)
    requires OneFirstNode(ms, cluster) && i < |ms|
    ensures OneFirstNode(ms[..i] + ms[i + 1..], cluster)
  {
    var ms' := ms[..i] + ms[i + 1..];
    assert forall k :: 0 <= k < |ms'| ==> ms'[k] == ms[if k < i then k else k + 1];
  }

  lemma UpdateKeepsOneFirstNode(ms: seq<Machine>, i: nat, m: Machine, cluster: ClusterId)
    requires OneFirstNode(ms, cluster) && i < |ms| && SameIdentity(ms[i], m)
    ensures OneFirstNode(ms[i := m], cluster)
  {
    var ms' := ms[i := m];
    assert forall k :: 0 <= k < |ms| ==> SameIdentity(ms[k], ms'[k]);
    forall x | x in ms' && x.cluster == cluster && x.firstNode ensures x.IsControlplane() {
      assert x == m || x in ms;
      assert ms[i] in ms;
    }
  }

  lemma StepKeepsOneFirstNode(ms: seq<Machine>, ms': seq<Machine>, cluster: ClusterId)
    requires Step(ms, ms') && OneFirstNode(ms, cluster)
    ensures OneFirstNode(ms', cluster)
  {
    if m :| ms' == ms + [m] && FirstNodeRule(ms, m.cluster, m.role) == Some(m.firstNode) {
      CreateKeepsOneFirstNode(ms, m, cluster);
    } else if i :| 0 <= i < |ms| && ms' == ms[..i] + ms[i + 1..] {
      DeleteKeepsOneFirstNode(ms, i, cluster);
    } else {
      var i, m :| 0 <= i < |ms| && SameIdentity(ms[i], m) && ms' == ms[i := m];
      UpdateKeepsOneFirstNode(ms, i, m, cluster);
    }
  }

  ghost predicate IsRun(run: seq<seq<Machine>>) {
    |run| > 0 && forall i :: 0 <= i < |run| - 1 ==> Step(run[i], run[i + 1])
  }

  /** Over any run from no machines, every cluster has at most one first node at every moment. */
  lemma {:induction false} RunsKeepOneFirstNode(run: seq<seq<Machine>>, i: nat, cluster: ClusterId)
    requires IsRun(run) && run[0] == [] && i < |run|
    ensures OneFirstNode(run[i], cluster)
  {
    if i > 0 {
      RunsKeepOneFirstNode(run, i - 1, cluster);
      StepKeepsOneFirstNode(run[i - 1], run[i], cluster);
    }
  }

  ghost predicate HasFirstNode(ms: seq<Machine>, cluster: ClusterId) {
    exists m :: m in ms && m.cluster == cluster && m.firstNode
  }

  /** A cluster that lost its first node gets none again until its last machine is gone. */
  lemma {:induction false} LostFirstNodeStaysLost(run: seq<seq<Machine>>, i: nat, cluster: ClusterId)
    requires IsRun(run) && i < |run| && !HasFirstNode(run[0], cluster)
    requires forall k :: 0 <= k < i ==> OfCluster(run[k], cluster) != []
    ensures !HasFirstNode(run[i], cluster)
  {
    if i > 0 {
      LostFirstNodeStaysLost(run, i - 1, cluster);
      var ms, ms' := run[i - 1], run[i];
      assert Step(ms, ms');
      forall m' | m' in ms' && m'.cluster == cluster ensures !m'.firstNode {
        if m' !in ms {
          if m :| ms' == ms + [m] && FirstNodeRule(ms, m.cluster, m.role) == Some(m.firstNode) {
            assert m' == m;
          } else {
            var k :| 0 <= k < |ms'| && ms'[k] == m';
            assert exists m :: m in ms && SameIdentity(m, m');
          }
        }
      }
    }
  }

  // ----- deletes that respect the guard -----

  function OfOthers(ms: seq<Machine>, cluster: ClusterId): seq<Machine> {
    Filter(ms, OutOfCluster(cluster))
  }

  function OutOfCluster(cluster: ClusterId): Machine -> bool { (m: Machine) => m.cluster != cluster }

  /** ValidateDeleteMachines: a first node goes only when all machines of its cluster are asked for. Other
      machines go one by one; a delete of all of them is one step. */
  ghost predicate GuardedStep(ms: seq<Machine>, ms': seq<Machine>) {
    || (exists m :: ms' == ms + [m] && FirstNodeRule(ms, m.cluster, m.role) == Some(m.firstNode))
    || (exists i :: 0 <= i < |ms| && !ms[i].firstNode && ms' == ms[..i] + ms[i + 1..])
    || (exists c :: ms' == OfOthers(ms, c))
    || (exists i, m :: 0 <= i < |ms| && SameIdentity(ms[i], m) && ms' == ms[i := m])
  }

  /** A cluster with machines has exactly one first node, a control-plane. */
  ghost predicate ExactlyOneFirstNode(ms: seq<Machine>, cluster: ClusterId) {
    && OneFirstNode(ms, cluster)
    && (forall m :: m in ms && m.cluster == cluster ==> HasFirstNode(ms, cluster))
  }

  lemma DropKeepsExactlyOne(ms: seq<Machine>, c: ClusterId, cluster: ClusterId)
    requires ExactlyOneFirstNode(ms, cluster)
    ensures ExactlyOneFirstNode(OfOthers(ms, c), cluster)
  {
    var ms' := OfOthers(ms, c);
    var q := (m: Machine) => m.cluster == cluster && m.firstNode;
    FilterMembers(ms, OutOfCluster(c));
    assert AtMostOne(ms, q);
    FilterKeepsAtMostOne(ms, OutOfCluster(c), q);
    forall i, j | 0 <= i < j < |ms'| && ms'[i].cluster == cluster && ms'[j].cluster == cluster
      ensures !(ms'[i].firstNode && ms'[j].firstNode)
    {
      assert !(q(ms'[i]) && q(ms'[j]));
    }
    if m :| m in ms' && m.cluster == cluster {
      var f :| f in ms && f.cluster == cluster && f.firstNode;
      assert f in ms';
    }
  }

  lemma OtherKeepsFirst(ms: seq<Machine>, i: nat, cluster: ClusterId)
    requires i < |ms| && !ms[i].firstNode && HasFirstNode(ms, cluster)
    ensures HasFirstNode(ms[..i] + ms[i + 1..], cluster)
  {
    var f :| f in ms && f.cluster == cluster && f.firstNode;
    var k :| 0 <= k < |ms| && ms[k] == f;
    var ms' := ms[..i] + ms[i + 1..];
    assert ms'[if k < i then k else k - 1] == f;
    assert f in ms';
  }

  lemma CreateMakesFirst(ms: seq<Machine>, m: Machine, cluster: ClusterId)
    requires ExactlyOneFirstNode(ms, cluster) && FirstNodeRule(ms, m.cluster, m.role) == Some(m.firstNode)
    ensures forall x :: x in ms + [m] && x.cluster == cluster ==> HasFirstNode(ms + [m], cluster)
  {
    assert m in ms + [m];
    if f :| f in ms && f.cluster == cluster {
      var g :| g in ms && g.cluster == cluster && g.firstNode;
      assert g in ms + [m];
    } else {
      FilterMembers(ms, InCluster(cluster));
      if m.cluster == cluster {
        NonePass(ms, InCluster(cluster));
      }
    }
  }

  lemma UpdateKeepsFirst(ms: seq<Machine>, i: nat, m: Machine, cluster: ClusterId)
    requires i < |ms| && SameIdentity(ms[i], m) && HasFirstNode(ms, cluster)
    ensures HasFirstNode(ms[i := m], cluster)
  {
    var f :| f in ms && f.cluster == cluster && f.firstNode;
    var k :| 0 <= k < |ms| && ms[k] == f;
    assert ms[i := m][k] in ms[i := m];
  }

  lemma GuardedKeepsExactlyOne(ms: seq<Machine>, ms': seq<Machine>, cluster: ClusterId)
    requires GuardedStep(ms, ms') && ExactlyOneFirstNode(ms, cluster)
    ensures ExactlyOneFirstNode(ms', cluster)
  {
    if m :| ms' == ms + [m] && FirstNodeRule(ms, m.cluster, m.role) == Some(m.firstNode) {
      CreateKeepsOneFirstNode(ms, m, cluster);
      CreateMakesFirst(ms, m, cluster);
    } else if i :| 0 <= i < |ms| && !ms[i].firstNode && ms' == ms[..i] + ms[i + 1..] {
      DeleteKeepsOneFirstNode(ms, i, cluster);
      if x :| x in ms' && x.cluster == cluster {
        assert x in ms;
        OtherKeepsFirst(ms, i, cluster);
      }
    } else if c :| ms' == OfOthers(ms, c) {
      DropKeepsExactlyOne(ms, c, cluster);
    } else {
      var i, m :| 0 <= i < |ms| && SameIdentity(ms[i], m) && ms' == ms[i := m];
      UpdateKeepsOneFirstNode(ms, i, m, cluster);
      if x :| x in ms' && x.cluster == cluster {
        assert x in ms || x == m;
        assert ms[i] in ms;
        UpdateKeepsFirst(ms, i, m, cluster);
      }
    }
  }

  ghost predicate IsGuardedRun(run: seq<seq<Machine>>) {
    |run| > 0 && run[0] == [] && forall i :: 0 <= i < |run| - 1 ==> GuardedStep(run[i], run[i + 1])
  }

  /** Over runs whose deletes respect the guard, every cluster with machines has exactly one first node. */
  lemma {:induction false} GuardedRunsKeepExactlyOne(run: seq<seq<Machine>>, i: nat, cluster: ClusterId)
    requires IsGuardedRun(run) && i < |run|
    ensures ExactlyOneFirstNode(run[i], cluster)
  {
    if i > 0 {
      GuardedRunsKeepExactlyOne(run, i - 1, cluster);
      GuardedKeepsExactlyOne(run[i - 1], run[i], cluster);
    }
  }

  /** So in such a run there is a machine every deploy finds its list with: once it is running or asked for. */
  lemma GuardedDeployFindsList(run: seq<seq<Machine>>, i: nat, cluster: ClusterId) returns (first: Machine)
    requires IsGuardedRun(run) && i < |run| && OfCluster(run[i], cluster) != []
    ensures first in OfCluster(run[i], cluster) && first.firstNode && first.IsControlplane()
    ensures forall names :: Included(first, names) ==> Firsts(IncludedOf(OfCluster(run[i], cluster), names)) != []
  {
    var ms := run[i];
    var mine := OfCluster(ms, cluster);
    GuardedRunsKeepExactlyOne(run, i, cluster);
    FilterMembers(ms, InCluster(cluster));
    assert mine[0] in mine;
    first :| first in ms && first.cluster == cluster && first.firstNode;
    forall names | Included(first, names) ensures Firsts(IncludedOf(mine, names)) != [] {
      FilterMembers(mine, InList(names));
      FilterMembers(IncludedOf(mine, names), IsFirst);
      assert first in Firsts(IncludedOf(mine, names));
    }
  }

  // ----- deploy order -----

  predicate Included(m: Machine, names: seq<string>) {
    m.running || m.name in names
  }

  function InList(names: seq<string>): Machine -> bool { (m: Machine) => Included(m, names) }

  predicate IsFirst(m: Machine) { m.firstNode }

  predicate IsControl(m: Machine) { !m.firstNode && m.IsControlplane() }

  predicate IsWorker(m: Machine) { !m.firstNode && !m.IsControlplane() }

  function IncludedOf(ms: seq<Machine>, names: seq<string>): seq<Machine> {
    Filter(ms, InList(names))
  }

  function Firsts(ms: seq<Machine>): seq<Machine> { Filter(ms, IsFirst) }

  function Controls(ms: seq<Machine>): seq<Machine> {
    Filter(ms, IsControl)
  }

  function Workers(ms: seq<Machine>): seq<Machine> {
    Filter(ms, IsWorker)
  }

  /** Each machine is in exactly one of the three groups. */
  lemma {:induction false} GroupsPartition(ms: seq<Machine>)
    ensures multiset(ms) == multiset(Firsts(ms)) + multiset(Controls(ms)) + multiset(Workers(ms))
  {
    if ms != [] {
      GroupsPartition(ms[1..]);
      assert ms == [ms[0]] + ms[1..];
    }
  }

  /** The three local variables after the machines in included: the last first node, the other
      control-planes, the workers. */
  ghost predicate Grouped(included: seq<Machine>, primary: Option<Machine>, cs: seq<Machine>, ns: seq<Machine>) {
    && cs == Controls(included) && ns == Workers(included)
    && primary == if Firsts(included) == [] then None else Some(Firsts(included)[|Firsts(included)| - 1])
  }

  /** GetDeployMachines. It fails exactly when no first node is included; otherwise the included
      machines come first node, control-planes, workers, each group in list order, and none is missing
      or repeated if and only if only one first node is included. */
  method GetDeployMachines(ms: seq<Machine>, names: seq<string>) returns (r: Option<seq<Machine>>)
    ensures r.None? <==> Firsts(IncludedOf(ms, names)) == []
    ensures r.Some? ==> InDeployOrder(IncludedOf(ms, names), r.value)
    ensures r.Some? ==> (multiset(r.value) == multiset(IncludedOf(ms, names)) <==> |Firsts(IncludedOf(ms, names))| == 1)
    ensures r.None? <==> forall m :: m in ms && m.firstNode ==> !m.running && m.name !in names
    ensures r.Some? ==> DeploysWanted(ms, names, r.value)
  {
    var primary: Option<Machine> := None;
    var cs: seq<Machine>, ns: seq<Machine> := [], [];
    ghost var included := [];
    for i := 0 to |ms|
      invariant included == IncludedOf(ms[..i], names) && Grouped(included, primary, cs, ns)
    {
      var m := ms[i];
      FilterOne(ms, i, InList(names));
      var wanted := m.running;
      if !wanted {
        wanted := IsInclude(m, names);
      }
      if !wanted {
        continue;
      }
      AddOne(included, m, primary, cs, ns);
      included := included + [m];
      if m.firstNode {
        primary := Some(m);
        continue;
      }
      if m.IsControlplane() {
        cs := cs + [m];
      } else {
        ns := ns + [m];
      }
    }
    assert ms[..|ms|] == ms;
    FirstIncludedIff(ms, names);
    if primary.None? {
      return None;
    }
    DeployListed(included, primary.value, cs, ns);
    DeployOrderMeans(ms, names, [primary.value] + cs + ns);
    return Some([primary.value] + cs + ns);
  }

  ghost predicate InDeployOrder(included: seq<Machine>, r: seq<Machine>) {
    && |r| > 0 && r[0].firstNode && r[0] in included
    && Firsts(included) != [] && r[0] == Firsts(included)[|Firsts(included)| - 1]
    && r[1..] == Controls(included) + Workers(included)
  }

  /** A first node leads, all others that run or are asked for follow, and control-planes are before workers. */
  ghost predicate DeploysWanted(ms: seq<Machine>, names: seq<string>, r: seq<Machine>) {
    && |r| > 0 && r[0].firstNode
    && (forall m :: m in r ==> m in ms && (m.running || m.name in names))
    && (forall m :: m in ms && !m.firstNode && (m.running || m.name in names) ==> m in r)
    && (forall i :: 0 < i < |r| ==> !r[i].firstNode)
    && (forall i, j :: 0 < i < j < |r| && r[j].role == CONTROLPLANE ==> r[i].role == CONTROLPLANE)
  }

  lemma FirstIncludedIff(ms: seq<Machine>, names: seq<string>)
    ensures Firsts(IncludedOf(ms, names)) == [] <==>
      forall m :: m in ms && m.firstNode ==> !m.running && m.name !in names
  {
    var firsts := Firsts(IncludedOf(ms, names));
    FilterMembers(ms, InList(names));
    FilterMembers(IncludedOf(ms, names), IsFirst);
    assert firsts != [] ==> firsts[0] in firsts;
  }

  lemma DeployOrderMeans(ms: seq<Machine>, names: seq<string>, r: seq<Machine>)
    requires InDeployOrder(IncludedOf(ms, names), r)
    ensures DeploysWanted(ms, names, r)
  {
    var included := IncludedOf(ms, names);
    var cs, ns := Controls(included), Workers(included);
    FilterMembers(ms, InList(names));
    FilterMembers(included, IsControl);
    FilterMembers(included, IsWorker);
    assert r == [r[0]] + cs + ns;
    forall i | 0 < i < |r| ensures if i <= |cs| then IsControl(r[i]) else IsWorker(r[i]) {
      assert i <= |cs| ==> r[i] == cs[i - 1];
      assert i > |cs| ==> r[i] == ns[i - 1 - |cs|];
    }
    forall m | m in r ensures m in included {
      assert m == r[0] || m in cs || m in ns;
    }
  }

  /** isInclude, by name. */
  method IsInclude(m: Machine, names: seq<string>) returns (r: bool)
    ensures r <==> m.name in names
  {
    for i := 0 to |names|
      invariant m.name !in names[..i]
    {
      if m.name == names[i] {
        return true;
      }
    }
    return false;
  }

  lemma AddOne(included: seq<Machine>, m: Machine, primary: Option<Machine>, cs: seq<Machine>, ns: seq<Machine>)
    requires Grouped(included, primary, cs, ns)
    ensures m.firstNode ==> Grouped(included + [m], Some(m), cs, ns)
    ensures !m.firstNode && m.IsControlplane() ==> Grouped(included + [m], primary, cs + [m], ns)
    ensures !m.firstNode && !m.IsControlplane() ==> Grouped(included + [m], primary, cs, ns + [m])
  {
    FilterAppend(included, [m], IsFirst);
    FilterAppend(included, [m], IsControl);
    FilterAppend(included, [m], IsWorker);
  }

  lemma DeployListed(included: seq<Machine>, first: Machine, cs: seq<Machine>, ns: seq<Machine>)
    requires Grouped(included, Some(first), cs, ns)
    ensures InDeployOrder(included, [first] + cs + ns)
    ensures multiset([first] + cs + ns) == multiset(included) <==> |Firsts(included)| == 1
  {
    FilterMembers(included, IsFirst);
    assert first in Firsts(included);
    assert ([first] + cs + ns)[1..] == cs + ns;
    GroupsPartition(included);
    OneOfThem(multiset(included), Firsts(included), first, cs, ns);
  }

  /** One machine of a group, with all the other groups, is everything only if the group is that one. */
  lemma OneOfThem(all: multiset<Machine>, firsts: seq<Machine>, first: Machine, cs: seq<Machine>, ns: seq<Machine>)
    requires first in firsts && all == multiset(firsts) + multiset(cs) + multiset(ns)
    ensures multiset([first] + cs + ns) == all <==> |firsts| == 1
  {
    assert |all| == |firsts| + |cs| + |ns|;
    assert |multiset([first] + cs + ns)| == 1 + |cs| + |ns|;
    if |firsts| == 1 {
      assert firsts == [first];
    }
  }

  ghost predicate AtMostOne<T>(s: seq<T>, q: T -> bool) {
    forall i, j :: 0 <= i < j < |s| ==> !(q(s[i]) && q(s[j]))
  }

  lemma {:induction false} FilterIndex<T>(s: seq<T>, p: T -> bool, i: nat) returns (j: nat)
    requires i < |Filter(s, p)|
    ensures j < |s| && s[j] == Filter(s, p)[i]
  {
    if p(s[0]) && i == 0 {
      j := 0;
    } else {
      j := FilterIndex(s[1..], p, if p(s[0]) then i - 1 else i);
      j := j + 1;
    }
  }

  lemma {:induction false} FilterKeepsAtMostOne<T>(s: seq<T>, p: T -> bool, q: T -> bool)
    requires AtMostOne(s, q)
    ensures AtMostOne(Filter(s, p), q)
  {
    if s != [] {
      var rest := Filter(s[1..], p);
      FilterKeepsAtMostOne(s[1..], p, q);
      forall i | 0 <= i < |rest| && q(s[0]) ensures !q(rest[i]) {
        var j := FilterIndex(s[1..], p, i);
        assert s[1..][j] == s[j + 1];
      }
    }
  }

  lemma {:induction false} AtMostOnePasses<T>(s: seq<T>, q: T -> bool)
    requires AtMostOne(s, q)
    ensures |Filter(s, q)| <= 1
  {
    if s != [] {
      AtMostOnePasses(s[1..], q);
      if q(s[0]) { NonePass(s[1..], q); }
    }
  }

  /** Over any run, whatever machines are asked for, at most one included machine of a cluster is a
      first node and that one is a control-plane: so a deploy list that is found is complete. */
  lemma DeployListsAreComplete(run: seq<seq<Machine>>, i: nat, cluster: ClusterId, names: seq<string>)
    requires IsRun(run) && run[0] == [] && i < |run|
    ensures var firsts := Firsts(IncludedOf(OfCluster(run[i], cluster), names));
            |firsts| <= 1 && forall m :: m in firsts ==> m.IsControlplane()
  {
    var ms := run[i];
    var mine := OfCluster(ms, cluster);
    RunsKeepOneFirstNode(run, i, cluster);
    FilterMembers(ms, InCluster(cluster));
    var q := (m: Machine) => m.cluster == cluster && m.firstNode;
    FilterKeepsAtMostOne(ms, InCluster(cluster), q);
    forall k | 0 <= k < |mine| ensures q(mine[k]) <==> IsFirst(mine[k]) {
      assert mine[k] in mine && InCluster(cluster)(mine[k]);
    }
    assert AtMostOne(mine, IsFirst);
    FilterKeepsAtMostOne(mine, InList(names), IsFirst);
    AtMostOnePasses(IncludedOf(mine, names), IsFirst);
    FilterMembers(mine, InList(names));
    FilterMembers(IncludedOf(mine, names), IsFirst);
  }

  // ----- creating machines -----

  predicate MakesControl(d: MachineData) { d.role == CONTROLPLANE }

  predicate MakesNode(d: MachineData) { d.role != CONTROLPLANE }

  function ControlData(data: seq<MachineData>): seq<MachineData> { Filter(data, MakesControl) }

  function NodeData(data: seq<MachineData>): seq<MachineData> { Filter(data, MakesNode) }

  /** The machines made from data for a cluster, the first of them its first node when it has none yet. */
  function Made(cluster: ClusterId, data: seq<MachineData>, first: bool): (r: seq<Machine>)
    ensures |r| == |data|
  {
    if data == [] then []
    else [Machine(cluster, data[0].name, data[0].role, first, false)] + Made(cluster, data[1..], false)
  }

  /** Runs of creates from ms to ms'. */
  ghost predicate Reaches(ms: seq<Machine>, ms': seq<Machine>, cluster: ClusterId) {
    && ms <= ms'
    && (forall i :: |ms| <= i < |ms'| ==>
          ms'[i].cluster == cluster && FirstNodeRule(ms'[..i], cluster, ms'[i].role) == Some(ms'[i].firstNode))
  }

  class MachineTable {
    var machines: seq<Machine>
    ghost var faults: nat

    constructor ()
      ensures machines == [] && faults == 0
    {
      machines, faults := [], 0;
    }

    /** A driver's validation or a storage call. */
    method Call() returns (ok: bool)
      modifies this`faults
      ensures if ok then faults == old(faults) else faults > old(faults)
    {
      if * {
        return true;
      }
      faults := faults + 1;
      return false;
    }

    /** GetClusterMachines. */
    method GetClusterMachines(cluster: ClusterId) returns (ms: seq<Machine>)
      ensures ms == OfCluster(machines, cluster)
    {
      ms := [];
      for i := 0 to |machines|
        invariant ms == OfCluster(machines[..i], cluster)
      {
        FilterOne(machines, i, InCluster(cluster));
        if machines[i].cluster == cluster {
          ms := ms + [machines[i]];
        }
      }
      assert machines[..|machines|] == machines;
    }

    /** ValidateCreateData, then the insert. */
    method Create(cluster: ClusterId, data: MachineData) returns (ok: bool)
      modifies this
      ensures ok ==> FirstNodeRule(old(machines), cluster, data.role).Some? && faults == old(faults)
      ensures ok ==> machines == old(machines) + [
        Machine(cluster, data.name, data.role, FirstNodeRule(old(machines), cluster, data.role).value, false)]
      ensures !ok ==> machines == old(machines)
      ensures !ok ==> FirstNodeRule(old(machines), cluster, data.role).None? || faults > old(faults)
      ensures faults == old(faults) ==> (ok <==>
        data.role == "controlplane" || (data.role == "node" && exists m :: m in old(machines) && m.cluster == cluster))
      ensures ok ==> (machines[|machines| - 1].firstNode <==> forall m :: m in old(machines) ==> m.cluster != cluster)
      ensures faults >= old(faults)
    {
      ok := false;
      FirstNodeRuleIff(machines, cluster, data.role);
      if data.role != CONTROLPLANE && data.role != NODE {
        return;
      }
      var existing := GetClusterMachines(cluster);
      if |existing| == 0 && data.role != CONTROLPLANE {
        return;
      }
      var firstNode := false;
      if |existing| == 0 {
        firstNode := true;
      }
      ok := Call();
      if ok {
        machines := machines + [Machine(cluster, data.name, data.role, firstNode, false)];
      }
    }

    /** The inner loop of createMachineRecords. */
    method CreateAll(cluster: ClusterId, data: seq<MachineData>) returns (ok: bool)
      modifies this
      ensures Reaches(old(machines), machines, cluster)
      ensures ok ==> machines == old(machines) + Made(cluster, data, OfCluster(old(machines), cluster) == [])
      ensures !ok && Acceptable(old(machines), cluster, data) ==> faults > old(faults)
      ensures faults >= old(faults)
    {
      ghost var was, empty := machines, OfCluster(machines, cluster) == [];
      for i := 0 to |data|
        invariant faults >= old(faults)
        invariant Reaches(was, machines, cluster)
        invariant machines + Made(cluster, data[i..], empty && i == 0) == was + Made(cluster, data, empty)
        invariant OfCluster(machines, cluster) == [] <==> empty && i == 0
      {
        ghost var before := machines;
        ok := Create(cluster, data[i]);
        if !ok {
          return;
        }
        ReachesOneMore(was, before, machines[|before|], cluster);
        MadeOneMore(cluster, before, data, i, empty && i == 0);
      }
      assert data[|data|..] == [];
      ok := true;
    }

    /** createMachineRecords: control-planes are made before the others, so on an empty cluster the
        first-node rule refuses none of them. */
    method CreateMachineRecords(cluster: ClusterId, data: seq<MachineData>) returns (ok: bool)
      modifies this
      ensures Reaches(old(machines), machines, cluster)
      ensures ok ==> machines
                     == old(machines) + Made(cluster, ControlData(data) + NodeData(data), OfCluster(old(machines), cluster) == [])
      ensures OfCluster(old(machines), cluster) == [] && ControlData(data) == [] ==> !ok && machines == old(machines)
      ensures !ok && (OfCluster(old(machines), cluster) != [] || ControlData(data) != [])
          && (forall d :: d in data ==> ValidRole(d.role))
        ==> faults > old(faults)
    {
      ghost var was := machines;
      var existing := GetClusterMachines(cluster);
      var controls, nodes := GroupCreateMachineDatas(data);
      if |existing| == 0 && |controls| == 0 {
        return false;
      }
      GroupsAcceptable(was, cluster, data);
      ok := CreateAll(cluster, controls);
      if !ok {
        return;
      }
      ghost var between := machines;
      ok := CreateAll(cluster, nodes);
      MadeAppend(cluster, controls, nodes, OfCluster(was, cluster) == []);
      ReachesThen(was, between, machines, cluster);
    }
  }

  /** The roles are known, and an empty cluster gets a control-plane first. */
  ghost predicate Acceptable(ms: seq<Machine>, cluster: ClusterId, data: seq<MachineData>) {
    && (forall d :: d in data ==> ValidRole(d.role))
    && (OfCluster(ms, cluster) == [] && data != [] ==> data[0].role == CONTROLPLANE)
  }

  /** Grouped, the data is acceptable to the first-node rule, and so are the workers after it. */
  lemma GroupsAcceptable(ms: seq<Machine>, cluster: ClusterId, data: seq<MachineData>)
    requires OfCluster(ms, cluster) != [] || ControlData(data) != []
    ensures var made := Made(cluster, ControlData(data), OfCluster(ms, cluster) == []);
            OfCluster(ms + made, cluster) != []
    ensures (forall d :: d in data ==> ValidRole(d.role)) ==>
      var made := Made(cluster, ControlData(data), OfCluster(ms, cluster) == []);
      Acceptable(ms, cluster, ControlData(data)) && Acceptable(ms + made, cluster, NodeData(data))
  {
    FilterMembers(data, MakesControl);
    FilterMembers(data, MakesNode);
    FilterAppend(ms, Made(cluster, ControlData(data), OfCluster(ms, cluster) == []), InCluster(cluster));
    if ControlData(data) != [] {
      assert ControlData(data)[0] in ControlData(data);
    }
  }

  lemma ReachesOneMore(a: seq<Machine>, b: seq<Machine>, m: Machine, cluster: ClusterId)
    requires Reaches(a, b, cluster)
    requires m.cluster == cluster && FirstNodeRule(b, cluster, m.role) == Some(m.firstNode)
    ensures Reaches(a, b + [m], cluster)
    ensures OfCluster(b + [m], cluster) != []
  {
    var c := b + [m];
    FilterAppend(b, [m], InCluster(cluster));
    assert c[..|b|] == b;
    assert forall k :: |a| <= k < |b| ==> c[..k] == b[..k];
  }

  /** GroupCreateMachineDatas. */
  method GroupCreateMachineDatas(data: seq<MachineData>) returns (controls: seq<MachineData>, nodes: seq<MachineData>)
    ensures controls == ControlData(data) && nodes == NodeData(data)
    ensures multiset(controls) + multiset(nodes) == multiset(data)
    ensures (forall d :: d in controls ==> d.role == "controlplane") && forall d :: d in nodes ==> d.role != "controlplane"
  {
    controls, nodes := [], [];
    for i := 0 to |data|
      invariant controls == ControlData(data[..i]) && nodes == NodeData(data[..i])
    {
      FilterOne(data, i, MakesControl);
      FilterOne(data, i, MakesNode);
      if data[i].role == CONTROLPLANE {
        controls := controls + [data[i]];
      } else {
        nodes := nodes + [data[i]];
      }
    }
    assert data[..|data|] == data;
    DataPartition(data);
  }

  lemma {:induction false} DataPartition(data: seq<MachineData>)
    ensures multiset(ControlData(data)) + multiset(NodeData(data)) == multiset(data)
    ensures forall d :: d in ControlData(data) ==> d.role == "controlplane"
    ensures forall d :: d in NodeData(data) ==> d.role != "controlplane"
  {
    FilterMembers(data, MakesControl);
    FilterMembers(data, MakesNode);
    if data != [] {
      DataPartition(data[1..]);
      assert data == [data[0]] + data[1..];
    }
  }

  lemma {:induction false} MadeAppend(cluster: ClusterId, a: seq<MachineData>, b: seq<MachineData>, first: bool)
    ensures Made(cluster, a + b, first) == Made(cluster, a, first) + Made(cluster, b, first && a == [])
  {
    if a == [] {
      assert a + b == b;
    } else {
      assert (a + b)[0] == a[0] && (a + b)[1..] == a[1..] + b;
      MadeAppend(cluster, a[1..], b, false);
    }
  }

  lemma MadeOneMore(cluster: ClusterId, ms: seq<Machine>, data: seq<MachineData>, i: nat, first: bool)
    requires i < |data|
    ensures ms + Made(cluster, data[i..], first)
            == ms + [Machine(cluster, data[i].name, data[i].role, first, false)] + Made(cluster, data[i + 1..], false)
  {
    assert data[i..][0] == data[i] && data[i..][1..] == data[i + 1..];
  }

  lemma ReachesThen(a: seq<Machine>, b: seq<Machine>, c: seq<Machine>, cluster: ClusterId)
    requires Reaches(a, b, cluster) && Reaches(b, c, cluster)
    ensures Reaches(a, c, cluster)
  {
    forall i | |a| <= i < |b| ensures c[..i] == b[..i] && c[i] == b[i] {}
  }

  /** Creating is a run of single creates, so it keeps the first-node invariant however far it got. */
  lemma {:induction false} CreatingIsARun(ms: seq<Machine>, ms': seq<Machine>, cluster: ClusterId, other: ClusterId)
    requires Reaches(ms, ms', cluster) && OneFirstNode(ms, other)
    ensures OneFirstNode(ms', other)
    decreases |ms'|
  {
    if |ms| < |ms'| {
      var n := |ms'| - 1;
      var before := ms'[..n];
      assert forall i :: |ms| <= i < n ==> before[..i] == ms'[..i];
      CreatingIsARun(ms, before, cluster, other);
      assert ms' == before + [ms'[n]];
      StepKeepsOneFirstNode(before, ms', other);
    } else {
      assert ms' == ms;
    }
  }

  /** Machines made for an empty cluster are deployed in the very order they were made. */
  lemma DeployOrderIsMakingOrder(cluster: ClusterId, data: seq<MachineData>, names: seq<string>)
    requires ControlData(data) != [] && forall d :: d in data ==> d.name in names
    ensures FirstOthersWorkers(Made(cluster, ControlData(data) + NodeData(data), true), names)
  {
    DataSplit(data, names);
    MadeInOrder(cluster, ControlData(data), NodeData(data), names);
  }

  lemma MadeInOrder(cluster: ClusterId, cs: seq<MachineData>, ns: seq<MachineData>, names: seq<string>)
    requires cs != [] && forall d :: d in cs ==> d.role == CONTROLPLANE && d.name in names
    requires forall d :: d in ns ==> d.role != CONTROLPLANE && d.name in names
    ensures FirstOthersWorkers(Made(cluster, cs + ns, true), names)
  {
    MadeSplit(cluster, cs, ns);
    assert cs[0] in cs;
    MadeLike(cluster, cs[1..], names, true);
    MadeLike(cluster, ns, names, false);
    FirstThenGroups(
      Machine(cluster, cs[0].name, cs[0].role, true, false), Made(cluster, cs[1..], false), Made(cluster, ns, false), names);
  }

  lemma MadeSplit(cluster: ClusterId, cs: seq<MachineData>, ns: seq<MachineData>)
    requires cs != []
    ensures Made(cluster, cs + ns, true)
            == [Machine(cluster, cs[0].name, cs[0].role, true, false)] + (Made(cluster, cs[1..], false) + Made(cluster, ns, false))
  {
    var all := cs + ns;
    assert all[0] == cs[0] && all[1..] == cs[1..] + ns;
    MadeAppend(cluster, cs[1..], ns, false);
  }

  /** All included, and listed as they are deployed. */
  ghost predicate FirstOthersWorkers(ms: seq<Machine>, names: seq<string>) {
    ms != [] && IncludedOf(ms, names) == ms && Firsts(ms) == [ms[0]] && Controls(ms) + Workers(ms) == ms[1..]
  }

  lemma DataSplit(data: seq<MachineData>, names: seq<string>)
    requires forall d :: d in data ==> d.name in names
    ensures forall d :: d in ControlData(data) ==> d.role == CONTROLPLANE && d.name in names
    ensures forall d :: d in NodeData(data) ==> d.role != CONTROLPLANE && d.name in names
  {
    FilterMembers(data, MakesControl);
    FilterMembers(data, MakesNode);
  }

  lemma FirstThenGroups(first: Machine, controls: seq<Machine>, nodes: seq<Machine>, names: seq<string>)
    requires first.firstNode && Included(first, names)
    requires IncludedOf(controls, names) == controls && Firsts(controls) == Workers(controls) == [] && Controls(controls) == controls
    requires IncludedOf(nodes, names) == nodes && Firsts(nodes) == Controls(nodes) == [] && Workers(nodes) == nodes
    ensures FirstOthersWorkers([first] + (controls + nodes), names)
  {
    GroupsAppend(controls, nodes, names);
    GroupsAppend([first], controls + nodes, names);
  }

  lemma GroupsAppend(a: seq<Machine>, b: seq<Machine>, names: seq<string>)
    ensures IncludedOf(a + b, names) == IncludedOf(a, names) + IncludedOf(b, names)
    ensures Firsts(a + b) == Firsts(a) + Firsts(b)
    ensures Controls(a + b) == Controls(a) + Controls(b) && Workers(a + b) == Workers(a) + Workers(b)
  {
    FilterAppend(a, b, InList(names));
    FilterAppend(a, b, IsFirst);
    FilterAppend(a, b, IsControl);
    FilterAppend(a, b, IsWorker);
  }

  /** Machines made after the first one, all of one role, form one group. */
  lemma {:induction false} MadeLike(cluster: ClusterId, data: seq<MachineData>, names: seq<string>, controls: bool)
    requires forall d :: d in data ==> d.name in names && (d.role == CONTROLPLANE <==> controls)
    ensures var ms := Made(cluster, data, false);
            && IncludedOf(ms, names) == ms && Firsts(ms) == []
            && Controls(ms) == (if controls then ms else []) && Workers(ms) == if controls then [] else ms
  {
    if data != [] {
      assert data[0] in data;
      MadeLike(cluster, data[1..], names, controls);
    }
  }
}
