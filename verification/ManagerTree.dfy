/**
 The tree of resource managers: who is synced after whom, and who is purged before whom
 (pkg/kubeserver/models/syncbase.go, k8smodels.go:91-101, namespace.go:48-49).
 */
module ManagerTree {
  import opened ClusterTables

  datatype Manager = Manager(kind: Kind, subs: seq<Manager>)

  /** The order of a sync: a manager, its sub managers, then its siblings. */
  function Preorder(mans: seq<Manager>): seq<Kind> {
    if mans == [] then [] else Visit(mans[0]) + Preorder(mans[1..])
  }

  function Visit(man: Manager): seq<Kind> {
    [man.kind] + Preorder(man.subs)
  }

  /** The order of a purge and of garbage collection: sub managers first. */
  function Postorder(mans: seq<Manager>): seq<Kind> {
    if mans == [] then [] else VisitAfter(mans[0]) + Postorder(mans[1..])
  }

  function VisitAfter(man: Manager): seq<Kind> {
    Postorder(man.subs) + [man.kind]
  }

  lemma Associative<T>(a: seq<T>, b: seq<T>, c: seq<T>)
    ensures a + (b + c) == (a + b) + c
  {
  }

  lemma {:induction false} PreorderAppend(a: seq<Manager>, b: seq<Manager>)
    ensures Preorder(a + b) == Preorder(a) + Preorder(b)
  {
    if a == [] {
      assert a + b == b;
    } else {
      var head, x, y := Visit(a[0]), Preorder(a[1..]), Preorder(b);
      assert (a + b)[0] == a[0] && (a + b)[1..] == a[1..] + b;
      PreorderAppend(a[1..], b);
      Associative(head, x, y);
    }
  }

  lemma OneManager(man: Manager)
    ensures Preorder([man]) == Visit(man) && Postorder([man]) == VisitAfter(man)
  {
    assert [man][1..] == [];
    assert Visit(man) + [] == Visit(man) && VisitAfter(man) + [] == VisitAfter(man);
  }

  lemma CutAt<T>(s: seq<T>, i: nat)
    requires i < |s|
    ensures s[..i + 1] == s[..i] + [s[i]] && s == s[..i + 1] + s[i + 1..]
  {
  }

  lemma PreorderCut(mans: seq<Manager>, before: seq<Manager>, man: Manager, upTo: seq<Manager>, rest: seq<Manager>)
    requires upTo == before + [man] && mans == upTo + rest
    ensures Preorder(upTo) == Preorder(before) + Visit(man)
    ensures Preorder(mans) == Preorder(upTo) + Preorder(rest)
  {
    OneManager(man);
    PreorderAppend(before, [man]);
    PreorderAppend(upTo, rest);
  }

  lemma PreorderNext(mans: seq<Manager>, i: nat)
    requires i < |mans|
    ensures Preorder(mans[..i + 1]) == Preorder(mans[..i]) + Visit(mans[i])
    ensures Preorder(mans) == Preorder(mans[..i + 1]) + Preorder(mans[i + 1..])
  {
    CutAt(mans, i);
    PreorderCut(mans, mans[..i], mans[i], mans[..i + 1], mans[i + 1..]);
  }

  lemma {:induction false} PostorderAppend(a: seq<Manager>, b: seq<Manager>)
    ensures Postorder(a + b) == Postorder(a) + Postorder(b)
  {
    if a == [] {
      assert a + b == b;
    } else {
      var head, x, y := VisitAfter(a[0]), Postorder(a[1..]), Postorder(b);
      assert (a + b)[0] == a[0] && (a + b)[1..] == a[1..] + b;
      PostorderAppend(a[1..], b);
      Associative(head, x, y);
    }
  }

  lemma PostorderCut(mans: seq<Manager>, before: seq<Manager>, man: Manager, upTo: seq<Manager>, rest: seq<Manager>)
    requires upTo == before + [man] && mans == upTo + rest
    ensures Postorder(upTo) == Postorder(before) + VisitAfter(man)
    ensures Postorder(mans) == Postorder(upTo) + Postorder(rest)
  {
    OneManager(man);
    PostorderAppend(before, [man]);
    PostorderAppend(upTo, rest);
  }

  lemma PostorderNext(mans: seq<Manager>, i: nat)
    requires i < |mans|
    ensures Postorder(mans[..i + 1]) == Postorder(mans[..i]) + VisitAfter(mans[i])
    ensures Postorder(mans) == Postorder(mans[..i + 1]) + Postorder(mans[i + 1..])
  {
    CutAt(mans, i);
    PostorderCut(mans, mans[..i], mans[i], mans[..i + 1], mans[i + 1..]);
  }

  lemma {:induction false} SameKinds(mans: seq<Manager>)
    ensures multiset(Preorder(mans)) == multiset(Postorder(mans))
  {
    if mans != [] {
      SameKinds(mans[0].subs);
      SameKinds(mans[1..]);
      assert multiset(Visit(mans[0])) == multiset(VisitAfter(mans[0]));
    }
  }

  ghost predicate Distinct<T>(s: seq<T>) {
    forall i, j :: 0 <= i < j < |s| ==> s[i] != s[j]
  }

  /** Rows of kind k refer to rows of kind dep. */
  predicate Needs(k: Kind, dep: Kind) {
    (dep == NAMESPACE && k.namespaceScope) || (dep == NODE && k == POD)
  }

  /** No kind twice, and none before a kind it refers to. */
  ghost predicate RefsFirst(ks: seq<Kind>) {
    Distinct(ks) && forall i, j :: 0 <= i < j < |ks| ==> !Needs(ks[i], ks[j])
  }

  /** Every kind that refers to dep comes after dep. */
  ghost predicate Led(ks: seq<Kind>, dep: Kind) {
    forall j :: 0 <= j < |ks| ==> LedAt(ks, dep, j)
  }

  ghost predicate LedAt(ks: seq<Kind>, dep: Kind, j: nat)
    requires j < |ks|
  {
    Needs(ks[j], dep) ==> dep in ks[..j]
  }

  lemma LedAppend(a: seq<Kind>, b: seq<Kind>, dep: Kind)
    requires Led(a, dep) && (Led(b, dep) || dep in a)
    ensures Led(a + b, dep)
  {
    var ks := a + b;
    forall j | 0 <= j < |ks| ensures LedAt(ks, dep, j) {
      if j < |a| {
        assert LedAt(a, dep, j);
        assert ks[..j] == a[..j];
      } else {
        assert ks[..j] == a + b[..j - |a|];
        assert ks[j] == b[j - |a|];
        assert Led(b, dep) ==> LedAt(b, dep, j - |a|);
      }
    }
  }

  /** The order a sync relies on. */
  ghost predicate SyncOrder(ks: seq<Kind>) {
    Distinct(ks) && Led(ks, NAMESPACE) && Led(ks, NODE)
  }

  lemma SyncOrderIsFirst(ks: seq<Kind>)
    requires SyncOrder(ks)
    ensures RefsFirst(ks)
  {
    forall i, j | 0 <= i < j < |ks| ensures !Needs(ks[i], ks[j]) {
      assert LedAt(ks, NAMESPACE, i) && LedAt(ks, NODE, i);
    }
  }

  // ----- the registered tree -----

  function Leaves(ks: seq<Kind>): seq<Manager> {
    if ks == [] then [] else [Manager(ks[0], [])] + Leaves(ks[1..])
  }

  /** The shape registration gives the tree: the namespaces below the nodes, the kinds registered by
      NewK8sNamespaceModelManager below the namespaces, and every other kind at the root. */
  function Registered(before: seq<Kind>, below: seq<Kind>, after: seq<Kind>): seq<Manager> {
    Leaves(before) + [Manager(NODE, [Manager(NAMESPACE, Leaves(below))])] + Leaves(after)
  }

  lemma {:induction false} LeavesWalks(ks: seq<Kind>)
    ensures Preorder(Leaves(ks)) == ks && Postorder(Leaves(ks)) == ks
  {
    if ks != [] {
      LeavesWalks(ks[1..]);
      assert Leaves(ks)[1..] == Leaves(ks[1..]);
      assert Visit(Leaves(ks)[0]) == [ks[0]] && VisitAfter(Leaves(ks)[0]) == [ks[0]];
    }
  }

  lemma RegisteredWalks(before: seq<Kind>, below: seq<Kind>, after: seq<Kind>)
    ensures Preorder(Registered(before, below, after)) == before + ([NODE, NAMESPACE] + below) + after
    ensures Postorder(Registered(before, below, after)) == before + (below + [NAMESPACE, NODE]) + after
  {
    var namespaces := Manager(NAMESPACE, Leaves(below));
    var nodes := Manager(NODE, [namespaces]);
    LeavesWalks(before);
    LeavesWalks(below);
    LeavesWalks(after);
    OneManager(namespaces);
    OneManager(nodes);
    assert Visit(nodes) == [NODE, NAMESPACE] + below;
    assert VisitAfter(nodes) == below + [NAMESPACE, NODE];
    PreorderAppend(Leaves(before), [nodes]);
    PreorderAppend(Leaves(before) + [nodes], Leaves(after));
    PostorderAppend(Leaves(before), [nodes]);
    PostorderAppend(Leaves(before) + [nodes], Leaves(after));
  }

  /** A sync visits the namespaces before every namespaced kind, those at the root included, and the nodes
      before the pods, as long as the kinds registered before the nodes are not namespaced. */
  lemma RegisteredIsLed(before: seq<Kind>, below: seq<Kind>, after: seq<Kind>)
    requires forall k :: k in before ==> !k.namespaceScope
    ensures Led(Preorder(Registered(before, below, after)), NAMESPACE)
    ensures Led(Preorder(Registered(before, below, after)), NODE)
  {
    RegisteredWalks(before, below, after);
    LedThrough(before, below, after, NAMESPACE);
    LedThrough(before, below, after, NODE);
  }

  lemma LedThrough(before: seq<Kind>, below: seq<Kind>, after: seq<Kind>, dep: Kind)
    requires (forall k :: k in before ==> !k.namespaceScope) && (dep == NAMESPACE || dep == NODE)
    ensures Led(before + ([NODE, NAMESPACE] + below) + after, dep)
  {
    var nodes := [NODE, NAMESPACE] + below;
    forall j | 0 <= j < |before| ensures LedAt(before, dep, j) {
      assert before[j] in before;
    }
    forall j | 0 <= j < |nodes| ensures LedAt(nodes, dep, j) {
      assert j >= 2 ==> nodes[..j][0] == NODE && nodes[..j][1] == NAMESPACE;
    }
    LedAppend(before, nodes, dep);
    assert nodes[0] == NODE && nodes[1] == NAMESPACE;
    assert dep in nodes;
    LedAppend(before + nodes, after, dep);
  }
}
