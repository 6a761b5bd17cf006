/**
 The managers of the program, as their init functions register them
 (pkg/kubeserver/models/k8smodels.go:76-101, namespace.go:28-52, pvcs.go:33-52).
 */
module Managers {
  import opened ClusterTables
  import opened ManagerTree

  const CLAIM := Kind("persistentvolumeclaim", true)

  /** The kinds in the order of a sync. */
  const KINDS := [
    Kind("rbacclusterrolebinding", false), Kind("rbacclusterrole", false), NODE, NAMESPACE,
    Kind("configmap", true), Kind("cronjob", true), Kind("daemonset", true), Kind("deployment", true),
    Kind("k8s_endpoint", true), Kind("ingress", true), Kind("job", true), Kind("limitrange", true), POD,
    RELEASE, Kind("replicaset", true), Kind("resourcequota", true), Kind("rbacrolebinding", true),
    Kind("rbacrole", true), Kind("secret", true), Kind("serviceaccount", true), Kind("k8s_service", true),
    Kind("statefulset", true), CLAIM, Kind("persistentvolume", false), Kind("storageclass", false)]

  const BEFORE := KINDS[..2]
  const BELOW := KINDS[4..22]
  const AFTER := KINDS[22..]

  /** The managers as the program registers them: the claims, although namespaced, at the root. */
  const MANAGERS := Registered(BEFORE, BELOW, AFTER)

  /** A number per keyword, to tell the keywords apart: its length, its first and its last letter. */
  function Code(k: Kind): int {
    if k.name == "" then 0 else |k.name| + 100 * (k.name[0] as int) + 100_000 * (k.name[|k.name| - 1] as int)
  }

  function Codes(): seq<int> {
    [
      10311422, 10111415, 10110708, 10111009, 11209909, 9809907, 11610009, 11610010, 11610712,
      11510507, 9810603, 10110810, 10011203, 10111407, 11611410, 9711413, 10311415, 10111408,
      11611506, 11611514, 10110711, 11611511, 10911221, 10111216, 11511512
    ]
  }

  lemma CodesDiffer(codes: seq<int>)
    requires codes == Codes()
    ensures Distinct(codes)
  {
  }

  lemma FirstKindCodes(codes: seq<int>)
    requires codes == Codes()
    ensures |KINDS| == |codes| == 25 && forall i :: 0 <= i < 12 ==> Code(KINDS[i]) == codes[i]
  {
    assert |KINDS| == 25 && |codes| == 25;
  }

  lemma LastKindCodes(codes: seq<int>)
    requires codes == Codes()
    ensures |KINDS| == |codes| == 25 && forall i :: 12 <= i < 25 ==> Code(KINDS[i]) == codes[i]
  {
    assert |KINDS| == 25 && |codes| == 25;
  }

  lemma KindsDiffer()
    ensures Distinct(KINDS)
  {
    CodesDiffer(Codes());
    FirstKindCodes(Codes());
    LastKindCodes(Codes());
  }

  lemma Parts<T>(s: seq<T>, a: nat, b: nat)
    requires a + 2 <= b <= |s|
    ensures s[..a] + ([s[a], s[a + 1]] + s[a + 2..b]) + s[b..] == s
  {
  }

  lemma FirstTwo<T>(s: seq<T>)
    requires |s| >= 2
    ensures s[..2] == [s[0], s[1]]
  {
  }

  /** The namespaced kinds, by their places: those below the namespaces, and the claims. */
  lemma KindScopes()
    ensures |KINDS| == 25 && forall i :: 0 <= i < |KINDS| ==> (KINDS[i].namespaceScope <==> 4 <= i <= 22)
  {
    assert |KINDS| == 25;
  }

  lemma KindPlaces()
    ensures |KINDS| == 25 && KINDS[2] == NODE && KINDS[3] == NAMESPACE
    ensures KINDS[12] == POD && KINDS[13] == RELEASE && KINDS[22] == CLAIM
  {
    assert |KINDS| == 25;
  }

  /** Every kind below the namespaces is namespaced; of those at the root the claims alone are. */
  lemma NamespacedAtTheRoot()
    ensures forall k :: k in BELOW ==> k.namespaceScope
    ensures forall k :: k in BEFORE ==> !k.namespaceScope
    ensures forall k :: k in AFTER ==> (k.namespaceScope <==> k == CLAIM)
    ensures POD in BELOW && RELEASE in BELOW && CLAIM in AFTER
    ensures NAMESPACE in KINDS && CLAIM in KINDS
    ensures forall k :: k in KINDS && k.namespaceScope ==> k in BEFORE + BELOW + AFTER
  {
    KindScopes();
    KindPlaces();
    ScopesOf(KINDS);
  }

  /** The same of any list with these scopes at these places. */
  lemma ScopesOf(ks: seq<Kind>)
    requires |ks| == 25 && forall i :: 0 <= i < |ks| ==> (ks[i].namespaceScope <==> 4 <= i <= 22)
    ensures forall k :: k in ks[4..22] ==> k.namespaceScope
    ensures forall k :: k in ks[..2] ==> !k.namespaceScope
    ensures forall k :: k in ks[22..] ==> (k.namespaceScope <==> k == ks[22])
    ensures forall i :: 4 <= i < 22 ==> ks[i] in ks[4..22]
    ensures ks[22] in ks[22..] && ks[22] in ks && ks[3] in ks
    ensures forall k :: k in ks && k.namespaceScope ==> k in ks[..2] + ks[4..22] + ks[22..]
  {
    forall i | 4 <= i < 22 ensures ks[i] in ks[4..22] { Within(ks, 4, 22, i); }
    LastThree(ks);
    forall k | k in ks && k.namespaceScope ensures k in ks[..2] + ks[4..22] + ks[22..] {
      var i :| 0 <= i < |ks| && ks[i] == k;
      assert i < 22 ==> ks[i] in ks[4..22];
    }
  }

  lemma Within<T>(s: seq<T>, a: nat, b: nat, i: nat)
    requires a <= i < b <= |s|
    ensures s[i] in s[a..b]
  {
    assert s[a..b][i - a] == s[i];
  }

  lemma LastThree<T>(s: seq<T>)
    requires |s| == 25
    ensures s[22..] == [s[22], s[23], s[24]]
  {
  }

  /** No kind is registered twice, and a sync takes the namespaces before every namespaced kind and the
      nodes before the pods. */
  lemma ManagersInSyncOrder()
    ensures Preorder(MANAGERS) == KINDS && SyncOrder(KINDS)
  {
    FirstTwo(KINDS);
    assert KINDS[2] == NODE && KINDS[3] == NAMESPACE && |KINDS| == 25;
    Parts(KINDS, 2, 22);
    RegisteredIsLed(BEFORE, BELOW, AFTER);
    RegisteredWalks(BEFORE, BELOW, AFTER);
    KindsDiffer();
  }
}
