/**
 Pod template labels compared without the template hash
 (pkg/kubeserver/models/helper.go:707-754).
 */
module Labels {
  import opened Wrappers

  const HASH := "pod-template-hash"

  type LabelMap = map<string, string>

  /** A pod template: its labels, and all the rest, which is compared as one value. */
  datatype Template<Rest(==)> = Template(labels: LabelMap, rest: Rest)

  /** A label looked up, the empty string standing for a missing one. */
  function Get(m: LabelMap, k: string): string {
    if k in m then m[k] else ""
  }

  /** The labels agree apart from the hash. */
  predicate SameIgnoringHash(a: LabelMap, b: LabelMap) {
    a - {HASH} == b - {HASH}
  }

  function Smaller(a: LabelMap, b: LabelMap): LabelMap { if |a| > |b| then b else a }

  function Larger(a: LabelMap, b: LabelMap): LabelMap { if |a| > |b| then a else b }

  /** Every label of large but the hash is found in small. */
  predicate Covers(small: LabelMap, large: LabelMap) {
    forall k :: k in large && k != HASH ==> Get(small, k) == large[k]
  }

  /** Keys with an empty value are not told apart from missing ones; here there are none to confuse. */
  predicate NoGap(small: LabelMap, large: LabelMap) {
    forall k :: k in large && k != HASH && large[k] == "" ==> k in small
  }

  /** The label part of EqualIgnoreHash: one pass over the larger map, in any order. */
  method LabelsEqual(labels1: LabelMap, labels2: LabelMap) returns (r: bool)
    ensures NoGap(Smaller(labels1, labels2), Larger(labels1, labels2)) && !HashOutweighs(labels1, labels2)
      ==> (r <==> SameIgnoringHash(labels1, labels2))
    ensures SameIgnoringHash(labels1, labels2) ==> r
    ensures r <==> Covers(Smaller(labels1, labels2), Larger(labels1, labels2))
  {
    var small, large := labels1, labels2;
    if |small| > |large| {
      small, large := large, small;
    }
    if NoGap(small, large) {
      ExactUnlessHashOutweighs(labels1, labels2);
    }
    if SameIgnoringHash(labels1, labels2) {
      SameIsCovered(labels1, labels2);
    }
    var rest := large.Keys;
    while rest != {}
      invariant rest <= large.Keys
      invariant forall k :: k in large && k !in rest && k != HASH ==> Get(small, k) == large[k]
      decreases rest
    {
      var k :| k in rest;
      if Get(small, k) != large[k] && k != HASH {
        return false;
      }
      rest := rest - {k};
    }
    return true;
  }

  lemma SameIsCovered(a: LabelMap, b: LabelMap)
    requires SameIgnoringHash(a, b)
    ensures Covers(Smaller(a, b), Larger(a, b))
  {
    forall k | k in Larger(a, b) && k != HASH ensures Get(Smaller(a, b), k) == Larger(a, b)[k] {
      assert k in a - {HASH} <==> k in b - {HASH};
      assert (a - {HASH})[k] == (b - {HASH})[k];
    }
  }

  /** The one way size and hash work together against the check: the second map has the hash, the first
      does not, and in its place the first has one label more. */
  predicate HashOutweighs(labels1: LabelMap, labels2: LabelMap) {
    |labels1| == |labels2| && HASH in labels2 && HASH !in labels1 && labels2 - {HASH} == labels1 - (labels1.Keys - labels2.Keys)
  }

  lemma Size(m: LabelMap)
    ensures |m - {HASH}| == if HASH in m then |m| - 1 else |m|
  {
    assert (m - {HASH}).Keys == m.Keys - {HASH};
    assert |m.Keys - {HASH}| == |m - {HASH}|;
  }

  lemma SmallerEqual(a: set<string>, b: set<string>)
    requires a <= b && |a| >= |b|
    ensures a == b
  {
    assert b == a + (b - a);
    assert |b| == |a| + |b - a|;
  }

  /** When the pass covers the larger map, counting its labels gives the rest. */
  lemma CoveredIff(a: LabelMap, b: LabelMap)
    requires |a| <= |b| && NoGap(a, b) && Covers(a, b)
    ensures SameIgnoringHash(a, b) <==> !(|a| == |b| && HASH in b && HASH !in a)
  {
    var x, y := a - {HASH}, b - {HASH};
    Size(a);
    Size(b);
    forall k | k in y ensures k in x && x[k] == y[k] {
      assert Get(a, k) == b[k];
    }
    assert |x| == |x.Keys| && |y| == |y.Keys|;
    if !(|a| == |b| && HASH in b && HASH !in a) {
      SmallerEqual(y.Keys, x.Keys);
    }
  }

  /** The check is exact on all maps but those where the hash outweighs a label. */
  lemma ExactUnlessHashOutweighs(labels1: LabelMap, labels2: LabelMap)
    requires NoGap(Smaller(labels1, labels2), Larger(labels1, labels2))
    ensures (Covers(Smaller(labels1, labels2), Larger(labels1, labels2)) <==> SameIgnoringHash(labels1, labels2))
            <==> !HashOutweighs(labels1, labels2)
  {
    var small, large := Smaller(labels1, labels2), Larger(labels1, labels2);
    if SameIgnoringHash(labels1, labels2) {
      SameIsCovered(labels1, labels2);
    }
    if Covers(small, large) {
      CoveredIff(small, large);
      forall k | k in labels2 && k != HASH && small == labels1 ensures k in labels1 && labels1[k] == labels2[k] {
        assert Get(small, k) == large[k];
      }
    }
    if HashOutweighs(labels1, labels2) {
      forall k | k in labels2 && k != HASH ensures Get(labels1, k) == labels2[k] {
        assert (labels2 - {HASH})[k] == (labels1 - (labels1.Keys - labels2.Keys))[k];
      }
      assert Covers(small, large);
    }
  }

  /** Both conditions matter: a label the hash outweighs, and an empty value taken for a missing key. */
  lemma WhereTheCheckErrs(v: string, w: string)
    requires v != ""
    ensures var a, b := map["app" := v, "tier" := v], map["app" := v, HASH := w];
            Covers(a, b) && !SameIgnoringHash(a, b) && |a| == |b| && !Covers(b, a)
    ensures var a, b: LabelMap := map["app" := v], map["tier" := ""];
            Covers(a, b) && !SameIgnoringHash(a, b) && |a| == |b|
  {
    var a, b := map["app" := v, "tier" := v], map["app" := v, HASH := w];
    assert "tier" in a - {HASH} && "tier" !in b - {HASH};
    assert Get(b, "tier") == "" && a["tier"] == v;
    var c, d: LabelMap := map["app" := v], map["tier" := ""];
    assert "app" in c - {HASH} && "app" !in d - {HASH};
  }

  // ----- where it is used -----

  predicate EqualTemplates<Rest(==)>(a: Template<Rest>, b: Template<Rest>) {
    SameIgnoringHash(a.labels, b.labels) && a.rest == b.rest
  }

  predicate Filled(m: LabelMap) {
    forall k :: k in m ==> m[k] != ""
  }

  /** EqualIgnoreHash. */
  method EqualIgnoreHash<Rest(==)>(template1: Template<Rest>, template2: Template<Rest>) returns (r: bool)
    ensures Filled(template1.labels) && Filled(template2.labels) && !HashOutweighs(template1.labels, template2.labels)
      ==> (r <==> EqualTemplates(template1, template2))
    ensures EqualTemplates(template1, template2) ==> r
    ensures r ==> template1.rest == template2.rest
  {
    var same := LabelsEqual(template1.labels, template2.labels);
    if !same {
      return false;
    }
    return template1.rest == template2.rest;
  }

  /** No label is empty, and the deployment's own template, as always, carries no hash. */
  predicate Comparable<Rest(==)>(deployment: Template<Rest>, replicaSets: seq<Template<Rest>>) {
    && Filled(deployment.labels) && HASH !in deployment.labels
    && forall i :: 0 <= i < |replicaSets| ==> Filled(replicaSets[i].labels)
  }

  predicate IsFirstEqual<Rest(==)>(deployment: Template<Rest>, replicaSets: seq<Template<Rest>>, i: nat) {
    && i < |replicaSets| && EqualTemplates(replicaSets[i], deployment)
    && forall k :: 0 <= k < i ==> !EqualTemplates(replicaSets[k], deployment)
  }

  /** FindNewReplicaSet: the first replica set with an equal template, if there is one. */
  method FindNewReplicaSet<Rest(==)>(deployment: Template<Rest>, replicaSets: seq<Template<Rest>>) returns (r: Option<nat>)
    ensures r.Some? ==> r.value < |replicaSets| && replicaSets[r.value].rest == deployment.rest
    ensures Comparable(deployment, replicaSets) && r.Some? ==> IsFirstEqual(deployment, replicaSets, r.value)
    ensures r.None? ==> forall i :: 0 <= i < |replicaSets| ==> !EqualTemplates(replicaSets[i], deployment)
  {
    for i := 0 to |replicaSets|
      invariant forall k :: 0 <= k < i ==> !EqualTemplates(replicaSets[k], deployment)
    {
      var equal := EqualIgnoreHash(replicaSets[i], deployment);
      if equal {
        return Some(i);
      }
    }
    return None;
  }
}
