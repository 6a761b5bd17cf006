/**
 Chart search results filtered by a version constraint, in place: kept entries are written to the
 front of the very slice being read (pkg/kubeserver/helm/chart.go:112-147).
 */
module Charts {
  import opened Wrappers

  datatype Chart = Chart(repo: string, name: string, version: string)

  /** What the semantic version library decides: parsing a constraint, parsing a version, checking. */
  datatype Semver<!V> = Semver(constraint: string -> Option<V -> bool>, version: string -> Option<V>)

  /** A chart passes if its version is not a semantic one or meets the constraint. */
  function Passes<V>(semver: Semver<V>, check: V -> bool): Chart -> bool {
    (c: Chart) => semver.version(c.version).None? || check(semver.version(c.version).value)
  }

  // ----- the filter on values -----

  function Front(s: seq<Chart>): seq<Chart>
    requires s != []
  {
    s[..|s| - 1]
  }

  function Last(s: seq<Chart>): Chart
    requires s != []
  {
    s[|s| - 1]
  }

  /** The entries that pass, in order. */
  function Filter(s: seq<Chart>, passes: Chart -> bool): seq<Chart> {
    if s == [] then [] else Filter(Front(s), passes) + if passes(Last(s)) then [Last(s)] else []
  }

  function Names(s: seq<Chart>): set<string> {
    set c | c in s :: c.name
  }

  /** The first entry of each name, in order. */
  function FirstPerName(s: seq<Chart>): seq<Chart> {
    if s == [] then []
    else FirstPerName(Front(s)) + if Last(s).name in Names(Front(s)) then [] else [Last(s)]
  }

  function Kept(s: seq<Chart>, passes: Chart -> bool, allVersion: bool): seq<Chart> {
    if allVersion then Filter(s, passes) else FirstPerName(Filter(s, passes))
  }

  ghost predicate IsFirstOfName(s: seq<Chart>, i: nat) {
    i < |s| && forall j :: 0 <= j < i ==> s[j].name != s[i].name
  }

  /** What a reader may rely on: with at picking entries of s in increasing order, the result has
      exactly one entry for each name and it is the first one s has. */
  lemma {:induction false} FirstPerNameIsReduction(s: seq<Chart>) returns (at: seq<nat>)
    ensures |at| == |FirstPerName(s)| && forall i, j :: 0 <= i < j < |at| ==> at[i] < at[j]
    ensures forall i :: 0 <= i < |at| ==> IsFirstOfName(s, at[i]) && FirstPerName(s)[i] == s[at[i]]
    ensures Names(FirstPerName(s)) == Names(s)
  {
    at := [];
    NoNameLost(s);
    if s != [] {
      at := FirstPerNameIsReduction(Front(s));
      forall i | 0 <= i < |at| ensures IsFirstOfName(s, at[i]) && FirstPerName(Front(s))[i] == s[at[i]] {
        assert IsFirstOfName(Front(s), at[i]);
        assert forall j :: 0 <= j <= at[i] ==> s[j] == Front(s)[j];
      }
      if Last(s).name !in Names(Front(s)) {
        forall j | 0 <= j < |s| - 1 ensures s[j].name != Last(s).name { assert s[j] in Front(s); }
        at := at + [|s| - 1];
      }
    }
  }

  lemma {:induction false} NoNameLost(s: seq<Chart>)
    ensures Names(FirstPerName(s)) == Names(s)
  {
    if s != [] {
      NoNameLost(Front(s));
      NamesOfOneMore(Front(s), Last(s));
      assert s == Front(s) + [Last(s)];
      NamesOfOneMore(FirstPerName(Front(s)), Last(s));
    }
  }

  lemma NamesOfOneMore(s: seq<Chart>, c: Chart)
    ensures Names(s + [c]) == Names(s) + {c.name}
  {
    forall x | x in Names(s + [c]) ensures x in Names(s) + {c.name} {
      var d :| d in s + [c] && d.name == x;
      assert d in s || d == c;
    }
    forall x | x in Names(s) ensures x in Names(s + [c]) {
      var d :| d in s && d.name == x;
      assert d in s + [c];
    }
    assert c in s + [c];
  }

  // ----- the filter in place -----

  /** What one turn of the loop adds to the prefix and to the names found. */
  lemma KeptOneMore(s: seq<Chart>, i: nat, passes: Chart -> bool, allVersion: bool)
    requires i < |s|
    ensures var adds := passes(s[i]) && (allVersion || s[i].name !in Names(Filter(s[..i], passes)));
            Kept(s[..i + 1], passes, allVersion) == Kept(s[..i], passes, allVersion) + if adds then [s[i]] else []
    ensures Names(Filter(s[..i + 1], passes)) == Names(Filter(s[..i], passes)) + if passes(s[i]) then {s[i].name} else {}
  {
    var t := Filter(s[..i], passes);
    assert Front(s[..i + 1]) == s[..i] && Last(s[..i + 1]) == s[i];
    assert Front(t + [s[i]]) == t;
    NamesOfOneMore(t, s[i]);
    assert t + [] == t;
  }

  /** The slice and the names found after i of its entries were read and n written. */
  ghost predicate Written(
    was: seq<Chart>, now: seq<Chart>, passes: Chart -> bool, allVersion: bool, i: nat, n: nat, found: set<string>)
  {
    && |now| == |was| && n <= i <= |was|
    && now[..n] == Kept(was[..i], passes, allVersion)
    && (forall k :: n <= k < |was| ==> now[k] == was[k])
    && found == if allVersion then {} else Names(Filter(was[..i], passes))
  }

  lemma WriteOne(
    was: seq<Chart>, now: seq<Chart>, passes: Chart -> bool, allVersion: bool, i: nat, n: nat, found: set<string>)
    requires i < |was| && Written(was, now, passes, allVersion, i, n, found)
    ensures now[i] == was[i]
    ensures was[i].name in found || !passes(was[i]) ==> Written(was, now, passes, allVersion, i + 1, n, found)
    ensures was[i].name !in found && passes(was[i]) ==>
      Written(was, now[n := was[i]], passes, allVersion, i + 1, n + 1, if allVersion then found else found + {was[i].name})
  {
    KeptOneMore(was, i, passes, allVersion);
    assert now[n := was[i]][..n + 1] == now[..n] + [was[i]];
  }

  /** The loop that reads res and appends to its prefix. An entry is never overwritten before it is
      read, and what lies behind the prefix is left as it was. */
  method FilterInPlace(res: array<Chart>, passes: Chart -> bool, allVersion: bool) returns (n: nat)
    modifies res
    ensures n <= res.Length
    ensures res[..n] == Kept(old(res[..]), passes, allVersion)
    ensures res[n..] == old(res[..])[n..]
  {
    n := 0;
    var foundNames: set<string> := {};
    ghost var was := res[..];
    for i := 0 to res.Length
      invariant Written(was, res[..], passes, allVersion, i, n, foundNames)
    {
      WriteOne(was, res[..], passes, allVersion, i, n, foundNames);
      var r := res[i];
      if r.name in foundNames {
        continue;
      }
      if passes(r) {
        ghost var before := res[..];
        res[n] := r;
        assert res[..] == before[n := r];
        n := n + 1;
        if !allVersion {
          foundNames := foundNames + {r.name};
        }
      }
    }
    assert was[..res.Length] == was;
  }

  /** Every entry kept is a result whose version is no semantic one or meets the constraint, and every such
      result is kept, or unless all versions are asked for just one entry of its name. */
  ghost predicate KeepsMatching<V>(
    semver: Semver<V>, check: V -> bool, results: seq<Chart>, kept: seq<Chart>, allVersion: bool)
  {
    && (forall c :: c in kept ==>
          c in results && (semver.version(c.version).Some? ==> check(semver.version(c.version).value)))
    && (forall c :: c in results && (semver.version(c.version).Some? ==> check(semver.version(c.version).value)) ==>
          if allVersion then c in kept else exists d :: d in kept && d.name == c.name)
    && (!allVersion ==> forall i, j :: 0 <= i < j < |kept| ==> kept[i].name != kept[j].name)
  }

  lemma {:induction false} FilterMembers(s: seq<Chart>, passes: Chart -> bool)
    ensures forall c :: c in Filter(s, passes) <==> c in s && passes(c)
  {
    if s != [] {
      FilterMembers(Front(s), passes);
      assert forall c :: c in s <==> c in Front(s) || c == Last(s);
    }
  }

  lemma FirstsAreMembers(s: seq<Chart>)
    ensures forall c :: c in FirstPerName(s) ==> c in s
    ensures forall c :: c in s ==> exists d :: d in FirstPerName(s) && d.name == c.name
    ensures forall i, j :: 0 <= i < j < |FirstPerName(s)| ==> FirstPerName(s)[i].name != FirstPerName(s)[j].name
  {
    var at := FirstPerNameIsReduction(s);
    forall i, j | 0 <= i < j < |at| ensures FirstPerName(s)[i].name != FirstPerName(s)[j].name {
      assert IsFirstOfName(s, at[j]) && s[at[i]].name != s[at[j]].name;
    }
    forall c | c in FirstPerName(s) ensures c in s {
      var i :| 0 <= i < |at| && FirstPerName(s)[i] == c;
      assert s[at[i]] == c;
    }
    forall c | c in s ensures exists d :: d in FirstPerName(s) && d.name == c.name {
      assert c.name in Names(s);
      assert c.name in Names(FirstPerName(s));
    }
  }

  lemma KeptMatch<V>(semver: Semver<V>, check: V -> bool, results: seq<Chart>, allVersion: bool)
    ensures KeepsMatching(semver, check, results, Kept(results, Passes(semver, check), allVersion), allVersion)
  {
    FilterMembers(results, Passes(semver, check));
    FirstsAreMembers(Filter(results, Passes(semver, check)));
  }

  datatype Outcome = Listed(n: nat) | InvalidConstraint

  /** applyConstraint: no version keeps everything, and a constraint that does not parse is an error
      that still hands back all results. */
  method ApplyConstraint<V>(semver: Semver<V>, version: string, allVersion: bool, results: seq<Chart>)
    returns (outcome: Outcome, res: array<Chart>)
    ensures fresh(res) && res.Length == |results|
    ensures outcome.InvalidConstraint? <==> version != "" && semver.constraint(version).None?
    ensures outcome.InvalidConstraint? ==> res[..] == results
    ensures version == "" ==> outcome == Listed(|results|) && res[..] == results
    ensures outcome.Listed? && version != "" ==>
      && outcome.n <= res.Length && semver.constraint(version).Some?
      && res[..outcome.n] == Kept(results, Passes(semver, semver.constraint(version).value), allVersion)
      && KeepsMatching(semver, semver.constraint(version).value, results, res[..outcome.n], allVersion)
  {
    res := new Chart[|results|](i requires 0 <= i < |results| => results[i]);
    assert res[..] == results;
    if |version| == 0 {
      return Listed(|results|), res;
    }
    var constraint := semver.constraint(version);
    if constraint.None? {
      return InvalidConstraint, res;
    }
    var n := FilterInPlace(res, Passes(semver, constraint.value), allVersion);
    KeptMatch(semver, constraint.value, results, allVersion);
    return Listed(n), res;
  }
}
