/**
 Key order, sorting and the merge that splits local rows and remote objects into
 removed, common and added (pkg/kubeserver/models/compare.go).
 */
module Compare {

  // ----- the order of keys -----

  /** Three-way lexicographic comparison, as the Go library's strings.Compare. */
  function CompareKeys(a: string, b: string): (c: int)
  {
    if a == [] && b == [] then 0
    else if a == [] then -1
    else if b == [] then 1
    else if a[0] < b[0] then -1
    else if a[0] > b[0] then 1
    else CompareKeys(a[1..], b[1..])
  }

  lemma {:induction false} CompareKeysMeaning(a: string, b: string)
    ensures CompareKeys(a, b) == 0 <==> a == b
    ensures CompareKeys(a, b) == -CompareKeys(b, a)
  {
    if a != [] && b != [] && a[0] == b[0] {
      CompareKeysMeaning(a[1..], b[1..]);
      assert a == [a[0]] + a[1..] && b == [b[0]] + b[1..];
    }
  }

  lemma {:induction false} CompareKeysTransitive(a: string, b: string, c: string)
    requires CompareKeys(a, b) <= 0 && CompareKeys(b, c) <= 0
    ensures CompareKeys(a, c) <= 0
    ensures CompareKeys(a, b) < 0 || CompareKeys(b, c) < 0 ==> CompareKeys(a, c) < 0
  {
    if a != [] && b != [] && c != [] && a[0] == b[0] == c[0] {
      CompareKeysTransitive(a[1..], b[1..], c[1..]);
    }
  }

  // ----- sorting -----

  datatype Element<T> = Element(key: string, value: T)

  predicate Sorted<T>(s: seq<Element<T>>) {
    forall i, j :: 0 <= i < j < |s| ==> CompareKeys(s[i].key, s[j].key) <= 0
  }

  ghost function Insert<T>(e: Element<T>, s: seq<Element<T>>): (r: seq<Element<T>>)
    ensures multiset(r) == multiset([e]) + multiset(s)
  {
    if s == [] then [e]
    else if CompareKeys(e.key, s[0].key) <= 0 then [e] + s
    else
      assert s == [s[0]] + s[1..];
      [s[0]] + Insert(e, s[1..])
  }

  lemma {:induction false} InsertSorted<T>(e: Element<T>, s: seq<Element<T>>)
    requires Sorted(s)
    ensures Sorted(Insert(e, s))
  {
    if s != [] {
      CompareKeysMeaning(e.key, s[0].key);
      if CompareKeys(e.key, s[0].key) <= 0 {
        forall j | 0 <= j < |s| ensures CompareKeys(e.key, s[j].key) <= 0 {
          if j > 0 { CompareKeysTransitive(e.key, s[0].key, s[j].key); }
        }
      } else {
        var rest := Insert(e, s[1..]);
        InsertSorted(e, s[1..]);
        forall j | 0 <= j < |rest| ensures CompareKeys(s[0].key, rest[j].key) <= 0 {
          assert rest[j] in multiset(rest);
          assert rest[j] == e || rest[j] in s[1..];
        }
      }
    }
  }

  /** A sorted permutation, to show that there is one; how equal keys end up ordered is not promised. */
  ghost function SortedCopy<T>(s: seq<Element<T>>): (r: seq<Element<T>>)
    ensures Sorted(r) && multiset(r) == multiset(s)
  {
    if s == [] then []
    else
      assert s == [s[0]] + s[1..];
      InsertSorted(s[0], SortedCopy(s[1..]));
      Insert(s[0], SortedCopy(s[1..]))
  }

  /** The library sort: in place, any order among equal keys. */
  method Sort<T(==)>(a: array<Element<T>>)
    modifies a
    ensures Sorted(a[..]) && multiset(a[..]) == multiset(old(a[..]))
  {
    ghost var sortedCopy := SortedCopy(a[..]);
    var s :| Sorted(s) && multiset(s) == multiset(a[..]);
    assert |s| == |multiset(s)| == |multiset(a[..])| == a.Length;
    forall i | 0 <= i < a.Length {
      a[i] := s[i];
    }
    assert a[..] == s;
  }

  // ----- keys and values of whole lists -----

  function Map<A, B>(f: A -> B, s: seq<A>): (r: seq<B>)
    ensures |r| == |s| && forall i :: 0 <= i < |s| ==> r[i] == f(s[i])
  {
    seq(|s|, i requires 0 <= i < |s| => f(s[i]))
  }

  lemma MapAppend<A, B>(f: A -> B, s: seq<A>, x: A)
    ensures Map(f, s + [x]) == Map(f, s) + [f(x)]
    ensures multiset(Map(f, s + [x])) == multiset(Map(f, s)) + multiset{f(x)}
    ensures multiset(s + [x]) == multiset(s) + multiset{x}
  {
    assert Map(f, s + [x]) == Map(f, s) + [f(x)];
  }

  function Without<A>(s: seq<A>, i: nat): seq<A>
    requires i < |s|
  {
    s[..i] + s[i + 1..]
  }

  lemma WithoutOne<A>(s: seq<A>, i: nat)
    requires i < |s|
    ensures multiset(Without(s, i)) == multiset(s) - multiset{s[i]}
    ensures multiset(s) == multiset(Without(s, i)) + multiset{s[i]}
  {
    assert s == s[..i] + [s[i]] + s[i + 1..];
  }

  lemma MapWithout<A, B>(f: A -> B, s: seq<A>, i: nat)
    requires i < |s|
    ensures multiset(Map(f, s)) == multiset(Map(f, Without(s, i))) + multiset{f(s[i])}
  {
    WithoutOne(Map(f, s), i);
    assert Map(f, Without(s, i)) == Without(Map(f, s), i);
  }

  /** Reordering a list reorders its image. */
  lemma {:induction false} MapPermutation<A, B>(f: A -> B, s: seq<A>, t: seq<A>)
    requires multiset(s) == multiset(t)
    ensures multiset(Map(f, s)) == multiset(Map(f, t))
  {
    if s == [] {
      assert |t| == |multiset(t)| == 0;
    } else {
      assert s[0] in multiset(t);
      var i :| 0 <= i < |t| && t[i] == s[0];
      WithoutOne(s, 0);
      WithoutOne(t, i);
      MapPermutation(f, Without(s, 0), Without(t, i));
      MapWithout(f, s, 0);
      MapWithout(f, t, i);
    }
  }

  ghost predicate Pairwise<T>(apart: (T, T) -> bool, s: seq<T>) {
    forall i, j :: 0 <= i < j < |s| ==> apart(s[i], s[j]) && apart(s[j], s[i])
  }

  /** Two places of a list are two places of any reordering of it. */
  lemma TwoPlaces<T>(s: seq<T>, t: seq<T>, i: nat, j: nat) returns (a: nat, b: nat)
    requires multiset(s) == multiset(t) && i < j < |t|
    ensures a < |s| && b < |s| && a != b && s[a] == t[i] && s[b] == t[j]
  {
    assert t[i] in multiset(s);
    a :| a < |s| && s[a] == t[i];
    WithoutOne(t, i);
    WithoutOne(s, a);
    assert multiset(Without(s, a)) == multiset(Without(t, i));
    assert Without(t, i)[j - 1] == t[j];
    assert t[j] in multiset(Without(s, a));
    var c :| 0 <= c < |Without(s, a)| && Without(s, a)[c] == t[j];
    b := if c < a then c else c + 1;
  }

  /** Being apart pair by pair does not depend on the order. */
  lemma PairwisePermutation<T>(apart: (T, T) -> bool, s: seq<T>, t: seq<T>)
    requires multiset(s) == multiset(t) && Pairwise(apart, s)
    ensures Pairwise(apart, t)
  {
    forall i, j | 0 <= i < j < |t| ensures apart(t[i], t[j]) && apart(t[j], t[i]) {
      var a, b := TwoPlaces(s, t, i, j);
    }
  }

  function Values<T>(s: seq<Element<T>>): (r: seq<T>)
    ensures |r| == |s| && forall i :: 0 <= i < |s| ==> r[i] == s[i].value
  {
    Map((e: Element<T>) => e.value, s)
  }

  /** Each entry carries the key of its own object. */
  ghost predicate Keyed<T>(s: seq<Element<T>>, key: T -> string) {
    forall e :: e in s ==> e.key == key(e.value)
  }

  /** One array entry per object, carrying the object's key. */
  method ToElements<T(==)>(objs: seq<T>, key: T -> string) returns (a: array<Element<T>>)
    ensures fresh(a)
    ensures Keyed(a[..], key) && Values(a[..]) == objs
  {
    a := new Element<T>[|objs|](i requires 0 <= i < |objs| => Element(key(objs[i]), objs[i]));
    assert Values(a[..]) == objs;
  }

  lemma SortKeepsObjects<T>(before: seq<Element<T>>, after: seq<Element<T>>, key: T -> string)
    requires multiset(before) == multiset(after) && Keyed(before, key)
    ensures Keyed(after, key) && multiset(Values(after)) == multiset(Values(before))
  {
    forall e | e in after ensures e.key == key(e.value) {
      assert e in multiset(after);
    }
    MapPermutation((e: Element<T>) => e.value, before, after);
  }

  // ----- the merge -----

  /** What the four output lists promise. Multiset difference and intersection count every
      key: one that occurs m times locally and n times remotely is min(m, n) times common,
      m - min(m, n) times removed and n - min(m, n) times added. */
  ghost predicate IsDiff<L, R>(
    local: seq<L>, localKey: L -> string, remote: seq<R>, remoteKey: R -> string,
    removed: seq<L>, commonDB: seq<L>, commonExt: seq<R>, added: seq<R>)
  {
    && multiset(removed) + multiset(commonDB) == multiset(local)
    && multiset(added) + multiset(commonExt) == multiset(remote)
    && Map(localKey, commonDB) == Map(remoteKey, commonExt)
    && var m, n := multiset(Map(localKey, local)), multiset(Map(remoteKey, remote));
    && multiset(Map(localKey, commonDB)) == m * n
    && multiset(Map(localKey, removed)) == m - n
    && multiset(Map(remoteKey, added)) == n - m
  }

  /** The counts a diff comes down to, key by key. */
  lemma DiffCounts<L, R>(
    local: seq<L>, localKey: L -> string, remote: seq<R>, remoteKey: R -> string,
    removed: seq<L>, commonDB: seq<L>, commonExt: seq<R>, added: seq<R>, k: string)
    requires IsDiff(local, localKey, remote, remoteKey, removed, commonDB, commonExt, added)
    ensures var m, n := Count(localKey, local, k), Count(remoteKey, remote, k);
            && Count(localKey, commonDB, k) == Count(remoteKey, commonExt, k) == (if m <= n then m else n)
            && Count(localKey, removed, k) == (if m <= n then 0 else m - n)
            && Count(remoteKey, added, k) == if m <= n then n - m else 0
  {
    CountIsMultiplicity(localKey, local, k);
    CountIsMultiplicity(remoteKey, remote, k);
    CountIsMultiplicity(localKey, commonDB, k);
    CountIsMultiplicity(remoteKey, commonExt, k);
    CountIsMultiplicity(localKey, removed, k);
    CountIsMultiplicity(remoteKey, added, k);
  }

  /** How many objects have the key. */
  function Count<T>(key: T -> string, s: seq<T>, k: string): nat {
    if s == [] then 0 else (if key(s[0]) == k then 1 else 0) + Count(key, s[1..], k)
  }

  lemma {:induction false} CountIsMultiplicity<T>(key: T -> string, s: seq<T>, k: string)
    ensures Count(key, s, k) == multiset(Map(key, s))[k]
  {
    if s != [] {
      CountIsMultiplicity(key, s[1..], k);
      assert Map(key, s) == [key(s[0])] + Map(key, s[1..]);
    }
  }

  /** Every key in done comes before every key still unread from index i on. */
  ghost predicate Before<T>(done: seq<string>, s: seq<Element<T>>, i: nat) {
    forall k, x :: k in done && i <= x < |s| ==> CompareKeys(k, s[x].key) < 0
  }

  ghost predicate Apart(a: seq<string>, b: seq<string>) {
    forall k :: k in a ==> k !in b
  }

  /** The merge has read ls[..i] and rs[..j]. */
  ghost predicate Progress<L, R>(
    ls: seq<Element<L>>, localKey: L -> string, i: nat,
    rs: seq<Element<R>>, remoteKey: R -> string, j: nat,
    removed: seq<L>, commonDB: seq<L>, commonExt: seq<R>, added: seq<R>)
  {
    && i <= |ls| && j <= |rs|
    && multiset(removed) + multiset(commonDB) == multiset(Values(ls[..i]))
    && multiset(added) + multiset(commonExt) == multiset(Values(rs[..j]))
    && Map(localKey, commonDB) == Map(remoteKey, commonExt)
    && Before(Map(localKey, removed), rs, j)
    && Before(Map(remoteKey, added), ls, i)
    && Apart(Map(localKey, removed), Map(remoteKey, added))
  }

  lemma ReadOne<T>(s: seq<Element<T>>, i: nat)
    requires i < |s|
    ensures multiset(Values(s[..i + 1])) == multiset(Values(s[..i])) + multiset{s[i].value}
  {
    assert Values(s[..i + 1]) == Values(s[..i]) + [s[i].value];
  }

  lemma StepCommon<L, R>(
    ls: seq<Element<L>>, localKey: L -> string, i: nat,
    rs: seq<Element<R>>, remoteKey: R -> string, j: nat,
    removed: seq<L>, commonDB: seq<L>, commonExt: seq<R>, added: seq<R>)
    requires Keyed(ls, localKey) && Keyed(rs, remoteKey)
    requires Progress(ls, localKey, i, rs, remoteKey, j, removed, commonDB, commonExt, added)
    requires i < |ls| && j < |rs| && ls[i].key == rs[j].key
    ensures Progress(ls, localKey, i + 1, rs, remoteKey, j + 1,
                     removed, commonDB + [ls[i].value], commonExt + [rs[j].value], added)
  {
    ReadOne(ls, i);
    ReadOne(rs, j);
    MapAppend(localKey, commonDB, ls[i].value);
    MapAppend(remoteKey, commonExt, rs[j].value);
  }

  /** The smaller or only remaining head goes to its own side's leftovers. Used with the sides
      swapped for an added object. */
  lemma StepLeftover<L, R>(
    ls: seq<Element<L>>, localKey: L -> string, i: nat,
    rs: seq<Element<R>>, remoteKey: R -> string, j: nat,
    removed: seq<L>, commonDB: seq<L>, commonExt: seq<R>, added: seq<R>)
    requires Keyed(ls, localKey) && Sorted(rs)
    requires Progress(ls, localKey, i, rs, remoteKey, j, removed, commonDB, commonExt, added)
    requires i < |ls| && (j < |rs| ==> CompareKeys(ls[i].key, rs[j].key) < 0)
    ensures Progress(ls, localKey, i + 1, rs, remoteKey, j, removed + [ls[i].value], commonDB, commonExt, added)
  {
    ReadOne(ls, i);
    MapAppend(localKey, removed, ls[i].value);
    var k := ls[i].key;
    forall x | j <= x < |rs| ensures CompareKeys(k, rs[x].key) < 0 {
      if x > j { CompareKeysTransitive(k, rs[j].key, rs[x].key); }
    }
    CompareKeysMeaning(k, k);
  }

  lemma ProgressSwap<L, R>(
    ls: seq<Element<L>>, localKey: L -> string, i: nat,
    rs: seq<Element<R>>, remoteKey: R -> string, j: nat,
    removed: seq<L>, commonDB: seq<L>, commonExt: seq<R>, added: seq<R>)
    requires Progress(ls, localKey, i, rs, remoteKey, j, removed, commonDB, commonExt, added)
    ensures Progress(rs, remoteKey, j, ls, localKey, i, added, commonExt, commonDB, removed)
  {
  }

  lemma KeysSplit<T>(key: T -> string, a: seq<T>, b: seq<T>, all: seq<T>)
    requires multiset(a) + multiset(b) == multiset(all)
    ensures multiset(Map(key, a)) + multiset(Map(key, b)) == multiset(Map(key, all))
  {
    assert multiset(a + b) == multiset(all);
    MapPermutation(key, a + b, all);
    assert Map(key, a + b) == Map(key, a) + Map(key, b);
  }

  lemma SplitIsIntersection(m: multiset<string>, n: multiset<string>,
                            common: multiset<string>, removed: seq<string>, added: seq<string>)
    requires multiset(removed) + common == m && multiset(added) + common == n
    requires Apart(removed, added)
    ensures common == m * n && multiset(removed) == m - n && multiset(added) == n - m
  {
    forall k: string | true ensures multiset(removed)[k] == 0 || multiset(added)[k] == 0 {
      if k in multiset(removed) { assert k in removed; }
    }
  }

  /** All read: leftovers that share no key make the shared part the intersection. */
  lemma ProgressDone<L, R>(
    local: seq<L>, localKey: L -> string, ls: seq<Element<L>>,
    remote: seq<R>, remoteKey: R -> string, rs: seq<Element<R>>,
    removed: seq<L>, commonDB: seq<L>, commonExt: seq<R>, added: seq<R>)
    requires multiset(Values(ls)) == multiset(local) && multiset(Values(rs)) == multiset(remote)
    requires Progress(ls, localKey, |ls|, rs, remoteKey, |rs|, removed, commonDB, commonExt, added)
    ensures IsDiff(local, localKey, remote, remoteKey, removed, commonDB, commonExt, added)
  {
    assert ls[..|ls|] == ls && rs[..|rs|] == rs;
    KeysSplit(localKey, removed, commonDB, local);
    KeysSplit(remoteKey, added, commonExt, remote);
    assert Apart(Map(localKey, removed), Map(remoteKey, added));
    SplitIsIntersection(
      multiset(Map(localKey, local)), multiset(Map(remoteKey, remote)),
      multiset(Map(localKey, commonDB)), Map(localKey, removed), Map(remoteKey, added));
  }

  method CompareSets<L(==), R(==)>(
    local: seq<L>, localKey: L -> string, remote: seq<R>, remoteKey: R -> string)
    returns (removed: seq<L>, commonDB: seq<L>, commonExt: seq<R>, added: seq<R>)
    ensures IsDiff(local, localKey, remote, remoteKey, removed, commonDB, commonExt, added)
  {
    var dbSet := ToElements(local, localKey);
    var extSet := ToElements(remote, remoteKey);
    ghost var dbList, extList := dbSet[..], extSet[..];
    Sort(dbSet);
    Sort(extSet);
    ghost var ls, rs := dbSet[..], extSet[..];
    SortKeepsObjects(dbList, ls, localKey);
    SortKeepsObjects(extList, rs, remoteKey);

    removed, commonDB, commonExt, added := [], [], [], [];
    var i, j := 0, 0;
    while i < dbSet.Length || j < extSet.Length
      invariant i <= dbSet.Length && j <= extSet.Length
      invariant dbSet[..] == ls && extSet[..] == rs
      invariant Progress(ls, localKey, i, rs, remoteKey, j, removed, commonDB, commonExt, added)
      decreases dbSet.Length - i + extSet.Length - j
    {
      if i < dbSet.Length && j < extSet.Length {
        var cmp := CompareKeys(dbSet[i].key, extSet[j].key);
        CompareKeysMeaning(dbSet[i].key, extSet[j].key);
        if cmp == 0 {
          StepCommon(ls, localKey, i, rs, remoteKey, j, removed, commonDB, commonExt, added);
          commonDB := commonDB + [dbSet[i].value];
          commonExt := commonExt + [extSet[j].value];
          i := i + 1;
          j := j + 1;
        } else if cmp < 0 {
          StepLeftover(ls, localKey, i, rs, remoteKey, j, removed, commonDB, commonExt, added);
          removed := removed + [dbSet[i].value];
          i := i + 1;
        } else {
          ProgressSwap(ls, localKey, i, rs, remoteKey, j, removed, commonDB, commonExt, added);
          StepLeftover(rs, remoteKey, j, ls, localKey, i, added, commonExt, commonDB, removed);
          added := added + [extSet[j].value];
          j := j + 1;
        }
      } else if i >= dbSet.Length {
        ProgressSwap(ls, localKey, i, rs, remoteKey, j, removed, commonDB, commonExt, added);
        StepLeftover(rs, remoteKey, j, ls, localKey, i, added, commonExt, commonDB, removed);
        added := added + [extSet[j].value];
        j := j + 1;
      } else if j >= extSet.Length {
        StepLeftover(ls, localKey, i, rs, remoteKey, j, removed, commonDB, commonExt, added);
        removed := removed + [dbSet[i].value];
        i := i + 1;
      }
    }
    ProgressDone(local, localKey, ls, remote, remoteKey, rs, removed, commonDB, commonExt, added);
  }
}
