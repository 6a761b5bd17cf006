/**
 The calico node agent keeps the IP pools it manages for its node equal to the configured ones
 (pkg/calico-node-agent/serve/serve.go:115-257, pkg/calico-node-agent/types/ippool.go).
 */
module IPPools {
  import opened Wrappers

  const LABEL_MANAGED := "yunion.io/managed"
  const MANAGED_BY_AGENT := "calico-node-agent"
  const LABEL_HOSTNAME := "kubernetes.io/hostname"

  datatype Pool = Pool(cidr: string, nodeSelector: string, labels: map<string, string>)

  type Pools = map<string, Pool>

  datatype Item = Item(name: string, pool: Pool)

  /** GetCIDR: the printed form of a configured CIDR, if it parses. */
  type Printer = string -> Option<string>

  function Selector(node: string): string {
    LABEL_HOSTNAME + " == \"" + node + "\""
  }

  /** The replacements getIPPoolName makes. */
  function Dashed(s: string): (r: string)
    ensures |r| == |s|
    ensures forall i :: 0 <= i < |s| ==> r[i] == if s[i] == '.' || s[i] == '/' then '-' else s[i]
  {
    seq(|s|, i requires 0 <= i < |s| => if s[i] == '.' || s[i] == '/' then '-' else s[i])
  }

  function PoolName(node: string, cidr: string): string {
    Dashed(node + "-" + cidr)
  }

  /** The pools the agent of a node answers for. */
  predicate Mine(node: string, p: Pool) {
    p.nodeSelector == Selector(node) && LABEL_MANAGED in p.labels && p.labels[LABEL_MANAGED] == MANAGED_BY_AGENT
  }

  function NewPool(node: string, cidr: string): Pool {
    Pool(cidr, Selector(node), map[LABEL_MANAGED := MANAGED_BY_AGENT])
  }

  /** The CIDRs managed for a node. */
  function Cidrs(pools: Pools, node: string): set<string> {
    set n | n in pools && Mine(node, pools[n]) :: pools[n].cidr
  }

  function Elements(s: seq<string>): set<string> {
    set x | x in s
  }

  /** Only pools managed for the node differ. */
  ghost predicate OnlyMineChange(node: string, pools: Pools, pools': Pools) {
    && (forall n :: n in pools && !Mine(node, pools[n]) ==> n in pools' && pools'[n] == pools[n])
    && (forall n :: n in pools' && !Mine(node, pools'[n]) ==> n in pools && pools'[n] == pools[n])
  }

  /** A pool managed for one node is not managed for another, so other nodes' sets stay. */
  lemma OtherNodesKeepTheirs(node: string, other: string, pools: Pools, pools': Pools)
    requires OnlyMineChange(node, pools, pools') && node != other
    ensures Cidrs(pools', other) == Cidrs(pools, other)
  {
    assert Selector(node) != Selector(other) by {
      var k := |LABEL_HOSTNAME + " == \""|;
      if |node| == |other| {
        var i :| 0 <= i < |node| && node[i] != other[i];
        assert Selector(node)[k + i] == node[i] && Selector(other)[k + i] == other[i];
      }
    }
    forall n | n in pools && Mine(other, pools[n]) ensures n in pools' && pools'[n] == pools[n] {}
    forall n | n in pools' && Mine(other, pools'[n]) ensures n in pools && pools'[n] == pools[n] {}
  }

  // ----- what a successful run ends with -----

  /** The CIDRs managed once the rest of the configuration is gone through, have being managed by now:
      what is there is skipped, what is not is added in its printed form. */
  ghost function Grown(form: Printer, have: set<string>, todo: seq<string>): set<string>
    decreases todo
  {
    if todo == [] then have
    else if todo[0] in have || form(todo[0]).None? then Grown(form, have, todo[1..])
    else Grown(form, have + {form(todo[0]).value}, todo[1..])
  }

  /** A printed form prints as itself, unless it does not parse: that of an IPv6 CIDR starts with the
      text for a missing address. */
  ghost predicate Prints(form: Printer) {
    forall c :: form(c).Some? ==> form(form(c).value).None? || form(form(c).value) == form(c)
  }

  ghost predicate Canonical(form: Printer, c: string) {
    form(c) == Some(c)
  }

  /** With every CIDR printed as it is configured, or there already, the result is their union. */
  lemma {:induction false} GrownOfCanonical(form: Printer, have: set<string>, todo: seq<string>)
    requires forall c :: c in todo ==> c in have || Canonical(form, c)
    ensures Grown(form, have, todo) == have + Elements(todo)
    decreases todo
  {
    if todo != [] {
      var c := todo[0];
      assert todo == [c] + todo[1..];
      assert Elements(todo) == {c} + Elements(todo[1..]);
      GrownOfCanonical(form, have + {c}, todo[1..]);
      if c in have { assert have + {c} == have; }
    }
  }

  /** A CIDR that is neither there nor in printed form never appears. */
  lemma {:induction false} GrownMisses(form: Printer, have: set<string>, todo: seq<string>, c: string)
    requires Prints(form) && c !in have && form(c).Some? && !Canonical(form, c)
    ensures c !in Grown(form, have, todo)
    decreases todo
  {
    if todo != [] {
      var d := form(todo[0]);
      if todo[0] in have || d.None? {
        GrownMisses(form, have, todo[1..], c);
      } else {
        GrownMisses(form, have + {d.value}, todo[1..], c);
      }
    }
  }

  /** A run that succeeds has found every configured CIDR managed or printed it, or met it as the
      printed form of another. */
  ghost predicate Answered(form: Printer, before: set<string>, configured: seq<string>) {
    forall c :: c in configured && c !in before ==>
                  exists d :: d in configured && d !in before && form(d).Some? && (d == c || form(d) == Some(c))
  }

  /** A successful run makes the managed set the configured one exactly when every configured CIDR was
      managed before or is in printed form. */
  lemma ReachesConfiguredIff(form: Printer, before: set<string>, configured: seq<string>)
    requires Prints(form) && Answered(form, before, configured)
    ensures Grown(form, before * Elements(configured), configured) == Elements(configured)
            <==> forall c :: c in configured ==> c in before || Canonical(form, c)
  {
    var have := before * Elements(configured);
    if forall c :: c in configured ==> c in before || Canonical(form, c) {
      GrownOfCanonical(form, have, configured);
    } else {
      var c :| c in configured && c !in before && !Canonical(form, c);
      var d :| d in configured && d !in before && form(d).Some? && (d == c || form(d) == Some(c));
      GrownMisses(form, have, configured, d);
      assert d in Elements(configured);
    }
  }

  /** The managed set after n more successful runs. */
  ghost function Rounds(form: Printer, before: set<string>, configured: seq<string>, n: nat): set<string>
    decreases n
  {
    if n == 0 then before
    else Rounds(form, Grown(form, before * Elements(configured), configured), configured, n - 1)
  }

  /** A configured CIDR that parses but is not in printed form, and is not managed to begin with, never is:
      no number of successful runs reaches the configured set, so each of them writes again. */
  lemma {:induction false} NeverSettles(form: Printer, before: set<string>, configured: seq<string>, c: string, n: nat)
    requires Prints(form) && c in configured && c !in before && form(c).Some? && !Canonical(form, c)
    ensures c !in Rounds(form, before, configured, n) && Rounds(form, before, configured, n) != Elements(configured)
    decreases n
  {
    assert c in Elements(configured);
    if n > 0 {
      GrownMisses(form, before * Elements(configured), configured, c);
      NeverSettles(form, Grown(form, before * Elements(configured), configured), configured, c, n - 1);
    }
  }

  /** For instance an address without a mask: from the second run on, each run finds the pool it made the
      last time, which is not configured, and ends with the same pool made anew. */
  lemma BareAddressIsRemade(form: Printer, n: nat)
    requires Prints(form) && form("10.0.0.1") == Some("10.0.0.1/32") && n > 0
    ensures Rounds(form, {}, ["10.0.0.1"], n) == {"10.0.0.1/32"}
    ensures {"10.0.0.1/32"} * Elements(["10.0.0.1"]) == {}
    decreases n
  {
    var configured := ["10.0.0.1"];
    assert |"10.0.0.1"| != |"10.0.0.1/32"|;
    assert Elements(configured) == {"10.0.0.1"} && configured[1..] == [];
    assert {} * Elements(configured) == {} && {"10.0.0.1/32"} * Elements(configured) == {};
    assert Grown(form, {}, configured) == Grown(form, {} + {"10.0.0.1/32"}, []) == {"10.0.0.1/32"};
    if n > 1 {
      RoundsAgree(form, {}, {"10.0.0.1/32"}, configured, n - 1);
      BareAddressIsRemade(form, n - 1);
    }
  }

  /** Runs depend only on what of the managed set is configured. */
  lemma RoundsAgree(form: Printer, a: set<string>, b: set<string>, configured: seq<string>, n: nat)
    requires a * Elements(configured) == b * Elements(configured) && n > 0
    ensures Rounds(form, a, configured, n) == Rounds(form, b, configured, n)
  {
  }

  // ----- names -----

  /** The shape of a printed IPv4 CIDR: one slash, no dot after it and no dash. */
  predicate IsPrinted(c: string) {
    && '-' !in c
    && exists k :: 0 <= k < |c| && IsSlash(c, k)
  }

  predicate IsSlash(c: string, k: nat)
    requires k < |c|
  {
    c[k] == '/' && '/' !in c[..k] && '/' !in c[k + 1..] && '.' !in c[k + 1..]
  }

  lemma NamesAndSelectors()
    ensures PoolName("n1", "10.0.0.0/8") == "n1-10-0-0-0-8"
    ensures Selector("n1") == "kubernetes.io/hostname == \"n1\""
  {
    assert "n1" + "-" + "10.0.0.0/8" == "n1-10.0.0.0/8";
  }

  /** Different printed CIDRs give a node's pools different names, though dots and slashes fall together. */
  lemma PoolNamesDiffer(node: string, a: string, b: string)
    requires IsPrinted(a) && IsPrinted(b) && PoolName(node, a) == PoolName(node, b)
    ensures a == b
  {
    var p := node + "-";
    assert |p + a| == |p + b|;
    var k :| 0 <= k < |a| && IsSlash(a, k);
    var m :| 0 <= m < |b| && IsSlash(b, m);
    forall i | 0 <= i < |a| ensures Dashed(a)[i] == Dashed(b)[i] {
      assert PoolName(node, a)[|p| + i] == Dashed(a)[i] && PoolName(node, b)[|p| + i] == Dashed(b)[i];
    }
    SlashNotLater(a, b, k, m);
    SlashNotLater(b, a, m, k);
    forall i | 0 <= i < |a| ensures a[i] == b[i] {
      assert Dashed(a)[i] == Dashed(b)[i];
      assert i < k ==> a[i] == a[..k][i] && b[i] == b[..k][i];
      assert i > k ==> a[i] == a[k + 1..][i - k - 1] && b[i] == b[k + 1..][i - k - 1];
      assert a[i] != '-' && b[i] != '-';
    }
  }

  lemma SlashNotLater(a: string, b: string, k: nat, m: nat)
    requires k < |a| == |b| && m < |b| && IsSlash(a, k) && IsSlash(b, m) && '-' !in b
    requires forall i :: 0 <= i < |a| ==> Dashed(a)[i] == Dashed(b)[i]
    ensures k <= m
  {
    assert Dashed(b)[k] == '-';
    assert b[k] == '.' || b[k] == '/' by { assert b[k] in b; }
    assert forall i :: m < i < |b| ==> b[i] == b[m + 1..][i - m - 1];
  }

  /** The node's pools bear the names the agent gives, and nobody else's pool takes a name it needs. */
  ghost predicate Tidy(pools: Pools, node: string, configured: seq<string>) {
    && (forall n :: n in pools && Mine(node, pools[n]) ==> n == PoolName(node, pools[n].cidr))
    && (forall n, c :: n in pools && c in configured && n == PoolName(node, c) ==> Mine(node, pools[n]))
  }

  ghost predicate WellConfigured(form: Printer, configured: seq<string>) {
    forall c :: c in configured ==> Canonical(form, c) && IsPrinted(c)
  }

  /** In a tidy store whose managed CIDRs are all configured, an unmanaged CIDR's name is free. */
  lemma NameIsFree(pools: Pools, node: string, configured: seq<string>, form: Printer, c: string)
    requires Tidy(pools, node, configured) && WellConfigured(form, configured)
    requires Cidrs(pools, node) <= Elements(configured) && c in configured && c !in Cidrs(pools, node)
    ensures PoolName(node, c) !in pools
  {
    var n := PoolName(node, c);
    if n in pools {
      var d := pools[n].cidr;
      assert d in Cidrs(pools, node);
      assert d in configured;
      PoolNamesDiffer(node, c, d);
      assert false;
    }
  }

  // ----- the store and the agent -----

  /** The calico datastore; a call may fail, and a name can be taken only once. */
  class Datastore {
    var pools: Pools
    ghost var faults: nat
    ghost var writes: nat

    constructor (pools: Pools)
      ensures this.pools == pools && faults == 0 && writes == 0
    {
      this.pools, this.faults, this.writes := pools, 0, 0;
    }

    method Call() returns (ok: bool)
      modifies this`faults
      ensures if ok then faults == old(faults) else faults > old(faults)
    {
      if * {
        return true;
      }
      faults := faults + 1;
      return false;
    }

    /** The pools in some order, each once. */
    method List() returns (ok: bool, items: seq<Item>)
      modifies this`faults
      ensures if ok then faults == old(faults) else faults > old(faults)
      ensures ok ==> forall i :: 0 <= i < |items| ==> items[i].name in pools && pools[items[i].name] == items[i].pool
      ensures ok ==> forall n :: n in pools ==> Item(n, pools[n]) in items
      ensures ok ==> forall i, j :: 0 <= i < j < |items| ==> items[i].name != items[j].name
    {
      ok := Call();
      items := [];
      if !ok {
        return;
      }
      var rest := pools.Keys;
      while rest != {}
        invariant rest <= pools.Keys
        invariant forall i :: 0 <= i < |items| ==>
          items[i].name in pools && pools[items[i].name] == items[i].pool && items[i].name !in rest
        invariant forall n :: n in pools && n !in rest ==> Item(n, pools[n]) in items
        invariant forall i, j :: 0 <= i < j < |items| ==> items[i].name != items[j].name
        decreases rest
      {
        var n :| n in rest;
        items, rest := items + [Item(n, pools[n])], rest - {n};
      }
    }

    method Delete(name: string) returns (ok: bool)
      modifies this`pools, this`faults, this`writes
      ensures if ok then pools == old(pools) - {name} && writes == old(writes) + 1 && faults == old(faults)
              else pools == old(pools) && writes == old(writes) && faults > old(faults)
    {
      ok := Call();
      if ok {
        pools, writes := pools - {name}, writes + 1;
      }
    }

    method Create(name: string, pool: Pool) returns (ok: bool)
      modifies this`pools, this`faults, this`writes
      ensures ok ==> name !in old(pools) && pools == old(pools)[name := pool] && writes == old(writes) + 1 && faults == old(faults)
      ensures !ok ==> pools == old(pools) && writes == old(writes) && (name in old(pools) || faults > old(faults))
      ensures faults >= old(faults)
    {
      ok := Call();
      if ok && name in pools {
        return false;
      }
      if ok {
        pools, writes := pools[name := pool], writes + 1;
      }
    }
  }

  class Agent {
    const nodeName: string
    const configured: seq<string>
    const form: Printer

    constructor (nodeName: string, configured: seq<string>, form: Printer)
      ensures this.nodeName == nodeName && this.configured == configured && this.form == form
    {
      this.nodeName, this.configured, this.form := nodeName, configured, form;
    }

    /** listIPPools: exactly the pools that have the node's selector and the agent's label, each once. */
    method ListIPPools(store: Datastore) returns (ok: bool, mine: seq<Item>)
      modifies store`faults
      ensures if ok then store.faults == old(store.faults) else store.faults > old(store.faults)
      ensures ok ==> forall i :: 0 <= i < |mine| ==> IsMineIn(store.pools, mine[i])
      ensures ok ==> forall n :: n in store.pools && Mine(nodeName, store.pools[n]) ==> Item(n, store.pools[n]) in mine
      ensures ok ==> forall i, j :: 0 <= i < j < |mine| ==> mine[i].name != mine[j].name
      ensures ok ==> ListsPools(store.pools, mine)
    {
      mine := [];
      var items;
      ok, items := store.List();
      if !ok {
        return;
      }
      for i := 0 to |items|
        invariant forall k :: 0 <= k < |mine| ==> IsMineIn(store.pools, mine[k]) && mine[k] in items[..i]
        invariant forall k :: 0 <= k < i && Mine(nodeName, items[k].pool) ==> items[k] in mine
        invariant forall k, l :: 0 <= k < l < |mine| ==> mine[k].name != mine[l].name
      {
        if items[i].pool.nodeSelector != Selector(nodeName) {
          continue;
        }
        if LABEL_MANAGED !in items[i].pool.labels {
          continue;
        }
        if items[i].pool.labels[LABEL_MANAGED] != MANAGED_BY_AGENT {
          continue;
        }
        mine := mine + [items[i]];
      }
    }

    /** The listed pools are those with the node's selector and the agent's label. */
    ghost predicate ListsPools(pools: Pools, items: seq<Item>) {
      forall item :: item in items <==>
        item.name in pools && pools[item.name] == item.pool && IsPoolOf(pools, item.name, item.pool.cidr)
    }

    predicate IsMineIn(pools: Pools, item: Item) {
      item.name in pools && pools[item.name] == item.pool && Mine(nodeName, item.pool)
    }

    /** isContainIPPool. */
    method IsContainIPPool(remote: Pool) returns (r: bool)
      ensures r <==> remote.cidr in configured
    {
      for i := 0 to |configured|
        invariant remote.cidr !in configured[..i]
      {
        if configured[i] == remote.cidr {
          return true;
        }
      }
      return false;
    }

    /** isRemoteExistLocalPool. */
    method IsRemoteExistLocalPool(remotes: seq<string>, cidr: string) returns (r: bool)
      ensures r <==> cidr in remotes
    {
      for i := 0 to |remotes|
        invariant cidr !in remotes[..i]
      {
        if remotes[i] == cidr {
          return true;
        }
      }
      return false;
    }

    /** Pool n has the CIDR, the node's selector and the agent's label. */
    predicate IsPoolOf(pools: Pools, n: string, cidr: string) {
      && n in pools && pools[n].cidr == cidr && pools[n].nodeSelector == LABEL_HOSTNAME + " == \"" + nodeName + "\""
      && LABEL_MANAGED in pools[n].labels && pools[n].labels[LABEL_MANAGED] == MANAGED_BY_AGENT
    }

    lemma CidrsAreOfPools(pools: Pools, c: string)
      ensures c in Cidrs(pools, nodeName) <==> exists n :: IsPoolOf(pools, n, c)
    {
      if c in Cidrs(pools, nodeName) {
        var n :| n in pools && Mine(nodeName, pools[n]) && pools[n].cidr == c;
        assert IsPoolOf(pools, n, c);
      }
    }

    /** A pool made from the configuration. */
    ghost predicate IsNew(name: string, pool: Pool) {
      exists c :: c in configured && name == PoolName(nodeName, c) && form(c).Some? && pool == NewPool(nodeName, form(c).value)
    }

    /** What every run keeps, whether it succeeds or not: pools of others, configured pools, and that
        every other pool left is a new one made from the configuration. */
    ghost predicate Sound(pools: Pools, pools': Pools) {
      && OnlyMineChange(nodeName, pools, pools')
      && (forall n :: n in pools && Mine(nodeName, pools[n]) && pools[n].cidr in configured ==>
            n in pools' && pools'[n] == pools[n])
      && (forall n :: n in pools' && !(n in pools && pools'[n] == pools[n]) ==> IsNew(n, pools'[n]))
      && (Tidy(pools, nodeName, configured) && WellConfigured(form, configured) ==> Tidy(pools', nodeName, configured))
    }

    /** Of the listed pools those before i that are not configured are gone. */
    ghost predicate Trimmed(pools: Pools, pools': Pools, remotes: seq<Item>, i: nat) {
      && (forall n :: n in pools' ==> n in pools && pools'[n] == pools[n])
      && (forall n :: n in pools && n !in pools' ==> Mine(nodeName, pools[n]))
      && (forall k :: 0 <= k < |remotes| ==>
            (remotes[k].name in pools' <==> k >= i || remotes[k].pool.cidr in configured))
    }

    ghost predicate Listed(pools: Pools, remotes: seq<Item>) {
      && (forall i :: 0 <= i < |remotes| ==> IsMineIn(pools, remotes[i]))
      && (forall n :: n in pools && Mine(nodeName, pools[n]) ==> Item(n, pools[n]) in remotes)
    }

    lemma TrimOne(pools: Pools, pools': Pools, remotes: seq<Item>, i: nat)
      requires Listed(pools, remotes) && i < |remotes| && Trimmed(pools, pools', remotes, i)
      requires forall i, j :: 0 <= i < j < |remotes| ==> remotes[i].name != remotes[j].name
      ensures Trimmed(pools, if remotes[i].pool.cidr in configured then pools' else pools' - {remotes[i].name}, remotes, i + 1)
    {
    }

    lemma ListedCidrs(pools: Pools, remotes: seq<Item>)
      requires Listed(pools, remotes)
      ensures forall i :: 0 <= i < |remotes| ==> remotes[i].pool.cidr in Cidrs(pools, nodeName)
      ensures forall c :: c in Cidrs(pools, nodeName) ==> exists i :: 0 <= i < |remotes| && remotes[i].pool.cidr == c
    {
      forall c | c in Cidrs(pools, nodeName) ensures exists i :: 0 <= i < |remotes| && remotes[i].pool.cidr == c {
        var n :| n in pools && Mine(nodeName, pools[n]) && pools[n].cidr == c;
        var i :| 0 <= i < |remotes| && remotes[i] == Item(n, pools[n]);
      }
    }

    lemma TrimmedCidrs(pools: Pools, pools': Pools, remotes: seq<Item>)
      requires Listed(pools, remotes) && Trimmed(pools, pools', remotes, |remotes|)
      ensures Cidrs(pools', nodeName) == Cidrs(pools, nodeName) * Elements(configured)
    {
      ListedCidrs(pools, remotes);
      forall n | n in pools' && Mine(nodeName, pools'[n]) ensures pools'[n].cidr in configured {
        var i :| 0 <= i < |remotes| && remotes[i] == Item(n, pools[n]);
      }
      forall c | c in Cidrs(pools, nodeName) && c in configured ensures c in Cidrs(pools', nodeName) {
        var i :| 0 <= i < |remotes| && remotes[i].pool.cidr == c;
        assert remotes[i].name in pools';
      }
    }

    lemma TrimmedSound(pools: Pools, pools': Pools, remotes: seq<Item>, i: nat)
      requires Listed(pools, remotes) && Trimmed(pools, pools', remotes, i)
      ensures Sound(pools, pools')
    {
      forall n | n in pools && Mine(nodeName, pools[n]) && pools[n].cidr in configured ensures n in pools' {
        var k :| 0 <= k < |remotes| && remotes[k] == Item(n, pools[n]);
        assert remotes[k].name in pools';
      }
    }

    /** What the deleting half has seen by index i: kept lists the configured CIDRs, and quiet says
        whether there were no others. */
    ghost predicate Seen(remotes: seq<Item>, kept: seq<string>, quiet: bool, i: nat)
      requires i <= |remotes|
    {
      && (forall c :: c in kept ==> c in configured && exists k :: 0 <= k < i && remotes[k].pool.cidr == c)
      && (forall k :: 0 <= k < i && remotes[k].pool.cidr in configured ==> remotes[k].pool.cidr in kept)
      && (quiet <==> forall k :: 0 <= k < i ==> remotes[k].pool.cidr in configured)
    }

    lemma SeenAll(pools: Pools, remotes: seq<Item>, kept: seq<string>, quiet: bool)
      requires Listed(pools, remotes) && Seen(remotes, kept, quiet, |remotes|)
      ensures Elements(kept) == Cidrs(pools, nodeName) * Elements(configured)
      ensures quiet <==> Cidrs(pools, nodeName) <= Elements(configured)
    {
      ListedCidrs(pools, remotes);
    }

    lemma SeeOne(remotes: seq<Item>, kept: seq<string>, quiet: bool, i: nat)
      requires i < |remotes| && Seen(remotes, kept, quiet, i)
      ensures var c := remotes[i].pool.cidr;
              if c in configured then Seen(remotes, kept + [c], quiet, i + 1) else Seen(remotes, kept, false, i + 1)
    {
      var c := remotes[i].pool.cidr;
      if c in configured {
        forall d | d in kept + [c] ensures exists k :: 0 <= k < i + 1 && remotes[k].pool.cidr == d {
          assert d in kept || d == remotes[i].pool.cidr;
        }
      }
    }

    /** The deleting half of syncIPPools. */
    method DeleteUnconfigured(store: Datastore, remotes: seq<Item>)
      returns (ok: bool, kept: seq<string>, ghost done: nat)
      requires Listed(store.pools, remotes)
      requires forall i, j :: 0 <= i < j < |remotes| ==> remotes[i].name != remotes[j].name
      modifies store
      ensures Trimmed(old(store.pools), store.pools, remotes, done)
      ensures if ok then store.faults == old(store.faults) else store.faults > old(store.faults)
      ensures ok ==> done == |remotes| && Seen(remotes, kept, store.writes == old(store.writes), done)
      ensures store.writes >= old(store.writes)
    {
      kept := [];
      ghost var was := store.pools;
      for i := 0 to |remotes|
        invariant store.faults == old(store.faults) && store.writes >= old(store.writes)
        invariant Trimmed(was, store.pools, remotes, i)
        invariant Seen(remotes, kept, store.writes == old(store.writes), i)
      {
        done := i;
        TrimOne(was, store.pools, remotes, i);
        SeeOne(remotes, kept, store.writes == old(store.writes), i);
        var contained := IsContainIPPool(remotes[i].pool);
        if contained {
          kept := kept + [remotes[i].pool.cidr];
          continue;
        }
        ok := store.Delete(remotes[i].name);
        if !ok {
          return;
        }
      }
      ok, done := true, |remotes|;
    }

    /** createIPPool: the CIDR of the new pool is the printed form of the configured one. */
    method CreateIPPool(store: Datastore, cidr: string) returns (ok: bool, created: string)
      requires cidr in configured && cidr !in Cidrs(store.pools, nodeName)
      modifies store
      ensures Sound(old(store.pools), store.pools)
      ensures ok ==> form(cidr) == Some(created) && store.faults == old(store.faults)
      ensures ok ==> Cidrs(store.pools, nodeName) == Cidrs(old(store.pools), nodeName) + {created}
      ensures ok ==> store.writes == old(store.writes) + 1
      ensures !ok && Tidy(old(store.pools), nodeName, configured) && WellConfigured(form, configured)
          && Cidrs(old(store.pools), nodeName) <= Elements(configured)
        ==> store.faults > old(store.faults)
      ensures store.faults >= old(store.faults) && store.writes >= old(store.writes)
    {
      ok, created := false, "";
      if form(cidr).None? {
        return;
      }
      created := form(cidr).value;
      var name := PoolName(nodeName, cidr);
      ghost var was := store.pools;
      if Tidy(was, nodeName, configured) && WellConfigured(form, configured) && Cidrs(was, nodeName) <= Elements(configured) {
        NameIsFree(was, nodeName, configured, form, cidr);
      }
      ok := store.Create(name, NewPool(nodeName, created));
      if ok {
        assert Mine(nodeName, store.pools[name]) && IsNew(name, store.pools[name]);
        forall n | n in was ensures n in store.pools && store.pools[n] == was[n] {}
      }
    }

    /** Where the creating half stands at index i, now being managed: what the rest of the configuration
        will make of it, and where each CIDR seen or added comes from. */
    ghost predicate Growing(have: set<string>, now: set<string>, i: nat, quiet: bool)
      requires i <= |configured|
    {
      && have <= now && (WellConfigured(form, configured) ==> now <= Elements(configured))
      && Grown(form, now, configured[i..]) == Grown(form, have, configured)
      && (if quiet then now == have && Elements(configured[..i]) <= have else !(Elements(configured) <= have))
      && (forall c :: c in now && c !in have ==> exists d :: d in configured && d !in have && form(d) == Some(c))
      && (forall k :: 0 <= k < i ==> configured[k] in now || form(configured[k]).Some?)
    }

    lemma GrowOne(have: set<string>, now: set<string>, i: nat, quiet: bool)
      requires i < |configured| && Growing(have, now, i, quiet)
      ensures configured[i] in now ==> Growing(have, now, i + 1, quiet)
      ensures configured[i] !in now && form(configured[i]).Some? ==>
        Growing(have, now + {form(configured[i]).value}, i + 1, false)
    {
      var rest := configured[i..];
      assert rest[0] == configured[i] && rest[1..] == configured[i + 1..];
      assert configured[..i + 1] == configured[..i] + [configured[i]];
      if WellConfigured(form, configured) {
        assert configured[i] in configured && Canonical(form, configured[i]);
      }
    }

    lemma GrownUp(have: set<string>, now: set<string>, quiet: bool)
      requires Growing(have, now, |configured|, quiet)
      ensures now == Grown(form, have, configured) && Answered(form, have, configured)
      ensures quiet <==> Elements(configured) <= have
    {
      assert configured[|configured|..] == [] && configured[..|configured|] == configured;
    }

    /** The creating half of syncIPPools; tmpPools lists the CIDRs managed so far. */
    method CreateMissing(store: Datastore, kept: seq<string>) returns (ok: bool)
      requires Elements(kept) == Cidrs(store.pools, nodeName) && Elements(kept) <= Elements(configured)
      modifies store
      ensures Sound(old(store.pools), store.pools)
      ensures ok ==> Cidrs(store.pools, nodeName) == Grown(form, Elements(kept), configured)
      ensures ok ==> Answered(form, Elements(kept), configured)
      ensures store.writes >= old(store.writes) && store.faults >= old(store.faults)
      ensures ok ==> (store.writes == old(store.writes) <==> Elements(configured) <= Elements(kept))
      ensures !ok && Tidy(old(store.pools), nodeName, configured) && WellConfigured(form, configured)
        ==> store.faults > old(store.faults)
    {
      var tmpPools := kept;
      ghost var have, was := Elements(kept), store.pools;
      assert configured[0..] == configured;
      for i := 0 to |configured|
        invariant Sound(was, store.pools)
        invariant store.faults == old(store.faults) && store.writes >= old(store.writes)
        invariant Elements(tmpPools) == Cidrs(store.pools, nodeName)
        invariant Growing(have, Elements(tmpPools), i, store.writes == old(store.writes))
      {
        var cidr := configured[i];
        GrowOne(have, Elements(tmpPools), i, store.writes == old(store.writes));
        var exist := IsRemoteExistLocalPool(tmpPools, cidr);
        if exist {
          continue;
        }
        ghost var before := store.pools;
        assert Tidy(was, nodeName, configured) && WellConfigured(form, configured) ==> Tidy(before, nodeName, configured);
        var created;
        ok, created := CreateIPPool(store, cidr);
        SoundThen(was, before, store.pools);
        if !ok {
          return;
        }
        ElementsOneMore(tmpPools, created);
        tmpPools := tmpPools + [created];
      }
      GrownUp(have, Elements(tmpPools), store.writes == old(store.writes));
      ok := true;
    }

    lemma ElementsOneMore(s: seq<string>, c: string)
      ensures Elements(s + [c]) == Elements(s) + {c}
    {
    }

    lemma SoundThen(a: Pools, b: Pools, c: Pools)
      requires Sound(a, b) && Sound(b, c)
      ensures Sound(a, c)
    {
    }

    /** syncIPPools. Whatever fails, a pool with the selector of another node, without the managed label or
        with another value under it is there unchanged, and one that is new has the node's selector and the
        label. A success leaves, for CIDRs configured in printed form, just those among the pools that have
        both. */
    method SyncIPPools(store: Datastore) returns (ok: bool)
      modifies store
      ensures OthersStay(old(store.pools), store.pools) && NewOnesAreMade(old(store.pools), store.pools)
      ensures ok ==> ManagesConfigured(store.pools)
      ensures Sound(old(store.pools), store.pools)
      ensures ok ==> Cidrs(store.pools, nodeName)
                     == Grown(form, Cidrs(old(store.pools), nodeName) * Elements(configured), configured)
      ensures ok ==> Answered(form, Cidrs(old(store.pools), nodeName), configured)
      ensures ok ==> (store.writes == old(store.writes) <==> Cidrs(old(store.pools), nodeName) == Elements(configured))
      ensures !ok && Tidy(old(store.pools), nodeName, configured) && WellConfigured(form, configured)
        ==> store.faults > old(store.faults)
      ensures store.faults >= old(store.faults)
    {
      var remotes, tmpPools;
      ghost var done;
      ok, remotes := ListIPPools(store);
      NothingDone(store.pools);
      if !ok {
        return;
      }
      ghost var pools, writes, was := store.pools, store.writes, Cidrs(store.pools, nodeName);
      ok, tmpPools, done := DeleteUnconfigured(store, remotes);
      TrimmedSound(pools, store.pools, remotes, done);
      SoundMeans(pools, store.pools);
      if !ok {
        return;
      }
      SeenAll(pools, remotes, tmpPools, store.writes == writes);
      TrimmedCidrs(pools, store.pools, remotes);
      ghost var trimmed := store.pools;
      ok := CreateMissing(store, tmpPools);
      SoundThen(pools, trimmed, store.pools);
      SoundMeans(pools, store.pools);
      assert Answered(form, Elements(tmpPools), configured) ==> Answered(form, was, configured);
      if ok {
        ManagedIsConfigured(store.pools, Elements(tmpPools));
      }
    }

    /** Pools with the selector of another node, without the managed label or with another value under it. */
    ghost predicate OthersStay(pools: Pools, pools': Pools) {
      forall n | n in pools ::
        (|| pools[n].nodeSelector != LABEL_HOSTNAME + " == \"" + nodeName + "\""
         || LABEL_MANAGED !in pools[n].labels || pools[n].labels[LABEL_MANAGED] != MANAGED_BY_AGENT)
        ==> n in pools' && pools'[n] == pools[n]
    }

    ghost predicate NewOnesAreMade(pools: Pools, pools': Pools) {
      forall n | n in pools' && !(n in pools && pools'[n] == pools[n]) ::
        && pools'[n].nodeSelector == LABEL_HOSTNAME + " == \"" + nodeName + "\""
        && pools'[n].labels == map[LABEL_MANAGED := MANAGED_BY_AGENT]
        && exists c :: c in configured && n == PoolName(nodeName, c) && form(c) == Some(pools'[n].cidr)
    }

    lemma NothingDone(pools: Pools)
      ensures Sound(pools, pools) && OthersStay(pools, pools) && NewOnesAreMade(pools, pools)
    {
    }

    lemma SoundMeans(pools: Pools, pools': Pools)
      requires Sound(pools, pools')
      ensures OthersStay(pools, pools') && NewOnesAreMade(pools, pools')
    {
    }

    /** If CIDRs are configured in printed form, they are the ones there is a pool of. */
    ghost predicate ManagesConfigured(pools: Pools) {
      (forall c :: c in configured ==> form(c) == Some(c)) ==>
        forall c :: c in configured <==> exists n :: IsPoolOf(pools, n, c)
    }

    lemma ManagedIsConfigured(pools: Pools, have: set<string>)
      requires have <= Elements(configured) && Cidrs(pools, nodeName) == Grown(form, have, configured)
      ensures ManagesConfigured(pools)
    {
      if forall c :: c in configured ==> form(c) == Some(c) {
        GrownOfCanonical(form, have, configured);
        forall c ensures c in configured <==> exists n :: IsPoolOf(pools, n, c) {
          CidrsAreOfPools(pools, c);
          assert c in Elements(configured) <==> c in configured;
        }
      }
    }
  }

  // ----- what the clauses of a run give together -----

  /** For CIDRs configured in printed form a successful run reaches the configured set, from whatever
      an earlier run, finished or not, has left. */
  lemma SuccessMeansConfigured(form: Printer, before: set<string>, after: set<string>, configured: seq<string>)
    requires after == Grown(form, before * Elements(configured), configured)
    requires forall c :: c in configured ==> Canonical(form, c)
    ensures after == Elements(configured)
  {
    GrownOfCanonical(form, before * Elements(configured), configured);
  }

  /** A run, cut short or not, and then two more. If no storage call of the later two fails, the second
      reaches the configured set and the third writes nothing. */
  method RunsConverge(agent: Agent, store: Datastore) returns (second: bool, third: bool, ghost faults: nat, ghost writes: nat)
    requires Tidy(store.pools, agent.nodeName, agent.configured) && WellConfigured(agent.form, agent.configured)
    modifies store
    ensures OnlyMineChange(agent.nodeName, old(store.pools), store.pools)
    ensures store.faults == faults ==>
      second && third && store.writes == writes && Cidrs(store.pools, agent.nodeName) == Elements(agent.configured)
  {
    var _ := agent.SyncIPPools(store);
    faults := store.faults;
    ghost var before := Cidrs(store.pools, agent.nodeName);
    second := agent.SyncIPPools(store);
    writes := store.writes;
    ghost var between := Cidrs(store.pools, agent.nodeName);
    third := agent.SyncIPPools(store);
    if second && third {
      SuccessMeansConfigured(agent.form, before, between, agent.configured);
      SuccessMeansConfigured(agent.form, between, Cidrs(store.pools, agent.nodeName), agent.configured);
    }
  }
}
