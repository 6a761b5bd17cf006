/**
 The resourceVersion guard: the 32-bit decimal parse whose error is thrown away, and the
 comparison that accepts or rejects an update (pkg/kubeserver/models/clusterresource.go:724-745).
 */
module Versions {

  const MAX_UINT32 := 0xFFFF_FFFF
  const MAX_INT32 := 0x7FFF_FFFF

  predicate IsDigit(c: char) { '0' <= c <= '9' }

  function DigitValue(c: char): nat
    requires IsDigit(c)
  {
    (c as int - '0' as int) as nat
  }

  // ----- the library parse -----

  datatype Parsed = Number(value: nat) | SyntaxError | RangeError

  /** Digits are read from the left. The first character that is no digit, or the first digit
      that takes the value over the bound, ends the parse: what follows is not looked at. */
  function ParseUint32From(s: string, n: nat): (r: Parsed)
    requires n <= MAX_UINT32
    ensures r.Number? ==> n <= r.value <= MAX_UINT32
  {
    if s == [] then Number(n)
    else if !IsDigit(s[0]) then SyntaxError
    else
      var n' := n * 10 + DigitValue(s[0]);
      if n' > MAX_UINT32 then RangeError else ParseUint32From(s[1..], n')
  }

  function ParseUint32(s: string): Parsed {
    if s == [] then SyntaxError else ParseUint32From(s, 0)
  }

  /** The value strconv.ParseInt(s, 10, 32) returns beside its error. */
  function ParseInt32(s: string): (v: int)
    ensures -MAX_INT32 - 1 <= v <= MAX_INT32
  {
    if s == [] then 0 else
      var signed := s[0] == '+' || s[0] == '-';
      var negative := s[0] == '-';
      var parsed := ParseUint32(if signed then s[1..] else s);
      if parsed.SyntaxError? then 0 else
        var magnitude := if parsed.Number? then parsed.value else MAX_UINT32;
        if !negative && magnitude > MAX_INT32 then MAX_INT32
        else if negative && magnitude > MAX_INT32 + 1 then -MAX_INT32 - 1
        else if negative then -magnitude else magnitude
  }

  /** The guard of UpdateFromRemoteObject: false is the "less than local" error. */
  predicate Accepts(stored: string, remote: string) {
    var ver := ParseInt32(remote);
    var curResVer := if stored != "" then ParseInt32(stored) else 0;
    !(ver < curResVer)
  }

  // ----- what it means for decimal versions -----

  predicate AllDigits(s: string) {
    forall i :: 0 <= i < |s| ==> IsDigit(s[i])
  }

  predicate IsDecimal(s: string) {
    s != [] && AllDigits(s)
  }

  function DecimalFrom(s: string, n: nat): nat
    requires AllDigits(s)
  {
    if s == [] then n else DecimalFrom(s[1..], n * 10 + DigitValue(s[0]))
  }

  /** The number a decimal string denotes, with no bound. */
  function Decimal(s: string): nat
    requires IsDecimal(s)
  {
    DecimalFrom(s, 0)
  }

  lemma {:induction false} DecimalFromGrows(s: string, n: nat)
    requires AllDigits(s)
    ensures DecimalFrom(s, n) >= n
  {
    if s != [] {
      DecimalFromGrows(s[1..], n * 10 + DigitValue(s[0]));
    }
  }

  lemma {:induction false} ParseUint32Exact(s: string, n: nat)
    requires AllDigits(s) && n <= MAX_UINT32
    ensures ParseUint32From(s, n) ==
            if DecimalFrom(s, n) <= MAX_UINT32 then Number(DecimalFrom(s, n)) else RangeError
  {
    if s != [] {
      var n' := n * 10 + DigitValue(s[0]);
      if n' > MAX_UINT32 {
        DecimalFromGrows(s[1..], n');
      } else {
        ParseUint32Exact(s[1..], n');
      }
    }
  }

  function Min(a: int, b: int): int { if a <= b then a else b }

  /** The parse saturates. */
  lemma ParseSaturates(s: string)
    requires IsDecimal(s)
    ensures ParseInt32(s) == Min(Decimal(s), MAX_INT32)
  {
    ParseUint32Exact(s, 0);
    assert IsDigit(s[0]);
  }

  /** A version as rows and objects hold one: a decimal number, or nothing yet. */
  predicate IsVersion(s: string) {
    s == "" || IsDecimal(s)
  }

  function Value(s: string): nat
    requires IsVersion(s)
  {
    if s == "" then 0 else Decimal(s)
  }

  /** An update is rejected exactly when it is older and the stored or the new version is below the
      bound; in particular a version at least the stored one is never rejected, however large, and a row
      without a version takes any. */
  lemma RejectedIffOlder(stored: string, remote: string)
    requires IsVersion(stored) && IsVersion(remote)
    ensures !Accepts(stored, remote) <==> Value(remote) < Value(stored) && Value(remote) < MAX_INT32
    ensures stored == "" ==> Accepts(stored, remote)
  {
    if stored != "" { ParseSaturates(stored); }
    if remote != "" { ParseSaturates(remote); }
  }

  /** What a version has to be to follow another one. */
  predicate Follows(stored: string, remote: string) {
    IsVersion(stored) && IsVersion(remote) && (Value(stored) <= Value(remote) || MAX_INT32 <= Value(remote))
  }

  lemma FollowsIsAccepted(stored: string, remote: string)
    requires Follows(stored, remote)
    ensures Accepts(stored, remote)
  {
    RejectedIffOlder(stored, remote);
  }

  /** The guard lets the stored version go down exactly when both versions are at or over the bound. */
  lemma DecreasesIffBothOverBound(stored: string, remote: string)
    requires IsDecimal(stored) && IsDecimal(remote)
    ensures (Accepts(stored, remote) && Decimal(remote) < Decimal(stored)) <==>
            (MAX_INT32 <= Decimal(remote) < Decimal(stored))
  {
    RejectedIffOlder(stored, remote);
  }

  function Pow10(k: nat): nat { if k == 0 then 1 else 10 * Pow10(k - 1) }

  lemma {:induction false} ZerosScale(s: string, n: nat)
    requires forall i :: 0 <= i < |s| ==> s[i] == '0'
    ensures DecimalFrom(s, n) == n * Pow10(|s|)
  {
    if s != [] {
      ZerosScale(s[1..], n * 10);
    }
  }

  /** A stored version of four billion gives way to one of three billion. */
  lemma GuardLetsVersionGoDown()
    ensures IsDecimal("4000000000") && IsDecimal("3000000000")
    ensures Decimal("3000000000") < Decimal("4000000000") && Accepts("4000000000", "3000000000")
  {
    var a, b := "4000000000", "3000000000";
    assert Pow10(9) == 1_000_000_000;
    ZerosScale(a[1..], 4);
    ZerosScale(b[1..], 3);
    assert Decimal(a) == 4_000_000_000 && Decimal(b) == 3_000_000_000;
    DecreasesIffBothOverBound(a, b);
  }

  // ----- runs of updates -----

  /** The stored version after a run of updates, each accepted or rejected by the guard. */
  function Run(stored: string, remotes: seq<string>): (r: string)
    ensures IsVersion(stored) && (forall v :: v in remotes ==> IsVersion(v)) ==> IsVersion(r)
    decreases remotes
  {
    if remotes == [] then stored
    else Run(if Accepts(stored, remotes[0]) then remotes[0] else stored, remotes[1..])
  }

  function Greatest(v: nat, remotes: seq<string>): (g: nat)
    requires forall r :: r in remotes ==> IsVersion(r)
    ensures g >= v && forall r :: r in remotes ==> Value(r) <= g
    ensures g == v || exists r :: r in remotes && Value(r) == g
    decreases remotes
  {
    if remotes == [] then v
    else Greatest(if v <= Value(remotes[0]) then Value(remotes[0]) else v, remotes[1..])
  }

  /** While the versions stay at or below the bound, the row always holds the greatest version
      seen from its first one on, so it never goes down whatever order the updates come in. */
  lemma {:induction false} RunKeepsGreatest(stored: string, remotes: seq<string>)
    requires IsVersion(stored) && Value(stored) <= MAX_INT32
    requires forall v :: v in remotes ==> IsVersion(v) && Value(v) <= MAX_INT32
    ensures Value(Run(stored, remotes)) == Greatest(Value(stored), remotes)
    decreases remotes
  {
    if remotes != [] {
      RejectedIffOlder(stored, remotes[0]);
      RunKeepsGreatest(if Accepts(stored, remotes[0]) then remotes[0] else stored, remotes[1..]);
    }
  }
}
