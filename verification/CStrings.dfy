// Null-terminated strings and the library calls that scan them.  A C string value is a
// `string` that holds no '\0'; the terminator is the character one past its end.
module CStrings {

  datatype Option<+T> = None | Some(value: T)

  const NUL: char := '\0'

  ghost predicate NoNul(s: string) {
    forall k :: 0 <= k < |s| ==> s[k] != NUL
  }

  /** s[i] as C reads it, the terminator included. */
  function At(s: string, i: nat): char
    requires i <= |s|
  {
    if i < |s| then s[i] else NUL
  }

  predicate IsDigit(c: char) { '0' <= c <= '9' }

  predicate IsLower(c: char) { 'a' <= c <= 'z' }

  function ToLower(c: char): char {
    if 'A' <= c <= 'Z' then (c as int + 32) as char else c
  }

  /** A scan over s[i..n] for characters in (or not in) the set ends at k. */
  ghost predicate ScanTo(s: string, i: nat, n: nat, stops: set<char>, inside: bool, k: nat)
    requires i <= n <= |s|
  {
    i <= k <= n && (k < n ==> (s[k] in stops) == inside) && forall x :: i <= x < k ==> (s[x] in stops) != inside
  }

  lemma {:induction false} ScanEnds(s: string, i: nat, n: nat, stops: set<char>, inside: bool)
    requires i <= n <= |s|
    ensures exists k :: ScanTo(s, i, n, stops, inside, k)
    decreases n - i
  {
    if i < n && (s[i] in stops) != inside {
      ScanEnds(s, i + 1, n, stops, inside);
      var k :| ScanTo(s, i + 1, n, stops, inside, k);
      assert ScanTo(s, i, n, stops, inside, k);
    } else {
      assert ScanTo(s, i, n, stops, inside, i);
    }
  }

  /** The first index in [i, n) that holds a character of stops, else n. */
  ghost function Cspn(s: string, i: nat, n: nat, stops: set<char>): (k: nat)
    requires i <= n <= |s|
    ensures i <= k <= n && (k < n ==> s[k] in stops)
    ensures forall x :: i <= x < k ==> s[x] !in stops
  {
    ScanEnds(s, i, n, stops, true);
    var k :| ScanTo(s, i, n, stops, true, k);
    k
  }

  /** The first index in [i, n) that holds a character outside skip, else n. */
  ghost function Spn(s: string, i: nat, n: nat, skip: set<char>): (k: nat)
    requires i <= n <= |s|
    ensures i <= k <= n && (k < n ==> s[k] !in skip)
    ensures forall x :: i <= x < k ==> s[x] in skip
  {
    ScanEnds(s, i, n, skip, false);
    var k :| ScanTo(s, i, n, skip, false, k);
    k
  }

  /** strcspn, strchr and strlen, as scans for a set of characters. */
  method StrCspn(s: string, i: nat, n: nat, stops: set<char>) returns (k: nat)
    requires i <= n <= |s|
    ensures k == Cspn(s, i, n, stops)
  {
    k := i;
    while k < n && s[k] !in stops
      invariant i <= k <= n && forall x :: i <= x < k ==> s[x] !in stops
    {
      k := k + 1;
    }
  }

  /** strspn */
  method StrSpn(s: string, i: nat, n: nat, skip: set<char>) returns (k: nat)
    requires i <= n <= |s|
    ensures k == Spn(s, i, n, skip)
  {
    k := i;
    while k < n && s[k] in skip
      invariant i <= k <= n && forall x :: i <= x < k ==> s[x] in skip
    {
      k := k + 1;
    }
  }

  /** The end of a scan, from what it must satisfy. */
  lemma {:induction false} CspnIs(s: string, i: nat, n: nat, stops: set<char>, k: nat)
    requires i <= k <= n <= |s| && (forall x :: i <= x < k ==> s[x] !in stops) && (k < n ==> s[k] in stops)
    ensures Cspn(s, i, n, stops) == k
  {
  }

  /** s holds t at index i: strncmp(s + i, t, |t|) == 0. */
  predicate Lies(s: string, i: nat, t: string) {
    i + |t| <= |s| && forall x :: 0 <= x < |t| ==> s[i + x] == t[x]
  }

  lemma {:induction false} LiesSplit(s: string, i: nat, a: string, b: string)
    ensures Lies(s, i, a + b) <==> Lies(s, i, a) && Lies(s, i + |a|, b)
  {
    var t := a + b;
    if Lies(s, i, t) {
      assert forall x :: 0 <= x < |a| ==> t[x] == a[x];
      assert forall x :: 0 <= x < |b| ==> t[|a| + x] == b[x];
    }
    if Lies(s, i, a) && Lies(s, i + |a|, b) {
      forall x | 0 <= x < |t| ensures s[i + x] == t[x] {
        if x >= |a| {
          assert s[i + |a| + (x - |a|)] == b[x - |a|];
        }
      }
    }
  }

  lemma {:induction false} LiesSelf(s: string)
    ensures Lies(s, 0, s)
  {
  }

  lemma {:induction false} LiesHead(s: string, i: nat, t: string)
    requires Lies(s, i, t)
    ensures i + |t| <= |s| && (t != "" ==> s[i] == t[0])
  {
    assert t != "" ==> s[i + 0] == t[0];
  }

  lemma {:induction false} LiesSlice(s: string, i: nat, t: string)
    requires Lies(s, i, t)
    ensures s[i..i + |t|] == t
  {
  }

  /** A scan over text free of the stop characters ends behind it. */
  lemma {:induction false} CspnOver(s: string, i: nat, n: nat, stops: set<char>, t: string)
    requires Lies(s, i, t) && i + |t| <= n <= |s| && (forall c :: c in t ==> c !in stops)
    requires i + |t| < n ==> s[i + |t|] in stops
    ensures Cspn(s, i, n, stops) == i + |t|
  {
    var k := Cspn(s, i, n, stops);
    forall x | i <= x < i + |t| ensures s[x] !in stops {
      assert s[i + (x - i)] == t[x - i];
    }
  }

  /** The first n characters, or all of them. */
  function Take(s: string, n: nat): string { if |s| <= n then s else s[..n] }

  /** kl_streq_end */
  predicate EndsWith(s: string, t: string) {
    |t| <= |s| && s[|s| - |t|..] == t
  }
}
