// Splitting a line into words: next_value of src/misc.c, on a buffer and on its text.
module Words {
  import opened CStrings

  const Blanks: set<char> := {'\t', ' '}
  const LineBreaks: set<char> := {'\r', '\n'}
  const LineStart: set<char> := {'\r', '\n', '\t', ' '}

  /** The string up to the first blank, and what follows the blanks behind it. */
  ghost function Word(s: string): string {
    s[..Cspn(s, 0, |s|, Blanks)]
  }

  ghost function Rest(s: string): string {
    var k := Cspn(s, 0, |s|, Blanks);
    if k == |s| then "" else s[Spn(s, k + 1, |s|, Blanks)..]
  }

  predicate OnlyBlanks(s: string) {
    forall k :: 0 <= k < |s| ==> s[k] == '\t' || s[k] == ' '
  }

  predicate Unblank(s: string) {
    forall k :: 0 <= k < |s| ==> s[k] != '\t' && s[k] != ' '
  }

  /** A value as it can follow a directive: it starts with no blank. */
  predicate Flush(s: string) {
    s != "" ==> s[0] != '\t' && s[0] != ' '
  }

  lemma {:induction false} SplitWord(w: string, sep: string, v: string)
    requires Unblank(w) && OnlyBlanks(sep) && sep != "" && Flush(v)
    ensures Word(w + sep + v) == w && Rest(w + sep + v) == v
  {
    var s := w + sep + v;
    assert forall x :: |w| <= x < |w| + |sep| ==> s[x] == sep[x - |w|];
    assert s[|w|] in Blanks;
    CspnIs(s, 0, |s|, Blanks, |w|);
    assert v != "" ==> s[|w| + |sep|] == v[0];
    assert Spn(s, |w| + 1, |s|, Blanks) == |w| + |sep|;
  }

  lemma {:induction false} LoneWord(w: string)
    requires Unblank(w)
    ensures Word(w) == w && Rest(w) == ""
  {
    CspnIs(w, 0, |w|, Blanks, |w|);
  }

  // ---------------------------------------------------------------------------
  // On buffers
  // ---------------------------------------------------------------------------

  /** The C string that starts at index p of the buffer. */
  ghost predicate HoldsAt(a: array<char>, p: nat, s: string)
    reads a
  {
    p + |s| < a.Length && a[p + |s|] == NUL && NoNul(s) && forall k :: 0 <= k < |s| ==> a[p + k] == s[k]
  }

  /** The part of the string behind its first n characters. */
  lemma {:induction false} HoldsTail(a: array<char>, p: nat, s: string, n: nat)
    requires HoldsAt(a, p, s) && n <= |s|
    ensures HoldsAt(a, p + n, s[n..])
  {
    forall k | 0 <= k < |s| - n ensures a[p + n + k] == s[n..][k] {
      assert a[p + (n + k)] == s[n + k];
    }
  }

  /** strcspn */
  method CspnAt(a: array<char>, p: nat, stops: set<char>, ghost s: string) returns (n: nat)
    requires HoldsAt(a, p, s)
    ensures n == Cspn(s, 0, |s|, stops)
  {
    n := 0;
    while a[p + n] != NUL && a[p + n] !in stops
      invariant n <= |s| && forall x :: 0 <= x < n ==> s[x] !in stops
      decreases |s| - n
    {
      n := n + 1;
    }
    assert n < |s| ==> a[p + n] == s[n];
  }

  /** strspn, from the character number m on */
  method SpnAt(a: array<char>, p: nat, m: nat, skip: set<char>, ghost s: string) returns (n: nat)
    requires HoldsAt(a, p, s) && m <= |s| && NUL !in skip
    ensures n == Spn(s, m, |s|, skip)
  {
    n := m;
    while a[p + n] in skip
      invariant m <= n <= |s| && forall x :: m <= x < n ==> s[x] in skip
      decreases |s| - n
    {
      assert n < |s| ==> a[p + n] == s[n];
      n := n + 1;
    }
    assert n < |s| ==> a[p + n] == s[n];
  }

  /** The string itself. */
  method ReadAt(a: array<char>, p: nat, ghost s: string) returns (r: string)
    requires HoldsAt(a, p, s)
    ensures r == s
  {
    var n := CspnAt(a, p, {}, s);
    r := a[p..p + n];
    assert forall k :: 0 <= k < n ==> r[k] == a[p + k];
  }

  /** next_value: a terminator is put behind the first word; q is where the next one starts. */
  method NextValue(a: array<char>, p: nat, ghost s: string) returns (q: nat)
    requires HoldsAt(a, p, s)
    modifies a
    ensures HoldsAt(a, p, Word(s)) && HoldsAt(a, q, Rest(s))
    ensures forall k :: 0 <= k < p && k < a.Length ==> a[k] == old(a[k])
  {
    var n := CspnAt(a, p, Blanks, s);
    q := p + n;
    if a[q] != NUL {
      var m := SpnAt(a, p, n + 1, Blanks, s);
      HoldsTail(a, p, s, m);
      a[q] := NUL;
      q := p + m;
    }
  }
}
