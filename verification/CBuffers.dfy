// C strings held in character buffers, with the library calls that edit them in place.
module CBuffers {
  import opened CStrings

  /** The buffer holds the string s and its terminator. */
  ghost predicate Holds(a: array<char>, s: string)
    reads a
  {
    |s| < a.Length && a[|s|] == NUL && NoNul(s) && forall k :: 0 <= k < |s| ==> a[k] == s[k]
  }

  /** strlen */
  method StrLen(a: array<char>, ghost s: string) returns (n: nat)
    requires Holds(a, s)
    ensures n == |s|
  {
    n := 0;
    while a[n] != NUL
      invariant n <= |s|
      decreases |s| - n
    {
      n := n + 1;
    }
  }

  /** strcat */
  method StrCat(a: array<char>, t: string, ghost s: string)
    requires Holds(a, s) && NoNul(t) && |s| + |t| < a.Length
    modifies a
    ensures Holds(a, s + t)
  {
    var n := StrLen(a, s);
    var k := 0;
    while k < |t|
      invariant 0 <= k <= |t|
      invariant forall x :: 0 <= x < |s| ==> a[x] == s[x]
      invariant forall x :: 0 <= x < k ==> a[n + x] == t[x]
    {
      a[n + k] := t[k];
      k := k + 1;
    }
    a[n + k] := NUL;
    assert forall x :: 0 <= x < |t| ==> (s + t)[|s| + x] == t[x];
  }

  /** *strrchr(a, c) = '\0' */
  method CutAtLast(a: array<char>, c: char, ghost s: string, ghost t: string)
    requires Holds(a, s + [c] + t) && c !in t
    modifies a
    ensures Holds(a, s)
  {
    ghost var whole := s + [c] + t;
    var n := StrLen(a, whole);
    forall x | |s| < x < |whole| ensures whole[x] != c {
      assert whole[x] == t[x - |s| - 1];
    }
    assert whole[|s|] == c;
    while a[n] != c
      invariant |s| <= n <= |whole|
      invariant forall x :: 0 <= x < |whole| ==> a[x] == whole[x]
      decreases n
    {
      n := n - 1;
    }
    a[n] := NUL;
    assert forall x :: 0 <= x < |s| ==> whole[x] == s[x];
  }

  /** The string in the buffer, as a value. */
  method Contents(a: array<char>, ghost s: string) returns (r: string)
    requires Holds(a, s)
    ensures r == s
  {
    var n := StrLen(a, s);
    r := a[..n];
  }

  /** memmove */
  method MemMove(a: array<char>, dst: nat, src: nat, n: nat)
    requires dst + n <= a.Length && src + n <= a.Length
    modifies a
    ensures forall k :: 0 <= k < a.Length ==> a[k] == if dst <= k < dst + n then old(a[k - dst + src]) else old(a[k])
  {
    var copy := a[src..src + n];
    var i := 0;
    while i < n
      invariant 0 <= i <= n
      invariant forall k :: 0 <= k < a.Length ==> a[k] == if dst <= k < dst + i then old(a[k - dst + src]) else old(a[k])
    {
      a[dst + i] := copy[i];
      i := i + 1;
    }
  }

  /** The first n characters of t at index at. */
  method CopyIn(a: array<char>, at: nat, t: string, n: nat)
    requires n <= |t| && at + n <= a.Length
    modifies a
    ensures forall k :: 0 <= k < a.Length ==> a[k] == if at <= k < at + n then t[k - at] else old(a[k])
  {
    var i := 0;
    while i < n
      invariant 0 <= i <= n
      invariant forall k :: 0 <= k < a.Length ==> a[k] == if at <= k < at + i then t[k - at] else old(a[k])
    {
      a[at + i] := t[i];
      i := i + 1;
    }
  }

  /** The text of s with t put in at index o. */
  function Inserted(s: string, t: string, o: nat): string
    requires o <= |s|
  {
    s[..o] + t + s[o..]
  }

  /** strlcpy into the whole buffer */
  method StrLCpy(a: array<char>, t: string) returns (n: nat)
    requires NoNul(t) && a.Length > 0
    modifies a
    ensures Holds(a, Take(t, a.Length - 1)) && n == |Take(t, a.Length - 1)|
  {
    n := if |t| < a.Length then |t| else a.Length - 1;
    CopyIn(a, 0, t, n);
    a[n] := NUL;
  }
}
