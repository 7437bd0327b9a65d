// The wildcard matcher of src/globcmp.c: greedy, without backtracking.
module Glob {
  import opened CStrings

  /** The four flag bits of src/globcmp.h. */
  datatype Flags = Flags(ignoreCase: bool, star: bool, single: bool, hash: bool)

  function Fold(c: char, f: Flags): char {
    if f.ignoreCase then ToLower(c) else c
  }

  /** One pattern character other than an active star accepts c. */
  predicate CharOk(c: char, x: char, f: Flags) {
    Fold(c, f) == Fold(x, f) || (f.single && x == '?') || (f.hash && x == '#' && IsDigit(c))
  }

  predicate IsStar(x: char, f: Flags) { f.star && x == '*' }

  // ---------------------------------------------------------------------------
  // What a pattern means
  // ---------------------------------------------------------------------------

  /** The wildcard relation: s[i..n] matches the pattern e[j..m]; a star stands for any run of characters. */
  ghost predicate M(s: string, i: nat, n: nat, e: string, j: nat, m: nat, f: Flags)
    requires i <= n <= |s| && j <= m <= |e|
    decreases m - j, 0
  {
    if j == m then i == n
    else if IsStar(e[j], f) then SomeTail(s, i, n, e, j + 1, m, f)
    else i < n && CharOk(s[i], e[j], f) && M(s, i + 1, n, e, j + 1, m, f)
  }

  ghost predicate SomeTail(s: string, i: nat, n: nat, e: string, j: nat, m: nat, f: Flags)
    requires i <= n <= |s| && j <= m <= |e|
    decreases m - j, 1
  {
    exists k :: i <= k <= n && M(s, k, n, e, j, m, f)
  }

  ghost predicate Matches(s: string, e: string, f: Flags) {
    M(s, 0, |s|, e, 0, |e|, f)
  }

  /** s[i..n] matches e[j..m] and no shorter prefix of it does. */
  ghost predicate First(s: string, i: nat, n: nat, e: string, j: nat, m: nat, f: Flags)
    requires i <= n <= |s| && j <= m <= |e|
  {
    M(s, i, n, e, j, m, f) && forall k :: i <= k < n ==> !M(s, i, k, e, j, m, f)
  }

  /** The star at index p of e is reached with all of s[i..] used up. */
  ghost predicate ExhaustedAt(s: string, i: nat, e: string, j: nat, p: nat, f: Flags)
    requires i <= |s|
  {
    j <= p < |e| && IsStar(e[p], f) && First(s, i, |s|, e, j, p, f)
  }

  /** What the matcher accepts when it stands at s[i..] and e[j..]. */
  ghost predicate AcceptsFrom(s: string, i: nat, e: string, j: nat, f: Flags)
    requires i <= |s| && j <= |e|
  {
    M(s, i, |s|, e, j, |e|, f) || exists p: nat :: ExhaustedAt(s, i, e, j, p, f)
  }

  ghost predicate Accepts(s: string, e: string, f: Flags) {
    AcceptsFrom(s, 0, e, 0, f)
  }

  /** e[j..m] holds stars only. */
  predicate AllStars(e: string, j: nat, m: nat, f: Flags)
    requires m <= |e|
  {
    forall x :: j <= x < m ==> IsStar(e[x], f)
  }

  predicate NoStars(e: string, j: nat, m: nat, f: Flags)
    requires m <= |e|
  {
    forall x :: j <= x < m ==> !IsStar(e[x], f)
  }

  /** The star-free segment e[j..j + len] matches at s[i..]. */
  predicate SegAt(s: string, i: nat, e: string, j: nat, len: nat, f: Flags)
    requires i + len <= |s| && j + len <= |e|
  {
    forall x :: j <= x < j + len ==> CharOk(s[x - j + i], e[x], f)
  }

  /** No place in s[i..n] before t takes the segment. */
  ghost predicate NoSegIn(s: string, i: nat, t: nat, n: nat, e: string, j: nat, len: nat, f: Flags)
    requires n <= |s| && j + len <= |e|
  {
    forall k {:trigger SegAt(s, k, e, j, len, f)} :: i <= k < t && k + len <= n ==> !SegAt(s, k, e, j, len, f)
  }

  // ---------------------------------------------------------------------------
  // Laws of the relation
  // ---------------------------------------------------------------------------

  lemma {:induction false} MSegment(s: string, i: nat, n: nat, e: string, j: nat, len: nat, m: nat, f: Flags)
    requires i <= n <= |s| && j + len <= m <= |e| && NoStars(e, j, j + len, f)
    ensures M(s, i, n, e, j, m, f) <==>
            i + len <= n && SegAt(s, i, e, j, len, f) && M(s, i + len, n, e, j + len, m, f)
    decreases len
  {
    if len > 0 && i < n {
      MSegment(s, i + 1, n, e, j + 1, len - 1, m, f);
    }
  }

  /** The exchange argument: the leftmost occurrence of a segment loses nothing. */
  lemma {:induction false} MLeftmost(s: string, i: nat, t: nat, n: nat, e: string, j: nat, len: nat, m: nat, f: Flags)
    requires i <= t && t + len <= n <= |s| && j + 1 + len < m <= |e|
    requires IsStar(e[j], f) && NoStars(e, j + 1, j + 1 + len, f) && IsStar(e[j + 1 + len], f)
    requires SegAt(s, t, e, j + 1, len, f) && NoSegIn(s, i, t, n, e, j + 1, len, f)
    ensures M(s, i, n, e, j, m, f) <==> M(s, t + len, n, e, j + 1 + len, m, f)
  {
    if M(s, i, n, e, j, m, f) {
      var j1 := j + 1;
      assert SomeTail(s, i, n, e, j1, m, f);
      var k :| i <= k <= n && M(s, k, n, e, j1, m, f);
      MSegment(s, k, n, e, j + 1, len, m, f);
    }
    if M(s, t + len, n, e, j + 1 + len, m, f) {
      MSegment(s, t, n, e, j + 1, len, m, f);
    }
  }

  lemma {:induction false} MNoSegment(s: string, i: nat, n: nat, e: string, j: nat, len: nat, m: nat, f: Flags)
    requires i <= n <= |s| && j + 1 + len <= m <= |e|
    requires IsStar(e[j], f) && NoStars(e, j + 1, j + 1 + len, f) && NoSegIn(s, i, n + 1, n, e, j + 1, len, f)
    ensures !M(s, i, n, e, j, m, f)
  {
    var j1 := j + 1;
    assert M(s, i, n, e, j, m, f) <==> SomeTail(s, i, n, e, j1, m, f);
    forall k | i <= k <= n ensures !M(s, k, n, e, j1, m, f) {
      MSegment(s, k, n, e, j + 1, len, m, f);
    }
  }

  /** After the last star the segment can only sit at the end. */
  lemma {:induction false} MLastSegment(s: string, i: nat, n: nat, e: string, j: nat, m: nat, f: Flags)
    requires i <= n <= |s| && j < m <= |e| && IsStar(e[j], f) && NoStars(e, j + 1, m, f)
    ensures M(s, i, n, e, j, m, f) <==> i + m - j - 1 <= n && SegAt(s, n - (m - j - 1), e, j + 1, m - j - 1, f)
  {
    var j1 := j + 1;
    assert M(s, i, n, e, j, m, f) <==> SomeTail(s, i, n, e, j1, m, f);
    forall k | i <= k <= n
      ensures M(s, k, n, e, j1, m, f) <==> k + m - j - 1 == n && SegAt(s, k, e, j + 1, m - j - 1, f)
    {
      MSegment(s, k, n, e, j + 1, m - j - 1, m, f);
    }
    if i + m - j - 1 <= n {
      assert M(s, n - (m - j - 1), n, e, j + 1, m, f) <==> SegAt(s, n - (m - j - 1), e, j + 1, m - j - 1, f);
    }
  }

  lemma {:induction false} MDoubleStar(s: string, i: nat, n: nat, e: string, j: nat, m: nat, f: Flags)
    requires i <= n <= |s| && j + 2 <= m <= |e| && IsStar(e[j], f) && IsStar(e[j + 1], f)
    ensures M(s, i, n, e, j, m, f) <==> M(s, i, n, e, j + 1, m, f)
  {
    var j1, j2 := j + 1, j + 2;
    assert M(s, i, n, e, j, m, f) <==> SomeTail(s, i, n, e, j1, m, f);
    forall k | i <= k <= n ensures M(s, k, n, e, j1, m, f) <==> SomeTail(s, k, n, e, j2, m, f) {
    }
  }

  lemma {:induction false} MAllStars(s: string, i: nat, n: nat, e: string, j: nat, m: nat, f: Flags)
    requires i <= n <= |s| && j <= m <= |e| && AllStars(e, j, m, f) && (j == m ==> i == n)
    ensures M(s, i, n, e, j, m, f)
    decreases m - j
  {
    if j < m {
      MAllStars(s, n, n, e, j + 1, m, f);
    }
  }

  /** Only stars match the empty string. */
  lemma {:induction false} MEmpty(s: string, i: nat, e: string, j: nat, m: nat, f: Flags)
    requires i <= |s| && j <= m <= |e|
    ensures M(s, i, i, e, j, m, f) <==> AllStars(e, j, m, f)
    decreases m - j
  {
    if j < m {
      MEmpty(s, i, e, j + 1, m, f);
    }
  }

  lemma {:induction false} MSplit(s: string, i: nat, n: nat, e: string, j: nat, p: nat, m: nat, f: Flags) returns (k: nat)
    requires i <= n <= |s| && j <= p <= m <= |e| && M(s, i, n, e, j, m, f)
    ensures i <= k <= n && M(s, i, k, e, j, p, f) && M(s, k, n, e, p, m, f)
    decreases p - j
  {
    if j == p {
      k := i;
    } else if IsStar(e[j], f) {
      var j1 := j + 1;
      assert SomeTail(s, i, n, e, j1, m, f);
      var l :| i <= l <= n && M(s, l, n, e, j1, m, f);
      k := MSplit(s, l, n, e, j + 1, p, m, f);
    } else {
      k := MSplit(s, i + 1, n, e, j + 1, p, m, f);
    }
  }

  lemma {:induction false} MJoin(s: string, i: nat, k: nat, n: nat, e: string, j: nat, p: nat, m: nat, f: Flags)
    requires i <= k <= n <= |s| && j <= p <= m <= |e| && M(s, i, k, e, j, p, f) && M(s, k, n, e, p, m, f)
    ensures M(s, i, n, e, j, m, f)
    decreases p - j
  {
    if j < p {
      if IsStar(e[j], f) {
        var j1 := j + 1;
        assert SomeTail(s, i, k, e, j1, p, f);
        var l :| i <= l <= k && M(s, l, k, e, j1, p, f);
        MJoin(s, l, k, n, e, j1, p, m, f);
        assert SomeTail(s, i, n, e, j1, m, f);
      } else {
        MJoin(s, i + 1, k, n, e, j + 1, p, m, f);
      }
    }
  }

  // ---------------------------------------------------------------------------
  // How each step of the matcher changes what is accepted
  // ---------------------------------------------------------------------------

  lemma {:induction false} AcceptsLiteral(s: string, i: nat, e: string, j: nat, f: Flags)
    requires i <= |s| && j < |e| && !IsStar(e[j], f)
    ensures AcceptsFrom(s, i, e, j, f) <==>
            i < |s| && CharOk(s[i], e[j], f) && AcceptsFrom(s, i + 1, e, j + 1, f)
  {
    var i1, j1 := i + 1, j + 1;
    forall p: nat
      ensures ExhaustedAt(s, i, e, j, p, f) <==>
              i < |s| && CharOk(s[i], e[j], f) && ExhaustedAt(s, i1, e, j1, p, f)
    {
      if j < p < |e| && i < |s| {
        assert !M(s, i, i, e, j, p, f);
        forall k | i < k <= |s|
          ensures M(s, i, k, e, j, p, f) <==> CharOk(s[i], e[j], f) && M(s, i1, k, e, j1, p, f)
        {
        }
      }
    }
  }

  lemma {:induction false} AcceptsDoubleStar(s: string, i: nat, e: string, j: nat, f: Flags)
    requires i <= |s| && j + 1 < |e| && IsStar(e[j], f) && IsStar(e[j + 1], f)
    ensures AcceptsFrom(s, i, e, j, f) <==> AcceptsFrom(s, i, e, j + 1, f)
  {
    MDoubleStar(s, i, |s|, e, j, |e|, f);
    var j1 := j + 1;
    forall p: nat | j1 < p ensures ExhaustedAt(s, i, e, j, p, f) <==> ExhaustedAt(s, i, e, j1, p, f) {
      if p <= |e| {
        forall k | i <= k <= |s| ensures M(s, i, k, e, j, p, f) <==> M(s, i, k, e, j1, p, f) {
          MDoubleStar(s, i, k, e, j, p, f);
        }
      }
    }
    MEmpty(s, i, e, j, j1, f);
    MAllStars(s, i, |s|, e, j, j1, f);
    assert ExhaustedAt(s, i, e, j, j, f) <==> i == |s|;
    assert ExhaustedAt(s, i, e, j, j1, f) <==> i == |s|;
    assert ExhaustedAt(s, i, e, j1, j1, f) <==> i == |s|;
  }

  lemma {:induction false} FirstSegment(s: string, i: nat, t: nat, e: string, j: nat, len: nat, p: nat, f: Flags)
    requires i <= t && t + len <= |s| && j + 1 + len <= p < |e|
    requires IsStar(e[j], f) && NoStars(e, j + 1, j + 1 + len, f) && IsStar(e[j + 1 + len], f)
    requires SegAt(s, t, e, j + 1, len, f) && NoSegIn(s, i, t, |s|, e, j + 1, len, f)
    ensures First(s, i, |s|, e, j, p, f) <==> First(s, t + len, |s|, e, j + 1 + len, p, f)
  {
    var a := t + len;
    forall k | i <= k < a ensures !M(s, i, k, e, j, p, f) {
      MNoSegment(s, i, k, e, j, len, p, f);
    }
    if p == j + 1 + len {
      MLastSegment(s, i, a, e, j, p, f);
    } else {
      var b := j + 1 + len;
      forall k | a <= k <= |s| ensures M(s, i, k, e, j, p, f) <==> M(s, a, k, e, b, p, f) {
        MLeftmost(s, i, t, k, e, j, len, p, f);
      }
    }
  }

  lemma {:induction false} AcceptsSegment(s: string, i: nat, t: nat, e: string, j: nat, len: nat, f: Flags)
    requires i < |s| && i <= t && t + len <= |s| && j + 1 + len < |e|
    requires IsStar(e[j], f) && NoStars(e, j + 1, j + 1 + len, f) && IsStar(e[j + 1 + len], f)
    requires SegAt(s, t, e, j + 1, len, f) && NoSegIn(s, i, t, |s|, e, j + 1, len, f)
    ensures AcceptsFrom(s, i, e, j, f) <==> AcceptsFrom(s, t + len, e, j + 1 + len, f)
  {
    MLeftmost(s, i, t, |s|, e, j, len, |e|, f);
    var i1, j1 := t + len, j + 1 + len;
    forall p: nat
      ensures ExhaustedAt(s, i, e, j, p, f) <==> ExhaustedAt(s, i1, e, j1, p, f)
    {
      if j + 1 + len <= p < |e| {
        FirstSegment(s, i, t, e, j, len, p, f);
      }
    }
  }

  lemma {:induction false} AcceptsNoSegment(s: string, i: nat, e: string, j: nat, len: nat, f: Flags)
    requires i < |s| && j + 1 + len < |e|
    requires IsStar(e[j], f) && NoStars(e, j + 1, j + 1 + len, f)
    requires NoSegIn(s, i, |s| + 1, |s|, e, j + 1, len, f)
    ensures !AcceptsFrom(s, i, e, j, f)
  {
    MNoSegment(s, i, |s|, e, j, len, |e|, f);
    forall p: nat ensures !ExhaustedAt(s, i, e, j, p, f) {
      if j + 1 + len <= p < |e| {
        MNoSegment(s, i, |s|, e, j, len, p, f);
      }
    }
  }

  lemma {:induction false} AcceptsLastSegment(s: string, i: nat, e: string, j: nat, f: Flags)
    requires i < |s| && j < |e| && IsStar(e[j], f) && NoStars(e, j + 1, |e|, f)
    ensures AcceptsFrom(s, i, e, j, f) <==>
            i + |e| - j - 1 <= |s| && SegAt(s, |s| - (|e| - j - 1), e, j + 1, |e| - j - 1, f)
  {
    MLastSegment(s, i, |s|, e, j, |e|, f);
  }

  lemma {:induction false} AcceptsAtEnd(s: string, i: nat, e: string, j: nat, f: Flags)
    requires i <= |s| && j < |e| && IsStar(e[j], f) && (i == |s| || j + 1 == |e|)
    ensures AcceptsFrom(s, i, e, j, f)
  {
    if i == |s| {
      assert ExhaustedAt(s, i, e, j, j, f);
    } else {
      MAllStars(s, i, |s|, e, j, |e|, f);
    }
  }

  // ---------------------------------------------------------------------------
  // The matcher
  // ---------------------------------------------------------------------------

  /** mycmp: compare len characters; only a one-character comparison may reach the terminator of expr. */
  method MyCmp(str: string, i: nat, expr: string, j: nat, len: nat, f: Flags) returns (r: bool)
    requires NoNul(str) && NoNul(expr) && i <= |str|
    requires j + len <= |expr| || (len == 1 && j == |expr|)
    ensures j + len <= |expr| ==> (r <==> i + len <= |str| && SegAt(str, i, expr, j, len, f))
    ensures j + len > |expr| ==> (r <==> i == |str|)
  {
    var n := 0;
    while n < len
      invariant 0 <= n <= len && i + n <= |str|
      invariant n > 0 ==> j + len <= |expr|
      invariant j + n <= |expr| && SegAt(str, i, expr, j, n, f)
    {
      var c, x := At(str, i + n), At(expr, j + n);
      if Fold(c, f) == Fold(x, f) {
        if c == NUL {
          return true;
        }
      } else if f.single && x == '?' && c != NUL {
      } else if f.hash && x == '#' && IsDigit(c) {
      } else {
        assert i + len <= |str| && j + len <= |expr| ==> !CharOk(str[j + n - j + i], expr[j + n], f);
        return false;
      }
      n := n + 1;
    }
    return true;
  }

  /** The number of leading characters before the first '*', as strcspn(expr + j, "*"). */
  method StarSpan(expr: string, j: nat) returns (n: nat)
    requires j <= |expr|
    ensures j + n <= |expr| && (j + n < |expr| ==> expr[j + n] == '*')
    ensures forall k :: j <= k < j + n ==> expr[k] != '*'
  {
    n := 0;
    while j + n < |expr| && expr[j + n] != '*'
      invariant j + n <= |expr|
      invariant forall k :: j <= k < j + n ==> expr[k] != '*'
    {
      n := n + 1;
    }
  }

  /** The inner loop of globcmp: move str on to the first place where the segment matches. */
  method FindSegment(str: string, i0: nat, expr: string, j: nat, n: nat, f: Flags) returns (i: nat, found: bool)
    requires NoNul(str) && NoNul(expr) && i0 < |str| && j + n <= |expr| && n > 0
    ensures found ==> i0 <= i && i + n <= |str| && SegAt(str, i, expr, j, n, f)
                      && NoSegIn(str, i0, i, |str|, expr, j, n, f)
    ensures !found ==> NoSegIn(str, i0, |str| + 1, |str|, expr, j, n, f)
  {
    i := i0;
    found := MyCmp(str, i, expr, j, n, f);
    while !found
      invariant i0 <= i < |str|
      invariant found <==> i + n <= |str| && SegAt(str, i, expr, j, n, f)
      invariant NoSegIn(str, i0, i, |str|, expr, j, n, f)
      decreases !found, |str| - i
    {
      i := i + 1;
      if At(str, i) == NUL {
        return;
      }
      found := MyCmp(str, i, expr, j, n, f);
    }
  }

  /** globcmp, with str and expr advanced as the indices i and j. */
  method GlobCmp(str: string, expr: string, f: Flags) returns (r: bool)
    requires NoNul(str) && NoNul(expr)
    ensures r <==> Accepts(str, expr, f)
  {
    var i: nat, j: nat := 0, 0;
    while true
      invariant i <= |str| && j <= |expr|
      invariant Accepts(str, expr, f) <==> AcceptsFrom(str, i, expr, j, f)
      decreases |expr| - j
    {
      if f.star && At(expr, j) == '*' {
        while At(expr, j + 1) == '*'
          invariant j < |expr| && expr[j] == '*'
          invariant Accepts(str, expr, f) <==> AcceptsFrom(str, i, expr, j, f)
          decreases |expr| - j
        {
          AcceptsDoubleStar(str, i, expr, j, f);
          j := j + 1;
        }
        ghost var star := j;
        j := j + 1;
        if At(str, i) == NUL || At(expr, j) == NUL {
          AcceptsAtEnd(str, i, expr, star, f);
          return true;
        }
        var n := StarSpan(expr, j);
        if At(expr, j + n) == '*' {
          var t, found := FindSegment(str, i, expr, j, n, f);
          if !found {
            AcceptsNoSegment(str, i, expr, star, n, f);
            return false;
          }
          AcceptsSegment(str, i, t, expr, star, n, f);
          i := t;
        } else {
          AcceptsLastSegment(str, i, expr, star, f);
          var l := |str| - i;
          if l < n {
            return false;
          }
          i := i + l - n;
          r := MyCmp(str, i, expr, j, n, f);
          return;
        }
        i, j := i + n, j + n;
      } else {
        var ok := MyCmp(str, i, expr, j, 1, f);
        if j < |expr| {
          AcceptsLiteral(str, i, expr, j, f);
          assert i < |str| ==> (SegAt(str, i, expr, j, 1, f) <==> CharOk(str[i], expr[j], f));
        }
        if !ok {
          return false;
        }
        if At(expr, j) == NUL {
          return true;
        }
        i, j := i + 1, j + 1;
      }
    }
  }

  // ---------------------------------------------------------------------------
  // When the matcher agrees with the relation
  // ---------------------------------------------------------------------------

  /** s is used up at a star that still has an ordinary character after it. */
  ghost predicate EndsEarly(s: string, e: string, f: Flags) {
    exists p: nat :: ExhaustedAt(s, 0, e, 0, p, f) && !AllStars(e, p, |e|, f)
  }

  lemma {:induction false} ExhaustedMatch(s: string, e: string, p: nat, f: Flags)
    requires ExhaustedAt(s, 0, e, 0, p, f)
    ensures Matches(s, e, f) <==> AllStars(e, p, |e|, f)
  {
    MEmpty(s, |s|, e, p, |e|, f);
    if AllStars(e, p, |e|, f) {
      MJoin(s, 0, |s|, |s|, e, 0, p, |e|, f);
    }
    if Matches(s, e, f) {
      var k := MSplit(s, 0, |s|, e, 0, p, |e|, f);
    }
  }

  /**
   * The matcher never misses a match.  Its only wrong yes comes from a star that has an
   * ordinary character after it and whose preceding pattern is first matched by the whole string.
   */
  lemma {:induction false} GreedyIsRight(s: string, e: string, f: Flags)
    ensures Matches(s, e, f) ==> Accepts(s, e, f)
    ensures Accepts(s, e, f) && !Matches(s, e, f) <==> EndsEarly(s, e, f)
  {
    forall p: nat | ExhaustedAt(s, 0, e, 0, p, f)
      ensures Matches(s, e, f) <==> AllStars(e, p, |e|, f)
    {
      ExhaustedMatch(s, e, p, f);
    }
  }

  /** The pattern e[j..m] with its stars left out. */
  function Unstarred(e: string, j: nat, m: nat, f: Flags): string
    requires j <= m <= |e|
    decreases m - j
  {
    if j == m then "" else (if IsStar(e[j], f) then "" else [e[j]]) + Unstarred(e, j + 1, m, f)
  }

  lemma {:induction false} UnstarredMatches(s: string, i: nat, e: string, j: nat, m: nat, f: Flags)
    requires i <= |s| && j <= m <= |e| && s[i..] == Unstarred(e, j, m, f)
    ensures M(s, i, |s|, e, j, m, f)
    decreases m - j
  {
    if j < m {
      if IsStar(e[j], f) {
        UnstarredMatches(s, i, e, j + 1, m, f);
      } else {
        assert s[i] == s[i..][0] && s[i + 1..] == s[i..][1..];
        UnstarredMatches(s, i + 1, e, j + 1, m, f);
      }
    }
  }

  lemma {:induction false} UnstarredNoNul(e: string, j: nat, m: nat, f: Flags)
    requires j <= m <= |e| && NoNul(e)
    ensures NoNul(Unstarred(e, j, m, f))
    decreases m - j
  {
    if j < m {
      UnstarredNoNul(e, j + 1, m, f);
    }
  }

  /** Truncating the string does not change what happens before the cut. */
  lemma {:induction false} MTruncate(s: string, i: nat, k: nat, l: nat, e: string, j: nat, m: nat, f: Flags)
    requires i <= k <= l <= |s| && j <= m <= |e|
    ensures M(s[..l], i, k, e, j, m, f) <==> M(s, i, k, e, j, m, f)
    decreases m - j
  {
    if j < m {
      var j1 := j + 1;
      assert M(s, i, k, e, j, m, f) && IsStar(e[j], f) ==> SomeTail(s, i, k, e, j1, m, f);
      forall h | i <= h <= k { MTruncate(s, h, k, l, e, j1, m, f); }
      assert SomeTail(s, i, k, e, j1, m, f) <==> SomeTail(s[..l], i, k, e, j1, m, f);
      if i < k { MTruncate(s, i + 1, k, l, e, j + 1, m, f); }
    }
  }

  lemma {:induction false} FirstPrefix(s: string, e: string, m: nat, f: Flags) returns (k: nat)
    requires m <= |e| && M(s, 0, |s|, e, 0, m, f)
    ensures k <= |s| && First(s, 0, k, e, 0, m, f)
  {
    k := 0;
    while !M(s, 0, k, e, 0, m, f)
      invariant k <= |s| && forall l :: 0 <= l < k ==> !M(s, 0, l, e, 0, m, f)
      decreases |s| - k
    {
      k := k + 1;
    }
  }

  /** Stars are followed by stars only. */
  predicate StarsTrail(e: string, f: Flags) {
    forall p :: 0 <= p < |e| && IsStar(e[p], f) ==> AllStars(e, p, |e|, f)
  }

  lemma {:induction false} WrongOnSome(e: string, p: nat, f: Flags) returns (s: string)
    requires NoNul(e) && p < |e| && IsStar(e[p], f) && !AllStars(e, p, |e|, f)
    ensures NoNul(s) && EndsEarly(s, e, f)
  {
    var u := Unstarred(e, 0, p, f);
    assert u[0..] == u;
    UnstarredMatches(u, 0, e, 0, p, f);
    UnstarredNoNul(e, 0, p, f);
    var k := FirstPrefix(u, e, p, f);
    s := u[..k];
    forall l | 0 <= l <= k { MTruncate(u, 0, l, k, e, 0, p, f); }
    assert ExhaustedAt(s, 0, e, 0, p, f);
  }

  /** The patterns the matcher treats right on every string are those whose stars all trail. */
  lemma {:induction false} RightPatterns(e: string, f: Flags)
    requires NoNul(e)
    ensures StarsTrail(e, f) <==> forall s :: NoNul(s) ==> (Accepts(s, e, f) <==> Matches(s, e, f))
  {
    forall s
      ensures Matches(s, e, f) ==> Accepts(s, e, f)
      ensures Accepts(s, e, f) && !Matches(s, e, f) <==> EndsEarly(s, e, f)
    {
      GreedyIsRight(s, e, f);
    }
    if !StarsTrail(e, f) {
      var p :| 0 <= p < |e| && IsStar(e[p], f) && !AllStars(e, p, |e|, f);
      var s := WrongOnSome(e, p, f);
    }
  }

  /** "a" is accepted by "a*b", which does not match it. */
  lemma {:induction false} WrongYes()
    ensures var f := Flags(false, true, true, false); Accepts("a", "a*b", f) && !Matches("a", "a*b", f)
  {
    var f := Flags(false, true, true, false);
    var s, e := "a", "a*b";
    assert M(s, 1, 1, e, 1, 1, f) && M(s, 0, 1, e, 0, 1, f) && !M(s, 0, 0, e, 0, 1, f);
    assert ExhaustedAt(s, 0, e, 0, 1, f);
    assert !IsStar(e[2], f);
    assert EndsEarly(s, e, f);
    GreedyIsRight(s, e, f);
  }

  /** "aba" matches the part of "*a*b" before its second star, and is rightly refused all the same. */
  lemma {:induction false} PrefixMatchIsNotEnough()
    ensures var f := Flags(false, true, true, false);
            Matches("aba", "*a", f) && !Matches("aba", "*a*b", f) && !Accepts("aba", "*a*b", f)
  {
    var f := Flags(false, true, true, false);
    var s, e := "aba", "*a*b";
    assert M(s, 3, 3, "*a", 2, 2, f) && M(s, 2, 3, "*a", 1, 2, f);
    assert M(s, 1, 1, e, 2, 2, f) && M(s, 0, 1, e, 1, 2, f) && M(s, 0, 1, e, 0, 2, f);
    assert !First(s, 0, 3, e, 0, 2, f);
    assert !M(s, 0, 3, e, 0, 0, f);
    forall k | 0 <= k <= 3 ensures !M(s, k, 3, e, 3, 4, f) {
      assert k + 1 == 3 ==> !CharOk(s[k], e[3], f);
    }
    assert !SomeTail(s, 0, 3, e, 3, 4, f) && !SomeTail(s, 1, 3, e, 3, 4, f) && !SomeTail(s, 2, 3, e, 3, 4, f) && !SomeTail(s, 3, 3, e, 3, 4, f);
    assert !Matches(s, e, f);
    GreedyIsRight(s, e, f);
  }

  // ---------------------------------------------------------------------------
  // What the pattern characters stand for
  // ---------------------------------------------------------------------------

  /** A pattern character stands for itself, for the other case if that is ignored, and '?' and '#' for what their flags allow. */
  lemma {:induction false} CharLaw(c: char, x: char, f: Flags)
    ensures CharOk(c, x, f) <==>
            c == x
            || (f.ignoreCase && 'A' <= c <= 'Z' && x as int == c as int + 32)
            || (f.ignoreCase && 'A' <= x <= 'Z' && c as int == x as int + 32)
            || (f.single && x == '?')
            || (f.hash && x == '#' && '0' <= c <= '9')
  {
  }

  /** A pattern without active stars matches, and is accepted, character by character. */
  lemma {:induction false} WithoutStars(s: string, e: string, f: Flags)
    requires forall k :: 0 <= k < |e| ==> !f.star || e[k] != '*'
    ensures Matches(s, e, f) <==> |s| == |e| && forall k :: 0 <= k < |e| ==> CharOk(s[k], e[k], f)
    ensures Accepts(s, e, f) <==> Matches(s, e, f)
  {
    MSegment(s, 0, |s|, e, 0, |e|, |e|, f);
  }

  /** A star-free piece of a pattern, written out. */
  lemma {:induction false} PieceFits(s: string, i: nat, e: string, j: nat, b: string, f: Flags)
    requires i + |b| <= |s| && Lies(e, j, b)
    ensures SegAt(s, i, e, j, |b|, f) <==> forall k :: 0 <= k < |b| ==> CharOk(s[i + k], b[k], f)
  {
    hide CharOk;
    forall k | 0 <= k < |b| ensures e[j + k] == b[k] {
    }
    if SegAt(s, i, e, j, |b|, f) {
      forall k | 0 <= k < |b| ensures CharOk(s[i + k], b[k], f) {
        var x := j + k;
        assert CharOk(s[x - j + i], e[x], f);
      }
    }
    if forall k :: 0 <= k < |b| ==> CharOk(s[i + k], b[k], f) {
      forall x | j <= x < j + |b| ensures CharOk(s[x - j + i], e[x], f) {
        assert CharOk(s[i + (x - j)], b[x - j], f) && e[j + (x - j)] == b[x - j];
      }
    }
  }

  lemma {:induction false} NoStarIn(e: string, j: nat, b: string, f: Flags)
    requires Lies(e, j, b) && '*' !in b
    ensures NoStars(e, j, j + |b|, f)
  {
    forall x | j <= x < j + |b| ensures !IsStar(e[x], f) {
      assert e[j + (x - j)] == b[x - j];
    }
  }

  /** An active star between two pieces stands for whatever is between a prefix and a suffix that fit them. */
  lemma {:induction false} OneStar(s: string, a: string, b: string, f: Flags)
    requires f.star && '*' !in a && '*' !in b
    ensures Matches(s, a + ("*" + b), f) <==>
            |a| + |b| <= |s|
            && (forall k :: 0 <= k < |a| ==> CharOk(s[k], a[k], f))
            && (forall k :: 0 <= k < |b| ==> CharOk(s[|s| - |b| + k], b[k], f))
  {
    hide CharOk, SegAt, NoStars, M, Lies;
    var e := a + ("*" + b);
    LiesSelf(e);
    LiesSplit(e, 0, a, "*" + b);
    LiesSplit(e, |a|, "*", b);
    LiesHead(e, |a|, "*");
    NoStarIn(e, 0, a, f);
    NoStarIn(e, |a| + 1, b, f);
    MSegment(s, 0, |s|, e, 0, |a|, |e|, f);
    if |a| <= |s| {
      PieceFits(s, 0, e, 0, a, f);
      assert forall k :: 0 <= k < |a| ==> s[0 + k] == s[k];
      MLastSegment(s, |a|, |s|, e, |a|, |e|, f);
      if |a| + |b| <= |s| {
        PieceFits(s, |s| - |b|, e, |a| + 1, b, f);
      }
    }
  }
}
