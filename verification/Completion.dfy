// kl_strins and kl_str_match_len of src/misc.c, and the completion of src/shell.c built on them.
module Completion {
  import opened CStrings
  import opened CBuffers
  import LineEditor

  // ---------------------------------------------------------------------------
  // kl_strins
  // ---------------------------------------------------------------------------

  /** The character at index k once t is in at o. */
  function InsertedAt(s: string, t: string, o: nat, k: nat): char
    requires o <= |s| && k < |s| + |t|
  {
    if k < o then s[k] else if k < o + |t| then t[k - o] else s[k - |t|]
  }

  /** The first n characters of the inserted text, terminated. */
  ghost predicate Filled(a: array<char>, s: string, t: string, o: nat, n: nat)
    requires o <= |s| && n <= |s| + |t|
    reads a
  {
    n < a.Length && a[n] == NUL && forall k :: 0 <= k < n ==> a[k] == InsertedAt(s, t, o, k)
  }

  lemma {:induction false} InsertedIs(s: string, t: string, o: nat, k: nat)
    requires o <= |s| && k < |s| + |t|
    ensures |Inserted(s, t, o)| == |s| + |t| && Inserted(s, t, o)[k] == InsertedAt(s, t, o, k)
  {
    assert s[..o] + t + s[o..] == s[..o] + (t + s[o..]);
  }

  lemma {:induction false} FilledHolds(a: array<char>, s: string, t: string, o: nat, size: nat)
    requires o <= |s| < size && NoNul(s) && NoNul(t)
    requires Filled(a, s, t, o, if |s| + |t| < size then |s| + |t| else size - 1)
    ensures Holds(a, Take(Inserted(s, t, o), size - 1))
  {
    var cut := Take(Inserted(s, t, o), size - 1);
    assert |Inserted(s, t, o)| == |s| + |t|;
    hide Inserted;
    forall k | 0 <= k < |cut| ensures a[k] == cut[k] && cut[k] != NUL {
      InsertedIs(s, t, o, k);
    }
  }

  /** memmove, strncpy and the terminator: src goes in at o in front of the next `keep` characters. */
  method InsertKeeping(dest: array<char>, o: nat, src: string, keep: nat, ghost s: string)
    requires Holds(dest, s) && o + keep <= |s| && o + |src| + keep < dest.Length
    modifies dest
    ensures Filled(dest, s, src, o, o + |src| + keep)
  {
    MemMove(dest, o + |src|, o, keep);
    CopyIn(dest, o, src, |src|);
    dest[o + |src| + keep] := NUL;
  }

  /**
   * kl_strins: in each of its three branches the buffer ends up with the inserted text, cut to
   * the size given.  The result counts the bytes needed from the place of insertion on.
   */
  method KlStrins(dest: array<char>, src: string, offset: int, size: nat, ghost s: string) returns (req: nat)
    requires Holds(dest, s) && NoNul(src) && |s| < size <= dest.Length && offset <= |s|
    modifies dest
    ensures Holds(dest, Take(Inserted(s, src, if offset > 0 then offset else 0), size - 1))
    ensures req == |s| - (if offset > 0 then offset else 0) + |src| + 1
  {
    hide Inserted;
    var o: nat, room := if offset > 0 then offset else 0, size;
    room := room - o;
    var dlen := StrLenFrom(dest, o, s);
    var slen := |src|;
    req := dlen + slen + 1;
    if slen + 1 > room {
      CopyIn(dest, o, src, room - 1);
      dest[o + room - 1] := NUL;
      assert Filled(dest, s, src, o, size - 1);
    } else if req > room {
      InsertKeeping(dest, o, src, room - slen - 1, s);
    } else {
      InsertKeeping(dest, o, src, dlen, s);
    }
    hide Filled, InsertedAt, Holds;
    FilledHolds(dest, s, src, o, size);
  }

  /** strlen(a + o) */
  method StrLenFrom(a: array<char>, o: nat, ghost s: string) returns (n: nat)
    requires Holds(a, s) && o <= |s|
    ensures n == |s| - o
  {
    n := 0;
    while a[o + n] != NUL
      invariant o + n <= |s|
      decreases |s| - n
    {
      n := n + 1;
    }
  }

  // ---------------------------------------------------------------------------
  // The longest common prefix
  // ---------------------------------------------------------------------------

  /** All candidates have the same first k characters. */
  ghost predicate Common(list: seq<string>, k: nat) {
    forall i :: 0 <= i < |list| ==> k <= |list[i]| && list[i][..k] == Take(list[0], k)
  }

  /** k characters are common, and no more. */
  ghost predicate LongestCommon(list: seq<string>, k: nat) {
    Common(list, k) && forall m: nat :: Common(list, m) ==> m <= k
  }

  /** kl_str_match_len */
  method MatchLen(s1: string, s2: string) returns (r: nat)
    requires NoNul(s1) && NoNul(s2)
    ensures LongestCommon([s1, s2], r)
  {
    r := 0;
    while At(s1, r) == At(s2, r) && At(s1, r) != NUL
      invariant r <= |s1| && r <= |s2| && s1[..r] == s2[..r]
      decreases |s1| - r
    {
      assert s1[..r + 1] == s1[..r] + [s1[r]] && s2[..r + 1] == s2[..r] + [s2[r]];
      r := r + 1;
    }
    forall m: nat | Common([s1, s2], m) ensures m <= r {
      if m > r {
        CommonAt(s1, s2, m, r);
      }
    }
  }

  lemma {:induction false} CommonAt(s1: string, s2: string, m: nat, r: nat)
    requires Common([s1, s2], m) && r < m
    ensures r < |s1| && r < |s2| && s1[r] == s2[r]
  {
    assert [s1, s2][1] == s2;
    assert s2[..m] == Take(s1, m) == s1[..m];
    assert s1[..m][r] == s2[..m][r];
  }

  /** Common to the first candidates, and to the last of them and the next one: common to all. */
  lemma {:induction false} CommonSnoc(list: seq<string>, next: string, k: nat)
    requires list != []
    ensures Common(list + [next], k) <==> Common(list, k) && Common([list[|list| - 1], next], k)
  {
    var more, pair := list + [next], [list[|list| - 1], next];
    assert forall i :: 0 <= i < |list| ==> more[i] == list[i];
    assert more[|list|] == next && pair[1] == next;
  }

  /** The minimum of the match lengths of neighbours. */
  lemma {:induction false} LongestSnoc(list: seq<string>, next: string, k: nat, m: nat)
    requires list != [] && LongestCommon(list, k) && LongestCommon([list[|list| - 1], next], m)
    ensures LongestCommon(list + [next], if k < m then k else m)
  {
    hide Common;
    var last := list[|list| - 1];
    var least := if k < m then k else m;
    forall x: nat ensures Common(list + [next], x) <==> Common(list, x) && Common([last, next], x) {
      CommonSnoc(list, next, x);
    }
    CommonLess(list, k, least);
    CommonLess([last, next], m, least);
  }

  lemma {:induction false} CommonLess(list: seq<string>, k: nat, m: nat)
    requires Common(list, k) && m <= k
    ensures Common(list, m)
  {
    forall i | 0 <= i < |list| ensures m <= |list[i]| && list[i][..m] == Take(list[0], m) {
      assert list[i][..k][..m] == list[i][..m] && list[0][..k][..m] == list[0][..m];
    }
  }

  lemma {:induction false} LongestOne(s: string)
    ensures LongestCommon([s], |s|)
  {
    assert Take(s, |s|) == s[..|s|];
    forall m: nat | Common([s], m) ensures m <= |s| {
      assert [s][0] == s;
    }
  }

  /** The count of characters Tab appends: none without candidates, else the longest common prefix. */
  method CommonLength(list: seq<string>) returns (app: nat)
    requires forall i :: 0 <= i < |list| ==> NoNul(list[i]) && |list[i]| < 1024
    ensures list == [] ==> app == 0
    ensures list != [] ==> LongestCommon(list, app)
  {
    var INT_MAX := 0x7FFF_FFFF;
    app := INT_MAX;
    var i := 0;
    if list != [] {
      LongestOne(list[0]);
      assert list[..1] == [list[0]];
    }
    ghost var longest: nat := if list == [] then 0 else |list[0]|;
    while i + 1 < |list|
      invariant 0 <= i && (list == [] ==> i == 0) && (list != [] ==> i < |list| && LongestCommon(list[..i + 1], longest))
      invariant i == 0 ==> app == INT_MAX && (list != [] ==> longest == |list[0]|)
      invariant i > 0 ==> app == longest
    {
      var m := MatchLen(list[i], list[i + 1]);
      assert list[..i + 2] == list[..i + 1] + [list[i + 1]];
      LongestSnoc(list[..i + 1], list[i + 1], longest, m);
      BoundedMatch(list[i], list[i + 1], m);
      longest := if longest < m then longest else m;
      app := if m > app then app else m;
      i := i + 1;
    }
    if list == [] {
      app := 0;
    } else {
      assert list[..i + 1] == list;
      if |list| == 1 {
        app := |list[0]|;
      }
    }
  }

  lemma {:induction false} BoundedMatch(s1: string, s2: string, m: nat)
    requires LongestCommon([s1, s2], m)
    ensures m <= |s1|
  {
    assert [s1, s2][0] == s1;
  }

  /**
   * Tab, with the candidates already collected: what all of them have in common is put in at the
   * cursor, as far as it fits, and the cursor moves behind it.
   */
  method Complete(buf: array<char>, list: seq<string>, offset: nat, ghost text: string)
    returns (cmdlen: nat, newOffset: nat, ghost app: nat)
    requires buf.Length == LineEditor.CMDBUF_SIZE && Holds(buf, text) && offset <= |text|
    requires forall i :: 0 <= i < |list| ==> NoNul(list[i]) && |list[i]| < 1024
    modifies buf
    ensures list == [] ==> app == 0 && Holds(buf, text)
    ensures list != [] ==> LongestCommon(list, app) && app <= |list[0]|
    ensures list != [] ==> Holds(buf, Take(Inserted(text, list[0][..app], offset), LineEditor.CMDBUF_SIZE - 1))
    ensures cmdlen < LineEditor.CMDBUF_SIZE && Holds(buf, buf[..cmdlen])
    ensures newOffset == if offset + app < cmdlen then offset + app else cmdlen
  {
    hide LongestCommon, Inserted;
    var n := CommonLength(list);
    app := n;
    if list != [] {
      LongestWithin(list, n);
    }
    ghost var after := text;
    if n != 0 {
      var req := KlStrins(buf, list[0][..n], offset, LineEditor.CMDBUF_SIZE, text);
      after := Take(Inserted(text, list[0][..n], offset), LineEditor.CMDBUF_SIZE - 1);
    } else if list != [] {
      InsertNothing(text, offset);
    }
    cmdlen := StrLen(buf, after);
    assert buf[..cmdlen] == after;
    newOffset := if offset + n < cmdlen then offset + n else cmdlen;
  }

  lemma {:induction false} LongestWithin(list: seq<string>, k: nat)
    requires list != [] && LongestCommon(list, k)
    ensures k <= |list[0]|
  {
  }

  lemma {:induction false} InsertNothing(s: string, o: nat)
    requires o <= |s| < LineEditor.CMDBUF_SIZE
    ensures Take(Inserted(s, "", o), LineEditor.CMDBUF_SIZE - 1) == s
  {
  }
}
