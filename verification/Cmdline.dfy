// get_cmdline of src/misc.c: an option on the kernel command line.
module Cmdline {
  import opened CStrings

  const BLANKS: set<char> := {' ', '\n'}

  /** What an option name may look like. */
  ghost predicate IsName(name: string) { name != "" && NoNul(name) && forall c :: c in name ==> c !in BLANKS }

  /** A line as fgets leaves it: a newline only at its end. */
  ghost predicate IsLine(buf: string) {
    NoNul(buf) && forall k :: 0 <= k < |buf| - 1 ==> buf[k] != '\n'
  }

  /** The value a single word gives the option: that of "name=value", or the empty one of "name". */
  function WordValue(word: string, name: string): Option<string> {
    if word == name then Some("")
    else if name + "=" <= word then Some(word[|name| + 1..])
    else None
  }

  /** The value given by the first word of buf[i..] that has one; words are separated by single spaces. */
  ghost function FirstValue(buf: string, i: nat, name: string): Option<string>
    requires i <= |buf|
    decreases |buf| - i
  {
    var e := Cspn(buf, i, |buf|, BLANKS);
    var v := WordValue(buf[i..e], name);
    if v.Some? then v
    else if e < |buf| && buf[e] == ' ' then FirstValue(buf, e + 1, name)
    else None
  }

  /** What get_cmdline means on a file that starts with the line buf. */
  ghost function Lookup(buf: string, name: string): Option<string> {
    match FirstValue(buf, 0, name)
    case None => None
    case Some(v) => Some(Take(v, 255))
  }

  // ---------------------------------------------------------------------------
  // The strstr scan
  // ---------------------------------------------------------------------------

  ghost predicate WordStart(buf: string, k: nat) {
    k == 0 || (k <= |buf| && buf[k - 1] == ' ')
  }

  /** The three tests of the scan at an occurrence of the name. */
  ghost predicate Hit(buf: string, k: nat, name: string) {
    WordStart(buf, k) && Lies(buf, k, name)
    && (k + |name| == |buf| || buf[k + |name|] == '=' || buf[k + |name|] in BLANKS)
  }

  /** Where the value of a hit starts. */
  function ValueStart(buf: string, k: nat, name: string): nat
    requires k + |name| <= |buf|
  {
    if k + |name| < |buf| && buf[k + |name|] == '=' then k + |name| + 1 else k + |name|
  }

  /** The value of a hit: up to the next blank. */
  ghost function HitValue(buf: string, k: nat, name: string): string
    requires k + |name| <= |buf|
  {
    var v, e := ValueStart(buf, k, name), Cspn(buf, k, |buf|, BLANKS);
    if v <= e then buf[v..e] else ""
  }

  lemma {:induction false} LiesIn(buf: string, k: nat, e: nat, t: string)
    requires k <= e <= |buf|
    ensures t <= buf[k..e] <==> k + |t| <= e && Lies(buf, k, t)
  {
    if k + |t| <= e && Lies(buf, k, t) {
      LiesSlice(buf, k, t);
      assert buf[k..e][..|t|] == buf[k..k + |t|];
    }
    if t <= buf[k..e] {
      assert forall x :: 0 <= x < |t| ==> buf[k + x] == buf[k..e][x];
    }
  }

  lemma {:induction false} HitIsWordValue(buf: string, k: nat, name: string)
    requires IsName(name) && WordStart(buf, k) && k <= |buf|
    ensures var word := buf[k..Cspn(buf, k, |buf|, BLANKS)];
            Hit(buf, k, name) <==> WordValue(word, name).Some?
    ensures Hit(buf, k, name) ==>
              var e := Cspn(buf, k, |buf|, BLANKS);
              ValueStart(buf, k, name) <= e && WordValue(buf[k..e], name) == Some(HitValue(buf, k, name))
  {
    var e := Cspn(buf, k, |buf|, BLANKS);
    var word := buf[k..e];
    LiesIn(buf, k, e, name);
    LiesIn(buf, k, e, name + "=");
    LiesSplit(buf, k, name, "=");
    assert word == name ==> name <= word;
    if Lies(buf, k, name) {
      forall x | k <= x < k + |name| ensures buf[x] !in BLANKS {
        assert buf[k + (x - k)] == name[x - k];
      }
      var a := k + |name|;
      assert a <= e;
      assert name <= word;
      assert word == name <==> e == a;
      assert Lies(buf, a, "=") <==> a < |buf| && buf[a + 0] == "="[0];
      if a < e && buf[a] == '=' {
        assert word[|name| + 1..] == buf[a + 1..e];
      }
      assert a == e ==> HitValue(buf, k, name) == "";
    }
  }

  lemma {:induction false} FirstHit(buf: string, i: nat, k: nat, name: string)
    requires IsLine(buf) && IsName(name) && i <= k <= |buf| && WordStart(buf, i) && Hit(buf, k, name)
    requires forall x :: i <= x < k ==> !Hit(buf, x, name)
    ensures FirstValue(buf, i, name) == Some(HitValue(buf, k, name))
    decreases |buf| - i
  {
    hide WordValue, Hit, ValueStart, HitValue;
    HitIsWordValue(buf, i, name);
    if i < k {
      var e := Cspn(buf, i, |buf|, BLANKS);
      HitStart(buf, k, name);
      FirstHit(buf, e + 1, k, name);
    }
  }

  lemma {:induction false} HitStart(buf: string, k: nat, name: string)
    requires Hit(buf, k, name)
    ensures WordStart(buf, k)
  {
  }

  lemma {:induction false} NoHit(buf: string, i: nat, name: string)
    requires IsName(name) && i <= |buf| && WordStart(buf, i)
    requires forall x :: i <= x <= |buf| ==> !Hit(buf, x, name)
    ensures FirstValue(buf, i, name) == None
    decreases |buf| - i
  {
    hide WordValue, Hit, ValueStart, HitValue;
    HitIsWordValue(buf, i, name);
    var e := Cspn(buf, i, |buf|, BLANKS);
    if e < |buf| && buf[e] == ' ' {
      NoHit(buf, e + 1, name);
    }
  }

  /** strstr(buf + r, name) */
  method StrStr(buf: string, r: nat, name: string) returns (k: Option<nat>)
    requires r <= |buf|
    ensures k.Some? ==> r <= k.value && Lies(buf, k.value, name) && forall x :: r <= x < k.value ==> !Lies(buf, x, name)
    ensures k.None? ==> forall x :: r <= x <= |buf| ==> !Lies(buf, x, name)
  {
    var i := r;
    while i <= |buf|
      invariant r <= i && forall x :: r <= x < i ==> !Lies(buf, x, name)
      decreases |buf| + 1 - i
    {
      if Lies(buf, i, name) {
        return Some(i);
      }
      i := i + 1;
    }
    return None;
  }

  /** get_cmdline, over the first line of the file. */
  method GetCmdline(buf: string, name: string) returns (val: Option<string>)
    requires IsLine(buf) && IsName(name)
    ensures val == Lookup(buf, name)
  {
    hide FirstValue, WordStart;
    assert WordStart(buf, 0) by { FirstWord(buf); }
    var r: nat := 0;
    while true
      invariant r <= |buf| && forall x :: 0 <= x < r ==> !Hit(buf, x, name)
      decreases |buf| - r
    {
      var found := StrStr(buf, r, name);
      if found.None? {
        NoHit(buf, 0, name);
        return None;
      }
      r := found.value;
      var after := r + |name|;
      if r == 0 || buf[r - 1] == ' ' {
        assert WordStart(buf, r) by { WordAfter(buf, r); }
        if after == |buf| || buf[after] == '=' || buf[after] in BLANKS {
          assert Hit(buf, r, name);
          FirstHit(buf, 0, r, name);
          HitIsWordValue(buf, r, name);
          var v := if after < |buf| && buf[after] == '=' then after + 1 else after;
          val := CopyValue(buf, r, v);
          return;
        }
      } else {
        NotAWord(buf, r);
      }
      assert !Hit(buf, r, name);
      r := r + 1;
    }
  }

  lemma {:induction false} FirstWord(buf: string)
    ensures WordStart(buf, 0)
  {
  }

  lemma {:induction false} WordAfter(buf: string, k: nat)
    requires k <= |buf| && (k == 0 || buf[k - 1] == ' ')
    ensures WordStart(buf, k)
  {
  }

  lemma {:induction false} NotAWord(buf: string, k: nat)
    requires 0 < k <= |buf| && buf[k - 1] != ' '
    ensures !WordStart(buf, k)
  {
  }

  /** strlcpy to the 256-byte static buffer, cut at the first blank. */
  method CopyValue(buf: string, k: nat, v: nat) returns (val: Option<string>)
    requires k <= |buf| && k <= v <= Cspn(buf, k, |buf|, BLANKS)
    ensures val == Some(Take(buf[v..Cspn(buf, k, |buf|, BLANKS)], 255))
  {
    var copy := Take(buf[v..], 255);
    var e := StrCspn(copy, 0, |copy|, BLANKS);
    val := Some(copy[..e]);
    ghost var end := Cspn(buf, k, |buf|, BLANKS);
    assert forall x :: 0 <= x < |copy| ==> copy[x] == buf[v + x];
    CspnIs(copy, 0, |copy|, BLANKS, if end - v <= 255 then end - v else 255);
    assert copy[..e] == buf[v..v + e] == Take(buf[v..end], 255);
  }

  // ---------------------------------------------------------------------------
  // Command lines written word by word
  // ---------------------------------------------------------------------------

  function JoinWords(ws: seq<string>): string {
    if ws == [] then "" else if |ws| == 1 then ws[0] else ws[0] + (" " + JoinWords(ws[1..]))
  }

  /** A word gives no value for the option. */
  predicate Other(word: string, name: string) {
    word != name && !(name + "=" <= word)
  }

  predicate NoBlank(word: string) {
    ' ' !in word && '\n' !in word
  }

  /** What follows the first word of a line. */
  function Behind(ws: seq<string>, tail: string): string
    requires ws != []
  {
    if |ws| == 1 then tail else " " + (JoinWords(ws[1..]) + tail)
  }

  lemma {:induction false} JoinStep(ws: seq<string>, tail: string)
    requires ws != []
    ensures JoinWords(ws) + tail == ws[0] + Behind(ws, tail)
    ensures |JoinWords(ws) + tail| == |ws[0]| + |Behind(ws, tail)|
  {
    if |ws| > 1 {
      var a, b, c := ws[0], " ", JoinWords(ws[1..]);
      assert a + (b + c) + tail == a + (b + (c + tail));
    }
  }

  /** The first word of a line ends where it was written. */
  lemma {:induction false} WordAt(buf: string, i: nat, ws: seq<string>, tail: string)
    requires ws != [] && NoBlank(ws[0]) && (tail == "" || tail == "\n")
    requires Lies(buf, i, JoinWords(ws) + tail) && i + |JoinWords(ws) + tail| == |buf|
    ensures var e := Cspn(buf, i, |buf|, BLANKS);
            e == i + |ws[0]| && buf[i..e] == ws[0]
            && if |ws| == 1 then e == |buf| || buf[e] == '\n'
               else e < |buf| && buf[e] == ' ' && Lies(buf, e + 1, JoinWords(ws[1..]) + tail)
                    && e + 1 + |JoinWords(ws[1..]) + tail| == |buf|
  {
    hide JoinWords, Lies;
    JoinStep(ws, tail);
    var rest := Behind(ws, tail);
    LiesSplit(buf, i, ws[0], rest);
    LiesSlice(buf, i, ws[0]);
    LiesHead(buf, i + |ws[0]|, rest);
    CspnOver(buf, i, |buf|, BLANKS, ws[0]);
    if |ws| > 1 {
      LiesSplit(buf, i + |ws[0]|, " ", JoinWords(ws[1..]) + tail);
    }
  }

  /** The value of the first word that is the name, or the name and '=' and the value, whatever stands around it. */
  lemma {:induction false} FirstWordValue(buf: string, i: nat, ws: seq<string>, tail: string, name: string, k: nat, value: string)
    requires IsName(name) && k < |ws| && (tail == "" || tail == "\n") && forall j :: 0 <= j < |ws| ==> NoBlank(ws[j])
    requires Lies(buf, i, JoinWords(ws) + tail) && i + |JoinWords(ws) + tail| == |buf|
    requires (ws[k] == name && value == "") || ws[k] == name + "=" + value
    requires forall j :: 0 <= j < k ==> Other(ws[j], name)
    ensures FirstValue(buf, i, name) == Some(value)
    decreases k
  {
    hide JoinWords, Lies, IsName;
    WordAt(buf, i, ws, tail);
    if k == 0 {
      ValueOf(ws[0], name, value);
    } else {
      OtherGives(ws[0], name);
      FirstWordValue(buf, i + |ws[0]| + 1, ws[1..], tail, name, k - 1, value);
    }
  }

  lemma {:induction false} NoWordValue(buf: string, i: nat, ws: seq<string>, tail: string, name: string)
    requires IsName(name) && ws != [] && (tail == "" || tail == "\n") && forall j :: 0 <= j < |ws| ==> NoBlank(ws[j])
    requires Lies(buf, i, JoinWords(ws) + tail) && i + |JoinWords(ws) + tail| == |buf|
    requires forall j :: 0 <= j < |ws| ==> Other(ws[j], name)
    ensures FirstValue(buf, i, name) == None
    decreases |ws|
  {
    hide JoinWords, Lies, IsName;
    WordAt(buf, i, ws, tail);
    OtherGives(ws[0], name);
    if |ws| > 1 {
      NoWordValue(buf, i + |ws[0]| + 1, ws[1..], tail, name);
    }
  }

  lemma {:induction false} ValueOf(word: string, name: string, value: string)
    requires (word == name && value == "") || word == name + "=" + value
    ensures WordValue(word, name) == Some(value)
  {
    if word != name {
      assert word[..|name| + 1] == name + "=" && word[|name| + 1..] == value;
    }
  }

  lemma {:induction false} OtherGives(word: string, name: string)
    requires Other(word, name)
    ensures WordValue(word, name) == None
  {
  }

  /** An option written on a command line is found with its value, of which 255 characters are kept. */
  lemma {:induction false} LookupWritten(ws: seq<string>, tail: string, name: string, k: nat, value: string)
    requires IsName(name) && k < |ws| && (tail == "" || tail == "\n") && forall j :: 0 <= j < |ws| ==> NoBlank(ws[j])
    requires (ws[k] == name && value == "") || ws[k] == name + "=" + value
    requires forall j :: 0 <= j < k ==> Other(ws[j], name)
    ensures Lookup(JoinWords(ws) + tail, name) == Some(if |value| <= 255 then value else value[..255])
  {
    LiesSelf(JoinWords(ws) + tail);
    FirstWordValue(JoinWords(ws) + tail, 0, ws, tail, name, k, value);
  }

  /** And one that is not written is not found. */
  lemma {:induction false} LookupUnwritten(ws: seq<string>, tail: string, name: string)
    requires IsName(name) && ws != [] && (tail == "" || tail == "\n") && forall j :: 0 <= j < |ws| ==> NoBlank(ws[j])
    requires forall j :: 0 <= j < |ws| ==> Other(ws[j], name)
    ensures Lookup(JoinWords(ws) + tail, name) == None
  {
    LiesSelf(JoinWords(ws) + tail);
    NoWordValue(JoinWords(ws) + tail, 0, ws, tail, name);
  }
}
