// GRUB device names and the device map of src/grub.c.
module GrubDevice {
  import opened CStrings
  import opened Lists
  import opened Numbers

  datatype Gdev = Gdev(kind: string, p1: string, p2: string, p3: string, device: string)

  const NO_DEVICE := Gdev("", "", "", "", "")

  /** What a 16-byte field keeps. */
  function Keep(s: string): string { Take(s, 15) }

  // ---------------------------------------------------------------------------
  // parse_gdev
  // ---------------------------------------------------------------------------

  /** The end of the digits that start at index i. */
  function DigitsEnd(s: string, i: nat): (j: nat)
    requires i <= |s|
    ensures i <= j <= |s| && (j < |s| ==> !IsDigit(s[j])) && forall x :: i <= x < j ==> IsDigit(s[x])
    decreases |s| - i
  {
    if i < |s| && IsDigit(s[i]) then DigitsEnd(s, i + 1) else i
  }

  /** One PARSE_TOKEN up to its end test: the index behind the part and where its text starts. */
  function PartAt(s: string, i: nat, first: bool): (r: Option<(nat, nat)>)
    requires i <= |s|
    ensures r.Some? ==> i <= r.value.1 < r.value.0 <= |s|
  {
    if !first && IsLower(At(s, i)) then Some((i + 1, i))
    else if IsDigit(At(s, i)) then Some((DigitsEnd(s, i), i))
    else if Lies(s, i, "msdos") && IsDigit(At(s, i + 5)) then Some((DigitsEnd(s, i + 5), i + 5))
    else None
  }

  predicate AtEnd(s: string, j: nat, brackets: bool)
    requires j <= |s|
  {
    if brackets then At(s, j) == ')' else j == |s|
  }

  /** The parts from number n on. */
  function PartsFrom(s: string, i: nat, n: nat, brackets: bool): Option<seq<string>>
    requires i <= |s| && n < 3
    decreases 3 - n
  {
    match PartAt(s, i, n == 0)
    case None => None
    case Some((j, a)) =>
      var text := Keep(s[a..j]);
      if AtEnd(s, j, brackets) then Some([text])
      else if At(s, j) != ',' || n == 2 then None
      else match PartsFrom(s, j + 1, n + 1, brackets)
           case None => None
           case Some(rest) => Some([text] + rest)
  }

  function FromParts(kind: string, ps: seq<string>): Gdev {
    Gdev(kind, if |ps| > 0 then ps[0] else "", if |ps| > 1 then ps[1] else "", if |ps| > 2 then ps[2] else "", "")
  }

  predicate IsKind(k: string) { k == "fd" || k == "hd" }

  function Parse(s: string): Option<Gdev> {
    var brackets := s != "" && s[0] == '(';
    var i := if brackets then 1 else 0;
    if |s| < i + 2 || !IsKind(s[i..i + 2]) then None
    else match PartsFrom(s, i + 2, 0, brackets)
         case None => None
         case Some(ps) => Some(FromParts(s[i..i + 2], ps))
  }

  // ---------------------------------------------------------------------------
  // The grammar
  // ---------------------------------------------------------------------------

  predicate IsDigits(p: string) { p != "" && forall k :: 0 <= k < |p| ==> '0' <= p[k] <= '9' }

  /** A part as written.  Only the first may be an msdos partition number; only the others a letter. */
  predicate IsPart(p: string, first: bool) {
    IsDigits(p) || (!first && |p| == 1 && 'a' <= p[0] <= 'z') || (first && "msdos" <= p && IsDigits(p[5..]))
  }

  function TextOf(p: string): string { Keep(if "msdos" <= p then p[5..] else p) }

  function Texts(ps: seq<string>): seq<string> {
    if ps == [] then [] else [TextOf(ps[0])] + Texts(ps[1..])
  }

  predicate AreParts(ps: seq<string>, n: nat) {
    1 <= |ps| <= 3 - n && IsPart(ps[0], n == 0) && forall k :: 1 <= k < |ps| ==> IsPart(ps[k], false)
  }

  function PrintParts(ps: seq<string>): string {
    if ps == [] then "" else if |ps| == 1 then ps[0] else ps[0] + ("," + PrintParts(ps[1..]))
  }

  /** A device name, bracketed or not; anything may follow a closing bracket. */
  function Print(brackets: bool, kind: string, ps: seq<string>, tail: string): string {
    if brackets then "(" + (kind + (PrintParts(ps) + (")" + tail))) else kind + PrintParts(ps)
  }

  lemma {:induction false} DigitsEndIs(s: string, i: nat, p: string)
    requires Lies(s, i, p) && AllDigits(p) && (i + |p| < |s| ==> !IsDigit(s[i + |p|]))
    ensures DigitsEnd(s, i) == i + |p|
  {
    forall x | i <= x < i + |p| ensures IsDigit(s[x]) {
      assert s[i + (x - i)] == p[x - i];
    }
  }

  lemma {:induction false} MsdosPart(s: string, i: nat, p: string)
    requires Lies(s, i, p) && "msdos" <= p && IsDigits(p[5..]) && (i + |p| < |s| ==> !IsDigit(s[i + |p|]))
    ensures PartAt(s, i, true) == Some((i + |p|, i + 5)) && s[i + 5..i + |p|] == p[5..]
  {
    assert p == "msdos" + p[5..];
    LiesSplit(s, i, "msdos", p[5..]);
    assert s[i + 0] == "msdos"[0];
    assert s[i + 5 + 0] == p[5..][0];
    DigitsEndIs(s, i + 5, p[5..]);
    LiesSlice(s, i + 5, p[5..]);
  }

  lemma {:induction false} PlainPart(s: string, i: nat, p: string, first: bool)
    requires Lies(s, i, p) && (i + |p| < |s| ==> !IsDigit(s[i + |p|]))
    requires IsDigits(p) || (!first && |p| == 1 && 'a' <= p[0] <= 'z')
    ensures PartAt(s, i, first) == Some((i + |p|, i)) && s[i..i + |p|] == p && !("msdos" <= p)
  {
    LiesSlice(s, i, p);
    assert s[i + 0] == p[0];
    if IsDigits(p) {
      DigitsEndIs(s, i, p);
    }
  }

  lemma {:induction false} PrintedPart(s: string, i: nat, p: string, first: bool)
    requires Lies(s, i, p) && IsPart(p, first) && (i + |p| < |s| ==> !IsDigit(s[i + |p|]))
    ensures var r := PartAt(s, i, first); r.Some? && r.value.0 == i + |p| && Keep(s[r.value.1..r.value.0]) == TextOf(p)
  {
    hide PartAt, Keep;
    if IsDigits(p) || (!first && |p| == 1 && 'a' <= p[0] <= 'z') {
      PlainPart(s, i, p, first);
    } else {
      MsdosPart(s, i, p);
    }
  }

  lemma {:induction false} PartsStep(s: string, i: nat, n: nat, brackets: bool)
    requires i <= |s| && n < 3 && PartAt(s, i, n == 0).Some?
    ensures var (j, a) := PartAt(s, i, n == 0).value;
            var text := Keep(s[a..j]);
            PartsFrom(s, i, n, brackets) ==
            if AtEnd(s, j, brackets) then Some([text])
            else if At(s, j) != ',' || n == 2 then None
            else match PartsFrom(s, j + 1, n + 1, brackets)
                 case None => None
                 case Some(rest) => Some([text] + rest)
  {
    hide PartAt;
  }

  lemma {:induction false} MoreParts(ps: seq<string>, n: nat)
    requires |ps| > 1
    ensures PrintParts(ps) == ps[0] + ("," + PrintParts(ps[1..])) && Texts(ps) == [TextOf(ps[0])] + Texts(ps[1..])
    ensures AreParts(ps, n) ==> n < 2 && IsPart(ps[0], n == 0) && AreParts(ps[1..], n + 1)
  {
    hide IsPart;
  }

  lemma {:induction false} OnePart(ps: seq<string>, n: nat)
    requires |ps| == 1
    ensures PrintParts(ps) == ps[0] && Texts(ps) == [TextOf(ps[0])]
    ensures AreParts(ps, n) ==> IsPart(ps[0], n == 0)
  {
  }

  lemma {:induction false} PrintedParts(s: string, i: nat, n: nat, ps: seq<string>, brackets: bool)
    requires n < 3 && AreParts(ps, n) && Lies(s, i, PrintParts(ps)) && AtEnd(s, i + |PrintParts(ps)|, brackets)
    ensures PartsFrom(s, i, n, brackets) == Some(Texts(ps))
    decreases |ps|
  {
    hide PartAt, IsPart, TextOf, PartsFrom, PrintParts, Texts, Keep;
    var p := ps[0];
    if |ps| == 1 {
      OnePart(ps, n);
    } else {
      var more := PrintParts(ps[1..]);
      MoreParts(ps, n);
      LiesSplit(s, i, p, "," + more);
      LiesSplit(s, i + |p|, ",", more);
      assert s[i + |p| + 0] == ","[0];
      PrintedParts(s, i + |p| + 1, n + 1, ps[1..], brackets);
    }
    PrintedPart(s, i, p, n == 0);
    PartsStep(s, i, n, brackets);
  }

  /** Parsing inverts printing: the parts come back, cut to the 15 characters a field holds. */
  lemma {:induction false} ParsePrint(brackets: bool, kind: string, ps: seq<string>, tail: string)
    requires IsKind(kind) && AreParts(ps, 0)
    ensures Parse(Print(brackets, kind, ps, tail)) == Some(FromParts(kind, Texts(ps)))
  {
    hide PartsFrom, AreParts, PrintParts, Texts, Lies, Parse, FromParts;
    var s, text := Print(brackets, kind, ps, tail), PrintParts(ps);
    LiesSelf(s);
    if brackets {
      LiesSplit(s, 0, "(", kind + (text + (")" + tail)));
      LiesHead(s, 0, "(");
      LiesSplit(s, 1, kind, text + (")" + tail));
      LiesSplit(s, 3, text, ")" + tail);
      LiesSplit(s, 3 + |text|, ")", tail);
      LiesHead(s, 3 + |text|, ")");
      ParseAt(s, true, kind, ps);
    } else {
      LiesSplit(s, 0, kind, text);
      LiesHead(s, 0, kind);
      ParseAt(s, false, kind, ps);
    }
  }

  lemma {:induction false} ParseAt(s: string, brackets: bool, kind: string, ps: seq<string>)
    requires IsKind(kind) && AreParts(ps, 0) && s != "" && (brackets <==> s[0] == '(')
    requires var i := if brackets then 1 else 0;
             Lies(s, i, kind) && Lies(s, i + 2, PrintParts(ps)) && AtEnd(s, i + 2 + |PrintParts(ps)|, brackets)
    ensures Parse(s) == Some(FromParts(kind, Texts(ps)))
  {
    hide PartsFrom, AreParts, PrintParts, Texts, FromParts;
    var i := if brackets then 1 else 0;
    LiesSlice(s, i, kind);
    PrintedParts(s, i + 2, 0, ps, brackets);
  }

  lemma {:induction false} DigitSlice(s: string, a: nat, j: nat)
    requires a < j <= |s| && forall x :: a <= x < j ==> IsDigit(s[x])
    ensures IsDigits(s[a..j])
  {
  }

  lemma {:induction false} MsdosSlice(s: string, i: nat, j: nat)
    requires Lies(s, i, "msdos") && i + 5 <= j <= |s|
    ensures "msdos" <= s[i..j] && s[i..j][5..] == s[i + 5..j] && s[i] == 'm'
  {
    LiesSlice(s, i, "msdos");
    LiesHead(s, i, "msdos");
    assert s[i..j][..5] == s[i..i + 5];
  }

  lemma {:induction false} ParsedPart(s: string, i: nat, first: bool)
    requires i <= |s| && PartAt(s, i, first).Some?
    ensures var r := PartAt(s, i, first).value;
            IsPart(s[i..r.0], first) && TextOf(s[i..r.0]) == Keep(s[r.1..r.0])
  {
    hide Keep;
    var r := PartAt(s, i, first).value;
    var p := s[i..r.0];
    if r.1 == i {
      assert p[0] == s[i];
      if IsDigit(s[i]) {
        DigitSlice(s, i, r.0);
      }
    } else {
      DigitSlice(s, i + 5, r.0);
      MsdosSlice(s, i, r.0);
    }
  }

  lemma {:induction false} ParsedParts(s: string, i: nat, n: nat, brackets: bool) returns (ps: seq<string>)
    requires i <= |s| && n < 3 && PartsFrom(s, i, n, brackets).Some?
    ensures AreParts(ps, n) && Lies(s, i, PrintParts(ps)) && AtEnd(s, i + |PrintParts(ps)|, brackets)
    decreases 3 - n
  {
    hide IsPart, TextOf, PartAt, PrintParts, Texts, Keep, AreParts, PartsFrom;
    SomePart(s, i, n, brackets);
    var (j, a) := PartAt(s, i, n == 0).value;
    PartsStep(s, i, n, brackets);
    ParsedPart(s, i, n == 0);
    var p := s[i..j];
    if AtEnd(s, j, brackets) {
      ps := [p];
      OnePart(ps, n);
      ConsParts(p, [], n);
      assert [p] + [] == ps;
    } else {
      var rest := ParsedParts(s, j + 1, n + 1, brackets);
      ps := [p] + rest;
      assert ps[1..] == rest;
      NotEmpty(rest, n + 1);
      MoreParts(ps, n);
      assert Lies(s, i, p) && Lies(s, j, ",");
      hide Lies;
      LiesSplit(s, j, ",", PrintParts(rest));
      LiesSplit(s, i, p, "," + PrintParts(rest));
      assert PrintParts(ps) == p + ("," + PrintParts(rest));
      ConsParts(p, rest, n);
    }
  }

  lemma {:induction false} SomePart(s: string, i: nat, n: nat, brackets: bool)
    requires i <= |s| && n < 3 && PartsFrom(s, i, n, brackets).Some?
    ensures PartAt(s, i, n == 0).Some?
  {
  }

  lemma {:induction false} NotEmpty(ps: seq<string>, n: nat)
    requires AreParts(ps, n)
    ensures ps != []
  {
  }

  lemma {:induction false} ConsParts(p: string, rest: seq<string>, n: nat)
    requires n < 3 && IsPart(p, n == 0) && (rest == [] || (n < 2 && AreParts(rest, n + 1)))
    ensures AreParts([p] + rest, n)
  {
    hide IsPart;
    assert forall k :: 1 <= k < |[p] + rest| ==> ([p] + rest)[k] == rest[k - 1];
  }

  lemma {:induction false} ParsedForm(s: string) returns (brackets: bool, kind: string, ps: seq<string>, tail: string)
    requires Parse(s).Some?
    ensures IsKind(kind) && AreParts(ps, 0) && s == Print(brackets, kind, ps, tail)
  {
    hide PartsFrom, AreParts, PrintParts, FromParts;
    brackets := s != "" && s[0] == '(';
    var i := if brackets then 1 else 0;
    kind := s[i..i + 2];
    ps := ParsedParts(s, i + 2, 0, brackets);
    var text := PrintParts(ps);
    LiesSlice(s, i + 2, text);
    var e := i + 2 + |text|;
    tail := if brackets then s[e + 1..] else "";
    if brackets {
      assert s == "(" + (s[1..3] + (s[3..e] + (")" + s[e + 1..])));
    } else {
      assert s == s[0..2] + s[2..e];
    }
  }

  /** parse_gdev accepts exactly the device names of the grammar. */
  lemma {:induction false} AcceptsGrammar(s: string)
    ensures Parse(s).Some? <==>
            exists brackets, kind, ps, tail ::
              (kind == "fd" || kind == "hd") && AreParts(ps, 0) && s == Print(brackets, kind, ps, tail)
  {
    hide PartsFrom, AreParts, PrintParts;
    if Parse(s).Some? {
      var brackets, kind, ps, tail := ParsedForm(s);
    }
    forall brackets, kind, ps, tail | IsKind(kind) && AreParts(ps, 0) && s == Print(brackets, kind, ps, tail)
      ensures Parse(s).Some?
    {
      ParsePrint(brackets, kind, ps, tail);
    }
  }

  lemma {:induction false} MsdosSecond(s: string, i: nat)
    requires i + 1 < |s| && s[i] == 'm' && s[i + 1] == 's'
    ensures PartsFrom(s, i, 1, false) == None
  {
    hide PartsFrom, Keep;
    PartsStep(s, i, 1, false);
  }

  /** A name like hd0,msdos1 is refused: only the first part may have the msdos prefix. */
  lemma {:induction false} MsdosOnlyFirst(s: string, j: nat)
    requires 2 < j && j + 2 < |s| && IsKind(s[..2]) && forall x :: 2 <= x < j ==> IsDigit(s[x])
    requires s[j] == ',' && s[j + 1] == 'm' && s[j + 2] == 's'
    ensures Parse(s) == None
  {
    hide PartsFrom, Keep;
    assert s[0] == s[..2][0] && s[0..2] == s[..2];
    assert DigitsEnd(s, 2) == j;
    MsdosSecond(s, j + 1);
    PartsStep(s, 2, 0, false);
  }

  // ---------------------------------------------------------------------------
  // The parser
  // ---------------------------------------------------------------------------

  /** What PARSE_TOKEN does: fail, end the name, or go on behind a comma. */
  datatype Token = Fail | Last(text: string) | More(text: string, next: nat)

  /** The digits from index a on, as many of them as the field holds. */
  method TakeDigits(src: string, a: nat) returns (x: string, i: nat)
    requires a <= |src|
    ensures i == DigitsEnd(src, a) && x == Keep(src[a..i])
  {
    x, i := "", a;
    while IsDigit(At(src, i))
      invariant a <= i <= |src| && DigitsEnd(src, a) == DigitsEnd(src, i) && x == Keep(src[a..i])
      decreases |src| - i
    {
      KeepMore(src, a, i);
      if |x| + 1 < 16 {
        x := x + [src[i]];
      }
      i := i + 1;
    }
  }

  lemma {:induction false} KeepMore(src: string, a: nat, i: nat)
    requires a <= i < |src|
    ensures Keep(src[a..i + 1]) == if i - a < 15 then Keep(src[a..i]) + [src[i]] else Keep(src[a..i])
    ensures |Keep(src[a..i])| == if i - a < 15 then i - a else 15
  {
    assert src[a..i + 1] == src[a..i] + [src[i]];
  }

  ghost function TokenAt(src: string, i: nat, first: bool, brackets: bool): Token
    requires i <= |src|
  {
    match PartAt(src, i, first)
    case None => Fail
    case Some((j, a)) =>
      if AtEnd(src, j, brackets) then Last(Keep(src[a..j]))
      else if At(src, j) == ',' then More(Keep(src[a..j]), j + 1) else Fail
  }

  /** PARSE_TOKEN */
  method ParseToken(src: string, i0: nat, first: bool, brackets: bool) returns (t: Token)
    requires NoNul(src) && i0 <= |src|
    ensures t == TokenAt(src, i0, first, brackets)
  {
    var x, i := "", i0;
    if !first && IsLower(At(src, i)) {
      x := [src[i]];
      i := i + 1;
      assert src[i0..i] == x;
    } else if IsDigit(At(src, i)) || (Lies(src, i, "msdos") && IsDigit(At(src, i + 5))) {
      if !IsDigit(At(src, i)) {
        i := i + 5;
      }
      x, i := TakeDigits(src, i);
    } else {
      return Fail;
    }
    if (!brackets && At(src, i) == NUL) || (brackets && At(src, i) == ')') {
      return Last(x);
    } else if At(src, i) == ',' {
      return More(x, i + 1);
    }
    return Fail;
  }

  lemma {:induction false} TokenParts(src: string, i: nat, n: nat, brackets: bool)
    requires i <= |src| && n < 3
    ensures PartsFrom(src, i, n, brackets) ==
            match TokenAt(src, i, n == 0, brackets)
            case Fail => None
            case Last(x) => Some([x])
            case More(x, next) =>
              if n == 2 then None
              else match PartsFrom(src, next, n + 1, brackets)
                   case None => None
                   case Some(rest) => Some([x] + rest)
  {
    hide PartAt, Keep;
    if PartAt(src, i, n == 0).Some? {
      PartsStep(src, i, n, brackets);
    }
  }

  /** parse_gdev */
  method ParseGdev(src: string) returns (r: Option<Gdev>)
    requires NoNul(src)
    ensures r == Parse(src)
  {
    hide TokenAt, PartsFrom;
    var brackets, i := false, 0;
    if At(src, 0) == '(' {
      brackets, i := true, 1;
    }
    if |src| < i + 2 || (src[i] != 'f' && src[i] != 'h') || src[i + 1] != 'd' {
      assert |src| >= i + 2 ==> src[i..i + 2][0] == src[i] && src[i..i + 2][1] == src[i + 1];
      return None;
    }
    var dest := NO_DEVICE.(kind := src[i..i + 2]);
    assert src[i..i + 2] == [src[i], 'd'];
    i := i + 2;
    var t1 := ParseToken(src, i, true, brackets);
    TokenParts(src, i, 0, brackets);
    if t1.Fail? {
      return None;
    }
    dest := dest.(p1 := t1.text);
    if t1.Last? {
      return Some(dest);
    }
    TokenNext(src, i, true, brackets);
    var t2 := ParseToken(src, t1.next, false, brackets);
    TokenParts(src, t1.next, 1, brackets);
    if t2.Fail? {
      return None;
    }
    dest := dest.(p2 := t2.text);
    if t2.Last? {
      return Some(dest);
    }
    TokenNext(src, t1.next, false, brackets);
    var t3 := ParseToken(src, t2.next, false, brackets);
    TokenParts(src, t2.next, 2, brackets);
    if !t3.Last? {
      return None;
    }
    return Some(dest.(p3 := t3.text));
  }

  lemma {:induction false} TokenNext(src: string, i: nat, first: bool, brackets: bool)
    requires i <= |src| && TokenAt(src, i, first, brackets).More?
    ensures TokenAt(src, i, first, brackets).next <= |src|
  {
    hide PartAt, Keep;
  }

  // ---------------------------------------------------------------------------
  // lookup_gdev
  // ---------------------------------------------------------------------------

  /** An entry that agrees with the device on every part the device gives. */
  predicate Agrees(g: Gdev, e: Gdev) {
    g.kind == e.kind && g.p1 == e.p1 && (g.p2 == "" || g.p2 == e.p2) && (g.p3 == "" || g.p3 == e.p3)
  }

  /** An entry for the whole disk the device is on. */
  predicate WholeDisk(g: Gdev, e: Gdev) { e.p2 == "" && g.kind == e.kind && g.p1 == e.p1 }

  function FirstAgreeing(devmap: seq<Gdev>, g: Gdev, i: nat): (k: Option<nat>)
    requires i <= |devmap|
    ensures k.Some? ==> i <= k.value < |devmap| && Agrees(g, devmap[k.value])
                        && forall j :: i <= j < k.value ==> !Agrees(g, devmap[j])
    ensures k.None? ==> forall j :: i <= j < |devmap| ==> !Agrees(g, devmap[j])
    decreases |devmap| - i
  {
    if i == |devmap| then None else if Agrees(g, devmap[i]) then Some(i) else FirstAgreeing(devmap, g, i + 1)
  }

  function FirstWhole(devmap: seq<Gdev>, g: Gdev, i: nat): (k: Option<nat>)
    requires i <= |devmap|
    ensures k.Some? ==> i <= k.value < |devmap| && WholeDisk(g, devmap[k.value])
                        && forall j :: i <= j < k.value ==> !WholeDisk(g, devmap[j])
    ensures k.None? ==> forall j :: i <= j < |devmap| ==> !WholeDisk(g, devmap[j])
    decreases |devmap| - i
  {
    if i == |devmap| then None else if WholeDisk(g, devmap[i]) then Some(i) else FirstWhole(devmap, g, i + 1)
  }

  /** The device a GRUB name stands for. */
  function Lookup(devmap: seq<Gdev>, dev: string): Option<string> {
    match Parse(dev)
    case None => None
    case Some(g) =>
      var k := FirstAgreeing(devmap, g, 0);
      if k.Some? then Some(devmap[k.value].device)
      else
        var w := if IsDigit(At(g.p2, 0)) && g.p3 == "" then FirstWhole(devmap, g, 0) else None;
        if w.Some? then Some(devmap[w.value].device + Printed(Atoi(g.p2) + 1))
        else if g.kind == "fd" && IsDigit(At(g.p1, 0)) && g.p2 == "" then Some("fd" + Printed(Atoi(g.p1)))
        else None
  }

  /** "%d" */
  function Printed(n: int): string { if n < 0 then "-" + Decimal(-n) else Decimal(n) }

  lemma {:induction false} FirstAgreeingStable(devmap: seq<Gdev>, more: seq<Gdev>, g: Gdev, i: nat)
    requires i <= |devmap| && FirstAgreeing(devmap, g, i).Some?
    ensures FirstAgreeing(devmap + more, g, i) == FirstAgreeing(devmap, g, i)
    decreases |devmap| - i
  {
    if !Agrees(g, devmap[i]) {
      FirstAgreeingStable(devmap, more, g, i + 1);
    }
  }

  /** An answer given by an absolute match stays when entries are added after it. */
  lemma {:induction false} AbsoluteMatchStable(devmap: seq<Gdev>, more: seq<Gdev>, dev: string, g: Gdev)
    requires Parse(dev) == Some(g) && exists e :: e in devmap && Agrees(g, e)
    ensures Lookup(devmap, dev).Some? && Lookup(devmap + more, dev) == Lookup(devmap, dev)
  {
    hide Parse;
    FirstAgreeingStable(devmap, more, g, 0);
  }

  /** A partition that the map only knows through its disk is the disk's device and the number after. */
  lemma {:induction false} PartitionOfDisk(devmap: seq<Gdev>, dev: string, brackets: bool, kind: string, p1: string, n: nat, tail: string, k: nat)
    requires IsPart(p1, true) && n + 1 < 0x8000_0000 && IsKind(kind)
    requires dev == Print(brackets, kind, [p1, Decimal(n)], tail)
    requires k < |devmap| && devmap[k].kind == kind && devmap[k].p1 == TextOf(p1) && devmap[k].p2 == ""
    requires forall j :: 0 <= j < k ==> devmap[j].kind != kind || devmap[j].p1 != TextOf(p1) || devmap[j].p2 != ""
    requires forall j :: 0 <= j < |devmap| && devmap[j].kind == kind && devmap[j].p1 == TextOf(p1) ==> devmap[j].p2 != Decimal(n)
    ensures Lookup(devmap, dev) == Some(devmap[k].device + Decimal(n + 1))
  {
    hide Parse, Print, TextOf;
    var ps := [p1, Decimal(n)];
    DecimalDigits(n);
    IntDigits(n);
    AtoiOfDecimal(n);
    ParsePrint(brackets, kind, ps, tail);
    var g := FromParts(kind, Texts(ps));
    NotMsdos(Decimal(n));
    WholeText(Decimal(n));
    TwoTexts(p1, Decimal(n));
    assert FirstAgreeing(devmap, g, 0) == None;
    assert FirstWhole(devmap, g, 0) == Some(k);
  }

  lemma {:induction false} OneText(b: string)
    ensures Texts([b]) == [TextOf(b)]
  {
    hide TextOf;
    assert [b][1..] == [] && Texts([]) == [];
    assert Texts([b]) == [TextOf(b)] + Texts([b][1..]);
  }

  lemma {:induction false} TwoTexts(a: string, b: string)
    ensures Texts([a, b]) == [TextOf(a), TextOf(b)]
  {
    hide TextOf;
    OneText(b);
    assert [a, b][1..] == [b];
    assert Texts([a, b]) == [TextOf(a)] + Texts([a, b][1..]);
  }

  /** Of a longer part 15 characters are kept. */
  lemma {:induction false} LongText(p: string)
    requires !("msdos" <= p) && |p| > 15
    ensures TextOf(p) == p[..15]
  {
  }

  lemma {:induction false} WholeText(p: string)
    requires !("msdos" <= p) && |p| <= 15
    ensures TextOf(p) == p
  {
  }

  /** An int has at most ten digits. */
  lemma {:induction false} IntDigits(n: nat)
    requires n < 0x8000_0000
    ensures |Decimal(n)| <= 10
  {
    hide Decimal;
    DecimalLength(n, 10);
  }

  lemma {:induction false} NotMsdos(p: string)
    requires IsDigits(p)
    ensures !("msdos" <= p)
  {
    assert IsDigit(p[0]);
  }

  ghost function Values(ns: seq<Node<Gdev>>): seq<Gdev> { seq(|ns|, i requires 0 <= i < |ns| => ns[i].value) }

  /** lookup_gdev, over the linked device map. */
  method LookupGdev(devmap: Node?<Gdev>, dev: string, ghost ns: seq<Node<Gdev>>) returns (r: Option<string>)
    requires Chain(devmap, ns) && NoNul(dev)
    ensures r == Lookup(Values(ns), dev)
  {
    hide Parse;
    var parsed := ParseGdev(dev);
    if parsed.None? {
      return None;
    }
    var g := parsed.value;
    var ptr := devmap;
    ghost var i := 0;
    while ptr != null
      invariant 0 <= i <= |ns| && ptr == Nth(ns, i)
      invariant FirstAgreeing(Values(ns), g, 0) == FirstAgreeing(Values(ns), g, i)
      decreases |ns| - i
    {
      var e := ptr.value;
      if g.kind == e.kind && g.p1 == e.p1 && !(g.p2 != "" && g.p2 != e.p2) && !(g.p3 != "" && g.p3 != e.p3) {
        return Some(e.device);
      }
      ptr := ptr.next;
      i := i + 1;
    }
    if IsDigit(At(g.p2, 0)) && g.p3 == "" {
      ptr, i := devmap, 0;
      while ptr != null
        invariant 0 <= i <= |ns| && ptr == Nth(ns, i)
        invariant FirstWhole(Values(ns), g, 0) == FirstWhole(Values(ns), g, i)
        decreases |ns| - i
      {
        var e := ptr.value;
        if e.p2 == "" && g.kind == e.kind && g.p1 == e.p1 {
          return Some(e.device + Printed(Atoi(g.p2) + 1));
        }
        ptr := ptr.next;
        i := i + 1;
      }
    }
    if g.kind == "fd" && IsDigit(At(g.p1, 0)) && g.p2 == "" {
      return Some("fd" + Printed(Atoi(g.p1)));
    }
    return None;
  }

  // ---------------------------------------------------------------------------
  // What lookup_gdev answers, over the fields of the map
  // ---------------------------------------------------------------------------

  /** An entry with that disk and every further part given. */
  predicate Holds(e: Gdev, kind: string, ps: seq<string>)
    requires ps != []
  {
    e.kind == kind && e.p1 == TextOf(ps[0]) && (|ps| > 1 ==> e.p2 == TextOf(ps[1])) && (|ps| > 2 ==> e.p3 == TextOf(ps[2]))
  }

  lemma {:induction false} TextGiven(p: string, first: bool)
    requires IsPart(p, first)
    ensures TextOf(p) != "" && (IsDigit(TextOf(p)[0]) <==> first || IsDigits(p))
  {
    if "msdos" <= p {
      assert p[0] == 'm';
    }
  }

  lemma {:induction false} TextsAre(ps: seq<string>)
    requires 1 <= |ps| <= 3
    ensures |Texts(ps)| == |ps| && forall k :: 0 <= k < |ps| ==> Texts(ps)[k] == TextOf(ps[k])
  {
    hide TextOf;
    var t := ps[1..];
    assert Texts(ps) == [TextOf(ps[0])] + Texts(t);
    if |t| > 0 {
      var u := t[1..];
      assert Texts(t) == [TextOf(t[0])] + Texts(u);
      if |u| > 0 {
        OneText(u[0]);
        assert u == [u[0]];
      }
    }
  }

  lemma {:induction false} AgreesIs(kind: string, ps: seq<string>, e: Gdev)
    requires AreParts(ps, 0)
    ensures Agrees(FromParts(kind, Texts(ps)), e) <==> Holds(e, kind, ps)
  {
    hide TextOf, IsPart;
    TextsAre(ps);
    forall k | 0 <= k < |ps| ensures TextOf(ps[k]) != "" {
      TextGiven(ps[k], k == 0);
    }
  }

  /** The first entry that holds every part given is the answer, whatever else the map holds. */
  lemma {:induction false} AbsoluteMatch(devmap: seq<Gdev>, dev: string, brackets: bool, kind: string, ps: seq<string>, tail: string, k: nat)
    requires IsKind(kind) && AreParts(ps, 0) && dev == Print(brackets, kind, ps, tail)
    requires k < |devmap| && Holds(devmap[k], kind, ps) && forall j :: 0 <= j < k ==> !Holds(devmap[j], kind, ps)
    ensures Lookup(devmap, dev) == Some(devmap[k].device)
  {
    hide Parse, Print, AreParts, Holds, FromParts, Texts, Agrees;
    NotEmpty(ps, 0);
    ParsePrint(brackets, kind, ps, tail);
    forall e ensures Agrees(FromParts(kind, Texts(ps)), e) <==> Holds(e, kind, ps) {
      AgreesIs(kind, ps, e);
    }
    assert FirstAgreeing(devmap, FromParts(kind, Texts(ps)), 0) == Some(k);
  }

  /** A floppy drive the map does not hold is the device of its number. */
  lemma {:induction false} FloppyByNumber(devmap: seq<Gdev>, dev: string, brackets: bool, p1: string, n: nat, tail: string)
    requires IsPart(p1, true) && TextOf(p1) == Decimal(n) && n < 0x8000_0000 && dev == Print(brackets, "fd", [p1], tail)
    requires forall j :: 0 <= j < |devmap| ==> devmap[j].kind != "fd" || devmap[j].p1 != Decimal(n)
    ensures Lookup(devmap, dev) == Some("fd" + Decimal(n))
  {
    hide Parse, Print, TextOf, IsPart, Decimal;
    DecimalDigits(n);
    AtoiOfDecimal(n);
    OneText(p1);
    assert AreParts([p1], 0);
    ParsePrint(brackets, "fd", [p1], tail);
    assert FirstAgreeing(devmap, FromParts("fd", Texts([p1])), 0) == None;
  }

  /** Without an entry that holds the parts there is no answer, unless a partition number meets its whole disk or a drive is a floppy. */
  lemma {:induction false} NoDevice(devmap: seq<Gdev>, dev: string, brackets: bool, kind: string, ps: seq<string>, tail: string)
    requires IsKind(kind) && AreParts(ps, 0) && dev == Print(brackets, kind, ps, tail)
    requires forall j :: 0 <= j < |devmap| ==> !Holds(devmap[j], kind, ps)
    requires |ps| == 2 && IsDigits(ps[1]) ==>
             forall j :: 0 <= j < |devmap| ==> devmap[j].kind != kind || devmap[j].p1 != TextOf(ps[0]) || devmap[j].p2 != ""
    requires kind == "hd" || |ps| > 1
    ensures Lookup(devmap, dev) == None
  {
    hide Parse, Print, Holds, TextOf, IsPart, Agrees;
    var g := FromParts(kind, Texts(ps));
    TextsAre(ps);
    ParsePrint(brackets, kind, ps, tail);
    forall e ensures Agrees(g, e) <==> Holds(e, kind, ps) {
      AgreesIs(kind, ps, e);
    }
    assert FirstAgreeing(devmap, g, 0) == None;
    forall k | 0 <= k < |ps| ensures TextOf(ps[k]) != "" && (k > 0 ==> (IsDigit(TextOf(ps[k])[0]) <==> IsDigits(ps[k]))) {
      TextGiven(ps[k], k == 0);
    }
    if IsDigit(At(g.p2, 0)) && g.p3 == "" {
      assert FirstWhole(devmap, g, 0) == None;
    }
  }

  /** Nor is there one for what is no device name. */
  lemma {:induction false} NotADevice(devmap: seq<Gdev>, dev: string)
    requires forall brackets, kind, ps, tail :: IsKind(kind) && AreParts(ps, 0) ==> dev != Print(brackets, kind, ps, tail)
    ensures Lookup(devmap, dev) == None
  {
    hide AreParts, Print, Parse;
    AcceptsGrammar(dev);
  }
}
