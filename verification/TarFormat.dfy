// The archive format read by src/tar.c: 512-byte blocks, octal numbers and a checksum.
module TarFormat {
  import opened CStrings
  import Numbers

  /** A byte, written as the character with its value. */
  type Byte = c: char | c as int < 256 witness '\0'

  const BLOCK := 512

  /** One past the largest unsigned long, and unsigned int. */
  const ULONG := 0x1_0000_0000_0000_0000
  const UINT := 0x1_0000_0000

  // ---------------------------------------------------------------------------
  // Octal numbers
  // ---------------------------------------------------------------------------

  predicate IsOctal(c: char) { '0' <= c <= '7' }

  /** The digits from index i on; None when the field ends before the number does. */
  function ParseOct(t: string, i: nat, acc: nat): Option<nat>
    requires i <= |t|
    decreases |t| - i
  {
    if i == |t| then None
    else if IsOctal(t[i]) then ParseOct(t, i + 1, acc * 8 + (t[i] as int - '0' as int))
    else Some(acc)
  }

  function SkipSpace(t: string, i: nat): (k: nat)
    requires i <= |t|
    ensures i <= k <= |t|
    decreases |t| - i
  {
    if i < |t| && Numbers.IsSpace(t[i]) then SkipSpace(t, i + 1) else i
  }

  /** strtoul(t, NULL, 8) on a header field; None when the field holds no terminator. */
  function StrToUl(t: string): Option<nat> {
    var i := SkipSpace(t, 0);
    if i == |t| then None
    else if t[i] == '-' then
      match ParseOct(t, i + 1, 0)
      case None => None
      case Some(v) => Some((ULONG - v) % ULONG)
    else ParseOct(t, if t[i] == '+' then i + 1 else i, 0)
  }

  function Pow8(n: nat): nat { if n == 0 then 1 else 8 * Pow8(n - 1) }

  function Digit(v: nat): Byte { ((v % 8) + '0' as int) as char }

  /** v in n octal digits. */
  function Octal(v: nat, n: nat): seq<Byte> {
    if n == 0 then [] else Octal(v / 8, n - 1) + [Digit(v)]
  }

  lemma {:induction false} OctalLength(v: nat, n: nat)
    ensures |Octal(v, n)| == n
    decreases n
  {
    if n > 0 {
      OctalLength(v / 8, n - 1);
    }
  }

  lemma {:induction false} OctalStep(v: nat, n: nat)
    requires n > 0
    ensures Octal(v, n) == Octal(v / 8, n - 1) + [Digit(v)] && |Octal(v / 8, n - 1)| == n - 1
    ensures Pow8(n) == 8 * Pow8(n - 1) && Pow8(0) == 1
  {
    OctalLength(v / 8, n - 1);
  }

  lemma {:induction false} ParseDigit(t: string, i: nat, acc: nat, v: nat)
    requires i < |t| && t[i] == Digit(v)
    ensures ParseOct(t, i, acc) == ParseOct(t, i + 1, acc * 8 + v % 8)
  {
  }

  lemma {:induction false} Shifted(acc: nat, p: nat, v: nat)
    ensures (acc * p + v / 8) * 8 + v % 8 == acc * (8 * p) + v
  {
    assert acc * p * 8 == acc * (8 * p);
  }

  lemma {:induction false} ParseOctal(t: string, i: nat, acc: nat, v: nat, n: nat)
    requires v < Pow8(n) && Lies(t, i, Octal(v, n))
    ensures i + n <= |t| && ParseOct(t, i, acc) == ParseOct(t, i + n, acc * Pow8(n) + v)
    decreases n
  {
    hide ParseOct, Octal, Digit, Lies;
    OctalStep(v, if n > 0 then n else 1);
    if n > 0 {
      var front := Octal(v / 8, n - 1);
      LiesSplit(t, i, front, [Digit(v)]);
      LiesHead(t, i + |front|, [Digit(v)]);
      ParseOctal(t, i, acc, v / 8, n - 1);
      ParseDigit(t, i + (n - 1), acc * Pow8(n - 1) + v / 8, v);
      Shifted(acc, Pow8(n - 1), v);
    } else {
      LiesWithin(t, i, Octal(v, 0));
    }
  }

  lemma {:induction false} LiesWithin(t: string, i: nat, s: string)
    requires Lies(t, i, s)
    ensures i + |s| <= |t|
  {
  }

  /** Reading back an octal field of n digits and a terminator. */
  lemma {:induction false} OctalRoundTrip(t: string, v: nat, n: nat)
    requires n > 0 && v < Pow8(n) && Lies(t, 0, Octal(v, n)) && n < |t| && !IsOctal(t[n])
    ensures StrToUl(t) == Some(v)
  {
    OctalLength(v, n);
    OctalLength(v / 8, n - 1);
    ParseOctal(t, 0, 0, v, n);
    OctalStart(v, n);
    assert t[0 + 0] == Octal(v, n)[0];
  }

  lemma {:induction false} OctalStart(v: nat, n: nat)
    requires n > 0
    ensures |Octal(v, n)| == n && IsOctal(Octal(v, n)[0])
    decreases n
  {
    OctalLength(v, n);
    OctalLength(v / 8, n - 1);
    if n > 1 {
      OctalStart(v / 8, n - 1);
    }
  }

  lemma {:induction false} StrToUlFrom(t: string, b: nat)
    requires SkipSpace(t, 0) == b < |t|
    ensures StrToUl(t) ==
      if t[b] == '-' then match ParseOct(t, b + 1, 0) case None => None case Some(v) => Some((ULONG - v) % ULONG)
      else ParseOct(t, if t[b] == '+' then b + 1 else b, 0)
  {
    hide ParseOct, SkipSpace;
  }

  lemma {:induction false} SpaceSkipped(t: string, i: nat, blanks: string)
    requires Lies(t, i, blanks) && forall k :: 0 <= k < |blanks| ==> Numbers.IsSpace(blanks[k])
    requires i + |blanks| < |t| && !Numbers.IsSpace(t[i + |blanks|])
    ensures SkipSpace(t, i) == i + |blanks|
    decreases |blanks|
  {
    if blanks != "" {
      LiesSplit(t, i, [blanks[0]], blanks[1..]);
      assert [blanks[0]] + blanks[1..] == blanks;
      LiesHead(t, i, blanks);
      SpaceSkipped(t, i + 1, blanks[1..]);
    }
  }

  lemma {:induction false} ParseStop(t: string, i: nat, acc: nat)
    requires i < |t| && !IsOctal(t[i])
    ensures ParseOct(t, i, acc) == Some(acc)
  {
  }

  /** A field may have blanks and a sign in front of its digits; a negative number wraps around. */
  lemma {:induction false} OctalReads(t: string, blanks: string, sign: string, v: nat, n: nat)
    requires (forall k :: 0 <= k < |blanks| ==> blanks[k] == ' ' || '\t' <= blanks[k] <= '\r') && sign in {"", "+", "-"}
    requires n > 0 && v < Pow8(n) && Lies(t, 0, blanks + (sign + Octal(v, n)))
    requires |blanks| + |sign| + n < |t| && !IsOctal(t[|blanks| + |sign| + n])
    ensures StrToUl(t) == Some(if sign == "-" then (ULONG - v) % ULONG else v)
  {
    hide Octal, ParseOct, SkipSpace, Lies, StrToUl, Pow8;
    var b, d := |blanks|, Octal(v, n);
    OctalLength(v, n);
    OctalStart(v, n);
    LiesSplit(t, 0, blanks, sign + d);
    LiesSplit(t, b, sign, d);
    LiesHead(t, b, sign);
    LiesHead(t, b + |sign|, d);
    SpaceSkipped(t, 0, blanks);
    StrToUlFrom(t, b);
    ParseOctal(t, b + |sign|, 0, v, n);
    ParseStop(t, b + |sign| + n, v);
  }

  // ---------------------------------------------------------------------------
  // The checksum
  // ---------------------------------------------------------------------------

  predicate InChecksum(i: int) { 148 <= i < 156 }

  /** The sum of the first n bytes, the checksum field taken as blanks. */
  function Sum(block: seq<Byte>, n: nat): nat
    requires n <= |block|
  {
    if n == 0 then 0 else Sum(block, n - 1) + (if InChecksum(n - 1) then ' ' as int else block[n - 1] as int)
  }

  /** The header's own figure for its checksum, as an unsigned int. */
  function Declared(block: seq<Byte>): Option<nat>
    requires |block| == BLOCK
  {
    match StrToUl(block[148..156])
    case None => None
    case Some(a) => Some(a % UINT)
  }

  predicate ChecksumOk(block: seq<Byte>)
    requires |block| == BLOCK
  {
    Declared(block) == Some(Sum(block, BLOCK))
  }

  lemma {:induction false} SumBound(block: seq<Byte>, n: nat)
    requires n <= |block|
    ensures Sum(block, n) <= 255 * n - (if n <= 148 then 0 else if n <= 156 then 223 * (n - 148) else 223 * 8)
    decreases n
  {
    if n > 0 {
      SumBound(block, n - 1);
    }
  }

  lemma {:induction false} SumOneByte(a: seq<Byte>, b: seq<Byte>, n: nat, i: nat)
    requires n <= |a| == |b| && i < |a| && !InChecksum(i) && b == a[i := b[i]]
    ensures Sum(b, n) == Sum(a, n) + (if i < n then b[i] as int - a[i] as int else 0)
    decreases n
  {
    if n > 0 {
      SumOneByte(a, b, n - 1, i);
    }
  }

  lemma {:induction false} SixDigits()
    ensures Pow8(6) == 262144
  {
    OctalStep(0, 6);
    OctalStep(0, 5);
    OctalStep(0, 4);
    OctalStep(0, 3);
    OctalStep(0, 2);
    OctalStep(0, 1);
    hide Pow8;
  }

  /** A field of a block that holds a text from its start on. */
  lemma {:induction false} FieldHolds(block: seq<Byte>, i: nat, j: nat, t: seq<Byte>)
    requires i + |t| <= j <= |block| && Lies(block, i, t)
    ensures Lies(block[i..j], 0, t)
  {
    var field := block[i..j];
    forall x | 0 <= x < |t| ensures field[0 + x] == t[x] {
      assert field[x] == block[i + x];
    }
  }

  /** The sum of any header fits six octal digits, and writing it there makes the header pass. */
  lemma {:induction false} WrittenChecksumPasses(block: seq<Byte>)
    requires |block| == BLOCK
    requires Lies(block, 148, Octal(Sum(block, BLOCK), 6)) && !IsOctal(block[154])
    ensures Sum(block, BLOCK) <= 128776 < Pow8(6) && ChecksumOk(block)
  {
    hide Sum, Octal, Pow8, Lies, StrToUl;
    var v := Sum(block, BLOCK);
    SumBound(block, BLOCK);
    SixDigits();
    OctalLength(v, 6);
    FieldHolds(block, 148, 156, Octal(v, 6));
    OctalRoundTrip(block[148..156], v, 6);
  }

  /** No single byte outside the field can change unnoticed. */
  lemma {:induction false} ChangedByteFails(block: seq<Byte>, i: nat, c: Byte)
    requires |block| == BLOCK && ChecksumOk(block) && i < BLOCK && !InChecksum(i) && c != block[i]
    ensures !ChecksumOk(block[i := c])
  {
    var b := block[i := c];
    SumOneByte(block, b, BLOCK, i);
    assert b[148..156] == block[148..156];
  }

  // ---------------------------------------------------------------------------
  // Headers
  // ---------------------------------------------------------------------------

  /** What a header block tells the extractor.  Undefined: a name or number without terminator, or an empty name. */
  datatype Header = Zero | Corrupt | Undefined | Skip | Member(name: string, size: nat)

  predicate AllZero(block: seq<Byte>) {
    forall k :: 0 <= k < |block| ==> block[k] == NUL
  }

  function NulFrom(block: seq<Byte>, i: nat, n: nat): (k: nat)
    requires i <= n <= |block|
    ensures i <= k <= n && (k < n ==> block[k] == NUL) && forall x :: i <= x < k ==> block[x] != NUL
    decreases n - i
  {
    if i == n || block[i] == NUL then i else NulFrom(block, i + 1, n)
  }

  function Classify(block: seq<Byte>): Header
    requires |block| == BLOCK
  {
    if AllZero(block) then Zero
    else if Declared(block) == None then Undefined
    else if !ChecksumOk(block) then Corrupt
    else
      var z := NulFrom(block, 0, 100);
      if z == 0 || z == 100 then Undefined
      else if block[z - 1] == '/' then Skip
      else if block[156] == '1' then Skip
      else match StrToUl(block[124..136])
           case None => Undefined
           case Some(size) => Member(block[..z], size)
  }

  /** The bytes a member's contents take up in the archive. */
  function Padded(size: nat): nat { (size + 511) / 512 * 512 }

  ghost predicate GoodName(name: seq<Byte>) {
    1 <= |name| <= 99 && NoNul(name) && name[|name| - 1] != '/'
  }

  /** A header written for a regular file; all the other bytes are up to the writer. */
  ghost predicate IsHeader(block: seq<Byte>, name: seq<Byte>, size: nat) {
    |block| == BLOCK && |name| <= 99
    && Lies(block, 0, name) && block[|name|] == NUL
    && Lies(block, 124, Octal(size, 11)) && block[135] == NUL
    && Lies(block, 148, Octal(Sum(block, BLOCK), 6)) && block[154] == NUL
    && block[156] != '1'
  }

  lemma {:induction false} HeaderRoundTrip(block: seq<Byte>, name: seq<Byte>, size: nat)
    requires IsHeader(block, name, size) && GoodName(name) && size < Pow8(11)
    ensures Classify(block) == Member(name, size)
  {
    hide Sum, Octal, Pow8, Lies, StrToUl, ChecksumOk, NulFrom, AllZero, NoNul;
    WrittenChecksumPasses(block);
    PassesDeclared(block);
    NameField(block, name);
    OctalLength(size, 11);
    FieldHolds(block, 124, 136, Octal(size, 11));
    OctalRoundTrip(block[124..136], size, 11);
  }

  lemma {:induction false} PassesDeclared(block: seq<Byte>)
    requires |block| == BLOCK && ChecksumOk(block)
    ensures Declared(block).Some?
  {
  }

  lemma {:induction false} NameField(block: seq<Byte>, name: seq<Byte>)
    requires |block| == BLOCK && 1 <= |name| <= 99 && NoNul(name) && Lies(block, 0, name) && block[|name|] == NUL
    ensures !AllZero(block) && NulFrom(block, 0, 100) == |name| && block[..|name|] == name
  {
    forall x | 0 <= x < |name| ensures block[x] == name[x] {
      assert block[0 + x] == name[x];
    }
    assert name[0] != NUL && block[0] == name[0];
  }

  /** A header without data: of a directory, with a name that ends in a slash, or of a hard link. */
  ghost predicate IsBare(block: seq<Byte>, name: seq<Byte>, link: bool) {
    |block| == BLOCK && 1 <= |name| <= 99 && NoNul(name)
    && Lies(block, 0, name) && block[|name|] == NUL
    && Lies(block, 148, Octal(Sum(block, BLOCK), 6)) && block[154] == NUL
    && if link then block[156] == '1' else name[|name| - 1] == '/'
  }

  lemma {:induction false} BareSkipped(block: seq<Byte>, name: seq<Byte>, link: bool)
    requires IsBare(block, name, link)
    ensures Classify(block) == Skip
  {
    hide Sum, Octal, Pow8, Lies, StrToUl, ChecksumOk, NulFrom, AllZero, NoNul;
    WrittenChecksumPasses(block);
    PassesDeclared(block);
    NameField(block, name);
  }

  /** A header whose checksum field holds another number than its sum. */
  ghost predicate IsBad(block: seq<Byte>) {
    |block| == BLOCK && block[154] == NUL
    && exists v: nat :: v < 262144 && v != Sum(block, BLOCK) && Lies(block, 148, Octal(v, 6))
  }

  lemma {:induction false} BadIsCorrupt(block: seq<Byte>)
    requires IsBad(block)
    ensures Classify(block) == Corrupt
  {
    hide Sum, Octal, Pow8, Lies, StrToUl;
    var v: nat :| v < 262144 && v != Sum(block, BLOCK) && Lies(block, 148, Octal(v, 6));
    SixDigits();
    OctalLength(v, 6);
    OctalStart(v, 6);
    LiesHead(block, 148, Octal(v, 6));
    assert !AllZero(block);
    FieldHolds(block, 148, 156, Octal(v, 6));
    OctalRoundTrip(block[148..156], v, 6);
    assert v % UINT == v;
  }

  // ---------------------------------------------------------------------------
  // A writer
  // ---------------------------------------------------------------------------

  /** Byte i of a header; the checksum digits are those of sum. */
  function HeaderByte(name: seq<Byte>, size: nat, flag: Byte, sum: nat, i: nat): Byte {
    OctalLength(size, 11);
    OctalLength(sum, 6);
    if i < |name| && i < 100 then name[i]
    else if 124 <= i < 135 then Octal(size, 11)[i - 124]
    else if 148 <= i < 154 then Octal(sum, 6)[i - 148]
    else if i == 155 then ' '
    else if i == 156 then flag
    else NUL
  }

  function HeaderWith(name: seq<Byte>, size: nat, flag: Byte, sum: nat): (block: seq<Byte>) {
    seq(BLOCK, i requires 0 <= i => HeaderByte(name, size, flag, sum, i))
  }

  function WriteHeader(name: seq<Byte>, size: nat, flag: Byte): (block: seq<Byte>)
    ensures |block| == BLOCK
  {
    HeaderWith(name, size, flag, Sum(HeaderWith(name, size, flag, 0), BLOCK))
  }

  lemma {:induction false} SumIgnoresChecksum(a: seq<Byte>, b: seq<Byte>, n: nat)
    requires n <= |a| == |b| && forall k :: 0 <= k < |a| && !InChecksum(k) ==> a[k] == b[k]
    ensures Sum(a, n) == Sum(b, n)
    decreases n
  {
    if n > 0 {
      SumIgnoresChecksum(a, b, n - 1);
    }
  }

  lemma {:induction false} WrittenFields(name: seq<Byte>, size: nat, flag: Byte)
    requires |name| <= 99
    ensures var block := WriteHeader(name, size, flag);
            Lies(block, 0, name) && block[|name|] == NUL && block[156] == flag
            && Lies(block, 124, Octal(size, 11)) && block[135] == NUL
            && Lies(block, 148, Octal(Sum(block, BLOCK), 6)) && block[154] == NUL
  {
    var sum := Sum(HeaderWith(name, size, flag, 0), BLOCK);
    var block := WriteHeader(name, size, flag);
    SumIgnoresChecksum(HeaderWith(name, size, flag, 0), block, BLOCK);
    OctalLength(size, 11);
    OctalLength(sum, 6);
  }

  lemma {:induction false} WrittenHeader(name: seq<Byte>, size: nat, flag: Byte)
    requires |name| <= 99
    ensures flag != '1' ==> IsHeader(WriteHeader(name, size, flag), name, size)
    ensures name != "" && NoNul(name) && flag == '1' ==> IsBare(WriteHeader(name, size, flag), name, true)
    ensures name != "" && NoNul(name) && name[|name| - 1] == '/' ==> IsBare(WriteHeader(name, size, flag), name, false)
  {
    hide Sum, Octal, Lies, WriteHeader;
    WrittenFields(name, size, flag);
  }
}
