// Decimal numbers: atoi and "%d", without the bounds of int.
module Numbers {
  import opened CStrings

  predicate IsSpace(c: char) { c == ' ' || '\t' <= c <= '\r' }

  /** The value of the digits from index i on, after acc. */
  function DigitsFrom(s: string, i: nat, acc: nat): nat
    requires i <= |s|
    decreases |s| - i
  {
    if i < |s| && IsDigit(s[i]) then DigitsFrom(s, i + 1, acc * 10 + (s[i] as int - '0' as int)) else acc
  }

  function AfterSpace(s: string, i: nat): (k: nat)
    requires i <= |s|
    ensures i <= k <= |s|
    decreases |s| - i
  {
    if i < |s| && IsSpace(s[i]) then AfterSpace(s, i + 1) else i
  }

  /** atoi */
  function Atoi(s: string): int {
    var i := AfterSpace(s, 0);
    if i < |s| && s[i] == '-' then 0 - DigitsFrom(s, i + 1, 0)
    else DigitsFrom(s, if i < |s| && s[i] == '+' then i + 1 else i, 0)
  }

  /** "%d" of a number that is not negative */
  function Decimal(n: nat): string {
    (if n < 10 then "" else Decimal(n / 10)) + [(n % 10 + '0' as int) as char]
  }

  predicate AllDigits(s: string) {
    forall k :: 0 <= k < |s| ==> IsDigit(s[k])
  }

  lemma {:induction false} DecimalDigits(n: nat)
    ensures Decimal(n) != "" && AllDigits(Decimal(n))
    decreases n
  {
    if n >= 10 {
      DecimalDigits(n / 10);
    }
  }

  function Pow10(k: nat): nat { if k == 0 then 1 else 10 * Pow10(k - 1) }

  lemma {:induction false} DecimalStep(n: nat)
    ensures Decimal(n) == (if n < 10 then "" else Decimal(n / 10)) + [(n % 10 + '0' as int) as char]
  {
  }

  lemma {:induction false} Shift(acc: nat, p: nat, n: nat)
    ensures (acc * p + n / 10) * 10 + n % 10 == acc * (10 * p) + n
  {
    assert acc * p * 10 == acc * (10 * p);
  }

  lemma {:induction false} DigitsOfDecimal(s: string, i: nat, acc: nat, n: nat)
    requires Lies(s, i, Decimal(n))
    ensures DigitsFrom(s, i, acc) == DigitsFrom(s, i + |Decimal(n)|, acc * Pow10(|Decimal(n)|) + n)
    decreases n
  {
    hide Decimal, Pow10;
    var d := [(n % 10 + '0' as int) as char];
    var front := if n < 10 then "" else Decimal(n / 10);
    DecimalStep(n);
    LiesSplit(s, i, front, d);
    PowStep(|front|);
    if n >= 10 {
      DigitsOfDecimal(s, i, acc, n / 10);
    }
    assert s[i + |front| + 0] == d[0];
    Shift(acc, Pow10(|front|), n);
  }

  lemma {:induction false} PowStep(k: nat)
    ensures Pow10(k + 1) == 10 * Pow10(k) && Pow10(0) == 1
  {
  }

  lemma {:induction false} DecimalLength(n: nat, k: nat)
    requires k > 0 && n < Pow10(k)
    ensures |Decimal(n)| <= k
    decreases k
  {
    DecimalStep(n);
    PowStep(k - 1);
    if n >= 10 {
      DecimalLength(n / 10, k - 1);
    }
  }

  lemma {:induction false} AtoiOfDecimal(n: nat)
    ensures Atoi(Decimal(n)) == n
  {
    var s := Decimal(n);
    DecimalDigits(n);
    assert Lies(s, 0, s);
    DigitsOfDecimal(s, 0, 0, n);
  }

  lemma {:induction false} AtoiFrom(s: string, b: nat)
    requires AfterSpace(s, 0) == b
    ensures Atoi(s) == if b < |s| && s[b] == '-' then 0 - DigitsFrom(s, b + 1, 0)
                       else DigitsFrom(s, if b < |s| && s[b] == '+' then b + 1 else b, 0)
  {
    hide DigitsFrom, AfterSpace;
  }

  lemma {:induction false} DigitsStop(s: string, i: nat, acc: nat)
    requires i <= |s| && (i < |s| ==> !IsDigit(s[i]))
    ensures DigitsFrom(s, i, acc) == acc
  {
  }

  /** atoi skips blanks in front, takes a sign, and stops at the first character that is no digit. */
  lemma {:induction false} AtoiReads(blanks: string, sign: string, n: nat, rest: string)
    requires (forall k :: 0 <= k < |blanks| ==> blanks[k] == ' ' || '\t' <= blanks[k] <= '\r')
    requires sign in {"", "+", "-"} && (rest != "" ==> !IsDigit(rest[0]))
    ensures Atoi(blanks + (sign + (Decimal(n) + rest))) == if sign == "-" then 0 - n else n
  {
    hide Decimal, DigitsFrom, AfterSpace, Lies, Atoi, Pow10;
    var d, b := Decimal(n), |blanks|;
    var s := blanks + (sign + (d + rest));
    DecimalDigits(n);
    LiesSelf(s);
    LiesSplit(s, 0, blanks, sign + (d + rest));
    LiesSplit(s, b, sign, d + rest);
    LiesSplit(s, b + |sign|, d, rest);
    LiesHead(s, b + |sign|, d);
    LiesHead(s, b + |sign| + |d|, rest);
    LiesHead(s, b, sign);
    BlanksSkipped(s, 0, blanks);
    AtoiFrom(s, b);
    DigitsOfDecimal(s, b + |sign|, 0, n);
    DigitsStop(s, b + |sign| + |d|, n);
  }

  lemma {:induction false} BlanksSkipped(s: string, i: nat, blanks: string)
    requires Lies(s, i, blanks) && forall k :: 0 <= k < |blanks| ==> IsSpace(blanks[k])
    requires i + |blanks| < |s| && !IsSpace(s[i + |blanks|])
    ensures AfterSpace(s, i) == i + |blanks|
    decreases |blanks|
  {
    if blanks != "" {
      LiesSplit(s, i, [blanks[0]], blanks[1..]);
      assert [blanks[0]] + blanks[1..] == blanks;
      LiesHead(s, i, blanks);
      BlanksSkipped(s, i + 1, blanks[1..]);
    }
  }
}
