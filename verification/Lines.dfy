// Reading a text line by line with fgets into a 1024-byte buffer.
module Lines {
  import opened CStrings

  const LINE_SIZE := 1024

  /** Where the line read at index i ends: behind its newline, at the end of the text, or when the buffer is full. */
  ghost function LineEnd(text: string, i: nat): (k: nat)
    requires i < |text|
    ensures i < k <= |text|
  {
    var limit := if i + LINE_SIZE - 1 <= |text| then i + LINE_SIZE - 1 else |text|;
    var n := Cspn(text, i, limit, {'\n'});
    if n < limit then n + 1 else n
  }

  /** fgets(buf, 1024, fh) at index i of the file. */
  method FGets(text: string, i: nat) returns (line: string, next: nat)
    requires i < |text|
    ensures next == LineEnd(text, i) && line == text[i..next]
  {
    var limit := if i + LINE_SIZE - 1 <= |text| then i + LINE_SIZE - 1 else |text|;
    var n := StrCspn(text, i, limit, {'\n'});
    next := if n < limit then n + 1 else n;
    line := text[i..next];
  }

  /** A line is what lies up to the next newline, the end of the text, or 1023 characters, whichever comes first. */
  lemma {:induction false} LineEndIs(text: string, i: nat, k: nat)
    requires i < |text|
    ensures k == LineEnd(text, i) <==>
            i < k <= |text| && k - i <= 1023 && (forall x :: i <= x < k - 1 ==> text[x] != '\n')
            && (text[k - 1] == '\n' || k == |text| || k - i == 1023)
  {
    var e := LineEnd(text, i);
    assert i < e <= |text| && e - i <= 1023;
    if i < k < e {
      assert text[k - 1] !in {'\n'};
    }
  }
}
