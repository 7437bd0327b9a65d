// Configuration files as sequences of directives, written one to a line in any layout.
module Layouts {
  import opened CStrings
  import opened Lines
  import opened Words

  datatype Directive = D(name: string, val: string)

  /** Blank lines and comments. */
  predicate Ignored(name: string) { name == "" || name[0] == '#' }

  /** Indentation, the blanks between name and value, and the end of the line. */
  datatype Layout = Layout(indent: string, sep: string, eol: string) {
    ghost predicate Valid() {
      OnlyBlanks(indent) && OnlyBlanks(sep) && sep != "" && (eol == "\n" || eol == "\r\n")
    }
  }

  function PrintBody(y: Layout, d: Directive): string {
    if d.val == "" then d.name else d.name + y.sep + d.val
  }

  function PrintLine(y: Layout, d: Directive): string {
    y.indent + PrintBody(y, d) + y.eol
  }

  function PrintLines(y: Layout, ds: seq<Directive>): string {
    if ds == [] then "" else PrintLine(y, ds[0]) + PrintLines(y, ds[1..])
  }

  ghost predicate OneLine(s: string) {
    forall k :: 0 <= k < |s| ==> s[k] != NUL && s[k] != '\r' && s[k] != '\n'
  }

  /** A directive that keeps to one line, and a line that one read takes in whole. */
  ghost predicate Printable(y: Layout, d: Directive) {
    d.name != "" && Unblank(d.name) && OneLine(d.name) && OneLine(d.val) && Flush(d.val)
    && |PrintLine(y, d)| < LINE_SIZE
  }

  ghost predicate AllPrintable(y: Layout, ds: seq<Directive>) {
    forall k :: 0 <= k < |ds| ==> Printable(y, ds[k])
  }

  lemma {:induction false} PrintedBody(y: Layout, d: Directive)
    requires y.Valid() && Printable(y, d)
    ensures Word(PrintBody(y, d)) == d.name && Rest(PrintBody(y, d)) == d.val
    ensures PrintBody(y, d) != "" && OneLine(PrintBody(y, d)) && PrintBody(y, d)[0] !in Blanks
  {
    if d.val == "" {
      LoneWord(d.name);
    } else {
      SplitWord(d.name, y.sep, d.val);
    }
  }

  /** fgets stops behind the line printed. */
  lemma {:induction false} PrintedEnd(y: Layout, d: Directive, text: string, i: nat)
    requires y.Valid() && Printable(y, d) && Lies(text, i, PrintLine(y, d))
    ensures i < |text| && LineEnd(text, i) == i + |PrintLine(y, d)|
  {
    hide PrintBody;
    PrintedBody(y, d);
    EndOfLine(text, i, y.indent + PrintBody(y, d), y.eol, y.indent, PrintBody(y, d));
  }

  lemma {:induction false} EndOfLine(text: string, i: nat, front: string, eol: string, indent: string, body: string)
    requires front == indent + body && OnlyBlanks(indent) && OneLine(body) && (eol == "\n" || eol == "\r\n")
    requires Lies(text, i, front + eol) && |front + eol| < LINE_SIZE
    ensures i < |text| && LineEnd(text, i) == i + |front + eol|
  {
    var line := front + eol;
    var last := |line| - 1;
    assert text[i + last] == line[last] == '\n';
    var limit := if i + LINE_SIZE - 1 <= |text| then i + LINE_SIZE - 1 else |text|;
    forall x | i <= x < i + last ensures text[x] !in {'\n'} {
      assert text[i + (x - i)] == line[x - i];
      if x - i < |indent| {
        assert line[x - i] == indent[x - i];
      } else if x - i < |front| {
        assert line[x - i] == body[x - i - |indent|];
      }
    }
    CspnIs(text, i, limit, {'\n'}, i + last);
  }

  lemma {:induction false} FirstPrintable(y: Layout, ds: seq<Directive>)
    requires ds != [] && AllPrintable(y, ds)
    ensures Printable(y, ds[0]) && AllPrintable(y, ds[1..])
  {
    hide Printable;
  }

  lemma {:induction false} PrintStep(y: Layout, ds: seq<Directive>)
    requires ds != []
    ensures PrintLines(y, ds) == PrintLine(y, ds[0]) + PrintLines(y, ds[1..])
    ensures |PrintLines(y, ds)| == |PrintLine(y, ds[0])| + |PrintLines(y, ds[1..])|
  {
    hide PrintLine;
  }

  // ---------------------------------------------------------------------------
  // Running through a file
  // ---------------------------------------------------------------------------

  /** The lines from index i of the text on, each taken as one step. */
  ghost function RunLines<S>(step: (S, string) -> S, s: S, text: string, i: nat): S
    requires i <= |text|
    decreases |text| - i
  {
    if i == |text| then s else RunLines(step, step(s, text[i..LineEnd(text, i)]), text, LineEnd(text, i))
  }

  ghost function RunAll<S>(obey: (S, string, string) -> S, s: S, ds: seq<Directive>): S
    decreases |ds|
  {
    if ds == [] then s else RunAll(obey, obey(s, ds[0].name, ds[0].val), ds[1..])
  }

  lemma {:induction false} LineOnce<S>(step: (S, string) -> S, s: S, text: string, i: nat)
    requires i < |text|
    ensures RunLines(step, s, text, i) == RunLines(step, step(s, text[i..LineEnd(text, i)]), text, LineEnd(text, i))
  {
  }

  lemma {:induction false} AllOnce<S>(obey: (S, string, string) -> S, s: S, ds: seq<Directive>)
    requires ds != []
    ensures RunAll(obey, s, ds) == RunAll(obey, obey(s, ds[0].name, ds[0].val), ds[1..])
  {
  }

  lemma {:induction false} RunNothing<S>(step: (S, string) -> S, obey: (S, string, string) -> S, y: Layout, s: S, text: string)
    ensures PrintLines(y, []) == "" && RunLines(step, s, text, |text|) == s && RunAll(obey, s, []) == s
  {
  }

  lemma {:induction false} RunAllAppend<S>(obey: (S, string, string) -> S, s: S, a: seq<Directive>, b: seq<Directive>)
    ensures RunAll(obey, s, a + b) == RunAll(obey, RunAll(obey, s, a), b)
    decreases |a|
  {
    if a == [] {
      assert a + b == b;
    } else {
      assert (a + b)[1..] == a[1..] + b;
      RunAllAppend(obey, obey(s, a[0].name, a[0].val), a[1..], b);
    }
  }

  lemma {:induction false} RunOne<S>(obey: (S, string, string) -> S, s: S, d: Directive)
    ensures RunAll(obey, s, [d]) == obey(s, d.name, d.val) && RunAll(obey, s, []) == s
  {
    assert RunAll(obey, obey(s, d.name, d.val), [d][1..]) == obey(s, d.name, d.val);
  }

  /** If every printed line is read as its directive, a file of them does what they mean, one after the other. */
  lemma {:induction false} PrintedRun<S(!new)>(step: (S, string) -> S, obey: (S, string, string) -> S,
                                              y: Layout, ds: seq<Directive>, s: S, text: string, i: nat)
    requires y.Valid() && AllPrintable(y, ds) && Lies(text, i, PrintLines(y, ds)) && i + |PrintLines(y, ds)| == |text|
    requires forall t: S, d :: Printable(y, d) ==> step(t, PrintLine(y, d)) == obey(t, d.name, d.val)
    ensures RunLines(step, s, text, i) == RunAll(obey, s, ds)
    decreases |ds|
  {
    hide *;
    if ds == [] {
      RunNothing(step, obey, y, s, text);
    } else {
      var line, rest := PrintLine(y, ds[0]), PrintLines(y, ds[1..]);
      FirstPrintable(y, ds);
      PrintStep(y, ds);
      LiesSplit(text, i, line, rest);
      PrintedEnd(y, ds[0], text, i);
      LiesSlice(text, i, line);
      LineOnce(step, s, text, i);
      AllOnce(obey, s, ds);
      PrintedRun(step, obey, y, ds[1..], obey(s, ds[0].name, ds[0].val), text, i + |line|);
    }
  }
}
