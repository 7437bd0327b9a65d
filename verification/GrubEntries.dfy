// Menu entries written the way grub-mkconfig writes them, and what load_grub2_cfg makes of them.
module GrubEntries {
  import opened CStrings
  import opened Numbers
  import opened Words
  import opened Targets
  import opened Layouts
  import opened Grub2
  import opened GrubSearch

  // ---------------------------------------------------------------------------
  // Printed files: any commands, in any layout
  // ---------------------------------------------------------------------------

  lemma {:induction false} BodyIs(indent: string, body: string, eol: string)
    requires OnlyBlanks(indent) && (eol == "\n" || eol == "\r\n")
    requires body != "" && OneLine(body) && body[0] !in Blanks
    ensures Body(indent + body + eol) == body
  {
    var raw := indent + body + eol;
    forall x | 0 <= x < |raw| ensures raw[x] !in {NUL} {
      if x < |indent| {
        assert raw[x] == indent[x];
      } else if x < |indent| + |body| {
        assert raw[x] == body[x - |indent|];
      } else {
        assert raw[x] == eol[x - |indent| - |body|];
      }
    }
    CspnIs(raw, 0, |raw|, {NUL}, |raw|);
    assert raw[..|raw|] == raw;
    assert raw[|indent|] == body[0] && body[0] !in LineStart;
    assert forall x :: 0 <= x < |indent| ==> raw[x] == indent[x];
    assert Spn(raw, 0, |raw|, LineStart) == |indent|;
    var b := raw[|indent|..];
    assert b == body + eol;
    assert b[|body|] == eol[0];
    CspnIs(b, 0, |b|, LineBreaks, |body|);
  }

  lemma {:induction false} PrintedLine(y: Layout, d: Directive, g: Scan)
    requires y.Valid() && Printable(y, d)
    ensures LineStep(g, PrintLine(y, d)) == Obey(g, d.name, d.val)
  {
    hide PrintBody, Command;
    PrintedBody(y, d);
    BodyIs(y.indent, PrintBody(y, d), y.eol);
  }

  /** A file of printed commands does what they mean, one after the other. */
  lemma {:induction false} PrintedText(y: Layout, ds: seq<Directive>, g: Scan)
    requires y.Valid() && AllPrintable(y, ds)
    ensures RunText(g, PrintLines(y, ds), 0) == RunAll(Obey, g, ds)
  {
    hide LineStep, Obey, Printable, AllPrintable, PrintLine, PrintLines, RunLines, RunAll;
    var text := PrintLines(y, ds);
    forall s: Scan, d | Printable(y, d) ensures LineStep(s, PrintLine(y, d)) == Obey(s, d.name, d.val) {
      PrintedLine(y, d, s);
    }
    LiesSelf(text);
    PrintedRun(LineStep, Obey, y, ds, g, text, 0);
  }

  // ---------------------------------------------------------------------------
  // Values as they are written
  // ---------------------------------------------------------------------------

  function Quoted(q: char, v: string): string { [q] + v + [q] }

  /** Blanks and '=' that separate a value from what follows, which starts with none of them. */
  ghost predicate Separates(sep: string, rest: string) {
    (forall k :: 0 <= k < |sep| ==> sep[k] == '\t' || sep[k] == ' ' || sep[k] == '=')
    && (rest != "" ==> rest[0] != '\t' && rest[0] != ' ' && rest[0] != '=')
  }

  lemma {:induction false} AfterIs(s: string, k: nat, sep: string, rest: string)
    requires k < |s| && Separates(sep, rest) && s[k + 1..] == sep + rest
    ensures After(s, k) == rest
  {
    var n := k + 1 + |sep|;
    forall x | k + 1 <= x < n ensures s[x] == sep[x - k - 1] {
      assert s[k + 1..][x - k - 1] == s[x];
    }
    if rest != "" {
      assert s[k + 1..][|sep|] == s[n] == rest[0];
    }
    assert Spn(s, k + 1, |s|, ValueEnd) == n;
    assert s[n..] == s[k + 1..][|sep|..] == rest;
  }

  /** A quoted value is read up to its closing quote, and the rest starts behind the separator. */
  lemma {:induction false} ValQuoted(q: char, v: string, sep: string, rest: string)
    requires (q == '\'' || q == '"') && q !in v && Separates(sep, rest)
    ensures Val(Quoted(q, v) + (sep + rest)) == Value(v, rest)
  {
    var s := Quoted(q, v) + (sep + rest);
    var n := |v| + 1;
    assert s[0] == q && s[n] == q;
    forall x | 1 <= x < n ensures s[x] !in {q} {
      assert s[x] == v[x - 1];
    }
    CspnIs(s, 1, |s|, {q}, n);
    assert s[1..n] == v && s[n + 1..] == sep + rest;
    AfterIs(s, n, sep, rest);
  }

  /** A quote that is not closed is an error. */
  lemma {:induction false} ValUnclosed(q: char, v: string)
    requires (q == '\'' || q == '"') && q !in v
    ensures Val([q] + v) == Unclosed
  {
    var s := [q] + v;
    forall x | 1 <= x < |s| ensures s[x] !in {q} {
      assert s[x] == v[x - 1];
    }
    CspnIs(s, 1, |s|, {q}, |s|);
  }

  /** A value that needs no quotes. */
  ghost predicate Bare(v: string) {
    (v != "" ==> v[0] != '\'' && v[0] != '"') && forall k :: 0 <= k < |v| ==> v[k] != '\t' && v[k] != ' ' && v[k] != '='
  }

  lemma {:induction false} BareEnds(s: string, v: string)
    requires Bare(v) && Lies(s, 0, v) && (|v| < |s| ==> s[|v|] == '\t' || s[|v|] == ' ' || s[|v|] == '=')
    ensures Cspn(s, 0, |s|, ValueEnd) == |v| && s[..|v|] == v && (s != "" ==> !IsQuote(s[0]))
  {
    LiesSlice(s, 0, v);
    LiesHead(s, 0, v);
    forall x | 0 <= x < |v| ensures s[x] !in ValueEnd {
      assert s[0 + x] == v[x];
    }
    CspnIs(s, 0, |s|, ValueEnd, |v|);
  }

  lemma {:induction false} ValTo(s: string, k: nat)
    requires k <= |s| && (s != "" ==> !IsQuote(s[0])) && Cspn(s, 0, |s|, ValueEnd) == k
    ensures Val(s) == Value(s[..k], After(s, k)) && (k == |s| ==> After(s, k) == "")
  {
  }

  /** A bare value, the separator, and the rest. */
  lemma {:induction false} ValBare(v: string, sep: string, rest: string)
    requires Bare(v) && Separates(sep, rest) && (sep == "" ==> rest == "")
    ensures Val(v + (sep + rest)) == Value(v, rest)
  {
    hide *;
    var s := v + (sep + rest);
    LiesSelf(s);
    LiesSplit(s, 0, v, sep + rest);
    LiesSplit(s, |v|, sep, rest);
    LiesHead(s, |v|, sep);
    SeparatorStart(sep, rest);
    BareEnds(s, v);
    ValTo(s, |v|);
    if sep != "" {
      BehindSeparator(s, v, sep, rest);
      AfterIs(s, |v|, sep[1..], rest);
    }
  }

  lemma {:induction false} BehindSeparator(s: string, v: string, sep: string, rest: string)
    requires sep != "" && s == v + (sep + rest)
    ensures |v| < |s| && s[|v| + 1..] == sep[1..] + rest
  {
  }

  lemma {:induction false} SeparatorStart(sep: string, rest: string)
    requires Separates(sep, rest)
    ensures sep != "" ==> (sep[0] == '\t' || sep[0] == ' ' || sep[0] == '=') && Separates(sep[1..], rest)
  {
  }

  lemma {:induction false} ValLone(v: string)
    requires Bare(v)
    ensures Val(v) == Value(v, "")
  {
    ValBare(v, "", "");
    assert v + ("" + "") == v;
  }

  lemma {:induction false} ValLoneQuoted(q: char, v: string)
    requires (q == '\'' || q == '"') && q !in v
    ensures Val(Quoted(q, v)) == Value(v, "")
  {
    ValQuoted(q, v, "", "");
    assert Quoted(q, v) + ("" + "") == Quoted(q, v);
  }

  /** A variable and its quoted value. */
  lemma {:induction false} ValAssigned(name: string, q: char, v: string)
    requires Bare(name) && name != "" && (q == '\'' || q == '"') && q !in v
    ensures Val(name + ("=" + Quoted(q, v))) == Value(name, Quoted(q, v))
  {
    ValBare(name, "=", Quoted(q, v));
  }

  // ---------------------------------------------------------------------------
  // Entries
  // ---------------------------------------------------------------------------

  /** The root device: none, by name, or by the identifier or label of its file system, searched in two ways. */
  datatype Device = Nowhere | Named(dev: string) | Uuid(id: string, hints: seq<Arg>) | FsUuid(id: string) | FsLabel(name: string)

  /** An entry; chain: it is booted by a chain loader.  A field that is empty is not written. */
  datatype Entry = Entry(
    title: string,
    quote: char,
    options: string,
    device: Device,
    linux16: bool,
    kernel: string,
    arguments: string,
    initrd16: bool,
    initrd: string,
    chain: bool
  )

  function DeviceRoot(d: Device): string {
    match d
    case Nowhere => ""
    case Named(dev) => dev
    case Uuid(id, _) => "UUID=" + id
    case FsUuid(id) => "UUID=" + id
    case FsLabel(l) => "LABEL=" + l
  }

  /** The target an entry describes. */
  function TargetOf(e: Entry, marked: bool): Target {
    Target(Cut255(e.title), marked, false, Cut255(DeviceRoot(e.device)), e.kernel, e.initrd, "",
           if e.kernel == "" then "" else e.arguments, [])
  }

  /** An entry gives a target unless it is booted by a chain loader, or lacks a root or a kernel. */
  function EntryTargets(e: Entry, marked: bool): seq<Target> {
    if e.chain || DeviceRoot(e.device) == "" || e.kernel == "" then [] else [TargetOf(e, marked)]
  }

  function DeviceLines(d: Device): seq<Directive> {
    match d
    case Nowhere => []
    case Named(dev) => [D("set", "root" + ("=" + Quoted('\'', dev)))]
    case Uuid(id, hints) => [D("search", PrintArgs(UuidArgs(hints, id)))]
    case FsUuid(id) => [D("search.fs_uuid", PrintArgs(TaggedArgs(id)))]
    case FsLabel(l) => [D("search.fs_label", PrintArgs(TaggedArgs(l)))]
  }

  function KernelLines(e: Entry): seq<Directive> {
    if e.kernel == "" then []
    else [D(if e.linux16 then "linux16" else "linux", if e.arguments == "" then e.kernel else e.kernel + (" " + e.arguments))]
  }

  function InitrdLines(e: Entry): seq<Directive> {
    if e.initrd == "" then [] else [D(if e.initrd16 then "initrd16" else "initrd", e.initrd)]
  }

  function ChainLines(e: Entry): seq<Directive> {
    if e.chain then [D("chainloader", "+1")] else []
  }

  function OpenLine(e: Entry): Directive {
    D("menuentry", Quoted(e.quote, e.title) + (" " + (e.options + "{")))
  }

  function EntryLines(e: Entry): seq<Directive> {
    [OpenLine(e)] + DeviceLines(e.device) + KernelLines(e) + InitrdLines(e) + ChainLines(e) + [D("}", "")]
  }

  ghost predicate DeviceFits(d: Device) {
    match d
    case Nowhere => true
    case Named(dev) => '\'' !in dev
    case Uuid(id, hints) => ArgsFit(UuidArgs(hints, id)) && Neutral(hints + [Arg(id, false)])
    case FsUuid(id) => ArgFits(Arg(id, false)) && Selects(id) == ByUnknown
    case FsLabel(l) => ArgFits(Arg(l, false)) && Selects(l) == ByUnknown
  }

  ghost predicate EntryFits(e: Entry) {
    (e.quote == '\'' || e.quote == '"') && e.quote !in e.title && DeviceFits(e.device) && Flush(e.options)
    && (e.options != "" ==> e.options[0] != '=')
    && Bare(e.kernel) && |e.kernel| <= 1023 && Separates("", e.arguments) && |e.arguments| <= 1023
    && Bare(e.initrd) && |e.initrd| <= 1023
  }

  /** Between entries: nothing is set in the target. */
  ghost predicate Between(g: Scan) {
    g.target == InitTarget && !g.entry && !g.stopped
  }

  predicate Marked(g: Scan, title: string) {
    g.cur == g.index || g.title == Some(title)
  }

  lemma {:induction false} RunOpen(g: Scan, e: Entry)
    requires Between(g) && EntryFits(e)
    ensures RunAll(Obey, g, [OpenLine(e)]) ==
      g.(target := InitTarget.(title := Cut255(e.title), isDefault := Marked(g, e.title)), entry := true, skip := false, cur := g.cur + 1)
  {
    hide Val, Quoted, DeviceFits, Bare;
    RunOne(Obey, g, OpenLine(e));
    ValQuoted(e.quote, e.title, " ", e.options + "{");
  }

  lemma {:induction false} RunDevice(g: Scan, d: Device)
    requires !g.stopped && DeviceFits(d) && g.target.root == ""
    ensures RunAll(Obey, g, DeviceLines(d)) == g.(target := g.target.(root := Cut255(DeviceRoot(d))))
  {
    hide Val, Quoted, PrintArgs, UuidArgs, TaggedArgs, ArgsFit, SearchRoot;
    RunOne(Obey, g, if d == Nowhere then D("", "") else DeviceLines(d)[0]);
    match d
    case Nowhere =>
    case Named(dev) =>
      ValAssigned("root", '\'', dev);
      ValLoneQuoted('\'', dev);
    case Uuid(id, hints) =>
      UuidSearch(hints, id);
    case FsUuid(id) =>
      TaggedSearch(id);
    case FsLabel(l) =>
      TaggedSearch(l);
  }

  lemma {:induction false} RunKernel(g: Scan, e: Entry)
    requires !g.stopped && EntryFits(e) && g.target.kernel == "" && g.target.append == ""
    ensures RunAll(Obey, g, KernelLines(e)) ==
            g.(target := g.target.(kernel := e.kernel, append := if e.kernel == "" then "" else e.arguments))
  {
    hide Val, DeviceFits, Bare;
    RunOne(Obey, g, if e.kernel == "" then D("", "") else KernelLines(e)[0]);
    if e.arguments == "" {
      ValLone(e.kernel);
    } else {
      ValBare(e.kernel, " ", e.arguments);
    }
  }

  lemma {:induction false} RunInitrd(g: Scan, e: Entry)
    requires !g.stopped && EntryFits(e) && g.target.initrd == ""
    ensures RunAll(Obey, g, InitrdLines(e)) == g.(target := g.target.(initrd := e.initrd))
  {
    hide Val, DeviceFits, Bare;
    RunOne(Obey, g, D(if e.initrd16 then "initrd16" else "initrd", e.initrd));
    ValLone(e.initrd);
  }

  lemma {:induction false} RunChain(g: Scan, e: Entry)
    requires !g.stopped && !g.skip
    ensures RunAll(Obey, g, ChainLines(e)) == g.(skip := e.chain)
  {
    RunOne(Obey, g, D("chainloader", "+1"));
  }

  lemma {:induction false} RunClose(g: Scan)
    requires !g.stopped && g.entry
    ensures RunAll(Obey, g, [D("}", "")]) == CloseEntry(g)
  {
    RunOne(Obey, g, D("}", ""));
  }

  /** One entry gives its target, with every field as written, in either spelling of the commands; or none. */
  lemma {:induction false} RunEntry(g: Scan, e: Entry)
    requires Between(g) && EntryFits(e)
    ensures RunAll(Obey, g, EntryLines(e)) ==
      g.(targets := g.targets + EntryTargets(e, Marked(g, e.title)), skip := e.chain, cur := g.cur + 1)
  {
    hide EntryFits, RunAll, OpenLine, DeviceLines, KernelLines, InitrdLines, ChainLines, DeviceRoot, Cut255;
    var marked := Marked(g, e.title);
    var g1 := g.(target := InitTarget.(title := Cut255(e.title), isDefault := marked), entry := true, skip := false, cur := g.cur + 1);
    var g2 := g1.(target := g1.target.(root := Cut255(DeviceRoot(e.device))));
    var g3 := g2.(target := g2.target.(kernel := e.kernel, append := if e.kernel == "" then "" else e.arguments));
    var g4 := g3.(target := g3.target.(initrd := e.initrd));
    var g5 := g4.(skip := e.chain);
    FitsDevice(e);
    RunOpen(g, e);
    RunDevice(g1, e.device);
    RunKernel(g2, e);
    RunInitrd(g3, e);
    RunChain(g4, e);
    RunClose(g5);
    CutEmpty(DeviceRoot(e.device));
    assert g5.target == TargetOf(e, marked);
    var a := [OpenLine(e)];
    var b := a + DeviceLines(e.device);
    var c := b + KernelLines(e);
    var d := c + InitrdLines(e);
    RunAllAppend(Obey, g, a, DeviceLines(e.device));
    RunAllAppend(Obey, g, b, KernelLines(e));
    RunAllAppend(Obey, g, c, InitrdLines(e));
    RunAllAppend(Obey, g, d, ChainLines(e));
    RunAllAppend(Obey, g, d + ChainLines(e), [D("}", "")]);
  }

  lemma {:induction false} CutEmpty(s: string)
    ensures Cut255(s) == "" <==> s == ""
  {
  }

  lemma {:induction false} FitsDevice(e: Entry)
    requires EntryFits(e)
    ensures DeviceFits(e.device)
  {
  }

  // ---------------------------------------------------------------------------
  // Other commands
  // ---------------------------------------------------------------------------

  /** A missing quote ends the reading, in whatever command it is. */
  lemma {:induction false} MissingQuote(g: Scan, name: string, q: char, v: string)
    requires !g.stopped && (q == '\'' || q == '"') && q !in v
    requires name in {"menuentry", "set", "linux", "linux16", "initrd", "initrd16"}
    ensures Obey(g, name, [q] + v) == g.(stopped := true)
    ensures Obey(g, "set", "root" + ("=" + ([q] + v))) == g.(stopped := true)
  {
    hide Val;
    ValUnclosed(q, v);
    ValBare("root", "=", [q] + v);
  }

  /** Nothing behind it is read: the targets are those of the commands in front of it. */
  lemma {:induction false} QuoteEndsFile(y: Layout, timeout: int, targets: seq<Target>, ds: seq<Directive>, name: string, q: char, v: string, rest: string)
    requires y.Valid() && AllPrintable(y, ds + [D(name, [q] + v)]) && (q == '\'' || q == '"') && q !in v
    requires name in {"menuentry", "set", "linux", "linux16", "initrd", "initrd16"}
    ensures var d := D(name, [q] + v);
            Load(timeout, targets, PrintLines(y, ds + [d]) + rest).targets == Load(timeout, targets, PrintLines(y, ds)).targets
  {
    hide AllPrintable, RunAll, RunText, Obey, PrintLines;
    var d, g := D(name, [q] + v), Fresh(-1, None, 0, timeout, targets);
    AllButLast(y, ds, d);
    PrintedText(y, ds, g);
    PrintedText(y, ds + [d], g);
    RunAllAppend(Obey, g, ds, [d]);
    var e := RunAll(Obey, g, ds);
    RunOne(Obey, e, d);
    StopsHere(e, name, q, v);
    PrintedEnds(y, ds + [d]);
    RunFront(g, PrintLines(y, ds + [d]), rest, 0);
    StoppedRun(Obey(e, name, [q] + v), rest, 0);
  }

  lemma {:induction false} StopsHere(e: Scan, name: string, q: char, v: string)
    requires (q == '\'' || q == '"') && q !in v && name in {"menuentry", "set", "linux", "linux16", "initrd", "initrd16"}
    ensures Obey(e, name, [q] + v) == e.(stopped := true)
  {
    hide Command;
    if !e.stopped {
      MissingQuote(e, name, q, v);
    }
  }

  lemma {:induction false} AllButLast(y: Layout, ds: seq<Directive>, d: Directive)
    requires AllPrintable(y, ds + [d])
    ensures AllPrintable(y, ds)
  {
    hide Printable;
    forall k | 0 <= k < |ds| ensures Printable(y, ds[k]) {
      assert (ds + [d])[k] == ds[k];
    }
  }

  lemma {:induction false} PrintedEnds(y: Layout, ds: seq<Directive>)
    requires y.Valid() && ds != []
    ensures EndsLine(PrintLines(y, ds))
    decreases |ds|
  {
    hide PrintBody;
    if |ds| > 1 {
      PrintedEnds(y, ds[1..]);
      PrintStep(y, ds);
      NonEmptyLines(y, ds[1..]);
    } else {
      PrintStep(y, ds);
      assert ds[1..] == [] && PrintLines(y, []) == "";
      var line := PrintLine(y, ds[0]);
      assert line[|line| - 1] == y.eol[|y.eol| - 1];
    }
  }

  lemma {:induction false} NonEmptyLines(y: Layout, ds: seq<Directive>)
    requires y.Valid() && ds != []
    ensures PrintLines(y, ds) != ""
  {
    hide PrintBody;
  }

  /** Comments, commands without a meaning, and a brace that closes no entry do nothing. */
  lemma {:induction false} NoEffect(g: Scan, name: string, args: string)
    requires name == "" || name[0] == '#' || (name == "}" && !g.entry)
             || name !in {"menuentry", "}", "chainloader", "set", "linux", "linux16", "initrd", "initrd16",
                          "search", "search.file", "search.fs_label", "search.fs_uuid"}
    ensures Obey(g, name, args) == g
  {
  }

  /** set timeout=N counts once; the value may be quoted. */
  function TimeoutLine(n: nat): Directive { D("set", "timeout" + ("=" + Quoted('"', Decimal(n)))) }

  lemma {:induction false} RunTimeout(g: Scan, n: nat)
    requires !g.stopped && n < 0x8000_0000
    ensures Obey(g, TimeoutLine(n).name, TimeoutLine(n).val) == if g.timeout == -1 then g.(timeout := n) else g
    ensures Obey(g, "set", "timeout" + ("=" + Decimal(n))) == if g.timeout == -1 then g.(timeout := n) else g
  {
    hide Val, Quoted, Decimal, Atoi;
    DecimalDigits(n);
    NoQuoteInDigits(Decimal(n));
    ValAssigned("timeout", '"', Decimal(n));
    ValLoneQuoted('"', Decimal(n));
    DigitsBare(Decimal(n));
    ValBare("timeout", "=", Decimal(n));
    ValLone(Decimal(n));
    AtoiOfDecimal(n);
  }

  lemma {:induction false} DigitsBare(s: string)
    requires AllDigits(s) && s != ""
    ensures Bare(s) && Separates("=", s)
  {
    assert IsDigit(s[0]);
    forall k | 0 <= k < |s| ensures s[k] != '\t' && s[k] != ' ' && s[k] != '=' {
      assert IsDigit(s[k]);
    }
  }

  /** A default in a submenu is no default, an empty one is the first entry, and other variables do nothing. */
  lemma {:induction false} RunOther(g: Scan, v: string, name: string)
    requires !g.stopped && '"' !in v && Bare(name) && name !in {"", "root", "default", "timeout"}
    ensures Obey(g, "set", "default" + ("=" + Quoted('"', ""))) == g.(index := 0, title := None)
    ensures '>' in v ==> Obey(g, "set", "default" + ("=" + Quoted('"', v))) == g.(index := -1, title := None)
    ensures Obey(g, "set", name + ("=" + Quoted('"', v))) == g
  {
    hide Val, Quoted, Atoi;
    ValAssigned("default", '"', v);
    ValAssigned(name, '"', v);
    ValLoneQuoted('"', v);
    ValAssigned("default", '"', "");
    ValLoneQuoted('"', "");
    EmptyNumber();
    if k :| 0 <= k < |v| && v[k] == '>' {
      assert !IsDigit(v[k]);
    }
  }

  lemma {:induction false} EmptyNumber()
    ensures Atoi("") == 0 && AllDigits("")
  {
  }

  /** Carriage returns in front of a line are skipped, and behind it, like NUL, they end it. */
  lemma {:induction false} LineCut(g: Scan, raw: string, junk: string)
    ensures LineStep(g, "\r" + raw) == LineStep(g, raw)
    ensures LineStep(g, raw + ([NUL] + junk)) == LineStep(g, raw)
  {
    hide Obey, Word, Rest;
    ReturnSkipped(raw);
    NulEnds(raw, junk);
  }

  lemma {:induction false} NulEnds(raw: string, junk: string)
    ensures Body(raw + ([NUL] + junk)) == Body(raw)
  {
    var s, n := raw + ([NUL] + junk), Cspn(raw, 0, |raw|, {NUL});
    assert forall x :: 0 <= x < |raw| ==> s[x] == raw[x];
    assert s[|raw|] == NUL;
    CspnIs(s, 0, |s|, {NUL}, n);
    assert s[..n] == raw[..n];
  }

  lemma {:induction false} NulBehindReturn(raw: string)
    ensures var s, n := "\r" + raw, Cspn(raw, 0, |raw|, {NUL}); s[..Cspn(s, 0, |s|, {NUL})] == "\r" + raw[..n]
  {
    var s, n := "\r" + raw, Cspn(raw, 0, |raw|, {NUL});
    forall x | 0 <= x < n + 1 ensures s[x] !in {NUL} {
      assert x > 0 ==> s[x] == raw[x - 1];
    }
    assert n < |raw| ==> s[n + 1] == raw[n];
    CspnIs(s, 0, |s|, {NUL}, n + 1);
    assert s[..n + 1] == "\r" + raw[..n];
  }

  lemma {:induction false} StartBehindReturn(b: string)
    ensures var a, k := "\r" + b, Spn(b, 0, |b|, LineStart); a[Spn(a, 0, |a|, LineStart)..] == b[k..]
  {
    var a, k := "\r" + b, Spn(b, 0, |b|, LineStart);
    forall x | 0 <= x < k + 1 ensures a[x] in LineStart {
      assert x > 0 ==> a[x] == b[x - 1];
    }
    assert k < |b| ==> a[k + 1] == b[k];
    assert Spn(a, 0, |a|, LineStart) == k + 1;
  }

  lemma {:induction false} ReturnSkipped(raw: string)
    ensures Body("\r" + raw) == Body(raw)
  {
    hide Cspn, Spn;
    NulBehindReturn(raw);
    StartBehindReturn(raw[..Cspn(raw, 0, |raw|, {NUL})]);
  }

  // ---------------------------------------------------------------------------
  // Whole files
  // ---------------------------------------------------------------------------

  function AllEntryLines(list: seq<Entry>): seq<Directive> {
    if list == [] then [] else AllEntryLines(list[..|list| - 1]) + EntryLines(list[|list| - 1])
  }

  /** The default entry: none, by its number from 0 on, or by its title. */
  datatype Default = NoDefault | Number(n: nat) | Titled(title: string)

  function DefaultLines(d: Default): seq<Directive> {
    match d
    case NoDefault => []
    case Number(n) => [D("set", "default" + ("=" + Quoted('"', Decimal(n))))]
    case Titled(t) => [D("set", "default" + ("=" + Quoted('"', t)))]
  }

  function TimeoutLines(n: Option<nat>): seq<Directive> {
    if n == None then [] else [TimeoutLine(n.value)]
  }

  /** The number is an int, the title one that can be quoted and is not taken for a number or a submenu. */
  predicate DefaultFits(d: Default) {
    match d
    case NoDefault => true
    case Number(n) => n < 0x8000_0000
    case Titled(t) => '"' !in t && '>' !in t && !AllDigits(t) && |t| <= 255
  }

  /** The default marks the entry with that number, or every entry with that title. */
  predicate IsDefault(d: Default, k: nat, title: string) {
    match d
    case NoDefault => false
    case Number(n) => k == n
    case Titled(t) => title == t
  }

  /** The targets of the entries, in order, with the default marked. */
  function TargetsOf(d: Default, list: seq<Entry>): seq<Target> {
    if list == [] then []
    else
      var n := |list| - 1;
      TargetsOf(d, list[..n]) + EntryTargets(list[n], IsDefault(d, n, list[n].title))
  }

  lemma {:induction false} RunEntries(g: Scan, d: Default, list: seq<Entry>)
    requires Between(g) && g.cur == 0 && forall k :: 0 <= k < |list| ==> EntryFits(list[k])
    requires forall k: nat, title :: IsDefault(d, k, title) <==> k == g.index || g.title == Some(title)
    ensures var e := RunAll(Obey, g, AllEntryLines(list));
            Between(e) && e.cur == |list| && e.index == g.index && e.title == g.title && e.timeout == g.timeout
            && e.targets == g.targets + TargetsOf(d, list)
    decreases |list|
  {
    hide EntryFits, EntryLines, EntryTargets, IsDefault;
    if list == [] {
      RunOne(Obey, g, D("", ""));
    } else {
      var n := |list| - 1;
      RunEntries(g, d, list[..n]);
      var e := RunAll(Obey, g, AllEntryLines(list[..n]));
      RunAllAppend(Obey, g, AllEntryLines(list[..n]), EntryLines(list[n]));
      RunEntry(e, list[n]);
      assert IsDefault(d, n, list[n].title) <==> Marked(e, list[n].title);
      hide RunAll, AllEntryLines;
      TargetsOfLast(d, list);
      AppendTwice(g.targets, TargetsOf(d, list[..n]), EntryTargets(list[n], IsDefault(d, n, list[n].title)));
    }
  }

  lemma {:induction false} TargetsOfLast(d: Default, list: seq<Entry>)
    requires list != []
    ensures var n := |list| - 1;
            TargetsOf(d, list) == TargetsOf(d, list[..n]) + EntryTargets(list[n], IsDefault(d, n, list[n].title))
  {
  }

  lemma {:induction false} AppendTwice(a: seq<Target>, b: seq<Target>, c: seq<Target>)
    ensures a + b + c == a + (b + c)
  {
  }

  lemma {:induction false} RunDefault(g: Scan, d: Default)
    requires DefaultFits(d) && !g.stopped && g.index == -1 && g.title == None
    ensures RunAll(Obey, g, DefaultLines(d)) == match d
      case NoDefault => g
      case Number(n) => g.(index := n)
      case Titled(t) => g.(title := Some(t))
  {
    hide Val, Quoted, Decimal, AllDigits, Atoi;
    match d
    case NoDefault =>
      RunOne(Obey, g, D("", ""));
    case Number(n) =>
      RunOne(Obey, g, DefaultLines(d)[0]);
      DecimalDigits(n);
      NoQuoteInDigits(Decimal(n));
      ValAssigned("default", '"', Decimal(n));
      ValLoneQuoted('"', Decimal(n));
      AtoiOfDecimal(n);
    case Titled(t) =>
      RunOne(Obey, g, DefaultLines(d)[0]);
      ValAssigned("default", '"', t);
      ValLoneQuoted('"', t);
  }

  lemma {:induction false} NoQuoteInDigits(s: string)
    requires AllDigits(s)
    ensures '"' !in s
  {
  }

  lemma {:induction false} RunTimeouts(g: Scan, n: Option<nat>)
    requires !g.stopped && (n.Some? ==> n.value < 0x8000_0000)
    ensures RunAll(Obey, g, TimeoutLines(n)) == if n.Some? && g.timeout == -1 then g.(timeout := n.value) else g
  {
    hide Obey, TimeoutLine;
    if n == None {
      RunOne(Obey, g, D("", ""));
    } else {
      RunOne(Obey, g, TimeoutLine(n.value));
      RunTimeout(g, n.value);
    }
  }

  /**
   * A file of entries, with a timeout and a default in front, loaded again: one target for each entry
   * that has one, in order, exactly the default marked, and the timeout taken unless there was one.
   */
  lemma {:induction false} RoundTrip(y: Layout, timeout: int, targets: seq<Target>, seconds: Option<nat>, d: Default, list: seq<Entry>)
    requires y.Valid() && AllPrintable(y, TimeoutLines(seconds) + DefaultLines(d) + AllEntryLines(list))
    requires (seconds.Some? ==> seconds.value < 0x8000_0000) && DefaultFits(d) && forall k :: 0 <= k < |list| ==> EntryFits(list[k])
    ensures var r := Load(timeout, targets, PrintLines(y, TimeoutLines(seconds) + DefaultLines(d) + AllEntryLines(list)));
            r.targets == targets + TargetsOf(d, list) && !r.stopped
            && r.timeout == if seconds.Some? && timeout == -1 then seconds.value else timeout
  {
    hide AllPrintable, RunAll, PrintLines, RunText, AllEntryLines, DefaultLines, TimeoutLines, EntryFits, TargetsOf;
    var ds := TimeoutLines(seconds) + DefaultLines(d) + AllEntryLines(list);
    var g := Fresh(-1, None, 0, timeout, targets);
    PrintedText(y, ds, g);
    RunAllAppend(Obey, g, TimeoutLines(seconds) + DefaultLines(d), AllEntryLines(list));
    RunAllAppend(Obey, g, TimeoutLines(seconds), DefaultLines(d));
    RunTimeouts(g, seconds);
    var g1 := RunAll(Obey, g, TimeoutLines(seconds));
    RunDefault(g1, d);
    RunEntries(RunAll(Obey, g1, DefaultLines(d)), d, list);
  }
}
