// load_grub2_cfg of src/grub.c: what a grub.cfg means line by line, and the loop that reads it.
module Grub2 {
  import opened CStrings
  import opened CBuffers
  import opened Lines
  import opened Numbers
  import opened Words
  import opened Targets
  import opened Layouts

  /**
   * The state between two lines: the target being filled in, whether an entry is open and whether
   * it is to be skipped, the default entry by number and by title, the number of the next entry,
   * the globals, and whether a missing quote has ended the reading.
   */
  datatype Scan = Scan(
    target: Target,
    entry: bool,
    skip: bool,
    index: int,
    title: Option<string>,
    cur: nat,
    timeout: int,
    targets: seq<Target>,
    stopped: bool
  )

  // ---------------------------------------------------------------------------
  // Values
  // ---------------------------------------------------------------------------

  const ValueEnd: set<char> := {'\t', ' ', '='}

  /** The C string in the buffer, from the first character that is neither blank nor line break, up to a line break. */
  ghost function Body(raw: string): string {
    var c := raw[..Cspn(raw, 0, |raw|, {NUL})];
    var b := c[Spn(c, 0, |c|, LineStart)..];
    b[..Cspn(b, 0, |b|, LineBreaks)]
  }

  datatype Value = Unclosed | Value(value: string, rest: string)

  predicate IsQuote(c: char) { c == '\'' || c == '"' }

  /** What follows a value that ended at index k: nothing, or the text behind that character and the blanks and '=' after it. */
  ghost function After(s: string, k: nat): string
    requires k <= |s|
  {
    if k == |s| then "" else s[Spn(s, k + 1, |s|, ValueEnd)..]
  }

  /** grub2_val: a quoted value up to the same quote, or a bare one up to a blank or '='. */
  ghost function Val(s: string): Value {
    if s != "" && IsQuote(s[0]) then
      var k := Cspn(s, 1, |s|, {s[0]});
      if k == |s| then Unclosed else Value(s[1..k], After(s, k))
    else
      var k := Cspn(s, 0, |s|, ValueEnd);
      Value(s[..k], After(s, k))
  }

  // ---------------------------------------------------------------------------
  // search
  // ---------------------------------------------------------------------------

  datatype By = ByUnknown | ByFile | ByLabel | ByUuid

  datatype Found = Found(how: By, setRoot: bool, last: nat)

  /** strncmp(word, lit, strlen(word)) == 0: an abbreviation counts as the option. */
  predicate Abbreviates(word: string, lit: string) {
    |word| <= |lit| && word == lit[..|word|]
  }

  const SetTo := "--set="

  ghost function WordEnd(s: string, i: nat): (n: nat)
    requires i < |s|
    ensures i <= n <= |s|
  {
    if Lies(s, i, SetTo) then i + 5 else Cspn(s, i, |s|, Blanks)
  }

  ghost function NextArg(s: string, i: nat): (n: nat)
    requires i < |s|
    ensures i < n <= |s|
  {
    if Lies(s, i, SetTo) then i + 6 else Spn(s, WordEnd(s, i), |s|, Blanks)
  }

  function Selects(word: string): By {
    if Abbreviates(word, "-f") || Abbreviates(word, "--file") then ByFile
    else if Abbreviates(word, "-l") || Abbreviates(word, "--label") then ByLabel
    else if Abbreviates(word, "-u") || Abbreviates(word, "--fs-uuid") then ByUuid
    else ByUnknown
  }

  /** The words of a search command from index i on; lset: --set has been seen and waits for its variable. */
  ghost function Search(s: string, i: nat, how: By, lset: bool, setRoot: bool): (f: Found)
    requires i <= |s|
    ensures i <= f.last <= |s|
    decreases |s| - i
  {
    if i == |s| then Found(how, setRoot, i) else
      var word, next := s[i..WordEnd(s, i)], NextArg(s, i);
      var sel := Selects(word);
      var isSet := sel == ByUnknown && Abbreviates(word, "--set");
      var hit := sel == ByUnknown && !isSet && lset && (next == |s| || Abbreviates(word, "root"));
      var how1 := if sel == ByUnknown then how else sel;
      if next == |s| then Found(how1, setRoot || hit, i)
      else Search(s, next, how1, isSet || (lset && !hit), setRoot || hit)
  }

  function NamedBy(name: string): By {
    if name == "search.file" then ByFile
    else if name == "search.fs_label" then ByLabel
    else if name == "search.fs_uuid" then ByUuid
    else ByUnknown
  }

  /** The root device a search command sets, if it sets one. */
  ghost function SearchRoot(name: string, args: string): Option<string> {
    var f := Search(args, 0, NamedBy(name), false, false);
    if f.setRoot && f.how == ByLabel then Some(Take("LABEL=" + args[f.last..], SHORT))
    else if f.setRoot && f.how == ByUuid then Some(Take("UUID=" + args[f.last..], SHORT))
    else None
  }

  // ---------------------------------------------------------------------------
  // The meaning of a line
  // ---------------------------------------------------------------------------

  ghost function Stop(g: Scan): Scan { g.(stopped := true) }

  /** An entry starts; the target keeps what lines in front of it have set. */
  ghost function MenuEntry(g: Scan, args: string): Scan {
    match Val(args)
    case Unclosed => Stop(g)
    case Value(title, _) =>
      var t := g.target.(title := Take(title, SHORT));
      g.(target := if g.cur == g.index || g.title == Some(title) then t.(isDefault := true, resetVga := false) else t,
         entry := true, skip := false, cur := g.cur + 1)
  }

  ghost function CloseEntry(g: Scan): Scan {
    g.(targets := g.targets + if !g.skip && g.target.Complete() then [g.target] else [],
       target := InitTarget, entry := false)
  }

  ghost function SetDefault(g: Scan, val: string): Scan {
    if AllDigits(val) then g.(index := Atoi(val), title := None)
    else if '>' in val then g.(index := -1, title := None)
    else g.(index := -1, title := Some(Take(val, SHORT)))
  }

  ghost function SetVariable(g: Scan, args: string): Scan {
    match Val(args)
    case Unclosed => Stop(g)
    case Value(name, rest) =>
      match Val(rest)
      case Unclosed => Stop(g)
      case Value(val, _) =>
        if name == "root" then g.(target := g.target.(root := Take(val, SHORT)))
        else if name == "default" then SetDefault(g, val)
        else if name == "timeout" && g.timeout == -1 then g.(timeout := Atoi(val))
        else g
  }

  ghost function Linux(g: Scan, args: string): Scan {
    match Val(args)
    case Unclosed => Stop(g)
    case Value(kernel, rest) => g.(target := g.target.(kernel := Take(kernel, LONG), append := Take(rest, LONG)))
  }

  ghost function Initrd(g: Scan, args: string): Scan {
    match Val(args)
    case Unclosed => Stop(g)
    case Value(initrd, _) => g.(target := g.target.(initrd := Take(initrd, LONG)))
  }

  ghost function SearchLine(g: Scan, name: string, args: string): Scan {
    match SearchRoot(name, args)
    case None => g
    case Some(root) => g.(target := g.target.(root := root))
  }

  ghost function Command(g: Scan, name: string, args: string): Scan {
    if name == "menuentry" then MenuEntry(g, args)
    else if name == "}" then (if g.entry then CloseEntry(g) else g)
    else if name == "chainloader" then g.(skip := true)
    else if name == "set" then SetVariable(g, args)
    else if name == "linux" || name == "linux16" then Linux(g, args)
    else if name == "initrd" || name == "initrd16" then Initrd(g, args)
    else if name in {"search", "search.file", "search.fs_label", "search.fs_uuid"} then SearchLine(g, name, args)
    else g
  }

  ghost function Obey(g: Scan, name: string, args: string): Scan {
    if g.stopped || Ignored(name) then g else Command(g, name, args)
  }

  ghost function LineStep(g: Scan, raw: string): Scan {
    Obey(g, Word(Body(raw)), Rest(Body(raw)))
  }

  /** The lines from index i of the text on. */
  ghost function RunText(g: Scan, text: string, i: nat): Scan
    requires i <= |text|
  {
    RunLines(LineStep, g, text, i)
  }

  /** The state at the start of a file, or behind an entry: only the defaults, the count and the timeout are carried over. */
  ghost function Fresh(index: int, title: Option<string>, cur: nat, timeout: int, targets: seq<Target>): Scan {
    Scan(InitTarget, false, false, index, title, cur, timeout, targets, false)
  }

  ghost function Load(timeout: int, targets: seq<Target>, text: string): Scan {
    RunText(Fresh(-1, None, 0, timeout, targets), text, 0)
  }

  lemma {:induction false} RunStep(g: Scan, text: string, i: nat)
    requires i < |text|
    ensures RunText(g, text, i) == RunText(LineStep(g, text[i..LineEnd(text, i)]), text, LineEnd(text, i))
  {
    hide LineStep;
  }

  lemma {:induction false} RunEnd(g: Scan, text: string)
    ensures RunText(g, text, |text|) == g
  {
  }

  // ---------------------------------------------------------------------------
  // Every file: only complete targets are added, behind the ones there
  // ---------------------------------------------------------------------------

  lemma {:induction false} CommandAdds(g: Scan, name: string, args: string)
    ensures Adds(g.targets, Command(g, name, args).targets)
  {
    hide Val, Take, SearchRoot, SetDefault;
    DefaultKeeps(g);
  }

  lemma {:induction false} DefaultKeeps(g: Scan)
    ensures forall val :: SetDefault(g, val).targets == g.targets
  {
  }

  lemma {:induction false} RunAdds(g: Scan, text: string, i: nat)
    requires i <= |text|
    ensures Adds(g.targets, RunText(g, text, i).targets)
    decreases |text| - i
  {
    hide Command, Adds, RunText;
    if i == |text| {
      RunEnd(g, text);
      AddsSelf(g.targets);
    } else {
      var raw := text[i..LineEnd(text, i)];
      RunStep(g, text, i);
      AddsSelf(g.targets);
      CommandAdds(g, Word(Body(raw)), Rest(Body(raw)));
      RunAdds(LineStep(g, raw), text, LineEnd(text, i));
      AddsTrans(g.targets, LineStep(g, raw).targets, RunText(g, text, i).targets);
    }
  }

  // ---------------------------------------------------------------------------
  // Running text behind text
  // ---------------------------------------------------------------------------

  predicate EndsLine(s: string) { s == "" || s[|s| - 1] == '\n' }

  lemma {:induction false} LineEndFront(a: string, b: string, i: nat)
    requires i < |a| && EndsLine(a)
    ensures LineEnd(a + b, i) == LineEnd(a, i)
  {
    var t := a + b;
    var la := if i + LINE_SIZE - 1 <= |a| then i + LINE_SIZE - 1 else |a|;
    var lt := if i + LINE_SIZE - 1 <= |t| then i + LINE_SIZE - 1 else |t|;
    var n := Cspn(a, i, la, {'\n'});
    assert forall x :: i <= x < n ==> t[x] == a[x];
    if la < lt {
      assert a[la - 1] == '\n';
    }
    CspnIs(t, i, lt, {'\n'}, n);
  }

  lemma {:induction false} LineEndBehind(a: string, b: string, j: nat)
    requires j < |b|
    ensures LineEnd(a + b, |a| + j) == |a| + LineEnd(b, j)
  {
    var t := a + b;
    var lb := if j + LINE_SIZE - 1 <= |b| then j + LINE_SIZE - 1 else |b|;
    var n := Cspn(b, j, lb, {'\n'});
    forall x | |a| + j <= x < |a| + n ensures t[x] !in {'\n'} {
      assert t[x] == b[x - |a|];
    }
    assert n < lb ==> t[|a| + n] == b[n];
    CspnIs(t, |a| + j, |a| + lb, {'\n'}, |a| + n);
  }

  lemma {:induction false} RunBehind(g: Scan, a: string, b: string, j: nat)
    requires j <= |b|
    ensures RunText(g, a + b, |a| + j) == RunText(g, b, j)
    decreases |b| - j
  {
    hide LineStep, RunText, LineEnd;
    if j == |b| {
      RunEnd(g, b);
      RunEnd(g, a + b);
    } else {
      LineEndBehind(a, b, j);
      RunStep(g, b, j);
      RunStep(g, a + b, |a| + j);
      assert (a + b)[|a| + j..|a| + LineEnd(b, j)] == b[j..LineEnd(b, j)];
      RunBehind(LineStep(g, b[j..LineEnd(b, j)]), a, b, LineEnd(b, j));
    }
  }

  /** Text behind text that ends its last line is read from the state the first one left. */
  lemma {:induction false} RunFront(g: Scan, a: string, b: string, i: nat)
    requires i <= |a| && EndsLine(a)
    ensures RunText(g, a + b, i) == RunText(RunText(g, a, i), b, 0)
    decreases |a| - i
  {
    hide LineStep, RunText, LineEnd, EndsLine;
    if i == |a| {
      RunEnd(g, a);
      RunBehind(g, a, b, 0);
    } else {
      LineEndFront(a, b, i);
      RunStep(g, a, i);
      RunStep(g, a + b, i);
      assert (a + b)[i..LineEnd(a, i)] == a[i..LineEnd(a, i)];
      RunFront(LineStep(g, a[i..LineEnd(a, i)]), a, b, LineEnd(a, i));
    }
  }

  // ---------------------------------------------------------------------------
  // Blocks do not influence each other
  // ---------------------------------------------------------------------------

  /** h is g with more targets in front; skip counts only while an entry is open. */
  ghost predicate Alike(g: Scan, h: Scan, before: seq<Target>) {
    h == g.(skip := h.skip, targets := before + g.targets) && (g.entry ==> g.skip == h.skip)
  }

  lemma {:induction false} CloseAlike(g: Scan, h: Scan, before: seq<Target>)
    requires Alike(g, h, before) && g.entry
    ensures Alike(CloseEntry(g), CloseEntry(h), before)
  {
    var more := if !g.skip && g.target.Complete() then [g.target] else [];
    assert before + g.targets + more == before + (g.targets + more);
  }

  lemma {:induction false} MenuEntryAlike(g: Scan, h: Scan, before: seq<Target>, args: string)
    requires Alike(g, h, before)
    ensures Alike(MenuEntry(g, args), MenuEntry(h, args), before)
  {
    hide Val, Take;
  }

  lemma {:induction false} SetVariableAlike(g: Scan, h: Scan, before: seq<Target>, args: string)
    requires Alike(g, h, before)
    ensures Alike(SetVariable(g, args), SetVariable(h, args), before)
  {
    hide Val, Take, SetDefault;
    var rest := match Val(args) case Unclosed => Unclosed case Value(_, rest) => Val(rest);
    if rest.Value? {
      DefaultAlike(g, h, before, rest.value);
    }
  }

  lemma {:induction false} LinuxAlike(g: Scan, h: Scan, before: seq<Target>, args: string)
    requires Alike(g, h, before)
    ensures Alike(Linux(g, args), Linux(h, args), before)
  {
    hide Val, Take;
  }

  lemma {:induction false} InitrdAlike(g: Scan, h: Scan, before: seq<Target>, args: string)
    requires Alike(g, h, before)
    ensures Alike(Initrd(g, args), Initrd(h, args), before)
  {
    hide Val, Take;
  }

  lemma {:induction false} DefaultAlike(g: Scan, h: Scan, before: seq<Target>, val: string)
    requires Alike(g, h, before)
    ensures Alike(SetDefault(g, val), SetDefault(h, val), before)
  {
    hide Atoi, Take, AllDigits;
  }

  lemma {:induction false} CommandAlike(g: Scan, h: Scan, before: seq<Target>, name: string, args: string)
    requires Alike(g, h, before)
    ensures Alike(Command(g, name, args), Command(h, name, args), before)
  {
    hide MenuEntry, CloseEntry, SetVariable, Linux, Initrd, SearchRoot;
    if g.entry {
      CloseAlike(g, h, before);
    }
    MenuEntryAlike(g, h, before, args);
    SetVariableAlike(g, h, before, args);
    LinuxAlike(g, h, before, args);
    InitrdAlike(g, h, before, args);
  }

  lemma {:induction false} RunAlike(g: Scan, h: Scan, before: seq<Target>, text: string, i: nat)
    requires i <= |text| && Alike(g, h, before)
    ensures Alike(RunText(g, text, i), RunText(h, text, i), before)
    decreases |text| - i
  {
    hide Command, RunText;
    if i == |text| {
      RunEnd(g, text);
      RunEnd(h, text);
    } else {
      var raw := text[i..LineEnd(text, i)];
      RunStep(g, text, i);
      RunStep(h, text, i);
      CommandAlike(g, h, before, Word(Body(raw)), Rest(Body(raw)));
      RunAlike(LineStep(g, raw), LineStep(h, raw), before, text, LineEnd(text, i));
    }
  }

  /** A line whose first word is the brace. */
  ghost predicate Brace(line: string) {
    |line| < LINE_SIZE && line != "" && Cspn(line, 0, |line|, {'\n'}) == |line| - 1 && Word(Body(line)) == "}"
  }

  lemma {:induction false} OneRead(line: string)
    requires line != "" && |line| < LINE_SIZE && Cspn(line, 0, |line|, {'\n'}) == |line| - 1
    ensures LineEnd(line, 0) == |line| && EndsLine(line)
  {
  }

  lemma {:induction false} BraceCloses(g: Scan, line: string)
    requires Brace(line) && g.entry && !g.stopped
    ensures RunText(g, line, 0) == CloseEntry(g)
  {
    hide RunText, Body, Word, CloseEntry;
    OneRead(line);
    RunStep(g, line, 0);
    assert line[0..|line|] == line;
    RunEnd(CloseEntry(g), line);
  }

  /**
   * A file that consists of text closing an entry with its last line, and of more text behind it:
   * the targets are those of the first part, then those the second part gives from a fresh target,
   * with only the default, the entry number and the timeout carried over.
   */
  lemma {:induction false} Compose(timeout: int, targets: seq<Target>, a: string, brace: string, b: string)
    requires EndsLine(a) && Brace(brace)
    requires var g := Load(timeout, targets, a); g.entry && !g.stopped
    ensures var e := Load(timeout, targets, a + brace);
            var f := RunText(Fresh(e.index, e.title, e.cur, e.timeout, []), b, 0);
            var whole := Load(timeout, targets, a + brace + b);
            whole.targets == e.targets + f.targets && whole.timeout == f.timeout && whole.stopped == f.stopped
            && !e.entry && !e.stopped && e.target == InitTarget
  {
    hide RunText, Brace, EndsLine;
    var start := Fresh(-1, None, 0, timeout, targets);
    var g := RunText(start, a, 0);
    RunFront(start, a, brace, 0);
    BraceCloses(g, brace);
    var e := CloseEntry(g);
    BraceEnds(a, brace);
    RunFront(start, a + brace, b, 0);
    var f := Fresh(e.index, e.title, e.cur, e.timeout, []);
    assert e.targets + [] == e.targets;
    RunAlike(f, e, e.targets, b, 0);
  }

  lemma {:induction false} BraceEnds(a: string, brace: string)
    requires Brace(brace)
    ensures EndsLine(a + brace)
  {
  }

  // ---------------------------------------------------------------------------
  // What is carried over decides only which targets are marked default
  // ---------------------------------------------------------------------------

  function Plain(t: Target): Target { t.(isDefault := false) }

  function AllPlain(ts: seq<Target>): seq<Target> {
    seq(|ts|, i requires 0 <= i < |ts| => Plain(ts[i]))
  }

  /** The two differ only in defaults, entry numbers and timeouts. */
  ghost predicate SamePlain(g: Scan, h: Scan) {
    Plain(g.target) == Plain(h.target) && g.entry == h.entry && g.skip == h.skip && g.stopped == h.stopped
    && AllPlain(g.targets) == AllPlain(h.targets) && !g.target.resetVga
  }

  lemma {:induction false} AllPlainSnoc(ts: seq<Target>, t: Target)
    ensures AllPlain(ts + [t]) == AllPlain(ts) + [Plain(t)]
  {
  }

  lemma {:induction false} ClosePlain(g: Scan, h: Scan)
    requires SamePlain(g, h) && g.entry
    ensures SamePlain(CloseEntry(g), CloseEntry(h))
  {
    hide AllPlain;
    AllPlainSnoc(g.targets, g.target);
    AllPlainSnoc(h.targets, h.target);
    assert g.targets + [] == g.targets && h.targets + [] == h.targets;
  }

  lemma {:induction false} MenuEntryPlain(g: Scan, h: Scan, args: string)
    requires SamePlain(g, h)
    ensures SamePlain(MenuEntry(g, args), MenuEntry(h, args))
  {
    hide Val, Take, AllPlain;
  }

  lemma {:induction false} SetVariablePlain(g: Scan, h: Scan, args: string)
    requires SamePlain(g, h)
    ensures SamePlain(SetVariable(g, args), SetVariable(h, args))
  {
    hide Val, Take, SetDefault, SamePlain, Atoi;
    match Val(args)
    case Unclosed => StopPlain(g, h);
    case Value(name, rest) =>
      match Val(rest)
      case Unclosed => StopPlain(g, h);
      case Value(val, _) =>
        if name == "root" {
          RootPlain(g, h, Take(val, SHORT));
        } else if name == "default" {
          DefaultPlain(g, h, val);
        } else {
          CarriedPlain(g, h, SetVariable(g, args), SetVariable(h, args));
        }
  }

  lemma {:induction false} StopPlain(g: Scan, h: Scan)
    requires SamePlain(g, h)
    ensures SamePlain(Stop(g), Stop(h))
  {
    hide AllPlain;
  }

  lemma {:induction false} RootPlain(g: Scan, h: Scan, root: string)
    requires SamePlain(g, h)
    ensures SamePlain(g.(target := g.target.(root := root)), h.(target := h.target.(root := root)))
  {
    hide AllPlain;
  }

  /** Defaults and timeouts do not count. */
  lemma {:induction false} CarriedPlain(g: Scan, h: Scan, g1: Scan, h1: Scan)
    requires SamePlain(g, h)
    requires g1 == g.(index := g1.index, title := g1.title, timeout := g1.timeout)
    requires h1 == h.(index := h1.index, title := h1.title, timeout := h1.timeout)
    ensures SamePlain(g1, h1)
  {
    hide AllPlain;
  }

  lemma {:induction false} LinuxPlain(g: Scan, h: Scan, args: string)
    requires SamePlain(g, h)
    ensures SamePlain(Linux(g, args), Linux(h, args))
  {
    hide Val, Take, AllPlain;
  }

  lemma {:induction false} InitrdPlain(g: Scan, h: Scan, args: string)
    requires SamePlain(g, h)
    ensures SamePlain(Initrd(g, args), Initrd(h, args))
  {
    hide Val, Take, AllPlain;
  }

  lemma {:induction false} DefaultPlain(g: Scan, h: Scan, val: string)
    requires SamePlain(g, h)
    ensures SamePlain(SetDefault(g, val), SetDefault(h, val))
  {
    hide Atoi, Take, AllDigits, SamePlain;
    CarriedPlain(g, h, SetDefault(g, val), SetDefault(h, val));
  }

  lemma {:induction false} CommandPlain(g: Scan, h: Scan, name: string, args: string)
    requires SamePlain(g, h)
    ensures SamePlain(Command(g, name, args), Command(h, name, args))
  {
    hide MenuEntry, CloseEntry, SetVariable, Linux, Initrd, SearchRoot, SamePlain;
    SameEntry(g, h);
    if g.entry {
      ClosePlain(g, h);
    }
    MenuEntryPlain(g, h, args);
    SetVariablePlain(g, h, args);
    LinuxPlain(g, h, args);
    InitrdPlain(g, h, args);
    SkipPlain(g, h);
    var found := SearchRoot(name, args);
    if found.Some? {
      RootPlain(g, h, found.value);
    }
  }

  lemma {:induction false} SkipPlain(g: Scan, h: Scan)
    requires SamePlain(g, h)
    ensures SamePlain(g.(skip := true), h.(skip := true))
  {
    hide AllPlain;
  }

  lemma {:induction false} SameEntry(g: Scan, h: Scan)
    requires SamePlain(g, h)
    ensures g.entry == h.entry
  {
  }

  lemma {:induction false} RunPlain(g: Scan, h: Scan, text: string, i: nat)
    requires i <= |text| && SamePlain(g, h)
    ensures SamePlain(RunText(g, text, i), RunText(h, text, i))
    decreases |text| - i
  {
    hide Command, RunText, SamePlain;
    SameStopped(g, h);
    if i == |text| {
      RunEnd(g, text);
      RunEnd(h, text);
    } else {
      var raw := text[i..LineEnd(text, i)];
      RunStep(g, text, i);
      RunStep(h, text, i);
      CommandPlain(g, h, Word(Body(raw)), Rest(Body(raw)));
      RunPlain(LineStep(g, raw), LineStep(h, raw), text, LineEnd(text, i));
    }
  }

  lemma {:induction false} SameStopped(g: Scan, h: Scan)
    requires SamePlain(g, h)
    ensures g.stopped == h.stopped
  {
  }

  /** Nothing leaks from a closed entry: behind it the text gives the targets it gives alone, but for the default mark. */
  lemma {:induction false} NoLeak(timeout: int, targets: seq<Target>, a: string, brace: string, b: string)
    requires EndsLine(a) && Brace(brace)
    requires var g := Load(timeout, targets, a); g.entry && !g.stopped
    ensures var e := Load(timeout, targets, a + brace);
            AllPlain(Load(timeout, targets, a + brace + b).targets) == AllPlain(e.targets) + AllPlain(Load(timeout, [], b).targets)
  {
    hide RunText, Brace, EndsLine;
    Compose(timeout, targets, a, brace, b);
    var e := Load(timeout, targets, a + brace);
    var f := Fresh(e.index, e.title, e.cur, e.timeout, []);
    RunPlain(f, Fresh(-1, None, 0, timeout, []), b, 0);
    var fb := RunText(f, b, 0);
    assert AllPlain(e.targets + fb.targets) == AllPlain(e.targets) + AllPlain(fb.targets);
  }

  // ---------------------------------------------------------------------------
  // The loop
  // ---------------------------------------------------------------------------

  /** l_start = buf + strspn(buf, "\r\n\t "), and the line break behind it cut off. */
  method CutLine(buf: array<char>, ghost raw: string) returns (p: nat)
    requires |raw| < buf.Length && buf[|raw|] == NUL && forall k :: 0 <= k < |raw| ==> buf[k] == raw[k]
    modifies buf
    ensures HoldsAt(buf, p, Body(raw))
  {
    ghost var c := raw[..Cspn(raw, 0, |raw|, {NUL})];
    assert HoldsAt(buf, 0, c);
    p := SpnAt(buf, 0, 0, LineStart, c);
    HoldsTail(buf, 0, c, p);
    var n := CspnAt(buf, p, LineBreaks, c[p..]);
    assert n < |c| - p ==> buf[p + n] == c[p..][n];
    buf[p + n] := NUL;
  }

  /** grub2_val: the value is terminated in place; next is where the rest starts. */
  method Grub2Val(buf: array<char>, p: nat, ghost s: string) returns (ok: bool, cur: nat, next: nat)
    requires HoldsAt(buf, p, s)
    modifies buf
    ensures ok <==> Val(s).Value?
    ensures ok ==> HoldsAt(buf, cur, Val(s).value) && HoldsAt(buf, next, Val(s).rest)
  {
    hide Cspn, Spn;
    ok, cur, next := true, p, p;
    var n: nat;
    if IsQuote(buf[p]) {
      n := FindQuote(buf, p, s);
      if buf[p + n] == NUL {
        return false, p, p;
      }
      cur := p + 1;
    } else {
      n := CspnAt(buf, p, ValueEnd, s);
    }
    next := p + n;
    if buf[next] != NUL {
      var m := SpnAt(buf, p, n + 1, ValueEnd, s);
      HoldsTail(buf, p, s, m);
      CutValue(buf, p, n, m, cur - p, s);
      next := p + m;
    }
  }

  /** strchr(p + 1, *p), or the terminator */
  method FindQuote(buf: array<char>, p: nat, ghost s: string) returns (n: nat)
    requires HoldsAt(buf, p, s) && s != "" && s[0] != NUL
    ensures n == Cspn(s, 1, |s|, {s[0]})
  {
    n := 1;
    while buf[p + n] != NUL && buf[p + n] != buf[p]
      invariant 1 <= n <= |s| && forall x :: 1 <= x < n ==> s[x] !in {s[0]}
      decreases |s| - n
    {
      assert buf[p + n] == s[n] && buf[p + 0] == s[0];
      n := n + 1;
    }
    assert n < |s| ==> buf[p + n] == s[n];
    assert buf[p + 0] == s[0];
    CspnIs(s, 1, |s|, {s[0]}, n);
  }

  /** A terminator at character n leaves the characters from number lo on in front of it, and those from m on behind it. */
  method CutValue(buf: array<char>, p: nat, n: nat, m: nat, lo: nat, ghost s: string)
    requires HoldsAt(buf, p, s) && lo <= n < m <= |s| && HoldsAt(buf, p + m, s[m..])
    modifies buf
    ensures HoldsAt(buf, p + lo, s[lo..n]) && HoldsAt(buf, p + m, s[m..])
  {
    HoldsTail(buf, p, s, lo);
    buf[p + n] := NUL;
  }

  /** The search loop. */
  method SearchArgs(args: string, name: string) returns (f: Found)
    ensures f == Search(args, 0, NamedBy(name), false, false)
  {
    hide Selects, Abbreviates, NamedBy, Cspn, Spn;
    var how, lset, setRoot, i := NamedBy(name), false, false, 0;
    while i < |args|
      invariant i <= |args| && Search(args, i, how, lset, setRoot) == Search(args, 0, NamedBy(name), false, false)
      decreases |args| - i
    {
      var n := StrCspn(args, i, |args|, Blanks);
      var next;
      if Lies(args, i, SetTo) {
        n := i + 5;
        next := i + 6;
      } else {
        next := StrSpn(args, n, |args|, Blanks);
      }
      assert n == WordEnd(args, i) && next == NextArg(args, i);
      var isLast := next == |args|;
      var word := args[i..n];
      if Selects(word) != ByUnknown {
        how := Selects(word);
      } else if Abbreviates(word, "--set") {
        lset := true;
      } else if lset && (isLast || Abbreviates(word, "root")) {
        setRoot := true;
        lset := false;
      }
      if isLast {
        return Found(how, setRoot, i);
      }
      i := next;
    }
    f := Found(how, setRoot, i);
  }

  class Loader {
    var targets: seq<Target>
    var timeout: int
    var target: Target
    /** The line of the menuentry that is open, or 0. */
    var entryStart: nat
    var skipEntry: bool
    var defaultIndex: int
    var defaultTitle: Option<string>
    var curIndex: nat
    /** Set when a missing quote ends the reading. */
    ghost var stopped: bool

    ghost function State(): Scan
      reads this
    {
      Scan(target, entryStart != 0, skipEntry, defaultIndex, defaultTitle, curIndex, timeout, targets, stopped)
    }

    constructor (timeout: int, targets: seq<Target>)
      ensures State() == Fresh(-1, None, 0, timeout, targets)
    {
      this.timeout, this.targets := timeout, targets;
      target, entryStart, skipEntry := InitTarget, 0, false;
      defaultIndex, defaultTitle, curIndex := -1, None, 0;
      stopped := false;
    }

    method OpenEntry(buf: array<char>, p: nat, lnum: nat, ghost args: string) returns (ok: bool)
      requires HoldsAt(buf, p, args) && lnum > 0 && !stopped
      modifies this, buf
      ensures State() == MenuEntry(old(State()), args) && ok == !stopped
    {
      hide HoldsAt, Val, Take;
      var cur, next;
      ok, cur, next := Grub2Val(buf, p, args);
      if !ok {
        stopped := true;
        return;
      }
      var title := ReadAt(buf, cur, Val(args).value);
      target := target.(title := Take(title, SHORT));
      if curIndex == defaultIndex || defaultTitle == Some(title) {
        target := target.(isDefault := true, resetVga := false);
      }
      curIndex := curIndex + 1;
      entryStart := lnum;
      skipEntry := false;
    }

    method EndEntry()
      requires entryStart != 0
      modifies this
      ensures State() == CloseEntry(old(State())) && stopped == old(stopped)
    {
      if !skipEntry && target.root != "" && target.kernel != "" {
        targets := targets + [target];
      }
      target := InitTarget;
      entryStart := 0;
    }

    method Set(buf: array<char>, p: nat, ghost args: string) returns (ok: bool)
      requires HoldsAt(buf, p, args) && !stopped
      modifies this, buf
      ensures State() == SetVariable(old(State()), args) && ok == !stopped
    {
      hide HoldsAt, Val, Take, Atoi;
      var cur, next, next2;
      ok, cur, next := Grub2Val(buf, p, args);
      if !ok {
        stopped := true;
        return;
      }
      var name := ReadAt(buf, cur, Val(args).value);
      ok, cur, next2 := Grub2Val(buf, next, Val(args).rest);
      if !ok {
        stopped := true;
        return;
      }
      var val := ReadAt(buf, cur, Val(Val(args).rest).value);
      if name == "root" {
        target := target.(root := Take(val, SHORT));
      } else if name == "default" {
        defaultTitle := None;
        if AllDigits(val) {
          defaultIndex := Atoi(val);
        } else {
          defaultIndex := -1;
          if '>' !in val {
            defaultTitle := Some(Take(val, SHORT));
          }
        }
      } else if name == "timeout" && timeout == -1 {
        timeout := Atoi(val);
      }
    }

    method SetKernel(buf: array<char>, p: nat, ghost args: string) returns (ok: bool)
      requires HoldsAt(buf, p, args) && !stopped
      modifies this, buf
      ensures State() == Linux(old(State()), args) && ok == !stopped
    {
      hide HoldsAt, Val, Take;
      var cur, next;
      ok, cur, next := Grub2Val(buf, p, args);
      if !ok {
        stopped := true;
        return;
      }
      var kernel := ReadAt(buf, cur, Val(args).value);
      var rest := ReadAt(buf, next, Val(args).rest);
      target := target.(kernel := Take(kernel, LONG), append := Take(rest, LONG));
    }

    method SetInitrd(buf: array<char>, p: nat, ghost args: string) returns (ok: bool)
      requires HoldsAt(buf, p, args) && !stopped
      modifies this, buf
      ensures State() == Initrd(old(State()), args) && ok == !stopped
    {
      hide HoldsAt, Val, Take;
      var cur, next;
      ok, cur, next := Grub2Val(buf, p, args);
      if !ok {
        stopped := true;
        return;
      }
      var initrd := ReadAt(buf, cur, Val(args).value);
      target := target.(initrd := Take(initrd, LONG));
    }

    method SearchDevice(buf: array<char>, p: nat, name: string, ghost text: string)
      requires HoldsAt(buf, p, text)
      modifies this
      ensures State() == SearchLine(old(State()), name, text) && stopped == old(stopped)
    {
      hide HoldsAt, Search, Take;
      var args := ReadAt(buf, p, text);
      var f := SearchArgs(args, name);
      if f.setRoot {
        if f.how == ByLabel {
          target := target.(root := Take("LABEL=" + args[f.last..], SHORT));
        } else if f.how == ByUuid {
          target := target.(root := Take("UUID=" + args[f.last..], SHORT));
        }
      }
    }

    /** The body of the loop, for the line just read; ok is false when the reading ends here. */
    method ReadLine(buf: array<char>, lnum: nat, ghost raw: string) returns (ok: bool)
      requires buf.Length == LINE_SIZE && |raw| < LINE_SIZE && lnum > 0 && !stopped
      requires buf[|raw|] == NUL && forall k :: 0 <= k < |raw| ==> buf[k] == raw[k]
      modifies this, buf
      ensures State() == LineStep(old(State()), raw) && ok == !stopped
    {
      hide Body, Word, Rest, HoldsAt, MenuEntry, CloseEntry, SetVariable, Linux, Initrd, SearchLine;
      var p := CutLine(buf, raw);
      ghost var body := Body(raw);
      var q := NextValue(buf, p, body);
      var cmd := ReadAt(buf, p, Word(body));
      ghost var args := Rest(body);
      ok := true;
      if Ignored(cmd) {
        return;
      }
      if cmd == "menuentry" {
        ok := OpenEntry(buf, q, lnum, args);
      } else if cmd == "}" && entryStart != 0 {
        EndEntry();
      } else if cmd == "chainloader" {
        skipEntry := true;
      } else if cmd == "set" {
        ok := Set(buf, q, args);
      } else if cmd == "linux" || cmd == "linux16" {
        ok := SetKernel(buf, q, args);
      } else if cmd == "initrd" || cmd == "initrd16" {
        ok := SetInitrd(buf, q, args);
      } else if cmd == "search" || cmd == "search.file" || cmd == "search.fs_label" || cmd == "search.fs_uuid" {
        SearchDevice(buf, q, cmd, args);
      }
    }

    /** The whole of load_grub2_cfg on a file that can be read. */
    method LoadGrub2Cfg(text: string)
      requires State() == Fresh(-1, None, 0, timeout, targets)
      modifies this
      ensures State() == Load(old(timeout), old(targets), text)
    {
      hide LineStep, RunText;
      var buf := new char[LINE_SIZE];
      var i, lnum := 0, 0;
      ghost var start := State();
      while i < |text|
        invariant 0 <= i <= |text| && fresh(buf) && !stopped
        invariant RunText(start, text, 0) == RunText(State(), text, i)
        decreases |text| - i
      {
        var raw, next := FGets(text, i);
        CopyIn(buf, 0, raw, |raw|);
        buf[|raw|] := NUL;
        lnum := lnum + 1;
        RunStep(State(), text, i);
        var ok := ReadLine(buf, lnum, raw);
        if !ok {
          StoppedRun(State(), text, next);
          return;
        }
        i := next;
      }
      RunEnd(State(), text);
    }
  }

  lemma {:induction false} StoppedRun(g: Scan, text: string, i: nat)
    requires g.stopped && i <= |text|
    ensures RunText(g, text, i) == g
    decreases |text| - i
  {
    hide Command;
    if i < |text| {
      StoppedRun(g, text, LineEnd(text, i));
    }
  }
}
