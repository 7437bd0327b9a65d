// load_conf of src/misc.c: what a configuration file means, and the loop that reads it.
module Config {
  import opened CStrings
  import opened CBuffers
  import opened Lines
  import opened Numbers
  import opened Words
  import opened Targets
  import opened Layouts

  /** The globals a configuration file sets. */
  datatype Settings = Settings(
    targets: seq<Target>,
    kmods: seq<Module>,
    timeout: int,
    grubPath: Option<string>,
    autodetect: int
  )

  /** The settings so far, and the target being described, if any. */
  datatype Conf = Conf(globals: Settings, topen: bool, target: Target)

  // ---------------------------------------------------------------------------
  // The meaning of a line
  // ---------------------------------------------------------------------------

  /** The C string in the buffer once the line break is cut off. */
  ghost function Cut(raw: string): string {
    raw[..Cspn(raw, 0, |raw|, LineBreaks + {NUL})]
  }

  /** The line without its leading blanks. */
  ghost function Body(raw: string): string {
    var c := Cut(raw);
    c[Spn(c, 0, |c|, LineStart)..]
  }

  /** kl_strceq */
  predicate SameFolded(s: string, t: string) {
    |s| == |t| && forall k :: 0 <= k < |s| ==> ToLower(s[k]) == ToLower(t[k])
  }

  /** CFG_ADD_TARGET: a target without root or kernel is dropped. */
  function Added(c: Conf): seq<Target> {
    if c.topen && c.target.Complete() then [c.target] else []
  }

  function Close(c: Conf): Settings {
    c.globals.(targets := c.globals.targets + Added(c))
  }

  /** A directive that sets a field of the open target. */
  function SetField(t: Target, name: string, val: string): Target {
    if name == "root" then t.(root := Take(val, SHORT))
    else if name == "kernel" then t.(kernel := Take(val, LONG))
    else if name == "initrd" then t.(initrd := Take(val, LONG))
    else if name == "cmdline" then t.(cmdline := Take(val, LONG))
    else t.(append := Take(val, LONG))
  }

  ghost function ModuleOf(val: string): Module {
    Module(Take(Word(val), LONG), Take(Rest(val), LONG))
  }

  /** A directive with its value; every value but those of default and reset-vga is required. */
  ghost function Apply(c: Conf, name: string, val: string): Conf {
    if name == "timeout" && val != "" then
      c.(globals := c.globals.(timeout := if val == "off" then -2 else Atoi(val)))
    else if name == "grub-path" && val != "" && val[0] == '(' then
      c.(globals := c.globals.(grubPath := Some(val)))
    else if name == "grub-autodetect" && SameFolded(val, "on") then
      c.(globals := c.globals.(autodetect := 2))
    else if name == "grub-autodetect" && SameFolded(val, "off") then
      c.(globals := c.globals.(autodetect := 0))
    else if name == "title" && val != "" then
      Conf(Close(c), true, InitTarget.(title := Take(val, SHORT)))
    else if !c.topen then c
    else if name == "default" then c.(target := c.target.(isDefault := true))
    else if name == "reset-vga" then c.(target := c.target.(resetVga := true))
    else if val == "" then c
    else if name in {"root", "kernel", "initrd", "cmdline", "append"} then c.(target := SetField(c.target, name, val))
    else if name == "module" then c.(target := c.target.(modules := c.target.modules + [ModuleOf(val)]))
    else if name == "kmod" then c.(globals := c.globals.(kmods := c.globals.kmods + [ModuleOf(val)]))
    else c
  }

  ghost function Obey(c: Conf, name: string, val: string): Conf {
    if Ignored(name) then c else Apply(c, name, val)
  }

  ghost function LineStep(c: Conf, raw: string): Conf {
    Obey(c, Word(Body(raw)), Rest(Body(raw)))
  }

  /** The lines from index i of the text on. */
  ghost function RunText(c: Conf, text: string, i: nat): Conf
    requires i <= |text|
  {
    RunLines(LineStep, c, text, i)
  }

  ghost function Load(globals: Settings, text: string): Settings {
    Close(RunText(Conf(globals, false, InitTarget), text, 0))
  }

  // ---------------------------------------------------------------------------
  // Every file: only complete targets are added, behind the ones there
  // ---------------------------------------------------------------------------

  lemma {:induction false} CloseAdds(c: Conf)
    ensures Adds(c.globals.targets, Close(c).targets)
  {
  }

  lemma {:induction false} ApplyAdds(c: Conf, name: string, val: string)
    ensures Adds(c.globals.targets, Apply(c, name, val).globals.targets)
  {
    hide Take, SetField, Atoi, ModuleOf, SameFolded;
    CloseAdds(c);
  }

  lemma {:induction false} RunAdds(c: Conf, text: string, i: nat)
    requires i <= |text|
    ensures Adds(c.globals.targets, RunText(c, text, i).globals.targets)
    decreases |text| - i
  {
    hide Apply, Adds;
    AddsSelf(c.globals.targets);
    if i < |text| {
      var raw := text[i..LineEnd(text, i)];
      ApplyAdds(c, Word(Body(raw)), Rest(Body(raw)));
      RunAdds(LineStep(c, raw), text, LineEnd(text, i));
      AddsTrans(c.globals.targets, LineStep(c, raw).globals.targets, RunText(c, text, i).globals.targets);
    }
  }

  lemma {:induction false} LoadAdds(globals: Settings, text: string)
    ensures Adds(globals.targets, Load(globals, text).targets)
  {
    hide RunText, Close, Adds;
    var c := Conf(globals, false, InitTarget);
    RunAdds(c, text, 0);
    CloseAdds(RunText(c, text, 0));
    AddsTrans(globals.targets, RunText(c, text, 0).globals.targets, Load(globals, text).targets);
  }

  // ---------------------------------------------------------------------------
  // Printed files: any directives, in any layout
  // ---------------------------------------------------------------------------

  lemma {:induction false} BodyIs(indent: string, body: string, eol: string)
    requires OnlyBlanks(indent) && (eol == "\n" || eol == "\r\n")
    requires body != "" && OneLine(body) && body[0] !in Blanks
    ensures Body(indent + body + eol) == body
  {
    var raw := indent + body + eol;
    var n := |indent| + |body|;
    assert raw[n] == eol[0];
    forall x | 0 <= x < n ensures raw[x] !in LineBreaks + {NUL} {
      if x < |indent| {
        assert raw[x] == indent[x];
      } else {
        assert raw[x] == body[x - |indent|];
      }
    }
    CspnIs(raw, 0, |raw|, LineBreaks + {NUL}, n);
    var c := Cut(raw);
    assert c == indent + body;
    assert c[|indent|] == body[0];
    assert body[0] !in LineStart;
    assert forall x :: 0 <= x < |indent| ==> c[x] == indent[x];
    assert Spn(c, 0, |c|, LineStart) == |indent|;
  }

  /** A printed line, read as it was meant. */
  lemma {:induction false} PrintedLine(y: Layout, d: Directive, c: Conf)
    requires y.Valid() && Printable(y, d)
    ensures LineStep(c, PrintLine(y, d)) == Obey(c, d.name, d.val)
  {
    hide PrintBody, Apply;
    PrintedBody(y, d);
    BodyIs(y.indent, PrintBody(y, d), y.eol);
  }

  /** A file of printed directives does what they mean, one after the other. */
  lemma {:induction false} PrintedText(y: Layout, ds: seq<Directive>, c: Conf)
    requires y.Valid() && AllPrintable(y, ds)
    ensures RunText(c, PrintLines(y, ds), 0) == RunAll(Obey, c, ds)
  {
    hide LineStep, Obey, Printable, AllPrintable, PrintLine, PrintLines, RunLines, RunAll;
    var text := PrintLines(y, ds);
    forall s: Conf, d | Printable(y, d) ensures LineStep(s, PrintLine(y, d)) == Obey(s, d.name, d.val) {
      PrintedLine(y, d, s);
    }
    LiesSelf(text);
    PrintedRun(LineStep, Obey, y, ds, c, text, 0);
  }

  lemma {:induction false} RunStep(c: Conf, text: string, i: nat)
    requires i < |text|
    ensures RunText(c, text, i) == RunText(LineStep(c, text[i..LineEnd(text, i)]), text, LineEnd(text, i))
  {
    hide LineStep;
  }

  // ---------------------------------------------------------------------------
  // Targets, round trip
  // ---------------------------------------------------------------------------

  function Given(name: string, val: string): seq<Directive> {
    if val == "" then [] else [D(name, val)]
  }

  function Flag(name: string, on: bool): seq<Directive> {
    if on then [D(name, "")] else []
  }

  function ModuleText(y: Layout, m: Module): string {
    if m.args == "" then m.name else m.name + y.sep + m.args
  }

  function ModuleLines(y: Layout, ms: seq<Module>): seq<Directive> {
    if ms == [] then [] else ModuleLines(y, ms[..|ms| - 1]) + [D("module", ModuleText(y, ms[|ms| - 1]))]
  }

  function FieldLines(t: Target): seq<Directive> {
    Given("root", t.root) + Given("kernel", t.kernel) + Given("initrd", t.initrd)
    + Given("cmdline", t.cmdline) + Given("append", t.append)
  }

  function TargetLines(y: Layout, t: Target): seq<Directive> {
    [D("title", t.title)] + Flag("default", t.isDefault) + Flag("reset-vga", t.resetVga)
    + FieldLines(t) + ModuleLines(y, t.modules)
  }

  function AllLines(y: Layout, list: seq<Target>): seq<Directive> {
    if list == [] then [] else AllLines(y, list[..|list| - 1]) + TargetLines(y, list[|list| - 1])
  }

  ghost predicate ModuleFits(m: Module) {
    m.name != "" && Unblank(m.name) && Flush(m.args) && |m.name| <= 1023 && |m.args| <= 1023
  }

  /** A target that can be written: it has a title, and no value is longer than a line can be. */
  ghost predicate TargetFits(t: Target) {
    t.title != "" && |t.kernel| <= 1023 && |t.initrd| <= 1023 && |t.cmdline| <= 1023 && |t.append| <= 1023
    && forall k :: 0 <= k < |t.modules| ==> ModuleFits(t.modules[k])
  }

  /** What is kept of a target: its title and root have to fit 256 bytes. */
  function CutTarget(t: Target): Target {
    t.(title := Cut255(t.title), root := Cut255(t.root))
  }

  /** Of the targets written those with a root and a kernel, in order. */
  function Kept(list: seq<Target>): seq<Target> {
    if list == [] then []
    else
      var t := list[|list| - 1];
      Kept(list[..|list| - 1]) + if t.root == "" || t.kernel == "" then [] else [CutTarget(t)]
  }

  lemma {:induction false} RunFlag(c: Conf, name: string, on: bool)
    requires c.topen && (name == "default" || name == "reset-vga")
    ensures RunAll(Obey, c, Flag(name, on)) == if !on then c else
      if name == "default" then c.(target := c.target.(isDefault := true)) else c.(target := c.target.(resetVga := true))
  {
    RunOne(Obey, c, D(name, ""));
  }

  predicate IsField(name: string) { name in {"root", "kernel", "initrd", "cmdline", "append"} }

  lemma {:induction false} RunGiven(c: Conf, name: string, val: string)
    requires c.topen && IsField(name)
    ensures RunAll(Obey, c, Given(name, val)) == if val == "" then c else c.(target := SetField(c.target, name, val))
  {
    hide SetField;
    RunOne(Obey, c, D(name, val));
  }

  lemma {:induction false} RunModules(y: Layout, c: Conf, ms: seq<Module>)
    requires y.Valid() && c.topen && c.target.modules == [] && forall k :: 0 <= k < |ms| ==> ModuleFits(ms[k])
    ensures RunAll(Obey, c, ModuleLines(y, ms)) == c.(target := c.target.(modules := ms))
    decreases |ms|
  {
    hide Apply, ModuleFits;
    if ms == [] {
      RunOne(Obey, c, D("", ""));
    } else {
      var n := |ms| - 1;
      var d := D("module", ModuleText(y, ms[n]));
      RunModules(y, c, ms[..n]);
      var c1 := RunAll(Obey, c, ModuleLines(y, ms[..n]));
      RunAllAppend(Obey, c, ModuleLines(y, ms[..n]), [d]);
      RunOne(Obey, c1, d);
      RunModule(y, c1, ms[n]);
      assert ms == ms[..n] + [ms[n]];
    }
  }

  lemma {:induction false} RunModule(y: Layout, c: Conf, m: Module)
    requires y.Valid() && c.topen && ModuleFits(m)
    ensures Apply(c, "module", ModuleText(y, m)) == c.(target := c.target.(modules := c.target.modules + [m]))
  {
    if m.args == "" {
      LoneWord(m.name);
    } else {
      SplitWord(m.name, y.sep, m.args);
    }
  }

  lemma {:induction false} RunFields(c: Conf, t: Target)
    requires c.topen && TargetFits(t)
    requires c.target == t.(title := Cut255(t.title), root := "", kernel := "", initrd := "", cmdline := "", append := "", modules := [])
    ensures RunAll(Obey, c, FieldLines(t)) == c.(target := CutTarget(t).(modules := []))
  {
    hide RunAll, Given;
    var c1 := c.(target := c.target.(root := Cut255(t.root)));
    var c2 := c1.(target := c1.target.(kernel := t.kernel));
    var c3 := c2.(target := c2.target.(initrd := t.initrd));
    var c4 := c3.(target := c3.target.(cmdline := t.cmdline));
    RunGiven(c, "root", t.root);
    RunGiven(c1, "kernel", t.kernel);
    RunGiven(c2, "initrd", t.initrd);
    RunGiven(c3, "cmdline", t.cmdline);
    RunGiven(c4, "append", t.append);
    var g1 := Given("root", t.root);
    var g2 := g1 + Given("kernel", t.kernel);
    var g3 := g2 + Given("initrd", t.initrd);
    RunAllAppend(Obey, c, g1, Given("kernel", t.kernel));
    RunAllAppend(Obey, c, g2, Given("initrd", t.initrd));
    RunAllAppend(Obey, c, g3, Given("cmdline", t.cmdline));
    RunAllAppend(Obey, c, g3 + Given("cmdline", t.cmdline), Given("append", t.append));
  }

  /** The lines of one target close the one before and leave it open with every field as written. */
  lemma {:induction false} RunTarget(y: Layout, c: Conf, t: Target)
    requires y.Valid() && TargetFits(t)
    ensures RunAll(Obey, c, TargetLines(y, t)) == Conf(Close(c), true, CutTarget(t))
  {
    hide RunAll, FieldLines, ModuleLines, Close, Flag;
    var c1 := Conf(Close(c), true, InitTarget.(title := Cut255(t.title)));
    var c2 := c1.(target := c1.target.(isDefault := t.isDefault));
    var c3 := c2.(target := c2.target.(resetVga := t.resetVga));
    var c4 := c3.(target := CutTarget(t).(modules := []));
    RunTitle(c, t);
    RunFlag(c1, "default", t.isDefault);
    RunFlag(c2, "reset-vga", t.resetVga);
    RunFields(c3, t);
    RunModules(y, c4, t.modules);
    var g1 := [D("title", t.title)];
    var g2 := g1 + Flag("default", t.isDefault);
    var g3 := g2 + Flag("reset-vga", t.resetVga);
    RunAllAppend(Obey, c, g1, Flag("default", t.isDefault));
    RunAllAppend(Obey, c, g2, Flag("reset-vga", t.resetVga));
    RunAllAppend(Obey, c, g3, FieldLines(t));
    RunAllAppend(Obey, c, g3 + FieldLines(t), ModuleLines(y, t.modules));
  }

  lemma {:induction false} RunTitle(c: Conf, t: Target)
    requires TargetFits(t)
    ensures RunAll(Obey, c, [D("title", t.title)]) == Conf(Close(c), true, InitTarget.(title := Cut255(t.title)))
  {
    hide Close;
    RunOne(Obey, c, D("title", t.title));
  }

  lemma {:induction false} RunTargets(y: Layout, c: Conf, list: seq<Target>)
    requires y.Valid() && forall k :: 0 <= k < |list| ==> TargetFits(list[k])
    ensures var e := RunAll(Obey, c, AllLines(y, list)); Close(e) == Close(c).(targets := Close(c).targets + Kept(list))
    decreases |list|
  {
    hide TargetLines, TargetFits, CutTarget;
    if list == [] {
      RunOne(Obey, c, D("", ""));
      assert Close(c).targets + [] == Close(c).targets;
    } else {
      var n := |list| - 1;
      var before := RunAll(Obey, c, AllLines(y, list[..n]));
      RunTargets(y, c, list[..n]);
      RunAllAppend(Obey, c, AllLines(y, list[..n]), TargetLines(y, list[n]));
      RunTarget(y, before, list[n]);
      CutComplete(list[n]);
      hide RunAll, AllLines;
      KeptLast(list);
      var last := if list[n].root == "" || list[n].kernel == "" then [] else [CutTarget(list[n])];
      assert Close(Conf(Close(before), true, CutTarget(list[n]))).targets == Close(before).targets + last;
      hide Kept;
      assert Close(c).targets + Kept(list[..n]) + last == Close(c).targets + (Kept(list[..n]) + last);
    }
  }

  lemma {:induction false} KeptLast(list: seq<Target>)
    requires list != []
    ensures var n := |list| - 1;
            Kept(list) == Kept(list[..n]) + if list[n].root == "" || list[n].kernel == "" then [] else [CutTarget(list[n])]
  {
    hide CutTarget;
  }

  lemma {:induction false} CutComplete(t: Target)
    ensures CutTarget(t).Complete() <==> t.root != "" && t.kernel != ""
  {
  }

  // ---------------------------------------------------------------------------
  // Settings
  // ---------------------------------------------------------------------------

  /** What can stand in front of the targets; the switch is spelled in any case, and a comment is any words behind '#'. */
  datatype Setting = Timeout(seconds: nat) | TimeoutOff | GrubPath(path: string) | GrubSwitch(word: string) | Remark(word: string, text: string)

  predicate SpellsOn(w: string) {
    |w| == 2 && (w[0] == 'o' || w[0] == 'O') && (w[1] == 'n' || w[1] == 'N')
  }

  predicate SpellsOff(w: string) {
    |w| == 3 && (w[0] == 'o' || w[0] == 'O') && (w[1] == 'f' || w[1] == 'F') && (w[2] == 'f' || w[2] == 'F')
  }

  function SettingLine(s: Setting): Directive {
    match s
    case Timeout(n) => D("timeout", Decimal(n))
    case TimeoutOff => D("timeout", "off")
    case GrubPath(path) => D("grub-path", path)
    case GrubSwitch(word) => D("grub-autodetect", word)
    case Remark(word, text) => D("#" + word, text)
  }

  /** A path has to start with a device, and the switch to be on or off; else nothing happens. */
  function Effect(s: Setting, globals: Settings): Settings {
    match s
    case Timeout(n) => globals.(timeout := n)
    case TimeoutOff => globals.(timeout := -2)
    case GrubPath(path) => if path != "" && path[0] == '(' then globals.(grubPath := Some(path)) else globals
    case GrubSwitch(word) =>
      if SpellsOn(word) then globals.(autodetect := 2) else if SpellsOff(word) then globals.(autodetect := 0) else globals
    case Remark(_, _) => globals
  }

  function SettingLines(ss: seq<Setting>): seq<Directive> {
    if ss == [] then [] else SettingLines(ss[..|ss| - 1]) + [SettingLine(ss[|ss| - 1])]
  }

  function Effects(ss: seq<Setting>, globals: Settings): Settings {
    if ss == [] then globals else Effect(ss[|ss| - 1], Effects(ss[..|ss| - 1], globals))
  }

  lemma {:induction false} FoldedSwitch(w: string)
    ensures SameFolded(w, "on") <==> SpellsOn(w)
    ensures SameFolded(w, "off") <==> SpellsOff(w)
  {
    assert "on"[0] == 'o' && "on"[1] == 'n' && "off"[0] == 'o' && "off"[1] == 'f' && "off"[2] == 'f';
  }

  lemma {:induction false} RunSetting(c: Conf, s: Setting)
    ensures Obey(c, SettingLine(s).name, SettingLine(s).val) == c.(globals := Effect(s, c.globals))
  {
    hide SameFolded, Decimal, Atoi, SpellsOn, SpellsOff;
    match s
    case Timeout(n) =>
      DecimalDigits(n);
      AtoiOfDecimal(n);
      assert "off"[0] == 'o';
    case TimeoutOff =>
    case GrubPath(path) =>
    case GrubSwitch(word) =>
      FoldedSwitch(word);
    case Remark(word, text) =>
      assert ("#" + word)[0] == '#';
  }

  lemma {:induction false} RunSettings(c: Conf, ss: seq<Setting>)
    ensures RunAll(Obey, c, SettingLines(ss)) == c.(globals := Effects(ss, c.globals))
    decreases |ss|
  {
    hide Obey, SettingLine, Effect;
    if ss == [] {
      RunOne(Obey, c, D("", ""));
    } else {
      var n := |ss| - 1;
      RunSettings(c, ss[..n]);
      RunAllAppend(Obey, c, SettingLines(ss[..n]), [SettingLine(ss[n])]);
      RunOne(Obey, RunAll(Obey, c, SettingLines(ss[..n])), SettingLine(ss[n]));
      RunSetting(RunAll(Obey, c, SettingLines(ss[..n])), ss[n]);
    }
  }

  /** Any other value of timeout is read as a number. */
  lemma {:induction false} TimeoutNumber(c: Conf, val: string)
    requires val != "" && val != "off"
    ensures Obey(c, "timeout", val) == c.(globals := c.globals.(timeout := Atoi(val)))
  {
  }

  /** A line ends at a carriage return or NUL, whatever follows. */
  lemma {:induction false} LineCut(c: Conf, raw: string, stop: char, junk: string)
    requires stop in {NUL, '\r', '\n'}
    ensures LineStep(c, raw + ([stop] + junk)) == LineStep(c, raw)
  {
    hide Obey, Word, Rest;
    CutBefore(raw, stop, junk);
  }

  lemma {:induction false} CutBefore(raw: string, stop: char, junk: string)
    requires stop in {NUL, '\r', '\n'}
    ensures Cut(raw + ([stop] + junk)) == Cut(raw)
  {
    var s, n := raw + ([stop] + junk), Cspn(raw, 0, |raw|, LineBreaks + {NUL});
    assert forall x :: 0 <= x < |raw| ==> s[x] == raw[x];
    assert s[|raw|] == stop;
    CspnIs(s, 0, |s|, LineBreaks + {NUL}, n);
  }

  /** Unknown directives, values that are missing, grub-map, and directives of a target outside one do nothing. */
  lemma {:induction false} NoEffect(c: Conf, name: string, val: string)
    requires name !in {"timeout", "grub-path", "grub-autodetect", "title", "root", "kernel", "initrd", "cmdline", "append",
                       "default", "reset-vga", "module", "kmod"}
             || (val == "" && name !in {"default", "reset-vga"}) || (!c.topen && name !in {"timeout", "grub-path", "grub-autodetect", "title"})
    ensures Obey(c, name, val) == c
  {
    FoldedSwitch(val);
  }

  /**
   * Settings and targets written out in any layout and loaded again: the settings take effect one after
   * the other, and the targets that have a root and a kernel are appended, in order, with every field.
   */
  lemma {:induction false} RoundTrip(y: Layout, globals: Settings, ss: seq<Setting>, list: seq<Target>)
    requires y.Valid() && AllPrintable(y, SettingLines(ss) + AllLines(y, list))
    requires forall k :: 0 <= k < |list| ==> TargetFits(list[k])
    ensures var after := Effects(ss, globals);
            Load(globals, PrintLines(y, SettingLines(ss) + AllLines(y, list))) == after.(targets := globals.targets + Kept(list))
  {
    hide AllPrintable, RunAll, PrintLines, RunText, AllLines, SettingLines, Effects;
    var c := Conf(globals, false, InitTarget);
    PrintedText(y, SettingLines(ss) + AllLines(y, list), c);
    RunAllAppend(Obey, c, SettingLines(ss), AllLines(y, list));
    RunSettings(c, ss);
    EffectsKeep(ss, globals);
    RunTargets(y, RunAll(Obey, c, SettingLines(ss)), list);
    assert globals.targets + [] == globals.targets;
  }

  lemma {:induction false} EffectsKeep(ss: seq<Setting>, globals: Settings)
    ensures Effects(ss, globals).targets == globals.targets
    decreases |ss|
  {
    if ss != [] {
      EffectsKeep(ss[..|ss| - 1], globals);
    }
  }

  // ---------------------------------------------------------------------------
  // Counting arguments
  // ---------------------------------------------------------------------------

  /** The number of words from index i of a value on, as CFG_CHECK_ARGS counts them. */
  ghost function Args(s: string, i: nat): nat
    requires i <= |s|
    decreases |s| - i
  {
    if i == |s| then 0 else 1 + Args(s, Spn(s, Cspn(s, i, |s|, Blanks), |s|, Blanks))
  }

  method CheckArgs(val: string, n: nat) returns (enough: bool)
    ensures enough <==> Args(val, 0) >= n
  {
    var i, ac := 0, 0;
    while ac < n && i < |val|
      invariant 0 <= i <= |val| && ac <= n && Args(val, 0) == ac + Args(val, i)
    {
      var k := StrCspn(val, i, |val|, Blanks);
      i := StrSpn(val, k, |val|, Blanks);
      ac := ac + 1;
    }
    enough := ac == n;
  }

  lemma {:induction false} OneArg(val: string)
    ensures Args(val, 0) >= 1 <==> val != ""
  {
  }

  /** grub-map counts its arguments after the first has been cut off, and so never finds the second. */
  lemma {:induction false} GrubMapRejected(val: string)
    ensures Args(Word(val), 0) < 2
  {
    var w := Word(val);
    if w != "" {
      CspnIs(w, 0, |w|, Blanks, |w|);
      assert Args(w, |w|) == 0;
    }
  }

  /** The options of a kernel module are split like those of a multiboot module. */
  lemma {:induction false} RunKmod(y: Layout, c: Conf, m: Module)
    requires y.Valid() && c.topen && ModuleFits(m)
    ensures Apply(c, "kmod", ModuleText(y, m)) == c.(globals := c.globals.(kmods := c.globals.kmods + [m]))
  {
    if m.args == "" {
      LoneWord(m.name);
    } else {
      SplitWord(m.name, y.sep, m.args);
    }
  }

  /** Module options are only taken inside a target, although they are global. */
  lemma {:induction false} KmodNeedsTarget(c: Conf, val: string)
    ensures |Apply(c, "kmod", val).globals.kmods| > |c.globals.kmods| <==> c.topen && val != ""
    ensures c.topen && val != "" ==> Apply(c, "kmod", val).globals.kmods == c.globals.kmods + [ModuleOf(val)]
    ensures !(c.topen && val != "") ==> Apply(c, "kmod", val) == c
  {
  }

  // ---------------------------------------------------------------------------
  // The loop
  // ---------------------------------------------------------------------------

  class Loader {
    var targets: seq<Target>
    var kmods: seq<Module>
    var timeout: int
    var grubPath: Option<string>
    var autodetect: int
    /** The line of the title that opened the target, or 0. */
    var topen: nat
    var target: Target

    ghost function Globals(): Settings
      reads this
    {
      Settings(targets, kmods, timeout, grubPath, autodetect)
    }

    ghost function State(): Conf
      reads this
    {
      Conf(Globals(), topen != 0, target)
    }

    constructor (targets: seq<Target>, kmods: seq<Module>, timeout: int, grubPath: Option<string>, autodetect: int)
      ensures Globals() == Settings(targets, kmods, timeout, grubPath, autodetect)
    {
      this.targets, this.kmods, this.timeout := targets, kmods, timeout;
      this.grubPath, this.autodetect := grubPath, autodetect;
      topen, target := 0, InitTarget;
    }

    /** CFG_ADD_TARGET, for an open target */
    method AddTarget()
      requires topen != 0
      modifies this`targets
      ensures Globals() == Close(old(State()))
    {
      if target.root != "" && target.kernel != "" {
        targets := targets + [target];
      }
    }

    /** The directives whose value has to be split once more. */
    method ReadModule(line: array<char>, p: nat, ghost val: string) returns (m: Module)
      requires HoldsAt(line, p, val)
      modifies line
      ensures m == ModuleOf(val)
    {
      var q := NextValue(line, p, val);
      var args := ReadAt(line, q, Rest(val));
      var name := ReadAt(line, p, Word(val));
      m := Module(Take(name, LONG), Take(args, LONG));
    }

    /** The global directives and title; done tells whether the name was one of them. */
    method GlobalDirective(line: array<char>, p: nat, name: string, lnum: nat, ghost text: string) returns (done: bool)
      requires HoldsAt(line, p, text) && lnum > 0
      modifies this, line
      ensures done ==> State() == Apply(old(State()), name, text)
      ensures !done ==> State() == old(State()) && HoldsAt(line, p, text)
      ensures done <==> name in {"timeout", "grub-path", "grub-map", "grub-autodetect", "title"}
    {
      hide HoldsAt, Atoi, Take, Word, Rest, SameFolded, Cspn;
      var val := ReadAt(line, p, text);
      OneArg(val);
      var one := CheckArgs(val, 1);
      done := true;
      if name == "timeout" {
        if one {
          if val == "off" {
            timeout := -2;
          } else {
            timeout := Atoi(val);
          }
        }
      } else if name == "grub-path" {
        if one && val[0] == '(' {
          grubPath := Some(val);
        }
      } else if name == "grub-map" {
        var q := NextValue(line, p, val);
        var first := ReadAt(line, p, Word(val));
        var two := CheckArgs(first, 2);
        GrubMapRejected(val);
        assert !two;
      } else if name == "grub-autodetect" {
        NotEmpty(val);
        if one {
          if SameFolded(val, "on") {
            autodetect := 2;
          } else if SameFolded(val, "off") {
            autodetect := 0;
          }
        }
      } else if name == "title" {
        if one {
          if topen != 0 {
            AddTarget();
          }
          target := InitTarget.(title := Take(val, SHORT));
          topen := lnum;
        }
      } else {
        done := false;
      }
    }

    /** The directives of a target. */
    method TargetDirective(line: array<char>, p: nat, name: string, ghost text: string)
      requires HoldsAt(line, p, text)
      requires name !in {"timeout", "grub-path", "grub-map", "grub-autodetect", "title"}
      modifies this, line
      ensures State() == Apply(old(State()), name, text)
    {
      hide HoldsAt, Atoi, Take, Word, Rest, SameFolded, ModuleOf;
      var val := ReadAt(line, p, text);
      OneArg(val);
      var one := CheckArgs(val, 1);
      if topen == 0 {
        return;
      }
      if name == "default" {
        target := target.(isDefault := true);
      } else if name == "reset-vga" {
        target := target.(resetVga := true);
      } else if !one {
        return;
      } else if name == "root" {
        target := target.(root := Take(val, SHORT));
      } else if name == "kernel" {
        target := target.(kernel := Take(val, LONG));
      } else if name == "initrd" {
        target := target.(initrd := Take(val, LONG));
      } else if name == "cmdline" {
        target := target.(cmdline := Take(val, LONG));
      } else if name == "append" {
        target := target.(append := Take(val, LONG));
      } else if name == "module" {
        var m := ReadModule(line, p, text);
        target := target.(modules := target.modules + [m]);
      } else if name == "kmod" {
        var m := ReadModule(line, p, text);
        kmods := kmods + [m];
      }
    }

    /** The body of the loop, for the line just read. */
    method ReadLine(line: array<char>, lnum: nat, ghost raw: string)
      requires line.Length == LINE_SIZE && |raw| < LINE_SIZE && lnum > 0
      requires line[|raw|] == NUL && forall k :: 0 <= k < |raw| ==> line[k] == raw[k]
      modifies this, line
      ensures State() == LineStep(old(State()), raw)
    {
      hide Apply, Word, Rest, Cut;
      CutLine(line, raw);
      ghost var cut := Cut(raw);
      var p := SpnAt(line, 0, 0, LineStart, cut);
      HoldsTail(line, 0, cut, p);
      ghost var body := Body(raw);
      var q := NextValue(line, p, body);
      var name := ReadAt(line, p, Word(body));
      if Ignored(name) {
        return;
      }
      var done := GlobalDirective(line, q, name, lnum, Rest(body));
      if !done {
        TargetDirective(line, q, name, Rest(body));
      }
    }

    /** The whole of load_conf on a file that can be read. */
    method LoadConf(text: string)
      requires topen == 0 && target == InitTarget
      modifies this
      ensures Globals() == Load(old(Globals()), text)
    {
      hide LineStep, Close;
      var line := new char[LINE_SIZE];
      var i, lnum := 0, 0;
      ghost var start := Conf(Globals(), false, InitTarget);
      while i < |text|
        invariant 0 <= i <= |text| && fresh(line)
        invariant RunText(start, text, 0) == RunText(State(), text, i)
        decreases |text| - i
      {
        var raw, next := FGets(text, i);
        CopyIn(line, 0, raw, |raw|);
        line[|raw|] := NUL;
        lnum := lnum + 1;
        RunStep(State(), text, i);
        ReadLine(line, lnum, raw);
        i := next;
      }
      CloseShut(State());
      if topen != 0 {
        AddTarget();
      }
    }
  }

  lemma {:induction false} NotEmpty(val: string)
    ensures val == "" ==> !SameFolded(val, "on") && !SameFolded(val, "off")
  {
  }

  lemma {:induction false} CloseShut(c: Conf)
    ensures !c.topen ==> Close(c) == c.globals
  {
    assert c.globals.targets + [] == c.globals.targets;
  }

  /** line[strcspn(line, "\r\n")] = '\0' */
  method CutLine(line: array<char>, ghost raw: string)
    requires |raw| < line.Length && line[|raw|] == NUL && forall k :: 0 <= k < |raw| ==> line[k] == raw[k]
    modifies line
    ensures HoldsAt(line, 0, Cut(raw))
  {
    var n := 0;
    while line[n] != NUL && line[n] !in LineBreaks
      invariant n <= |raw| && forall x :: 0 <= x < n ==> raw[x] !in LineBreaks + {NUL}
      decreases |raw| - n
    {
      n := n + 1;
    }
    CspnIs(raw, 0, |raw|, LineBreaks + {NUL}, n);
    line[n] := NUL;
  }
}
