// The search command of grub.cfg, word by word.
module GrubSearch {
  import opened CStrings
  import opened Words
  import opened Targets
  import opened Grub2

  /** A word of the command; eq: a '=' and not a blank separates it from the next one, as in --set=root. */
  datatype Arg = Arg(word: string, eq: bool)

  function PrintArgs(ws: seq<Arg>): string {
    if ws == [] then ""
    else if |ws| == 1 then ws[0].word
    else ws[0].word + (if ws[0].eq then "=" else " ") + PrintArgs(ws[1..])
  }

  ghost predicate ArgFits(a: Arg) {
    a.word != "" && Unblank(a.word) && if a.eq then a.word == "--set" else !Lies(a.word, 0, SetTo)
  }

  ghost predicate ArgsFit(ws: seq<Arg>) {
    ws != [] && !ws[|ws| - 1].eq && forall k :: 0 <= k < |ws| ==> ArgFits(ws[k])
  }

  /** What the words have given so far; lset: --set has been seen and waits for its variable. */
  datatype Progress = Progress(how: By, lset: bool, setRoot: bool)

  const Start := Progress(ByUnknown, false, false)

  /** One word: an option that selects a kind of name, --set, its variable, or nothing. */
  function TakeWord(word: string, isLast: bool, p: Progress): Progress {
    if Selects(word) != ByUnknown then p.(how := Selects(word))
    else if Abbreviates(word, "--set") then p.(lset := true)
    else if p.lset && (isLast || Abbreviates(word, "root")) then p.(lset := false, setRoot := true)
    else p
  }

  /** The meaning of the words: the last option that selects a kind of name, and whether root is set. */
  function Meaning(ws: seq<Arg>, p: Progress): Progress
    decreases |ws|
  {
    if ws == [] then p else Meaning(ws[1..], TakeWord(ws[0].word, |ws| == 1, p))
  }

  lemma {:induction false} PrintArgsHead(ws: seq<Arg>)
    requires ArgsFit(ws)
    ensures PrintArgs(ws) != "" && PrintArgs(ws)[0] !in Blanks
  {
    assert ArgFits(ws[0]);
  }

  lemma {:induction false} PrintArgsStep(ws: seq<Arg>)
    requires ArgsFit(ws) && |ws| > 1
    ensures PrintArgs(ws) == ws[0].word + ((if ws[0].eq then "=" else " ") + PrintArgs(ws[1..]))
    ensures ArgsFit(ws[1..])
  {
    hide ArgFits;
    var a, b, c := ws[0].word, if ws[0].eq then "=" else " ", PrintArgs(ws[1..]);
    assert a + b + c == a + (b + c);
  }

  /** The last word, up to the end of the string. */
  lemma {:induction false} LastArg(s: string, i: nat, w: string)
    requires w != "" && Unblank(w) && Lies(s, i, w) && i + |w| == |s| && !Lies(w, 0, SetTo)
    ensures s[i..WordEnd(s, i)] == w && NextArg(s, i) == |s|
  {
    NotSetTo(s, i, w);
    CspnOver(s, i, |s|, Blanks, w);
    LiesSlice(s, i, w);
  }

  lemma {:induction false} NoBlankIn(s: string, i: nat, n: nat)
    requires Lies(s, i, SetTo) && n < 6
    ensures s[i + n] != ' '
  {
    assert s[i + n] == SetTo[n];
  }

  /** If the text starts with --set= then so does the whole word there. */
  lemma {:induction false} IsSetTo(s: string, i: nat, w: string)
    requires Lies(s, i, w) && (i + |w| == |s| || s[i + |w|] == ' ') && Lies(s, i, SetTo)
    ensures Lies(w, 0, SetTo)
  {
    if |w| < 6 {
      NoBlankIn(s, i, |w|);
    } else {
      forall x | 0 <= x < 6 ensures w[0 + x] == SetTo[x] {
        assert s[i + x] == SetTo[x];
      }
    }
  }

  lemma {:induction false} NotSetTo(s: string, i: nat, w: string)
    requires Lies(s, i, w) && (i + |w| == |s| || s[i + |w|] == ' ') && !Lies(w, 0, SetTo)
    ensures !Lies(s, i, SetTo)
  {
    hide Lies;
    if Lies(s, i, SetTo) {
      IsSetTo(s, i, w);
    }
  }

  /** A word that a blank and another word follow. */
  lemma {:induction false} NextIsWord(s: string, i: nat, w: string, rest: string)
    requires w != "" && Unblank(w) && !Lies(w, 0, SetTo) && rest != "" && rest[0] !in Blanks
    requires Lies(s, i, w + (" " + rest))
    ensures i < |s| && s[i..WordEnd(s, i)] == w && NextArg(s, i) == i + |w| + 1 < |s| && Lies(s, i + |w| + 1, rest)
  {
    LiesSplit(s, i, w, " " + rest);
    LiesSplit(s, i + |w|, " ", rest);
    LiesHead(s, i + |w|, " ");
    LiesHead(s, i + |w| + 1, rest);
    NotSetTo(s, i, w);
    CspnOver(s, i, |s|, Blanks, w);
    LiesSlice(s, i, w);
    assert Spn(s, i + |w|, |s|, Blanks) == i + |w| + 1;
  }

  /** --set= and the word that follows. */
  lemma {:induction false} NextIsValue(s: string, i: nat, rest: string)
    requires rest != "" && Lies(s, i, "--set" + ("=" + rest))
    ensures i < |s| && s[i..WordEnd(s, i)] == "--set" && NextArg(s, i) == i + 6 < |s| && Lies(s, i + 6, rest)
  {
    assert "--set" + ("=" + rest) == SetTo + rest;
    LiesSplit(s, i, SetTo, rest);
    LiesHead(s, i + 6, rest);
    assert SetTo == "--set" + "=";
    LiesSplit(s, i, "--set", "=");
    LiesSlice(s, i, "--set");
  }

  ghost function SearchFrom(s: string, i: nat, p: Progress): Found
    requires i <= |s|
  {
    Search(s, i, p.how, p.lset, p.setRoot)
  }

  /** One turn of the loop, for a word in front of others. */
  lemma {:induction false} SearchOne(s: string, i: nat, w: string, next: nat, p: Progress)
    requires i < |s| && s[i..WordEnd(s, i)] == w && NextArg(s, i) == next < |s|
    ensures SearchFrom(s, i, p) == SearchFrom(s, next, TakeWord(w, false, p))
  {
    hide Selects, Abbreviates, WordEnd, NextArg;
  }

  lemma {:induction false} SearchLast(s: string, i: nat, w: string, p: Progress)
    requires i < |s| && s[i..WordEnd(s, i)] == w && NextArg(s, i) == |s|
    ensures var m := TakeWord(w, true, p); SearchFrom(s, i, p) == Found(m.how, m.setRoot, i)
  {
    hide Selects, Abbreviates, WordEnd, NextArg;
  }

  /** The first of several words is found whole, and the next one behind it. */
  lemma {:induction false} ArgAt(s: string, i: nat, ws: seq<Arg>)
    requires ArgsFit(ws) && |ws| > 1 && Lies(s, i, PrintArgs(ws)) && i + |PrintArgs(ws)| == |s|
    ensures var a, rest := ws[0], PrintArgs(ws[1..]);
            i < |s| && s[i..WordEnd(s, i)] == a.word && NextArg(s, i) == i + |a.word| + 1 < |s|
            && ArgsFit(ws[1..]) && Lies(s, i + |a.word| + 1, rest) && i + |a.word| + 1 + |rest| == |s|
  {
    hide PrintArgs, WordEnd, NextArg, Lies;
    var a, rest := ws[0], PrintArgs(ws[1..]);
    assert ArgFits(a);
    PrintArgsStep(ws);
    PrintArgsHead(ws[1..]);
    if a.eq {
      NextIsValue(s, i, rest);
    } else {
      NextIsWord(s, i, a.word, rest);
    }
  }

  lemma {:induction false} MeaningStep(ws: seq<Arg>, p: Progress)
    requires ws != []
    ensures Meaning(ws, p) == Meaning(ws[1..], TakeWord(ws[0].word, |ws| == 1, p))
  {
    hide TakeWord;
  }

  /** The loop over the text of a search command finds what its words mean, and ends at the last one. */
  lemma {:induction false} SearchWords(s: string, i: nat, ws: seq<Arg>, p: Progress)
    requires ArgsFit(ws) && Lies(s, i, PrintArgs(ws)) && i + |PrintArgs(ws)| == |s|
    ensures var m, f := Meaning(ws, p), SearchFrom(s, i, p);
            f.how == m.how && f.setRoot == m.setRoot && f.last + |ws[|ws| - 1].word| == |s|
    decreases |ws|
  {
    hide TakeWord, PrintArgs, SearchFrom, WordEnd, NextArg, Lies, Meaning;
    var a := ws[0];
    MeaningStep(ws, p);
    assert ArgFits(a);
    if |ws| == 1 {
      PrintArgsOne(ws);
      LastArg(s, i, a.word);
      SearchLast(s, i, a.word, p);
      NothingMeant(TakeWord(a.word, true, p));
      assert ws[1..] == [];
    } else {
      var next := i + |a.word| + 1;
      ArgAt(s, i, ws);
      SearchOne(s, i, a.word, next, p);
      SearchWords(s, next, ws[1..], TakeWord(a.word, false, p));
    }
  }

  lemma {:induction false} NothingMeant(p: Progress)
    ensures Meaning([], p) == p
  {
  }

  lemma {:induction false} PrintArgsOne(ws: seq<Arg>)
    requires |ws| == 1
    ensures PrintArgs(ws) == ws[0].word
  {
  }

  // ---------------------------------------------------------------------------
  // The line grub-mkconfig writes
  // ---------------------------------------------------------------------------

  /** Words that select no kind of name. */
  predicate Neutral(hints: seq<Arg>) {
    forall k :: 0 <= k < |hints| ==> Selects(hints[k].word) == ByUnknown
  }

  /** Once root is to be set, words that select nothing change nothing. */
  lemma {:induction false} NeutralKeeps(ws: seq<Arg>, p: Progress)
    requires Neutral(ws) && p.setRoot
    ensures Meaning(ws, p).how == p.how && Meaning(ws, p).setRoot
    decreases |ws|
  {
    hide Selects, Abbreviates;
    if ws != [] {
      NeutralKeeps(ws[1..], TakeWord(ws[0].word, |ws| == 1, p));
    }
  }

  function UuidArgs(hints: seq<Arg>, id: string): seq<Arg> {
    [Arg("--no-floppy", false), Arg("--fs-uuid", false), Arg("--set", true), Arg("root", false)] + hints + [Arg(id, false)]
  }

  /** search --no-floppy --fs-uuid --set=root, any hints, and a name: root becomes the file system of that name. */
  lemma {:induction false} UuidSearch(hints: seq<Arg>, id: string)
    requires ArgsFit(UuidArgs(hints, id)) && Neutral(hints + [Arg(id, false)])
    ensures SearchRoot("search", PrintArgs(UuidArgs(hints, id))) == Some(Take("UUID=" + id, SHORT))
  {
    hide PrintArgs, ArgsFit, Search, Lies;
    var ws := UuidArgs(hints, id);
    var s := PrintArgs(ws);
    LiesSelf(s);
    SearchWords(s, 0, ws, Start);
    FourWords(hints + [Arg(id, false)]);
    assert ws == [Arg("--no-floppy", false), Arg("--fs-uuid", false), Arg("--set", true), Arg("root", false)] + (hints + [Arg(id, false)]);
    LastLies(ws);
  }

  lemma {:induction false} OptionWords()
    ensures Selects("--no-floppy") == ByUnknown && !Abbreviates("--no-floppy", "--set")
    ensures Selects("--fs-uuid") == ByUuid
    ensures Selects("--set") == ByUnknown && Abbreviates("--set", "--set")
    ensures Selects("root") == ByUnknown && !Abbreviates("root", "--set") && Abbreviates("root", "root")
  {
    assert "--file"[..5][2] == 'f' && "--label"[..5][2] == 'l' && "--fs-uuid"[..5][2] == 'f' && "--set"[2] == 's';
    assert "--file"[..4][0] == '-' && "--label"[..4][0] == '-' && "--fs-uuid"[..4][0] == '-' && "--set"[..4][0] == '-';
    assert "--fs-uuid"[..9] == "--fs-uuid";
  }

  lemma {:induction false} FourWords(rest: seq<Arg>)
    requires Neutral(rest)
    ensures var ws := [Arg("--no-floppy", false), Arg("--fs-uuid", false), Arg("--set", true), Arg("root", false)] + rest;
            Meaning(ws, Start).how == ByUuid && Meaning(ws, Start).setRoot
  {
    hide Selects, Abbreviates, Meaning;
    var ws := [Arg("--no-floppy", false), Arg("--fs-uuid", false), Arg("--set", true), Arg("root", false)] + rest;
    OptionWords();
    MeaningStep(ws, Start);
    MeaningStep(ws[1..], Start);
    MeaningStep(ws[1..][1..], Progress(ByUuid, false, false));
    MeaningStep(ws[1..][1..][1..], Progress(ByUuid, true, false));
    assert ws[1..][1..][1..][1..] == rest;
    NeutralKeeps(rest, Progress(ByUuid, false, true));
  }

  /** The text ends with its last word. */
  lemma {:induction false} LastLies(ws: seq<Arg>)
    requires ArgsFit(ws)
    ensures var w, s := ws[|ws| - 1].word, PrintArgs(ws); |w| <= |s| && s[|s| - |w|..] == w
    decreases |ws|
  {
    hide ArgFits;
    if |ws| > 1 {
      PrintArgsStep(ws);
      LastLies(ws[1..]);
      var w, s, rest := ws[|ws| - 1].word, PrintArgs(ws), PrintArgs(ws[1..]);
      assert s[|s| - |rest|..] == rest;
      assert s[|s| - |w|..] == rest[|rest| - |w|..];
    }
  }

  /** Any abbreviation of an option is taken for it. */
  lemma {:induction false} AbbreviatedSearch(a: string, b: string, id: string)
    requires 3 <= |a| && Abbreviates(a, "--label") && 3 <= |b| && Abbreviates(b, "--set")
    requires ArgFits(Arg(id, false)) && Selects(id) == ByUnknown && !Abbreviates(id, "--set")
    ensures SearchRoot("search", PrintArgs([Arg(a, false), Arg(b, false), Arg(id, false)])) == Some(Take("LABEL=" + id, SHORT))
  {
    hide PrintArgs, Search, Lies, Meaning;
    var ws := [Arg(a, false), Arg(b, false), Arg(id, false)];
    var s := PrintArgs(ws);
    OptionPrefix(a, b);
    LiesSelf(s);
    SearchWords(s, 0, ws, Start);
    MeaningStep(ws, Start);
    MeaningStep(ws[1..], Progress(ByLabel, false, false));
    MeaningStep(ws[1..][1..], Progress(ByLabel, true, false));
    assert ws[1..][1..][1..] == [];
    NothingMeant(Progress(ByLabel, false, true));
    LastLies(ws);
  }

  lemma {:induction false} NotAbbreviates(word: string, lit: string)
    requires |lit| < |word| || (3 <= |word| && word[2] != lit[2])
    ensures !Abbreviates(word, lit)
  {
    if |word| <= |lit| {
      assert lit[..|word|][2] == lit[2];
    }
  }

  lemma {:induction false} OptionPrefix(a: string, b: string)
    requires 3 <= |a| && Abbreviates(a, "--label") && 3 <= |b| && Abbreviates(b, "--set")
    ensures Selects(a) == ByLabel && ArgFits(Arg(a, false))
    ensures Selects(b) == ByUnknown && ArgFits(Arg(b, false))
  {
    PrefixOf(a, "--label");
    PrefixOf(b, "--set");
    hide Abbreviates;
    assert a[2] == 'l' && b[2] == 's';
    NotAbbreviates(a, "-f");
    NotAbbreviates(a, "--file");
    NotAbbreviates(b, "-f");
    NotAbbreviates(b, "--file");
    NotAbbreviates(b, "-l");
    NotAbbreviates(b, "--label");
    NotAbbreviates(b, "-u");
    NotAbbreviates(b, "--fs-uuid");
    NoSetTo(a);
  }

  lemma {:induction false} NoSetTo(a: string)
    requires |a| >= 3 && a[2] != 's'
    ensures !Lies(a, 0, SetTo)
  {
    if |a| >= 6 {
      assert a[0 + 2] != SetTo[2];
    }
  }

  lemma {:induction false} PrefixOf(word: string, lit: string)
    requires Abbreviates(word, lit)
    ensures |word| <= |lit| && forall k :: 0 <= k < |word| ==> word[k] == lit[k]
  {
    assert forall k :: 0 <= k < |word| ==> lit[..|word|][k] == lit[k];
  }

  // ---------------------------------------------------------------------------
  // What a search command does, exactly
  // ---------------------------------------------------------------------------

  /** The options that select a kind of name; of the abbreviations of two of them the first counts. */
  lemma {:induction false} SelectingWords()
    ensures Selects("-f") == ByFile && Selects("--file") == ByFile
    ensures Selects("-l") == ByLabel && Selects("--label") == ByLabel
    ensures Selects("-u") == ByUuid && Selects("--fs-uuid") == ByUuid
    ensures Selects("-") == ByFile && Selects("--") == ByFile && Selects("--fs") == ByUuid
  {
    assert "-f"[..2] == "-f" && "--file"[..6] == "--file" && "-l"[..2] == "-l" && "--label"[..7] == "--label";
    assert "-u"[..2] == "-u" && "--fs-uuid"[..9] == "--fs-uuid";
    assert "-f"[1] == 'f' && "-l"[1] == 'l' && "-u"[1] == 'u';
    assert "--file"[..2][1] == '-' && "--label"[..2][1] == '-' && "--fs-uuid"[..2][1] == '-';
    assert "--file"[..4][3] == 'i' && "--label"[..4][2] == 'l' && "--fs-uuid"[..4] == "--fs" && "--fs"[3] == 's';
    assert "--label"[2] == 'l' && "--file"[..2] == "--" && "-f"[..1] == "-";
  }

  predicate IsSet(word: string) { Selects(word) == ByUnknown && Abbreviates(word, "--set") }

  /** The word at k can be the variable that --set waits for. */
  predicate IsVariable(ws: seq<Arg>, k: nat)
    requires k < |ws|
  {
    Selects(ws[k].word) == ByUnknown && !Abbreviates(ws[k].word, "--set") && (k == |ws| - 1 || Abbreviates(ws[k].word, "root"))
  }

  /** The word at k selects a kind of name and none behind it does. */
  predicate LastSelects(ws: seq<Arg>, k: nat)
    requires k < |ws|
  {
    Selects(ws[k].word) != ByUnknown && forall j :: k < j < |ws| ==> Selects(ws[j].word) == ByUnknown
  }

  /** The kind of name is that of the last option for it, and that of the command if there is none. */
  lemma {:induction false} MeaningHow(ws: seq<Arg>, p: Progress)
    ensures forall k :: 0 <= k < |ws| && LastSelects(ws, k) ==> Meaning(ws, p).how == Selects(ws[k].word)
    ensures Neutral(ws) ==> Meaning(ws, p).how == p.how
    decreases |ws|
  {
    hide Selects, Abbreviates;
    if ws != [] {
      var q, rest := TakeWord(ws[0].word, |ws| == 1, p), ws[1..];
      MeaningHow(rest, q);
      forall k | 0 <= k < |ws| && LastSelects(ws, k) ensures Meaning(ws, p).how == Selects(ws[k].word) {
        if k == 0 {
          assert Neutral(rest);
        } else {
          assert rest[k - 1] == ws[k] && LastSelects(rest, k - 1);
        }
      }
      assert Neutral(ws) ==> Neutral(rest);
    }
  }

  /** Root is set if and only if --set is followed, at once or later, by root or by a last word that is no option. */
  lemma {:induction false} MeaningSet(ws: seq<Arg>, p: Progress)
    ensures Meaning(ws, p).setRoot <==>
            p.setRoot || (p.lset && exists j :: 0 <= j < |ws| && IsVariable(ws, j))
            || exists i, j :: 0 <= i < j < |ws| && IsSet(ws[i].word) && IsVariable(ws, j)
    decreases |ws|
  {
    hide Selects, Abbreviates;
    if ws != [] {
      var q, rest := TakeWord(ws[0].word, |ws| == 1, p), ws[1..];
      MeaningStep(ws, p);
      hide Meaning;
      MeaningSet(rest, q);
      forall j | 0 < j < |ws| ensures IsVariable(ws, j) <==> IsVariable(rest, j - 1) {
        assert rest[j - 1] == ws[j];
      }
      assert forall j :: 0 <= j < |rest| ==> rest[j] == ws[j + 1] && (IsVariable(rest, j) <==> IsVariable(ws, j + 1));
      VariableLater(ws, rest);
      SetLater(ws, rest);
    }
  }

  lemma {:induction false} VariableLater(ws: seq<Arg>, rest: seq<Arg>)
    requires ws != [] && rest == ws[1..]
    ensures (exists j :: 0 <= j < |ws| && IsVariable(ws, j)) <==> IsVariable(ws, 0) || exists j :: 0 <= j < |rest| && IsVariable(rest, j)
    ensures (exists j :: 0 < j < |ws| && IsVariable(ws, j)) <==> exists j :: 0 <= j < |rest| && IsVariable(rest, j)
  {
    hide Selects, Abbreviates;
    if j :| 0 < j < |ws| && IsVariable(ws, j) {
      assert IsVariable(rest, j - 1);
    }
    if j :| 0 <= j < |rest| && IsVariable(rest, j) {
      assert IsVariable(ws, j + 1);
    }
  }

  lemma {:induction false} SetLater(ws: seq<Arg>, rest: seq<Arg>)
    requires ws != [] && rest == ws[1..]
    ensures (exists i, j :: 0 <= i < j < |ws| && IsSet(ws[i].word) && IsVariable(ws, j)) <==>
            (IsSet(ws[0].word) && exists j :: 0 < j < |ws| && IsVariable(ws, j))
            || exists i, j :: 0 <= i < j < |rest| && IsSet(rest[i].word) && IsVariable(rest, j)
  {
    hide Selects, Abbreviates;
    if i, j :| 0 <= i < j < |ws| && IsSet(ws[i].word) && IsVariable(ws, j) {
      if i > 0 {
        assert IsSet(rest[i - 1].word) && IsVariable(rest, j - 1);
      }
    }
    if i, j :| 0 <= i < j < |rest| && IsSet(rest[i].word) && IsVariable(rest, j) {
      assert IsSet(ws[i + 1].word) && IsVariable(ws, j + 1);
    }
  }

  /** A search command written out sets root to the last word, if it sets it, as a label or an identifier. */
  lemma {:induction false} SearchWritten(name: string, ws: seq<Arg>)
    requires ArgsFit(ws)
    ensures var m, last := Meaning(ws, Start.(how := NamedBy(name))), ws[|ws| - 1].word;
            SearchRoot(name, PrintArgs(ws)) ==
            if !m.setRoot then None
            else match m.how
                 case ByLabel => Some(Take("LABEL=" + last, SHORT))
                 case ByUuid => Some(Take("UUID=" + last, SHORT))
                 case _ => None
  {
    hide PrintArgs, ArgsFit, Search, Lies, NamedBy, Meaning;
    var s := PrintArgs(ws);
    LiesSelf(s);
    SearchWords(s, 0, ws, Start.(how := NamedBy(name)));
    LastLies(ws);
  }

  function TaggedArgs(id: string): seq<Arg> {
    [Arg("--set", true), Arg("root", false), Arg(id, false)]
  }

  /** search.fs_uuid and search.fs_label with --set=root and a name; search.file and a plain search set nothing that way. */
  lemma {:induction false} TaggedSearch(id: string)
    requires ArgFits(Arg(id, false)) && Selects(id) == ByUnknown
    ensures SearchRoot("search.fs_uuid", PrintArgs(TaggedArgs(id))) == Some(Take("UUID=" + id, SHORT))
    ensures SearchRoot("search.fs_label", PrintArgs(TaggedArgs(id))) == Some(Take("LABEL=" + id, SHORT))
    ensures SearchRoot("search.file", PrintArgs(TaggedArgs(id))) == None
    ensures SearchRoot("search", PrintArgs(TaggedArgs(id))) == None
  {
    TaggedFit(id);
    TaggedMeans(id, ByUuid);
    TaggedMeans(id, ByLabel);
    TaggedMeans(id, ByFile);
    TaggedMeans(id, ByUnknown);
    hide PrintArgs, ArgsFit, ArgFits, SearchRoot, Meaning, Selects, Take;
    SearchWritten("search.fs_uuid", TaggedArgs(id));
    SearchWritten("search.fs_label", TaggedArgs(id));
    SearchWritten("search.file", TaggedArgs(id));
    SearchWritten("search", TaggedArgs(id));
  }

  lemma {:induction false} TaggedFit(id: string)
    requires ArgFits(Arg(id, false))
    ensures ArgsFit(TaggedArgs(id))
  {
  }

  lemma {:induction false} TaggedMeans(id: string, how: By)
    requires Selects(id) == ByUnknown
    ensures var m := Meaning(TaggedArgs(id), Start.(how := how)); m.setRoot && m.how == how
  {
    OptionWords();
    hide Selects, Abbreviates, Meaning;
    var ws := TaggedArgs(id);
    MeaningStep(ws, Start.(how := how));
    MeaningStep(ws[1..], Progress(how, true, false));
    MeaningStep(ws[1..][1..], Progress(how, false, true));
    assert ws[1..][1..][1..] == [];
    NothingMeant(TakeWord(id, true, Progress(how, false, true)));
  }
}
