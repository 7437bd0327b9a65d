// read_cmd of src/shell.c: the command line as a pair of strings around the cursor, the buffer that
// implements it, and the history of lines entered.
module LineEditor {
  import opened CStrings
  import opened CBuffers

  const CMDBUF_SIZE := 1024
  const HISTORY_SIZE := 32

  /** What console_getchar delivers, Enter and Tab aside.  Other: a negative code without a meaning here. */
  datatype Key = Up | Down | Left | Right | Home | End | Delete | Backspace | Other | Char(c: char)

  predicate Typed(key: Key) {
    key.Char? ==> key.c !in {NUL, '\n', '\t'}
  }

  /** The text before and behind the cursor, and the history entry last recalled, or -1. */
  datatype Line = Line(left: string, right: string, hnum: int) {
    function Text(): string { left + right }
  }

  const Blank := Line("", "", -1)

  // ---------------------------------------------------------------------------
  // The editor on strings
  // ---------------------------------------------------------------------------

  /** The effect of one key, with the history given newest first. */
  function Step(past: seq<string>, l: Line, key: Key): Line {
    match key
    case Left => if l.left == "" then l else
      l.(left := l.left[..|l.left| - 1], right := [l.left[|l.left| - 1]] + l.right)
    case Right => if l.right == "" then l else l.(left := l.left + [l.right[0]], right := l.right[1..])
    case Home => l.(left := "", right := l.left + l.right)
    case End => l.(left := l.left + l.right, right := "")
    case Backspace => if l.left == "" then l else l.(left := l.left[..|l.left| - 1])
    case Delete => if l.right == "" then l else l.(right := l.right[1..])
    case Up => if 0 <= l.hnum + 1 < |past| then Line(past[l.hnum + 1], "", l.hnum + 1) else l
    case Down => if l.hnum < 0 then l else if 0 <= l.hnum - 1 < |past| then Line(past[l.hnum - 1], "", l.hnum - 1) else Blank
    case Char(c) => if |l.left| + |l.right| + 2 < CMDBUF_SIZE then l.(left := l.left + [c]) else l
    case Other => l
  }

  function Run(past: seq<string>, l: Line, keys: seq<Key>): Line
    decreases |keys|
  {
    if keys == [] then l else Step(past, Run(past, l, keys[..|keys| - 1]), keys[|keys| - 1])
  }

  /** strspn(text, " ") characters are dropped from the line returned. */
  function DropSpaces(s: string): string {
    if s != "" && s[0] == ' ' then DropSpaces(s[1..]) else s
  }

  /** The history after a line: entered in front unless blank, and the oldest of 32 is forgotten. */
  function Remember(past: seq<string>, text: string): seq<string> {
    if DropSpaces(text) == "" then past
    else [text] + if |past| < HISTORY_SIZE then past else past[..HISTORY_SIZE - 1]
  }

  // ---------------------------------------------------------------------------
  // What every run keeps
  // ---------------------------------------------------------------------------

  predicate FitsLine(s: string) { |s| <= CMDBUF_SIZE - 2 && NUL !in s }

  /** The history holds at most 32 lines, each of them one that was entered. */
  ghost predicate History(past: seq<string>) {
    |past| <= HISTORY_SIZE && forall i :: 0 <= i < |past| ==> FitsLine(past[i]) && DropSpaces(past[i]) != ""
  }

  ghost predicate Inv(past: seq<string>, l: Line) {
    |l.left| + |l.right| <= CMDBUF_SIZE - 2 && NUL !in l.left && NUL !in l.right && -1 <= l.hnum < |past|
  }

  ghost predicate AllTyped(keys: seq<Key>) {
    forall k :: 0 <= k < |keys| ==> Typed(keys[k])
  }

  lemma {:induction false} StepInv(past: seq<string>, l: Line, key: Key)
    requires History(past) && Inv(past, l) && Typed(key)
    ensures Inv(past, Step(past, l, key))
  {
    hide DropSpaces;
    if key == Up && l.hnum + 1 < |past| {
      assert FitsLine(past[l.hnum + 1]);
    }
    if key == Down && l.hnum >= 1 {
      assert FitsLine(past[l.hnum - 1]);
    }
  }

  lemma {:induction false} RunInv(past: seq<string>, l: Line, keys: seq<Key>)
    requires History(past) && Inv(past, l) && AllTyped(keys)
    ensures Inv(past, Run(past, l, keys)) && |Run(past, l, keys).Text()| <= 1022
    decreases |keys|
  {
    if keys != [] {
      var n := |keys| - 1;
      RunInv(past, l, keys[..n]);
      StepInv(past, Run(past, l, keys[..n]), keys[n]);
    }
  }

  lemma {:induction false} RunSnoc(past: seq<string>, l: Line, keys: seq<Key>, key: Key)
    ensures Run(past, l, keys + [key]) == Step(past, Run(past, l, keys), key)
  {
    assert (keys + [key])[..|keys|] == keys;
  }

  // ---------------------------------------------------------------------------
  // What the keys undo, and what can be entered
  // ---------------------------------------------------------------------------

  /** From a recalled entry with an older one behind it, Up and Down come back to that entry. */
  lemma {:induction false} UpThenDown(past: seq<string>, keys: seq<Key>)
    requires History(past) && AllTyped(keys)
    requires var l := Run(past, Blank, keys); 0 <= l.hnum && l.hnum + 1 < |past|
    ensures var h := Run(past, Blank, keys).hnum;
            Run(past, Blank, keys + [Up, Down]) == Line(past[h], "", h)
  {
    assert keys + [Up, Down] == keys + [Up] + [Down];
    RunSnoc(past, Blank, keys, Up);
    RunSnoc(past, Blank, keys + [Up], Down);
  }

  /** The same key n times. */
  function Times(key: Key, n: nat): seq<Key> {
    if n == 0 then [] else Times(key, n - 1) + [key]
  }

  /** n times Up shows entry n, counted from the newest, or stays at the oldest. */
  lemma {:induction false} UpReaches(past: seq<string>, n: nat)
    requires past != []
    ensures Run(past, Blank, Times(Up, n)) == Recalled(past, n)
  {
    hide Run;
    if n > 0 {
      UpReaches(past, n - 1);
      RunSnoc(past, Blank, Times(Up, n - 1), Up);
    } else {
      RunNone(past, Blank);
    }
  }

  /** The n-th newest entry of the history, or the oldest. */
  function Recalled(past: seq<string>, n: nat): Line
    requires past != []
  {
    var h := if n <= |past| then n - 1 else |past| - 1;
    if n == 0 then Blank else Line(past[h], "", h)
  }

  lemma {:induction false} RunNone(past: seq<string>, l: Line)
    ensures Run(past, l, []) == l
  {
  }

  /** Delete does what Right and Backspace do, and a character is taken back by Backspace. */
  lemma {:induction false} EraseLaws(past: seq<string>, l: Line, c: char)
    ensures l.right != "" ==> Step(past, l, Delete) == Run(past, l, [Right, Backspace])
    ensures |l.Text()| < CMDBUF_SIZE - 2 ==> Run(past, l, [Char(c), Backspace]) == l
  {
    hide Run;
    TwoKeys(past, l, Right, Backspace);
    TwoKeys(past, l, Char(c), Backspace);
    if l.right != "" {
      assert (l.left + [l.right[0]])[..|l.left|] == l.left;
    }
    assert (l.left + [c])[..|l.left|] == l.left;
  }

  lemma {:induction false} MoveLaws(past: seq<string>, l: Line)
    ensures l.left != "" ==> Run(past, l, [Left, Right]) == l
    ensures l.right != "" ==> Run(past, l, [Right, Left]) == l
  {
    hide Run;
    TwoKeys(past, l, Left, Right);
    TwoKeys(past, l, Right, Left);
    if l.left != "" {
      var last := l.left[|l.left| - 1];
      assert l.left == l.left[..|l.left| - 1] + [last];
      assert ([last] + l.right)[1..] == l.right;
    }
    if l.right != "" {
      var ahead := l.left + [l.right[0]];
      assert ahead[..|ahead| - 1] == l.left && l.right == [l.right[0]] + l.right[1..];
    }
  }

  lemma {:induction false} TwoKeys(past: seq<string>, l: Line, a: Key, b: Key)
    ensures Run(past, l, [a, b]) == Step(past, Step(past, l, a), b)
  {
    assert [a, b] == [] + [a] + [b];
    RunSnoc(past, l, [], a);
    RunSnoc(past, l, [] + [a], b);
  }

  /** Home and End go as far as Left and Right can. */
  lemma {:induction false} HomeEnd(past: seq<string>, l: Line)
    ensures Step(past, l, Home) == Run(past, l, Times(Left, |l.left|))
    ensures Step(past, l, End) == Run(past, l, Times(Right, |l.right|))
  {
    hide Run;
    Lefts(past, l, |l.left|);
    Rights(past, l, |l.right|);
  }

  lemma {:induction false} Lefts(past: seq<string>, l: Line, n: nat)
    requires n <= |l.left|
    ensures Run(past, l, Times(Left, n)) == l.(left := l.left[..|l.left| - n], right := l.left[|l.left| - n..] + l.right)
  {
    hide Run;
    if n == 0 {
      RunNone(past, l);
    } else {
      Lefts(past, l, n - 1);
      RunSnoc(past, l, Times(Left, n - 1), Left);
    }
  }

  lemma {:induction false} Rights(past: seq<string>, l: Line, n: nat)
    requires n <= |l.right|
    ensures Run(past, l, Times(Right, n)) == l.(left := l.left + l.right[..n], right := l.right[n..])
  {
    hide Run;
    if n == 0 {
      RunNone(past, l);
    } else {
      Rights(past, l, n - 1);
      RunSnoc(past, l, Times(Right, n - 1), Right);
    }
  }

  /** At the ends of the line, on a full line, and at the ends of the history keys do nothing; Down from the newest entry clears. */
  lemma {:induction false} EdgeKeys(past: seq<string>, l: Line, c: char)
    requires Inv(past, l)
    ensures Step(past, l, Other) == l
    ensures l.left == "" ==> Step(past, l, Left) == l && Step(past, l, Backspace) == l
    ensures l.right == "" ==> Step(past, l, Right) == l && Step(past, l, Delete) == l
    ensures |l.Text()| == 1022 ==> Step(past, l, Char(c)) == l
    ensures l.hnum == |past| - 1 ==> Step(past, l, Up) == l
    ensures l.hnum == -1 ==> Step(past, l, Down) == l
    ensures l.hnum == 0 ==> Step(past, l, Down) == Line("", "", -1)
  {
  }

  /** Only spaces are dropped, and only in front. */
  lemma {:induction false} DropsSpaces(spaces: string, s: string)
    requires (forall k :: 0 <= k < |spaces| ==> spaces[k] == ' ') && (s != "" ==> s[0] != ' ')
    ensures DropSpaces(spaces + s) == s
    decreases |spaces|
  {
    if spaces == "" {
      assert spaces + s == s;
    } else {
      assert (spaces + s)[1..] == spaces[1..] + s;
      DropsSpaces(spaces[1..], s);
    }
  }

  function Typing(s: string): seq<Key> {
    seq(|s|, i requires 0 <= i < |s| => Char(s[i]))
  }

  lemma {:induction false} TypingRun(past: seq<string>, s: string)
    requires |s| <= 1022
    ensures Run(past, Blank, Typing(s)) == Line(s, "", -1)
  {
    if s != "" {
      var n := |s| - 1;
      TypingRun(past, s[..n]);
      assert Typing(s) == Typing(s[..n]) + [Char(s[n])];
      RunSnoc(past, Blank, Typing(s[..n]), Char(s[n]));
      assert s == s[..n] + [s[n]];
    }
  }

  /** Every line of up to 1022 characters can be entered, with the cursor at every place. */
  lemma {:induction false} EveryLineReached(past: seq<string>, left: string, right: string)
    requires |left| + |right| <= 1022
    ensures Run(past, Blank, Typing(left + right) + Times(Left, |right|)) == Line(left, right, -1)
    decreases |right|
  {
    hide Run, Typing, Step;
    var typed := Typing(left + right);
    if right == "" {
      TypingRun(past, left);
      assert left + right == left;
      assert typed + Times(Left, |right|) == typed;
    } else {
      var n := |right| - 1;
      EveryLineReached(past, left + [right[0]], right[1..]);
      assert left + [right[0]] + right[1..] == left + right;
      assert typed + Times(Left, |right|) == typed + Times(Left, n) + [Left];
      RunSnoc(past, Blank, typed + Times(Left, n), Left);
      LeftOnce(past, left, right);
    }
  }

  lemma {:induction false} LeftOnce(past: seq<string>, left: string, right: string)
    requires right != ""
    ensures Step(past, Line(left + [right[0]], right[1..], -1), Left) == Line(left, right, -1)
  {
    assert right == [right[0]] + right[1..];
    assert (left + [right[0]])[..|left|] == left;
  }

  // ---------------------------------------------------------------------------
  // Sessions
  // ---------------------------------------------------------------------------

  /** The texts of a session, each edited with the history the earlier ones left. */
  function Texts(past: seq<string>, session: seq<seq<Key>>): seq<string>
    decreases |session|
  {
    if session == [] then [] else
      var text := Run(past, Blank, session[0]).Text();
      [text] + Texts(Remember(past, text), session[1..])
  }

  function After(past: seq<string>, session: seq<seq<Key>>): seq<string>
    decreases |session|
  {
    if session == [] then past else After(Remember(past, Run(past, Blank, session[0]).Text()), session[1..])
  }

  /** The non-blank texts, newest first. */
  function Newest(texts: seq<string>): seq<string>
    decreases |texts|
  {
    if texts == [] then [] else
      Newest(texts[1..]) + if DropSpaces(texts[0]) == "" then [] else [texts[0]]
  }

  function First32(lines: seq<string>): seq<string> {
    if |lines| <= 32 then lines else lines[..32]
  }

  lemma {:induction false} RememberFirst(past: seq<string>, text: string)
    requires |past| <= HISTORY_SIZE
    ensures Remember(past, text) == First32((if DropSpaces(text) == "" then [] else [text]) + past)
  {
    hide DropSpaces;
    assert [] + past == past;
    if |past| == HISTORY_SIZE {
      assert ([text] + past)[..HISTORY_SIZE] == [text] + past[..HISTORY_SIZE - 1];
    }
  }

  lemma {:induction false} FirstOfFirst(a: seq<string>, b: seq<string>)
    ensures First32(a + First32(b)) == First32(a + b)
  {
  }

  /** The history after a session: the last 32 lines entered that were not blank, newest first and without a gap. */
  lemma {:induction false} SessionHistory(past: seq<string>, session: seq<seq<Key>>)
    requires |past| <= HISTORY_SIZE
    ensures After(past, session) == First32(Newest(Texts(past, session)) + past)
    decreases |session|
  {
    hide DropSpaces, First32;
    if session == [] {
      FewLines(past);
      assert [] + past == past;
    } else {
      var text := Run(past, Blank, session[0]).Text();
      var next := Remember(past, text);
      var own := if DropSpaces(text) == "" then [] else [text];
      var later := Newest(Texts(next, session[1..]));
      RememberFirst(past, text);
      FirstShort(own + past);
      SessionHistory(next, session[1..]);
      FirstOfFirst(later, own + past);
      assert ([text] + Texts(next, session[1..]))[1..] == Texts(next, session[1..]);
      assert later + own + past == later + (own + past);
    }
  }

  lemma {:induction false} FirstShort(lines: seq<string>)
    ensures |First32(lines)| <= HISTORY_SIZE
  {
  }

  lemma {:induction false} FewLines(past: seq<string>)
    requires |past| <= HISTORY_SIZE
    ensures First32(past) == past
  {
  }

  lemma {:induction false} RememberHistory(past: seq<string>, text: string)
    requires History(past) && FitsLine(text)
    ensures History(Remember(past, text))
  {
    hide DropSpaces;
  }

  // ---------------------------------------------------------------------------
  // The buffer
  // ---------------------------------------------------------------------------

  class Editor {
    const buf: array<char>
    const history: array<Option<string>>
    var cmdlen: nat
    var offset: nat
    var hnum: int
    /** The line the buffer stands for, and the history lines. */
    ghost var line: Line
    ghost const past: seq<string>

    ghost predicate Valid()
      reads this, buf, history
    {
      buf.Length == CMDBUF_SIZE && Inv(past, line) && History(past) && Kept(history, past)
      && offset == |line.left| && cmdlen == offset + |line.right| && hnum == line.hnum
      && buf[cmdlen] == NUL
      && (forall k :: 0 <= k < offset ==> buf[k] == line.left[k])
      && (forall k :: offset <= k < cmdlen ==> buf[k] == line.right[k - offset])
    }

    /** char cmdbuf[CMDBUF_SIZE] = {'\0'} and the counters beside it. */
    constructor (history: array<Option<string>>, ghost past: seq<string>)
      requires History(past) && Kept(history, past)
      ensures Valid() && fresh(buf) && this.history == history && this.past == past && line == Blank
    {
      this.history := history;
      this.past := past;
      buf := new char[CMDBUF_SIZE](_ => NUL);
      cmdlen, offset, hnum := 0, 0, -1;
      line := Blank;
    }

    /** The first NUL of the buffer is the one at cmdlen, and cmdlen leaves two bytes. */
    lemma {:induction false} TextHeld()
      requires Valid()
      ensures Holds(buf, line.Text()) && |line.Text()| == cmdlen <= CMDBUF_SIZE - 2 && offset <= cmdlen
    {
      hide DropSpaces, Kept, History;
      var t := line.left + line.right;
      forall k | 0 <= k < |t| ensures buf[k] == t[k] && t[k] != NUL {
        assert t[k] == if k < offset then line.left[k] else line.right[k - offset];
      }
    }

    method EraseBack()
      requires Valid()
      modifies this, buf
      ensures Valid() && line == Step(past, old(line), Backspace)
    {
      hide DropSpaces, Kept, History;
      if offset > 0 {
        MemMove(buf, offset - 1, offset, cmdlen - offset + 1);
        offset := offset - 1;
        cmdlen := cmdlen - 1;
      }
      line := Step(past, line, Backspace);
    }

    method EraseForward()
      requires Valid()
      modifies this, buf
      ensures Valid() && line == Step(past, old(line), Delete)
    {
      hide DropSpaces, Kept, History;
      if offset < cmdlen {
        MemMove(buf, offset, offset + 1, cmdlen - offset + 1);
        cmdlen := cmdlen - 1;
      }
      line := Step(past, line, Delete);
    }

    method InsertChar(c: char)
      requires Valid() && Typed(Char(c))
      modifies this, buf
      ensures Valid() && line == Step(past, old(line), Char(c))
    {
      hide DropSpaces, Kept, History;
      if cmdlen + 2 < CMDBUF_SIZE {
        MemMove(buf, offset + 1, offset, cmdlen - offset);
        buf[offset] := c;
        cmdlen := cmdlen + 1;
        buf[cmdlen] := NUL;
        offset := offset + 1;
      }
      line := Step(past, line, Char(c));
    }

    method MoveCursor(key: Key)
      requires Valid() && key in {Left, Right, Home, End}
      modifies this
      ensures Valid() && line == Step(past, old(line), key)
    {
      hide DropSpaces, Kept, History;
      if key == Left && offset > 0 {
        offset := offset - 1;
      }
      if key == Right && cmdlen - offset > 0 {
        offset := offset + 1;
      }
      if key == Home {
        offset := 0;
      }
      if key == End {
        offset := cmdlen;
      }
      line := Step(past, line, key);
    }

    method Recall(key: Key)
      requires Valid() && key in {Up, Down}
      modifies this, buf
      ensures Valid() && line == Step(past, old(line), key)
    {
      hide DropSpaces;
      ghost var was := line;
      if key == Up && hnum + 1 < HISTORY_SIZE && history[hnum + 1].Some? {
        hnum := hnum + 1;
        cmdlen := StrLCpy(buf, history[hnum].value);
        offset := cmdlen;
      }
      if key == Down && hnum >= 0 {
        hnum := hnum - 1;
        if hnum == -1 {
          buf[0] := NUL;
          offset, cmdlen := 0, 0;
        } else {
          cmdlen := StrLCpy(buf, history[hnum].value);
          offset := cmdlen;
        }
      }
      line := Step(past, line, key);
      StepInv(past, was, key);
    }

    /** One turn of the loop in read_cmd. */
    method HandleKey(key: Key)
      requires Valid() && Typed(key)
      modifies this, buf
      ensures Valid() && line == Step(past, old(line), key)
    {
      match key
      case Backspace => EraseBack();
      case Delete => EraseForward();
      case Up => Recall(key);
      case Down => Recall(key);
      case Char(c) => InsertChar(c);
      case Other =>
      case _ => MoveCursor(key);
    }
  }

  /** history[0..31]: the lines kept, newest first, and NULL behind them. */
  ghost predicate Kept(history: array<Option<string>>, past: seq<string>)
    reads history
  {
    history.Length == HISTORY_SIZE && |past| <= HISTORY_SIZE
    && forall i :: 0 <= i < HISTORY_SIZE ==> history[i] == Slot(past, i)
  }

  /** What the history array holds at an index. */
  function Slot(past: seq<string>, i: nat): Option<string> {
    if i < |past| then Some(past[i]) else None
  }

  lemma {:induction false} SlotsShift(past: seq<string>, text: string)
    requires |past| <= HISTORY_SIZE && DropSpaces(text) != ""
    ensures var now := Remember(past, text);
            |now| <= HISTORY_SIZE && Slot(now, 0) == Some(text)
            && forall i: nat :: i + 1 < HISTORY_SIZE ==> Slot(now, i + 1) == Slot(past, i)
  {
    hide DropSpaces;
  }

  method SkipSpaces(s: string) returns (r: string)
    ensures r == DropSpaces(s)
  {
    var i := 0;
    while i < |s| && s[i] == ' '
      invariant i <= |s| && DropSpaces(s[i..]) == DropSpaces(s)
    {
      i := i + 1;
    }
    r := s[i..];
  }

  /** A line enters the history. */
  method Push(history: array<Option<string>>, text: string, ghost past: seq<string>)
    requires Kept(history, past) && DropSpaces(text) != ""
    modifies history
    ensures Kept(history, Remember(past, text))
  {
    hide DropSpaces;
    var i := HISTORY_SIZE - 1;
    while i > 0
      invariant 0 <= i < HISTORY_SIZE
      invariant forall k :: i < k < HISTORY_SIZE ==> history[k] == old(history[k - 1])
      invariant forall k :: 0 <= k <= i ==> history[k] == old(history[k])
    {
      history[i] := history[i - 1];
      i := i - 1;
    }
    history[0] := Some(text);
    SlotsShift(past, text);
    ghost var now := Remember(past, text);
    hide Remember, Slot;
    forall k | 0 <= k < HISTORY_SIZE ensures history[k] == Slot(now, k) {
      if k > 0 {
        assert Slot(now, (k - 1) + 1) == Slot(past, k - 1);
      }
    }
  }

  /** read_cmd, given the keys pressed before Enter: the line without leading blanks, and the new history. */
  method ReadCmd(history: array<Option<string>>, keys: seq<Key>, ghost past: seq<string>) returns (cmd: string)
    requires History(past) && Kept(history, past) && AllTyped(keys)
    modifies history
    ensures var text := Run(past, Blank, keys).Text();
            FitsLine(text) && cmd == DropSpaces(text)
            && History(Remember(past, text)) && Kept(history, Remember(past, text))
  {
    hide DropSpaces;
    var e := new Editor(history, past);
    var i := 0;
    while i < |keys|
      invariant 0 <= i <= |keys| && fresh(e) && fresh(e.buf) && e.Valid() && e.history == history && e.past == past
      invariant e.line == Run(past, Blank, keys[..i])
    {
      e.HandleKey(keys[i]);
      RunSnoc(past, Blank, keys[..i], keys[i]);
      assert keys[..i + 1] == keys[..i] + [keys[i]];
      i := i + 1;
    }
    assert keys[..i] == keys;
    ghost var line := Run(past, Blank, keys);
    e.TextHeld();
    var text := Contents(e.buf, line.Text());
    RememberHistory(past, text);
    cmd := SkipSpaces(text);
    if cmd != "" {
      Push(history, text, past);
    }
  }
}
