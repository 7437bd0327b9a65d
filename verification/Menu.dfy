// Selection and scrolling of src/menu.c.
module Menu {
  import opened Lists

  datatype Entry = Entry(title: string, isDefault: bool)

  // ---------------------------------------------------------------------------
  // The three variables of menu_main, with list nodes taken as indices
  // ---------------------------------------------------------------------------

  /** The entry on the first row, the selected entry and the row it is on. */
  datatype State = State(start: nat, target: nat, row: int)

  datatype Key = Up | Down | Enter | Other

  /** Moving on to the next entry, as at the start and on KEY_DOWN. */
  function Advance(s: State, n: nat, rows: int): State {
    if s.row + 3 == rows && s.target + 2 < n then State(s.start + 1, s.target + 1, s.row)
    else State(s.start, s.target + 1, s.row + 1)
  }

  function Press(s: State, n: nat, rows: int, key: Key): State {
    match key
    case Up =>
      if s.row <= 6 || s.target == 0 then s
      else if s.row == 7 && s.start > 0 then State(s.start - 1, s.target - 1, s.row)
      else State(s.start, s.target - 1, s.row - 1)
    case Down => if s.target + 1 < n then Advance(s, n, rows) else s
    case _ => s
  }

  /** The index of the first default entry, or of the first entry. */
  function Preselected(entries: seq<Entry>): nat {
    FirstDefault(entries, 0)
  }

  function FirstDefault(entries: seq<Entry>, i: nat): nat
    requires i <= |entries|
    decreases |entries| - i
  {
    if i == |entries| then 0 else if entries[i].isDefault then i else FirstDefault(entries, i + 1)
  }

  function AdvanceTo(d: nat, n: nat, rows: int): State {
    if d == 0 then State(0, 0, 6) else Advance(AdvanceTo(d - 1, n, rows), n, rows)
  }

  function Run(s: State, n: nat, rows: int, keys: seq<Key>): State
    decreases |keys|
  {
    if keys == [] then s else Press(Run(s, n, rows, keys[..|keys| - 1]), n, rows, keys[|keys| - 1])
  }

  /** The selected entry is drawn on its row, inside the box, and the list is scrolled as far as it should be. */
  ghost predicate Inv(s: State, n: nat, rows: int) {
    s.target < n && s.target == s.start + s.row - 6 && 6 <= s.row <= rows - 2
    && (s.row == 6 ==> s.start == 0) && (s.row == rows - 2 ==> s.target == n - 1)
  }

  function Clamp(x: int, n: nat): int { if x < 0 then 0 else if x >= n then n - 1 else x }

  /** Where a walk over the entries gets when it stops at both ends. */
  function Walk(t: nat, n: nat, keys: seq<Key>): int
    decreases |keys|
  {
    if keys == [] then t
    else
      var before := Walk(t, n, keys[..|keys| - 1]);
      match keys[|keys| - 1]
      case Up => Clamp(before - 1, n)
      case Down => Clamp(before + 1, n)
      case _ => before
  }

  lemma {:induction false} AdvanceToInv(d: nat, n: nat, rows: int)
    requires d < n && rows >= 10
    ensures Inv(AdvanceTo(d, n, rows), n, rows) && AdvanceTo(d, n, rows).target == d
    decreases d
  {
    if d > 0 {
      AdvanceToInv(d - 1, n, rows);
    }
  }

  lemma {:induction false} PressInv(s: State, n: nat, rows: int, key: Key)
    requires Inv(s, n, rows) && rows >= 10
    ensures var t := Press(s, n, rows, key);
            Inv(t, n, rows)
            && t.target == (match key case Up => Clamp(s.target - 1, n) case Down => Clamp(s.target + 1, n) case _ => s.target)
  {
  }

  /**
   * On any run of keys from the preselected entry the invariant holds, and the selection moves
   * exactly as over a plain list.
   */
  lemma {:induction false} RunInv(d: nat, n: nat, rows: int, keys: seq<Key>)
    requires d < n && rows >= 10
    ensures var s := Run(AdvanceTo(d, n, rows), n, rows, keys); Inv(s, n, rows) && s.target == Walk(d, n, keys)
    decreases |keys|
  {
    if keys == [] {
      AdvanceToInv(d, n, rows);
    } else {
      RunInv(d, n, rows, keys[..|keys| - 1]);
      PressInv(Run(AdvanceTo(d, n, rows), n, rows, keys[..|keys| - 1]), n, rows, keys[|keys| - 1]);
    }
  }

  /** Ten rows are exactly what the scrolling needs. */
  lemma {:induction false} TenRowsNeeded(rows: int)
    ensures rows >= 10 <==>
            forall d: nat, n: nat, keys :: d < n ==> Inv(Run(AdvanceTo(d, n, rows), n, rows, keys), n, rows)
  {
    if rows >= 10 {
      forall d: nat, n: nat, keys | d < n ensures Inv(Run(AdvanceTo(d, n, rows), n, rows, keys), n, rows) {
        RunInv(d, n, rows, keys);
      }
    } else {
      var keys := if rows == 9 then [Down] else [];
      assert keys != [] ==> keys[..0] == [];
      assert !Inv(Run(AdvanceTo(0, 3, rows), 3, rows, keys), 3, rows);
    }
  }

  /** n keys of one kind. */
  function Repeat(key: Key, n: nat): seq<Key> {
    if n == 0 then [] else Repeat(key, n - 1) + [key]
  }

  lemma {:induction false} WalkRepeat(t: nat, n: nat, k: nat)
    requires t < n
    ensures Walk(t, n, Repeat(Up, k)) == Clamp(t - k, n) && Walk(t, n, Repeat(Down, k)) == Clamp(t + k, n)
    decreases k
  {
    if k > 0 {
      WalkRepeat(t, n, k - 1);
      WalkSnoc(t, n, Repeat(Up, k - 1), Up);
      WalkSnoc(t, n, Repeat(Down, k - 1), Down);
    }
  }

  lemma {:induction false} WalkSnoc(t: nat, n: nat, keys: seq<Key>, key: Key)
    ensures Walk(t, n, keys + [key]) ==
            match key
            case Up => Clamp(Walk(t, n, keys) - 1, n)
            case Down => Clamp(Walk(t, n, keys) + 1, n)
            case _ => Walk(t, n, keys)
  {
    assert (keys + [key])[..|keys|] == keys;
  }

  /** From any preselected entry every entry can be reached. */
  lemma {:induction false} EveryEntryReached(d: nat, n: nat, rows: int, goal: nat) returns (keys: seq<Key>)
    requires d < n && goal < n && rows >= 10
    ensures Run(AdvanceTo(d, n, rows), n, rows, keys).target == goal
  {
    keys := if goal < d then Repeat(Up, d - goal) else Repeat(Down, goal - d);
    RunInv(d, n, rows, keys);
    WalkRepeat(d, n, if goal < d then d - goal else goal - d);
  }

  lemma {:induction false} FirstDefaultIs(entries: seq<Entry>, i: nat)
    requires i <= |entries| && forall k :: 0 <= k < i ==> !entries[k].isDefault
    ensures var d := FirstDefault(entries, i);
            (exists k :: 0 <= k < |entries| && entries[k].isDefault) ==>
              d < |entries| && entries[d].isDefault && forall k :: 0 <= k < d ==> !entries[k].isDefault
    ensures (forall k :: 0 <= k < |entries| ==> !entries[k].isDefault) ==> FirstDefault(entries, i) == 0
    decreases |entries| - i
  {
    if i < |entries| && !entries[i].isDefault {
      FirstDefaultIs(entries, i + 1);
    }
  }

  // ---------------------------------------------------------------------------
  // The rows on the screen
  // ---------------------------------------------------------------------------

  datatype Line = Line(row: int, title: string, highlighted: bool)

  /** What draw_menu puts on the screen. */
  ghost predicate Drawn(lines: seq<Line>, entries: seq<Entry>, start: nat, selected: int, rows: int) {
    |lines| <= |entries| - start
    && (|lines| == |entries| - start || 6 + |lines| == rows - 1 || (lines == [] && rows < 8))
    && forall i :: 0 <= i < |lines| ==> lines[i] == Line(6 + i, entries[start + i].title, 6 + i == selected)
  }

  /** Exactly one line is highlighted, and it shows the entry that ENTER boots. */
  lemma {:induction false} HighlightIsTarget(lines: seq<Line>, entries: seq<Entry>, s: State, rows: int)
    requires Inv(s, |entries|, rows) && Drawn(lines, entries, s.start, s.row, rows)
    ensures s.row - 6 < |lines| && lines[s.row - 6] == Line(s.row, entries[s.target].title, true)
    ensures forall i :: 0 <= i < |lines| && lines[i].highlighted ==> i == s.row - 6
  {
  }

  // ---------------------------------------------------------------------------
  // menu_main
  // ---------------------------------------------------------------------------

  ghost function Values(ns: seq<Node<Entry>>): seq<Entry> { seq(|ns|, i requires 0 <= i < |ns| => ns[i].value) }

  /** The entries booted by ENTER along a run. */
  ghost function Booted(s: State, n: nat, rows: int, keys: seq<Key>): seq<nat>
    decreases |keys|
  {
    if keys == [] then []
    else
      var init, key := keys[..|keys| - 1], keys[|keys| - 1];
      Booted(s, n, rows, init) + (if key == Enter then [Run(s, n, rows, init).target] else [])
  }

  /** ENTER boots the entry that single steps over the list lead to, and no other key boots anything. */
  lemma {:induction false} BootedIs(d: nat, n: nat, rows: int, keys: seq<Key>, key: Key)
    requires d < n && rows >= 10
    ensures var s := AdvanceTo(d, n, rows);
            Booted(s, n, rows, []) == []
            && Booted(s, n, rows, keys + [key]) == Booted(s, n, rows, keys) + if key == Enter then [Walk(d, n, keys)] else []
  {
    RunInv(d, n, rows, keys);
    assert (keys + [key])[..|keys|] == keys;
  }

  class Menu {
    const targets: Node<Entry>
    const rows: int
    ghost const ns: seq<Node<Entry>>
    var start: Node<Entry>
    var target: Node<Entry>
    var row: int
    var timeout: int
    ghost var s: State

    /** The node variables stand at the indices of s. */
    ghost predicate Valid()
      reads this, ns
    {
      Chain(targets, ns) && rows >= 10 && Inv(s, |ns|, rows)
      && start == ns[s.start] && target == ns[s.target] && row == s.row
    }

    /** menu_main up to the first drawing. */
    constructor (targets: Node<Entry>, rows: int, timeout: int, ghost ns: seq<Node<Entry>>)
      requires Chain(targets, ns) && rows >= 10
      ensures Valid() && this.ns == ns && this.rows == rows && this.timeout == timeout
      ensures s == AdvanceTo(Preselected(Values(ns)), |ns|, rows)
    {
      this.targets, this.rows, this.timeout, this.ns := targets, rows, timeout, ns;
      start, target, row := targets, targets, 6;
      s := State(0, 0, 6);
      new;
      AdvanceToInv(0, |ns|, rows);
      SelectDefault();
    }

    /** The search for the default entry. */
    method SelectDefault()
      requires Valid() && s == AdvanceTo(0, |ns|, rows)
      modifies `start, `target, `row, `s
      ensures Valid() && s == AdvanceTo(Preselected(Values(ns)), |ns|, rows)
    {
      var tptr: Node?<Entry> := targets;
      ghost var i := 0;
      while tptr != null
        invariant 0 <= i <= |ns| && tptr == Nth(ns, i)
        invariant Valid() && s == AdvanceTo(0, |ns|, rows)
        invariant FirstDefault(Values(ns), 0) == FirstDefault(Values(ns), i)
        decreases |ns| - i
      {
        if tptr.value.isDefault {
          MoveTo(tptr, i);
          return;
        }
        tptr := tptr.next;
        i := i + 1;
      }
    }

    method MoveTo(tptr: Node<Entry>, ghost i: nat)
      requires Valid() && s == AdvanceTo(0, |ns|, rows) && i < |ns| && ns[i] == tptr
      modifies `start, `target, `row, `s
      ensures Valid() && s == AdvanceTo(i, |ns|, rows)
    {
      while target != tptr
        invariant Valid() && s.target <= i && s == AdvanceTo(s.target, |ns|, rows)
        decreases i - s.target
      {
        AdvanceToInv(s.target + 1, |ns|, rows);
        target := target.next;
        if row + 3 == rows && target.next != null {
          start := start.next;
        } else {
          row := row + 1;
        }
        s := Advance(s, |ns|, rows);
      }
    }

    /** The countdown: whether the preselected entry is booted; polled tells in which seconds a key was waiting. */
    method Countdown(polled: nat -> bool) returns (boot: bool)
      modifies `timeout
      ensures boot <==> old(timeout) >= 0 && forall k :: 0 <= k < old(timeout) ==> !polled(k)
      ensures timeout == if old(timeout) >= 0 then -1 else old(timeout)
    {
      boot := false;
      if timeout >= 0 {
        var second := 0;
        while timeout > 0
          invariant 0 <= timeout && second + timeout == old(timeout)
          invariant forall k :: 0 <= k < second ==> !polled(k)
        {
          if polled(second) {
            timeout := -1;
            return;
          }
          timeout, second := timeout - 1, second + 1;
        }
        timeout := -1;
        boot := true;
      }
    }

    /** One key of the event loop. */
    method HandleKey(key: Key)
      requires Valid()
      modifies `start, `target, `row, `s
      ensures Valid() && s == Press(old(s), |ns|, rows, key)
    {
      PressInv(s, |ns|, rows, key);
      if key == Up && row > 6 {
        target := ListPrev(targets, target, ns, s.target);
        var tptr := ListPrev(targets, start, ns, s.start);
        if row == 7 && tptr != null {
          start := tptr;
        } else {
          row := row - 1;
        }
      }
      if key == Down && target.next != null {
        target := target.next;
        if row + 3 == rows && target.next != null {
          start := start.next;
        } else {
          row := row + 1;
        }
      }
      s := Press(s, |ns|, rows, key);
    }

    /** draw_menu */
    method Draw() returns (lines: seq<Line>)
      requires Valid()
      ensures Drawn(lines, Values(ns), s.start, s.row, rows)
    {
      lines := [];
      var erow, r, ptr: Node?<Entry> := rows - 2, 6, start;
      while ptr != null && r <= erow
        invariant r == 6 + |lines| && s.start + |lines| <= |ns| && 6 <= r <= rows - 1
        invariant ptr == Nth(ns, s.start + |lines|)
        invariant forall i :: 0 <= i < |lines| ==> lines[i] == Line(6 + i, ns[s.start + i].value.title, 6 + i == s.row)
        decreases |ns| - |lines|
      {
        lines := lines + [Line(r, ptr.value.title, r == row)];
        ptr := ptr.next;
        r := r + 1;
      }
    }

    /** The event loop over the keys typed, and the entries it boots. */
    method EventLoop(keys: seq<Key>) returns (booted: seq<Node<Entry>>)
      requires Valid()
      modifies `start, `target, `row, `s
      ensures Valid() && s == Run(old(s), |ns|, rows, keys)
      ensures var ks := Booted(old(s), |ns|, rows, keys);
              |booted| == |ks| && forall i :: 0 <= i < |ks| ==> ks[i] < |ns| && booted[i] == ns[ks[i]]
    {
      booted := [];
      var i := 0;
      ghost var s0 := s;
      while i < |keys|
        invariant 0 <= i <= |keys| && Valid() && s == Run(s0, |ns|, rows, keys[..i])
        invariant var ks := Booted(s0, |ns|, rows, keys[..i]);
                  |booted| == |ks| && forall i :: 0 <= i < |ks| ==> ks[i] < |ns| && booted[i] == ns[ks[i]]
      {
        assert keys[..i + 1][..i] == keys[..i];
        HandleKey(keys[i]);
        if keys[i] == Enter {
          booted := booted + [target];
        }
        i := i + 1;
      }
      assert keys[..i] == keys;
    }
  }
}
