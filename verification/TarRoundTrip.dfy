// What extracting an archive of files gives back.
module TarRoundTrip {
  import opened CStrings
  import opened Paths
  import opened TarFormat
  import opened TarFs
  import opened Tar
  import opened TarArchive

  // ---------------------------------------------------------------------------
  // Where members go
  // ---------------------------------------------------------------------------

  /** k is a directory on the way to a member. */
  ghost predicate OnWay(dest: string, name: string, k: Key) {
    var cs := Target(dest, name);
    exists n :: 0 <= n < |cs| && Lead(cs, n) == k
  }

  lemma {:induction false} WalkLead(fs: Fs, cs: seq<string>, n: nat)
    requires n <= |cs| && forall m :: 0 <= m < n ==> IsDir(fs, Lead(cs, m))
    ensures Walk(fs, cs, n) == Some(Lead(cs, n))
    decreases n
  {
    if n > 0 {
      WalkLead(fs, cs, n - 1);
    }
  }

  /** The directories on the way of the first n components have been made, and nothing else. */
  ghost predicate Made(fs: Fs, r: Fs, cs: seq<string>, n: nat)
    requires n <= |cs|
  {
    (forall m :: 0 <= m <= n ==> IsDir(r, Lead(cs, m)))
    && (forall k :: k in fs ==> k in r && r[k] == fs[k])
    && (forall k :: k in r && k !in fs ==> r[k] == Dir && exists m :: 0 <= m <= n && Lead(cs, m) == k)
  }

  lemma {:induction false} MkdirsOpen(fs: Fs, cs: seq<string>, n: nat)
    requires n <= |cs| && forall m :: 0 <= m <= n ==> IsDir(fs, Lead(cs, m)) || Lead(cs, m) !in fs
    ensures Mkdirs(fs, cs, n).0 && Made(fs, Mkdirs(fs, cs, n).1, cs, n)
    decreases n
  {
    hide Walk, Made, Lead;
    if n > 0 {
      MkdirsOpen(fs, cs, n - 1);
      MadeStep(fs, Mkdirs(fs, cs, n - 1).1, cs, n);
    } else {
      NothingMade(fs, cs);
    }
  }

  lemma {:induction false} NothingMade(fs: Fs, cs: seq<string>)
    ensures Made(fs, fs, cs, 0)
  {
  }

  lemma {:induction false} MadeStep(fs: Fs, r: Fs, cs: seq<string>, n: nat)
    requires 0 < n <= |cs| && Made(fs, r, cs, n - 1)
    requires IsDir(fs, Lead(cs, n)) || Lead(cs, n) !in fs
    ensures Mkdir(r, cs, n).Some? && Made(fs, Mkdir(r, cs, n).value, cs, n)
  {
    hide Walk, Lead;
    WalkLead(r, cs, n);
    var k, s := Lead(cs, n), Mkdir(r, cs, n).value;
    assert s == if IsNode(r, k) then r else r[k := Dir];
    forall m | 0 <= m <= n ensures IsDir(s, Lead(cs, m)) {
      if m < n { assert IsDir(r, Lead(cs, m)); }
    }
  }

  /** Nothing is in the way of a member: its path is free, and no file stands where a directory has to be. */
  ghost predicate Open(fs: Fs, dest: string, name: string) {
    var cs, key := Target(dest, name), KeyOf(dest, name);
    cs != [] && key != [] && key !in fs && key != TMP && !OnWay(dest, name, key) && !OnWay(dest, name, TMP)
    && (forall k :: OnWay(dest, name, k) ==> IsDir(fs, k) || ('/' in name && k !in fs))
  }

  /** The file system with one more member in it. */
  ghost predicate Added(fs: Fs, r: Fs, dest: string, m: Item) {
    var key := KeyOf(dest, m.name);
    IsTree(r) && TMP !in r && key in r && r[key] == File(m.content)
    && (forall k :: OnWay(dest, m.name, k) ==> IsDir(r, k))
    && (forall k :: k in fs && k != TMP ==> k in r && r[k] == fs[k])
    && (forall k :: k in r && k != key && k !in fs ==> r[k] == Dir && OnWay(dest, m.name, k))
  }

  lemma {:induction false} PreparedOpen(fs: Fs, dest: string, name: string)
    requires Open(fs, dest, name)
    ensures var cs, m := Target(dest, name), Prepared(fs, dest, name);
            m.0 && Made(fs, m.1, cs, |cs| - 1)
  {
    hide Target;
    var cs := Target(dest, name);
    forall m | 0 <= m < |cs| ensures IsDir(fs, Lead(cs, m)) || ('/' in name && Lead(cs, m) !in fs) {
      assert OnWay(dest, name, Lead(cs, m));
    }
    if '/' in name {
      MkdirsOpen(fs, cs, |cs| - 1);
    }
  }

  lemma {:induction false} PlaceOpen(fs: Fs, cs: seq<string>, content: seq<Byte>)
    requires IsTree(fs) && !IsDir(fs, TMP) && cs != [] && forall m :: 0 <= m < |cs| ==> IsDir(fs, Lead(cs, m))
    requires var key := Lead(cs, |cs|); key != [] && key !in fs && key != TMP
    ensures Place(fs, cs, true, content) == (None, (fs - {TMP})[Lead(cs, |cs|) := File(content)])
  {
    hide Walk, Lead, IsTree, Grows;
    WalkLead(fs, cs, |cs|);
    var t := fs[TMP := File(content)];
    WriteTmp(fs, content);
    WalkSameDirs(fs, t, cs, |cs|);
    assert t - {TMP} == fs - {TMP};
  }

  /** One member in an open place. */
  lemma {:induction false} StepOpen(fs: Fs, dest: string, m: Item)
    requires IsTree(fs) && !IsDir(fs, TMP) && Open(fs, dest, m.name)
    ensures var r := MemberStep(fs, dest, m.name, true, m.content); r.0.None? && Added(fs, r.1, dest, m)
  {
    hide Target, Place, Mkdirs, IsTree, Walk, Exists;
    var cs, key := Target(dest, m.name), KeyOf(dest, m.name);
    var p := Prepared(fs, dest, m.name).1;
    PreparedOpen(fs, dest, m.name);
    PreparedGrows(fs, dest, m.name);
    forall k | k in p && k !in fs ensures OnWay(dest, m.name, k) && p[k] == Dir {
      var n :| 0 <= n <= |cs| - 1 && Lead(cs, n) == k;
    }
    PlaceOpen(p, cs, m.content);
    StepGrows(fs, dest, m.name, true, m.content);
  }

  // ---------------------------------------------------------------------------
  // The round trip
  // ---------------------------------------------------------------------------

  /** Neither member is, or lies below, the other. */
  ghost predicate Apart(dest: string, a: string, b: string) {
    KeyOf(dest, a) != KeyOf(dest, b) && !OnWay(dest, b, KeyOf(dest, a)) && !OnWay(dest, a, KeyOf(dest, b))
  }

  ghost predicate Ready(fs: Fs, dest: string, items: seq<Item>) {
    IsTree(fs) && !IsDir(fs, TMP)
    && (forall i :: 0 <= i < |items| ==> Open(fs, dest, items[i].name))
    && (forall i, j :: 0 <= i < j < |items| ==> Apart(dest, items[i].name, items[j].name))
  }

  /** r is fs with exactly the items in it, and the directories they need. */
  ghost predicate AllAdded(fs: Fs, r: Fs, dest: string, items: seq<Item>) {
    IsTree(r) && (items != [] ==> TMP !in r)
    && (forall i :: 0 <= i < |items| ==>
          var key := KeyOf(dest, items[i].name); key in r && r[key] == File(items[i].content))
    && (forall k :: k in fs && k != TMP ==> k in r && r[k] == fs[k])
    && (forall k :: k in r && k !in fs ==>
          SomeKey(dest, items, k) || (r[k] == Dir && SomeWay(dest, items, k)))
  }

  ghost predicate SomeKey(dest: string, items: seq<Item>, k: Key) {
    exists i :: 0 <= i < |items| && k == KeyOf(dest, items[i].name)
  }

  ghost predicate SomeWay(dest: string, items: seq<Item>, k: Key) {
    exists i :: 0 <= i < |items| && OnWay(dest, items[i].name, k)
  }

  lemma {:induction false} NoneOfNone(dest: string, k: Key)
    ensures !SomeKey(dest, [], k) && !SomeWay(dest, [], k)
  {
  }

  lemma {:induction false} SomeOfRest(dest: string, items: seq<Item>, k: Key)
    requires items != []
    ensures SomeKey(dest, items, k) <==> k == KeyOf(dest, items[0].name) || SomeKey(dest, items[1..], k)
    ensures SomeWay(dest, items, k) <==> OnWay(dest, items[0].name, k) || SomeWay(dest, items[1..], k)
  {
    hide OnWay, KeyOf;
    var rest := items[1..];
    assert forall i :: 0 <= i < |rest| ==> rest[i] == items[i + 1];
    assert forall i :: 0 < i < |items| ==> items[i] == rest[i - 1];
  }

  lemma {:induction false} OpenKept(fs: Fs, r: Fs, dest: string, m: Item, other: string)
    requires Added(fs, r, dest, m) && Open(fs, dest, other) && Apart(dest, m.name, other)
    ensures Open(r, dest, other)
  {
    hide OnWay, KeyOf, Target;
  }

  lemma {:induction false} ReadyKept(fs: Fs, r: Fs, dest: string, items: seq<Item>)
    requires items != [] && Ready(fs, dest, items) && Added(fs, r, dest, items[0])
    ensures Ready(r, dest, items[1..])
  {
    hide Open, Apart, OnWay, KeyOf, Target;
    var rest := items[1..];
    forall i | 0 <= i < |rest| ensures Open(r, dest, rest[i].name) {
      assert rest[i] == items[i + 1];
      OpenKept(fs, r, dest, items[0], items[i + 1].name);
    }
    forall i, j | 0 <= i < j < |rest| ensures Apart(dest, rest[i].name, rest[j].name) {
      assert rest[i] == items[i + 1] && rest[j] == items[j + 1];
    }
  }

  lemma {:induction false} AddedThenRest(fs: Fs, mid: Fs, r: Fs, dest: string, items: seq<Item>)
    requires items != [] && Added(fs, mid, dest, items[0]) && AllAdded(mid, r, dest, items[1..])
    requires KeyOf(dest, items[0].name) != TMP
    ensures AllAdded(fs, r, dest, items)
  {
    hide OnWay, KeyOf, Target, IsTree, SomeKey, SomeWay;
    var rest := items[1..];
    forall i | 0 <= i < |items|
      ensures var key := KeyOf(dest, items[i].name); key in r && r[key] == File(items[i].content)
    {
      if i > 0 { assert items[i] == rest[i - 1]; }
    }
    NoneOfNone(dest, TMP);
    forall k | k in r && k !in fs
      ensures SomeKey(dest, items, k) || (r[k] == Dir && SomeWay(dest, items, k))
    {
      SomeOfRest(dest, items, k);
    }
  }

  lemma {:induction false} UnpackReady(fs: Fs, dest: string, items: seq<Item>)
    requires Ready(fs, dest, items)
    ensures var r := Unpack(fs, dest, items); r.0 == Done && AllAdded(fs, r.1, dest, items)
    decreases |items|
  {
    hide Open, Added, Apart, MemberStep, KeyOf, Target, OnWay;
    if items != [] {
      var step := MemberStep(fs, dest, items[0].name, true, items[0].content);
      StepOpen(fs, dest, items[0]);
      ReadyKept(fs, step.1, dest, items);
      UnpackReady(step.1, dest, items[1..]);
      OpenKey(fs, dest, items[0].name);
      AddedThenRest(fs, step.1, Unpack(step.1, dest, items[1..]).1, dest, items);
    }
  }

  lemma {:induction false} OpenKey(fs: Fs, dest: string, name: string)
    requires Open(fs, dest, name)
    ensures KeyOf(dest, name) != TMP
  {
  }

  /**
   * Extracting a written archive into a file system with room for it creates exactly the files written
   * in it with exactly their contents, and the directories on the way to them, whatever directory and
   * link headers stand between; and so do an archive that is cut short or has a bad header behind them.
   */
  lemma {:induction false} RoundTrip(fs: Fs, dest: string, data: seq<Byte>, es: seq<Entry>, end: End)
    requires ArchiveAt(data, 0, es, end) && AllGood(es) && !end.CutIn?
    requires Ready(fs, dest, Files(es))
    ensures var r := Extract(fs, dest, data, 0);
            r.0 == (if end == ZeroEnd then Done else Failed) && AllAdded(fs, r.1, dest, Files(es))
  {
    hide ArchiveAt, AllGood, AllAdded, Extract, Unpack, Ready;
    ReadyTree(fs, dest, Files(es));
    ExtractArchive(fs, dest, data, 0, es, end);
    UnpackReady(fs, dest, Files(es));
  }

  lemma {:induction false} ReadyTree(fs: Fs, dest: string, items: seq<Item>)
    requires Ready(fs, dest, items)
    ensures IsTree(fs)
  {
  }

  /** A member whose contents are cut off is not installed: what was extracted before is there, and at most directories more. */
  lemma {:induction false} CutMember(fs: Fs, dest: string, data: seq<Byte>, es: seq<Entry>, m: Item)
    requires ArchiveAt(data, 0, es, CutIn(m)) && AllGood(es) && GoodItem(m)
    requires Ready(fs, dest, Files(es))
    ensures var r := Extract(fs, dest, data, 0);
            (r.0 == Failed || r.0 == NoDirectory)
            && exists mid :: AllAdded(fs, mid, dest, Files(es)) && OnlyDirectories(mid, r.1)
  {
    hide ArchiveAt, AllGood, AllAdded, Extract, Unpack, Ready, GoodItem;
    ReadyTree(fs, dest, Files(es));
    ExtractArchive(fs, dest, data, 0, es, CutIn(m));
    UnpackReady(fs, dest, Files(es));
  }

  // ---------------------------------------------------------------------------
  // A member that lands on the temporary file
  // ---------------------------------------------------------------------------

  lemma {:induction false} RenderThree(a: string, b: string, c: string)
    ensures Render([a]) == "/" + a
    ensures Render([a, b]) == "/" + a + ("/" + b)
    ensures Render([a, b, c]) == "/" + a + ("/" + b) + ("/" + c)
  {
    assert [a][..0] == [] && [a, b][..1] == [a] && [a, b, c][..2] == [a, b];
  }

  lemma {:induction false} EscapingTargets()
    ensures Target("/d", "../tarfile.tmp") == ["d", "..", "tarfile.tmp"] && Target("/d", "b") == ["d", "b"]
  {
    hide Render, ComponentsFrom;
    RenderThree("d", "..", "tarfile.tmp");
    RenderThree("d", "b", "");
    ComponentsOfRender(["d", "..", "tarfile.tmp"]);
    ComponentsOfRender(["d", "b"]);
    assert "/d" + "/" + "../tarfile.tmp" == "/" + "d" + ("/" + "..") + ("/" + "tarfile.tmp");
    assert "/d" + "/" + "b" == "/" + "d" + ("/" + "b");
  }

  /** ".." through an existing directory d reaches the temporary file. */
  lemma {:induction false} StepOnTmp(fs: Fs, content: seq<Byte>)
    requires ["d"] in fs && fs[["d"]].Dir? && TMP !in fs
    ensures MemberStep(fs, "/d", "../tarfile.tmp", true, content) == (None, fs[TMP := File(content)])
  {
    hide Target;
    EscapingTargets();
    var cs := ["d", "..", "tarfile.tmp"];
    assert [] + ["d"] == ["d"] && ["d"][..0] == [] && [] + ["tarfile.tmp"] == TMP;
    assert Walk(fs, cs, 0) == Some([]) && TarFs.Enter([], cs[0]) == ["d"];
    assert Walk(fs, cs, 1) == Some(["d"]) && Walk(fs, cs, 2) == Some([]) && Walk(fs, cs, 3) == Some(TMP);
    assert Mkdirs(fs, cs, 1) == (true, fs) && Mkdirs(fs, cs, 2) == (true, fs);
    var t := fs[TMP := File(content)];
    assert Walk(t, cs, 1) == Some(["d"]) && Walk(t, cs, 2) == Some([]) && Walk(t, cs, 3) == Some(TMP);
  }

  lemma {:induction false} StepInD(fs: Fs, content: seq<Byte>)
    requires ["d"] in fs && fs[["d"]].Dir? && !IsDir(fs, TMP)
    ensures MemberStep(fs, "/d", "b", true, content) ==
            (None, if ["d", "b"] in fs then fs else (fs - {TMP})[["d", "b"] := File(content)])
  {
    hide Target;
    EscapingTargets();
    var cs := ["d", "b"];
    var t := fs[TMP := File(content)];
    assert [] + ["d"] == ["d"] && ["d"] + ["b"] == cs;
    assert Walk(fs, cs, 0) == Some([]) && TarFs.Enter([], cs[0]) == ["d"];
    assert Walk(fs, cs, 1) == Some(["d"]) && Walk(fs, cs, 2) == Some(cs);
    assert Walk(t, cs, 1) == Some(["d"]) && Walk(t, cs, 2) == Some(cs);
    assert t - {TMP} == fs - {TMP};
  }

  /** Without the condition on names, extracting twice can differ from extracting once. */
  lemma {:induction false} TwiceDiffers(data: seq<Byte>)
    requires ArchiveAt(data, 0, [Regular(Item("../tarfile.tmp", "x")), Regular(Item("b", "y"))], ZeroEnd)
    ensures var once := Extract(map[["d"] := Dir], "/d", data, 0).1; Extract(once, "/d", data, 0).1 != once
  {
    hide MemberStep, ArchiveAt, Extract, Unpack, AllGood;
    var a, b := Item("../tarfile.tmp", "x"), Item("b", "y");
    var es := [Regular(a), Regular(b)];
    TwoGood();
    TwoFiles(a, b);
    var fs: Fs, once: Fs := map[["d"] := Dir], map[["d"] := Dir, ["d", "b"] := File("y")];
    StepOnTmp(fs, "x");
    StepInD(fs[TMP := File("x")], "y");
    assert (fs[TMP := File("x")] - {TMP})[["d", "b"] := File("y")] == once;
    UnpackTwo(fs, "/d", a, b, fs[TMP := File("x")], once);
    ExtractArchive(fs, "/d", data, 0, es, ZeroEnd);
    var twice := once[TMP := File("x")];
    StepOnTmp(once, "x");
    StepInD(twice, "y");
    UnpackTwo(once, "/d", a, b, twice, twice);
    ExtractArchive(once, "/d", data, 0, es, ZeroEnd);
    assert TMP in twice && TMP !in once;
  }

  lemma {:induction false} TwoGood()
    ensures AllGood([Regular(Item("../tarfile.tmp", "x")), Regular(Item("b", "y"))])
  {
    assert Pow8(11) > 1;
  }

  // ---------------------------------------------------------------------------
  // Where a name leads
  // ---------------------------------------------------------------------------

  /** A name goes down, "." stays, and ".." goes up, unless at the top. */
  lemma {:induction false} LeadSteps(cs: seq<string>, c: string)
    ensures Lead(cs + [c], |cs| + 1) ==
            if c == "." then Lead(cs, |cs|)
            else if c == ".." then (if Lead(cs, |cs|) == [] then [] else Lead(cs, |cs|)[..|Lead(cs, |cs|)| - 1])
            else Lead(cs, |cs|) + [c]
  {
    LeadFront(cs, [c], |cs|);
  }

  lemma {:induction false} LeadFront(cs: seq<string>, more: seq<string>, n: nat)
    requires n <= |cs|
    ensures Lead(cs + more, n) == Lead(cs, n)
    decreases n
  {
    if n > 0 {
      LeadFront(cs, more, n - 1);
    }
  }

  lemma {:induction false} LeadPlain(cs: seq<string>, n: nat)
    requires n <= |cs| && forall k :: 0 <= k < |cs| ==> cs[k] != "." && cs[k] != ".."
    ensures Lead(cs, n) == cs[..n]
    decreases n
  {
    if n > 0 {
      LeadPlain(cs, n - 1);
      assert cs[..n] == cs[..n - 1] + [cs[n - 1]];
    }
  }

  /** A member goes below the destination, by the names between the slashes of its own. */
  lemma {:induction false} PlainPlace(dest: string, name: string)
    requires forall c :: c in Components(dest) || c in Components(name) ==> c != "." && c != ".."
    ensures Target(dest, name) == Components(dest) + Components(name) == KeyOf(dest, name)
  {
    hide ComponentsFrom;
    ComponentsAppend(dest, 0, "/" + name);
    SkipSlashes("/" + name, 0, 1);
    ComponentsShift("/", name, 0);
    assert dest + "/" + name == dest + ("/" + name);
    var a, b, cs := Components(dest), Components(name), Target(dest, name);
    assert cs == a + b;
    forall k | 0 <= k < |cs| ensures cs[k] != "." && cs[k] != ".." {
      assert if k < |a| then cs[k] in a else cs[k] == b[k - |a|] && cs[k] in b;
    }
    LeadPlain(cs, |cs|);
  }

  // ---------------------------------------------------------------------------
  // Members that cannot go where they should
  // ---------------------------------------------------------------------------

  /** A name without a slash gets no directories: those of the destination have to be there. */
  lemma {:induction false} NoDirectoriesMade(fs: Fs, dest: string, name: string, whole: bool, content: seq<Byte>)
    requires IsTree(fs) && '/' !in name
    ensures forall k :: IsDir(MemberStep(fs, dest, name, whole, content).1, k) <==> IsDir(fs, k)
  {
    hide Target, Walk;
    if !IsDir(fs, TMP) {
      WriteTmp(fs, content);
    }
  }

  /** mkdir of something that is there changes nothing, and below a file it fails. */
  lemma {:induction false} MkdirAt(fs: Fs, cs: seq<string>, m: nat)
    requires IsTree(fs) && m <= |cs| && IsNode(fs, Lead(cs, m)) && forall j :: 0 <= j < m ==> IsDir(fs, Lead(cs, j))
    ensures Mkdir(fs, cs, m) == Some(fs)
    ensures m < |cs| && !IsDir(fs, Lead(cs, m)) ==> Mkdir(fs, cs, m + 1) == None
  {
    hide Lead;
    WalkLead(fs, cs, m);
  }

  lemma {:induction false} MkdirsThere(fs: Fs, cs: seq<string>, n: nat)
    requires IsTree(fs) && n <= |cs| && IsNode(fs, Lead(cs, n)) && forall j :: 0 <= j < n ==> IsDir(fs, Lead(cs, j))
    ensures Mkdirs(fs, cs, n) == (true, fs)
    decreases n
  {
    if n > 0 {
      assert IsNode(fs, Lead(cs, n - 1));
      MkdirsOnce(fs, cs, n);
      hide Lead, Mkdirs, Mkdir, IsTree;
      MkdirsThere(fs, cs, n - 1);
      MkdirAt(fs, cs, n);
    }
  }

  lemma {:induction false} MkdirsBlocked(fs: Fs, cs: seq<string>, m: nat, n: nat)
    requires IsTree(fs) && m <= n <= |cs| && Lead(cs, m) in fs && fs[Lead(cs, m)].File?
    requires !IsDir(fs, Lead(cs, m)) && forall j :: 0 <= j < m ==> IsDir(fs, Lead(cs, j))
    ensures Mkdirs(fs, cs, n) == (m == n, fs)
    decreases n
  {
    hide Lead, Mkdirs, Mkdir, IsTree, IsDir;
    if n == m {
      MkdirsThere(fs, cs, n);
    } else {
      MkdirsBlocked(fs, cs, m, n - 1);
      MkdirsOnce(fs, cs, n);
      if n == m + 1 {
        MkdirAt(fs, cs, m);
      }
    }
  }

  /**
   * A file stands where a directory has to be.  If more directories should follow below it, the run
   * ends without one; if it is the last, the member is written and cannot be renamed.
   */
  lemma {:induction false} BlockedMember(fs: Fs, dest: string, name: string, whole: bool, content: seq<Byte>, m: nat)
    requires IsTree(fs) && '/' in name && 0 < m < |Target(dest, name)| && !IsDir(fs, TMP)
    requires var cs := Target(dest, name);
             Lead(cs, m) in fs && fs[Lead(cs, m)].File? && forall j :: 0 <= j < m ==> IsDir(fs, Lead(cs, j))
    ensures MemberStep(fs, dest, name, whole, content) ==
            if m < |Target(dest, name)| - 1 then (Some(NoDirectory), fs) else (Some(Failed), fs[TMP := File(content)])
  {
    hide Target, Lead, Mkdirs;
    var cs := Target(dest, name);
    MkdirsBlocked(fs, cs, m, |cs| - 1);
    if m == |cs| - 1 {
      WalkLead(fs, cs, m);
      assert Locate(fs, cs) == None;
      WalkSameDirs(fs, fs[TMP := File(content)], cs, |cs|);
    }
  }
}
