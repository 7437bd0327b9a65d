// The two failures src/tar.c does not notice: an access that fails on an existing file, and a close
// that loses bytes.  What they do to one member, exactly, and an archive for each of them.
module TarFaults {
  import opened CStrings
  import opened Paths
  import opened TarFormat
  import opened TarFs
  import opened Tar
  import opened TarArchive
  import opened TarRoundTrip
  import opened TarStreams
  import opened TarSafety

  /** Every path but the temporary file's holds what it held. */
  ghost predicate Kept(a: Fs, b: Fs) {
    forall k :: k in a && k != TMP ==> k in b && b[k] == a[k]
  }

  /**
   * One completed member, when neither failure has happened before.  What was there is kept if and
   * only if access was right, or the file is replaced by one that is the same; a new file is whole if
   * and only if the close lost nothing; and together, neither failure happens if and only if the file
   * was seen, or its path was free and now holds the full contents.
   */
  lemma {:induction false} PlacementExact(a: Moment, b: Moment, cs: seq<string>, content: seq<Byte>, seen: bool, got: seq<Byte>)
    requires IsTree(a.fs) && Placement(a, b, cs, content, seen, got) && !a.misread && !a.lost && Lead(cs, |cs|) != TMP
    ensures var k := Lead(cs, |cs|);
            (Kept(a.fs, b.fs) <==> (b.misread ==> k in a.fs && a.fs[k] == File(got)))
            && (!seen ==> k in b.fs && (b.fs[k] == File(content) <==> !b.lost))
            && (!b.misread && !b.lost <==> seen || (!IsNode(a.fs, k) && k in b.fs && b.fs[k] == File(content)))
  {
    hide Walk, Lead, IsTree;
    if !seen {
      InstallsAt(a.fs, cs, got, b.fs);
    }
  }

  /** The only member of an archive of one item. */
  lemma {:induction false} OnlyMember(data: seq<Byte>, m: Item, pos: nat, name: string, content: seq<Byte>)
    requires ArchiveAt(data, 0, [Regular(m)], ZeroEnd) && GoodItem(m)
    ensures MemberAt(data, pos, name, content) <==> pos == 0 && name == m.name && content == m.content
  {
    hide Classify, IsHeader, AllZero, GoodItem, Padded;
    var next := BLOCK + Padded(|m.content|);
    assert [Regular(m)][1..] == [] && ArchiveAt(data, next, [], ZeroEnd);
    HeaderOfItem(data[0..BLOCK], m);
    ZeroBlock(data[next..next + BLOCK]);
    assert Reaches(data, 0, pos) ==> pos == 0 || Reaches(data, next, pos);
    assert Reaches(data, next, pos) ==> pos == next;
  }

  /**
   * The tree after the only member of an archive has been renamed to its place, from a tree fs0 that
   * had not been harmed: it is unharmed if and only if the file has the full contents, or, where there
   * was a file before, is the same as that one.
   */
  lemma {:induction false} OneMemberExact(fs0: Fs, dest: string, m: Item, data: seq<Byte>, got: seq<Byte>, r: Fs)
    requires IsTree(fs0) && GoodItem(m) && ArchiveAt(data, 0, [Regular(m)], ZeroEnd) && KeyOf(dest, m.name) != TMP
    requires Installs(fs0, Target(dest, m.name), got, r)
    ensures var k := KeyOf(dest, m.name);
            Unharmed(fs0, r, dest, data) <==> if k in fs0 then fs0[k] == File(got) else got == m.content
  {
    hide Walk, Lead, ArchiveAt, GoodItem, Target, MemberAt, Installs;
    var cs, k := Target(dest, m.name), KeyOf(dest, m.name);
    InstallsAt(fs0, cs, got, r);
    hide IsTree;
    forall pos, name, content
      ensures MemberAt(data, pos, name, content) <==> pos == 0 && name == m.name && content == m.content
    {
      OnlyMember(data, m, pos, name, content);
    }
    assert MemberAt(data, 0, m.name, m.content);
    assert FromMember(r, dest, data, k, false) <==> got == m.content;
  }

  lemma {:induction false} MemberA()
    ensures Target("", "a") == ["a"] && KeyOf("", "a") == ["a"] && GoodItem(Item("a", "x"))
  {
    RenderThree("a", "", "");
    ComponentsOfRender(["a"]);
    assert "" + "/" + "a" == "/" + "a";
    hide ComponentsFrom, Render, Target;
    assert Lead(["a"], 0) == [] && [] + ["a"] == ["a"];
    SixDigits();
    assert Pow8(11) > 1;
  }

  /** A full disk that first shows in the close: the file "a" of one byte is installed with none. */
  lemma {:induction false} LostTail(data: seq<Byte>)
    requires ArchiveAt(data, 0, [Regular(Item("a", "x"))], ZeroEnd)
    ensures var r: Fs := map[["a"] := File("")];
            Placement(Moment(map[], false, false), Moment(r, false, true), Target("", "a"), "x", false, "")
            && !Unharmed(map[], r, "", data)
  {
    hide ArchiveAt, Target, KeyOf, GoodItem;
    MemberA();
    var fs0: Fs, r: Fs := map[], map[["a"] := File("")];
    WalkA(fs0[TMP := File("")]);
    WalkA(fs0);
    assert fs0[TMP := File("")] - {TMP} == fs0;
    assert Installs(fs0, ["a"], "", r);
    OneMemberExact(fs0, "", Item("a", "x"), data, "", r);
  }

  /** An access that fails on the file "a": it is written over. */
  lemma {:induction false} MisreadAccess(data: seq<Byte>)
    requires ArchiveAt(data, 0, [Regular(Item("a", "x"))], ZeroEnd)
    ensures var fs0: Fs, r: Fs := map[["a"] := File("y")], map[["a"] := File("x")];
            Placement(Moment(fs0, false, false), Moment(r, true, false), Target("", "a"), "x", false, "x")
            && !Unharmed(fs0, r, "", data)
  {
    hide ArchiveAt, Target, KeyOf, GoodItem;
    MemberA();
    var fs0: Fs, r: Fs := map[["a"] := File("y")], map[["a"] := File("x")];
    WalkA(fs0[TMP := File("x")]);
    WalkA(fs0);
    assert (fs0[TMP := File("x")] - {TMP})[["a"] := File("x")] == r;
    assert Installs(fs0, ["a"], "x", r);
    OneMemberExact(fs0, "", Item("a", "x"), data, "x", r);
  }

  lemma {:induction false} WalkA(fs: Fs)
    ensures Locate(fs, ["a"]) == Some(["a"])
  {
    assert Walk(fs, ["a"], 0) == Some([]) && [] + ["a"] == ["a"];
  }
}
