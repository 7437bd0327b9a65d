// What src/tar.c makes of an archive, as a function of its bytes and the file system.
module Tar {
  import opened CStrings
  import opened Paths
  import opened TarFormat
  import opened TarFs

  /** How a run ends.  Done and Failed return 1, NoDirectory returns 0; Undef is a malformed header. */
  datatype Outcome = Done | Failed | NoDirectory | Undef

  /** The components of the path a member is extracted to. */
  ghost function Target(dest: string, name: string): seq<string> {
    Components(dest + "/" + name)
  }

  /** An existing file is skipped; a new one is written to the temporary file, then renamed. */
  ghost function Place(fs: Fs, cs: seq<string>, whole: bool, content: seq<Byte>): (Option<Outcome>, Fs) {
    if Exists(fs, cs) then (if whole then None else Some(Failed), fs)
    else if IsDir(fs, TMP) then (Some(Failed), fs)
    else
      var written := fs[TMP := File(content)];
      if !whole then (Some(Failed), written)
      else match Rename(written, cs)
           case None => (Some(Failed), written)
           case Some(r) => (None, r)
  }

  /** One member: its directories, then its contents, of which `whole` says whether the archive holds them all. */
  ghost function MemberStep(fs: Fs, dest: string, name: string, whole: bool, content: seq<Byte>): (Option<Outcome>, Fs) {
    var m := Prepared(fs, dest, name);
    if !m.0 then (Some(NoDirectory), m.1) else Place(m.1, Target(dest, name), whole, content)
  }

  /** A name with a slash in it gets its directories first. */
  ghost function Prepared(fs: Fs, dest: string, name: string): (bool, Fs) {
    var cs := Target(dest, name);
    if '/' in name && cs != [] then Mkdirs(fs, cs, |cs| - 1) else (true, fs)
  }

  /** The bytes of a member at `body` that can be read before the archive ends. */
  function Contents(data: seq<Byte>, body: nat, size: nat): seq<Byte>
    requires body <= |data|
  {
    if body + Padded(size) <= |data| then data[body..body + size]
    else data[body..body + (|data| - body) / BLOCK * BLOCK]
  }

  /** extract_tar on data[pos..], without input or output errors. */
  ghost function Extract(fs: Fs, dest: string, data: seq<Byte>, pos: nat): (Outcome, Fs)
    requires pos <= |data|
    decreases |data| - pos
  {
    if |data| - pos < BLOCK then (Failed, fs)
    else
      var body := pos + BLOCK;
      match Classify(data[pos..body])
      case Zero => (Done, fs)
      case Corrupt => (Failed, fs)
      case Undefined => (Undef, fs)
      case Skip => Extract(fs, dest, data, body)
      case Member(name, size) =>
        var whole := body + Padded(size) <= |data|;
        var r := MemberStep(fs, dest, name, whole, Contents(data, body, size));
        if !whole || r.0.Some? then (if r.0.Some? then r.0.value else Failed, r.1)
        else Extract(r.1, dest, data, body + Padded(size))
  }

  // ---------------------------------------------------------------------------
  // Steps only add
  // ---------------------------------------------------------------------------

  lemma {:induction false} WriteTmp(fs: Fs, content: seq<Byte>)
    requires IsTree(fs) && !IsDir(fs, TMP)
    ensures var t := fs[TMP := File(content)];
            IsTree(t) && Grows(fs, t) && (forall k :: IsDir(fs, k) <==> IsDir(t, k))
  {
  }

  /** A rename that follows a failed access takes nothing away but the temporary file. */
  lemma {:induction false} RenameAdds(fs: Fs, cs: seq<string>, content: seq<Byte>)
    requires IsTree(fs) && !IsDir(fs, TMP) && !Exists(fs, cs)
    ensures var t := fs[TMP := File(content)];
            Rename(t, cs).Some? ==>
              var r := Rename(t, cs).value;
              Locate(fs, cs).Some? && var k := Locate(fs, cs).value;
              IsTree(r) && Grows(fs, r) && !IsNode(fs, k)
              && r == (t - (if k == TMP then {} else {TMP}))[k := File(content)] && Locate(r, cs) == Some(k)
  {
    var t := fs[TMP := File(content)];
    WriteTmp(fs, content);
    WalkSameDirs(fs, t, cs, |cs|);
    if Rename(t, cs).Some? {
      var r, k := Rename(t, cs).value, Locate(t, cs).value;
      WalkParent(t, cs, |cs|);
      WalkGrows(fs, r, cs, |cs|);
    }
  }

  lemma {:induction false} PlaceGrows(fs: Fs, cs: seq<string>, whole: bool, content: seq<Byte>)
    requires IsTree(fs)
    ensures var r := Place(fs, cs, whole, content); IsTree(r.1) && Grows(fs, r.1)
  {
    if !Exists(fs, cs) && !IsDir(fs, TMP) {
      WriteTmp(fs, content);
      RenameAdds(fs, cs, content);
    }
  }

  lemma {:induction false} StepGrows(fs: Fs, dest: string, name: string, whole: bool, content: seq<Byte>)
    requires IsTree(fs)
    ensures var r := MemberStep(fs, dest, name, whole, content); IsTree(r.1) && Grows(fs, r.1)
  {
    hide Place, Target, Prepared;
    var m := Prepared(fs, dest, name);
    PreparedGrows(fs, dest, name);
    if m.0 {
      PlaceGrows(m.1, Target(dest, name), whole, content);
      GrowsTrans(fs, m.1, Place(m.1, Target(dest, name), whole, content).1);
    }
  }

  lemma {:induction false} PreparedGrows(fs: Fs, dest: string, name: string)
    requires IsTree(fs)
    ensures var m := Prepared(fs, dest, name); IsTree(m.1) && Grows(fs, m.1)
  {
    var cs := Target(dest, name);
    if '/' in name && cs != [] {
      MkdirsGrow(fs, cs, |cs| - 1);
    }
  }

  /** Extraction never changes a file that was there, nor removes anything but the temporary file. */
  lemma {:induction false} ExtractGrows(fs: Fs, dest: string, data: seq<Byte>, pos: nat)
    requires IsTree(fs) && pos <= |data|
    ensures var r := Extract(fs, dest, data, pos); IsTree(r.1) && Grows(fs, r.1)
    decreases |data| - pos
  {
    hide MemberStep, Classify, Contents, Grows, IsTree;
    GrowsSame(fs);
    if |data| - pos >= BLOCK {
      var body := pos + BLOCK;
      match Classify(data[pos..body])
      case Skip => ExtractGrows(fs, dest, data, body);
      case Member(name, size) =>
        var whole := body + Padded(size) <= |data|;
        var r := MemberStep(fs, dest, name, whole, Contents(data, body, size));
        StepGrows(fs, dest, name, whole, Contents(data, body, size));
        if whole && r.0.None? {
          ExtractGrows(r.1, dest, data, body + Padded(size));
          GrowsTrans(fs, r.1, Extract(r.1, dest, data, body + Padded(size)).1);
        }
      case _ =>
    }
  }

  // ---------------------------------------------------------------------------
  // Extracting twice
  // ---------------------------------------------------------------------------

  /** Where a member goes, by its name alone. */
  ghost function KeyOf(dest: string, name: string): Key {
    var cs := Target(dest, name);
    Lead(cs, |cs|)
  }

  /** The names of the members the archive holds whole keep them off the temporary file. */
  ghost predicate Clear(dest: string, data: seq<Byte>, pos: nat)
    requires pos <= |data|
    decreases |data| - pos
  {
    if |data| - pos < BLOCK then true
    else
      var body := pos + BLOCK;
      match Classify(data[pos..body])
      case Skip => Clear(dest, data, body)
      case Member(name, size) =>
        body + Padded(size) <= |data| ==> KeyOf(dest, name) != TMP && Clear(dest, data, body + Padded(size))
      case _ => true
  }

  /** Extraction from fs comes to the end of a member that goes to the path of the temporary file. */
  ghost predicate Met(fs: Fs, dest: string, data: seq<Byte>, pos: nat)
    requires pos <= |data|
    decreases |data| - pos
  {
    |data| - pos >= BLOCK &&
      var body := pos + BLOCK;
      match Classify(data[pos..body])
      case Skip => Met(fs, dest, data, body)
      case Member(name, size) =>
        body + Padded(size) <= |data| &&
          var r := MemberStep(fs, dest, name, true, Contents(data, body, size));
          r.0.None? && (KeyOf(dest, name) == TMP || Met(r.1, dest, data, body + Padded(size)))
      case _ => false
  }

  /** g is last, but for a file written to the temporary file. */
  ghost predicate Near(last: Fs, g: Fs) {
    g == last || (!IsDir(last, TMP) && TMP in g && g[TMP].File? && g == last[TMP := g[TMP]])
  }

  lemma {:induction false} NearSelf(last: Fs)
    ensures Near(last, last)
  {
  }

  lemma {:induction false} NearGrows(last: Fs, g: Fs)
    requires Near(last, g)
    ensures Grows(last, g) && (forall k :: IsDir(last, k) <==> IsDir(g, k)) && (TMP in last ==> TMP in g)
    ensures forall k :: k != TMP ==> (IsNode(last, k) <==> IsNode(g, k))
  {
  }

  /** Where a member is once it is placed. */
  lemma {:induction false} PlacedAt(fs: Fs, cs: seq<string>, content: seq<Byte>)
    requires IsTree(fs) && Place(fs, cs, true, content).0.None?
    ensures var r := Place(fs, cs, true, content).1; Locate(r, cs) == Some(Lead(cs, |cs|)) && IsNode(r, Lead(cs, |cs|))
  {
    hide Lead, Walk, IsTree;
    var r := Place(fs, cs, true, content).1;
    if !Exists(fs, cs) {
      RenameAdds(fs, cs, content);
    }
    WalkIsLead(r, cs, |cs|);
  }

  lemma {:induction false} PlaceOnTmp(g: Fs, cs: seq<string>, content: seq<Byte>)
    requires Locate(g, cs) == Some(TMP) && TMP !in g
    ensures Place(g, cs, true, content) == (None, g[TMP := File(content)])
  {
    hide Walk;
    WalkSameDirs(g, g[TMP := File(content)], cs, |cs|);
  }

  /** A member that was placed is found there again; only the temporary file may have been taken away. */
  lemma {:induction false} PlacedAgain(fs: Fs, cs: seq<string>, content: seq<Byte>, g: Fs)
    requires IsTree(fs) && Place(fs, cs, true, content).0.None? && Grows(Place(fs, cs, true, content).1, g)
    ensures var key := Lead(cs, |cs|);
            Place(g, cs, true, content) == (None, if key == TMP && TMP !in g then g[TMP := File(content)] else g)
  {
    hide Lead, Walk, IsTree, Rename;
    var r, key := Place(fs, cs, true, content).1, Lead(cs, |cs|);
    PlacedAt(fs, cs, content);
    WalkGrows(r, g, cs, |cs|);
    if key == TMP && TMP !in g {
      PlaceOnTmp(g, cs, content);
    } else {
      assert Exists(g, cs);
    }
  }

  /** A member that failed fails again. */
  lemma {:induction false} FailedAgain(fs: Fs, cs: seq<string>, whole: bool, content: seq<Byte>, g: Fs)
    requires IsTree(fs) && Place(fs, cs, whole, content).0.Some? && Near(Place(fs, cs, whole, content).1, g)
    ensures var last, again := Place(fs, cs, whole, content), Place(g, cs, whole, content);
            again.0 == last.0 && (again.1 == g || (again.1 == last.1 && TMP in last.1))
  {
    hide Walk, IsTree;
    var last := Place(fs, cs, whole, content).1;
    NearGrows(last, g);
    if !Exists(fs, cs) && !IsDir(fs, TMP) {
      WrittenAgain(fs, cs, whole, content, g);
    } else {
      WalkSameDirs(fs, g, cs, |cs|);
    }
  }

  /** A member that was written and failed is written and fails again, or its path is taken now. */
  lemma {:induction false} WrittenAgain(fs: Fs, cs: seq<string>, whole: bool, content: seq<Byte>, g: Fs)
    requires IsTree(fs) && !Exists(fs, cs) && !IsDir(fs, TMP)
    requires Place(fs, cs, whole, content).0.Some? && Near(fs[TMP := File(content)], g)
    ensures var t, again := fs[TMP := File(content)], Place(g, cs, whole, content);
            again.0 == Some(Failed) && (again.1 == g || again.1 == t)
  {
    hide Walk, IsTree;
    var t := fs[TMP := File(content)];
    NearGrows(t, g);
    WriteTmp(fs, content);
    WalkSameDirs(fs, t, cs, |cs|);
    WalkSameDirs(t, g, cs, |cs|);
    assert g[TMP := File(content)] == t;
    if whole {
      assert Locate(fs, cs).None?;
    }
  }

  /** The directories of a member are still there. */
  lemma {:induction false} PreparedAgain(fs: Fs, dest: string, name: string, whole: bool, content: seq<Byte>, last: Fs, g: Fs)
    requires IsTree(fs) && Near(last, g)
    requires var r := MemberStep(fs, dest, name, whole, content); if r.0.None? then Grows(r.1, last) else last == r.1
    ensures Prepared(g, dest, name) == (Prepared(fs, dest, name).0, g)
  {
    hide Target, Rename, Mkdirs, Lead;
    var cs, m := Target(dest, name), Prepared(fs, dest, name);
    var r := MemberStep(fs, dest, name, whole, content);
    NearGrows(last, g);
    PreparedGrows(fs, dest, name);
    if m.0 {
      PlaceGrows(m.1, cs, whole, content);
      GrowsSame(r.1);
      GrowsTrans(m.1, r.1, last);
      if r.0.None? && cs != [] {
        PlaceLeads(m.1, cs, whole, content);
        assert TMP !in g ==> !IsDir(r.1, TMP);
      }
      PlaceKeepsTmp(m.1, cs, whole, content);
    } else {
      GrowsSame(last);
    }
    GrowsTrans(m.1, last, g);
    if '/' in name && cs != [] {
      MkdirsAgain(fs, cs, |cs| - 1, g);
    }
  }

  /** A member is only completed when directories lead to it. */
  lemma {:induction false} PlaceLeads(fs: Fs, cs: seq<string>, whole: bool, content: seq<Byte>)
    requires IsTree(fs) && Place(fs, cs, whole, content).0.None?
    ensures forall m :: 0 <= m < |cs| ==> IsDir(Place(fs, cs, whole, content).1, Lead(cs, m))
  {
    if !Exists(fs, cs) {
      RenameAdds(fs, cs, content);
    }
    WalkIsLead(Place(fs, cs, whole, content).1, cs, |cs|);
  }

  lemma {:induction false} PlaceKeepsTmp(fs: Fs, cs: seq<string>, whole: bool, content: seq<Byte>)
    ensures Place(fs, cs, whole, content).0.Some? && TMP in fs ==> TMP in Place(fs, cs, whole, content).1
  {
  }

  /** One member in the second run: the outcome of the first, and at most the temporary file is written. */
  lemma {:induction false} StepAgain(fs: Fs, dest: string, name: string, whole: bool, content: seq<Byte>, last: Fs, g: Fs)
    requires IsTree(fs) && Near(last, g)
    requires var r := MemberStep(fs, dest, name, whole, content); if r.0.None? then Grows(r.1, last) else last == r.1
    ensures var r, again := MemberStep(fs, dest, name, whole, content), MemberStep(g, dest, name, whole, content);
            again.0 == r.0
            && if r.0.Some? then again.1 == g || (again.1 == last && TMP in last)
               else again.1 == if KeyOf(dest, name) == TMP && TMP !in g then g[TMP := File(content)] else g
  {
    hide Place, Target, Grows, IsTree, Near;
    var cs, m := Target(dest, name), Prepared(fs, dest, name);
    PreparedAgain(fs, dest, name, whole, content, last, g);
    PreparedGrows(fs, dest, name);
    if m.0 {
      if Place(m.1, cs, whole, content).0.Some? {
        FailedAgain(m.1, cs, whole, content, g);
      } else {
        NoneIsWhole(m.1, cs, whole, content);
        NearGrows(last, g);
        GrowsTrans(Place(m.1, cs, whole, content).1, last, g);
        PlacedAgain(m.1, cs, content, g);
      }
    }
  }

  lemma {:induction false} NoneIsWhole(fs: Fs, cs: seq<string>, whole: bool, content: seq<Byte>)
    ensures Place(fs, cs, whole, content).0.None? ==> whole
  {
  }

  lemma {:induction false} NearWritten(last: Fs, g: Fs, content: seq<Byte>)
    requires Near(last, g)
    ensures Near(last, last) && (TMP !in g ==> Near(last, g[TMP := File(content)]))
  {
  }

  /** What the second run does from a state g on, when the first one ran from fs to last. */
  ghost predicate Again(fs: Fs, last: Fs, g: Fs, dest: string, data: seq<Byte>, pos: nat)
    requires pos <= |data|
  {
    var again := Extract(g, dest, data, pos);
    again.0 == Extract(fs, dest, data, pos).0 && Near(last, again.1)
    && (TMP in g || Met(fs, dest, data, pos) ==> TMP in again.1)
    && (g == last && (TMP in last || !Met(fs, dest, data, pos)) ==> again.1 == last)
  }

  lemma {:induction false} RunAgain(fs: Fs, last: Fs, g: Fs, dest: string, data: seq<Byte>, pos: nat)
    requires IsTree(fs) && pos <= |data| && last == Extract(fs, dest, data, pos).1 && Near(last, g)
    ensures Again(fs, last, g, dest, data, pos)
    decreases |data| - pos
  {
    hide MemberStep, Classify, Contents, KeyOf, Grows, IsTree, Near;
    NearKeepsTmp(last, g);
    if |data| - pos >= BLOCK {
      var body := pos + BLOCK;
      match Classify(data[pos..body])
      case Skip => RunAgain(fs, last, g, dest, data, body);
      case Member(name, size) => MemberAgain(fs, last, g, dest, data, pos, name, size);
      case _ =>
    }
  }

  lemma {:induction false} NearKeepsTmp(last: Fs, g: Fs)
    requires Near(last, g)
    ensures TMP in last ==> TMP in g
  {
  }

  lemma {:induction false} MemberAgain(fs: Fs, last: Fs, g: Fs, dest: string, data: seq<Byte>, pos: nat, name: string, size: nat)
    requires IsTree(fs) && pos + BLOCK <= |data| && last == Extract(fs, dest, data, pos).1 && Near(last, g)
    requires Classify(data[pos..pos + BLOCK]) == Member(name, size)
    ensures Again(fs, last, g, dest, data, pos)
    decreases |data| - pos, 0
  {
    hide MemberStep, Classify, Contents, KeyOf, Grows, IsTree, Near;
    var body := pos + BLOCK;
    var whole := body + Padded(size) <= |data|;
    var content := Contents(data, body, size);
    var r := MemberStep(fs, dest, name, whole, content);
    StepGrows(fs, dest, name, whole, content);
    StepWhole(fs, dest, name, whole, content);
    NearKeepsTmp(last, g);
    NearWritten(last, g, content);
    if r.0.None? {
      ExtractGrows(r.1, dest, data, body + Padded(size));
      StepAgain(fs, dest, name, whole, content, last, g);
      RunAgain(r.1, last, MemberStep(g, dest, name, whole, content).1, dest, data, body + Padded(size));
    } else {
      StepAgain(fs, dest, name, whole, content, last, g);
    }
  }

  lemma {:induction false} StepWhole(fs: Fs, dest: string, name: string, whole: bool, content: seq<Byte>)
    ensures MemberStep(fs, dest, name, whole, content).0.None? ==> whole
  {
    hide Target, Prepared;
  }

  /**
   * Whatever the bytes, complete or not, the second run ends like the first, and leaves every path
   * but that of the temporary file as the first one left it.
   */
  lemma {:induction false} ExtractAgain(fs: Fs, dest: string, data: seq<Byte>, pos: nat)
    requires IsTree(fs) && pos <= |data|
    ensures var once := Extract(fs, dest, data, pos);
            var twice := Extract(once.1, dest, data, pos);
            twice.0 == once.0 && twice.1 - {TMP} == once.1 - {TMP}
  {
    hide Extract;
    var last := Extract(fs, dest, data, pos).1;
    RunAgain(fs, last, last, dest, data, pos);
  }

  /**
   * Extracting twice is extracting once if and only if no completed member goes to the path of the
   * temporary file, or that path is taken at the end of the first run.
   */
  lemma {:induction false} ExtractTwice(fs: Fs, dest: string, data: seq<Byte>, pos: nat)
    requires IsTree(fs) && pos <= |data|
    ensures var once := Extract(fs, dest, data, pos);
            Extract(once.1, dest, data, pos) == once <==> !Met(fs, dest, data, pos) || TMP in once.1
  {
    hide Extract, Met, Near;
    var last := Extract(fs, dest, data, pos).1;
    NearSelf(last);
    RunAgain(fs, last, last, dest, data, pos);
  }

  lemma {:induction false} ClearNotMet(fs: Fs, dest: string, data: seq<Byte>, pos: nat)
    requires pos <= |data| && Clear(dest, data, pos)
    ensures !Met(fs, dest, data, pos)
    decreases |data| - pos
  {
    hide MemberStep, Classify, Contents, KeyOf;
    if |data| - pos >= BLOCK {
      var body := pos + BLOCK;
      match Classify(data[pos..body])
      case Skip => ClearNotMet(fs, dest, data, body);
      case Member(name, size) =>
        if body + Padded(size) <= |data| {
          ClearNotMet(MemberStep(fs, dest, name, true, Contents(data, body, size)).1, dest, data, body + Padded(size));
        }
      case _ =>
    }
  }

  /** In particular it is when the names of the members keep them off the temporary file, whatever the tree. */
  lemma {:induction false} ClearTwice(fs: Fs, dest: string, data: seq<Byte>, pos: nat)
    requires IsTree(fs) && pos <= |data| && Clear(dest, data, pos)
    ensures var once := Extract(fs, dest, data, pos); Extract(once.1, dest, data, pos) == once
  {
    hide Extract, Met, Clear;
    ClearNotMet(fs, dest, data, pos);
    ExtractTwice(fs, dest, data, pos);
  }

  // ---------------------------------------------------------------------------
  // The first of two members
  // ---------------------------------------------------------------------------

  /** What is placed is there at the end, and what was there already is not replaced. */
  lemma {:induction false} PlaceLands(fs: Fs, cs: seq<string>, content: seq<Byte>, last: Fs)
    requires IsTree(fs) && Lead(cs, |cs|) != TMP && Place(fs, cs, true, content).0.None?
    requires Grows(Place(fs, cs, true, content).1, last)
    ensures Exists(last, cs)
            && var k := Locate(last, cs).value;
            if Exists(fs, cs) then k in fs ==> k in last && last[k] == fs[k] else k in last && last[k] == File(content)
  {
    var r := Place(fs, cs, true, content).1;
    if !Exists(fs, cs) {
      RenameAdds(fs, cs, content);
    }
    WalkIsLead(r, cs, |cs|);
    WalkGrows(r, last, cs, |cs|);
  }

  /**
   * The first member of a name wins: once it is extracted, whatever follows in the archive, its
   * path holds its contents at the end, or what the path held before.
   */
  lemma {:induction false} FirstWins(fs: Fs, dest: string, data: seq<Byte>, pos: nat, name: string, size: nat)
    requires IsTree(fs) && pos + BLOCK + Padded(size) <= |data|
    requires Classify(data[pos..pos + BLOCK]) == Member(name, size) && KeyOf(dest, name) != TMP
    requires MemberStep(fs, dest, name, true, data[pos + BLOCK..pos + BLOCK + size]).0.None?
    ensures var cs, last := Target(dest, name), Extract(fs, dest, data, pos).1;
            var before := Prepared(fs, dest, name).1;
            Exists(last, cs)
            && var k := Locate(last, cs).value;
            if Exists(before, cs) then k in before ==> k in last && last[k] == before[k]
            else k in last && last[k] == File(data[pos + BLOCK..pos + BLOCK + size])
  {
    hide Classify, Place, Prepared, Target, Grows, IsTree, Exists;
    var content := data[pos + BLOCK..pos + BLOCK + size];
    var r := MemberStep(fs, dest, name, true, content);
    StepGrows(fs, dest, name, true, content);
    ExtractGrows(r.1, dest, data, pos + BLOCK + Padded(size));
    PreparedGrows(fs, dest, name);
    PlaceLands(Prepared(fs, dest, name).1, Target(dest, name), content, Extract(fs, dest, data, pos).1);
  }
}
