// What the file system may look like while src/tar.c extracts an archive.
module TarSafety {
  import opened CStrings
  import opened TarFormat
  import opened TarFs
  import opened Tar
  import opened TarStreams

  // ---------------------------------------------------------------------------
  // The members of an archive
  // ---------------------------------------------------------------------------

  /** Reading headers from index `from` on, the extractor comes to a header at index pos. */
  ghost predicate Reaches(data: seq<Byte>, from: nat, pos: nat)
    requires from <= |data|
    decreases |data| - from
  {
    from == pos || (|data| - from >= BLOCK &&
      var body := from + BLOCK;
      match Classify(data[from..body])
      case Skip => Reaches(data, body, pos)
      case Member(name, size) => body + Padded(size) <= |data| && Reaches(data, body + Padded(size), pos)
      case _ => false)
  }

  lemma {:induction false} ReachesNext(data: seq<Byte>, from: nat, pos: nat)
    requires from <= |data| && Reaches(data, from, pos) && pos + BLOCK <= |data|
    ensures Classify(data[pos..pos + BLOCK]).Skip? ==> Reaches(data, from, pos + BLOCK)
    ensures var h := Classify(data[pos..pos + BLOCK]);
            h.Member? && pos + BLOCK + Padded(h.size) <= |data| ==> Reaches(data, from, pos + BLOCK + Padded(h.size))
    decreases |data| - from
  {
    hide Classify;
    if from != pos {
      var body := from + BLOCK;
      match Classify(data[from..body])
      case Skip => ReachesNext(data, body, pos);
      case Member(name, size) => ReachesNext(data, body + Padded(size), pos);
      case _ =>
    }
  }

  /** A member with its full declared contents stands at index pos of the archive. */
  ghost predicate MemberAt(data: seq<Byte>, pos: nat, name: string, content: seq<Byte>) {
    Reaches(data, 0, pos) && pos + BLOCK <= |data|
    && Classify(data[pos..pos + BLOCK]) == Member(name, |content|)
    && pos + BLOCK + Padded(|content|) <= |data| && data[pos + BLOCK..pos + BLOCK + |content|] == content
  }

  lemma {:induction false} IsMember(data: seq<Byte>, pos: nat, name: string, size: nat)
    requires Reaches(data, 0, pos) && pos + BLOCK + Padded(size) <= |data|
    requires Classify(data[pos..pos + BLOCK]) == Member(name, size)
    ensures MemberAt(data, pos, name, data[pos + BLOCK..pos + BLOCK + size])
  {
    hide Classify, Reaches;
  }

  /** A member's path fits the buffers: 128 bytes if directories have to be made for it, else 256. */
  predicate PathFits(dest: string, name: string) {
    |dest| + 1 + |name| < if '/' in name then 128 else 256
  }

  /** So does that of every member the archive holds. */
  ghost predicate PathsFit(dest: string, data: seq<Byte>) {
    forall pos: nat :: Reaches(data, 0, pos) && pos + BLOCK <= |data| ==>
      var h := Classify(data[pos..pos + BLOCK]);
      h.Member? ==> PathFits(dest, h.name)
  }

  // ---------------------------------------------------------------------------
  // Safe trees
  // ---------------------------------------------------------------------------

  /** k holds the contents of a member that belongs there: all of them, or, after a loss, the first of them. */
  ghost predicate FromMember(fs: Fs, dest: string, data: seq<Byte>, k: Key, lost: bool)
    requires k in fs
  {
    fs[k].File? && exists pos, name, content ::
      MemberAt(data, pos, name, content) && Locate(fs, Target(dest, name)) == Some(k)
      && fs[k].data <= content && (!lost ==> fs[k].data == content)
  }

  /**
   * What the tree may look like at any moment of extracting the archive into fs0.  Nothing that was
   * there has changed, except that after a misread access a file may have been replaced by a member;
   * what is new is a directory or a member, whole unless bytes were lost in a close.
   */
  ghost predicate Safe(fs0: Fs, m: Moment, dest: string, data: seq<Byte>) {
    IsTree(m.fs)
    && (forall k :: k in fs0 && k != TMP ==>
          k in m.fs && (m.fs[k] == fs0[k] || (m.misread && fs0[k].File? && FromMember(m.fs, dest, data, k, m.lost))))
    && (forall k :: k in m.fs && k !in fs0 && k != TMP ==> m.fs[k] == Dir || FromMember(m.fs, dest, data, k, m.lost))
  }

  /** What was there is there unchanged, and what is new is a directory or one whole member. */
  ghost predicate Unharmed(fs0: Fs, fs: Fs, dest: string, data: seq<Byte>) {
    Safe(fs0, Moment(fs, false, false), dest, data)
  }

  /** A failure that has happened stays. */
  predicate Later(a: Moment, b: Moment) {
    (a.misread ==> b.misread) && (a.lost ==> b.lost)
  }

  /** The moments recorded from `before` to `after` are safe, and what has failed in them is known now. */
  ghost predicate Course(fs0: Fs, before: seq<Moment>, after: seq<Moment>, now: Moment, dest: string, data: seq<Byte>) {
    before <= after && forall i :: |before| <= i < |after| ==> Safe(fs0, after[i], dest, data) && Later(after[i], now)
  }

  lemma {:induction false} CourseNone(fs0: Fs, h: seq<Moment>, now: Moment, dest: string, data: seq<Byte>)
    ensures Course(fs0, h, h, now, dest, data)
  {
  }

  lemma {:induction false} CourseOn(fs0: Fs, a: seq<Moment>, b: seq<Moment>, m: Moment, c: seq<Moment>, n: Moment, dest: string, data: seq<Byte>)
    requires Course(fs0, a, b, m, dest, data) && Course(fs0, b, c, n, dest, data) && Later(m, n)
    ensures Course(fs0, a, c, n, dest, data)
  {
    hide Safe;
    forall i | |a| <= i < |b| ensures c[i] == b[i] {
    }
  }

  /** Without those two failures no moment is harmed. */
  lemma {:induction false} NoneHarmed(fs0: Fs, before: seq<Moment>, after: seq<Moment>, now: Moment, dest: string, data: seq<Byte>)
    requires Course(fs0, before, after, now, dest, data) && !now.misread && !now.lost
    ensures forall i :: |before| <= i < |after| ==> Unharmed(fs0, after[i].fs, dest, data)
  {
    hide Safe;
    forall i | |before| <= i < |after| ensures Unharmed(fs0, after[i].fs, dest, data) {
      assert after[i] == Moment(after[i].fs, false, false);
    }
  }

  lemma {:induction false} FromMemberLater(a: Fs, b: Fs, dest: string, data: seq<Byte>, k: Key, lost: bool, more: bool)
    requires k in a && k in b && a[k] == b[k] && (forall j :: IsDir(a, j) ==> IsDir(b, j)) && (lost ==> more)
    requires FromMember(a, dest, data, k, lost)
    ensures FromMember(b, dest, data, k, more)
  {
    hide MemberAt, Target, Walk;
    var pos, name, content :| MemberAt(data, pos, name, content) && Locate(a, Target(dest, name)) == Some(k)
      && a[k].data <= content && (!lost ==> a[k].data == content);
    WalkMoreDirs(a, b, Target(dest, name), |Target(dest, name)|);
  }

  /** A tree that has only grown by directories, the temporary file or one member is still safe. */
  lemma {:induction false} SafeLater(fs0: Fs, a: Moment, b: Moment, dest: string, data: seq<Byte>)
    requires Safe(fs0, a, dest, data) && IsTree(b.fs) && Later(a, b) && forall k :: IsDir(a.fs, k) ==> IsDir(b.fs, k)
    requires forall k :: k in a.fs && k != TMP ==>
      k in b.fs && (b.fs[k] == a.fs[k] || (b.misread && a.fs[k].File? && FromMember(b.fs, dest, data, k, b.lost)))
    requires forall k :: k in b.fs && k !in a.fs && k != TMP ==> b.fs[k] == Dir || FromMember(b.fs, dest, data, k, b.lost)
    ensures Safe(fs0, b, dest, data)
  {
    hide FromMember, IsTree;
    forall k | k in b.fs && k in a.fs && k != TMP && b.fs[k] == a.fs[k]
      ensures FromMember(a.fs, dest, data, k, a.lost) ==> FromMember(b.fs, dest, data, k, b.lost)
    {
      if FromMember(a.fs, dest, data, k, a.lost) {
        FromMemberLater(a.fs, b.fs, dest, data, k, a.lost, b.lost);
      }
    }
  }

  lemma {:induction false} SafeTmp(fs0: Fs, m: Moment, dest: string, data: seq<Byte>, bytes: seq<Byte>)
    requires Safe(fs0, m, dest, data) && !IsDir(m.fs, TMP)
    ensures Safe(fs0, m.(fs := m.fs[TMP := File(bytes)]), dest, data)
  {
    hide FromMember;
    WriteTmp(m.fs, bytes);
    SafeLater(fs0, m, m.(fs := m.fs[TMP := File(bytes)]), dest, data);
  }

  lemma {:induction false} SafeMkdir(fs0: Fs, m: Moment, dest: string, data: seq<Byte>, cs: seq<string>)
    requires Safe(fs0, m, dest, data) && TarFs.Mkdir(m.fs, cs, |cs|).Some?
    ensures Safe(fs0, m.(fs := TarFs.Mkdir(m.fs, cs, |cs|).value), dest, data)
  {
    hide FromMember;
    MkdirGrows(m.fs, cs, |cs|);
    SafeLater(fs0, m, m.(fs := TarFs.Mkdir(m.fs, cs, |cs|).value), dest, data);
  }

  lemma {:induction false} SafeMisread(fs0: Fs, a: Moment, b: Moment, dest: string, data: seq<Byte>)
    requires Safe(fs0, a, dest, data) && Later(a, b) && b.fs == a.fs
    ensures Safe(fs0, b, dest, data)
  {
    hide FromMember;
    SafeLater(fs0, a, b, dest, data);
  }

  /** The temporary file, with the given bytes in it, is renamed to the place of a member. */
  ghost predicate Installs(fs: Fs, cs: seq<string>, got: seq<Byte>, r: Fs) {
    !IsDir(fs, TMP) && Rename(fs[TMP := File(got)], cs) == Some(r)
  }

  /**
   * How a member that was completed has been placed: `seen` is the answer of access, and `got` what
   * the temporary file held after its close.  The two failures happen here and nowhere else.
   */
  ghost predicate Placement(a: Moment, b: Moment, cs: seq<string>, content: seq<Byte>, seen: bool, got: seq<Byte>) {
    if seen then Exists(a.fs, cs) && b == a
    else Installs(a.fs, cs, got, b.fs) && got <= content
         && (b.misread <==> a.misread || Exists(a.fs, cs)) && (b.lost <==> a.lost || got != content)
  }

  lemma {:induction false} InstallsIs(fs: Fs, cs: seq<string>, got: seq<Byte>, r: Fs)
    requires IsTree(fs) && Installs(fs, cs, got, r)
    ensures var k := Lead(cs, |cs|);
            Locate(fs, cs) == Some(k) && !IsDir(fs, k) && IsDir(fs, Parent(k))
            && r == if k == TMP then fs[TMP := File(got)] else (fs[TMP := File(got)] - {TMP})[k := File(got)]
  {
    var t := fs[TMP := File(got)];
    WriteTmp(fs, got);
    WalkSameDirs(fs, t, cs, |cs|);
    WalkParent(fs, cs, |cs|);
    WalkIsLead(fs, cs, |cs|);
    hide Walk, Lead, IsTree, Grows;
  }

  lemma {:induction false} ReplacedAt(fs: Fs, k: Key, got: seq<Byte>, r: Fs)
    requires IsTree(fs) && !IsDir(fs, TMP) && !IsDir(fs, k) && IsDir(fs, Parent(k))
    requires r == if k == TMP then fs[TMP := File(got)] else (fs[TMP := File(got)] - {TMP})[k := File(got)]
    ensures IsTree(r) && (forall j :: IsDir(fs, j) <==> IsDir(r, j))
    ensures k in r && r[k] == File(got)
    ensures forall j :: j != k && j != TMP ==> (j in r <==> j in fs) && (j in fs ==> r[j] == fs[j])
  {
    hide Parent;
  }

  lemma {:induction false} InstallsAt(fs: Fs, cs: seq<string>, got: seq<Byte>, r: Fs)
    requires IsTree(fs) && Installs(fs, cs, got, r)
    ensures var k := Lead(cs, |cs|);
            Locate(fs, cs) == Some(k) && Locate(r, cs) == Some(k) && !IsDir(fs, k) && IsTree(r)
            && (forall j :: IsDir(fs, j) <==> IsDir(r, j))
            && k in r && r[k] == File(got) && (forall j :: j != k && j != TMP ==> (j in r <==> j in fs) && (j in fs ==> r[j] == fs[j]))
  {
    InstallsIs(fs, cs, got, r);
    NotOnTmp(fs, cs, got, r);
    hide Walk, Lead, IsTree, Installs;
    ReplacedAt(fs, Lead(cs, |cs|), got, r);
    WalkSameDirs(fs, r, cs, |cs|);
  }

  lemma {:induction false} NotOnTmp(fs: Fs, cs: seq<string>, got: seq<Byte>, r: Fs)
    requires Installs(fs, cs, got, r)
    ensures !IsDir(fs, TMP)
  {
  }

  lemma {:induction false} SafeRename(fs0: Fs, m: Moment, r: Moment, dest: string, data: seq<Byte>, pos: nat, name: string, content: seq<Byte>, got: seq<Byte>)
    requires Safe(fs0, m, dest, data) && Later(m, r) && MemberAt(data, pos, name, content)
    requires Installs(m.fs, Target(dest, name), got, r.fs)
    requires got <= content && (got == content || r.lost) && (Exists(m.fs, Target(dest, name)) ==> r.misread)
    ensures Safe(fs0, r, dest, data)
  {
    var cs := Target(dest, name);
    InstallsAt(m.fs, cs, got, r.fs);
    hide Target, MemberAt, Lead, Walk, IsTree, Installs;
    assert FromMember(r.fs, dest, data, Lead(cs, |cs|), r.lost);
    hide FromMember;
    SafeLater(fs0, m, r, dest, data);
  }

  lemma {:induction false} SafeIsTree(fs0: Fs, m: Moment, dest: string, data: seq<Byte>)
    requires Safe(fs0, m, dest, data)
    ensures IsTree(m.fs)
  {
  }

  lemma {:induction false} SafeStart(m: Moment, dest: string, data: seq<Byte>)
    requires IsTree(m.fs)
    ensures Safe(m.fs, m, dest, data) && Reaches(data, 0, 0)
  {
  }
}
