// Tar archives as they are written: files, headers without data, and the ways an archive ends.
module TarArchive {
  import opened CStrings
  import opened TarFormat
  import opened TarFs
  import opened Tar

  datatype Item = Item(name: seq<Byte>, content: seq<Byte>)

  ghost predicate GoodItem(m: Item) { GoodName(m.name) && |m.content| < Pow8(11) }

  /** A file, or a header without data: of a directory or of a hard link. */
  datatype Entry = Regular(m: Item) | Bare(name: seq<Byte>, link: bool)

  /** What follows the entries: a zero block, a header with a wrong checksum, less than a block, or a member that is not all there. */
  datatype End = ZeroEnd | BadEnd | ShortEnd | CutIn(m: Item)

  ghost predicate AllGood(es: seq<Entry>) {
    forall k :: 0 <= k < |es| && es[k].Regular? ==> GoodItem(es[k].m)
  }

  function Files(es: seq<Entry>): seq<Item> {
    if es == [] then [] else (match es[0] case Regular(m) => [m] case Bare(_, _) => []) + Files(es[1..])
  }

  /** data[pos..] is an archive of the entries, ending in the given way. */
  ghost predicate ArchiveAt(data: seq<Byte>, pos: nat, es: seq<Entry>, end: End)
    decreases |es|
  {
    pos <= |data|
    && if es == [] then EndAt(data, pos, end)
       else
         var body := pos + BLOCK;
         body <= |data|
         && match es[0]
            case Regular(m) =>
              IsHeader(data[pos..body], m.name, |m.content|)
              && body + Padded(|m.content|) <= |data| && data[body..body + |m.content|] == m.content
              && ArchiveAt(data, body + Padded(|m.content|), es[1..], end)
            case Bare(name, link) => IsBare(data[pos..body], name, link) && ArchiveAt(data, body, es[1..], end)
  }

  ghost predicate EndAt(data: seq<Byte>, pos: nat, end: End)
    requires pos <= |data|
  {
    var body := pos + BLOCK;
    match end
    case ZeroEnd => body <= |data| && AllZero(data[pos..body])
    case BadEnd => body <= |data| && IsBad(data[pos..body])
    case ShortEnd => |data| < body
    case CutIn(m) =>
      body <= |data| && IsHeader(data[pos..body], m.name, |m.content|) && |data| < body + Padded(|m.content|)
  }

  // ---------------------------------------------------------------------------
  // A writer
  // ---------------------------------------------------------------------------

  function Zeros(n: nat): (z: seq<Byte>)
    ensures |z| == n && AllZero(z)
  {
    seq(n, i => NUL)
  }

  function WriteEntry(e: Entry): seq<Byte> {
    match e
    case Regular(m) => WriteHeader(m.name, |m.content|, '0') + (m.content + Zeros(Padded(|m.content|) - |m.content|))
    case Bare(name, link) => WriteHeader(name, 0, if link then '1' else '5')
  }

  function Write(es: seq<Entry>): seq<Byte> {
    if es == [] then Zeros(BLOCK) else WriteEntry(es[0]) + Write(es[1..])
  }

  /** A name that a header can hold: that of a directory ends in a slash. */
  ghost predicate Writable(e: Entry) {
    match e
    case Regular(m) => |m.name| <= 99
    case Bare(name, link) => 1 <= |name| <= 99 && NoNul(name) && (link || name[|name| - 1] == '/')
  }

  lemma {:induction false} PaddedLength(n: nat)
    ensures n <= Padded(n) < n + BLOCK && Padded(n) % BLOCK == 0
  {
  }

  lemma {:induction false} TailSlice(data: seq<Byte>, pos: nat, tail: seq<Byte>, a: nat, b: nat)
    requires a <= b <= |tail| && pos + |tail| == |data| && data[pos..] == tail
    ensures data[pos + a..pos + b] == tail[a..b]
  {
    forall x | a <= x < b ensures data[pos + x] == tail[x] {
      assert data[pos..][x] == data[pos + x];
    }
  }

  lemma {:induction false} EndTail(data: seq<Byte>, pos: nat, tail: seq<Byte>, end: End, at: nat)
    requires at <= |tail| && pos + |tail| == |data| && data[pos..] == tail && EndAt(tail, at, end)
    ensures EndAt(data, pos + at, end)
  {
    hide IsHeader, IsBad, AllZero, Padded;
    if at + BLOCK <= |tail| {
      TailSlice(data, pos, tail, at, at + BLOCK);
    }
  }

  lemma {:induction false} ArchiveTail(data: seq<Byte>, pos: nat, tail: seq<Byte>, es: seq<Entry>, end: End, at: nat)
    requires at <= |tail| && pos + |tail| == |data| && data[pos..] == tail && ArchiveAt(tail, at, es, end)
    ensures ArchiveAt(data, pos + at, es, end)
    decreases |es|
  {
    hide IsHeader, IsBare, EndAt, Padded;
    if es == [] {
      EndTail(data, pos, tail, end, at);
    } else {
      var body := at + BLOCK;
      TailSlice(data, pos, tail, at, body);
      match es[0]
      case Regular(m) =>
        PaddedLength(|m.content|);
        TailSlice(data, pos, tail, body, body + |m.content|);
        ArchiveTail(data, pos, tail, es[1..], end, body + Padded(|m.content|));
      case Bare(name, link) =>
        ArchiveTail(data, pos, tail, es[1..], end, body);
    }
  }

  lemma {:induction false} WrittenEntry(e: Entry, rest: seq<Byte>)
    requires Writable(e)
    ensures var data := WriteEntry(e) + rest;
            BLOCK <= |WriteEntry(e)| && data[|WriteEntry(e)|..] == rest
            && match e
               case Regular(m) =>
                 |WriteEntry(e)| == BLOCK + Padded(|m.content|) && IsHeader(data[0..BLOCK], m.name, |m.content|)
                 && data[BLOCK..BLOCK + |m.content|] == m.content
               case Bare(name, link) => |WriteEntry(e)| == BLOCK && IsBare(data[0..BLOCK], name, link)
  {
    hide IsHeader, IsBare, AllZero, Padded, WriteHeader;
    var data := WriteEntry(e) + rest;
    match e
    case Regular(m) =>
      PaddedLength(|m.content|);
      WrittenHeader(m.name, |m.content|, '0');
      assert data[0..BLOCK] == WriteHeader(m.name, |m.content|, '0');
      assert data[BLOCK..BLOCK + |m.content|] == m.content;
    case Bare(name, link) =>
      WrittenHeader(name, 0, if link then '1' else '5');
      assert data[0..BLOCK] == WriteEntry(e);
  }

  lemma {:induction false} WrittenArchive(es: seq<Entry>)
    requires forall k :: 0 <= k < |es| ==> Writable(es[k])
    ensures ArchiveAt(Write(es), 0, es, ZeroEnd)
    decreases |es|
  {
    hide IsHeader, IsBare, AllZero, Padded, WriteEntry, Writable;
    var data := Write(es);
    if es == [] {
      assert data[0..BLOCK] == data;
    } else {
      var n, rest := |WriteEntry(es[0])|, Write(es[1..]);
      WrittenEntry(es[0], rest);
      WrittenArchive(es[1..]);
      ArchiveTail(data, n, rest, es[1..], ZeroEnd, 0);
    }
  }

  // ---------------------------------------------------------------------------
  // Reading an archive back
  // ---------------------------------------------------------------------------

  /** The members one after the other. */
  ghost function Unpack(fs: Fs, dest: string, items: seq<Item>): (Outcome, Fs)
    decreases |items|
  {
    if items == [] then (Done, fs)
    else
      var r := MemberStep(fs, dest, items[0].name, true, items[0].content);
      if r.0.Some? then (r.0.value, r.1) else Unpack(r.1, dest, items[1..])
  }

  /** Everything in a is in b, but for the temporary file, and what is new is a directory. */
  ghost predicate OnlyDirectories(a: Fs, b: Fs) {
    forall k :: k != TMP ==> (k in a ==> k in b && b[k] == a[k]) && (k in b && k !in a ==> b[k] == Dir)
  }

  lemma {:induction false} HeaderOfItem(block: seq<Byte>, m: Item)
    requires IsHeader(block, m.name, |m.content|) && GoodItem(m)
    ensures |block| == BLOCK && Classify(block) == Member(m.name, |m.content|)
  {
    HeaderRoundTrip(block, m.name, |m.content|);
  }

  lemma {:induction false} ZeroBlock(block: seq<Byte>)
    requires |block| == BLOCK && AllZero(block)
    ensures Classify(block) == Zero
  {
  }

  lemma {:induction false} MkdirsOnly(fs: Fs, cs: seq<string>, n: nat)
    requires n <= |cs|
    ensures OnlyDirectories(fs, Mkdirs(fs, cs, n).1)
    decreases n
  {
    hide Walk;
    if n > 0 {
      MkdirsOnly(fs, cs, n - 1);
    }
  }

  /** A member of which something is missing fails, and leaves only its directories and the temporary file. */
  lemma {:induction false} CutStep(fs: Fs, dest: string, name: string, content: seq<Byte>)
    ensures var r := MemberStep(fs, dest, name, false, content);
            (r.0 == Some(Failed) || r.0 == Some(NoDirectory)) && OnlyDirectories(fs, r.1)
  {
    hide Target, Mkdirs, Exists;
    var cs := Target(dest, name);
    if '/' in name && cs != [] {
      MkdirsOnly(fs, cs, |cs| - 1);
    }
  }

  /** What follows the last entry decides how the run ends, and adds no file. */
  lemma {:induction false} ExtractEnd(fs: Fs, dest: string, data: seq<Byte>, pos: nat, end: End)
    requires pos <= |data| && EndAt(data, pos, end) && (end.CutIn? ==> GoodItem(end.m))
    ensures var x := Extract(fs, dest, data, pos);
            match end
            case ZeroEnd => x == (Done, fs)
            case BadEnd => x == (Failed, fs)
            case ShortEnd => x == (Failed, fs)
            case CutIn(m) => (x.0 == Failed || x.0 == NoDirectory) && OnlyDirectories(fs, x.1)
  {
    hide IsHeader, IsBad, AllZero, Classify, MemberStep, GoodItem, Contents, Padded, OnlyDirectories;
    var body := pos + BLOCK;
    match end
    case ZeroEnd => ZeroBlock(data[pos..body]);
    case BadEnd =>
      BadIsCorrupt(data[pos..body]);
    case ShortEnd =>
    case CutIn(m) =>
      HeaderOfItem(data[pos..body], m);
      CutStep(fs, dest, m.name, Contents(data, body, |m.content|));
  }

  /**
   * The extractor sees exactly the files that were written, whatever their contents look like, and goes
   * on behind headers without data.
   */
  lemma {:induction false} ExtractArchive(fs: Fs, dest: string, data: seq<Byte>, pos: nat, es: seq<Entry>, end: End)
    requires pos <= |data| && ArchiveAt(data, pos, es, end) && AllGood(es) && (end.CutIn? ==> GoodItem(end.m))
    ensures var u, x := Unpack(fs, dest, Files(es)), Extract(fs, dest, data, pos);
            if u.0 != Done then x == u
            else match end
                 case ZeroEnd => x == u
                 case BadEnd => x == (Failed, u.1)
                 case ShortEnd => x == (Failed, u.1)
                 case CutIn(m) => (x.0 == Failed || x.0 == NoDirectory) && OnlyDirectories(u.1, x.1)
    decreases |es|
  {
    hide IsHeader, IsBare, EndAt, Classify, MemberStep, GoodItem, OnlyDirectories;
    if es == [] {
      ExtractEnd(fs, dest, data, pos, end);
    } else {
      var body := pos + BLOCK;
      match es[0]
      case Regular(m) =>
        ExtractRegular(fs, dest, data, pos, m);
        FilesStep(es);
        UnpackStep(fs, dest, Files(es));
        NeverDone(fs, dest, m.name, m.content);
        hide Extract, Unpack;
        var r := MemberStep(fs, dest, m.name, true, m.content);
        if r.0.None? {
          ExtractArchive(r.1, dest, data, body + Padded(|m.content|), es[1..], end);
        }
      case Bare(name, link) =>
        BareSkipped(data[pos..body], name, link);
        FilesStep(es);
        ExtractArchive(fs, dest, data, body, es[1..], end);
    }
  }

  /** A file that is all there is extracted, and what follows its padding is read next. */
  lemma {:induction false} ExtractRegular(fs: Fs, dest: string, data: seq<Byte>, pos: nat, m: Item)
    requires pos + BLOCK + Padded(|m.content|) <= |data| && GoodItem(m)
    requires IsHeader(data[pos..pos + BLOCK], m.name, |m.content|)
    requires data[pos + BLOCK..pos + BLOCK + |m.content|] == m.content
    ensures var r := MemberStep(fs, dest, m.name, true, m.content);
            Extract(fs, dest, data, pos) ==
            if r.0.Some? then (r.0.value, r.1) else Extract(r.1, dest, data, pos + BLOCK + Padded(|m.content|))
  {
    hide IsHeader, Classify, MemberStep, GoodItem;
    HeaderOfItem(data[pos..pos + BLOCK], m);
    PaddedLength(|m.content|);
    assert Contents(data, pos + BLOCK, |m.content|) == m.content;
  }

  lemma {:induction false} UnpackStep(fs: Fs, dest: string, items: seq<Item>)
    requires items != []
    ensures var r := MemberStep(fs, dest, items[0].name, true, items[0].content);
            Unpack(fs, dest, items) == if r.0.Some? then (r.0.value, r.1) else Unpack(r.1, dest, items[1..])
  {
    hide MemberStep;
  }

  lemma {:induction false} UnpackTwo(fs: Fs, dest: string, a: Item, b: Item, mid: Fs, last: Fs)
    requires MemberStep(fs, dest, a.name, true, a.content) == (None, mid)
    requires MemberStep(mid, dest, b.name, true, b.content) == (None, last)
    ensures Unpack(fs, dest, [a, b]) == (Done, last)
  {
    hide MemberStep;
    assert [a, b][1..] == [b] && [b][1..] == [] && Unpack(last, dest, []) == (Done, last);
    UnpackStep(fs, dest, [a, b]);
    UnpackStep(mid, dest, [b]);
  }

  lemma {:induction false} FilesStep(es: seq<Entry>)
    requires es != []
    ensures match es[0]
            case Regular(m) => Files(es) != [] && Files(es)[0] == m && Files(es)[1..] == Files(es[1..])
            case Bare(_, _) => Files(es) == Files(es[1..])
  {
  }

  /** A member never ends the run well. */
  lemma {:induction false} NeverDone(fs: Fs, dest: string, name: string, content: seq<Byte>)
    ensures MemberStep(fs, dest, name, true, content).0 != Some(Done)
  {
    hide Target, Prepared, Exists, Rename;
  }

  lemma {:induction false} TwoFiles(a: Item, b: Item)
    ensures Files([Regular(a), Regular(b)]) == [a, b] && Files([Regular(a)]) == [a]
  {
    FilesStep([Regular(a), Regular(b)]);
    FilesStep([Regular(b)]);
    FilesStep([Regular(a)]);
    assert [Regular(a), Regular(b)][1..] == [Regular(b)] && [Regular(b)][1..] == [] && [Regular(a)][1..] == [];
    assert Files([Regular(b)]) == [b];
  }
}
