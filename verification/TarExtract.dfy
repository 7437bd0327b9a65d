// extract_tar of src/tar.c over a raw archive, block by block, with every call that may fail.
module TarExtract {
  import opened CStrings
  import opened Paths
  import opened TarFormat
  import opened TarFs
  import opened Tar
  import opened TarStreams
  import opened TarSafety

  // ---------------------------------------------------------------------------
  // The checksum
  // ---------------------------------------------------------------------------

  /** test_checksum */
  method TestChecksum(header: array<Byte>) returns (ok: bool)
    requires header.Length == BLOCK && Declared(header[..]).Some?
    ensures ok <==> ChecksumOk(header[..])
  {
    var test := new Byte[BLOCK](i requires 0 <= i < BLOCK reads header => if InChecksum(i) then ' ' else header[i]);
    var a := Declared(header[..]).value;
    var b, i := 0, 0;
    while i < BLOCK
      invariant 0 <= i <= BLOCK && b == Sum(header[..], i)
    {
      b := b + test[i] as int;
      i := i + 1;
    }
    ok := a == b;
  }

  // ---------------------------------------------------------------------------
  // tar_mkdirs
  // ---------------------------------------------------------------------------

  ghost predicate IsLastSlash(path: string, i: int) {
    -1 <= i < |path| && (i >= 0 ==> path[i] == '/') && forall x :: i < x < |path| ==> path[x] != '/'
  }

  /** The index of the last slash; -1 for none. */
  function LastSlashOf(path: string): (i: int)
    ensures IsLastSlash(path, i)
  {
    if path == "" then -1
    else if path[|path| - 1] == '/' then |path| - 1
    else
      var init := path[..|path| - 1];
      var i := LastSlashOf(init);
      assert forall x :: 0 <= x < |init| ==> path[x] == init[x];
      i
  }

  /** The part of a path before its last slash, and the name behind it. */
  function ParentPath(path: string): string {
    if LastSlashOf(path) < 0 then "" else path[..LastSlashOf(path)]
  }

  function LastName(path: string): string {
    path[LastSlashOf(path) + 1..]
  }

  /** strrchr(path, '/') */
  method LastSlash(path: string) returns (i: int)
    ensures i == LastSlashOf(path)
  {
    i := |path| - 1;
    while i >= 0 && path[i] != '/'
      invariant -1 <= i < |path| && forall x :: i < x < |path| ==> path[x] != '/'
    {
      i := i - 1;
    }
  }

  lemma {:induction false} ParentAndName(path: string)
    ensures '/' !in LastName(path)
    ensures if LastSlashOf(path) < 0 then path == LastName(path) && ParentPath(path) == ""
            else path == ParentPath(path) + ("/" + LastName(path))
  {
    var i := LastSlashOf(path);
    hide LastSlashOf;
    assert i >= 0 ==> path == path[..i] + ("/" + path[i + 1..]);
  }

  /** The components of a path are those of its parent, and the name behind the last slash. */
  lemma {:induction false} ParentComponents(path: string)
    ensures Components(path) == Components(ParentPath(path)) + if LastName(path) == "" then [] else [LastName(path)]
  {
    hide *;
    ParentAndName(path);
    if LastSlashOf(path) < 0 {
      NameAlone(path);
    } else {
      LastComponent(ParentPath(path), LastName(path));
    }
  }

  lemma {:induction false} NameAlone(c: string)
    requires '/' !in c
    ensures Components(c) == Components("") + if c == "" then [] else [c]
  {
    hide Components;
    if c == "" {
      EmptyComponents();
    } else {
      OnlyComponent(c);
    }
  }

  lemma {:induction false} WalkPrefix(fs: Fs, cs: seq<string>, ds: seq<string>, n: nat)
    requires n <= |cs| && n <= |ds| && forall k :: 0 <= k < n ==> cs[k] == ds[k]
    ensures Walk(fs, cs, n) == Walk(fs, ds, n)
    decreases n
  {
    if n > 0 {
      WalkPrefix(fs, cs, ds, n - 1);
    }
  }

  lemma {:induction false} MkdirsPrefix(fs: Fs, cs: seq<string>, ds: seq<string>, n: nat)
    requires n <= |cs| && n <= |ds| && forall k :: 0 <= k < n ==> cs[k] == ds[k]
    ensures Mkdirs(fs, cs, n) == Mkdirs(fs, ds, n)
    decreases n
  {
    if n > 0 {
      MkdirsPrefix(fs, cs, ds, n - 1);
      WalkPrefix(Mkdirs(fs, cs, n - 1).1, cs, ds, n);
    }
  }

  /** The last directory made is there. */
  lemma {:induction false} MkdirOnceMore(fs: Fs, cs: seq<string>, n: nat)
    requires IsTree(fs) && n <= |cs| && Mkdirs(fs, cs, n).0
    ensures var r := Mkdirs(fs, cs, n).1; TarFs.Mkdir(r, cs, n) == Some(r)
  {
    if n > 0 {
      MkdirsGrow(fs, cs, n - 1);
      MkdirGrows(Mkdirs(fs, cs, n - 1).1, cs, n);
    }
  }

  /** mkdir of a path after its parents is one more step of the same chain. */
  lemma {:induction false} MkdirsStep(fs: Fs, path: string)
    requires IsTree(fs)
    ensures var ps, cs := Components(ParentPath(path)), Components(path);
            var r := Mkdirs(fs, ps, |ps|);
            Mkdirs(fs, cs, |cs|) ==
            if !r.0 then r
            else if TarFs.Mkdir(r.1, cs, |cs|).None? then (false, r.1) else (true, TarFs.Mkdir(r.1, cs, |cs|).value)
  {
    hide Components, TarFs.Mkdir, ParentPath, LastName, Mkdirs;
    var ps, cs := Components(ParentPath(path)), Components(path);
    ParentPrefix(path);
    MkdirsPrefix(fs, cs, ps, |ps|);
    if LastName(path) == "" {
      if Mkdirs(fs, cs, |cs|).0 {
        MkdirOnceMore(fs, cs, |cs|);
      }
    } else {
      MkdirsOnce(fs, cs, |cs|);
    }
  }

  /** The path that mkdir is given. */
  lemma {:induction false} CutIs(path: string)
    ensures ParentPath(path) == if LastSlashOf(path) > 0 then path[..LastSlashOf(path)] else ""
  {
  }

  /** mkdir, and whether the directory is there. */
  method MakeDirectory(sys: FileSystem, path: string, ghost fs0: Fs, ghost dest: string, ghost data: seq<Byte>) returns (ok: bool)
    requires Safe(fs0, sys.Now(), dest, data)
    modifies sys`fs, sys`calls, sys`history
    ensures Safe(fs0, sys.Now(), dest, data)
    ensures Course(fs0, old(sys.history), sys.history, sys.Now(), dest, data)
    ensures var cs := Components(path);
            var m := TarFs.Mkdir(old(sys.fs), cs, |cs|);
            (ok ==> m == Some(sys.fs)) && (!ok ==> sys.fs == old(sys.fs)) && (sys.Faultless() ==> (ok <==> m.Some?))
  {
    hide Safe, Components, TarFs.Mkdir;
    ghost var m := sys.Now();
    var r := sys.Mkdir(path);
    ok := !r.MkdirError?;
    if ok {
      SafeMkdir(fs0, m, dest, data, Components(path));
      assert sys.Now() == m.(fs := sys.fs);
    } else {
      assert sys.Now() == m;
    }
  }

  /** tar_mkdirs */
  method TarMkdirs(sys: FileSystem, path: string, ghost fs0: Fs, ghost dest: string, ghost data: seq<Byte>) returns (ok: bool)
    requires |path| < 128 && Safe(fs0, sys.Now(), dest, data)
    modifies sys`fs, sys`calls, sys`history
    ensures Safe(fs0, sys.Now(), dest, data)
    ensures Course(fs0, old(sys.history), sys.history, sys.Now(), dest, data)
    ensures sys.Faultless() ==> var cs := Components(ParentPath(path)); (ok, sys.fs) == Mkdirs(old(sys.fs), cs, |cs|)
    decreases |path|
  {
    hide Safe, Course, Components, TarFs.Mkdir, Walk, ParentPath, LastName, LastSlashOf, IsLastSlash, IsTree;
    CourseNone(fs0, sys.history, sys.Now(), dest, data);
    CutIs(path);
    var last := LastSlash(path);
    SafeIsTree(fs0, sys.Now(), dest, data);
    EmptyComponents();
    if last > 0 {
      LastSlashIn(path);
      var cut := path[..last];
      var i := LastSlash(cut);
      MkdirsStep(sys.fs, cut);
      if i >= 0 {
        ok := TarMkdirs(sys, cut, fs0, dest, data);
        if !ok {
          return;
        }
      } else {
        CutIs(cut);
      }
      ghost var h, m := sys.history, sys.Now();
      ok := MakeDirectory(sys, cut, fs0, dest, data);
      CourseOn(fs0, old(sys.history), h, m, sys.history, sys.Now(), dest, data);
      return;
    }
    ok := true;
  }

  lemma {:induction false} LastSlashIn(path: string)
    ensures LastSlashOf(path) < |path|
  {
  }

  lemma {:induction false} EmptyComponents()
    ensures Components("") == []
  {
  }

  // ---------------------------------------------------------------------------
  // extract_tar
  // ---------------------------------------------------------------------------

  lemma {:induction false} TakeMore(done: seq<Byte>, block: seq<Byte>, n: nat, w: nat)
    requires n + w <= |block|
    ensures done + block[..n] + block[n..][..w] == done + block[..n + w]
  {
    assert block[..n] + block[n..][..w] == block[..n + w];
  }

  /** The stream takes w more bytes. */
  lemma {:induction false} WritingMore(fs: Fs, base: Fs, was: seq<Byte>, held: seq<Byte>, n: nat, bytes: seq<Byte>)
    requires n <= |held| && TMP in fs && fs[TMP] == File(was + held[..n]) && fs == base[TMP := fs[TMP]] && was + held == bytes
    ensures fs[TMP].data + held[n..] == bytes
  {
    assert held[..n] + held[n..] == held;
  }

  /** One fwrite, with the bytes the stream has taken by then. */
  method WriteSome(sys: FileSystem, rest: seq<Byte>, ghost base: Fs, ghost done: seq<Byte>,
                   ghost fs0: Fs, ghost dest: string, ghost data: seq<Byte>) returns (w: nat, failed: bool)
    requires Safe(fs0, sys.Now().(fs := base), dest, data) && !IsDir(base, TMP) && sys.Writing(base, done) && rest != []
    modifies sys`fs, sys`pending, sys`calls, sys`history
    ensures w <= |rest| && sys.Writing(base, done + rest[..w]) && (!failed ==> w > 0)
    ensures Course(fs0, old(sys.history), sys.history, sys.Now(), dest, data)
    ensures sys.Faultless() ==> !failed
  {
    hide Safe;
    ghost var was, held0 := sys.fs[TMP].data, sys.pending;
    w, failed := sys.WriteTmp(rest);
    ghost var held := held0 + rest[..w];
    assert was + held == done + rest[..w];
    WritingMore(sys.fs, base, was, held, |held| - |sys.pending|, done + rest[..w]);
    SafeTmp(fs0, sys.Now().(fs := base), dest, data, sys.fs[TMP].data);
    assert sys.Now() == sys.Now().(fs := base[TMP := sys.fs[TMP]]);
  }

  /** fwrite until the block is out or fails. */
  method WriteBlock(sys: FileSystem, block: seq<Byte>, ghost base: Fs, ghost done: seq<Byte>,
                    ghost fs0: Fs, ghost dest: string, ghost data: seq<Byte>) returns (ok: bool, ghost wc: nat)
    requires Safe(fs0, sys.Now().(fs := base), dest, data) && !IsDir(base, TMP) && sys.Writing(base, done)
    modifies sys`fs, sys`pending, sys`calls, sys`history
    ensures wc <= |block| && sys.Writing(base, done + block[..wc])
    ensures Course(fs0, old(sys.history), sys.history, sys.Now(), dest, data)
    ensures ok ==> wc == |block|
    ensures sys.Faultless() ==> ok
  {
    hide Safe;
    var n: nat := 0;
    assert done + block[..0] == done;
    while n < |block|
      invariant n <= |block| && sys.Writing(base, done + block[..n])
      invariant Course(fs0, old(sys.history), sys.history, sys.Now(), dest, data)
    {
      var w, failed := WriteSome(sys, block[n..], base, done + block[..n], fs0, dest, data);
      TakeMore(done, block, n, w);
      n := n + w;
      if failed {
        return false, n;
      }
    }
    return true, n;
  }

  lemma {:induction false} PaddedNext(count: nat, w: nat)
    requires count % BLOCK == 0 && 1 <= w <= BLOCK
    ensures Padded(count + w) == count + BLOCK && (w == BLOCK ==> (count + w) % BLOCK == 0)
  {
    var q := count / BLOCK;
    assert count == q * BLOCK;
    assert (count + w + 511) / 512 == q + 1;
  }

  lemma {:induction false} SliceMore(data: seq<Byte>, a: nat, b: nat, w: nat)
    requires a <= b && b + BLOCK <= |data| && w <= BLOCK
    ensures data[a..b] + data[b..b + BLOCK][..w] == data[a..b + w]
  {
    assert data[b..b + BLOCK][..w] == data[b..b + w];
  }

  lemma {:induction false} NextBlock(data: seq<Byte>, body: nat, size: nat, count: nat, w: nat)
    requires count % BLOCK == 0 && w == (if size - count > BLOCK then BLOCK else size - count) && count < size
    requires body + count + BLOCK <= |data|
    ensures body + Padded(count + w) == body + count + BLOCK
    ensures data[body..body + count] + data[body + count..body + count + BLOCK][..w] == data[body..body + count + w]
    ensures count + w == size || (count + w) % BLOCK == 0
  {
    hide Padded;
    PaddedNext(count, w);
    SliceMore(data, body, body + count, w);
  }

  /** The body of a member that ends early leaves its whole blocks in the temporary file. */
  lemma {:induction false} EndsInBody(data: seq<Byte>, body: nat, size: nat, count: nat)
    requires body + count <= |data| && count % BLOCK == 0 && count < size && |data| - (body + count) < BLOCK
    ensures body + Padded(size) > |data| && Contents(data, body, size) == data[body..body + count]
  {
    PaddedMore(size, count);
    assert (|data| - body) / BLOCK * BLOCK == count;
  }

  lemma {:induction false} PaddedMore(size: nat, count: nat)
    requires count % BLOCK == 0 && count < size
    ensures Padded(size) >= count + BLOCK
  {
  }

  lemma {:induction false} PaddedExact(n: nat)
    ensures n <= Padded(n) && (n % BLOCK == 0 ==> Padded(n) == n)
  {
  }

  /** The stream has taken the bytes, if it is open; without it nothing is written. */
  ghost predicate Receiving(sys: FileSystem, open: bool, base: Fs, bytes: seq<Byte>)
    reads sys
  {
    if open then sys.Writing(base, bytes) else sys.fs == base && sys.pending == []
  }

  lemma {:induction false} ReceivingSettles(sys: FileSystem, open: bool, base: Fs, bytes: seq<Byte>)
    requires Receiving(sys, open, base, bytes)
    ensures sys.Settled() == if open then base[TMP := File(bytes)] else base
    ensures if open then TMP in sys.fs && sys.fs[TMP].File? && sys.fs == base[TMP := File(sys.fs[TMP].data)]
            else sys.fs == base && sys.pending == []
    ensures open ==> sys.Writing(base, bytes)
  {
  }

  /** The bytes of a block go to the temporary file, if it is open. */
  method WriteOut(sys: FileSystem, block: seq<Byte>, open: bool, ghost base: Fs, ghost done: seq<Byte>,
                  ghost fs0: Fs, ghost dest: string, ghost data: seq<Byte>) returns (ok: bool, ghost bytes: seq<Byte>)
    requires Safe(fs0, sys.Now().(fs := base), dest, data)
    requires (open ==> !IsDir(base, TMP)) && Receiving(sys, open, base, done)
    modifies sys`fs, sys`pending, sys`calls, sys`history
    ensures Receiving(sys, open, base, bytes)
    ensures Course(fs0, old(sys.history), sys.history, sys.Now(), dest, data)
    ensures ok ==> bytes == done + block
    ensures sys.Faultless() ==> ok
  {
    hide Safe;
    ok, bytes := true, done + block;
    if open {
      var written, wc := WriteBlock(sys, block, base, done, fs0, dest, data);
      ok, bytes := written, done + block[..wc];
      assert ok ==> block[..wc] == block;
    }
  }

  /** One turn of the data loop: a block is read and its first wsize bytes go to the temporary file. */
  method CopyBlock(sys: FileSystem, reader: Reader, buf: array<Byte>, wsize: nat, open: bool, ghost base: Fs, ghost done: seq<Byte>,
                   ghost fs0: Fs, ghost dest: string) returns (ok: bool, ghost bytes: seq<Byte>)
    requires reader.Valid() && buf.Length == BLOCK && wsize <= BLOCK && Safe(fs0, sys.Now().(fs := base), dest, reader.data)
    requires (open ==> !IsDir(base, TMP)) && Receiving(sys, open, base, done)
    modifies sys`fs, sys`pending, sys`calls, sys`history, reader`pos, reader`calls, buf
    ensures reader.Valid() && Receiving(sys, open, base, bytes)
    ensures Course(fs0, old(sys.history), sys.history, sys.Now(), dest, reader.data)
    ensures ok ==> reader.pos == old(reader.pos) + BLOCK
                   && bytes == done + reader.data[old(reader.pos)..old(reader.pos) + BLOCK][..wsize]
    ensures sys.Faultless() && reader.Faultless() ==>
              (ok <==> old(reader.pos) + BLOCK <= |reader.data|) && (!ok ==> bytes == done)
  {
    hide Safe, Receiving, Course;
    CourseNone(fs0, sys.history, sys.Now(), dest, reader.data);
    var r := reader.RawRead(buf);
    if !r.Full? {
      return false, done;
    }
    assert buf[..wsize] == buf[..][..wsize];
    ok, bytes := WriteOut(sys, buf[..wsize], open, base, done, fs0, dest, reader.data);
  }

  /** The data loop of extract_tar; `open` is whether the temporary file is being written. */
  method CopyBody(sys: FileSystem, reader: Reader, size: nat, open: bool, ghost base: Fs, ghost fs0: Fs, ghost dest: string)
    returns (ok: bool, ghost bytes: seq<Byte>)
    requires reader.Valid() && Safe(fs0, sys.Now().(fs := base), dest, reader.data)
    requires (open ==> !IsDir(base, TMP)) && Receiving(sys, open, base, [])
    modifies sys`fs, sys`pending, sys`calls, sys`history, reader`pos, reader`calls
    ensures reader.Valid()
    ensures Course(fs0, old(sys.history), sys.history, sys.Now(), dest, reader.data)
    ensures Receiving(sys, open, base, bytes)
    ensures ok ==> old(reader.pos) + Padded(size) == reader.pos
                   && bytes == reader.data[old(reader.pos)..old(reader.pos) + size]
    ensures sys.Faultless() && reader.Faultless() ==>
              (ok <==> old(reader.pos) + Padded(size) <= |reader.data|)
              && bytes == Contents(reader.data, old(reader.pos), size)
  {
    hide Safe, Contents, Padded, Receiving, Course;
    CourseNone(fs0, sys.history, sys.Now(), dest, reader.data);
    var buf := new Byte[BLOCK](_ => NUL);
    var count: nat := 0;
    ghost var body, data, h0 := reader.pos, reader.data, sys.history;
    PaddedExact(0);
    bytes := [];
    assert data[body..body] == [];
    while count < size
      invariant reader.Valid() && count <= size && (count == size || count % BLOCK == 0)
      invariant reader.pos == body + Padded(count) && body + count <= |data|
      invariant bytes == data[body..body + count] && Receiving(sys, open, base, bytes)
      invariant Course(fs0, h0, sys.history, sys.Now(), dest, data)
    {
      PaddedExact(count);
      var wsize := if size - count > BLOCK then BLOCK else size - count;
      ghost var h, m := sys.history, sys.Now();
      ok, bytes := CopyBlock(sys, reader, buf, wsize, open, base, bytes, fs0, dest);
      CourseOn(fs0, h0, h, m, sys.history, sys.Now(), dest, data);
      if !ok {
        if sys.Faultless() && reader.Faultless() {
          EndsInBody(data, body, size, count);
        }
        return;
      }
      NextBlock(data, body, size, count, wsize);
      count := count + wsize;
    }
    WholeBody(data, body, size);
    ok := true;
  }

  lemma {:induction false} WholeBody(data: seq<Byte>, body: nat, size: nat)
    requires body + Padded(size) <= |data|
    ensures Contents(data, body, size) == data[body..body + size]
  {
  }

  lemma {:induction false} MemberName(block: seq<Byte>, name: string, size: nat)
    requires |block| == BLOCK && Classify(block) == Member(name, size)
    ensures 1 <= |name| <= 99 && name[|name| - 1] != '/'
  {
  }

  lemma {:induction false} PreparedIs(fs: Fs, dest: string, name: string)
    requires name != "" && name[|name| - 1] != '/' && '/' in name
    ensures var ps := Components(ParentPath(dest + "/" + name)); Prepared(fs, dest, name) == Mkdirs(fs, ps, |ps|)
  {
    hide *;
    var path := dest + "/" + name;
    var ps, cs := Components(ParentPath(path)), Components(path);
    NameBehind(dest, name);
    ParentPrefix(path);
    TargetIs(dest, name);
    PreparedBy(fs, dest, name);
    MkdirsPrefix(fs, cs, ps, |ps|);
  }

  /** Something stands behind the last slash of the path of a member. */
  lemma {:induction false} NameBehind(dest: string, name: string)
    requires name != "" && name[|name| - 1] != '/'
    ensures LastName(dest + "/" + name) != ""
  {
    var path := dest + "/" + name;
    assert path[|path| - 1] == name[|name| - 1];
  }

  lemma {:induction false} PreparedBy(fs: Fs, dest: string, name: string)
    requires '/' in name && Target(dest, name) != []
    ensures Prepared(fs, dest, name) == Mkdirs(fs, Target(dest, name), |Target(dest, name)| - 1)
  {
    hide Target, Mkdirs;
  }

  lemma {:induction false} ParentPrefix(path: string)
    ensures var ps, cs, c := Components(ParentPath(path)), Components(path), LastName(path);
            |cs| == |ps| + (if c == "" then 0 else 1) && (c != "" ==> cs != []) && forall k :: 0 <= k < |ps| ==> cs[k] == ps[k]
  {
    hide Components, ParentPath, LastName;
    ParentComponents(path);
  }

  /** What fclose leaves of the bytes written: all of them, or fewer when it loses some. */
  lemma {:induction false} ClosedWith(was: seq<Byte>, held: seq<Byte>, n: nat, bytes: seq<Byte>)
    requires was + held == bytes && n <= |held|
    ensures was + held[..n] <= bytes && (was + held[..n] == bytes <==> n == |held|)
  {
    assert held[..|held|] == held;
    assert |was + held[..n]| == |was| + n;
  }

  /** fclose on the temporary file, its result not looked at. */
  method CloseBody(sys: FileSystem, ghost base: Fs, ghost bytes: seq<Byte>, ghost fs0: Fs, ghost dest: string, ghost data: seq<Byte>)
    returns (ghost got: seq<Byte>)
    requires Safe(fs0, sys.Now().(fs := base), dest, data) && !IsDir(base, TMP) && sys.Writing(base, bytes)
    modifies sys`fs, sys`pending, sys`calls, sys`lost, sys`history
    ensures sys.fs == base[TMP := File(got)] && sys.pending == []
    ensures got <= bytes && (sys.lost <==> old(sys.lost) || got != bytes)
    ensures Safe(fs0, sys.Now().(fs := base), dest, data)
    ensures Course(fs0, old(sys.history), sys.history, sys.Now(), dest, data)
    ensures sys.Faultless() ==> got == bytes
  {
    hide Safe;
    ghost var was, held := sys.fs[TMP].data, sys.pending;
    ghost var before := sys.Now().(fs := base);
    sys.CloseTmp();
    got := sys.fs[TMP].data;
    ClosedWith(was, held, |got| - |was|, bytes);
    SafeMisread(fs0, before, sys.Now().(fs := base), dest, data);
    SafeTmp(fs0, sys.Now().(fs := base), dest, data, got);
    assert sys.Now() == sys.Now().(fs := base[TMP := File(got)]);
  }

  /** access and, unless there is a file, fopen; ready is false when that fails. */
  method BeginMember(sys: FileSystem, path: string, ghost fs0: Fs, ghost dest: string, ghost data: seq<Byte>)
    returns (there: bool, ready: bool)
    requires Safe(fs0, sys.Now(), dest, data) && sys.pending == []
    modifies sys`fs, sys`pending, sys`calls, sys`misread, sys`history
    ensures if ready then Receiving(sys, !there, old(sys.fs), []) else !there && sys.fs == old(sys.fs) && sys.pending == []
    ensures there ==> Exists(old(sys.fs), Components(path))
    ensures ready && !there ==> !IsDir(old(sys.fs), TMP)
    ensures sys.misread <==> old(sys.misread) || (!there && Exists(old(sys.fs), Components(path)))
    ensures Safe(fs0, sys.Now().(fs := old(sys.fs)), dest, data) && Safe(fs0, sys.Now(), dest, data)
    ensures Course(fs0, old(sys.history), sys.history, sys.Now(), dest, data)
    ensures sys.Faultless() ==> (there <==> Exists(old(sys.fs), Components(path)))
                                && (!there ==> (ready <==> !IsDir(old(sys.fs), TMP)))
  {
    hide Safe, Exists, Components;
    ghost var start := sys.Now();
    there := sys.CheckFile(path);
    ready := true;
    SafeMisread(fs0, start, sys.Now(), dest, data);
    ghost var checked := sys.Now();
    assert checked == checked.(fs := start.fs);
    if !there {
      ready := sys.OpenTmp();
      if ready {
        SafeTmp(fs0, checked, dest, data, []);
        assert sys.Now() == checked.(fs := start.fs[TMP := File([])]);
      }
    }
  }

  /** fclose and rename. */
  method FinishMember(sys: FileSystem, path: string, name: string, ghost base: Fs, ghost bytes: seq<Byte>,
                      ghost fs0: Fs, ghost dest: string, ghost data: seq<Byte>, ghost pos: nat)
    returns (ok: bool, ghost got: seq<Byte>)
    requires Safe(fs0, sys.Now().(fs := base), dest, data) && !IsDir(base, TMP) && sys.Writing(base, bytes)
    requires Components(path) == Target(dest, name) && MemberAt(data, pos, name, bytes)
    requires Exists(base, Target(dest, name)) ==> sys.misread
    modifies sys`fs, sys`pending, sys`calls, sys`lost, sys`history
    ensures sys.pending == [] && got <= bytes && (sys.lost <==> old(sys.lost) || got != bytes)
    ensures if ok then Installs(base, Target(dest, name), got, sys.fs) else sys.fs == base[TMP := File(got)]
    ensures Safe(fs0, sys.Now(), dest, data)
    ensures Course(fs0, old(sys.history), sys.history, sys.Now(), dest, data)
    ensures sys.Faultless() ==> got == bytes && (ok <==> Rename(base[TMP := File(bytes)], Target(dest, name)).Some?)
  {
    hide Safe, Target, Rename, Exists, MemberAt, Components;
    got := CloseBody(sys, base, bytes, fs0, dest, data);
    ghost var closed := sys.Now().(fs := base);
    SafeTmp(fs0, closed, dest, data, got);
    assert sys.Now() == closed.(fs := base[TMP := File(got)]);
    ok := sys.RenameTmp(path);
    if ok {
      SafeRename(fs0, closed, sys.Now(), dest, data, pos, name, bytes, got);
    }
  }

  /** The part of extract_tar that writes a member whose directories exist. */
  method PlaceMember(sys: FileSystem, reader: Reader, dest: string, name: string, size: nat, ghost fs0: Fs, ghost pos: nat)
    returns (o: Option<Outcome>, ghost seen: bool, ghost got: seq<Byte>)
    requires reader.Valid() && Safe(fs0, sys.Now(), dest, reader.data) && sys.pending == []
    requires reader.pos == pos + BLOCK && Reaches(reader.data, 0, pos)
    requires Classify(reader.data[pos..pos + BLOCK]) == Member(name, size)
    modifies sys, reader`pos, reader`calls
    ensures reader.Valid() && Safe(fs0, sys.Now(), dest, reader.data) && Later(old(sys.Now()), sys.Now())
    ensures Course(fs0, old(sys.history), sys.history, sys.Now(), dest, reader.data)
    ensures o.None? ==> reader.pos == pos + BLOCK + Padded(size) && sys.pending == []
    ensures o.None? ==> var body := pos + BLOCK;
              Placement(old(sys.Now()), sys.Now(), Target(dest, name), reader.data[body..body + size], seen, got)
    ensures sys.Faultless() && reader.Faultless() ==>
              var body := pos + BLOCK;
              var whole := body + Padded(size) <= |reader.data|;
              (o, sys.Settled()) == Place(old(sys.fs), Target(dest, name), whole, Contents(reader.data, body, size))
              && sys.misread == old(sys.misread) && sys.lost == old(sys.lost)
  {
    hide Safe, Contents, Padded, Classify, Reaches, Target, Rename, Exists, MemberAt, Receiving, Course, Components;
    got := [];
    ghost var data := reader.data;
    var path := dest + "/" + name;
    assert Components(path) == Target(dest, name) by { TargetIs(dest, name); }
    ghost var base, h0 := sys.fs, sys.history;
    var there, ready := BeginMember(sys, path, fs0, dest, data);
    seen := there;
    if !ready {
      assert sys.Settled() == base;
      return Some(Failed), seen, got;
    }
    ghost var m1, h1 := sys.Now(), sys.history;
    var ok, bytes := CopyBody(sys, reader, size, !there, base, fs0, dest);
    ghost var m2, h2 := sys.Now(), sys.history;
    CourseOn(fs0, h0, h1, m1, h2, m2, dest, data);
    ReceivingSettles(sys, !there, base, bytes);
    if !there {
      SafeTmp(fs0, m2.(fs := base), dest, data, sys.fs[TMP].data);
      assert m2 == m2.(fs := base[TMP := File(sys.fs[TMP].data)]);
    }
    if !ok {
      return Some(Failed), seen, got;
    }
    if !there {
      IsMember(data, pos, name, size);
      ok, got := FinishMember(sys, path, name, base, bytes, fs0, dest, data, pos);
      CourseOn(fs0, h0, h2, m2, sys.history, sys.Now(), dest, data);
      if !ok {
        return Some(Failed), seen, got;
      }
    }
    return None, seen, got;
  }

  lemma {:induction false} TargetIs(dest: string, name: string)
    ensures Target(dest, name) == Components(dest + "/" + name)
  {
  }

  /** One member of the archive: its directories, then its contents. */
  method ExtractMember(sys: FileSystem, reader: Reader, dest: string, name: string, size: nat, ghost fs0: Fs, ghost pos: nat)
    returns (o: Option<Outcome>)
    requires reader.Valid() && Safe(fs0, sys.Now(), dest, reader.data)
    requires reader.pos == pos + BLOCK && Reaches(reader.data, 0, pos)
    requires Classify(reader.data[pos..pos + BLOCK]) == Member(name, size) && PathFits(dest, name) && sys.pending == []
    modifies sys, reader`pos, reader`calls
    ensures reader.Valid() && Safe(fs0, sys.Now(), dest, reader.data) && Later(old(sys.Now()), sys.Now())
    ensures Course(fs0, old(sys.history), sys.history, sys.Now(), dest, reader.data)
    ensures o.None? ==> reader.pos == pos + BLOCK + Padded(size) && sys.pending == []
    ensures sys.Faultless() && reader.Faultless() ==>
              var body := pos + BLOCK;
              var whole := body + Padded(size) <= |reader.data|;
              (o, sys.Settled()) == MemberStep(old(sys.fs), dest, name, whole, Contents(reader.data, body, size))
              && sys.misread == old(sys.misread) && sys.lost == old(sys.lost)
  {
    hide Safe, Contents, Padded, Classify, Reaches, ComponentsFrom, Mkdirs, ParentPath, Place, Target;
    MemberName(reader.data[pos..pos + BLOCK], name, size);
    if '/' in name {
      PreparedIs(sys.fs, dest, name);
      var ok := TarMkdirs(sys, dest + "/" + name, fs0, dest, reader.data);
      if !ok {
        return Some(NoDirectory);
      }
    }
    ghost var seen, got;
    o, seen, got := PlaceMember(sys, reader, dest, name, size, fs0, pos);
  }

  // A header whose name or numbers have no terminator, or whose name is empty, is read past its
  // end by the source; the model stops there.

  lemma {:induction false} ExtractShort(fs: Fs, dest: string, data: seq<Byte>, pos: nat)
    requires pos <= |data| < pos + BLOCK
    ensures Extract(fs, dest, data, pos) == (Failed, fs)
  {
  }

  lemma {:induction false} ExtractStep(fs: Fs, dest: string, data: seq<Byte>, pos: nat)
    requires pos + BLOCK <= |data|
    ensures var body := pos + BLOCK;
            Extract(fs, dest, data, pos) ==
            match Classify(data[pos..body])
            case Zero => (Done, fs)
            case Corrupt => (Failed, fs)
            case Undefined => (Undef, fs)
            case Skip => Extract(fs, dest, data, body)
            case Member(name, size) =>
              var r := MemberStep(fs, dest, name, body + Padded(size) <= |data|, Contents(data, body, size));
              if r.0.Some? then (r.0.value, r.1)
              else if body + Padded(size) <= |data| then Extract(r.1, dest, data, body + Padded(size))
              else (Failed, r.1)
  {
    hide MemberStep, Contents, Classify;
  }

  /** The header just read, taken apart as in extract_tar. */
  method ReadHeader(header: array<Byte>) returns (h: Header)
    requires header.Length == BLOCK
    ensures h == Classify(header[..])
  {
    var block := header[..];
    if AllZero(block) {
      return Zero;
    }
    if Declared(block).None? {
      return Undefined;
    }
    var ok := TestChecksum(header);
    if !ok {
      return Corrupt;
    }
    var z := NulFrom(block, 0, 100);
    if z == 0 || z == 100 {
      return Undefined;
    }
    if header[z - 1] == '/' || header[156] == '1' {
      return Skip;
    }
    match StrToUl(block[124..136]) {
      case None => h := Undefined;
      case Some(size) => h := Member(block[..z], size);
    }
  }

  /** One turn of the main loop of extract_tar: an outcome, or the next header to read. */
  method ExtractNext(sys: FileSystem, reader: Reader, header: array<Byte>, dest: string, ghost fs0: Fs) returns (o: Option<Outcome>)
    requires reader.Valid() && header.Length == BLOCK && PathsFit(dest, reader.data) && sys.pending == []
    requires Safe(fs0, sys.Now(), dest, reader.data) && Reaches(reader.data, 0, reader.pos)
    modifies sys, reader`pos, reader`calls, header
    ensures reader.Valid() && Safe(fs0, sys.Now(), dest, reader.data) && Later(old(sys.Now()), sys.Now())
    ensures Course(fs0, old(sys.history), sys.history, sys.Now(), dest, reader.data)
    ensures o.None? ==> old(reader.pos) < reader.pos && Reaches(reader.data, 0, reader.pos) && sys.pending == []
    ensures sys.Faultless() && reader.Faultless() ==>
              Extract(old(sys.fs), dest, reader.data, old(reader.pos))
              == if o.Some? then (o.value, sys.Settled()) else Extract(sys.fs, dest, reader.data, reader.pos)
    ensures sys.Faultless() && reader.Faultless() ==> sys.misread == old(sys.misread) && sys.lost == old(sys.lost)
  {
    hide Safe, Classify, Reaches, MemberStep, Contents, Extract, Padded;
    ghost var data, pos := reader.data, reader.pos;
    var r := reader.RawRead(header);
    if !r.Full? {
      if reader.Faultless() {
        ExtractShort(sys.fs, dest, data, pos);
      }
      return Some(Failed);
    }
    ReachesNext(data, 0, pos);
    ExtractStep(sys.fs, dest, data, pos);
    var h := ReadHeader(header);
    assert h == Classify(data[pos..pos + BLOCK]);
    match h {
      case Zero => o := Some(Done);
      case Corrupt => o := Some(Failed);
      case Undefined => o := Some(Undef);
      case Skip => o := None;
      case Member(name, size) => o := ExtractMember(sys, reader, dest, name, size, fs0, pos);
    }
  }

  /**
   * extract_tar.  Whatever the bytes and whichever calls fail, every moment the tree goes through is
   * safe, and unharmed unless access has failed on a file that exists or fclose has lost bytes; when
   * no call fails the run is Extract.
   */
  method ExtractTar(sys: FileSystem, reader: Reader, dest: string) returns (o: Outcome)
    requires reader.Valid() && reader.pos == 0 && IsTree(sys.fs) && sys.pending == [] && PathsFit(dest, reader.data)
    modifies sys, reader`pos, reader`calls
    ensures Course(old(sys.fs), old(sys.history), sys.history, sys.Now(), dest, reader.data) && Later(old(sys.Now()), sys.Now())
    ensures Safe(old(sys.fs), sys.Now(), dest, reader.data)
    ensures !sys.misread && !sys.lost ==>
              Unharmed(old(sys.fs), sys.fs, dest, reader.data)
              && forall i :: |old(sys.history)| <= i < |sys.history| ==> Unharmed(old(sys.fs), sys.history[i].fs, dest, reader.data)
    ensures sys.Faultless() && reader.Faultless() ==>
              (o, sys.Settled()) == Extract(old(sys.fs), dest, reader.data, 0)
              && sys.misread == old(sys.misread) && sys.lost == old(sys.lost)
  {
    hide Safe, Reaches, Extract, IsTree, PathsFit;
    ghost var fs0, data := sys.fs, reader.data;
    var header := new Byte[BLOCK](_ => 1 as char);
    SafeStart(sys.Now(), dest, data);
    while true
      invariant reader.Valid() && Safe(fs0, sys.Now(), dest, data) && Reaches(data, 0, reader.pos) && sys.pending == []
      invariant Course(fs0, old(sys.history), sys.history, sys.Now(), dest, data)
      invariant Later(old(sys.Now()), sys.Now())
      invariant sys.Faultless() && reader.Faultless() ==>
          Extract(fs0, dest, data, 0) == Extract(sys.fs, dest, data, reader.pos)
          && sys.misread == old(sys.misread) && sys.lost == old(sys.lost)
      decreases |data| - reader.pos
    {
      var stop := ExtractNext(sys, reader, header, dest, fs0);
      if stop.Some? {
        if !sys.misread && !sys.lost {
          NoneHarmed(fs0, old(sys.history), sys.history, sys.Now(), dest, data);
        }
        return stop.value;
      }
    }
  }
}
