// The calls src/tar.c makes on the archive and on the file system, with the ways they can fail.
module TarStreams {
  import opened CStrings
  import opened Paths
  import opened TarFormat
  import opened TarFs

  // ---------------------------------------------------------------------------
  // The archive stream
  // ---------------------------------------------------------------------------

  /** n bytes of data, from index pos on, to buf[off..]. */
  method CopyTo(buf: array<Byte>, off: nat, data: seq<Byte>, pos: nat, n: nat)
    requires off + n <= buf.Length && pos + n <= |data|
    modifies buf
    ensures buf[..off] == old(buf[..off]) && buf[off..off + n] == data[pos..pos + n]
  {
    var k := 0;
    while k < n
      invariant 0 <= k <= n
      invariant forall x :: 0 <= x < off ==> buf[x] == old(buf[x])
      invariant forall x :: off <= x < off + k ==> buf[x] == data[pos + (x - off)]
    {
      buf[off + k] := data[pos + k];
      k := k + 1;
    }
    SameSlice(buf[..], off, data, pos, n);
    assert buf[off..off + n] == buf[..][off..off + n];
  }

  lemma {:induction false} SameSlice(a: seq<Byte>, i: nat, b: seq<Byte>, j: nat, n: nat)
    requires i + n <= |a| && j + n <= |b| && forall x :: i <= x < i + n ==> a[x] == b[j + (x - i)]
    ensures a[i..i + n] == b[j..j + n]
  {
  }

  datatype Read = Full | Short | ReadError

  class Reader {
    const data: seq<Byte>
    var pos: nat
    var calls: nat
    /** Whether the n-th fread meets an input error, and how many bytes it has taken by then. */
    const fault: nat -> Option<nat>

    ghost predicate Valid()
      reads this
    {
      pos <= |data|
    }

    ghost predicate Faultless() { forall n :: fault(n) == None }

    constructor (data: seq<Byte>, fault: nat -> Option<nat>)
      ensures Valid() && this.data == data && this.fault == fault && pos == 0 && calls == 0
    {
      this.data, this.fault, pos, calls := data, fault, 0, 0;
    }

    /** fread of n bytes to buf[off..]; eof when the stream ended first. */
    method Fread(buf: array<Byte>, off: nat, n: nat) returns (ret: nat, eof: bool)
      requires Valid() && off + n <= buf.Length
      modifies this`pos, this`calls, buf
      ensures Valid() && ret <= n && pos == old(pos) + ret
      ensures eof ==> ret < n && pos == |data|
      ensures buf[..off] == old(buf[..off]) && buf[off..off + ret] == data[old(pos)..old(pos) + ret]
      ensures Faultless() ==> (eof <==> |data| - old(pos) < n) && (!eof ==> ret == n)
    {
      var left := |data| - pos;
      var f := fault(calls);
      calls := calls + 1;
      ret := if n <= left then n else left;
      eof := left < n;
      if f.Some? {
        ret := if f.value <= ret then f.value else ret;
        eof := false;
      }
      CopyTo(buf, off, data, pos, ret);
      pos := pos + ret;
    }

    /** raw_file_read of a whole buffer.  Bytes that come with the end of the stream are not counted. */
    method RawRead(buf: array<Byte>) returns (r: Read)
      requires Valid() && buf.Length == BLOCK
      modifies this`pos, this`calls, buf
      ensures Valid()
      ensures r.Full? ==> old(pos) + BLOCK <= |data| && pos == old(pos) + BLOCK && buf[..] == data[old(pos)..pos]
      ensures Faultless() ==> (r.Full? <==> |data| - old(pos) >= BLOCK) && !r.ReadError?
    {
      var count: nat := 0;
      while count < BLOCK
        invariant Valid() && count <= BLOCK && pos == old(pos) + count
        invariant buf[..count] == data[old(pos)..pos]
        invariant Faultless() ==> count == 0 || count == BLOCK
        invariant Faultless() && count == BLOCK ==> |data| - old(pos) >= BLOCK
      {
        var ret, eof := Fread(buf, count, BLOCK - count);
        if eof {
          return Short;
        }
        if ret == 0 {
          return ReadError;
        }
        assert buf[..count + ret] == buf[..count] + buf[count..count + ret];
        ghost var start := old(pos);
        assert data[start..start + (count + ret)] == data[start..start + count] + data[start + count..start + (count + ret)];
        count := count + ret;
      }
      assert buf[..] == buf[..count];
      return Full;
    }
  }

  // ---------------------------------------------------------------------------
  // The file system
  // ---------------------------------------------------------------------------

  datatype Made = New | Old | MkdirError

  /** The tree at some moment, and whether a failure the extractor does not notice has happened by then. */
  datatype Moment = Moment(fs: Fs, misread: bool, lost: bool)

  class FileSystem {
    var fs: Fs
    /** The bytes given to the stream on the temporary file that are not in the file yet. */
    var pending: seq<Byte>
    var calls: nat
    /** Whether the n-th call fails for a reason outside the tree (a full disk, an input or output error). */
    const fault: nat -> bool
    /** How many bytes the n-th call takes, if it writes. */
    const chunk: nat -> nat
    /** How many of the bytes it holds the stream passes on in the n-th call. */
    const flush: nat -> nat
    /** access has failed on something that exists; fclose has lost bytes. */
    ghost var misread: bool
    ghost var lost: bool
    /** Every moment between two calls. */
    ghost var history: seq<Moment>

    ghost function Now(): Moment
      reads this
    {
      Moment(fs, misread, lost)
    }

    ghost predicate Faultless() { forall n :: !fault(n) }

    /** The temporary file and the stream on it hold the given bytes together; the rest of the tree is base. */
    ghost predicate Writing(base: Fs, bytes: seq<Byte>)
      reads this
    {
      TMP in fs && fs[TMP].File? && fs == base[TMP := fs[TMP]] && fs[TMP].data + pending == bytes
    }

    /** The tree once a stream that was left open is written out. */
    ghost function Settled(): (r: Fs)
      reads this
      ensures pending == [] ==> r == fs
    {
      if TMP in fs && fs[TMP].File? then
        assert pending == [] ==> File(fs[TMP].data + pending) == fs[TMP];
        fs[TMP := File(fs[TMP].data + pending)]
      else fs
    }

    constructor (fs: Fs, fault: nat -> bool, chunk: nat -> nat, flush: nat -> nat)
      ensures this.fs == fs && pending == [] && calls == 0 && history == [] && !misread && !lost
      ensures this.fault == fault && this.chunk == chunk && this.flush == flush
    {
      this.fs, pending, calls, history := fs, [], 0, [];
      misread, lost := false, false;
      this.fault, this.chunk, this.flush := fault, chunk, flush;
    }

    /** access(path, F_OK) == 0; any failure reads as absence. */
    method CheckFile(path: string) returns (r: bool)
      modifies `calls, `misread, `history
      ensures calls == old(calls) + 1 && history == old(history) + [Now()]
      ensures r <==> !fault(old(calls)) && Exists(fs, Components(path))
      ensures misread <==> old(misread) || (!r && Exists(fs, Components(path)))
    {
      var cs := Split(path);
      r := !fault(calls) && Exists(fs, cs);
      misread := misread || (!r && Exists(fs, cs));
      calls, history := calls + 1, history + [Now()];
    }

    method Mkdir(path: string) returns (r: Made)
      modifies `fs, `calls, `history
      ensures calls == old(calls) + 1 && history == old(history) + [Now()]
      ensures var cs := Components(path);
              var m := TarFs.Mkdir(old(fs), cs, |cs|);
              if fault(old(calls)) || m == None then r.MkdirError? && fs == old(fs)
              else !r.MkdirError? && fs == m.value && (r.Old? <==> Exists(old(fs), cs))
    {
      var cs := Split(path);
      var m := TarFs.Mkdir(fs, cs, |cs|);
      if fault(calls) || m == None {
        r := MkdirError;
      } else {
        r := if Exists(fs, cs) then Old else New;
        fs := m.value;
      }
      calls, history := calls + 1, history + [Now()];
    }

    /** fopen("/tarfile.tmp", "wb") */
    method OpenTmp() returns (ok: bool)
      modifies `fs, `pending, `calls, `history
      ensures calls == old(calls) + 1 && history == old(history) + [Now()]
      ensures ok <==> !fault(old(calls)) && !IsDir(old(fs), TMP)
      ensures fs == if ok then old(fs)[TMP := File([])] else old(fs)
      ensures pending == if ok then [] else old(pending)
    {
      ok := !fault(calls) && !IsDir(fs, TMP);
      if ok {
        fs := fs[TMP := File([])];
        pending := [];
      }
      calls, history := calls + 1, history + [Now()];
    }

    /** fwrite: at least one byte is taken unless it fails; what the stream holds reaches the file in its own time. */
    method WriteTmp(bytes: seq<Byte>) returns (w: nat, failed: bool)
      requires TMP in fs && fs[TMP].File? && bytes != []
      modifies `fs, `pending, `calls, `history
      ensures calls == old(calls) + 1 && history == old(history) + [Now()]
      ensures w <= |bytes| && (failed <==> fault(old(calls))) && (!failed ==> w > 0)
      ensures var held := old(pending) + bytes[..w];
              var n := if flush(old(calls)) <= |held| then flush(old(calls)) else |held|;
              fs == old(fs)[TMP := File(old(fs)[TMP].data + held[..n])] && pending == held[n..]
    {
      failed := fault(calls);
      w := chunk(calls);
      if w > |bytes| {
        w := |bytes|;
      }
      if !failed && w == 0 {
        w := 1;
      }
      var held := pending + bytes[..w];
      var n := if flush(calls) <= |held| then flush(calls) else |held|;
      fs, pending := fs[TMP := File(fs[TMP].data + held[..n])], held[n..];
      calls, history := calls + 1, history + [Now()];
    }

    /** fclose: the bytes held are written; a failure, which the caller does not look at, loses some of them. */
    method CloseTmp()
      requires TMP in fs && fs[TMP].File?
      modifies `fs, `pending, `calls, `lost, `history
      ensures calls == old(calls) + 1 && history == old(history) + [Now()]
      ensures var held := old(pending);
              var n := if fault(old(calls)) && chunk(old(calls)) <= |held| then chunk(old(calls)) else |held|;
              fs == old(fs)[TMP := File(old(fs)[TMP].data + held[..n])] && pending == []
              && (lost <==> old(lost) || n < |held|)
    {
      var n := if fault(calls) && chunk(calls) <= |pending| then chunk(calls) else |pending|;
      lost := lost || n < |pending|;
      fs, pending := fs[TMP := File(fs[TMP].data + pending[..n])], [];
      calls, history := calls + 1, history + [Now()];
    }

    /** rename("/tarfile.tmp", path) */
    method RenameTmp(path: string) returns (ok: bool)
      requires TMP in fs && fs[TMP].File?
      modifies `fs, `calls, `history
      ensures calls == old(calls) + 1 && history == old(history) + [Now()]
      ensures var m := Rename(old(fs), Components(path));
              if fault(old(calls)) || m == None then !ok && fs == old(fs) else ok && fs == m.value
    {
      var cs := Split(path);
      var m := Rename(fs, cs);
      ok := !fault(calls) && m.Some?;
      if ok {
        fs := m.value;
      }
      calls, history := calls + 1, history + [Now()];
    }
  }
}
