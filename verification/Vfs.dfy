// Path translation of src/vfs.c: names relative to a device root and a jail.
module Vfs {
  import opened CStrings
  import opened CBuffers
  import opened Paths

  datatype Error = InvalidName | NoDisk | MountFailed

  datatype Result<+T> = Ok(value: T) | Err(error: Error)

  // ---------------------------------------------------------------------------
  // append_path
  // ---------------------------------------------------------------------------

  lemma {:induction false} RenderPush(stack: seq<string>, c: string)
    ensures Render(stack + [c]) == Render(stack) + ("/" + c)
  {
    assert (stack + [c])[..|stack|] == stack;
  }

  lemma {:induction false} NextComponent(p: string, i: nat)
    requires i < |p|
    ensures var k := Cspn(p, i, |p|, {'/'});
            var n := Spn(p, k, |p|, {'/'});
            i < n && (k < |p| ==> k < n)
            && ComponentsFrom(p, i) == (if i < k then [p[i..k]] else []) + ComponentsFrom(p, n)
  {
    hide ComponentsFrom;
    var k := Cspn(p, i, |p|, {'/'});
    var n := Spn(p, k, |p|, {'/'});
    SplitAt(p, i, k);
    if k < |p| {
      SkipSlashes(p, k + 1, n);
    } else {
      SplitAt(p, |p|, |p|);
    }
  }

  /**
   * The stack of nodes appended once p[..i] is worked off.  Written out it is no longer than
   * that text, but for one slash at the end of p.
   */
  ghost predicate Worked(p: string, i: nat, stack: seq<string>)
    requires i <= |p|
  {
    Plain(stack) && Resolve(stack, ComponentsFrom(p, i)) == Normal(p)
    && |Render(stack)| <= i + (if i == |p| then 1 else 0)
  }

  lemma {:induction false} WorkedStep(p: string, i: nat, stack: seq<string>)
    requires i < |p| && Worked(p, i, stack)
    ensures var k := Cspn(p, i, |p|, {'/'});
            Worked(p, Spn(p, k, |p|, {'/'}), if i < k then Enter(stack, p[i..k]) else stack)
  {
    hide ComponentsFrom, Resolve, Render;
    NextComponent(p, i);
    var k := Cspn(p, i, |p|, {'/'});
    var n := Spn(p, k, |p|, {'/'});
    var c, rest := p[i..k], ComponentsFrom(p, n);
    if i < k {
      ResolveCons(stack, c, rest);
      if c != ".." {
        RenderPush(stack, c);
      } else if stack != [] {
        RenderPop(stack);
      }
    } else {
      assert [] + rest == rest;
    }
  }

  lemma {:induction false} ResolveCons(stack: seq<string>, c: string, rest: seq<string>)
    ensures Resolve(stack, [c] + rest) == Resolve(Enter(stack, c), rest)
  {
    assert ([c] + rest)[1..] == rest;
  }

  lemma {:induction false} RenderPop(stack: seq<string>)
    requires stack != []
    ensures Render(stack) == Render(stack[..|stack| - 1]) + ("/" + stack[|stack| - 1])
  {
  }

  lemma {:induction false} WorkedEnd(p: string, stack: seq<string>)
    requires Worked(p, |p|, stack)
    ensures stack == Normal(p)
  {
  }

  /** strcat of a slash and a node */
  method PushNode(buf: array<char>, node: string, ghost base: string, ghost stack: seq<string>)
    requires Holds(buf, base + Render(stack)) && NoNul(node) && |base| + |Render(stack)| + 1 + |node| < buf.Length
    modifies buf
    ensures Holds(buf, base + Render(stack + [node]))
  {
    hide Render;
    StrCat(buf, "/", base + Render(stack));
    StrCat(buf, node, base + Render(stack) + "/");
    RenderPush(stack, node);
    assert base + Render(stack + [node]) == base + Render(stack) + "/" + node;
  }

  /** strrchr(path, '/')[0] = '\0' */
  method PopNode(buf: array<char>, ghost base: string, ghost stack: seq<string>)
    requires Holds(buf, base + Render(stack)) && Plain(stack) && stack != []
    modifies buf
    ensures Holds(buf, base + Render(stack[..|stack| - 1]))
  {
    hide Render;
    ghost var init, last := stack[..|stack| - 1], stack[|stack| - 1];
    RenderPop(stack);
    assert base + Render(stack) == base + Render(init) + ['/'] + last;
    CutAtLast(buf, '/', base + Render(init), last);
  }

  lemma {:induction false} EmptyRender()
    ensures Render([]) == ""
  {
  }

  /** append_path: the nodes of p go onto the end of the buffer; ".." takes the last of them off again. */
  method AppendPath(buf: array<char>, p: string, ghost base: string)
    requires Holds(buf, base) && NoNul(p) && |base| + |p| + 2 <= buf.Length
    modifies buf
    ensures Holds(buf, base + Render(Normal(p)))
  {
    hide Resolve, Normal, ComponentsFrom, Plain, Render, Holds;
    assert base + Render([]) == base by { EmptyRender(); }
    var i, nodes := 0, 0;
    ghost var stack: seq<string> := [];
    WorkedStart(p);
    while i < |p|
      invariant i <= |p| && nodes == |stack| && Worked(p, i, stack) && Holds(buf, base + Render(stack))
    {
      var i0 := i;
      var k := StrCspn(p, i, |p|, {'/'});
      var node := p[i..k];
      i := StrSpn(p, k, |p|, {'/'});
      NextComponent(p, i0);
      WorkedStep(p, i0, stack);
      if i0 < k {
        if node != ".." {
          PushNode(buf, node, base, stack);
          stack := stack + [node];
          nodes := nodes + 1;
        } else if nodes > 0 {
          PopNode(buf, base, stack);
          stack := stack[..nodes - 1];
          nodes := nodes - 1;
        }
      }
    }
    WorkedEnd(p, stack);
  }

  lemma {:induction false} WorkedStart(p: string)
    ensures Worked(p, 0, [])
  {
  }

  // ---------------------------------------------------------------------------
  // vfs_translate_path
  // ---------------------------------------------------------------------------

  /** The device a name asks for and the path on it; root is the current VFS root. */
  ghost function DeviceOf(root: Option<string>, name: string): Result<(string, string)> {
    if name != "" && name[0] == '(' then
      var k := Cspn(name, 0, |name|, {')'});
      if k == |name| then Err(InvalidName)
      else if k == 1 then Err(NoDisk)
      else Ok((name[1..k], name[k + 1..]))
    else if root.None? || root.value == "" then Err(NoDisk)
    else Ok((root.value, name))
  }

  /** The root directory of a device: disk_root, over what mounting a disk by its name gives. */
  function DiskRoot(mounts: string -> Option<string>, disk: string): Option<string> {
    if disk == "rootfs" then Some("/")
    else match mounts(disk)
         case None => None
         case Some(name) => Some("/mnt/" + name)
  }

  lemma {:induction false} RootNoNul(mounts: string -> Option<string>, disk: string)
    requires forall d :: mounts(d).Some? ==> NoNul(mounts(d).value)
    ensures DiskRoot(mounts, disk).Some? ==> NoNul(DiskRoot(mounts, disk).value)
  {
  }

  const NOJAIL := "nojail,"

  /** The jail that applies on a device. */
  function JailFor(jail: Option<string>, disk: string): string {
    if jail.None? || NOJAIL <= disk then "" else jail.value
  }

  function DiskName(disk: string): string {
    if NOJAIL <= disk then disk[7..] else disk
  }

  /** What a name stands for: the disk root, the normal form of the jail, and that of the path. */
  ghost function Translate(mounts: string -> Option<string>, root: Option<string>, jail: Option<string>, name: string): Result<string> {
    match DeviceOf(root, name)
    case Err(e) => Err(e)
    case Ok((disk, p)) =>
      if DiskName(disk) == "debug" then Ok(p)
      else match DiskRoot(mounts, DiskName(disk))
           case None => Err(MountFailed)
           case Some(r) => Ok(r + Render(Normal(JailFor(jail, disk))) + Render(Normal(p)))
  }

  /** A bracketed device name has to fit its 32-byte buffer. */
  ghost predicate DeviceFits(name: string) {
    name != "" && name[0] == '(' && ')' in name ==> Cspn(name, 0, |name|, {')'}) <= 32
  }

  /**
   * The result of vfs_translate_path, built in a buffer of the size the source allocates: no
   * strcat on the way may pass its end.
   */
  method BuildPath(diskR: string, jail: string, p: string) returns (r: string)
    requires NoNul(diskR) && NoNul(jail) && NoNul(p)
    ensures r == diskR + Render(Normal(jail)) + Render(Normal(p))
  {
    hide Normal, Render, Holds;
    var buf := new char[|diskR| + |p| + |jail| + 3](_ => NUL);
    assert Holds(buf, "") by { EmptyBuffer(buf); }
    StrCat(buf, diskR, "");
    assert "" + diskR == diskR;
    NormalLength(jail);
    if |jail| > 0 {
      AppendPath(buf, jail, diskR);
    } else {
      EmptyNormal();
      assert diskR + Render(Normal(jail)) == diskR;
    }
    ghost var base := diskR + Render(Normal(jail));
    AppendPath(buf, p, base);
    r := Contents(buf, base + Render(Normal(p)));
  }

  lemma {:induction false} EmptyBuffer(buf: array<char>)
    requires buf.Length > 0 && buf[0] == NUL
    ensures Holds(buf, "")
  {
  }

  class Vfs {
    var root: Option<string>
    var jail: Option<string>
    const mounts: string -> Option<string>

    ghost predicate Valid()
      reads this
    {
      (root.Some? ==> NoNul(root.value)) && (jail.Some? ==> NoNul(jail.value))
      && forall d :: mounts(d).Some? ==> NoNul(mounts(d).value)
    }

    constructor (mounts: string -> Option<string>)
      requires forall d :: mounts(d).Some? ==> NoNul(mounts(d).value)
      ensures Valid() && root == None && jail == None && this.mounts == mounts
    {
      root, jail := None, None;
      this.mounts := mounts;
    }

    /** vfs_set_root */
    method SetRoot(r: Option<string>)
      requires Valid() && (r.Some? ==> NoNul(r.value))
      modifies `root
      ensures Valid() && root == r
    {
      root := r;
    }

    /** vfs_set_jail */
    method SetJail(j: Option<string>)
      requires Valid() && (j.Some? ==> NoNul(j.value))
      modifies `jail
      ensures Valid() && jail == j
    {
      jail := j;
    }

    /** The device a name asks for, or the VFS root. */
    method PickDevice(name: string) returns (r: Result<(string, string)>)
      requires Valid() && NoNul(name) && DeviceFits(name)
      ensures r == DeviceOf(root, name)
      ensures r.Ok? ==> NoNul(r.value.0) && NoNul(r.value.1)
    {
      var disk, p := root, name;
      if name != "" && name[0] == '(' {
        var k := StrCspn(name, 0, |name|, {')'});
        if k == |name| {
          return Err(InvalidName);
        }
        disk, p := Some(name[1..k]), name[k + 1..];
      }
      if disk.None? || disk.value == "" {
        return Err(NoDisk);
      }
      return Ok((disk.value, p));
    }

    /** vfs_translate_path */
    method TranslatePath(name: string) returns (r: Result<string>)
      requires Valid() && NoNul(name) && DeviceFits(name)
      ensures r == Translate(mounts, root, jail, name)
    {
      hide Normal, Render, DeviceOf, DeviceFits;
      var jailLen := if jail.Some? then |jail.value| else 0;
      var picked := PickDevice(name);
      if picked.Err? {
        return Err(picked.error);
      }
      var (d, p) := picked.value;
      if NOJAIL <= d {
        d, jailLen := d[7..], 0;
      }
      if d == "debug" {
        return Ok(p);
      }
      var diskR := DiskRoot(mounts, d);
      if diskR.None? {
        return Err(MountFailed);
      }
      RootNoNul(mounts, d);
      var text := BuildPath(diskR.value, if jailLen > 0 then jail.value else "", p);
      return Ok(text);
    }
  }

  lemma {:induction false} EmptyNormal()
    ensures Render(Normal("")) == ""
  {
  }

  /** Written out, the normal form of a path is at most one slash longer than the path. */
  lemma {:induction false} NormalLength(p: string)
    ensures |Render(Normal(p))| <= |p| + (if p == "" then 0 else 1)
  {
    hide ComponentsFrom;
    WorkedStart(p);
    if p == "" {
      EmptyNormal();
    } else {
      var i: nat, stack := 0, [];
      while i < |p|
        invariant i <= |p| && Worked(p, i, stack)
      {
        NextComponent(p, i);
        WorkedStep(p, i, stack);
        var k := Cspn(p, i, |p|, {'/'});
        stack := if i < k then Enter(stack, p[i..k]) else stack;
        i := Spn(p, k, |p|, {'/'});
      }
      WorkedEnd(p, stack);
    }
  }

  // ---------------------------------------------------------------------------
  // What translation guarantees
  // ---------------------------------------------------------------------------

  lemma {:induction false} RenderSlash(cs: seq<string>)
    ensures Render(cs) == "" || Render(cs)[0] == '/'
    decreases |cs|
  {
    if cs != [] {
      RenderSlash(cs[..|cs| - 1]);
    }
  }

  /**
   * Whatever the name, the result is the disk root with the normal jail below it as an untouched
   * prefix, and below that only names other than "..": no name leads out of the jail.
   */
  lemma {:induction false} StaysInJail(mounts: string -> Option<string>, root: Option<string>, jail: Option<string>, name: string, disk: string, p: string, r: string)
    requires DeviceOf(root, name) == Ok((disk, p)) && DiskName(disk) != "debug"
    requires DiskRoot(mounts, DiskName(disk)) == Some(r)
    ensures var t := Translate(mounts, root, jail, name);
            var j := Normal(JailFor(jail, disk));
            t.Ok? && r + Render(j) <= t.value
            && Components(t.value) == Components(r) + j + Normal(p)
            && Plain(Normal(p)) && Plain(j)
  {
    hide ComponentsFrom, Resolve, Render;
    var j, n := Normal(JailFor(jail, disk)), Normal(p);
    NormalPlain(JailFor(jail, disk));
    NormalPlain(p);
    RenderSlash(j);
    RenderSlash(n);
    ComponentsAppend(r, 0, Render(j));
    ComponentsAppend(r + Render(j), 0, Render(n));
    ComponentsOfRender(j);
    ComponentsOfRender(n);
  }

  /** Normal forms are their own normal form. */
  lemma {:induction false} NormalIdempotent(p: string)
    ensures Normal(Render(Normal(p))) == Normal(p)
  {
    hide ComponentsFrom, Resolve, Render;
    NormalPlain(p);
    ComponentsOfRender(Normal(p));
    ResolveOfPlain([], Normal(p));
    assert [] + Normal(p) == Normal(p);
  }

  /** The names in order with single slashes between them: no slash at either end, no "..". */
  ghost predicate Tight(p: string) {
    exists cs :: Plain(cs) && cs != [] && Render(cs) == "/" + p
  }

  lemma {:induction false} NormalOfTight(p: string)
    requires Tight(p)
    ensures Render(Normal(p)) == "/" + p
  {
    hide ComponentsFrom, Resolve, Render;
    var cs :| Plain(cs) && cs != [] && Render(cs) == "/" + p;
    ComponentsOfRender(cs);
    SkipSlashes("/" + p, 0, 1);
    ComponentsShift("/", p, 0);
    ResolveOfPlain([], cs);
    assert [] + cs == cs;
  }

  /** The buffer allocated by vfs_translate_path is filled to the last byte. */
  lemma {:induction false} BufferReached(r: string, jail: string, p: string)
    requires Tight(jail) && Tight(p)
    ensures |r + Render(Normal(jail)) + Render(Normal(p))| + 1 == |r| + |p| + |jail| + 3
  {
    NormalOfTight(jail);
    NormalOfTight(p);
  }

  // ---------------------------------------------------------------------------
  // Where a name leads, device by device
  // ---------------------------------------------------------------------------

  /** The name asks for path p on device dev: in brackets, or by default. */
  predicate Asks(root: Option<string>, name: string, dev: string, p: string) {
    (name == "(" + (dev + (")" + p)) && ')' !in dev)
    || ((name == "" || name[0] != '(') && root == Some(dev) && p == name)
  }

  /** The directory a device is found at. */
  predicate FoundAt(mounts: string -> Option<string>, dev: string, r: string) {
    if dev == "rootfs" then r == "/" else mounts(dev).Some? && r == "/mnt/" + mounts(dev).value
  }

  lemma {:induction false} Bracketed(name: string, dev: string, p: string)
    requires name == "(" + (dev + (")" + p)) && ')' !in dev
    ensures name != "" && name[0] == '(' && |name| == 2 + |dev| + |p|
    ensures Cspn(name, 0, |name|, {')'}) == 1 + |dev| && name[1..1 + |dev|] == dev && name[2 + |dev|..] == p
  {
    hide Lies, Cspn;
    LiesSelf(name);
    LiesSplit(name, 0, "(", dev + (")" + p));
    LiesSplit(name, 1, dev, ")" + p);
    LiesSplit(name, 1 + |dev|, ")", p);
    LiesHead(name, 0, "(");
    LiesHead(name, 1 + |dev|, ")");
    LiesSlice(name, 1, dev);
    LiesSlice(name, 2 + |dev|, p);
    ClosesAt(name, dev);
    assert name[2 + |dev|..] == name[2 + |dev|..2 + |dev| + |p|];
  }

  lemma {:induction false} ClosesAt(name: string, dev: string)
    requires name != "" && name[0] == '(' && Lies(name, 1, dev) && ')' !in dev
    requires 1 + |dev| < |name| && name[1 + |dev|] == ')'
    ensures Cspn(name, 0, |name|, {')'}) == 1 + |dev|
  {
    forall x | 0 <= x < 1 + |dev| ensures name[x] !in {')'} {
      assert x > 0 ==> name[1 + (x - 1)] == dev[x - 1];
    }
    CspnIs(name, 0, |name|, {')'}, 1 + |dev|);
  }

  lemma {:induction false} AsksFor(root: Option<string>, name: string, dev: string, p: string)
    requires Asks(root, name, dev, p)
    ensures DeviceOf(root, name) == if dev == "" then Err(NoDisk) else Ok((dev, p))
  {
    if name != "" && name[0] == '(' {
      Bracketed(name, dev, p);
    }
  }

  /** With a jail, a device that does not waive it is reached inside the jail and nowhere else. */
  lemma {:induction false} InJail(mounts: string -> Option<string>, root: Option<string>, j: string, name: string, dev: string, p: string, r: string)
    requires Asks(root, name, dev, p) && dev != "" && !("nojail," <= dev) && dev != "debug" && FoundAt(mounts, dev, r)
    ensures var t := Translate(mounts, root, Some(j), name);
            t == Ok(r + Render(Normal(j)) + Render(Normal(p)))
            && r + Render(Normal(j)) <= t.value && Components(t.value) == Components(r) + Normal(j) + Normal(p)
  {
    hide Normal, Render, Components, DeviceOf;
    AsksFor(root, name, dev, p);
    StaysInJail(mounts, root, Some(j), name, dev, p, r);
  }

  /** Without a jail, or with it waived, a device is reached from its root. */
  lemma {:induction false} OutOfJail(mounts: string -> Option<string>, root: Option<string>, jail: Option<string>, name: string, dev: string, d: string, p: string, r: string)
    requires Asks(root, name, dev, p) && dev != "" && d != "debug" && FoundAt(mounts, d, r)
    requires dev == "nojail," + d || (dev == d && jail == None && !("nojail," <= d))
    ensures Translate(mounts, root, jail, name) == Ok(r + Render(Normal(p)))
  {
    hide Normal, Render, DeviceOf;
    AsksFor(root, name, dev, p);
    EmptyNormal();
    Waived(dev, d);
    assert r + "" == r;
  }

  lemma {:induction false} Waived(dev: string, d: string)
    requires dev == "nojail," + d || (dev == d && !("nojail," <= d))
    ensures DiskName(dev) == d && (NOJAIL <= dev <==> dev == "nojail," + d)
  {
    if dev == "nojail," + d {
      assert dev[..7] == "nojail," && dev[7..] == d;
    }
  }

  /** A bracket that is not closed, and a name without a device. */
  lemma {:induction false} NoDevice(mounts: string -> Option<string>, root: Option<string>, jail: Option<string>, name: string, p: string)
    ensures name != "" && name[0] == '(' && ')' !in name ==> Translate(mounts, root, jail, name) == Err(InvalidName)
    ensures (name == "" || name[0] != '(') && root == None ==> Translate(mounts, root, jail, name) == Err(NoDisk)
    ensures Asks(root, name, "", p) ==> Translate(mounts, root, jail, name) == Err(NoDisk)
  {
    hide Normal, Render, Asks;
    if name != "" && name[0] == '(' && ')' !in name {
      CspnIs(name, 0, |name|, {')'}, |name|);
    }
    if Asks(root, name, "", p) {
      hide DeviceOf;
      AsksFor(root, name, "", p);
    }
  }

  /** A device that cannot be mounted. */
  lemma {:induction false} NotMounted(mounts: string -> Option<string>, root: Option<string>, jail: Option<string>, name: string, dev: string, d: string, p: string)
    requires Asks(root, name, dev, p) && dev != "" && (dev == "nojail," + d || (dev == d && !("nojail," <= d)))
    requires d != "debug" && d != "rootfs" && mounts(d) == None
    ensures Translate(mounts, root, jail, name) == Err(MountFailed)
  {
    hide Normal, Render, DeviceOf, Asks;
    AsksFor(root, name, dev, p);
    Waived(dev, d);
  }

  /** The device whose names are taken as they are. */
  lemma {:induction false} DebugDevice(mounts: string -> Option<string>, root: Option<string>, jail: Option<string>, name: string, dev: string, p: string)
    requires Asks(root, name, dev, p) && (dev == "debug" || dev == "nojail,debug")
    ensures Translate(mounts, root, jail, name) == Ok(p)
  {
    hide Normal, Render, DeviceOf, Asks;
    AsksFor(root, name, dev, p);
    assert "nojail," + "debug" == "nojail,debug";
    Waived(dev, "debug");
  }

  lemma {:induction false} RenderName(c: string)
    requires '/' !in c && c != "" && c != ".."
    ensures Render(Normal("/" + c)) == "/" + c
  {
    hide Normal, Render;
    NormalSteps("", c);
    NormalLeading(c);
    RenderPush([], c);
    EmptyRender();
    assert [] + [c] == [c] && "" + ("/" + c) == "/" + c;
  }

  /** A file at the top of a jail that is one directory of the boot disk. */
  lemma {:induction false} JailedName(mounts: string -> Option<string>, dev: string, disk: string, j: string, c: string)
    requires dev != "" && !("nojail," <= dev) && dev != "debug" && dev != "rootfs" && mounts(dev) == Some(disk)
    requires '/' !in j && j != "" && j != ".." && '/' !in c && c != "" && c != ".."
    ensures Translate(mounts, Some(dev), Some("/" + j), "/" + c) == Ok("/mnt/" + disk + "/" + j + "/" + c)
  {
    hide Normal, Render, Components, Translate;
    RenderName(j);
    RenderName(c);
    InJail(mounts, Some(dev), "/" + j, "/" + c, dev, "/" + c, "/mnt/" + disk);
    assert "/mnt/" + disk + ("/" + j) + ("/" + c) == "/mnt/" + disk + "/" + j + "/" + c;
  }

}
