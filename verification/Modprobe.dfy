// The module loader of src/modprobe.c: modprobe, load_kmod and modprobe_dir, which call
// each other over the dependency graph of the modules on disk.
module Modprobe {
  import opened CStrings

  // ---------------------------------------------------------------------------
  // Modules on disk
  // ---------------------------------------------------------------------------

  /** What the loader reads of a module file: its .modinfo section, and whether the kernel would take it. */
  datatype Image = Image(modinfo: string, good: bool)

  /** A directory entry, with the outcome of stat, open and mmap on it. */
  datatype Entry = Entry(fileName: string, statOk: bool, fileOrLink: bool, openOk: bool, mapOk: bool, image: Image)

  datatype Dir = Missing | Present(entries: seq<Entry>)

  function Entries(d: Dir): seq<Entry> {
    if d.Missing? then [] else d.entries
  }

  /** The two module directories; bootUsable is the test on boot_disk and vfs_exists. */
  datatype Disk = Disk(rootfs: Dir, bootUsable: bool, boot: Dir)

  function BootEntries(disk: Disk): seq<Entry> {
    if disk.bootUsable then Entries(disk.boot) else []
  }

  predicate OnDisk(disk: Disk, e: Entry) {
    e in Entries(disk.rootfs) || e in BootEntries(disk)
  }

  predicate Usable(e: Entry) {
    e.statOk && e.fileOrLink && EndsWith(e.fileName, ".ko") && e.openOk && e.mapOk
  }

  function Name(e: Entry): string {
    if |e.fileName| < 3 then "" else e.fileName[..|e.fileName| - 3]
  }

  predicate Selected(filter: Option<string>, e: Entry) {
    Usable(e) && (filter.None? || filter.value == Name(e))
  }

  /** The names between commas in mi[i..z]; a comma at the end adds none. */
  ghost function Names(mi: string, i: nat, z: nat): seq<string>
    requires i <= z <= |mi|
    decreases z - i
  {
    if i == z then []
    else
      var k := Cspn(mi, i, z, {','});
      [mi[i..k]] + (if k < z then Names(mi, k + 1, z) else [])
  }

  /** The dependencies named by the first depends= record at or after index i of a .modinfo section. */
  ghost function DepsFrom(mi: string, i: nat): seq<string>
    requires i <= |mi|
    decreases |mi| - i
  {
    if i == |mi| then []
    else
      var z := Cspn(mi, i, |mi|, {NUL});
      if Lies(mi, i, "depends=") && i + 8 <= z then Names(mi, i + 8, z)
      else if z < |mi| then DepsFrom(mi, z + 1) else []
  }

  ghost function Deps(e: Entry): seq<string> { DepsFrom(e.image.modinfo, 0) }

  /** Every record of the section is terminated. */
  predicate Terminated(mi: string) { mi == "" || mi[|mi| - 1] == NUL }

  /** The sections end with a terminator, and each dependency fits the 256-byte buffer. */
  ghost predicate WellFormed(disk: Disk) {
    forall e :: OnDisk(disk, e) ==> Terminated(e.image.modinfo) && forall d :: d in Deps(e) ==> |d| <= 255
  }

  /** rank falls along every dependency: the dependencies have no cycle. */
  ghost predicate Ranked(disk: Disk, rank: string -> nat) {
    forall e, d :: OnDisk(disk, e) && d in Deps(e) ==> rank(d) < rank(Name(e))
  }

  // ---------------------------------------------------------------------------
  // The kernel
  // ---------------------------------------------------------------------------

  datatype Loaded = Loaded(entry: Entry, args: string)

  datatype Errno = Success | Exists | Refused

  function NamesIn(log: seq<Loaded>): set<string> {
    set k | 0 <= k < |log| :: Name(log[k].entry)
  }

  class Kernel {
    var loaded: seq<Loaded>
    var calls: nat
    /** The kernel's own decision on the n-th init_module call. */
    const refuses: (Entry, nat) -> bool

    constructor (refuses: (Entry, nat) -> bool)
      ensures loaded == [] && calls == 0 && this.refuses == refuses
    {
      loaded, calls := [], 0;
      this.refuses := refuses;
    }

    /** It takes exactly the good images. */
    ghost predicate Sound() {
      forall e, n :: refuses(e, n) <==> !e.image.good
    }

    method InitModule(e: Entry, args: string) returns (r: Errno)
      modifies this
      ensures calls == old(calls) + 1
      ensures r.Refused? <==> refuses(e, old(calls))
      ensures r.Success? ==> loaded == old(loaded) + [Loaded(e, args)] && Name(e) !in NamesIn(old(loaded))
      ensures !r.Success? ==> loaded == old(loaded)
      ensures r.Exists? ==> Name(e) in NamesIn(loaded)
    {
      calls := calls + 1;
      if refuses(e, calls - 1) {
        r := Refused;
      } else if Name(e) in NamesIn(loaded) {
        r := Exists;
      } else {
        loaded := loaded + [Loaded(e, args)];
        r := Success;
      }
    }
  }

  datatype KMod = KMod(name: string, args: string)

  /** The arguments configured for a module: the first kmod directive that names it. */
  function ArgsFor(kmods: seq<KMod>, name: string): string {
    if kmods == [] then "" else if kmods[0].name == name then kmods[0].args else ArgsFor(kmods[1..], name)
  }

  // ---------------------------------------------------------------------------
  // What ought to be loaded
  // ---------------------------------------------------------------------------

  /** S has every good module whose dependencies it has. */
  ghost predicate Closed(disk: Disk, S: set<string>) {
    forall e :: OnDisk(disk, e) && Usable(e) && e.image.good && (forall d :: d in Deps(e) ==> d in S) ==> Name(e) in S
  }

  ghost predicate LeastClosed(disk: Disk, S: set<string>) {
    Closed(disk, S) && forall T :: Closed(disk, T) ==> S <= T
  }

  /** Some module file of that name is good and all it depends on can be loaded. */
  ghost predicate NameLoads(disk: Disk, rank: string -> nat, name: string)
    requires Ranked(disk, rank)
    decreases rank(name), 1
  {
    exists e :: OnDisk(disk, e) && Usable(e) && Name(e) == name && EntryLoads(disk, rank, e)
  }

  ghost predicate EntryLoads(disk: Disk, rank: string -> nat, e: Entry)
    requires Ranked(disk, rank) && OnDisk(disk, e)
    decreases rank(Name(e)), 0
  {
    e.image.good && forall d :: d in Deps(e) ==> NameLoads(disk, rank, d)
  }

  ghost predicate SomeLoads(disk: Disk, rank: string -> nat, es: seq<Entry>, filter: Option<string>)
    requires Ranked(disk, rank) && forall e :: e in es ==> OnDisk(disk, e)
  {
    exists e :: e in es && Selected(filter, e) && EntryLoads(disk, rank, e)
  }

  /** The modules inserted while one entry is probed, failed attempts included. */
  ghost function TouchedByEntry(disk: Disk, rank: string -> nat, e: Entry): set<string>
    requires Ranked(disk, rank) && OnDisk(disk, e)
    decreases rank(Name(e)), 1, 0
  {
    TouchedByDeps(disk, rank, e, 0) + (if EntryLoads(disk, rank, e) then {Name(e)} else {})
  }

  /** Dependencies are tried in order up to the first that cannot be loaded. */
  ghost function TouchedByDeps(disk: Disk, rank: string -> nat, e: Entry, k: nat): set<string>
    requires Ranked(disk, rank) && OnDisk(disk, e) && k <= |Deps(e)|
    decreases rank(Name(e)), 0, |Deps(e)| - k
  {
    if k == |Deps(e)| then {}
    else
      var d := Deps(e)[k];
      TouchedByName(disk, rank, Some(d), rank(d)) + (if NameLoads(disk, rank, d) then TouchedByDeps(disk, rank, e, k + 1) else {})
  }

  ghost predicate Bounds(rank: string -> nat, es: seq<Entry>, filter: Option<string>, bound: nat) {
    forall e :: e in es && Selected(filter, e) ==> rank(Name(e)) <= bound
  }

  ghost predicate BoundsDisk(disk: Disk, rank: string -> nat, filter: Option<string>, bound: nat) {
    Bounds(rank, Entries(disk.rootfs), filter, bound) && Bounds(rank, BootEntries(disk), filter, bound)
  }

  ghost function TouchedInDir(disk: Disk, rank: string -> nat, es: seq<Entry>, filter: Option<string>, bound: nat): set<string>
    requires Ranked(disk, rank) && (forall e :: e in es ==> OnDisk(disk, e)) && Bounds(rank, es, filter, bound)
    decreases bound, 2
  {
    set e, n | e in es && Selected(filter, e) && n in TouchedByEntry(disk, rank, e) :: n
  }

  /** The boot disk is only tried when the root file system gave nothing. */
  ghost function TouchedByName(disk: Disk, rank: string -> nat, filter: Option<string>, bound: nat): set<string>
    requires Ranked(disk, rank) && BoundsDisk(disk, rank, filter, bound)
    decreases bound, 3
  {
    TouchedInDir(disk, rank, Entries(disk.rootfs), filter, bound)
    + (if SomeLoads(disk, rank, Entries(disk.rootfs), filter) then {}
       else TouchedInDir(disk, rank, BootEntries(disk), filter, bound))
  }

  // ---------------------------------------------------------------------------
  // The loader
  // ---------------------------------------------------------------------------

  /**
   * Everything inserted since `before` comes from disk, with the arguments configured for it,
   * after all of its dependencies, and under a name that was not loaded yet.
   */
  ghost predicate Justified(disk: Disk, kmods: seq<KMod>, before: seq<Loaded>, log: seq<Loaded>) {
    before <= log &&
    forall k :: |before| <= k < |log| ==>
      OnDisk(disk, log[k].entry) && Usable(log[k].entry)
      && log[k].args == ArgsFor(kmods, Name(log[k].entry))
      && Name(log[k].entry) !in NamesIn(log[..k])
      && forall d :: d in Deps(log[k].entry) ==> d in NamesIn(log[..k])
  }

  lemma {:induction false} JustifiedTrans(disk: Disk, kmods: seq<KMod>, a: seq<Loaded>, b: seq<Loaded>, c: seq<Loaded>)
    requires Justified(disk, kmods, a, b) && Justified(disk, kmods, b, c)
    ensures Justified(disk, kmods, a, c) && NamesIn(b) <= NamesIn(c)
  {
    forall k | |a| <= k < |b| ensures c[k] == b[k] && c[..k] == b[..k] {
    }
  }

  lemma {:induction false} NothingNew(disk: Disk, kmods: seq<KMod>, log: seq<Loaded>)
    ensures Justified(disk, kmods, log, log)
  {
  }

  lemma {:induction false} NamesInSnoc(log: seq<Loaded>, x: Loaded)
    ensures NamesIn(log + [x]) == NamesIn(log) + {Name(x.entry)}
  {
    var more := log + [x];
    assert more[|log|] == x;
    forall n | n in NamesIn(log) ensures n in NamesIn(more) {
      var k :| 0 <= k < |log| && Name(log[k].entry) == n;
      assert more[k] == log[k];
    }
  }

  lemma {:induction false} JustifiedSnoc(disk: Disk, kmods: seq<KMod>, a: seq<Loaded>, b: seq<Loaded>, e: Entry)
    requires Justified(disk, kmods, a, b) && OnDisk(disk, e) && Usable(e) && Name(e) !in NamesIn(b)
    requires forall d :: d in Deps(e) ==> d in NamesIn(b)
    ensures Justified(disk, kmods, a, b + [Loaded(e, ArgsFor(kmods, Name(e)))])
  {
    var c := b + [Loaded(e, ArgsFor(kmods, Name(e)))];
    assert c[..|b|] == b;
    forall k | |a| <= k < |b| ensures c[k] == b[k] && c[..k] == b[..k] {
    }
  }

  /** The search of modprobe over the kmods list. */
  method FindArgs(kmods: seq<KMod>, name: string) returns (args: string)
    ensures args == ArgsFor(kmods, name)
  {
    args := "";
    var k := 0;
    while k < |kmods|
      invariant 0 <= k <= |kmods| && args == ""
      invariant ArgsFor(kmods, name) == ArgsFor(kmods[k..], name)
    {
      if kmods[k].name == name {
        return kmods[k].args;
      }
      k := k + 1;
    }
  }

  /** The outer loop of modprobe: the index just after "depends=", or None. */
  method FindDepends(mi: string) returns (sec: Option<nat>)
    requires Terminated(mi)
    ensures sec.None? ==> DepsFrom(mi, 0) == []
    ensures sec.Some? ==> sec.value < |mi| && DepsFrom(mi, 0) == Names(mi, sec.value, Cspn(mi, sec.value, |mi|, {NUL}))
  {
    var i := 0;
    while i < |mi|
      invariant 0 <= i <= |mi|
      invariant DepsFrom(mi, 0) == DepsFrom(mi, i)
    {
      if Lies(mi, i, "depends=") {
        DependsInRecord(mi, i);
        return Some(i + 8);
      }
      var z := StrCspn(mi, i, |mi|, {NUL});
      i := z + 1;
    }
    return None;
  }

  lemma {:induction false} DependsInRecord(mi: string, i: nat)
    requires Terminated(mi) && i <= |mi| && Lies(mi, i, "depends=")
    ensures i + 8 < |mi| && Cspn(mi, i, |mi|, {NUL}) == Cspn(mi, i + 8, |mi|, {NUL})
  {
    forall x | i <= x < i + 8 ensures mi[x] != NUL {
      assert mi[i + (x - i)] == "depends="[x - i];
    }
  }

  /** With a sound kernel: the first k dependencies of e are loaded, and only they were tried. */
  ghost predicate DepsDone(disk: Disk, rank: string -> nat, e: Entry, k: nat, before: set<string>, after: set<string>)
    requires Ranked(disk, rank) && OnDisk(disk, e)
  {
    k <= |Deps(e)| && (forall j :: 0 <= j < k ==> NameLoads(disk, rank, Deps(e)[j]))
    && after + TouchedByDeps(disk, rank, e, k) == before + TouchedByDeps(disk, rank, e, 0)
  }

  /** The names left at index i are those of deps from number done on. */
  ghost predicate AtName(mi: string, i: nat, z: nat, deps: seq<string>, done: nat)
    requires i <= z <= |mi|
  {
    done <= |deps| && deps[done..] == Names(mi, i, z)
  }

  lemma {:induction false} NamesStep(mi: string, i: nat, k: nat, next: nat, z: nat, deps: seq<string>, done: nat)
    requires i < z <= |mi| && AtName(mi, i, z, deps, done)
    requires k == Cspn(mi, i, z, {','}) && next == if k < z then k + 1 else k
    ensures done < |deps| && deps[done] == mi[i..k] && AtName(mi, next, z, deps, done + 1)
  {
    assert Names(mi, i, z) == [mi[i..k]] + Names(mi, next, z);
    assert deps[done + 1..] == deps[done..][1..] == Names(mi, next, z);
  }

  lemma {:induction false} NamesEnd(mi: string, z: nat, deps: seq<string>, done: nat)
    requires z <= |mi|
    ensures AtName(mi, z, z, deps, done) <==> done == |deps|
  {
  }

  /** Looking one dependency up needs a smaller bound. */
  lemma {:induction false} RankFalls(disk: Disk, rank: string -> nat, e: Entry, k: nat)
    requires Ranked(disk, rank) && OnDisk(disk, e) && k < |Deps(e)|
    ensures rank(Deps(e)[k]) < rank(Name(e)) && BoundsDisk(disk, rank, Some(Deps(e)[k]), rank(Deps(e)[k]))
  {
    assert Deps(e)[k] in Deps(e);
  }

  lemma {:induction false} DepsStep(disk: Disk, rank: string -> nat, e: Entry, k: nat, before: set<string>, mid: set<string>, after: set<string>)
    requires Ranked(disk, rank) && OnDisk(disk, e) && k < |Deps(e)| && DepsDone(disk, rank, e, k, before, mid)
    requires after == mid + TouchedByName(disk, rank, Some(Deps(e)[k]), rank(Deps(e)[k]))
    ensures NameLoads(disk, rank, Deps(e)[k]) ==> DepsDone(disk, rank, e, k + 1, before, after)
    ensures !NameLoads(disk, rank, Deps(e)[k]) ==>
              !EntryLoads(disk, rank, e) && after == before + TouchedByEntry(disk, rank, e)
  {
  }

  /** With a sound kernel: what probing all of es does. */
  ghost predicate DirDone(disk: Disk, rank: string -> nat, es: seq<Entry>, filter: Option<string>, bound: nat,
                          before: set<string>, after: set<string>, ret: bool)
    requires Ranked(disk, rank) && (forall e :: e in es ==> OnDisk(disk, e)) && Bounds(rank, es, filter, bound)
  {
    (ret <==> SomeLoads(disk, rank, es, filter)) && after == before + TouchedInDir(disk, rank, es, filter, bound)
  }

  lemma {:induction false} DirStep(disk: Disk, rank: string -> nat, es: seq<Entry>, e: Entry, filter: Option<string>, bound: nat,
                                   before: set<string>, mid: set<string>, after: set<string>, ret: bool)
    requires Ranked(disk, rank) && (forall e :: e in es ==> OnDisk(disk, e)) && OnDisk(disk, e)
    requires Bounds(rank, es + [e], filter, bound) && Bounds(rank, es, filter, bound)
    requires DirDone(disk, rank, es, filter, bound, before, mid, ret)
    requires after == mid + (if Selected(filter, e) then TouchedByEntry(disk, rank, e) else {})
    ensures DirDone(disk, rank, es + [e], filter, bound, before, after, ret || (Selected(filter, e) && EntryLoads(disk, rank, e)))
  {
    assert forall x :: x in es + [e] <==> x in es || x == e;
    assert TouchedInDir(disk, rank, es + [e], filter, bound)
        == TouchedInDir(disk, rank, es, filter, bound) + (if Selected(filter, e) then TouchedByEntry(disk, rank, e) else {});
  }

  /** With a sound kernel: what probing one entry does. */
  ghost predicate EntryDone(disk: Disk, rank: string -> nat, e: Entry, before: set<string>, after: set<string>, r: bool)
    requires Ranked(disk, rank) && OnDisk(disk, e)
  {
    (r <==> EntryLoads(disk, rank, e)) && after == before + TouchedByEntry(disk, rank, e)
  }

  /** With a sound kernel: what load_kmod does. */
  ghost predicate NameDone(disk: Disk, rank: string -> nat, filter: Option<string>, bound: nat,
                           before: set<string>, after: set<string>, r: bool)
    requires Ranked(disk, rank) && BoundsDisk(disk, rank, filter, bound)
  {
    (r <==> SomeLoads(disk, rank, Entries(disk.rootfs), filter) || SomeLoads(disk, rank, BootEntries(disk), filter))
    && after == before + TouchedByName(disk, rank, filter, bound)
  }

  lemma {:induction false} NameStep(disk: Disk, rank: string -> nat, filter: Option<string>, bound: nat,
                                    before: set<string>, mid: set<string>, after: set<string>, r0: bool, r1: bool)
    requires Ranked(disk, rank) && BoundsDisk(disk, rank, filter, bound)
    requires DirDone(disk, rank, Entries(disk.rootfs), filter, bound, before, mid, r0)
    requires if r0 then after == mid else DirDone(disk, rank, BootEntries(disk), filter, bound, mid, after, r1)
    ensures NameDone(disk, rank, filter, bound, before, after, r0 || r1)
  {
  }

  lemma {:induction false} LoadsSomewhere(disk: Disk, rank: string -> nat, name: string)
    requires Ranked(disk, rank)
    ensures NameLoads(disk, rank, name) <==>
            SomeLoads(disk, rank, Entries(disk.rootfs), Some(name)) || SomeLoads(disk, rank, BootEntries(disk), Some(name))
  {
    if SomeLoads(disk, rank, Entries(disk.rootfs), Some(name)) {
      var e :| e in Entries(disk.rootfs) && Selected(Some(name), e) && EntryLoads(disk, rank, e);
      assert OnDisk(disk, e);
    }
    if SomeLoads(disk, rank, BootEntries(disk), Some(name)) {
      var e :| e in BootEntries(disk) && Selected(Some(name), e) && EntryLoads(disk, rank, e);
      assert OnDisk(disk, e);
    }
  }

  lemma {:induction false} NoEntries(disk: Disk, rank: string -> nat, filter: Option<string>, bound: nat, names: set<string>)
    requires Ranked(disk, rank)
    ensures DirDone(disk, rank, [], filter, bound, names, names, false)
  {
  }

  lemma {:induction false} InsertStep(disk: Disk, rank: string -> nat, e: Entry, before: set<string>, mid: set<string>, after: set<string>, good: bool)
    requires Ranked(disk, rank) && OnDisk(disk, e) && DepsDone(disk, rank, e, |Deps(e)|, before, mid)
    requires good == e.image.good && after == mid + (if good then {Name(e)} else {})
    ensures EntryDone(disk, rank, e, before, after, good)
  {
    forall d | d in Deps(e) ensures NameLoads(disk, rank, d) {
      var j :| 0 <= j < |Deps(e)| && Deps(e)[j] == d;
    }
  }

  /** What the dependency loop of modprobe has done once it stands before dependency number k. */
  ghost predicate DepsProgress(disk: Disk, kmods: seq<KMod>, rank: string -> nat, e: Entry, k: nat, sound: bool,
                               before: seq<Loaded>, log: seq<Loaded>)
    requires Ranked(disk, rank) && OnDisk(disk, e)
  {
    Justified(disk, kmods, before, log)
    && k <= |Deps(e)| && (forall j :: 0 <= j < k ==> Deps(e)[j] in NamesIn(log))
    && (sound ==> DepsDone(disk, rank, e, k, NamesIn(before), NamesIn(log)))
  }

  lemma {:induction false} ProgressStep(disk: Disk, kmods: seq<KMod>, rank: string -> nat, e: Entry, k: nat, sound: bool,
                                        before: seq<Loaded>, mid: seq<Loaded>, log: seq<Loaded>, ok: bool)
    requires Ranked(disk, rank) && OnDisk(disk, e) && k < |Deps(e)|
    requires DepsProgress(disk, kmods, rank, e, k, sound, before, mid)
    requires Justified(disk, kmods, mid, log) && (ok ==> Deps(e)[k] in NamesIn(log))
    requires BoundsDisk(disk, rank, Some(Deps(e)[k]), rank(Deps(e)[k]))
    requires sound ==> (ok <==> NameLoads(disk, rank, Deps(e)[k]))
    requires sound ==> NameDone(disk, rank, Some(Deps(e)[k]), rank(Deps(e)[k]), NamesIn(mid), NamesIn(log), ok)
    ensures ok ==> DepsProgress(disk, kmods, rank, e, k + 1, sound, before, log)
    ensures !ok ==> Justified(disk, kmods, before, log)
    ensures !ok && sound ==> EntryDone(disk, rank, e, NamesIn(before), NamesIn(log), false)
  {
    JustifiedTrans(disk, kmods, before, mid, log);
    if sound {
      DepsStep(disk, rank, e, k, NamesIn(before), NamesIn(mid), NamesIn(log));
    }
  }

  lemma {:induction false} NoProgress(disk: Disk, kmods: seq<KMod>, rank: string -> nat, e: Entry, sound: bool, log: seq<Loaded>)
    requires Ranked(disk, rank) && OnDisk(disk, e)
    ensures DepsProgress(disk, kmods, rank, e, 0, sound, log, log)
  {
  }

  /** The dependency loop of modprobe. */
  method LoadDeps(disk: Disk, kernel: Kernel, kmods: seq<KMod>, e: Entry, ghost rank: string -> nat)
    returns (r: bool)
    requires WellFormed(disk) && Ranked(disk, rank) && OnDisk(disk, e) && Usable(e)
    modifies kernel
    ensures r ==> DepsProgress(disk, kmods, rank, e, |Deps(e)|, kernel.Sound(), old(kernel.loaded), kernel.loaded)
    ensures !r ==> Justified(disk, kmods, old(kernel.loaded), kernel.loaded)
    ensures !r && kernel.Sound() ==>
        EntryDone(disk, rank, e, NamesIn(old(kernel.loaded)), NamesIn(kernel.loaded), false)
    decreases rank(Name(e)), 0, 0
  {
    hide DepsDone, EntryDone, NameDone, Justified, NamesIn;
    var mi := e.image.modinfo;
    var sec := FindDepends(mi);
    NoProgress(disk, kmods, rank, e, kernel.Sound(), kernel.loaded);
    if sec.None? {
      return true;
    }
    var i := sec.value;
    var end := StrCspn(mi, i, |mi|, {NUL});
    ghost var done := 0;
    ghost var deps := Deps(e);
    assert AtName(mi, i, end, deps, done) by { assert deps[0..] == deps; }
    while i < end
      invariant i <= end <= |mi| && AtName(mi, i, end, deps, done)
      invariant DepsProgress(disk, kmods, rank, e, done, kernel.Sound(), old(kernel.loaded), kernel.loaded)
      decreases end - i
    {
      var k := StrCspn(mi, i, end, {','});
      var dep := mi[i..k];
      var next := if k < end then k + 1 else k;
      NamesStep(mi, i, k, next, end, deps, done);
      RankFalls(disk, rank, e, done);
      ghost var before := kernel.loaded;
      var ok := LoadKmod(disk, kernel, kmods, Some(dep), rank, rank(dep));
      ProgressStep(disk, kmods, rank, e, done, kernel.Sound(), old(kernel.loaded), before, kernel.loaded, ok);
      if !ok {
        return false;
      }
      i, done := next, done + 1;
    }
    NamesEnd(mi, end, deps, done);
    return true;
  }

  /** modprobe */
  method ModprobeEntry(disk: Disk, kernel: Kernel, kmods: seq<KMod>, e: Entry, ghost rank: string -> nat)
    returns (r: bool)
    requires WellFormed(disk) && Ranked(disk, rank) && OnDisk(disk, e) && Usable(e)
    modifies kernel
    ensures Justified(disk, kmods, old(kernel.loaded), kernel.loaded)
    ensures r ==> Name(e) in NamesIn(kernel.loaded)
    ensures kernel.Sound() ==> EntryDone(disk, rank, e, NamesIn(old(kernel.loaded)), NamesIn(kernel.loaded), r)
    decreases rank(Name(e)), 1, 0
  {
    var args := FindArgs(kmods, Name(e));
    r := LoadDeps(disk, kernel, kmods, e, rank);
    if !r {
      return;
    }
    ghost var before := kernel.loaded;
    forall d | d in Deps(e) ensures d in NamesIn(before) {
      var j :| 0 <= j < |Deps(e)| && Deps(e)[j] == d;
    }
    var errno := kernel.InitModule(e, args);
    if errno.Success? {
      NamesInSnoc(before, Loaded(e, args));
      JustifiedSnoc(disk, kmods, old(kernel.loaded), before, e);
    }
    r := !errno.Refused?;
    if kernel.Sound() {
      InsertStep(disk, rank, e, NamesIn(old(kernel.loaded)), NamesIn(before), NamesIn(kernel.loaded), r);
    }
  }

  /** load_kmod */
  method LoadKmod(disk: Disk, kernel: Kernel, kmods: seq<KMod>, modname: Option<string>, ghost rank: string -> nat, ghost bound: nat)
    returns (r: bool)
    requires WellFormed(disk) && Ranked(disk, rank) && BoundsDisk(disk, rank, modname, bound)
    modifies kernel
    ensures Justified(disk, kmods, old(kernel.loaded), kernel.loaded)
    ensures r && modname.Some? ==> modname.value in NamesIn(kernel.loaded)
    ensures kernel.Sound() && modname.Some? ==> (r <==> NameLoads(disk, rank, modname.value))
    ensures kernel.Sound() ==>
        NameDone(disk, rank, modname, bound, NamesIn(old(kernel.loaded)), NamesIn(kernel.loaded), r)
    decreases bound, 3, 0
  {
    hide DirDone, NameDone, Justified, NamesIn;
    var r0 := ModprobeDir(disk, kernel, kmods, disk.rootfs, modname, rank, bound);
    ghost var before := kernel.loaded;
    var r1 := false;
    if !r0 {
      if disk.bootUsable {
        r1 := ModprobeDir(disk, kernel, kmods, disk.boot, modname, rank, bound);
        JustifiedTrans(disk, kmods, old(kernel.loaded), before, kernel.loaded);
      } else {
        NoEntries(disk, rank, modname, bound, NamesIn(before));
      }
    }
    if kernel.Sound() {
      NameStep(disk, rank, modname, bound, NamesIn(old(kernel.loaded)), NamesIn(before), NamesIn(kernel.loaded), r0, r1);
    }
    r := r0 || r1;
    if modname.Some? {
      LoadsSomewhere(disk, rank, modname.value);
    }
  }

  /** What modprobe_dir has done once it stands before entry number k. */
  ghost predicate DirProgress(disk: Disk, kmods: seq<KMod>, rank: string -> nat, es: seq<Entry>, k: nat,
                              filter: Option<string>, bound: nat, sound: bool,
                              before: seq<Loaded>, log: seq<Loaded>, ret: bool)
    requires Ranked(disk, rank) && (forall e :: e in es ==> OnDisk(disk, e)) && Bounds(rank, es, filter, bound)
    requires k <= |es|
  {
    Justified(disk, kmods, before, log)
    && (ret ==> exists e :: e in es && Selected(filter, e) && Name(e) in NamesIn(log))
    && (sound ==> DirDone(disk, rank, es[..k], filter, bound, NamesIn(before), NamesIn(log), ret))
  }

  lemma {:induction false} DirProgressStep(disk: Disk, kmods: seq<KMod>, rank: string -> nat, es: seq<Entry>, k: nat,
                                           filter: Option<string>, bound: nat, sound: bool,
                                           before: seq<Loaded>, mid: seq<Loaded>, log: seq<Loaded>, ret: bool, ok: bool)
    requires Ranked(disk, rank) && (forall e :: e in es ==> OnDisk(disk, e)) && Bounds(rank, es, filter, bound)
    requires k < |es| && DirProgress(disk, kmods, rank, es, k, filter, bound, sound, before, mid, ret)
    requires if Selected(filter, es[k])
             then Justified(disk, kmods, mid, log) && (ok ==> Name(es[k]) in NamesIn(log))
                  && (sound ==> EntryDone(disk, rank, es[k], NamesIn(mid), NamesIn(log), ok))
             else mid == log && !ok
    ensures DirProgress(disk, kmods, rank, es, k + 1, filter, bound, sound, before, log, ret || ok)
  {
    if Selected(filter, es[k]) {
      JustifiedTrans(disk, kmods, before, mid, log);
    }
    assert es[..k + 1] == es[..k] + [es[k]];
    if sound {
      DirStep(disk, rank, es[..k], es[k], filter, bound, NamesIn(before), NamesIn(mid), NamesIn(log), ret);
    }
  }

  /** modprobe_dir */
  method ModprobeDir(disk: Disk, kernel: Kernel, kmods: seq<KMod>, dir: Dir, modname: Option<string>, ghost rank: string -> nat, ghost bound: nat)
    returns (ret: bool)
    requires WellFormed(disk) && Ranked(disk, rank) && (forall e :: e in Entries(dir) ==> OnDisk(disk, e))
    requires Bounds(rank, Entries(dir), modname, bound)
    modifies kernel
    ensures Justified(disk, kmods, old(kernel.loaded), kernel.loaded)
    ensures ret ==> exists e :: e in Entries(dir) && Selected(modname, e) && Name(e) in NamesIn(kernel.loaded)
    ensures kernel.Sound() ==>
        DirDone(disk, rank, Entries(dir), modname, bound, NamesIn(old(kernel.loaded)), NamesIn(kernel.loaded), ret)
    decreases bound, 2, 0
  {
    hide DirDone, EntryDone, Justified, NamesIn;
    ret := false;
    assert Justified(disk, kmods, kernel.loaded, kernel.loaded) by { NothingNew(disk, kmods, kernel.loaded); }
    NoEntries(disk, rank, modname, bound, NamesIn(kernel.loaded));
    if dir.Missing? {
      return;
    }
    var i := 0;
    while i < |dir.entries|
      invariant 0 <= i <= |dir.entries|
      invariant DirProgress(disk, kmods, rank, dir.entries, i, modname, bound, kernel.Sound(), old(kernel.loaded), kernel.loaded, ret)
      decreases |dir.entries| - i
    {
      var e := dir.entries[i];
      ghost var before := kernel.loaded;
      var ok := false;
      if e.statOk && e.fileOrLink && EndsWith(e.fileName, ".ko")
         && (modname.None? || modname.value == Name(e)) && e.openOk && e.mapOk {
        ok := ModprobeEntry(disk, kernel, kmods, e, rank);
      }
      DirProgressStep(disk, kmods, rank, dir.entries, i, modname, bound, kernel.Sound(), old(kernel.loaded), before, kernel.loaded, ret, ok);
      if ok {
        ret := true;
      }
      i := i + 1;
    }
    assert dir.entries[..i] == dir.entries;
  }

  // ---------------------------------------------------------------------------
  // What the outcome means
  // ---------------------------------------------------------------------------

  /** The names of the modules that can be loaded. */
  ghost function Loadable(disk: Disk, rank: string -> nat): set<string>
    requires Ranked(disk, rank)
  {
    set e | e in Entries(disk.rootfs) + BootEntries(disk) && Usable(e) && EntryLoads(disk, rank, e) :: Name(e)
  }

  lemma {:induction false} LoadableMember(disk: Disk, rank: string -> nat, n: string)
    requires Ranked(disk, rank)
    ensures n in Loadable(disk, rank) <==> NameLoads(disk, rank, n)
  {
    if NameLoads(disk, rank, n) {
      var e :| OnDisk(disk, e) && Usable(e) && Name(e) == n && EntryLoads(disk, rank, e);
      assert e in Entries(disk.rootfs) + BootEntries(disk);
    }
  }

  lemma {:induction false} LoadsInClosed(disk: Disk, rank: string -> nat, T: set<string>, n: string)
    requires Ranked(disk, rank) && Closed(disk, T) && NameLoads(disk, rank, n)
    ensures n in T
    decreases rank(n)
  {
    var e :| OnDisk(disk, e) && Usable(e) && Name(e) == n && EntryLoads(disk, rank, e);
    forall d | d in Deps(e) ensures d in T {
      LoadsInClosed(disk, rank, T, d);
    }
  }

  /** Being loadable is the least fixpoint of "good, and every dependency loadable". */
  lemma {:induction false} LoadableIsLeast(disk: Disk, rank: string -> nat)
    requires Ranked(disk, rank)
    ensures LeastClosed(disk, Loadable(disk, rank))
  {
    var S := Loadable(disk, rank);
    forall e | OnDisk(disk, e) && Usable(e) && e.image.good && (forall d :: d in Deps(e) ==> d in S)
      ensures Name(e) in S
    {
      forall d | d in Deps(e) ensures NameLoads(disk, rank, d) {
        LoadableMember(disk, rank, d);
      }
      LoadableMember(disk, rank, Name(e));
    }
    forall T | Closed(disk, T) ensures S <= T {
      forall n | n in S ensures n in T {
        LoadableMember(disk, rank, n);
        LoadsInClosed(disk, rank, T, n);
      }
    }
  }

  /** Whatever gets inserted could be loaded. */
  lemma {:induction false} TouchedEntryLoads(disk: Disk, rank: string -> nat, e: Entry, n: string)
    requires Ranked(disk, rank) && OnDisk(disk, e) && Usable(e) && n in TouchedByEntry(disk, rank, e)
    ensures NameLoads(disk, rank, n)
    decreases rank(Name(e)), 1, 0
  {
    if n in TouchedByDeps(disk, rank, e, 0) {
      TouchedDepsLoad(disk, rank, e, 0, n);
    }
  }

  lemma {:induction false} TouchedBySome(disk: Disk, rank: string -> nat, filter: Option<string>, bound: nat, n: string) returns (e: Entry)
    requires Ranked(disk, rank) && BoundsDisk(disk, rank, filter, bound) && n in TouchedByName(disk, rank, filter, bound)
    ensures OnDisk(disk, e) && Selected(filter, e) && n in TouchedByEntry(disk, rank, e)
  {
    if n in TouchedInDir(disk, rank, Entries(disk.rootfs), filter, bound) {
      e :| e in Entries(disk.rootfs) && Selected(filter, e) && n in TouchedByEntry(disk, rank, e);
    } else {
      e :| e in BootEntries(disk) && Selected(filter, e) && n in TouchedByEntry(disk, rank, e);
    }
  }

  lemma {:induction false} TouchedDepsLoad(disk: Disk, rank: string -> nat, e: Entry, k: nat, n: string)
    requires Ranked(disk, rank) && OnDisk(disk, e) && Usable(e) && k <= |Deps(e)|
    requires n in TouchedByDeps(disk, rank, e, k)
    ensures NameLoads(disk, rank, n)
    decreases rank(Name(e)), 0, |Deps(e)| - k
  {
    var d := Deps(e)[k];
    if n in TouchedByName(disk, rank, Some(d), rank(d)) {
      RankFalls(disk, rank, e, k);
      var e' := TouchedBySome(disk, rank, Some(d), rank(d), n);
      TouchedEntryLoads(disk, rank, e', n);
    } else {
      TouchedDepsLoad(disk, rank, e, k + 1, n);
    }
  }

  lemma {:induction false} LoadingTouches(disk: Disk, rank: string -> nat, e: Entry)
    requires Ranked(disk, rank) && OnDisk(disk, e) && EntryLoads(disk, rank, e)
    ensures Name(e) in TouchedByEntry(disk, rank, e)
  {
  }

  /**
   * With one module directory, modprobe_dir with no filter adds exactly the least fixpoint:
   * the union on the right is the set its contract adds to what was loaded before.
   */
  lemma {:induction false} OneDirectory(disk: Disk, rank: string -> nat, bound: nat)
    requires Ranked(disk, rank) && BootEntries(disk) == [] && Bounds(rank, Entries(disk.rootfs), None, bound)
    ensures LeastClosed(disk, TouchedInDir(disk, rank, Entries(disk.rootfs), None, bound))
  {
    var T := TouchedInDir(disk, rank, Entries(disk.rootfs), None, bound);
    forall n ensures n in T <==> n in Loadable(disk, rank) {
      LoadableMember(disk, rank, n);
      if n in T {
        var e :| e in Entries(disk.rootfs) && Usable(e) && n in TouchedByEntry(disk, rank, e);
        TouchedEntryLoads(disk, rank, e, n);
      }
      if NameLoads(disk, rank, n) {
        var e :| OnDisk(disk, e) && Usable(e) && Name(e) == n && EntryLoads(disk, rank, e);
        LoadingTouches(disk, rank, e);
      }
    }
    assert T == Loadable(disk, rank);
    LoadableIsLeast(disk, rank);
  }

  /** The same files in both directories, in whatever order. */
  ghost predicate SameFiles(a: Disk, b: Disk) {
    (forall e :: e in Entries(a.rootfs) <==> e in Entries(b.rootfs))
    && (forall e :: e in BootEntries(a) <==> e in BootEntries(b))
  }

  lemma {:induction false} SameLoads(a: Disk, ra: string -> nat, b: Disk, rb: string -> nat, e: Entry)
    requires SameFiles(a, b) && Ranked(a, ra) && Ranked(b, rb) && OnDisk(a, e)
    ensures EntryLoads(a, ra, e) <==> EntryLoads(b, rb, e)
    decreases ra(Name(e)), 0
  {
    forall d | d in Deps(e) ensures NameLoads(a, ra, d) <==> NameLoads(b, rb, d) {
      SameNameLoads(a, ra, b, rb, d);
    }
  }

  lemma {:induction false} SameNameLoads(a: Disk, ra: string -> nat, b: Disk, rb: string -> nat, n: string)
    requires SameFiles(a, b) && Ranked(a, ra) && Ranked(b, rb)
    ensures NameLoads(a, ra, n) <==> NameLoads(b, rb, n)
    decreases ra(n), 1
  {
    forall e | OnDisk(a, e) && Name(e) == n
      ensures EntryLoads(a, ra, e) <==> EntryLoads(b, rb, e)
    {
      SameLoads(a, ra, b, rb, e);
    }
    assert forall e :: OnDisk(a, e) <==> OnDisk(b, e);
  }

  lemma {:induction false} SameTouchedByEntry(a: Disk, ra: string -> nat, b: Disk, rb: string -> nat, e: Entry)
    requires SameFiles(a, b) && Ranked(a, ra) && Ranked(b, rb) && OnDisk(a, e)
    ensures TouchedByEntry(a, ra, e) == TouchedByEntry(b, rb, e)
    decreases ra(Name(e)), 1, 0
  {
    SameLoads(a, ra, b, rb, e);
    SameTouchedByDeps(a, ra, b, rb, e, 0);
  }

  lemma {:induction false} SameTouchedByDeps(a: Disk, ra: string -> nat, b: Disk, rb: string -> nat, e: Entry, k: nat)
    requires SameFiles(a, b) && Ranked(a, ra) && Ranked(b, rb) && OnDisk(a, e) && k <= |Deps(e)|
    ensures TouchedByDeps(a, ra, e, k) == TouchedByDeps(b, rb, e, k)
    decreases ra(Name(e)), 0, |Deps(e)| - k
  {
    if k < |Deps(e)| {
      var d := Deps(e)[k];
      RankFalls(a, ra, e, k);
      RankFalls(b, rb, e, k);
      SameNameLoads(a, ra, b, rb, d);
      SameTouchedByName(a, ra, b, rb, Some(d), ra(d), rb(d));
      SameTouchedByDeps(a, ra, b, rb, e, k + 1);
    }
  }

  lemma {:induction false} SameTouchedInDir(a: Disk, ra: string -> nat, b: Disk, rb: string -> nat,
                                            es: seq<Entry>, fs: seq<Entry>, filter: Option<string>, ba: nat, bb: nat)
    requires SameFiles(a, b) && Ranked(a, ra) && Ranked(b, rb)
    requires (forall e :: e in es <==> e in fs) && (forall e :: e in es ==> OnDisk(a, e))
    requires Bounds(ra, es, filter, ba) && Bounds(rb, fs, filter, bb)
    ensures TouchedInDir(a, ra, es, filter, ba) == TouchedInDir(b, rb, fs, filter, bb)
    decreases ba, 2, 0
  {
    forall e | e in es && Selected(filter, e)
      ensures TouchedByEntry(a, ra, e) == TouchedByEntry(b, rb, e)
    {
      SameTouchedByEntry(a, ra, b, rb, e);
    }
  }

  lemma {:induction false} SameTouchedByName(a: Disk, ra: string -> nat, b: Disk, rb: string -> nat,
                                             filter: Option<string>, ba: nat, bb: nat)
    requires SameFiles(a, b) && Ranked(a, ra) && Ranked(b, rb)
    requires BoundsDisk(a, ra, filter, ba) && BoundsDisk(b, rb, filter, bb)
    ensures TouchedByName(a, ra, filter, ba) == TouchedByName(b, rb, filter, bb)
    decreases ba, 3, 0
  {
    SameTouchedInDir(a, ra, b, rb, Entries(a.rootfs), Entries(b.rootfs), filter, ba, bb);
    SameTouchedInDir(a, ra, b, rb, BootEntries(a), BootEntries(b), filter, ba, bb);
    forall e | e in Entries(a.rootfs) ensures EntryLoads(a, ra, e) <==> EntryLoads(b, rb, e) {
      SameLoads(a, ra, b, rb, e);
    }
  }

  /** What load_kmod and modprobe_dir load does not depend on the order in which directories are read. */
  lemma {:induction false} OrderIrrelevant(a: Disk, ra: string -> nat, b: Disk, rb: string -> nat, filter: Option<string>, ba: nat, bb: nat)
    requires SameFiles(a, b) && Ranked(a, ra) && Ranked(b, rb)
    requires BoundsDisk(a, ra, filter, ba) && BoundsDisk(b, rb, filter, bb)
    ensures TouchedByName(a, ra, filter, ba) == TouchedByName(b, rb, filter, bb)
    ensures TouchedInDir(a, ra, Entries(a.rootfs), filter, ba) == TouchedInDir(b, rb, Entries(b.rootfs), filter, bb)
    ensures SomeLoads(a, ra, Entries(a.rootfs), filter) <==> SomeLoads(b, rb, Entries(b.rootfs), filter)
  {
    SameTouchedByName(a, ra, b, rb, filter, ba, bb);
    SameTouchedInDir(a, ra, b, rb, Entries(a.rootfs), Entries(b.rootfs), filter, ba, bb);
    forall e | e in Entries(a.rootfs) ensures EntryLoads(a, ra, e) <==> EntryLoads(b, rb, e) {
      SameLoads(a, ra, b, rb, e);
    }
  }

  // ---------------------------------------------------------------------------
  // The depends= record
  // ---------------------------------------------------------------------------

  function Join(names: seq<string>): string {
    if names == [] then "" else if |names| == 1 then names[0] else names[0] + "," + Join(names[1..])
  }

  /** A .modinfo section: records before, the dependencies, records after. */
  function PrintRecords(records: seq<string>): string {
    if records == [] then "" else records[0] + [NUL] + PrintRecords(records[1..])
  }

  function PrintModinfo(first: seq<string>, names: seq<string>, last: seq<string>): string {
    if first == [] then ("depends=" + Join(names)) + ([NUL] + PrintRecords(last))
    else first[0] + ([NUL] + PrintModinfo(first[1..], names, last))
  }

  /** A record other than the dependencies. */
  ghost predicate IsOther(r: string) { NUL !in r && !("depends=" <= r) }

  ghost predicate PlainName(n: string) { n != "" && NUL !in n && ',' !in n }

  lemma {:induction false} NamesCons(mi: string, i: nat, z: nat, n: string, rest: string)
    requires i <= z <= |mi| && PlainName(n) && Lies(mi, i, n + rest) && z == i + |n + rest|
    requires rest == "" || rest[0] == ','
    ensures i + |n| <= z
    ensures Names(mi, i, z) == [n] + (if rest == "" then [] else Names(mi, i + |n| + 1, z))
  {
    LiesSplit(mi, i, n, rest);
    LiesSlice(mi, i, n);
    assert rest != "" ==> mi[i + |n| + 0] == rest[0];
    CspnOver(mi, i, z, {','}, n);
  }

  lemma {:induction false} NamesOne(mi: string, i: nat, z: nat, n: string)
    requires PlainName(n) && Lies(mi, i, n) && z == i + |n|
    ensures z <= |mi| && Names(mi, i, z) == [n]
  {
    hide Names;
    assert n + "" == n;
    NamesCons(mi, i, z, n, "");
  }

  lemma {:induction false} NamesMore(mi: string, i: nat, z: nat, n: string, text: string)
    requires PlainName(n) && Lies(mi, i, n + ("," + text)) && z == i + |n| + 1 + |text|
    ensures z <= |mi| && Names(mi, i, z) == [n] + Names(mi, i + |n| + 1, z) && Lies(mi, i + |n| + 1, text)
  {
    hide Names;
    LiesSplit(mi, i, n, "," + text);
    LiesSplit(mi, i + |n|, ",", text);
    NamesCons(mi, i, z, n, "," + text);
  }

  lemma {:induction false} JoinStep(names: seq<string>)
    requires names != []
    ensures Join(names) == if |names| == 1 then names[0] else names[0] + ("," + Join(names[1..]))
    ensures |Join(names)| == if |names| == 1 then |names[0]| else |names[0]| + 1 + |Join(names[1..])|
  {
    if |names| > 1 {
      var a, b, c := names[0], ",", Join(names[1..]);
      assert a + b + c == a + (b + c);
    }
  }

  lemma {:induction false} NamesOfJoin(mi: string, i: nat, z: nat, names: seq<string>)
    requires i <= z <= |mi| && Lies(mi, i, Join(names)) && z == i + |Join(names)|
    requires forall k :: 0 <= k < |names| ==> PlainName(names[k])
    ensures Names(mi, i, z) == names
    decreases |names|
  {
    hide Names, Lies, PlainName;
    if names == [] {
      NoNames(mi, i);
    } else {
      hide Join;
      JoinStep(names);
      if |names| == 1 {
        NamesOne(mi, i, z, names[0]);
        assert names == [names[0]];
      } else {
        NamesMore(mi, i, z, names[0], Join(names[1..]));
        NamesOfJoin(mi, i + |names[0]| + 1, z, names[1..]);
        assert names == [names[0]] + names[1..];
      }
    }
  }

  lemma {:induction false} NoNames(mi: string, i: nat)
    requires i <= |mi|
    ensures Names(mi, i, i) == []
  {
  }

  lemma {:induction false} JoinNoNul(names: seq<string>)
    requires forall k :: 0 <= k < |names| ==> PlainName(names[k])
    ensures NUL !in Join(names)
    decreases |names|
  {
    if |names| > 1 {
      JoinNoNul(names[1..]);
    }
  }

  /** The record at index i of a section. */
  lemma {:induction false} RecordAt(mi: string, i: nat, r: string, tail: string)
    requires Lies(mi, i, r + ([NUL] + tail)) && NUL !in r
    ensures Lies(mi, i, r) && i + |r| < |mi| && Cspn(mi, i, |mi|, {NUL}) == i + |r| && Lies(mi, i + |r| + 1, tail)
  {
    LiesSplit(mi, i, r, [NUL] + tail);
    LiesSplit(mi, i + |r|, [NUL], tail);
    assert mi[i + |r| + 0] == [NUL][0];
    CspnOver(mi, i, |mi|, {NUL}, r);
  }

  lemma {:induction false} DependsRecord(mi: string, i: nat, names: seq<string>, tail: string)
    requires Lies(mi, i, ("depends=" + Join(names)) + ([NUL] + tail))
    requires forall k :: 0 <= k < |names| ==> PlainName(names[k])
    ensures DepsFrom(mi, i) == names
  {
    hide Join, Names, Lies, PlainName;
    var r := "depends=" + Join(names);
    JoinNoNul(names);
    RecordAt(mi, i, r, tail);
    LiesSplit(mi, i, "depends=", Join(names));
    NamesOfJoin(mi, i + 8, i + |r|, names);
  }

  lemma {:induction false} OtherRecord(mi: string, i: nat, r: string, tail: string)
    requires Lies(mi, i, r + ([NUL] + tail)) && IsOther(r)
    ensures Lies(mi, i + |r| + 1, tail) && DepsFrom(mi, i) == DepsFrom(mi, i + |r| + 1)
  {
    RecordAt(mi, i, r, tail);
    if 8 <= |r| {
      var x :| 0 <= x < 8 && r[x] != "depends="[x];
      assert mi[i + x] == r[x];
    }
  }

  lemma {:induction false} PrintModinfoStep(first: seq<string>, names: seq<string>, last: seq<string>)
    ensures PrintModinfo(first, names, last) ==
      if first == [] then ("depends=" + Join(names)) + ([NUL] + PrintRecords(last))
      else first[0] + ([NUL] + PrintModinfo(first[1..], names, last))
  {
  }

  lemma {:induction false} DepsFromPrinted(mi: string, i: nat, first: seq<string>, names: seq<string>, last: seq<string>)
    requires Lies(mi, i, PrintModinfo(first, names, last))
    requires forall k :: 0 <= k < |names| ==> PlainName(names[k])
    requires forall k :: 0 <= k < |first| ==> IsOther(first[k])
    ensures DepsFrom(mi, i) == names
    decreases |first|
  {
    hide DepsFrom, Lies, PrintModinfo, PrintRecords, Join, PlainName, IsOther;
    PrintModinfoStep(first, names, last);
    if first == [] {
      DependsRecord(mi, i, names, PrintRecords(last));
    } else {
      var tail := PrintModinfo(first[1..], names, last);
      OtherRecord(mi, i, first[0], tail);
      DepsFromPrinted(mi, i + |first[0]| + 1, first[1..], names, last);
    }
  }

  /** Reading a .modinfo section gives back the dependencies it was written with. */
  lemma {:induction false} DepsRoundTrip(e: Entry, first: seq<string>, names: seq<string>, last: seq<string>)
    requires forall k :: 0 <= k < |names| ==> PlainName(names[k])
    requires forall k :: 0 <= k < |first| ==> IsOther(first[k])
    requires e.image.modinfo == PrintModinfo(first, names, last)
    ensures Deps(e) == names
  {
    DepsFromPrinted(e.image.modinfo, 0, first, names, last);
  }

  lemma {:induction false} RecordsStep(records: seq<string>)
    requires records != []
    ensures PrintRecords(records) == records[0] + ([NUL] + PrintRecords(records[1..]))
    ensures |PrintRecords(records)| == |records[0]| + 1 + |PrintRecords(records[1..])|
  {
    var a, b, c := records[0], [NUL], PrintRecords(records[1..]);
    assert a + b + c == a + (b + c);
  }

  lemma {:induction false} NoDependsFrom(mi: string, i: nat, records: seq<string>)
    requires Lies(mi, i, PrintRecords(records)) && i + |PrintRecords(records)| == |mi|
    requires forall k :: 0 <= k < |records| ==> IsOther(records[k])
    ensures DepsFrom(mi, i) == []
    decreases |records|
  {
    hide Lies, IsOther;
    if records == [] {
      NothingLeft(mi, i);
    } else {
      hide PrintRecords, DepsFrom;
      RecordsStep(records);
      OtherRecord(mi, i, records[0], PrintRecords(records[1..]));
      NoDependsFrom(mi, i + |records[0]| + 1, records[1..]);
    }
  }

  lemma {:induction false} NothingLeft(mi: string, i: nat)
    requires i == |mi|
    ensures DepsFrom(mi, i) == []
  {
  }

  /** A section without such a record names no dependencies. */
  lemma {:induction false} NoDepends(e: Entry, records: seq<string>)
    requires e.image.modinfo == PrintRecords(records) && forall k :: 0 <= k < |records| ==> IsOther(records[k])
    ensures Deps(e) == []
  {
    LiesSelf(e.image.modinfo);
    NoDependsFrom(e.image.modinfo, 0, records);
  }

  // ---------------------------------------------------------------------------
  // The two directories, over the fields of the disk
  // ---------------------------------------------------------------------------

  /** The entry is a module file of that name, and stat, open and mmap on it have worked. */
  predicate ModuleFile(e: Entry, name: string) {
    e.statOk && e.fileOrLink && e.openOk && e.mapOk && e.fileName == name + ".ko"
  }

  lemma {:induction false} UsableIs(e: Entry, name: string)
    ensures Usable(e) && Name(e) == name <==> ModuleFile(e, name)
    ensures Usable(e) ==> ModuleFile(e, Name(e))
  {
    var s := e.fileName;
    if |s| >= 3 && s[|s| - 3..] == ".ko" {
      assert s == s[..|s| - 3] + ".ko";
    }
    if s == name + ".ko" {
      assert s[|s| - 3..] == ".ko" && s[..|s| - 3] == name;
    }
  }

  /** The entries of a directory that the loader looks into: that of rootfs, or of a usable boot disk. */
  predicate InDirectory(disk: Disk, e: Entry) {
    (disk.rootfs.Present? && e in disk.rootfs.entries)
    || (disk.bootUsable && disk.boot.Present? && e in disk.boot.entries)
  }

  /** A name can be loaded exactly when one of the two directories holds a good module of that name whose dependencies can be. */
  lemma {:induction false} NameLoadsIff(disk: Disk, rank: string -> nat, name: string)
    requires Ranked(disk, rank)
    ensures NameLoads(disk, rank, name) <==>
            exists e :: InDirectory(disk, e) && ModuleFile(e, name) && e.image.good && forall d :: d in Deps(e) ==> NameLoads(disk, rank, d)
  {
    hide Usable, Name, ModuleFile, Deps;
    if NameLoads(disk, rank, name) {
      var e :| OnDisk(disk, e) && Usable(e) && Name(e) == name && EntryLoads(disk, rank, e);
      UsableIs(e, name);
      assert InDirectory(disk, e);
    }
    if e :| InDirectory(disk, e) && ModuleFile(e, name) && e.image.good && forall d :: d in Deps(e) ==> NameLoads(disk, rank, d) {
      UsableIs(e, name);
      assert OnDisk(disk, e) && EntryLoads(disk, rank, e);
    }
  }

  /** In particular a module on a usable boot disk is found, whatever the root file system holds. */
  lemma {:induction false} FoundOnBootDisk(disk: Disk, rank: string -> nat, es: seq<Entry>, e: Entry, name: string)
    requires Ranked(disk, rank) && disk.bootUsable && disk.boot == Present(es) && e in es
    requires ModuleFile(e, name) && e.image.good && forall d :: d in Deps(e) ==> NameLoads(disk, rank, d)
    ensures NameLoads(disk, rank, name)
  {
    NameLoadsIff(disk, rank, name);
    assert InDirectory(disk, e);
  }

  /** A boot disk that cannot be used counts as one without modules. */
  lemma {:induction false} UnusableBootDisk(disk: Disk, rank: string -> nat, filter: Option<string>, bound: nat)
    requires Ranked(disk, rank) && BoundsDisk(disk, rank, filter, bound) && !disk.bootUsable
    ensures var bare := Disk(disk.rootfs, false, Missing);
            Ranked(bare, rank) && BoundsDisk(bare, rank, filter, bound)
            && TouchedByName(disk, rank, filter, bound) == TouchedByName(bare, rank, filter, bound)
            && forall n :: NameLoads(disk, rank, n) <==> NameLoads(bare, rank, n)
  {
    var bare := Disk(disk.rootfs, false, Missing);
    assert forall e :: OnDisk(bare, e) <==> OnDisk(disk, e);
    assert SameFiles(disk, bare);
    SameTouchedByName(disk, rank, bare, rank, filter, bound, bound);
    forall n ensures NameLoads(disk, rank, n) <==> NameLoads(bare, rank, n) {
      SameNameLoads(disk, rank, bare, rank, n);
    }
  }

  /** What a search of the modules es adds: whatever the entries with the name asked for, or all of them, add. */
  lemma {:induction false} AddedInDir(disk: Disk, rank: string -> nat, es: seq<Entry>, filter: Option<string>, bound: nat, x: string)
    requires Ranked(disk, rank) && (forall e :: e in es ==> OnDisk(disk, e)) && Bounds(rank, es, filter, bound)
    ensures x in TouchedInDir(disk, rank, es, filter, bound) <==>
            exists e, name :: e in es && ModuleFile(e, name) && (filter == None || filter == Some(name)) && x in TouchedByEntry(disk, rank, e)
  {
    hide Usable, Name, ModuleFile, TouchedByEntry;
    if x in TouchedInDir(disk, rank, es, filter, bound) {
      var e :| e in es && Selected(filter, e) && x in TouchedByEntry(disk, rank, e);
      UsableIs(e, Name(e));
      assert ModuleFile(e, Name(e));
    }
    if e, name :| e in es && ModuleFile(e, name) && (filter == None || filter == Some(name)) && x in TouchedByEntry(disk, rank, e) {
      UsableIs(e, name);
      assert Selected(filter, e);
    }
  }

  /** A module of the name asked for, or any module, in es can be loaded. */
  lemma {:induction false} SomeLoadsIs(disk: Disk, rank: string -> nat, es: seq<Entry>, filter: Option<string>)
    requires Ranked(disk, rank) && forall e :: e in es ==> OnDisk(disk, e)
    ensures SomeLoads(disk, rank, es, filter) <==>
            exists e, name :: e in es && ModuleFile(e, name) && (filter == None || filter == Some(name))
                              && e.image.good && forall d :: d in Deps(e) ==> NameLoads(disk, rank, d)
  {
    hide Usable, Name, ModuleFile, Deps;
    if SomeLoads(disk, rank, es, filter) {
      var e :| e in es && Selected(filter, e) && EntryLoads(disk, rank, e);
      UsableIs(e, Name(e));
      assert ModuleFile(e, Name(e));
    }
    if e, name :| e in es && ModuleFile(e, name) && (filter == None || filter == Some(name))
                  && e.image.good && forall d :: d in Deps(e) ==> NameLoads(disk, rank, d) {
      UsableIs(e, name);
      assert Selected(filter, e) && EntryLoads(disk, rank, e);
    }
  }

  /** The root file system is searched first, and the boot disk only if it gave nothing. */
  lemma {:induction false} BootDiskSecond(disk: Disk, rank: string -> nat, es: seq<Entry>, bs: seq<Entry>, filter: Option<string>, bound: nat)
    requires Ranked(disk, rank) && BoundsDisk(disk, rank, filter, bound)
    requires disk.rootfs == Present(es) && disk.bootUsable && disk.boot == Present(bs)
    ensures (forall e :: e in es ==> OnDisk(disk, e)) && (forall e :: e in bs ==> OnDisk(disk, e))
    ensures Bounds(rank, es, filter, bound) && Bounds(rank, bs, filter, bound)
    ensures TouchedByName(disk, rank, filter, bound) ==
            if SomeLoads(disk, rank, es, filter) then TouchedInDir(disk, rank, es, filter, bound)
            else TouchedInDir(disk, rank, es, filter, bound) + TouchedInDir(disk, rank, bs, filter, bound)
  {
  }

  /** Of one module: its name if it loads, and what its dependencies add, up to the first that does not load. */
  lemma {:induction false} AddedByEntry(disk: Disk, rank: string -> nat, e: Entry, k: nat, x: string)
    requires Ranked(disk, rank) && OnDisk(disk, e) && k <= |Deps(e)|
    requires forall j :: 0 <= j < k ==> NameLoads(disk, rank, Deps(e)[j])
    requires k < |Deps(e)| ==> !NameLoads(disk, rank, Deps(e)[k])
    ensures x in TouchedByEntry(disk, rank, e) <==>
            (x == Name(e) && EntryLoads(disk, rank, e))
            || exists j, d :: 0 <= j < |Deps(e)| && j <= k && d == Deps(e)[j] && x in AddedByName(disk, rank, d)
  {
    AddedByDeps(disk, rank, e, 0, k, x);
  }

  /** The modules added when a name is looked up. */
  ghost function AddedByName(disk: Disk, rank: string -> nat, name: string): set<string>
    requires Ranked(disk, rank)
  {
    TouchedByName(disk, rank, Some(name), rank(name))
  }

  lemma {:induction false} OneDependency(disk: Disk, rank: string -> nat, e: Entry, i: nat)
    requires Ranked(disk, rank) && OnDisk(disk, e) && i < |Deps(e)|
    ensures TouchedByDeps(disk, rank, e, i) ==
            AddedByName(disk, rank, Deps(e)[i]) + if NameLoads(disk, rank, Deps(e)[i]) then TouchedByDeps(disk, rank, e, i + 1) else {}
  {
    hide NameLoads, TouchedByName;
  }

  lemma {:induction false} AddedByDeps(disk: Disk, rank: string -> nat, e: Entry, i: nat, k: nat, x: string)
    requires Ranked(disk, rank) && OnDisk(disk, e) && i <= k <= |Deps(e)|
    requires forall j :: 0 <= j < k ==> NameLoads(disk, rank, Deps(e)[j])
    requires k < |Deps(e)| ==> !NameLoads(disk, rank, Deps(e)[k])
    ensures x in TouchedByDeps(disk, rank, e, i) <==>
            exists j, d :: i <= j < |Deps(e)| && j <= k && d == Deps(e)[j] && x in AddedByName(disk, rank, d)
    decreases k - i
  {
    hide NameLoads, Deps, AddedByName;
    if i < |Deps(e)| {
      var d := Deps(e)[i];
      OneDependency(disk, rank, e, i);
      hide TouchedByDeps;
      if i < k {
        AddedByDeps(disk, rank, e, i + 1, k, x);
      }
      if x in AddedByName(disk, rank, d) {
        assert i <= i < |Deps(e)| && i <= k && d == Deps(e)[i];
      }
    }
  }

  /** The configured arguments: those of the first directive that names the module. */
  lemma {:induction false} FirstArgs(kmods: seq<KMod>, name: string, k: nat)
    ensures k < |kmods| && kmods[k].name == name && (forall j :: 0 <= j < k ==> kmods[j].name != name)
            ==> ArgsFor(kmods, name) == kmods[k].args
    ensures (forall j :: 0 <= j < |kmods| ==> kmods[j].name != name) ==> ArgsFor(kmods, name) == ""
    decreases |kmods|
  {
    if kmods != [] {
      FirstArgs(kmods[1..], name, if k > 0 then k - 1 else 0);
    }
  }
}
