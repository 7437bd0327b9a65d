// The file system calls the extractor makes, over a tree without links.
module TarFs {
  import opened CStrings
  import opened TarFormat

  /** A file is known by the components that lead to it from the root. */
  type Key = seq<string>

  datatype Node = File(data: seq<Byte>) | Dir

  type Fs = map<Key, Node>

  const TMP: Key := ["tarfile.tmp"]

  predicate IsDir(fs: Fs, k: Key) { k == [] || (k in fs && fs[k].Dir?) }

  predicate IsNode(fs: Fs, k: Key) { k == [] || k in fs }

  function Parent(k: Key): Key { if k == [] then [] else k[..|k| - 1] }

  /** The parent of everything in the tree is a directory. */
  ghost predicate IsTree(fs: Fs) {
    [] !in fs && forall k :: k in fs ==> IsDir(fs, Parent(k))
  }

  function Enter(k: Key, c: string): Key {
    if c == "." then k else if c == ".." then Parent(k) else k + [c]
  }

  /** Where the first n components lead; all but the last have to be directories. */
  function Walk(fs: Fs, cs: seq<string>, n: nat): Option<Key>
    requires n <= |cs|
  {
    if n == 0 then Some([])
    else match Walk(fs, cs, n - 1)
         case None => None
         case Some(k) => if IsDir(fs, k) then Some(Enter(k, cs[n - 1])) else None
  }

  /** Where the first n components lead, every directory on the way taken to exist. */
  function Lead(cs: seq<string>, n: nat): Key
    requires n <= |cs|
  {
    if n == 0 then [] else Enter(Lead(cs, n - 1), cs[n - 1])
  }

  function Locate(fs: Fs, cs: seq<string>): Option<Key> { Walk(fs, cs, |cs|) }

  /** access(path, F_OK) == 0 */
  predicate Exists(fs: Fs, cs: seq<string>) {
    Locate(fs, cs).Some? && IsNode(fs, Locate(fs, cs).value)
  }

  /** mkdir of the first n components; None unless the way there exists.  An existing name is left alone (EEXIST). */
  function Mkdir(fs: Fs, cs: seq<string>, n: nat): Option<Fs>
    requires n <= |cs|
  {
    match Walk(fs, cs, n)
    case None => None
    case Some(k) => Some(if IsNode(fs, k) then fs else fs[k := Dir])
  }

  /** The directories of the first n components, made one by one from the outermost until one fails. */
  ghost function Mkdirs(fs: Fs, cs: seq<string>, n: nat): (bool, Fs)
    requires n <= |cs|
  {
    if n == 0 then (true, fs)
    else
      var r := Mkdirs(fs, cs, n - 1);
      if !r.0 then r
      else match Mkdir(r.1, cs, n)
           case None => (false, r.1)
           case Some(more) => (true, more)
  }

  /** rename of the temporary file; it fails without a directory to hold the new name, or over a directory. */
  function Rename(fs: Fs, cs: seq<string>): Option<Fs>
    requires TMP in fs && fs[TMP].File?
  {
    match Locate(fs, cs)
    case None => None
    case Some(k) =>
      if IsDir(fs, k) then None
      else if k == TMP then Some(fs) else Some((fs - {TMP})[k := fs[TMP]])
  }

  // ---------------------------------------------------------------------------
  // Growth
  // ---------------------------------------------------------------------------

  /** b may come later than a: of what a holds, only the temporary file may change. */
  ghost predicate Grows(a: Fs, b: Fs) {
    forall k :: k in a && (k != TMP || a[k].Dir?) ==> k in b && b[k] == a[k]
  }

  lemma {:induction false} GrowsSame(fs: Fs)
    ensures Grows(fs, fs)
  {
  }

  lemma {:induction false} GrowsTrans(a: Fs, b: Fs, c: Fs)
    requires Grows(a, b) && Grows(b, c)
    ensures Grows(a, c)
  {
    forall k | k in a && (k != TMP || a[k].Dir?) ensures k in c && c[k] == a[k] {
      assert k in b && b[k] == a[k];
    }
  }

  lemma {:induction false} WalkMoreDirs(a: Fs, b: Fs, cs: seq<string>, n: nat)
    requires n <= |cs| && (forall k :: IsDir(a, k) ==> IsDir(b, k)) && Walk(a, cs, n).Some?
    ensures Walk(b, cs, n) == Walk(a, cs, n)
    decreases n
  {
    if n > 0 {
      WalkMoreDirs(a, b, cs, n - 1);
    }
  }

  lemma {:induction false} WalkGrows(a: Fs, b: Fs, cs: seq<string>, n: nat)
    requires n <= |cs| && Grows(a, b) && Walk(a, cs, n).Some?
    ensures Walk(b, cs, n) == Walk(a, cs, n)
  {
    WalkMoreDirs(a, b, cs, n);
  }

  /** Only directories matter to a walk. */
  lemma {:induction false} WalkSameDirs(a: Fs, b: Fs, cs: seq<string>, n: nat)
    requires n <= |cs| && forall k :: IsDir(a, k) <==> IsDir(b, k)
    ensures Walk(b, cs, n) == Walk(a, cs, n)
    decreases n
  {
    if n > 0 {
      WalkSameDirs(a, b, cs, n - 1);
    }
  }

  /** A walk that gets to its end is where the names alone lead, past directories only. */
  lemma {:induction false} WalkIsLead(fs: Fs, cs: seq<string>, n: nat)
    requires n <= |cs| && Walk(fs, cs, n).Some?
    ensures Walk(fs, cs, n) == Some(Lead(cs, n)) && forall m :: 0 <= m < n ==> IsDir(fs, Lead(cs, m))
    decreases n
  {
    if n > 0 {
      WalkIsLead(fs, cs, n - 1);
    }
  }

  lemma {:induction false} WalkParent(fs: Fs, cs: seq<string>, n: nat)
    requires n <= |cs| && IsTree(fs) && Walk(fs, cs, n).Some?
    ensures IsDir(fs, Parent(Walk(fs, cs, n).value))
    decreases n
  {
    if n > 0 {
      WalkParent(fs, cs, n - 1);
    }
  }

  lemma {:induction false} MkdirGrows(fs: Fs, cs: seq<string>, n: nat)
    requires n <= |cs| && IsTree(fs) && Mkdir(fs, cs, n).Some?
    ensures var r := Mkdir(fs, cs, n).value;
            Grows(fs, r) && IsTree(r) && Walk(r, cs, n) == Walk(fs, cs, n) && IsNode(r, Walk(r, cs, n).value)
  {
    var r := Mkdir(fs, cs, n).value;
    WalkParent(fs, cs, n);
    WalkGrows(fs, r, cs, n);
  }

  lemma {:induction false} MkdirsGrow(fs: Fs, cs: seq<string>, n: nat)
    requires IsTree(fs) && n <= |cs|
    ensures var r := Mkdirs(fs, cs, n); Grows(fs, r.1) && IsTree(r.1)
    decreases n
  {
    if n == 0 {
      GrowsSame(fs);
    } else {
      MkdirsOnce(fs, cs, n);
      hide Mkdirs, Mkdir, Grows, IsTree, Walk;
      MkdirsGrow(fs, cs, n - 1);
      var r := Mkdirs(fs, cs, n - 1).1;
      if Mkdir(r, cs, n).Some? {
        MkdirGrows(r, cs, n);
        GrowsTrans(fs, r, Mkdir(r, cs, n).value);
      }
    }
  }

  lemma {:induction false} MkdirAgain(r: Fs, cs: seq<string>, n: nat, later: Fs)
    requires n <= |cs| && IsTree(r) && Mkdir(r, cs, n).Some? && Grows(Mkdir(r, cs, n).value, later)
    requires TMP in Mkdir(r, cs, n).value && TMP !in later ==> Lead(cs, n) != TMP
    ensures Mkdir(later, cs, n) == Some(later) && Grows(r, later) && (TMP in r ==> TMP in Mkdir(r, cs, n).value)
  {
    hide Lead, Walk;
    var s := Mkdir(r, cs, n).value;
    MkdirGrows(r, cs, n);
    WalkGrows(s, later, cs, n);
    WalkIsLead(s, cs, n);
    GrowsTrans(r, s, later);
  }

  lemma {:induction false} MkdirsOnce(fs: Fs, cs: seq<string>, n: nat)
    requires 0 < n <= |cs|
    ensures var r := Mkdirs(fs, cs, n - 1);
            Mkdirs(fs, cs, n) ==
            if !r.0 then r else if Mkdir(r.1, cs, n).None? then (false, r.1) else (true, Mkdir(r.1, cs, n).value)
  {
    hide Mkdir;
  }

  /**
   * Making the directories again changes nothing, and fails where it failed before, unless the
   * temporary file stood on their way and is gone.
   */
  lemma {:induction false} MkdirsAgain(fs: Fs, cs: seq<string>, n: nat, later: Fs)
    requires IsTree(fs) && n <= |cs| && Grows(Mkdirs(fs, cs, n).1, later)
    requires !Mkdirs(fs, cs, n).0 ==> forall k :: IsDir(Mkdirs(fs, cs, n).1, k) <==> IsDir(later, k)
    requires TMP in Mkdirs(fs, cs, n).1 && TMP !in later ==> forall m :: 0 <= m <= n ==> Lead(cs, m) != TMP
    ensures Mkdirs(later, cs, n) == (Mkdirs(fs, cs, n).0, later)
    decreases n
  {
    hide Lead, Walk, Mkdir, IsTree, Grows;
    if n > 0 {
      var r := Mkdirs(fs, cs, n - 1);
      MkdirsGrow(fs, cs, n - 1);
      MkdirsOnce(fs, cs, n);
      MkdirsOnce(later, cs, n);
      hide Mkdirs;
      if r.0 && Mkdir(r.1, cs, n).Some? {
        MkdirAgain(r.1, cs, n, later);
        MkdirsAgain(fs, cs, n - 1, later);
      } else {
        MkdirsAgain(fs, cs, n - 1, later);
        if r.0 {
          NoMkdir(r.1, cs, n, later);
        }
      }
    }
  }

  lemma {:induction false} NoMkdir(r: Fs, cs: seq<string>, n: nat, later: Fs)
    requires n <= |cs| && forall k :: IsDir(r, k) <==> IsDir(later, k)
    ensures Mkdir(r, cs, n).None? ==> Mkdir(later, cs, n).None?
  {
    WalkSameDirs(r, later, cs, n);
  }

}
