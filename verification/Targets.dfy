// The boot targets of src/misc.h.
module Targets {
  datatype Module = Module(name: string, args: string)

  datatype Target = Target(
    title: string,
    isDefault: bool,
    resetVga: bool,
    root: string,
    kernel: string,
    initrd: string,
    cmdline: string,
    append: string,
    modules: seq<Module>
  ) {
    /** Only these are added to the list of targets. */
    predicate Complete() { root != "" && kernel != "" }
  }

  /** INIT_TARGET */
  const InitTarget := Target("", false, false, "", "", "", "", "", [])

  /** sizeof of the title and root fields, and of the others, without the terminator. */
  const SHORT := 255
  const LONG := 1023

  /** What a field of 256 bytes keeps. */
  function Cut255(s: string): string { if |s| <= 255 then s else s[..255] }

  /** b is a with complete targets added behind. */
  ghost predicate Adds(a: seq<Target>, b: seq<Target>) {
    |a| <= |b| && b[..|a|] == a && forall i :: |a| <= i < |b| ==> b[i].Complete()
  }

  lemma {:induction false} AddsTrans(a: seq<Target>, b: seq<Target>, c: seq<Target>)
    requires Adds(a, b) && Adds(b, c)
    ensures Adds(a, c)
  {
    forall i | |a| <= i < |c| ensures c[i].Complete() {
      if i < |b| {
        assert c[..|b|][i] == b[i];
      }
    }
    assert c[..|b|][..|a|] == c[..|a|];
  }

  lemma {:induction false} AddsSelf(a: seq<Target>)
    ensures Adds(a, a)
  {
  }
}
