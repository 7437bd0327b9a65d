// File names as lists of components.
module Paths {
  import opened CStrings

  /** The non-empty pieces of p[i..] between slashes. */
  ghost function ComponentsFrom(p: string, i: nat): seq<string>
    requires i <= |p|
    decreases |p| - i
  {
    if i == |p| then []
    else
      var k := Cspn(p, i, |p|, {'/'});
      (if i < k then [p[i..k]] else []) + (if k < |p| then ComponentsFrom(p, k + 1) else [])
  }

  ghost function Components(p: string): seq<string> { ComponentsFrom(p, 0) }

  ghost predicate IsComponent(c: string) { c != "" && '/' !in c }

  ghost predicate AreComponents(cs: seq<string>) { forall k :: 0 <= k < |cs| ==> IsComponent(cs[k]) }

  /** Each component behind its slash. */
  function Render(cs: seq<string>): string {
    if cs == [] then "" else Render(cs[..|cs| - 1]) + ("/" + cs[|cs| - 1])
  }

  /** One component of a path: ".." leaves a directory, unless at the top; any other name enters it. */
  function Enter(stack: seq<string>, c: string): seq<string> {
    if c != ".." then stack + [c] else if stack == [] then [] else stack[..|stack| - 1]
  }

  function Resolve(stack: seq<string>, cs: seq<string>): seq<string>
    decreases |cs|
  {
    if cs == [] then stack else Resolve(Enter(stack, cs[0]), cs[1..])
  }

  /** What is left of a path once its ".." components are worked off. */
  ghost function Normal(p: string): seq<string> { Resolve([], Components(p)) }

  ghost predicate Plain(cs: seq<string>) {
    AreComponents(cs) && forall k :: 0 <= k < |cs| ==> cs[k] != ".."
  }

  lemma {:induction false} ComponentsFromAre(p: string, i: nat)
    requires i <= |p|
    ensures AreComponents(ComponentsFrom(p, i))
    decreases |p| - i
  {
    if i < |p| {
      var k := Cspn(p, i, |p|, {'/'});
      if k < |p| {
        ComponentsFromAre(p, k + 1);
      }
    }
  }

  lemma {:induction false} ResolvePlain(stack: seq<string>, cs: seq<string>)
    requires Plain(stack) && AreComponents(cs)
    ensures Plain(Resolve(stack, cs))
    decreases |cs|
  {
    if cs != [] {
      ResolvePlain(Enter(stack, cs[0]), cs[1..]);
    }
  }

  lemma {:induction false} NormalPlain(p: string)
    ensures Plain(Normal(p))
  {
    ComponentsFromAre(p, 0);
    ResolvePlain([], Components(p));
  }

  lemma {:induction false} ResolveOfPlain(stack: seq<string>, cs: seq<string>)
    requires Plain(cs)
    ensures Resolve(stack, cs) == stack + cs
    decreases |cs|
  {
    if cs != [] {
      ResolveOfPlain(stack + [cs[0]], cs[1..]);
      assert stack + [cs[0]] + cs[1..] == stack + cs;
    } else {
      assert stack + cs == stack;
    }
  }

  /** One step of the split, for an end k that is given. */
  lemma {:induction false} SplitAt(p: string, i: nat, k: nat)
    requires i <= k <= |p| && (forall x :: i <= x < k ==> p[x] != '/') && (k < |p| ==> p[k] == '/')
    ensures ComponentsFrom(p, i) == (if i < k then [p[i..k]] else []) + (if k < |p| then ComponentsFrom(p, k + 1) else [])
  {
    assert k == Cspn(p, i, |p|, {'/'});
  }

  /** A run of slashes separates like one. */
  lemma {:induction false} SkipSlashes(p: string, i: nat, n: nat)
    requires i <= n <= |p| && forall x :: i <= x < n ==> p[x] == '/'
    ensures ComponentsFrom(p, i) == ComponentsFrom(p, n)
    decreases n - i
  {
    hide ComponentsFrom;
    if i < n {
      SplitAt(p, i, i);
      SkipSlashes(p, i + 1, n);
    }
  }

  lemma {:induction false} ComponentsShift(p: string, q: string, j: nat)
    requires j <= |q|
    ensures ComponentsFrom(p + q, |p| + j) == ComponentsFrom(q, j)
    decreases |q| - j
  {
    hide ComponentsFrom;
    var s := p + q;
    var k := Cspn(q, j, |q|, {'/'});
    assert forall x :: j <= x < |q| ==> s[|p| + x] == q[x];
    SplitAt(q, j, k);
    SplitAt(s, |p| + j, |p| + k);
    assert s[|p| + j..|p| + k] == q[j..k];
    if k < |q| {
      ComponentsShift(p, q, k + 1);
    }
  }

  /** Text that starts with a slash adds its own components. */
  lemma {:induction false} ComponentsAppend(p: string, i: nat, q: string)
    requires i <= |p| && (q == "" || q[0] == '/')
    ensures ComponentsFrom(p + q, i) == ComponentsFrom(p, i) + Components(q)
    decreases |p| - i
  {
    hide ComponentsFrom;
    var s := p + q;
    var k := Cspn(p, i, |p|, {'/'});
    assert forall x :: 0 <= x < |p| ==> s[x] == p[x];
    assert q != "" ==> s[|p|] == q[0];
    SplitAt(p, i, k);
    SplitAt(s, i, k);
    assert s[i..k] == p[i..k];
    if k < |p| {
      ComponentsAppend(p, k + 1, q);
    } else if q != "" {
      SkipSlashes(q, 0, 1);
      ComponentsShift(p, q, 1);
    } else {
      SplitAt(q, 0, 0);
    }
  }

  lemma {:induction false} ComponentsOfRender(cs: seq<string>)
    requires AreComponents(cs)
    ensures Components(Render(cs)) == cs
    decreases |cs|
  {
    hide ComponentsFrom;
    SplitAt("", 0, 0);
    if cs != [] {
      var init, c := cs[..|cs| - 1], cs[|cs| - 1];
      ComponentsOfRender(init);
      ComponentsAppend(Render(init), 0, "/" + c);
      OneComponent(c);
      assert cs == init + [c];
    }
  }

  lemma {:induction false} OneComponent(c: string)
    requires '/' !in c
    ensures Components("/" + c) == if c == "" then [] else [c]
  {
    hide ComponentsFrom;
    var p := "/" + c;
    SkipSlashes(p, 0, 1);
    SplitAt(p, 1, |p|);
    assert p[1..|p|] == c;
  }

  /** The last name of a path, behind its last slash. */
  lemma {:induction false} LastComponent(a: string, c: string)
    requires '/' !in c
    ensures Components(a + ("/" + c)) == Components(a) + if c == "" then [] else [c]
  {
    hide ComponentsFrom;
    ComponentsAppend(a, 0, "/" + c);
    OneComponent(c);
  }

  lemma {:induction false} OnlyComponent(c: string)
    requires '/' !in c && c != ""
    ensures Components(c) == [c] && Components("") == []
  {
    hide ComponentsFrom;
    SplitAt(c, 0, |c|);
    SplitAt("", 0, 0);
    assert c[0..|c|] == c;
  }

  /** The components of a path, as a value. */
  method Split(p: string) returns (cs: seq<string>)
    ensures cs == Components(p)
  {
    hide ComponentsFrom;
    cs := [];
    var i := 0;
    while i < |p|
      invariant i <= |p| && cs + ComponentsFrom(p, i) == Components(p)
    {
      var k := StrCspn(p, i, |p|, {'/'});
      SplitAt(p, i, k);
      var more := if i < k then [p[i..k]] else [];
      ghost var rest := if k < |p| then ComponentsFrom(p, k + 1) else [];
      assert cs + (more + rest) == cs + more + rest;
      SplitAt(p, |p|, |p|);
      cs := cs + more;
      i := if k < |p| then k + 1 else k;
    }
    SplitAt(p, |p|, |p|);
  }

  // ---------------------------------------------------------------------------
  // Normal forms, step by step
  // ---------------------------------------------------------------------------

  lemma {:induction false} ResolveSnoc(stack: seq<string>, cs: seq<string>, c: string)
    ensures Resolve(stack, cs + [c]) == Enter(Resolve(stack, cs), c)
    decreases |cs|
  {
    hide Enter;
    if cs == [] {
      assert [] + [c] == [c] && [c][1..] == [];
      assert Resolve(Enter(stack, c), []) == Enter(stack, c);
    } else {
      assert (cs + [c])[0] == cs[0] && (cs + [c])[1..] == cs[1..] + [c];
      ResolveSnoc(Enter(stack, cs[0]), cs[1..], c);
    }
  }

  /** A name goes onto the end of the normal form, ".." takes one off, and slashes alone do nothing. */
  lemma {:induction false} NormalSteps(p: string, c: string)
    requires '/' !in c && c != "" && c != ".."
    ensures Normal("") == [] && Normal(c) == [c] && Normal("..") == []
    ensures Normal(p + ("/" + c)) == Normal(p) + [c]
    ensures Normal(p + ("/" + "..")) == if Normal(p) == [] then [] else Normal(p)[..|Normal(p)| - 1]
    ensures Normal(p + ("/" + "")) == Normal(p)
  {
    hide ComponentsFrom;
    OnlyComponent(c);
    OnlyComponent("..");
    ResolveSnoc([], [], c);
    ResolveSnoc([], [], "..");
    assert [] + [c] == [c] && [] + [".."] == [".."];
    LastComponent(p, c);
    LastComponent(p, "..");
    LastComponent(p, "");
    ResolveSnoc([], Components(p), c);
    ResolveSnoc([], Components(p), "..");
    assert Components(p) + [] == Components(p);
  }

  /** A slash in front makes no difference. */
  lemma {:induction false} NormalLeading(p: string)
    ensures Normal("/" + p) == Normal(p)
  {
    hide ComponentsFrom;
    SkipSlashes("/" + p, 0, 1);
    ComponentsShift("/", p, 0);
  }
}
