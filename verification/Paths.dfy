/** Path normalisation: `is_path`, `path_transform`, `file_dir` and the file names built on them. */
module Paths {
  import opened Search
  import opened Registry
  import opened Wrappers

  /** What `getenv("HOME")` and `getcwd` return; None stands for a null pointer. */
  datatype Env = Env(home: Option<string>, cwd: Option<string>)

  const SLASH := "/"

  // ---- What a path means ----

  /** The pieces that the scan from `lpos` on takes one by one; a final slash ends the last one. */
  function Components(s: string, lpos: nat): seq<string>
    decreases |s| - lpos
  {
    if lpos >= |s| then [] else
    var rpos := FindFrom(s, SLASH, lpos);
    if rpos == -1 then [s[lpos..]] else [s[lpos..rpos]] + Components(s, rpos + 1)
  }

  /** One component on a stack of directory names. */
  function Push(stack: seq<string>, c: string): seq<string> {
    if c == "" || c == "." then stack
    else if c == ".." then if stack == [] then [] else stack[..|stack| - 1]
    else stack + [c]
  }

  function Eval(stack: seq<string>, cs: seq<string>): seq<string>
    decreases |cs|
  {
    if cs == [] then stack else Eval(Push(stack, cs[0]), cs[1..])
  }

  function Chain(stack: seq<string>): string
    decreases |stack|
  {
    if stack == [] then "" else Chain(stack[..|stack| - 1]) + SLASH + stack[|stack| - 1]
  }

  /** The normalised text of a stack. */
  function Render(stack: seq<string>): string {
    if stack == [] then SLASH else Chain(stack)
  }

  predicate ProperName(c: string) {
    c != "" && c != "." && c != ".." && '/' !in c
  }

  predicate Proper(stack: seq<string>) {
    forall c :: c in stack ==> ProperName(c)
  }

  /** An absolute path with no empty, "." or ".." component and no final slash. */
  predicate Normal(path: string) {
    Proper(Components(path, 1)) && path == Render(Components(path, 1))
  }

  /** The kernel reports a normalised working directory, and HOME is absolute. */
  predicate Sane(env: Env) {
    && (env.cwd.Some? ==> Normal(env.cwd.value))
    && (env.home.Some? ==> env.home.value != "" && env.home.value[0] == '/')
  }

  predicate Tilde(path: string) {
    path != "" && path[0] == '~' && (|path| == 1 || path[1] == '/')
  }

  predicate DoubleSlash(path: string) {
    exists i :: 0 < i < |path| && path[i - 1] == path[i] == '/'
  }

  function DropSlash(s: string): string {
    if s != "" && s[|s| - 1] == '/' then s[..|s| - 1] else s
  }

  /** `is_path`: the path with its start made explicit, or "" if it is not a path. */
  function Completed(env: Env, path: string): string {
    if path == "" || path == SLASH then path
    else if DoubleSlash(path) || (Tilde(path) && env.home == None) then ""
    else if Tilde(path) then DropSlash(env.home.value + path[1..])
    else if path[0] == '/' then DropSlash(path)
    else DropSlash("./" + path)
  }

  /** The stack of the normalised path, if there is one. */
  function Resolve(env: Env, path: string): Option<seq<string>> {
    var ret := Completed(env, path);
    if ret == "" then None
    else if ret[0] == '/' then Some(Eval([], Components(ret, 1)))
    else if env.cwd == None then None
    else Some(Eval(Components(env.cwd.value, 1), Components(ret, 0)))
  }

  function Transformed(env: Env, path: string): string {
    var stack := Resolve(env, path);
    if stack.None? then "" else Render(stack.value)
  }

  // ---- Facts about components ----

  lemma SlashFrom(s: string, lpos: nat)
    ensures var r := FindFrom(s, SLASH, lpos);
            && (r == -1 ==> forall i :: lpos <= i < |s| ==> s[i] != '/')
            && (r != -1 ==> lpos <= r < |s| && s[r] == '/' && forall i :: lpos <= i < r ==> s[i] != '/')
  {
    FindIsFirst(s, SLASH, lpos);
    var r := FindFrom(s, SLASH, lpos);
    forall i | lpos <= i < |s| && s[i] == '/'
      ensures OccursAt(s, SLASH, i)
    {
    }
  }

  lemma SlashIs(s: string, lpos: nat, r: nat)
    requires lpos <= r < |s| && s[r] == '/' && forall i :: lpos <= i < r ==> s[i] != '/'
    ensures FindFrom(s, SLASH, lpos) == r
  {
    SlashFrom(s, lpos);
  }

  lemma ComponentsUpTo(s: string, lpos: nat, r: nat)
    requires lpos <= r < |s| && s[r] == '/' && forall i :: lpos <= i < r ==> s[i] != '/'
    ensures Components(s, lpos) == [s[lpos..r]] + Components(s, r + 1)
  {
    SlashIs(s, lpos, r);
  }

  lemma ComponentsToEnd(s: string, lpos: nat)
    requires lpos < |s| && forall i :: lpos <= i < |s| ==> s[i] != '/'
    ensures Components(s, lpos) == [s[lpos..]]
  {
    SlashFrom(s, lpos);
  }

  lemma LastComponent(front: string, c: string)
    requires c != "" && '/' !in c
    ensures Components(front + SLASH + c, |front| + 1) == [c]
  {
    var t := front + SLASH + c;
    forall i | |front| + 1 <= i < |t|
      ensures t[i] != '/'
    {
      assert t[i] == c[i - |front| - 1] && t[i] in c;
    }
    ComponentsToEnd(t, |front| + 1);
    assert t[|front| + 1..] == c;
  }

  /** The empty component before a slash that follows a slash, or that is scanned first. */
  function Gap(s: string, lpos: nat): seq<string> {
    if lpos == |s| || (s != "" && s[|s| - 1] == '/') then [""] else []
  }

  lemma SnocAtEnd(s: string, c: string, lpos: nat)
    requires c != "" && '/' !in c && lpos <= |s| && forall i :: lpos <= i < |s| ==> s[i] != '/'
    ensures Components(s + SLASH + c, lpos) == [s[lpos..]] + [c]
    ensures [s[lpos..]] == Components(s, lpos) + Gap(s, lpos)
  {
    var t := s + SLASH + c;
    assert t[lpos..|s|] == s[lpos..];
    ComponentsUpTo(t, lpos, |s|);
    LastComponent(s, c);
    if lpos < |s| {
      ComponentsToEnd(s, lpos);
    }
  }

  /** A longer text has the same first component, if that one ends in a slash. */
  lemma FirstOfLonger(s: string, t: string, lpos: nat, r: nat)
    requires s <= t && lpos <= r < |s| && s[r] == '/' && forall i :: lpos <= i < r ==> s[i] != '/'
    ensures Components(t, lpos) == [s[lpos..r]] + Components(t, r + 1)
  {
    assert t[lpos..r] == s[lpos..r];
    ComponentsUpTo(t, lpos, r);
  }

  lemma SnocUpTo(s: string, c: string, lpos: nat, r: nat)
    requires lpos <= r < |s| && s[r] == '/' && forall i :: lpos <= i < r ==> s[i] != '/'
    ensures Components(s + SLASH + c, lpos) == [s[lpos..r]] + Components(s + SLASH + c, r + 1)
    ensures Components(s, lpos) == [s[lpos..r]] + Components(s, r + 1)
  {
    FirstOfLonger(s, s + SLASH + c, lpos, r);
    FirstOfLonger(s, s, lpos, r);
  }

  lemma SameGap(s: string, lpos: nat, r: nat)
    requires lpos <= r < |s| && s[r] == '/'
    ensures Gap(s, lpos) == Gap(s, r + 1)
  {
  }

  /** Adding a name after a slash adds a component. */
  lemma {:induction false} ComponentsSnoc(s: string, c: string, lpos: nat)
    requires c != "" && '/' !in c && lpos <= |s|
    ensures Components(s + SLASH + c, lpos) == Components(s, lpos) + (Gap(s, lpos) + [c])
    decreases |s| - lpos
  {
    var r := NextSlash(s, lpos);
    if r == -1 {
      SnocAtEnd(s, c, lpos);
      JoinsToRight(Components(s, lpos), Gap(s, lpos), [c]);
    } else {
      ComponentsSnoc(s, c, r + 1);
      SnocStep(s, c, lpos, r);
    }
  }

  lemma NextSlash(s: string, lpos: nat) returns (r: int)
    ensures r == -1 ==> forall i :: lpos <= i < |s| ==> s[i] != '/'
    ensures r != -1 ==> lpos <= r < |s| && s[r] == '/' && forall i :: lpos <= i < r ==> s[i] != '/'
  {
    r := FindFrom(s, SLASH, lpos);
    SlashFrom(s, lpos);
  }

  lemma SnocStep(s: string, c: string, lpos: nat, r: nat)
    requires lpos <= r < |s| && s[r] == '/' && forall i :: lpos <= i < r ==> s[i] != '/'
    requires Components(s + SLASH + c, r + 1) == Components(s, r + 1) + (Gap(s, r + 1) + [c])
    ensures Components(s + SLASH + c, lpos) == Components(s, lpos) + (Gap(s, lpos) + [c])
  {
    SnocUpTo(s, c, lpos, r);
    SameGap(s, lpos, r);
    JoinsToRight([s[lpos..r]], Components(s, r + 1), Gap(s, r + 1) + [c]);
  }

  lemma {:induction false} EvalSnoc(stack: seq<string>, cs: seq<string>, c: string)
    ensures Eval(stack, cs + [c]) == Push(Eval(stack, cs), c)
    decreases |cs|
  {
    if cs != [] {
      assert (cs + [c])[1..] == cs[1..] + [c];
      EvalSnoc(Push(stack, cs[0]), cs[1..], c);
    }
  }

  lemma EvalCons(stack: seq<string>, c: string, cs: seq<string>)
    ensures Eval(stack, [c] + cs) == Eval(Push(stack, c), cs)
  {
    assert ([c] + cs)[1..] == cs;
  }

  lemma {:induction false} EvalProper(stack: seq<string>, cs: seq<string>)
    requires Proper(stack) && forall c :: c in cs ==> '/' !in c
    ensures Proper(Eval(stack, cs))
    decreases |cs|
  {
    if cs != [] {
      EvalProper(Push(stack, cs[0]), cs[1..]);
    }
  }

  lemma {:induction false} ComponentsHaveNoSlash(s: string, lpos: nat)
    ensures forall c :: c in Components(s, lpos) ==> '/' !in c
    decreases |s| - lpos
  {
    if lpos < |s| {
      SlashFrom(s, lpos);
      var r := FindFrom(s, SLASH, lpos);
      if r != -1 {
        ComponentsHaveNoSlash(s, r + 1);
      }
    }
  }

  lemma {:induction false} EvalOfProper(stack: seq<string>, cs: seq<string>)
    requires Proper(cs)
    ensures Eval(stack, cs) == stack + cs
    decreases |cs|
  {
    if cs == [] {
      assert stack + cs == stack;
    } else {
      assert ProperName(cs[0]);
      EvalOfProper(stack + [cs[0]], cs[1..]);
      assert stack + [cs[0]] + cs[1..] == stack + cs;
    }
  }

  /** A chain starts with a slash, ends in the last name, and has no two slashes together. */
  lemma {:induction false} ChainShape(stack: seq<string>)
    requires Proper(stack) && stack != []
    ensures var s := Chain(stack); |s| > 1 && s[0] == '/' && s[|s| - 1] != '/' && !DoubleSlash(s)
    decreases |stack|
  {
    var n := |stack| - 1;
    var c, front, s := stack[n], Chain(stack[..n]), Chain(stack);
    assert ProperName(c) && s == front + SLASH + c;
    if n > 0 {
      ChainShape(stack[..n]);
    }
    forall i | |front| < i < |s|
      ensures s[i] != '/'
    {
      assert s[i] == c[i - |front| - 1] && s[i] in c;
    }
    forall i | 0 < i < |s|
      ensures !(s[i - 1] == s[i] == '/')
    {
      if i < |front| {
        assert s[i - 1] == front[i - 1] && s[i] == front[i];
      }
    }
  }

  lemma ChainOfOne(c: string)
    requires ProperName(c)
    ensures Components(Chain([c]), 1) == [c]
  {
    LastComponent("", c);
    assert [c][..0] == [] && Chain([c]) == "" + SLASH + c;
  }

  lemma ChainSnoc(stack: seq<string>, c: string)
    requires Proper(stack) && stack != [] && ProperName(c) && Components(Chain(stack), 1) == stack
    ensures Components(Chain(stack + [c]), 1) == stack + [c]
  {
    ChainShape(stack);
    ComponentsSnoc(Chain(stack), c, 1);
    assert (stack + [c])[..|stack|] == stack;
  }

  /** A chain scans back to the stack. */
  lemma {:induction false} ChainComponents(stack: seq<string>)
    requires Proper(stack) && stack != []
    ensures Components(Chain(stack), 1) == stack
    decreases |stack|
  {
    var n := |stack| - 1;
    var c := stack[n];
    assert ProperName(c) && stack == stack[..n] + [c];
    if n > 0 {
      ChainComponents(stack[..n]);
      ChainSnoc(stack[..n], c);
    } else {
      assert stack == [c];
      ChainOfOne(c);
    }
  }

  lemma RenderIsNormal(stack: seq<string>)
    requires Proper(stack)
    ensures Normal(Render(stack)) && Components(Render(stack), 1) == stack && !DoubleSlash(Render(stack))
    ensures Render(stack)[0] == '/'
  {
    if stack != [] {
      ChainShape(stack);
      ChainComponents(stack);
    }
  }

  /** `path_transform` leaves a normalised path as it is, and strips a final slash. */
  lemma TransformedNormal(env: Env, stack: seq<string>)
    requires Proper(stack)
    ensures Resolve(env, Render(stack)) == Some(stack)
    ensures stack != [] ==> Resolve(env, Render(stack) + SLASH) == Some(stack)
  {
    RenderIsNormal(stack);
    EvalFromRoot(stack);
    if stack != [] {
      ChainShape(stack);
      CompletedSlashed(env, Chain(stack));
    }
  }

  lemma EvalFromRoot(stack: seq<string>)
    requires Proper(stack)
    ensures Eval([], stack) == stack
  {
    EvalOfProper([], stack);
    assert [] + stack == stack;
  }

  lemma CompletedSlashed(env: Env, s: string)
    requires |s| > 1 && s[0] == '/' && s[|s| - 1] != '/' && !DoubleSlash(s)
    ensures Completed(env, s + SLASH) == s && Completed(env, s) == s
  {
    var t := s + SLASH;
    assert t[..|s|] == s;
    forall i | 0 < i < |t|
      ensures !(t[i - 1] == t[i] == '/')
    {
      assert t[i - 1] == s[i - 1];
      assert i < |s| ==> t[i] == s[i];
    }
  }

  // ---- The theorems ----

  lemma ResolveIsProper(env: Env, path: string)
    requires Sane(env)
    ensures Resolve(env, path).Some? ==> Proper(Resolve(env, path).value)
  {
    var ret := Completed(env, path);
    if ret != "" && ret[0] == '/' {
      ComponentsHaveNoSlash(ret, 1);
      EvalProper([], Components(ret, 1));
    } else if ret != "" && env.cwd.Some? {
      ComponentsHaveNoSlash(ret, 0);
      EvalProper(Components(env.cwd.value, 1), Components(ret, 0));
    }
  }

  /** Every result is "" or an absolute path with no "//", "." or ".." in it. */
  lemma ResultIsNormal(env: Env, path: string)
    requires Sane(env)
    ensures var r := Transformed(env, path); r != "" ==> r[0] == '/' && Normal(r) && !DoubleSlash(r)
  {
    ResolveIsProper(env, path);
    if Resolve(env, path).Some? {
      RenderIsNormal(Resolve(env, path).value);
    }
  }

  /** Normalising twice is normalising once. */
  lemma Idempotent(env: Env, path: string)
    requires Sane(env)
    ensures Transformed(env, Transformed(env, path)) == Transformed(env, path)
  {
    ResolveIsProper(env, path);
    if Resolve(env, path).Some? {
      TransformedNormal(env, Resolve(env, path).value);
    }
  }

  // ---- Files of a directory ----

  /** The text after the last slash but a final one. */
  function LastName(ret: string): string {
    if ret == "" || ret == SLASH then "" else DropSlash(ret)[LastOf(DropSlash(ret), '/') + 1..]
  }

  /** `GetFileName` of an object made from `path`. */
  function FileName(env: Env, path: string): string {
    LastName(Transformed(env, path))
  }

  /** Adding a component to a directory's path pushes it on the directory's stack. */
  lemma ComponentAdded(env: Env, dir: string, c: string)
    requires Sane(env) && c != "" && '/' !in c && dir != "" && dir[|dir| - 1] == '/'
    requires Resolve(env, dir).Some?
    ensures Resolve(env, dir + c) == Some(Push(Resolve(env, dir).value, c))
  {
    CompletedWithName(env, dir, c);
    var ret := Completed(env, dir);
    if dir == SLASH {
      LastComponent("", c);
      assert "" + SLASH + c == SLASH + c;
      EvalSnoc([], [], c);
      assert [] + [c] == [c] && Components(SLASH, 1) == [];
    } else if ret[0] == '/' {
      EvalWithName([], ret, 1, c);
    } else {
      EvalWithName(Components(env.cwd.value, 1), ret, 0, c);
    }
  }

  lemma NameOnStack(stack: seq<string>, name: string)
    requires Proper(stack) && name != "" && '/' !in name
    ensures !NamesDirectory(name) <==> Push(stack, name) == stack + [name]
    ensures !NamesDirectory(name) <==> LastName(Render(Push(stack, name))) == name
  {
    if NamesDirectory(name) {
      ShorterName(Push(stack, name), name);
      assert |Push(stack, name)| <= |stack|;
    } else {
      NameAtEnd(stack, name);
    }
  }

  /** A file of a directory: its normalised path is the directory's with the name added, so that
      distinct names are distinct files and the name can be read back, if and only if the name is
      neither "." nor "..". */
  lemma KeyRoundTrip(env: Env, dir: string, name: string)
    requires Sane(env) && name != "" && '/' !in name && dir != "" && dir[|dir| - 1] == '/'
    requires Resolve(env, dir).Some?
    ensures var stack := Resolve(env, dir).value;
            && (!NamesDirectory(name) <==> Resolve(env, dir + name) == Some(stack + [name]))
            && (!NamesDirectory(name) <==> FileName(env, dir + name) == name)
  {
    ComponentAdded(env, dir, name);
    ResolveIsProper(env, dir);
    NameOnStack(Resolve(env, dir).value, name);
  }

  /** The last name of a stack is not one of the two special ones. */
  lemma ShorterName(stack: seq<string>, name: string)
    requires Proper(stack) && NamesDirectory(name)
    ensures var s := Render(stack); s == SLASH || (s != "" && DropSlash(s)[LastOf(DropSlash(s), '/') + 1..] != name)
  {
    if stack != [] {
      var n := |stack| - 1;
      assert stack[..n] + [stack[n]] == stack && ProperName(stack[n]);
      NameAtEnd(stack[..n], stack[n]);
    }
  }

  lemma EvalWithName(base: seq<string>, ret: string, lpos: nat, name: string)
    requires name != "" && '/' !in name && lpos <= |ret|
    ensures Eval(base, Components(ret + SLASH + name, lpos)) == Push(Eval(base, Components(ret, lpos)), name)
  {
    var cs := Components(ret, lpos);
    ComponentsSnoc(ret, name, lpos);
    EvalSnoc(base, cs, name);
    EvalSnoc(base, cs, "");
    EvalSnoc(base, cs + [""], name);
    assert cs + ([] + [name]) == cs + [name] && cs + ([""] + [name]) == cs + [""] + [name];
  }

  lemma NoNewDoubleSlash(dir: string, name: string)
    requires '/' !in name
    ensures DoubleSlash(dir + name) <==> DoubleSlash(dir)
  {
    var path := dir + name;
    forall i | 0 < i < |path|
      ensures path[i - 1] == path[i] == '/' <==> i < |dir| && dir[i - 1] == dir[i] == '/'
    {
      if i >= |dir| {
        assert path[i] == name[i - |dir|] && name[i - |dir|] in name;
      }
    }
  }

  lemma NameAfterSlash(dir: string, name: string)
    requires dir != "" && dir[|dir| - 1] == '/' && name != "" && '/' !in name
    ensures DropSlash(dir + name) == DropSlash(dir) + SLASH + name
  {
    assert dir == DropSlash(dir) + SLASH;
    assert name[|name| - 1] in name;
  }

  lemma HomeWithName(home: string, dir: string, name: string)
    requires |dir| > 1 && dir[|dir| - 1] == '/' && name != "" && '/' !in name
    ensures DropSlash(home + (dir + name)[1..]) == DropSlash(home + dir[1..]) + SLASH + name
  {
    JoinCut(dir, name, 1);
    JoinsToRight(home, dir[1..], name);
    NameAfterSlash(home + dir[1..], name);
  }

  lemma RelativeWithName(dir: string, name: string)
    requires dir != "" && dir[|dir| - 1] == '/' && name != "" && '/' !in name
    ensures DropSlash("./" + (dir + name)) == DropSlash("./" + dir) + SLASH + name
  {
    JoinsToRight("./", dir, name);
    NameAfterSlash("./" + dir, name);
  }

  /** With a name after it, a directory's path is completed in the same way. */
  lemma SameStart(dir: string, name: string)
    requires name != "" && dir != "" && dir[|dir| - 1] == '/'
    ensures dir + name != "" && dir + name != SLASH && (dir + name)[0] == dir[0]
    ensures Tilde(dir + name) <==> Tilde(dir)
  {
  }

  lemma CompletedWithName(env: Env, dir: string, name: string)
    requires Sane(env) && name != "" && '/' !in name && dir != "" && dir[|dir| - 1] == '/'
    requires Completed(env, dir) != ""
    ensures Completed(env, dir + name) == if dir == SLASH then SLASH + name else Completed(env, dir) + SLASH + name
  {
    NoNewDoubleSlash(dir, name);
    SameStart(dir, name);
    if dir == SLASH {
      NameAfterSlash(dir, name);
    } else if Tilde(dir) {
      HomeWithName(env.home.value, dir, name);
    } else if dir[0] == '/' {
      NameAfterSlash(dir, name);
    } else {
      RelativeWithName(dir, name);
    }
  }

  lemma NameAtEnd(stack: seq<string>, name: string)
    requires Proper(stack) && ProperName(name)
    ensures var s := Render(stack + [name]); s != SLASH && DropSlash(s) == s && s[LastOf(s, '/') + 1..] == name
  {
    var all := stack + [name];
    assert all[..|stack|] == stack;
    ChainComponents(all);
    var s := Chain(all);
    var front := Chain(stack);
    assert s == front + SLASH + name;
    assert s[|front|] == '/';
    forall i | |front| < i < |s|
      ensures s[i] != '/'
    {
      assert s[i] == name[i - |front| - 1] && s[i] in name;
    }
    LastOfIs(s, '/', |front|);
  }

  // ---- Texts that stand for a stack ----

  /** The directory of a normalised path, with its final slash. */
  function Parent(path: string): string {
    if path == "" then "" else path[..LastOf(path, '/') + 1]
  }

  /** How the text built so far may stand for a stack: with or without a final slash. */
  predicate Denotes(text: string, stack: seq<string>) {
    text == Render(stack) || (stack != [] && text == Render(stack) + SLASH)
  }

  function Depth(env: Env, path: string): nat {
    var ret := Completed(env, path);
    if ret == "" then 0
    else if ".." in Components(ret, if ret[0] == '/' then 1 else 0) then 1 else 0
  }

  lemma DenotedIsNormal(env: Env, text: string, stack: seq<string>)
    requires Proper(stack) && Denotes(text, stack)
    ensures Transformed(env, text) == Render(stack) && Depth(env, text) == 0
  {
    TransformedNormal(env, stack);
    RenderIsNormal(stack);
    if stack != [] {
      ChainShape(stack);
      CompletedSlashed(env, Chain(stack));
    }
    assert forall c :: c in stack ==> ProperName(c);
  }

  lemma ParentDenotes(stack: seq<string>)
    requires Proper(stack)
    ensures Denotes(Parent(Render(stack)), Push(stack, ".."))
  {
    if stack != [] {
      var n := |stack| - 1;
      var front, c, s := Chain(stack[..n]), stack[n], Chain(stack);
      assert ProperName(c) && s == front + SLASH + c;
      forall i | |front| < i < |s|
        ensures s[i] != '/'
      {
        assert s[i] == c[i - |front| - 1] && s[i] in c;
      }
      LastOfIs(s, '/', |front|);
      assert s[..|front| + 1] == front + SLASH;
    } else {
      LastOfIs(SLASH, '/', 0);
    }
  }

  /** The text with a final slash, to which a component can be added. */
  function Slashed(text: string): string
    requires text != ""
  {
    if text[|text| - 1] != '/' then text + SLASH else text
  }

  // ---- Where a path starts, and how paths join ----

  /** What a text means from a directory on. */
  function Walk(stack: seq<string>, s: string): seq<string> {
    Eval(stack, Components(s, 0))
  }

  lemma SliceOfDrop(s: string, k: nat, a: nat, b: nat)
    requires k <= a <= b <= |s|
    ensures s[k..][a - k..b - k] == s[a..b] && s[k..][a - k..] == s[a..]
  {
  }

  lemma NextInDrop(s: string, k: nat, lpos: nat, r: nat)
    requires k <= lpos <= r < |s| && s[r] == '/' && forall i :: lpos <= i < r ==> s[i] != '/'
    ensures s[k..][r - k] == '/' && forall i :: lpos - k <= i < r - k ==> s[k..][i] != '/'
  {
  }

  lemma UpToInDrop(s: string, k: nat, lpos: nat, r: nat)
    requires k <= lpos <= r < |s| && s[r] == '/' && forall i :: lpos <= i < r ==> s[i] != '/'
    ensures Components(s[k..], lpos - k) == [s[lpos..r]] + Components(s[k..], r - k + 1)
  {
    NextInDrop(s, k, lpos, r);
    ComponentsUpTo(s[k..], lpos - k, r - k);
    SliceOfDrop(s, k, lpos, r);
  }

  lemma FirstFrom(s: string, k: nat, lpos: nat, r: nat)
    requires k <= lpos <= r < |s| && s[r] == '/' && forall i :: lpos <= i < r ==> s[i] != '/'
    requires Components(s, r + 1) == Components(s[k..], r - k + 1)
    ensures Components(s, lpos) == Components(s[k..], lpos - k)
  {
    ComponentsUpTo(s, lpos, r);
    UpToInDrop(s, k, lpos, r);
  }

  lemma LastFrom(s: string, k: nat, lpos: nat)
    requires k <= lpos < |s| && forall i :: lpos <= i < |s| ==> s[i] != '/'
    ensures Components(s, lpos) == Components(s[k..], lpos - k)
  {
    ComponentsToEnd(s, lpos);
    ComponentsToEnd(s[k..], lpos - k);
    SliceOfDrop(s, k, lpos, |s|);
  }

  /** What comes before the start of a scan does not matter. */
  lemma {:induction false} ComponentsFrom(s: string, k: nat, lpos: nat)
    requires k <= lpos && k <= |s|
    ensures Components(s, lpos) == Components(s[k..], lpos - k)
    decreases |s| - lpos
  {
    if lpos < |s| {
      var r := NextSlash(s, lpos);
      if r == -1 {
        LastFrom(s, k, lpos);
      } else {
        ComponentsFrom(s, k, r + 1);
        FirstFrom(s, k, lpos, r);
      }
    }
  }

  lemma {:induction false} EvalJoin(stack: seq<string>, a: seq<string>, b: seq<string>)
    ensures Eval(stack, a + b) == Eval(Eval(stack, a), b)
    decreases |a|
  {
    if a == [] {
      assert a + b == b;
    } else {
      assert (a + b)[1..] == a[1..] + b;
      EvalJoin(Push(stack, a[0]), a[1..], b);
    }
  }

  lemma JoinAtEnd(a: string, b: string, lpos: nat)
    requires lpos <= |a| && forall i :: lpos <= i < |a| ==> a[i] != '/'
    ensures Components(a + SLASH + b, lpos) == [a[lpos..]] + Components(b, 0)
  {
    var t := a + SLASH + b;
    ComponentsUpTo(t, lpos, |a|);
    ComponentsFrom(t, |a| + 1, |a| + 1);
    JoinPieces(a, b, lpos);
  }

  lemma JoinPieces(a: string, b: string, lpos: nat)
    requires lpos <= |a|
    ensures var t := a + SLASH + b; t[lpos..|a|] == a[lpos..] && t[|a| + 1..] == b
  {
  }

  lemma SlashAtEnd(a: string, lpos: nat)
    requires lpos <= |a| && forall i :: lpos <= i < |a| ==> a[i] != '/'
    ensures Components(a + SLASH, lpos) == [a[lpos..]]
  {
    var u := a + SLASH;
    ComponentsUpTo(u, lpos, |a|);
    assert u[lpos..|a|] == a[lpos..] && Components(u, |a| + 1) == [];
  }

  lemma NoMoreToJoin(a: string, b: string, lpos: nat)
    requires lpos <= |a| && forall i :: lpos <= i < |a| ==> a[i] != '/'
    ensures Components(a + SLASH + b, lpos) == Components(a + SLASH, lpos) + Components(b, 0)
  {
    JoinAtEnd(a, b, lpos);
    SlashAtEnd(a, lpos);
  }

  lemma JoinFurtherOn(a: string, b: string, lpos: nat, r: nat)
    requires lpos <= r < |a| && a[r] == '/' && forall i :: lpos <= i < r ==> a[i] != '/'
    requires Components(a + SLASH + b, r + 1) == Components(a + SLASH, r + 1) + Components(b, 0)
    ensures Components(a + SLASH + b, lpos) == Components(a + SLASH, lpos) + Components(b, 0)
  {
    FirstOfLonger(a, a + SLASH + b, lpos, r);
    FirstOfLonger(a, a + SLASH, lpos, r);
    JoinsToRight([a[lpos..r]], Components(a + SLASH, r + 1), Components(b, 0));
  }

  /** A slash separates two texts into the components of both. */
  lemma {:induction false} ComponentsJoin(a: string, b: string, lpos: nat)
    requires lpos <= |a|
    ensures Components(a + SLASH + b, lpos) == Components(a + SLASH, lpos) + Components(b, 0)
    decreases |a| - lpos
  {
    var r := NextSlash(a, lpos);
    if r == -1 {
      NoMoreToJoin(a, b, lpos);
    } else {
      ComponentsJoin(a, b, r + 1);
      JoinFurtherOn(a, b, lpos, r);
    }
  }

  /** A final slash adds nothing. */
  lemma {:induction false} SlashAddsNothing(stack: seq<string>, a: string, lpos: nat)
    requires lpos <= |a|
    ensures Eval(stack, Components(a + SLASH, lpos)) == Eval(stack, Components(a, lpos))
    decreases |a| - lpos
  {
    var r := NextSlash(a, lpos);
    if r == -1 {
      SlashAtEnd(a, lpos);
      if lpos < |a| {
        ComponentsToEnd(a, lpos);
      } else {
        assert a[lpos..] == "" && [""] + [] == [""];
        EvalCons(stack, "", []);
      }
    } else {
      FirstOfLonger(a, a + SLASH, lpos, r);
      FirstOfLonger(a, a, lpos, r);
      SlashAddsNothing(Push(stack, a[lpos..r]), a, r + 1);
      EvalCons(stack, a[lpos..r], Components(a + SLASH, r + 1));
      EvalCons(stack, a[lpos..r], Components(a, r + 1));
    }
  }

  /** Walking along two texts with a slash between them is walking along one and then along the other. */
  lemma WalkJoin(stack: seq<string>, a: string, b: string)
    ensures Walk(stack, a + SLASH + b) == Walk(Walk(stack, a), b)
  {
    ComponentsJoin(a, b, 0);
    EvalJoin(stack, Components(a + SLASH, 0), Components(b, 0));
    SlashAddsNothing(stack, a, 0);
  }

  lemma WalkDropSlash(stack: seq<string>, s: string)
    ensures Walk(stack, DropSlash(s)) == Walk(stack, s)
  {
    if DropSlash(s) != s {
      assert s == DropSlash(s) + SLASH;
      SlashAddsNothing(stack, DropSlash(s), 0);
    }
  }

  /** A first slash adds nothing either. */
  lemma WalkFromSlash(stack: seq<string>, s: string)
    requires s != "" && s[0] == '/'
    ensures Eval(stack, Components(s, 1)) == Walk(stack, s)
  {
    ComponentsFrom(s, 1, 1);
    assert s == "" + SLASH + s[1..];
    WalkJoin(stack, "", s[1..]);
    assert Walk(stack, "") == stack;
  }

  /** A path that starts neither at the root nor at the home directory. */
  predicate Relative(path: string) {
    path != "" && path[0] != '/' && !Tilde(path)
  }

  /** Whether `path_transform` refuses a path: it is empty or has two slashes together, or it needs a
      directory that is not there. (The home directory "/" leaves nothing of "~".) */
  predicate Refused(env: Env, path: string) {
    || path == "" || DoubleSlash(path)
    || (Tilde(path) && (env.home.None? || (path == "~" && env.home.value == SLASH)))
    || (Relative(path) && env.cwd.None?)
  }

  /** The stack of the directory that a path starts from. */
  function Origin(env: Env, path: string): seq<string> {
    if Tilde(path) && env.home.Some? then Walk([], env.home.value)
    else if Relative(path) && env.cwd.Some? then Walk([], env.cwd.value)
    else []
  }

  /** The path from there on. */
  function Onward(path: string): string {
    if Tilde(path) then path[1..] else path
  }

  lemma NormalWalks(path: string)
    requires Normal(path)
    ensures Walk([], path) == Components(path, 1)
  {
    EvalFromRoot(Components(path, 1));
    RenderIsNormal(Components(path, 1));
    WalkFromSlash([], path);
  }

  lemma WalkHere(stack: seq<string>)
    ensures Walk(stack, ".") == stack && Walk(stack, "") == stack
  {
    ComponentsToEnd(".", 0);
    assert "."[0..] == "." && ["."] + [] == ["."];
    EvalCons(stack, ".", []);
  }

  lemma RelativeResolves(env: Env, path: string)
    requires Sane(env) && Relative(path) && !DoubleSlash(path)
    ensures Resolve(env, path) == if env.cwd.None? then None else Some(Walk(Walk([], env.cwd.value), path))
  {
    var full := "./" + path;
    assert full == "." + SLASH + path && DropSlash(full)[0] == '.';
    if env.cwd.Some? {
      var cwd := Components(env.cwd.value, 1);
      NormalWalks(env.cwd.value);
      WalkDropSlash(cwd, full);
      WalkJoin(cwd, ".", path);
      WalkHere(cwd);
    }
  }

  lemma AbsoluteResolves(env: Env, path: string)
    requires path != "" && path[0] == '/' && !DoubleSlash(path)
    ensures Resolve(env, path) == Some(Walk([], path))
  {
    WalkFromSlash([], path);
    if path != SLASH {
      WalkFromSlash([], DropSlash(path));
      WalkDropSlash([], path);
    }
  }

  lemma FromHome(home: string, rest: string)
    ensures Walk([], home + (SLASH + rest)) == Walk(Walk([], home), SLASH + rest)
  {
    var stack := Walk([], home);
    JoinsToRight(home, SLASH, rest);
    WalkJoin([], home, rest);
    assert SLASH + rest == "" + SLASH + rest;
    WalkJoin(stack, "", rest);
    WalkHere(stack);
  }

  lemma HomeResolves(env: Env, path: string)
    requires Sane(env) && Tilde(path) && !DoubleSlash(path) && !Refused(env, path)
    ensures Resolve(env, path) == Some(Walk(Walk([], env.home.value), path[1..]))
  {
    var home := env.home.value;
    var full := home + path[1..];
    WalkDropSlash([], full);
    WalkFromSlash([], DropSlash(full));
    if path == "~" {
      assert full == home;
      WalkHere(Walk([], home));
    } else {
      assert path[1..] == SLASH + path[2..];
      FromHome(home, path[2..]);
    }
  }

  /** Which paths are refused, and where the others start: a relative path in the working directory, "~" in
      the home directory, and an absolute path at the root. */
  lemma StartsAt(env: Env, path: string)
    requires Sane(env)
    ensures Resolve(env, path)
         == if Refused(env, path) then None else Some(Walk(Origin(env, path), Onward(path)))
  {
    if path == "" || DoubleSlash(path) {
      assert path != SLASH;
    } else if Relative(path) {
      RelativeResolves(env, path);
    } else if Tilde(path) {
      if !Refused(env, path) {
        HomeResolves(env, path);
      }
    } else {
      AbsoluteResolves(env, path);
    }
  }

  /** A path put after a directory's. */
  function Join(dir: string, path: string): string
    requires dir != ""
  {
    Slashed(dir) + path
  }

  lemma JoinHasBoth(dir: string, path: string)
    requires dir != ""
    ensures DoubleSlash(dir) || DoubleSlash(path) ==> DoubleSlash(Join(dir, path))
  {
    var all, n := Join(dir, path), |Slashed(dir)|;
    if DoubleSlash(dir) {
      var i :| 0 < i < |dir| && dir[i - 1] == dir[i] == '/';
      assert all[i - 1] == all[i] == '/';
    } else if DoubleSlash(path) {
      var i :| 0 < i < |path| && path[i - 1] == path[i] == '/';
      assert all[n + i - 1] == path[i - 1] && all[n + i] == path[i];
    }
  }

  lemma JoinHasNoMore(dir: string, path: string)
    requires dir != "" && path != "" && path[0] != '/'
    ensures DoubleSlash(Join(dir, path)) ==> DoubleSlash(dir) || DoubleSlash(path)
  {
    var all, n := Join(dir, path), |Slashed(dir)|;
    if DoubleSlash(all) {
      var i :| 0 < i < |all| && all[i - 1] == all[i] == '/';
      if i > n {
        assert path[i - n - 1] == all[i - 1] && path[i - n] == all[i];
      } else if i < |dir| {
        assert dir[i - 1] == all[i - 1] && dir[i] == all[i];
      }
    }
  }

  lemma JoinStarts(env: Env, dir: string, path: string)
    requires !Refused(env, dir) && path != "" && path[0] != '/'
    ensures Tilde(Join(dir, path)) <==> Tilde(dir)
    ensures Relative(Join(dir, path)) <==> Relative(dir)
    ensures Origin(env, Join(dir, path)) == Origin(env, dir)
    ensures Refused(env, Join(dir, path)) <==> DoubleSlash(path)
  {
    JoinHasBoth(dir, path);
    JoinHasNoMore(dir, path);
  }

  lemma OnwardJoins(dir: string, path: string)
    requires dir != "" && (Tilde(Join(dir, path)) <==> Tilde(dir))
    ensures var on := Onward(dir);
            Onward(Join(dir, path)) == (if dir[|dir| - 1] == '/' then DropSlash(on) else on) + SLASH + path
  {
    if dir[|dir| - 1] == '/' {
      assert Onward(dir) == DropSlash(Onward(dir)) + SLASH;
      JoinCut(dir, path, 1);
    } else {
      JoinsToRight(dir, SLASH, path);
      JoinCut(dir, SLASH + path, 1);
      JoinsToRight(Onward(dir), SLASH, path);
    }
  }

  lemma JoinWalks(stack: seq<string>, dir: string, path: string)
    requires dir != "" && (Tilde(Join(dir, path)) <==> Tilde(dir))
    ensures Walk(stack, Onward(Join(dir, path))) == Walk(Walk(stack, Onward(dir)), path)
  {
    var on := Onward(dir);
    OnwardJoins(dir, path);
    WalkDropSlash(stack, on);
    WalkJoin(stack, DropSlash(on), path);
    WalkJoin(stack, on, path);
  }

  /** A path that is put after a directory's goes on from that directory. */
  lemma JoinResolves(env: Env, dir: string, path: string)
    requires Sane(env) && !Refused(env, dir) && path != "" && path[0] != '/'
    ensures Resolve(env, dir).Some?
    ensures Resolve(env, Join(dir, path))
         == if DoubleSlash(path) then None else Some(Walk(Resolve(env, dir).value, path))
  {
    StartsAt(env, dir);
    StartsAt(env, Join(dir, path));
    JoinStarts(env, dir, path);
    JoinWalks(Origin(env, dir), dir, path);
  }

  /** A normalised path stands for its directory wherever a path is put after it: paths can be resolved
      in two goes. */
  lemma TwoGoes(env: Env, dir: string, path: string)
    requires Sane(env) && !Refused(env, dir) && path != "" && path[0] != '/'
    ensures Transformed(env, dir) != ""
    ensures Transformed(env, Join(dir, path)) == Transformed(env, Join(Transformed(env, dir), path))
  {
    JoinResolves(env, dir, path);
    ResolveIsProper(env, dir);
    var stack := Resolve(env, dir).value;
    RenderIsNormal(stack);
    TransformedNormal(env, stack);
    JoinResolves(env, Render(stack), path);
  }

  /** A relative path starts in the working directory, and is refused if there is none. */
  lemma RelativeIsUnderCwd(env: Env, path: string)
    requires Sane(env) && Relative(path)
    ensures env.cwd.Some? ==>
              env.cwd.value != "" && Transformed(env, path) == Transformed(env, Join(env.cwd.value, path))
    ensures env.cwd.None? ==> Transformed(env, path) == ""
  {
    StartsAt(env, path);
    if env.cwd.Some? {
      var cwd := env.cwd.value;
      RenderIsNormal(Components(cwd, 1));
      NormalWalks(cwd);
      TransformedNormal(env, Components(cwd, 1));
      JoinResolves(env, cwd, path);
    }
  }

  lemma SlashRepeats(dir: string)
    requires dir != ""
    ensures dir[|dir| - 1] == '/' || DoubleSlash(dir) ==> DoubleSlash(dir + SLASH)
  {
    var s := dir + SLASH;
    if dir[|dir| - 1] == '/' {
      assert s[|dir| - 1] == s[|dir|] == '/';
    } else if DoubleSlash(dir) {
      var i :| 0 < i < |dir| && dir[i - 1] == dir[i] == '/';
      assert s[i - 1] == s[i] == '/';
    }
  }

  lemma HomeAlone(env: Env)
    requires Sane(env) && env.home.Some? && env.home.value != SLASH && !DoubleSlash(env.home.value)
    ensures !Refused(env, "~") && !Refused(env, env.home.value)
    ensures Resolve(env, "~") == Resolve(env, env.home.value)
  {
    var home := env.home.value;
    StartsAt(env, "~");
    StartsAt(env, home);
    WalkHere(Walk([], home));
  }

  /** "~" is the home directory: a path behind it starts there. */
  lemma TildeIsHome(env: Env, path: string)
    requires Sane(env) && env.home.Some? && path != "" && path[0] != '/' && !DoubleSlash(env.home.value + SLASH)
    ensures Transformed(env, "~") == Transformed(env, env.home.value)
    ensures Transformed(env, "~/" + path) == Transformed(env, env.home.value + SLASH + path)
  {
    var home := env.home.value;
    SlashRepeats(home);
    HomeAlone(env);
    assert Join("~", path) == "~/" + path && Join(home, path) == home + SLASH + path;
    JoinResolves(env, "~", path);
    JoinResolves(env, home, path);
  }

  // ---- What the two special names mean ----

  /** "." is the directory itself. */
  lemma HereIsSame(env: Env, dir: string)
    requires Sane(env) && !Refused(env, dir)
    ensures Transformed(env, Join(dir, ".")) == Transformed(env, dir)
  {
    JoinResolves(env, dir, ".");
    WalkHere(Resolve(env, dir).value);
  }

  lemma WalkName(stack: seq<string>, name: string)
    requires name != "" && '/' !in name
    ensures Walk(stack, name) == Push(stack, name)
  {
    ComponentsToEnd(name, 0);
    assert name[0..] == name && [name] + [] == [name];
    EvalCons(stack, name, []);
  }

  /** ".." is the directory that the directory's normalised path shows before its last slash, or the root. */
  lemma UpIsParent(env: Env, dir: string)
    requires Sane(env) && !Refused(env, dir)
    ensures Transformed(env, Join(dir, "..")) == Transformed(env, Parent(Transformed(env, dir)))
  {
    JoinResolves(env, dir, "..");
    ResolveIsProper(env, dir);
    var stack := Resolve(env, dir).value;
    WalkName(stack, "..");
    ParentDenotes(stack);
    DenotedIsNormal(env, Parent(Render(stack)), Push(stack, ".."));
  }

  /** ".." after a name undoes it. */
  lemma UpUndoes(env: Env, dir: string, name: string)
    requires Sane(env) && !Refused(env, dir) && ProperName(name)
    ensures Transformed(env, Join(Join(dir, name), "..")) == Transformed(env, dir)
  {
    JoinResolves(env, dir, name);
    JoinStarts(env, dir, name);
    assert !DoubleSlash(name);
    JoinResolves(env, Join(dir, name), "..");
    WalkName(Resolve(env, dir).value, name);
    WalkName(Push(Resolve(env, dir).value, name), "..");
  }

  /** Names that can be registered stand for files of the backup directory, different names for different
      files. */
  lemma KeysDiffer(env: Env, dir: string, a: string, b: string)
    requires Sane(env) && dir != "" && dir[|dir| - 1] == '/' && Resolve(env, dir).Some?
    requires Storable(a) && Storable(b)
    ensures Transformed(env, dir + a) == Transformed(env, dir + b) <==> a == b
    ensures Transformed(env, Parent(Transformed(env, dir + a))) == Transformed(env, dir)
  {
    KeyRoundTrip(env, dir, a);
    KeyRoundTrip(env, dir, b);
    ResolveIsProper(env, dir);
    ResolveIsProper(env, dir + a);
    var stack := Resolve(env, dir).value;
    ParentDenotes(stack + [a]);
    DenotedIsNormal(env, Parent(Render(stack + [a])), Push(stack + [a], ".."));
    assert Push(stack + [a], "..") == stack;
  }

  // ---- The code ----

  /** The scan of `is_path` for two slashes together. */
  method IsSeparated(path: string, start: nat) returns (ok: bool)
    requires start < |path| && start <= 1 && (start == 1 <==> path[0] == '/')
    ensures ok == !DoubleSlash(path)
  {
    var lpos := start;
    while lpos < |path|
      invariant 0 <= lpos <= |path| && (lpos > 0 ==> path[lpos - 1] == '/') && (lpos == 0 ==> path[0] != '/')
      invariant forall i :: 0 < i < lpos ==> !(path[i - 1] == path[i] == '/')
    {
      SlashFrom(path, lpos);
      var rpos := FindFrom(path, SLASH, lpos);
      if rpos == lpos {
        return false;
      }
      if rpos == -1 {
        break;
      }
      lpos := rpos + 1;
    }
    SlashFrom(path, lpos);
    return true;
  }

  method IsPath(env: Env, path: string) returns (ret: string)
    requires Sane(env)
    ensures ret == Completed(env, path)
  {
    if |path| == 0 || path == SLASH {
      return path;
    }
    ret := "";
    var lpos, pos := 0, 0;
    if path[0] == '~' && (|path| == 1 || path[1] == '/') {
      if env.home == None {
        return "";
      }
      ret := ret + env.home.value;
      pos := 1;
    } else if path[0] == '/' {
      lpos := 1;
    } else {
      ret := ret + "./";
    }
    var separated := IsSeparated(path, lpos);
    if !separated {
      return "";
    }
    ret := ret + path[pos..];
    if ret[|ret| - 1] == '/' {
      ret := ret[..|ret| - 1];
    }
  }

  lemma SlashedIs(text: string, stack: seq<string>)
    requires Proper(stack) && Denotes(text, stack)
    ensures text != "" && Slashed(text) == Chain(stack) + SLASH && Denotes(Slashed(text), stack)
  {
    if stack != [] {
      ChainShape(stack);
    }
  }

  lemma ExtendedDenotes(text: string, stack: seq<string>, part: string)
    requires Proper(stack) && Denotes(text, stack) && '/' !in part && part != "." && part != ".."
    ensures text != "" && Denotes(Slashed(text) + part, Push(stack, part)) && Proper(Push(stack, part))
  {
    SlashedIs(text, stack);
    if part == "" {
      assert Slashed(text) + part == Slashed(text);
    } else {
      assert (stack + [part])[..|stack|] == stack;
    }
  }

  lemma Stripped(text: string, stack: seq<string>)
    requires Proper(stack) && Denotes(text, stack)
    ensures text != "" && (if text != SLASH then DropSlash(text) else text) == Render(stack)
  {
    if stack != [] {
      ChainShape(stack);
      assert (Chain(stack) + SLASH)[..|Chain(stack)|] == Chain(stack);
    }
  }

  /** The branch for an ordinary component. */
  method AddPart(text: string, part: string, ghost stack: seq<string>) returns (longer: string)
    requires Proper(stack) && Denotes(text, stack) && '/' !in part && part != "." && part != ".."
    ensures Denotes(longer, Push(stack, part)) && Proper(Push(stack, part))
  {
    ExtendedDenotes(text, stack, part);
    longer := text;
    if longer[|longer| - 1] != '/' {
      longer := longer + SLASH;
    }
    longer := longer + part;
  }

  /** What the branch for ".." does, on a text that has no ".." in it. */
  lemma UpDenotes(env: Env, text: string, stack: seq<string>)
    requires Proper(stack) && Denotes(text, stack)
    ensures Depth(env, text) == 0 && Proper(Push(stack, ".."))
    ensures Denotes(Parent(Transformed(env, text)), Push(stack, ".."))
  {
    DenotedIsNormal(env, text, stack);
    ParentDenotes(stack);
  }

  /** From `lpos` on, the text takes the stack to `end`, with ".." among its components only if `ups`. */
  ghost predicate Left(ret: string, lpos: nat, stack: seq<string>, end: seq<string>, ups: bool) {
    Eval(stack, Components(ret, lpos)) == end && (".." in Components(ret, lpos) ==> ups)
  }

  /** What the scan takes off at `lpos`, and where it goes on. */
  predicate TakenOff(ret: string, lpos: nat, part: string, next: nat) {
    var rpos := FindFrom(ret, SLASH, lpos);
    lpos < |ret| &&
    if rpos == -1 then part == ret[lpos..] && next == |ret|
    else lpos <= rpos < |ret| && part == ret[lpos..rpos] && next == rpos + 1
  }

  lemma FirstComponent(ret: string, lpos: nat, part: string, next: nat)
    requires TakenOff(ret, lpos, part, next)
    ensures Components(ret, lpos) == [part] + Components(ret, next) && '/' !in part
  {
    ComponentsHaveNoSlash(ret, lpos);
    assert Components(ret, lpos) == [part] + Components(ret, next);
    assert Components(ret, lpos)[0] == part;
  }

  lemma LeftAfter(stack: seq<string>, cs: seq<string>, part: string, rest: seq<string>, ups: bool)
    requires cs == [part] + rest && (".." in cs ==> ups)
    ensures Eval(stack, cs) == Eval(Push(stack, part), rest)
    ensures (part == ".." ==> ups) && (".." in rest ==> ups)
  {
    EvalCons(stack, part, rest);
    assert cs[0] == part && cs[1..] == rest;
  }

  /** Taking the next component off the text pushes it on the stack. */
  lemma NextComponent(ret: string, lpos: nat, stack: seq<string>, end: seq<string>, ups: bool, part: string, next: nat)
    requires Left(ret, lpos, stack, end, ups) && TakenOff(ret, lpos, part, next)
    ensures (part == ".." ==> ups) && '/' !in part && Left(ret, next, Push(stack, part), end, ups)
  {
    FirstComponent(ret, lpos, part, next);
    LeftAfter(stack, Components(ret, lpos), part, Components(ret, next), ups);
  }

  /** `path_transform`. The inner call through `FileDir` is on a path without ".." components. */
  method PathTransform(env: Env, path: string) returns (absolute: string)
    requires Sane(env)
    ensures absolute == Transformed(env, path)
    decreases Depth(env, path), 0
  {
    var ret := IsPath(env, path);
    if ret == "" {
      return "";
    }
    absolute := SLASH;
    var lpos := 1;
    ghost var stack: seq<string> := [];
    if ret[0] != '/' {
      if env.cwd == None {
        return "";
      }
      absolute := env.cwd.value;
      lpos := 0;
      stack := Components(env.cwd.value, 1);
    }
    ghost var end, ups := Eval(stack, Components(ret, lpos)), ".." in Components(ret, lpos);
    while lpos < |ret|
      invariant Proper(stack) && Denotes(absolute, stack)
      invariant Left(ret, lpos, stack, end, ups)
    {
      var rpos := FindFrom(ret, SLASH, lpos);
      var part := if rpos == -1 then ret[lpos..] else ret[lpos..rpos];
      var next := if rpos == -1 then |ret| else rpos + 1;
      NextComponent(ret, lpos, stack, end, ups, part, next);
      lpos := next;
      ghost var before := stack;
      stack := Push(stack, part);
      if part == "." {
        continue;
      } else if part == ".." {
        UpDenotes(env, absolute, before);
        absolute := FileDir(env, absolute);
      } else {
        absolute := AddPart(absolute, part, before);
      }
    }
    Stripped(absolute, stack);
    if absolute[|absolute| - 1] == '/' && absolute != SLASH {
      absolute := absolute[..|absolute| - 1];
    }
  }

  /** `file_dir` */
  method FileDir(env: Env, path: string) returns (dir: string)
    requires Sane(env)
    ensures dir == Parent(Transformed(env, path))
    decreases Depth(env, path), 1
  {
    var ret := PathTransform(env, path);
    if ret == "" {
      return ret;
    }
    return ret[..LastOf(ret, '/') + 1];
  }

  method GetFileName(env: Env, path: string) returns (name: string)
    requires Sane(env)
    ensures name == FileName(env, path)
  {
    var ret := PathTransform(env, path);
    name := NameAfterLastSlash(ret);
  }

  /** The rest of `GetFileName`, once the path is normalised. */
  method NameAfterLastSlash(path: string) returns (name: string)
    ensures name == LastName(path)
  {
    var ret := path;
    if ret == "" || ret == SLASH {
      return "";
    }
    if ret[|ret| - 1] == '/' {
      ret := ret[..|ret| - 1];
    }
    var pos := LastOf(ret, '/');
    return ret[pos + 1..];
  }

  method IsFilename(filename: string) returns (ok: bool)
    ensures ok == CheckFilename(filename)
  {
    if filename == "" {
      return false;
    }
    for i := 0 to |filename|
      invariant '/' !in filename[..i] && '"' !in filename[..i]
    {
      if filename[i] == '/' || filename[i] == '"' {
        return false;
      }
    }
    return true;
  }
}
