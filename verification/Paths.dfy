/** Path strings: splitting into components, normalisation, and parent/name splitting. */
module Paths {
  import opened Names
  import opened Content

  const NAME_MAX := 31
  const PATH_MAX := 127
  const STACK_MAX := 16
  const ROOT: Str := [SLASH]
  const THIS_DIR: Str := [DOT_CHAR]
  const PARENT_DIR: Str := [DOT_CHAR, DOT_CHAR]

  // ---------- components ----------

  /** The components of s between slashes, each cut to 31 characters, given that `cur` has been read already. */
  function PartsFrom(cur: Str, s: Str): seq<Str>
    decreases |s|
  {
    if s == [] then Ended(cur)
    else if s[0] == SLASH then Ended(cur) + PartsFrom([], s[1..])
    else PartsFrom(Grown(cur, s[0]), s[1..])
  }

  function Ended(cur: Str): seq<Str> {
    if cur == [] then [] else [cur]
  }

  function Grown(cur: Str, c: Char): Str {
    if |cur| < NAME_MAX then cur + [c] else cur
  }

  function Parts(s: Str): seq<Str> {
    PartsFrom([], s)
  }

  /** Reading one more character of a string of components. */
  lemma PartsStep(cur: Str, s: Str, i: nat)
    requires i <= |s|
    ensures i < |s| && s[i] != SLASH ==> PartsFrom(cur, s[i..]) == PartsFrom(Grown(cur, s[i]), s[i + 1..])
    ensures i < |s| && s[i] == SLASH ==> PartsFrom(cur, s[i..]) == Ended(cur) + PartsFrom([], s[i + 1..])
    ensures i == |s| ==> PartsFrom(cur, s[i..]) == Ended(cur)
  {
    assert i < |s| ==> s[i..][1..] == s[i + 1..];
  }

  /** A component as it stands between slashes. */
  predicate IsPart(p: Str) {
    0 < |p| <= NAME_MAX && SLASH !in p
  }

  predicate ArePartsIn(ps: seq<Str>) {
    forall i :: 0 <= i < |ps| ==> IsPart(ps[i])
  }

  lemma {:induction false} PartsArePartsFrom(cur: Str, s: Str)
    requires cur == [] || IsPart(cur)
    ensures ArePartsIn(PartsFrom(cur, s))
    decreases |s|
  {
    if s != [] {
      if s[0] == SLASH {
        PartsArePartsFrom([], s[1..]);
      } else {
        PartsArePartsFrom(Grown(cur, s[0]), s[1..]);
      }
    }
  }

  lemma {:induction false} PartsAppendFrom(cur: Str, a: Str, b: Str)
    ensures PartsFrom(cur, a + [SLASH] + b) == PartsFrom(cur, a) + Parts(b)
    decreases |a|
  {
    var s := a + [SLASH] + b;
    if a == [] {
      assert s[1..] == b;
    } else {
      assert s[1..] == a[1..] + [SLASH] + b;
      PartsAppendFrom(if a[0] == SLASH then [] else Grown(cur, a[0]), a[1..], b);
    }
  }

  /** Joining two strings with a slash joins their components. */
  lemma PartsAppend(a: Str, b: Str)
    ensures Parts(a + [SLASH] + b) == Parts(a) + Parts(b)
  {
    PartsAppendFrom([], a, b);
  }

  lemma PartsSlash(b: Str)
    ensures Parts([SLASH] + b) == Parts(b)
  {
    PartsAppend([], b);
    assert [] + [SLASH] + b == [SLASH] + b;
  }

  lemma {:induction false} PartsOfPart(cur: Str, p: Str)
    requires |cur| + |p| <= NAME_MAX && SLASH !in p
    ensures PartsFrom(cur, p) == Ended(cur + p)
    decreases |p|
  {
    if p == [] {
      assert cur + p == cur;
    } else {
      PartsOfPart(cur + [p[0]], p[1..]);
      assert cur + [p[0]] + p[1..] == cur + p;
    }
  }

  // ---------- the stack of components ----------

  function StackStep(stack: seq<Str>, part: Str): seq<Str> {
    if part == THIS_DIR then stack
    else if part == PARENT_DIR then (if stack == [] then [] else Front(stack))
    else stack + [part]
  }

  function Fold(stack: seq<Str>, parts: seq<Str>): seq<Str>
    decreases |parts|
  {
    if parts == [] then stack else Fold(StackStep(stack, parts[0]), parts[1..])
  }

  predicate IsName(p: Str) {
    IsPart(p) && p != THIS_DIR && p != PARENT_DIR
  }

  /** A stack of components that normalisation leaves alone: none empty, "." or "..". */
  predicate IsNormal(stack: seq<Str>) {
    forall i :: 0 <= i < |stack| ==> IsName(stack[i])
  }

  lemma {:induction false} FoldNormal(stack: seq<Str>, parts: seq<Str>)
    requires IsNormal(stack) && ArePartsIn(parts)
    ensures IsNormal(Fold(stack, parts))
    decreases |parts|
  {
    if parts != [] {
      FoldNormal(StackStep(stack, parts[0]), parts[1..]);
    }
  }

  lemma {:induction false} FoldAppend(stack: seq<Str>, a: seq<Str>, b: seq<Str>)
    ensures Fold(stack, a + b) == Fold(Fold(stack, a), b)
    decreases |a|
  {
    if a == [] {
      assert a + b == b;
    } else {
      assert (a + b)[1..] == a[1..] + b;
      FoldAppend(StackStep(stack, a[0]), a[1..], b);
    }
  }

  lemma {:induction false} FoldNames(stack: seq<Str>, names: seq<Str>)
    requires IsNormal(names)
    ensures Fold(stack, names) == stack + names
    decreases |names|
  {
    if names == [] {
      assert stack + names == stack;
    } else {
      FoldNames(stack + [names[0]], names[1..]);
      assert stack + [names[0]] + names[1..] == stack + names;
    }
  }

  // ---------- normalisation ----------

  predicate IsAbsolute(s: Str) {
    s != [] && s[0] == SLASH
  }

  /** What normalisation starts from: an absolute input under a slash, any other under the base directory. */
  function Joined(base: Str, input: Str): Str {
    Prefix(base, IsAbsolute(input)) + input
  }

  function Prefix(base: Str, absolute: bool): Str {
    if absolute then ROOT
    else if |base| > 1 && Last(base) != SLASH then base + [SLASH]
    else base
  }

  /** The components that `input` names relative to `base`. */
  function Resolved(base: Str, input: Str): (r: seq<Str>)
    ensures IsNormal(r)
  {
    var parts := Parts(Joined(base, input));
    PartsArePartsFrom([], Joined(base, input));
    FoldNormal([], parts);
    Fold([], parts)
  }

  /** Each component after a slash. */
  function Slashed(stack: seq<Str>): Str {
    if stack == [] then [] else Slashed(Front(stack)) + [SLASH] + Last(stack)
  }

  function Render(stack: seq<Str>): Str {
    if stack == [] then ROOT else Slashed(stack)
  }

  function Normalized(base: Str, input: Str): Str {
    Render(Resolved(base, input))
  }

  /** The path fits the driver's 128-byte buffers and its stack of 16 components. */
  predicate FitsBuffers(base: Str, input: Str) {
    && |Joined(base, input)| <= PATH_MAX
    && IsAbsolute(base)
    && forall i :: 0 <= i <= |Parts(Joined(base, input))| ==>
                     |Fold([], Parts(Joined(base, input))[..i])| <= STACK_MAX
  }

  lemma {:induction false} PartsSlashed(stack: seq<Str>)
    requires ArePartsIn(stack)
    ensures Parts(Slashed(stack)) == stack
  {
    if stack != [] {
      PartsSlashed(Front(stack));
      PartsAppend(Slashed(Front(stack)), Last(stack));
      PartsOfPart([], Last(stack));
      assert [] + Last(stack) == Last(stack);
    }
  }

  lemma PartsRender(stack: seq<Str>)
    requires ArePartsIn(stack)
    ensures Parts(Render(stack)) == stack
  {
    PartsSlashed(stack);
    if stack == [] {
      PartsSlash([]);
      assert ROOT == [SLASH] + [];
    }
  }

  lemma {:induction false} SlashedAbsolute(stack: seq<Str>)
    requires stack != []
    ensures IsAbsolute(Slashed(stack)) && |Slashed(stack)| > |Last(stack)|
  {
    if |stack| > 1 {
      SlashedAbsolute(Front(stack));
    }
  }

  /** The components below a normalised base are its own followed by those of the input. */
  lemma PartsJoined(stack: seq<Str>, y: Str)
    requires IsNormal(stack)
    ensures Parts(Joined(Render(stack), y)) == if IsAbsolute(y) then Parts(y) else stack + Parts(y)
  {
    if IsAbsolute(y) {
      PartsSlash(y);
    } else if stack == [] {
      PartsSlash(y);
    } else {
      SlashedAbsolute(stack);
      assert Joined(Render(stack), y) == Slashed(stack) + [SLASH] + y by {
        assert Last(Slashed(stack)) == Last(Last(stack));
      }
      assert IsName(Last(stack));
      PartsSlashed(stack);
      PartsAppend(Slashed(stack), y);
    }
  }

  /** What a path names under a normalised working directory. */
  lemma ResolvedUnder(stack: seq<Str>, y: Str)
    requires IsNormal(stack)
    ensures Resolved(Render(stack), y) == if IsAbsolute(y) then Fold([], Parts(y)) else Fold(stack, Parts(y))
  {
    PartsJoined(stack, y);
    if !IsAbsolute(y) {
      FoldAppend([], stack, Parts(y));
      FoldNames([], stack);
      assert [] + stack == stack;
    }
  }

  /** Normalising twice changes nothing. */
  lemma NormalizeIdempotent(base: Str, base': Str, input: Str)
    ensures Normalized(base', Normalized(base, input)) == Normalized(base, input)
    ensures Resolved(base', Normalized(base, input)) == Resolved(base, input)
  {
    var stack := Resolved(base, input);
    RenderAbsolute(stack);
    PartsSlash(Render(stack));
    PartsRender(stack);
    FoldNames([], stack);
    assert [] + stack == stack;
  }

  lemma RenderAbsolute(stack: seq<Str>)
    ensures IsAbsolute(Render(stack))
  {
    if stack != [] {
      SlashedAbsolute(stack);
    }
  }

  /** Two relative steps are one: normalising y below the normal form of x is normalising x/y. */
  lemma NormalizeCompose(base: Str, x: Str, y: Str)
    requires x != [] && !IsAbsolute(y)
    ensures Normalized(Normalized(base, x), y) == Normalized(base, x + [SLASH] + y)
  {
    var joined := Joined(base, x);
    ResolvedUnder(Resolved(base, x), y);
    JoinedExtend(base, x, y);
    PartsAppend(joined, y);
    FoldAppend([], Parts(joined), Parts(y));
  }

  lemma JoinedExtend(base: Str, x: Str, y: Str)
    requires x != []
    ensures Joined(base, x + [SLASH] + y) == Joined(base, x) + [SLASH] + y
  {
    var p := Prefix(base, IsAbsolute(x));
    assert p + (x + [SLASH] + y) == p + x + [SLASH] + y;
  }

  // ---------- one component at a time ----------

  /** What one more component, the characters after a slash, does to a path: nothing for an empty one and for ".",
      ".." drops the last name, if there is any, and any other name is added, cut to 31 characters. */
  predicate Extends(before: seq<Str>, part: Str, after: seq<Str>) {
    if part == [] || part == [0x2E] then after == before
    else if part == [0x2E, 0x2E] then after == if before == [] then [] else before[..|before| - 1]
    else after == before + [if |part| <= 31 then part else part[..31]]
  }

  lemma {:induction false} PartsOfLong(cur: Str, p: Str)
    requires |cur| <= NAME_MAX && SLASH !in p && |cur| + |p| >= NAME_MAX
    ensures PartsFrom(cur, p) == [cur + p[..NAME_MAX - |cur|]]
    decreases |p|
  {
    if p == [] {
      assert cur + p == cur;
    } else if |cur| == NAME_MAX {
      PartsOfLong(cur, p[1..]);
      assert cur + p[1..][..0] == cur + p[..0];
    } else {
      PartsOfLong(cur + [p[0]], p[1..]);
      assert cur + [p[0]] + p[1..][..NAME_MAX - |cur| - 1] == cur + p[..NAME_MAX - |cur|];
    }
  }

  lemma StepIs(before: seq<Str>, part: Str)
    requires SLASH !in part
    ensures Extends(before, part, Fold(before, Parts(part)))
  {
    if |part| <= NAME_MAX {
      PartsOfPart([], part);
      assert [] + part == part;
    } else {
      PartsOfLong([], part);
      assert [] + part[..NAME_MAX] == part[..NAME_MAX];
    }
    if part != [] {
      var p := if |part| <= NAME_MAX then part else part[..NAME_MAX];
      var parts := [p];
      assert Parts(part) == parts && |parts[1..]| == 0;
    }
  }

  /** A path is read from the left, one component after the other. Before the first slash of an absolute path there
      is nothing. */
  lemma LastComponent(base: Str, x: Str, part: Str)
    requires 0x2F !in part
    ensures Extends(if x == [] then [] else Resolved(base, x), part, Resolved(base, x + [0x2F] + part))
  {
    if x == [] {
      assert x + [SLASH] + part == [SLASH] + part;
      PartsSlash(part);
      PartsSlash([SLASH] + part);
      StepIs([], part);
    } else {
      JoinedExtend(base, x, part);
      PartsAppend(Joined(base, x), part);
      FoldAppend([], Parts(Joined(base, x)), Parts(part));
      StepIs(Resolved(base, x), part);
    }
  }

  /** The first component of a relative path goes on from the current directory. */
  lemma FirstComponent(stack: seq<Str>, part: Str)
    requires IsNormal(stack) && 0x2F !in part
    ensures Extends(stack, part, Resolved(Render(stack), part))
  {
    ResolvedUnder(stack, part);
    StepIs(stack, part);
  }

  /** A normalised path is its names, each after a slash. */
  lemma RenderMore(stack: seq<Str>, name: Str)
    ensures var root: Str := [0x2F]; Render([]) == root
    ensures Render(stack + [name]) == (if stack == [] then [] else Render(stack)) + [0x2F] + name
  {
    assert Front(stack + [name]) == stack && Last(stack + [name]) == name;
    assert Slashed(stack + [name]) == Slashed(stack) + [SLASH] + name;
  }

  // ---------- lengths ----------

  lemma {:induction false} SlashedAppend(a: seq<Str>, b: seq<Str>)
    ensures Slashed(a + b) == Slashed(a) + Slashed(b)
    decreases |b|
  {
    if b == [] {
      assert a + b == a;
    } else {
      assert Front(a + b) == a + Front(b);
      SlashedAppend(a, Front(b));
    }
  }

  lemma {:induction false} PartsLength(cur: Str, s: Str)
    ensures |Slashed(PartsFrom(cur, s))| <= |cur| + |s| + 1
    ensures cur == [] && IsAbsolute(s) ==> |Slashed(PartsFrom(cur, s))| <= |s|
    decreases |s|
  {
    var e := Ended(cur);
    assert Slashed([]) == [];
    assert cur != [] ==> Front(e) == [] && Slashed(e) == [SLASH] + cur;
    if s != [] {
      if s[0] == SLASH {
        PartsLength([], s[1..]);
        SlashedAppend(e, PartsFrom([], s[1..]));
      } else {
        PartsLength(Grown(cur, s[0]), s[1..]);
      }
    }
  }

  lemma {:induction false} FoldLength(stack: seq<Str>, parts: seq<Str>)
    ensures |Slashed(Fold(stack, parts))| <= |Slashed(stack)| + |Slashed(parts)|
    decreases |parts|
  {
    if parts != [] {
      var next := StackStep(stack, parts[0]);
      FoldLength(next, parts[1..]);
      SlashedAppend([parts[0]], parts[1..]);
      assert [parts[0]] + parts[1..] == parts;
      SlashedAppend(stack, [parts[0]]);
    }
  }

  /** The result is absolute, made of proper components, and no longer than the string it was computed from. */
  lemma NormalizedShape(base: Str, input: Str)
    requires IsAbsolute(base)
    ensures IsAbsolute(Normalized(base, input))
    ensures Parts(Normalized(base, input)) == Resolved(base, input)
    ensures |Normalized(base, input)| <= |Joined(base, input)|
  {
    var joined := Joined(base, input);
    RenderAbsolute(Resolved(base, input));
    PartsRender(Resolved(base, input));
    PartsLength([], joined);
    FoldLength([], Parts(joined));
  }

  // ---------- parent and name ----------

  function LastSlash(s: Str): (r: int)
    ensures -1 <= r < |s|
    ensures r >= 0 ==> s[r] == SLASH
    ensures forall i :: r < i < |s| ==> s[i] != SLASH
  {
    if s == [] then -1 else if Last(s) == SLASH then |s| - 1 else LastSlash(Front(s))
  }

  function Cut(s: Str): Str {
    s[..Min(|s|, NAME_MAX)]
  }

  predicate Splits(path: Str) {
    0 <= LastSlash(path) < |path| - 1
  }

  function ParentPart(path: Str): Str
    requires Splits(path)
  {
    if LastSlash(path) == 0 then ROOT else path[..LastSlash(path)]
  }

  function NamePart(path: Str): Str
    requires Splits(path)
  {
    Cut(path[LastSlash(path) + 1..])
  }

  /** Every normalised path but the root splits into the path of its parent and its last component. */
  lemma SplitRender(stack: seq<Str>)
    requires IsNormal(stack)
    ensures Splits(Render(stack)) <==> stack != []
    ensures stack != [] ==> ParentPart(Render(stack)) == Render(Front(stack))
    ensures stack != [] ==> NamePart(Render(stack)) == Last(stack)
  {
    if stack != [] {
      assert IsName(Last(stack));
      var s := Slashed(stack);
      var n := |Slashed(Front(stack))|;
      assert s[n] == SLASH && s[n + 1..] == Last(stack) && s[..n] == Slashed(Front(stack));
      assert LastSlash(s) == n;
      if |stack| > 1 {
        SlashedAbsolute(Front(stack));
      }
    }
  }

  /** The parent of a normalised path and its name, joined again, give the path back. */
  lemma SplitRejoin(base: Str, input: Str)
    requires Normalized(base, input) != ROOT
    ensures var path := Normalized(base, input);
            && Splits(path)
            && path == (if ParentPart(path) == ROOT then ROOT else ParentPart(path) + [SLASH]) + NamePart(path)
  {
    var stack := Resolved(base, input);
    SplitRender(stack);
    hide Splits, ParentPart, NamePart, Resolved;
    if |stack| > 1 {
      SlashedAbsolute(Front(stack));
      assert IsName(Last(Front(stack)));
    } else {
      assert Slashed(Front(stack)) == [];
    }
  }

  // ---------- the driver's path functions ----------

  method NormalizePath(base: Str, input: Str) returns (out: Str)
    requires FitsBuffers(base, input)
    ensures out == Normalized(base, input) && |out| <= PATH_MAX
  {
    var temp: Str := [];
    if input != [] && input[0] == SLASH {
      temp := ROOT;
    } else {
      temp := base;
      if |temp| > 1 && temp[|temp| - 1] != SLASH {
        temp := temp + [SLASH];
      }
    }
    temp := temp + input;
    assert temp == Joined(base, input);
    hide Prefix;
    var stack := SplitComponents(temp);
    NormalizedShape(base, input);
    out := RenderPath(stack);
  }

  /** The loop of normalize_path that writes the components out. */
  method RenderPath(stack: seq<Str>) returns (out: Str)
    ensures out == Render(stack)
  {
    out := ROOT;
    for j := 0 to |stack|
      invariant out == Slashed(stack[..j]) + if j < |stack| || j == 0 then [SLASH] else []
    {
      assert Front(stack[..j + 1]) == stack[..j];
      out := out + stack[j];
      if j != |stack| - 1 {
        out := out + [SLASH];
      }
    }
    assert stack[..|stack|] == stack;
  }

  /** The loop of normalize_path that pushes and pops components. */
  method SplitComponents(temp: Str) returns (stack: seq<Str>)
    requires forall i :: 0 <= i <= |Parts(temp)| ==> |Fold([], Parts(temp)[..i])| <= STACK_MAX
    ensures stack == Fold([], Parts(temp))
  {
    hide PartsFrom, Fold;
    stack := [];
    ghost var done: seq<Str> := [];
    var i := 0;
    FoldNone([]);
    while i < |temp|
      invariant i <= |temp|
      invariant Parts(temp) == done + Parts(temp[i..])
      invariant stack == Fold([], done)
    {
      i := SkipSlashes(temp, i);
      if i == |temp| {
        break;
      }
      var part;
      part, i := ReadPart(temp, i);
      PushPart(done, part, Parts(temp[i..]));
      done := done + [part];
      assert Parts(temp)[..|done|] == done;

      if part == THIS_DIR {
        continue;
      }
      if part == PARENT_DIR {
        if |stack| > 0 {
          stack := stack[..|stack| - 1];
        }
        continue;
      }
      assert |stack| < STACK_MAX;
      stack := stack + [part];
    }
    assert temp[i..] == [];
    PartsNone();
    assert done + [] == done;
  }

  method SkipSlashes(temp: Str, start: nat) returns (i: nat)
    requires start <= |temp|
    ensures start <= i <= |temp| && (i < |temp| ==> temp[i] != SLASH)
    ensures Parts(temp[i..]) == Parts(temp[start..])
  {
    i := start;
    while i < |temp| && temp[i] == SLASH
      invariant start <= i <= |temp|
      invariant Parts(temp[i..]) == Parts(temp[start..])
    {
      assert temp[i..][1..] == temp[i + 1..];
      i := i + 1;
    }
  }

  method ReadPart(temp: Str, start: nat) returns (part: Str, i: nat)
    requires start < |temp| && temp[start] != SLASH
    ensures start < i <= |temp|
    ensures Parts(temp[start..]) == [part] + Parts(temp[i..])
  {
    part := [];
    i := start;
    while i < |temp| && temp[i] != SLASH
      invariant start <= i <= |temp|
      invariant part == [] <==> i == start
      invariant PartsFrom(part, temp[i..]) == Parts(temp[start..])
    {
      assert temp[i..][1..] == temp[i + 1..];
      if |part| < NAME_MAX {
        part := part + [temp[i]];
      }
      i := i + 1;
    }
    PartComplete(part, temp[i..]);
  }

  lemma FoldNone(stack: seq<Str>)
    ensures Fold(stack, []) == stack
  {
  }

  lemma PartsNone()
    ensures Parts([]) == []
  {
  }

  lemma PartComplete(part: Str, rest: Str)
    requires part != [] && (rest == [] || rest[0] == SLASH)
    ensures PartsFrom(part, rest) == [part] + Parts(rest)
  {
    if rest != [] {
      PartsSlash(rest[1..]);
      assert [SLASH] + rest[1..] == rest;
    }
  }

  lemma PushPart(done: seq<Str>, part: Str, rest: seq<Str>)
    ensures done + ([part] + rest) == done + [part] + rest
    ensures Fold([], done + [part]) == StackStep(Fold([], done), part)
  {
    FoldAppend([], done, [part]);
    assert Fold(Fold([], done), [part]) == StackStep(Fold([], done), part);
  }

  method SplitPath(path: Str) returns (ok: bool, parent: Str, name: Str)
    ensures ok <==> Splits(path)
    ensures ok ==> parent == ParentPart(path) && name == NamePart(path)
  {
    parent, name := [], [];
    if path == [] {
      return false, parent, name;
    }
    var slash := -1;
    var i := |path| - 1;
    while i >= 0
      invariant -1 <= i < |path| && slash == -1
      invariant forall k :: i < k < |path| ==> path[k] != SLASH
    {
      if path[i] == SLASH {
        slash := i;
        break;
      }
      i := i - 1;
    }
    assert slash == LastSlash(path);
    if slash == -1 {
      return false, parent, name;
    }
    if slash == 0 {
      parent := ROOT;
    } else {
      parent := path[..slash];
    }
    name := path[slash + 1..];
    if |name| > NAME_MAX {
      name := name[..NAME_MAX];
    }
    ok := name != [];
  }
}
