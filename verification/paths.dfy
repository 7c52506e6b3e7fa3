/**
 Path resolution: k_path_resolve builds its result in place in a buffer; what it
 computes is a walk over a stack of components.
 */
module Paths {
  datatype Error = EINVAL | ENOENT | EPERM | E2BIG

  datatype Result<T> = Ok(value: T) | Err(error: Error)

  const PATH_MAX: nat := 256
  const NAME_MAX: nat := 255

  predicate Printable(c: char) { ' ' <= c <= '~' }

  /** A component that may stand in a resolved path. */
  predicate Component(w: string) {
    0 < |w| <= NAME_MAX && w != "." && w != ".." && forall i :: 0 <= i < |w| ==> Printable(w[i]) && w[i] != '/'
  }

  predicate Components(cs: seq<string>) { forall i :: 0 <= i < |cs| ==> Component(cs[i]) }

  /** The text of a stack. */
  function Render(cs: seq<string>): (r: string)
    ensures |r| >= 1 && r[0] == '/'
  {
    if cs == [] then "/"
    else if |cs| == 1 then "/" + cs[0]
    else Render(cs[..|cs| - 1]) + "/" + cs[|cs| - 1]
  }

  /** Characters before the next slash. */
  function Word(p: string): (n: nat)
    ensures n <= |p| && (forall i :: 0 <= i < n ==> p[i] != '/') && (n < |p| ==> p[n] == '/')
  {
    if p == "" || p[0] == '/' then 0 else 1 + Word(p[1..])
  }

  predicate WordOk(w: string) { |w| <= NAME_MAX && forall i :: 0 <= i < |w| ==> Printable(w[i]) }

  /** The walk over the rest of a path; floor components may not be left, which is an error below a named root. */
  function Walk(p: string, cs: seq<string>, floor: nat, named: bool, scanned: nat): Result<seq<string>>
    decreases |p|
  {
    if p == "" then Ok(cs)
    else if scanned >= 4096 then Err(E2BIG)
    else if p[0] == '/' then Walk(p[1..], cs, floor, named, scanned + 1)
    else
      var w := p[..Word(p)];
      var rest := p[Word(p)..];
      if !WordOk(w) then Err(EINVAL)
      else if w == "." then Walk(rest, cs, floor, named, scanned + 1)
      else if w == ".." then
        if |cs| <= floor then (if named then Err(EPERM) else Walk(rest, cs, floor, named, scanned + 1))
        else Walk(rest, cs[..|cs| - 1], floor, named, scanned + 1)
      else if |Render(cs + [w])| >= PATH_MAX then Err(E2BIG)
      else Walk(rest, cs + [w], floor, named, scanned + 1)
  }

  // ---------------------------------------------------------------- what a walk keeps

  lemma WordIsComponent(p: string)
    requires p != "" && p[0] != '/' && WordOk(p[..Word(p)]) && p[..Word(p)] != "." && p[..Word(p)] != ".."
    ensures Component(p[..Word(p)]) && Word(p) > 0
  {
  }

  /** The result has no empty, "." or ".." component, fits the buffer, and keeps the components up to the floor. */
  lemma {:induction false} WalkKeeps(p: string, cs: seq<string>, floor: nat, named: bool, scanned: nat)
    requires Components(cs) && |Render(cs)| < PATH_MAX && floor <= |cs|
    ensures var r := Walk(p, cs, floor, named, scanned);
      r.Ok? ==> Components(r.value) && |Render(r.value)| < PATH_MAX && floor <= |r.value| && r.value[..floor] == cs[..floor]
    decreases |p|
  {
    hide Component, Render, WordOk;
    if p != "" && scanned < 4096 {
      if p[0] == '/' {
        WalkKeeps(p[1..], cs, floor, named, scanned + 1);
      } else {
        var w := p[..Word(p)];
        var rest := p[Word(p)..];
        if WordOk(w) {
          if w == "." {
            WalkKeeps(rest, cs, floor, named, scanned + 1);
          } else if w == ".." {
            if |cs| <= floor {
              if !named {
                WalkKeeps(rest, cs, floor, named, scanned + 1);
              }
            } else {
              var less := cs[..|cs| - 1];
              RenderShrinks(cs);
              WalkKeeps(rest, less, floor, named, scanned + 1);
              assert less[..floor] == cs[..floor];
            }
          } else if |Render(cs + [w])| < PATH_MAX {
            WordIsComponent(p);
            WalkKeeps(rest, cs + [w], floor, named, scanned + 1);
            assert (cs + [w])[..floor] == cs[..floor];
          }
        }
      }
    }
  }

  lemma RenderShrinks(cs: seq<string>)
    requires cs != []
    ensures |Render(cs[..|cs| - 1])| <= |Render(cs)|
  {
  }

  /** A longer stack has a longer text. */
  lemma {:induction false} RenderLonger(cs: seq<string>, n: nat)
    requires Components(cs) && n <= |cs|
    ensures |Render(cs[..n])| <= |Render(cs)| && (n < |cs| ==> |Render(cs[..n])| < |Render(cs)|)
  {
    if n == |cs| {
      assert cs[..n] == cs;
    } else {
      var less := cs[..|cs| - 1];
      assert less[..n] == cs[..n];
      RenderLonger(less, n);
      assert Component(cs[|cs| - 1]);
    }
  }

  // ---------------------------------------------------------------- resolving twice

  lemma RenderPush(cs: seq<string>, w: string)
    ensures Render(cs + [w]) == Render(cs) + (if cs == [] then "" else "/") + w
  {
    assert (cs + [w])[..|cs|] == cs;
    if cs == [] {
      assert cs + [w] == [w];
    }
  }

  /** The text of the components from i on, each after a slash. */
  function Tail(cs: seq<string>, i: nat): string
    requires i <= |cs|
    decreases |cs| - i
  {
    if i == |cs| then "" else "/" + cs[i] + Tail(cs, i + 1)
  }

  lemma {:induction false} TailPush(cs: seq<string>, w: string, i: nat)
    requires i <= |cs|
    ensures Tail(cs + [w], i) == Tail(cs, i) + "/" + w
    decreases |cs| - i
  {
    if i < |cs| {
      TailPush(cs, w, i + 1);
    } else {
      assert Tail(cs + [w], i + 1) == "";
    }
  }

  lemma {:induction false} RenderIsTail(cs: seq<string>)
    requires cs != []
    ensures Render(cs) == Tail(cs, 0)
  {
    var n := |cs| - 1;
    assert cs == cs[..n] + [cs[n]];
    TailPush(cs[..n], cs[n], 0);
    if n > 0 {
      RenderIsTail(cs[..n]);
    }
  }

  lemma {:induction false} WordBefore(w: string, rest: string)
    requires (forall i :: 0 <= i < |w| ==> w[i] != '/') && (rest == "" || rest[0] == '/')
    ensures Word(w + rest) == |w|
  {
    if w == "" {
      assert w + rest == rest;
    } else {
      assert (w + rest)[1..] == w[1..] + rest;
      WordBefore(w[1..], rest);
    }
  }

  /** One component, with its slash, enters the stack. */
  lemma WalkOne(w: string, more: string, cs: seq<string>, scanned: nat)
    requires Component(w) && (more == "" || more[0] == '/') && |Render(cs + [w])| < PATH_MAX && scanned + 2 <= 4096
    ensures Walk("/" + w + more, cs, 0, false, scanned) == Walk(more, cs + [w], 0, false, scanned + 2)
  {
    hide Walk, Render;
    var p := "/" + w + more;
    assert p[1..] == w + more;
    WalkStep(p, cs, 0, false, scanned);
    WordBefore(w, more);
    assert (w + more)[..|w|] == w && (w + more)[|w|..] == more;
    WalkStep(w + more, cs, 0, false, scanned + 1);
  }

  lemma {:induction false} WalkTail(cs: seq<string>, i: nat, scanned: nat)
    requires Components(cs) && i <= |cs| && |Render(cs)| < PATH_MAX && scanned + 2 * (|cs| - i) <= 4096
    ensures Walk(Tail(cs, i), cs[..i], 0, false, scanned) == Ok(cs)
    decreases |cs| - i
  {
    hide Render, Walk, Component;
    if i == |cs| {
      assert cs[..i] == cs;
      WalkEnd(cs, 0, false, scanned);
    } else {
      assert cs[..i] + [cs[i]] == cs[..i + 1];
      RenderLonger(cs, i + 1);
      WalkOne(cs[i], Tail(cs, i + 1), cs[..i], scanned);
      WalkTail(cs, i + 1, scanned + 2);
    }
  }

  lemma {:induction false} CountBound(cs: seq<string>)
    requires Components(cs)
    ensures 2 * |cs| <= |Render(cs)| + 1
  {
    if cs != [] {
      var less := cs[..|cs| - 1];
      CountBound(less);
      assert Component(cs[|cs| - 1]);
    }
  }

  /** A resolved path resolves to itself. */
  lemma ResolvedIsFixed(cs: seq<string>)
    requires Components(cs) && |Render(cs)| < PATH_MAX
    ensures Walk(Render(cs), [], 0, false, 0) == Ok(cs)
  {
    hide Render, Component;
    CountBound(cs);
    if cs == [] {
      RootIsFixed();
    } else {
      RenderIsTail(cs);
      assert cs[..0] == [];
      WalkTail(cs, 0, 0);
    }
  }

  lemma RootIsFixed()
    ensures Render([]) == "/" && Walk("/", [], 0, false, 0) == Ok([])
  {
    assert "/"[1..] == "";
  }

  // ---------------------------------------------------------------- a walk is a fold

  /** The words between slashes. */
  function Words(p: string): seq<string>
    decreases |p|
  {
    if p == "" then []
    else if p[0] == '/' then Words(p[1..])
    else
      WordMoves(p);
      [p[..Word(p)]] + Words(p[Word(p)..])
  }

  lemma WordMoves(p: string)
    requires p != "" && p[0] != '/'
    ensures Word(p) > 0
  {
  }

  /** One word on the stack. */
  function Enter(cs: seq<string>, w: string, floor: nat, named: bool): Result<seq<string>> {
    if !WordOk(w) then Err(EINVAL)
    else if w == "." then Ok(cs)
    else if w == ".." then (if |cs| > floor then Ok(cs[..|cs| - 1]) else if named then Err(EPERM) else Ok(cs))
    else if |Render(cs + [w])| >= PATH_MAX then Err(E2BIG)
    else Ok(cs + [w])
  }

  function Fold(cs: seq<string>, ws: seq<string>, floor: nat, named: bool): Result<seq<string>>
    decreases |ws|
  {
    if ws == [] then Ok(cs)
    else match Enter(cs, ws[0], floor, named)
         case Err(e) => Err(e)
         case Ok(next) => Fold(next, ws[1..], floor, named)
  }

  /** Resolution is the fold of its words over the stack; only the limit of 4096 steps can make it differ. */
  lemma {:induction false} WalkIsFold(p: string, cs: seq<string>, floor: nat, named: bool, scanned: nat)
    ensures Walk(p, cs, floor, named, scanned).Ok? || scanned + |p| <= 4096 ==>
      Walk(p, cs, floor, named, scanned) == Fold(cs, Words(p), floor, named)
    decreases |p|
  {
    hide Render, WordOk;
    if p != "" && scanned < 4096 {
      if p[0] == '/' {
        WalkIsFold(p[1..], cs, floor, named, scanned + 1);
      } else {
        WordMoves(p);
        var w, rest := p[..Word(p)], p[Word(p)..];
        assert ([w] + Words(rest))[1..] == Words(rest);
        match Enter(cs, w, floor, named)
        case Err(e) =>
        case Ok(next) => WalkIsFold(rest, next, floor, named, scanned + 1);
      }
    }
  }

  // ---------------------------------------------------------------- k_path_resolve

  predicate Normal(p: string, cs: seq<string>) { Components(cs) && p == Render(cs) && |p| < PATH_MAX }

  /** What a path means: below the root it names, below the working directory, or from the top. */
  function Meaning(path: string, cwd: seq<string>, roots: map<string, seq<string>>): Result<seq<string>> {
    if path == "" then Err(EINVAL)
    else if path[0] == '@' then
      var name, rest := path[1..][..Word(path[1..])], path[1..][Word(path[1..])..];
      if |name| > 31 then Err(E2BIG)
      else if name !in roots then Err(ENOENT)
      else Walk(rest, roots[name], |roots[name]|, true, 0)
    else Walk(path, if path[0] == '/' then [] else cwd, 0, false, 0)
  }

  // ---------------------------------------------------------------- where a path starts

  /** The words of a text are its components, whatever follows it. */
  lemma {:induction false} WordsOfTail(cs: seq<string>, i: nat, more: string)
    requires Components(cs) && i <= |cs| && (more == "" || more[0] == '/')
    ensures Words(Tail(cs, i) + more) == cs[i..] + Words(more)
    decreases |cs| - i
  {
    hide Component;
    if i == |cs| {
      assert Tail(cs, i) + more == more && cs[i..] == [];
    } else {
      var rest := Tail(cs, i + 1) + more;
      assert Tail(cs, i) + more == "/" + cs[i] + rest;
      WordsOne(cs[i], rest);
      WordsOfTail(cs, i + 1, more);
      assert cs[i..] == [cs[i]] + cs[i + 1..];
    }
  }

  lemma WordsOne(w: string, rest: string)
    requires Component(w) && (rest == "" || rest[0] == '/')
    ensures Words("/" + w + rest) == [w] + Words(rest)
  {
    var p := "/" + w + rest;
    assert p[1..] == w + rest && (w + rest)[0] == w[0];
    WordBefore(w, rest);
    assert (w + rest)[..|w|] == w && (w + rest)[|w|..] == rest;
  }

  lemma WordsOfRender(cs: seq<string>, more: string)
    requires Components(cs) && more != "" && more[0] == '/'
    ensures Words(Render(cs) + more) == cs + Words(more)
  {
    hide Render, Component;
    if cs == [] {
      RootIsFixed();
      assert ("/" + more)[1..] == more;
    } else {
      RenderIsTail(cs);
      WordsOfTail(cs, 0, more);
      assert cs[0..] == cs;
    }
  }

  /** Words that are components pile up. */
  lemma {:induction false} FoldPush(cs: seq<string>, i: nat, ws: seq<string>)
    requires Components(cs) && |Render(cs)| < PATH_MAX && i <= |cs|
    ensures Fold(cs[..i], cs[i..] + ws, 0, false) == Fold(cs, ws, 0, false)
    decreases |cs| - i
  {
    hide Render;
    if i == |cs| {
      assert cs[..i] == cs && cs[i..] + ws == ws;
    } else {
      var all := cs[i..] + ws;
      assert all[0] == cs[i] && all[1..] == cs[i + 1..] + ws;
      assert cs[..i] + [cs[i]] == cs[..i + 1];
      RenderLonger(cs, i + 1);
      assert Component(cs[i]);
      FoldPush(cs, i + 1, ws);
    }
  }

  /** A relative path means what it means behind the text of the working directory. */
  lemma RelativeIsBelow(path: string, cwd: seq<string>, other: seq<string>, roots: map<string, seq<string>>)
    requires Components(cwd) && |Render(cwd)| < PATH_MAX && |Render(cwd)| + 1 + |path| <= 4096
    requires path != "" && path[0] != '/' && path[0] != '@'
    ensures Meaning(path, cwd, roots) == Meaning(Render(cwd) + "/" + path, other, roots)
  {
    hide Render, Component, Walk, Fold;
    var more := "/" + path;
    var whole := Render(cwd) + more;
    assert whole == Render(cwd) + "/" + path && whole[0] == Render(cwd)[0] == '/';
    assert more[1..] == path;
    WordsOfRender(cwd, more);
    WalkIsFold(path, cwd, 0, false, 0);
    WalkIsFold(whole, [], 0, false, 0);
    FoldPush(cwd, 0, Words(path));
    assert cwd[..0] == [] && cwd[0..] == cwd;
  }

  lemma {:induction false} FoldFree(cs: seq<string>, ws: seq<string>, floor: nat)
    requires Fold(cs, ws, floor, true).Ok? && floor <= |cs|
    ensures Fold(cs, ws, 0, false) == Fold(cs, ws, floor, true)
    decreases |ws|
  {
    hide Render, WordOk;
    if ws != [] {
      FoldFree(Enter(cs, ws[0], floor, true).value, ws[1..], floor);
    }
  }

  /** A path below a named root means what it means behind the text of that root. */
  lemma NamedIsBelow(path: string, cwd: seq<string>, roots: map<string, seq<string>>)
    requires path != "" && path[0] == '@' && Meaning(path, cwd, roots).Ok?
    requires forall name :: name in roots ==> Components(roots[name]) && |Render(roots[name])| < PATH_MAX
    requires PATH_MAX + |path| <= 4096
    ensures var n := Word(path[1..]);
      Meaning(Render(roots[path[1..][..n]]) + "/" + path[1..][n..], cwd, roots) == Meaning(path, cwd, roots)
  {
    hide Render, Component, Walk, Fold;
    var n := Word(path[1..]);
    var root, rest := roots[path[1..][..n]], path[1..][n..];
    var more := "/" + rest;
    var whole := Render(root) + more;
    assert whole == Render(root) + "/" + rest && whole[0] == Render(root)[0] == '/';
    assert more[1..] == rest;
    WordsOfRender(root, more);
    WalkIsFold(rest, root, |root|, true, 0);
    WalkIsFold(whole, [], 0, false, 0);
    FoldFree(root, Words(rest), |root|);
    FoldPush(root, 0, Words(rest));
    assert root[..0] == [] && root[0..] == root;
  }

  /** A resolved path is normal, and a path below a named root stays below it. */
  lemma MeaningIsNormal(path: string, cwd: seq<string>, roots: map<string, seq<string>>)
    requires Components(cwd) && |Render(cwd)| < PATH_MAX
    requires forall name :: name in roots ==> Components(roots[name]) && |Render(roots[name])| < PATH_MAX
    ensures var r := Meaning(path, cwd, roots);
      r.Ok? ==>
        && Normal(Render(r.value), r.value)
        && Meaning(Render(r.value), cwd, roots) == r
        && (path != "" && path[0] == '@' ==>
              var name := path[1..][..Word(path[1..])];
              name in roots && roots[name] <= r.value)
  {
    hide Walk, Render, Component;
    EmptyShort();
    if path != "" {
      if path[0] == '@' {
        var name, rest := path[1..][..Word(path[1..])], path[1..][Word(path[1..])..];
        if |name| <= 31 && name in roots {
          WalkKeeps(rest, roots[name], |roots[name]|, true, 0);
        }
      } else {
        WalkKeeps(path, if path[0] == '/' then [] else cwd, 0, false, 0);
      }
      var r := Meaning(path, cwd, roots);
      if r.Ok? {
        ResolvedIsFixed(r.value);
      }
    }
  }

  lemma EmptyShort()
    ensures |Render([])| < PATH_MAX && Components([])
  {
  }

  /** The buffer keeps the text of the stack: pushing, popping and the floor. */
  lemma PopText(cs: seq<string>)
    requires Components(cs) && cs != []
    ensures var less, w := cs[..|cs| - 1], cs[|cs| - 1];
      && Render(cs) == Render(less) + (if less == [] then "" else "/") + w
      && |w| > 0 && forall i :: 0 <= i < |w| ==> w[i] != '/'
  {
    var less, w := cs[..|cs| - 1], cs[|cs| - 1];
    assert cs == less + [w];
    RenderPush(less, w);
    assert Component(w);
  }

  /** The loop over the rest of a path, working on the buffer. */
  method Build(path: string, start: string, floor: nat, named: bool, ghost cs0: seq<string>, ghost depth: nat)
    returns (r: Result<string>)
    requires Normal(start, cs0) && depth <= |cs0| && floor == |Render(cs0[..depth])|
    ensures var m := Walk(path, cs0, depth, named, 0);
      match m case Ok(cs) => r == Ok(Render(cs)) case Err(e) => r == Err(e)
  {
    hide Walk, Render, Component;
    var out, p, scanned := start, path, 0;
    ghost var cs := cs0;
    while p != ""
      invariant Normal(out, cs) && depth <= |cs| && cs[..depth] == cs0[..depth] && 0 <= scanned <= 4096
      invariant Walk(p, cs, depth, named, scanned) == Walk(path, cs0, depth, named, 0)
      decreases |p|
    {
      WalkStep(p, cs, depth, named, scanned);
      if scanned + 1 > 4096 {
        return Err(E2BIG);
      }
      scanned := scanned + 1;
      if p[0] == '/' {
        p := p[1..];
        continue;
      }
      var w, bad := Scan(p);
      if bad {
        return Err(EINVAL);
      }
      ghost var before := p;
      WordMoves(p);
      p := p[|w|..];
      if w == "." {
        continue;
      }
      if w == ".." {
        FloorText(cs, depth);
        if |out| <= floor {
          if named {
            return Err(EPERM);
          }
          continue;
        }
        out := Pop(out, cs);
        assert cs[..|cs| - 1][..depth] == cs[..depth];
        ShorterNormal(cs);
        cs := cs[..|cs| - 1];
        continue;
      }
      var slash := if |out| > 1 then 1 else 0;
      RenderPush(cs, w);
      TextLength(cs);
      if |w| + slash >= PATH_MAX - |out| {
        return Err(E2BIG);
      }
      if slash == 1 {
        out := out + "/";
      }
      out := out + w;
      WordIsComponent(before);
      assert (cs + [w])[..depth] == cs[..depth];
      cs := cs + [w];
    }
    WalkEnd(cs, depth, named, scanned);
    return Ok(out);
  }

  lemma WalkEnd(cs: seq<string>, depth: nat, named: bool, scanned: nat)
    ensures Walk("", cs, depth, named, scanned) == Ok(cs)
  {
  }

  lemma WalkStep(p: string, cs: seq<string>, depth: nat, named: bool, scanned: nat)
    requires p != ""
    ensures Walk(p, cs, depth, named, scanned) ==
      if scanned >= 4096 then Err(E2BIG)
      else if p[0] == '/' then Walk(p[1..], cs, depth, named, scanned + 1)
      else match Enter(cs, p[..Word(p)], depth, named)
           case Err(e) => Err(e)
           case Ok(next) => Walk(p[Word(p)..], next, depth, named, scanned + 1)
  {
    hide Render, WordOk;
  }

  lemma FloorText(cs: seq<string>, depth: nat)
    requires Components(cs) && depth <= |cs|
    ensures |Render(cs)| <= |Render(cs[..depth])| <==> |cs| <= depth
  {
    RenderLonger(cs, depth);
    if depth == |cs| {
      assert cs[..depth] == cs;
    }
  }

  lemma TextLength(cs: seq<string>)
    requires Components(cs)
    ensures |Render(cs)| > 1 <==> cs != []
  {
    if cs != [] {
      assert cs[..0] == [];
      RenderLonger(cs, 0);
    }
  }

  lemma ShorterNormal(cs: seq<string>)
    requires Components(cs) && cs != [] && |Render(cs)| < PATH_MAX
    ensures Normal(Render(cs[..|cs| - 1]), cs[..|cs| - 1])
  {
    hide Component, Render;
    RenderShrinks(cs);
  }

  /** The word at the front, refused at its first bad character. */
  method Scan(p: string) returns (w: string, bad: bool)
    requires p != "" && p[0] != '/'
    ensures bad <==> !WordOk(p[..Word(p)])
    ensures !bad ==> w == p[..Word(p)]
  {
    var n := 0;
    while n < |p| && p[n] != '/'
      invariant 0 <= n <= Word(p) && n <= NAME_MAX && forall i :: 0 <= i < n ==> Printable(p[i])
    {
      if !Printable(p[n]) || n + 1 > NAME_MAX {
        assert n < Word(p);
        assert !Printable(p[n]) ==> !Printable(p[..Word(p)][n]);
        return "", true;
      }
      n := n + 1;
    }
    return p[..n], false;
  }

  /** Drop the last component from the buffer. */
  method Pop(out: string, ghost cs: seq<string>) returns (r: string)
    requires Components(cs) && cs != [] && out == Render(cs)
    ensures r == Render(cs[..|cs| - 1])
  {
    hide Render, Component;
    PopText(cs);
    ghost var less, w := cs[..|cs| - 1], cs[|cs| - 1];
    ghost var cut := |out| - |w|;
    TextEnds(less);
    var next := |out|;
    while next > 1 && out[next - 1] != '/'
      invariant cut <= next <= |out|
    {
      next := next - 1;
    }
    if next > 1 {
      next := next - 1;
    }
    return out[..next];
  }

  lemma TextEnds(cs: seq<string>)
    ensures cs == [] ==> Render(cs) == "/"
    ensures |Render(cs)| >= 1
  {
  }

  /** k_path_resolve; a working directory that is absolute and fits is normal, and so are the bound roots. */
  method Resolve(path: string, cwd: string, roots: map<string, string>, ghost cwdStack: seq<string>, ghost rootStacks: map<string, seq<string>>)
    returns (r: Result<string>)
    requires cwd != "" && cwd[0] == '/' && |cwd| < PATH_MAX ==> Normal(cwd, cwdStack)
    requires roots.Keys == rootStacks.Keys && forall name :: name in roots ==> Normal(roots[name], rootStacks[name])
    ensures Normal(cwd, cwdStack) || (path != "" && (path[0] == '@' || path[0] == '/')) ==>
      match Meaning(path, cwdStack, rootStacks) case Ok(cs) => r == Ok(Render(cs)) case Err(e) => r == Err(e)
    ensures path != "" && path[0] != '@' && path[0] != '/' && (cwd == "" || cwd[0] != '/' || |cwd| >= PATH_MAX) ==> r == Err(EINVAL)
  {
    hide Walk, Component;
    if path == "" {
      return Err(EINVAL);
    }
    if path[0] == '@' {
      var n := Word(path[1..]);
      var name := path[1..][..n];
      if n > 31 {
        return Err(E2BIG);
      }
      if name !in roots {
        return Err(ENOENT);
      }
      assert rootStacks[name][..|rootStacks[name]|] == rootStacks[name];
      r := Build(path[1..][n..], roots[name], |roots[name]|, true, rootStacks[name], |rootStacks[name]|);
    } else if path[0] != '/' {
      if cwd == "" || cwd[0] != '/' || |cwd| >= PATH_MAX {
        return Err(EINVAL);
      }
      assert cwdStack[..0] == [];
      r := Build(path, cwd, 1, false, cwdStack, 0);
    } else {
      var none: seq<string> := [];
      assert none[..0] == [];
      r := Build(path, "/", 1, false, none, 0);
    }
  }
}
