/** Path normalization: what a program's path becomes before the file system sees it. */
module NormalPaths {
  import opened Basics
  import opened FatNames

  /** The components left once `.` is dropped and `..` has taken away the one before it, if any. */
  function Collapse(cs: seq<seq<byte>>): (r: seq<seq<byte>>)
    ensures forall i :: 0 <= i < |r| ==> r[i] in cs && r[i] != [PERIOD] && r[i] != [PERIOD, PERIOD]
  {
    if cs == [] then [] else
      var before, c := Collapse(cs[..|cs| - 1]), cs[|cs| - 1];
      if c == [PERIOD] then before
      else if c == [PERIOD, PERIOD] then (if before == [] then [] else before[..|before| - 1])
      else before + [c]
  }

  function Joined(cs: seq<seq<byte>>): seq<byte> {
    if cs == [] then [] else [SLASH] + cs[0] + Joined(cs[1..])
  }

  /** The absolute path with these components. */
  function Text(cs: seq<seq<byte>>): seq<byte> { if cs == [] then [SLASH] else Joined(cs) }

  /** Whole components: not empty, and without a separator. */
  ghost predicate Whole(cs: seq<seq<byte>>) { forall i :: 0 <= i < |cs| ==> cs[i] != [] && SLASH !in cs[i] }

  lemma {:induction false} IndexPast(a: seq<byte>, b: seq<byte>)
    requires SLASH !in a
    ensures IndexOf(a + b, SLASH) == |a| + IndexOf(b, SLASH)
  {
    if a == [] {
      assert a + b == b;
    } else {
      assert (a + b)[1..] == a[1..] + b;
      IndexPast(a[1..], b);
    }
  }

  /** The first component of a path, if there is one, and those after the first separator. */
  lemma SplitAt(c: seq<byte>, rest: seq<byte>)
    requires SLASH !in c && (rest == [] || rest[0] == SLASH)
    ensures Components(c + rest) == (if c == [] then [] else [c]) + (if rest == [] then [] else Components(rest[1..]))
  {
    IndexPast(c, rest);
    var path := c + rest;
    if path != [] {
      assert path[..|c|] == c;
      if rest != [] { assert path[|c| + 1..] == rest[1..]; }
      assert Components([]) == [];
    }
  }

  lemma {:induction false} ComponentsWhole(path: seq<byte>)
    ensures Whole(Components(path))
    decreases |path|
  {
    hide Components, IndexOf;
    var k := IndexOf(path, SLASH);
    var c, rest := path[..k], path[k..];
    assert path == c + rest;
    SplitAt(c, rest);
    if rest != [] { ComponentsWhole(rest[1..]); }
  }

  lemma JoinedStep(c: seq<byte>, rest: seq<byte>)
    requires c != [] && SLASH !in c && (rest == [] || rest[0] == SLASH)
    ensures Components([SLASH] + c + rest) == [c] + Components(rest)
  {
    hide Components;
    var path := [SLASH] + c + rest;
    assert path[1..] == c + rest && [] + path == path && [] + rest == rest;
    SplitAt([], path);
    SplitAt(c, rest);
    SplitAt([], rest);
  }

  /** Splitting a joined path gives its components back. */
  lemma {:induction false} ComponentsJoined(cs: seq<seq<byte>>)
    requires Whole(cs)
    ensures Components(Joined(cs)) == cs && Components(Text(cs)) == cs
  {
    hide Components;
    if cs == [] {
      SplitAt([], []);
      SplitAt([], [SLASH]);
      assert [SLASH][1..] == [] && [] + [SLASH] == [SLASH];
    } else {
      ComponentsJoined(cs[1..]);
      JoinedStep(cs[0], Joined(cs[1..]));
      assert cs == [cs[0]] + cs[1..];
    }
  }

  /** Joining two paths with a separator joins their components. */
  lemma {:induction false} ComponentsConcat(a: seq<byte>, b: seq<byte>)
    ensures Components(a + [SLASH] + b) == Components(a) + Components(b)
    decreases |a|
  {
    hide Components;
    var k := IndexOf(a, SLASH);
    var c, rest := a[..k], a[k..];
    var after := rest + [SLASH] + b;
    assert a == c + rest && a + [SLASH] + b == c + after;
    SplitAt(c, rest);
    SplitAt(c, after);
    if rest == [] {
      assert after[1..] == b;
    } else {
      ComponentsConcat(rest[1..], b);
      assert after[1..] == rest[1..] + [SLASH] + b;
    }
  }

  /** Nothing to drop, nothing dropped. */
  lemma {:induction false} CollapseFixed(cs: seq<seq<byte>>)
    requires forall i :: 0 <= i < |cs| ==> cs[i] != [PERIOD] && cs[i] != [PERIOD, PERIOD]
    ensures Collapse(cs) == cs
  {
    if cs != [] {
      CollapseFixed(cs[..|cs| - 1]);
      assert cs == cs[..|cs| - 1] + [cs[|cs| - 1]];
    }
  }

  /** Collapsing in two goes is collapsing once. */
  lemma {:induction false} CollapseStep(a: seq<seq<byte>>, b: seq<seq<byte>>)
    ensures Collapse(Collapse(a) + b) == Collapse(a + b)
    decreases |b|
  {
    if b == [] {
      CollapseFixed(Collapse(a));
      assert Collapse(a) + b == Collapse(a) && a + b == a;
    } else {
      var n := |b| - 1;
      CollapseStep(a, b[..n]);
      assert (a + b)[..|a + b| - 1] == a + b[..n];
      var ca := Collapse(a);
      assert (ca + b)[..|ca + b| - 1] == ca + b[..n];
    }
  }

  /** What one more component does to the stack. */
  lemma CollapsePush(cs: seq<seq<byte>>, c: seq<byte>)
    ensures var before := Collapse(cs);
            Collapse(cs + [c]) ==
              if c == [PERIOD] then before
              else if c == [PERIOD, PERIOD] then (if before == [] then [] else before[..|before| - 1])
              else before + [c]
  {
    assert (cs + [c])[..|cs + [c]| - 1] == cs;
  }

  lemma NextPart(rest: seq<byte>)
    ensures var k := IndexOf(rest, SLASH);
            Components(rest) == (if k == 0 then [] else [rest[..k]])
                                + Components(if k < |rest| then rest[k + 1..] else [])
  {
    hide Components, IndexOf;
    var k := IndexOf(rest, SLASH);
    assert rest == rest[..k] + rest[k..];
    SplitAt(rest[..k], rest[k..]);
    SplitAt([], []);
    if k < |rest| { assert rest[k..][1..] == rest[k + 1..]; }
  }

  /** Splits the path and keeps a stack of components. */
  method Normalize(path: seq<byte>) returns (out: seq<byte>)
    ensures out == Text(Collapse(Components(path)))
  {
    hide Components, Collapse, IndexOf;
    var comps: seq<seq<byte>> := [];
    var rest := path;
    ghost var seen: seq<seq<byte>> := [];
    SplitAt([], []);
    CollapseFixed([]);
    while rest != []
      invariant Components(path) == seen + Components(rest) && comps == Collapse(seen)
      decreases |rest|
    {
      var k := IndexOf(rest, SLASH);
      var part := rest[..k];
      NextPart(rest);
      CollapsePush(seen, part);
      if part == [] || part == [PERIOD] {
      } else if part == [PERIOD, PERIOD] {
        if comps != [] { comps := comps[..|comps| - 1]; }
      } else {
        comps := comps + [part];
      }
      if part != [] { seen := seen + [part]; }
      rest := if k < |rest| then rest[k + 1..] else [];
    }
    assert seen + [] == seen;
    out := Text(comps);
  }

  /** A path as given, seen from a working directory. */
  method ResolvePath(cwd: seq<byte>, path: seq<byte>) returns (out: seq<byte>)
    ensures out == Text(Collapse((if path != [] && path[0] == SLASH then [] else Components(cwd)) + Components(path)))
  {
    if path != [] && path[0] == SLASH {
      out := Normalize(path);
      assert [] + Components(path) == Components(path);
    } else {
      var combined := cwd;
      if cwd == [] || cwd[|cwd| - 1] != SLASH { combined := combined + [SLASH]; }
      Separated(cwd, path);
      out := Normalize(combined + path);
    }
  }

  lemma Separated(cwd: seq<byte>, path: seq<byte>)
    ensures var combined := if cwd == [] || cwd[|cwd| - 1] != SLASH then cwd + [SLASH] else cwd;
            Components(combined + path) == Components(cwd) + Components(path)
  {
    if cwd == [] || cwd[|cwd| - 1] != SLASH {
      ComponentsConcat(cwd, path);
    } else {
      var front := cwd[..|cwd| - 1];
      assert cwd == front + [SLASH] && cwd == front + [SLASH] + [];
      ComponentsConcat(front, path);
      ComponentsConcat(front, []);
      assert Components(front) + Components([]) == Components(front);
    }
  }

  /** Normalizing is idempotent, and what comes out has no dot components for the file system to meet. */
  lemma NormalForm(path: seq<byte>)
    ensures var cs := Collapse(Components(path));
            Whole(cs) && Components(Text(cs)) == cs && Collapse(Components(Text(cs))) == cs
  {
    ComponentsWhole(path);
    var cs := Collapse(Components(path));
    ComponentsJoined(cs);
    CollapseFixed(cs);
  }

  /** Changing directory twice lands where the combined path leads. */
  lemma ChangeTwice(cwd: seq<byte>, a: seq<byte>, b: seq<byte>)
    ensures var first := Text(Collapse(Components(cwd) + Components(a)));
            Collapse(Components(first) + Components(b)) == Collapse(Components(cwd) + Components(a + [SLASH] + b))
  {
    hide Components, Collapse, Text;
    ComponentsWhole(cwd);
    ComponentsWhole(a);
    var cs := Components(cwd) + Components(a);
    ComponentsJoined(Collapse(cs));
    CollapseStep(cs, Components(b));
    ComponentsConcat(a, b);
    assert cs + Components(b) == Components(cwd) + (Components(a) + Components(b));
  }

  /** Only `.` and `..` are special: the names that later turn out odd are left alone. */
  lemma OddNamesStay(c: seq<byte>)
    requires c in {BlankDots(), CutDots(), Zi()}
    ensures Collapse(Components(Text([c]))) == [c]
  {
    hide Components, Collapse;
    ComponentsJoined([c]);
    CollapseFixed([c]);
  }
}
