/**
 `relativePath` of src/eckit/filesystem/LocalPathName.cc.
 */
module RelativePaths {
  import opened Common
  import opened Tokenizers
  import opened Paths

  // ---------------------------------------------------------------- the way from one directory to another

  /** How many leading tokens `u` and `v` share. */
  function Shared(u: Tokens, v: Tokens): (k: nat)
    ensures k <= |u| && k <= |v| && u[..k] == v[..k]
  {
    if u != [] && v != [] && u[0] == v[0] then 1 + Shared(u[1..], v[1..]) else 0
  }

  function Climbing(n: nat): Tokens { seq(n, _ => Up) }

  /** Up to the shared part, then down. */
  function Way(p: Tokens, q: Tokens): Tokens {
    var k := Shared(p, q);
    Climbing(|q| - k) + p[k..]
  }

  function RelativeName(p: Tokens, q: Tokens): string { if Way(p, q) == [] then Here else Join(Way(p, q)) }

  lemma {:induction false} SharedIs(u: Tokens, v: Tokens, k: nat)
    requires k <= |u| && k <= |v| && u[..k] == v[..k]
    requires k < |u| && k < |v| ==> u[k] != v[k]
    ensures Shared(u, v) == k
  {
    if k > 0 {
      assert u[0] == u[..k][0] && v[0] == v[..k][0];
      assert u[1..][..k - 1] == u[..k][1..] && v[1..][..k - 1] == v[..k][1..];
      SharedIs(u[1..], v[1..], k - 1);
    }
  }

  lemma {:induction false} JoinOneMore(v: Tokens, t: string)
    ensures Join(v + [t]) == if v == [] then t else Join(v) + "/" + t
  {
    if v == [] {
      assert v + [t] == [t];
    } else {
      assert (v + [t])[1..] == v[1..] + [t];
      JoinOneMore(v[1..], t);
    }
  }

  /** Names: what is left of a path between its slashes. */
  ghost predicate Names(v: Tokens) { Bare(v) && "" !in v }

  lemma {:induction false} FilledNames(v: Tokens)
    requires Bare(v)
    ensures Names(Filled(v))
  {
    if v != [] { FilledNames(v[1..]); }
  }

  lemma NamesOf(s: string)
    ensures Names(Filled(Split(Slash, s)))
  {
    SplitThenJoin(s);
    FilledNames(Split(Slash, s));
  }

  lemma WayNames(p: Tokens, q: Tokens)
    requires Names(p)
    ensures Names(Way(p, q)) && (Way(p, q) != [] ==> Join(Way(p, q)) != "" && !EndsInSlash(Join(Way(p, q))))
  {
    hide Shared, Join;
    if Way(p, q) != [] { JoinLast(Way(p, q)); }
  }

  /** Appends one token, after a slash unless it is the first. */
  method Append(result: string, started: bool, t: string, ghost v: Tokens) returns (r: string)
    requires result == Join(v) && (started <==> v != [])
    ensures r == Join(v + [t])
  {
    JoinOneMore(v, t);
    r := result;
    if started { r := r + "/"; }
    r := r + t;
    assert "" + t == t;
  }

  method RelativePath(path: string, other: string) returns (r: Option<string>)
    ensures r.Some? <==> path != "" && path[0] == '/' && other != "" && other[0] == '/'
    ensures r.Some? ==> r.value == TidyOf(RelativeName(Filled(Split(Slash, path)), Filled(Split(Slash, other))))
  {
    if |path| == 0 || path[0] != '/' || |other| == 0 || other[0] != '/' { return None; }
    var s1 := Tokenize(Slash, path, false);
    var s2 := Tokenize(Slash, other, false);
    assert Join([]) == "";
    hide Split, Filled, Shared, TidyOf, Join, Names, Way;
    var i := 0;
    while i < |s1| && i < |s2| && s1[i] == s2[i]
      invariant i <= |s1| && i <= |s2| && s1[..i] == s2[..i]
    {
      i := i + 1;
    }
    SharedIs(s1, s2, i);
    NamesOf(path);
    WayNames(s1, s2);
    var result := Spelled(s1, s2, i);
    if result == "" { result := Here; }
    var t := Tidy(result);
    return Some(t);
  }

  /** The loop that spells the rest of `s` from index `k` on. */
  method AppendFrom(start: string, begun: bool, s: Tokens, k: nat, ghost v: Tokens) returns (result: string)
    requires k <= |s| && start == Join(v) && (begun <==> v != [])
    ensures result == Join(v + s[k..])
  {
    hide Join;
    result := start;
    var started := begun;
    ghost var w := v;
    for i := k to |s|
      invariant result == Join(w) && (started <==> w != []) && w + s[i..] == v + s[k..]
    {
      result := Append(result, started, s[i], w);
      assert w + s[i..] == (w + [s[i]]) + s[i + 1..];
      w := w + [s[i]];
      started := true;
    }
    assert w + s[|s|..] == w;
  }

  /** The two loops that spell out the way. */
  method Spelled(s1: Tokens, s2: Tokens, k: nat) returns (result: string)
    requires k <= |s1| && k <= |s2| && k == Shared(s1, s2)
    ensures result == Join(Way(s1, s2))
  {
    hide Shared, Join;
    result := Climbed(|s2| - k);
    result := AppendFrom(result, |s2| > k, s1, k, Climbing(|s2| - k));
  }

  method Climbed(n: nat) returns (result: string)
    ensures result == Join(Climbing(n))
  {
    assert Join([]) == "";
    hide Join;
    result := "";
    for j := 0 to n
      invariant result == Join(Climbing(j))
    {
      result := Append(result, j > 0, Up, Climbing(j));
      assert Climbing(j) + [Up] == Climbing(j + 1);
    }
  }

  // ---------------------------------------------------------------- where it leads

  lemma {:induction false} FilledWalk(dir: Tokens, v: Tokens)
    ensures Walk(dir, Filled(v)) == Walk(dir, v)
    decreases |v|
  {
    if v != [] {
      FilledWalk(Step(dir, v[0]), v[1..]);
      if v[0] == "" {
        assert Filled(v) == Filled(v[1..]);
      } else {
        assert Filled(v)[1..] == Filled(v[1..]);
      }
    }
  }

  lemma {:induction false} ClimbingWalk(dir: Tokens, n: nat)
    ensures Walk(dir, Climbing(n)) == Climb(dir, n)
    decreases n
  {
    if n > 0 {
      assert Climbing(n)[1..] == Climbing(n - 1);
      ClimbingWalk(Step(dir, Up), n - 1);
    }
  }

  /** The way from `q`, by way of the shared directory `top`. */
  lemma WayWalk(p: Tokens, q: Tokens)
    ensures var k := Shared(p, q);
            var top := Walk([], q[..k]);
            && Walk([], p) == Walk(top, p[k..]) && Walk([], q) == Walk(top, q[k..])
            && Walk(Walk([], q), Way(p, q)) == Walk(Climb(Walk([], q), |q| - k), p[k..])
  {
    hide Shared, Walk;
    var k := Shared(p, q);
    assert p == p[..k] + p[k..] && q == q[..k] + q[k..];
    WalkAppend([], p[..k], p[k..]);
    WalkAppend([], q[..k], q[k..]);
    WalkAppend(Walk([], q), Climbing(|q| - k), p[k..]);
    ClimbingWalk(Walk([], q), |q| - k);
  }

  /** A walk gains a level at each name only. */
  lemma {:induction false} WalkGains(dir: Tokens, v: Tokens)
    ensures |Walk(dir, v)| <= |dir| + |v|
    ensures |Walk(dir, v)| == |dir| + |v| ==> Plain(v)
    decreases |v|
  {
    if v != [] {
      WalkGains(Step(dir, v[0]), v[1..]);
      assert v == [v[0]] + v[1..];
    }
  }

  lemma ClimbOn(dir: Tokens, n: nat)
    ensures Climb(dir, n + 1) == Climb(Climb(dir, n), 1)
  {
  }

  /** Climbing as many levels as there were steps leaves nothing but a part of where the walk started. */
  lemma {:induction false} ClimbBack(dir: Tokens, v: Tokens)
    ensures Climb(Walk(dir, v), |v|) <= dir
    decreases |v|
  {
    if v != [] {
      ClimbBack(Step(dir, v[0]), v[1..]);
      ClimbOn(Walk(dir, v), |v| - 1);
    }
  }

  /** All of it exactly if every step was down, or there was nothing above to lose. */
  lemma ClimbsBackExactly(dir: Tokens, v: Tokens)
    ensures Climb(Walk(dir, v), |v|) == dir <==> dir == [] || Plain(v)
  {
    hide Walk, Plain;
    ClimbBack(dir, v);
    WalkGains(dir, v);
    if Plain(v) {
      PlainWalk(dir, v);
      assert (dir + v)[..|dir|] == dir;
    }
  }

  /** The levels a path climbs above where it starts. */
  function Climbs(v: Tokens): nat { Ups(Undotted(Tidied(v))) }

  /** A path leads to the same place from a directory and from a part of it exactly if it climbs out of both. */
  lemma SameFromPart(dir: Tokens, part: Tokens, v: Tokens)
    requires part <= dir && "" !in v
    ensures Walk(part, v) == Walk(dir, v) <==> part == dir || |dir| <= Climbs(v)
  {
    var t := Undotted(Tidied(v));
    assert !Absolute(v);
    hide Walk, Tidied, Undotted, Ups, Normal;
    UndottedTidied(v);
    assert Resolve(dir, t) == Resolve(dir, v) && Resolve(part, t) == Resolve(part, v);
    NormalWalk(dir, t);
    NormalWalk(part, t);
    hide Same;
    assert |dir| <= Ups(t) ==> Climb(part, Ups(t)) == [] == Climb(dir, Ups(t));
  }

  /** The way from `q` leads to `p` exactly if past the shared part `q` has only names, or `p` climbs out of all that
      is shared. */
  lemma WayLeadsExactly(p: Tokens, q: Tokens)
    requires "" !in p
    ensures var k := Shared(p, q);
            Walk(Walk([], q), Way(p, q)) == Walk([], p) <==> Plain(q[k..]) || |Walk([], p[..k])| <= Climbs(p[k..])
  {
    var k := Shared(p, q);
    var top, rest := Walk([], p[..k]), q[k..];
    assert "" !in p[k..];
    hide Shared, Walk, Plain, Ups, Tidied;
    WayWalk(p, q);
    ClimbBack(top, rest);
    ClimbsBackExactly(top, rest);
    SameFromPart(top, Climb(Walk(top, rest), |rest|), p[k..]);
  }

  /** From `/x/b`, written `/x/a/../b`, the way to `/x/c` comes out as `../../../c`. */
  lemma WayCanMiss()
    ensures var (p, q) := (["x", "c"], ["x", "a", Up, "b"]); Walk(Walk([], q), Way(p, q)) != Walk([], p)
  {
    var (p, q) := (["x", "c"], ["x", "a", Up, "b"]);
    SharedIs(p, q, 1);
    assert q[1..][1] == Up;
    assert p[..1] == ["x"] && p[1..] == ["c"] && Plain(["x"]);
    PlainWalk([], ["x"]);
    NormalIsTidy(["c"]);
    WayLeadsExactly(p, q);
  }

  /** From the directory `other` names, the relative path names what `path` names exactly if past the shared part
      `other` has only names, or `path` climbs out of all that is shared. */
  lemma RelativeLeads(path: string, other: string)
    requires path != "" && path[0] == '/' && other != "" && other[0] == '/'
    ensures var (p, q) := (Filled(Split(Slash, path)), Filled(Split(Slash, other)));
            var (rel, k) := (TidyOf(RelativeName(p, q)), Shared(p, q));
            && (Meaning(Meaning([], other), rel) == Meaning([], path) <==>
                  Plain(q[k..]) || |Walk([], p[..k])| <= Climbs(p[k..]))
            && !EndsInSlash(rel)
  {
    var (p, q) := (Filled(Split(Slash, path)), Filled(Split(Slash, other)));
    FilledWalk([], Split(Slash, path));
    FilledWalk([], Split(Slash, other));
    NamesOf(path);
    RelativeNameLeads(p, q, Walk([], q));
    WayLeadsExactly(p, q);
  }

  lemma RelativeNameLeads(p: Tokens, q: Tokens, dir: Tokens)
    requires Names(p)
    ensures Meaning(dir, TidyOf(RelativeName(p, q))) == Walk(dir, Way(p, q))
    ensures !EndsInSlash(TidyOf(RelativeName(p, q)))
  {
    hide Shared, TidyOf, Walk, Meaning;
    var w := Way(p, q);
    var name := RelativeName(p, q);
    WayNames(p, q);
    TidyKeepsMeaning(name);
    TidyKeepsTrail(name);
    assert Meaning(dir, TidyOf(name)) == Meaning(dir, name);
    if w != [] {
      MeaningOfTokens(dir, w);
    } else {
      HereStays(dir);
    }
  }

  lemma HereStays(dir: Tokens)
    ensures Meaning(dir, Here) == dir && Walk(dir, []) == dir
  {
    SplitToken(Here);
    WalkOne(dir, [], Here);
    assert [] + [Here] == [Here];
  }

  // ---------------------------------------------------------------- there and back on tidy paths

  ghost predicate TidyAbsolute(s: string) { s != "" && s[0] == '/' && TidyOf(s) == s }

  lemma {:induction false} FilledPlain(v: Tokens)
    requires Plain(v)
    ensures Filled(v) == v && Filled(v + [""]) == v
  {
    if v != [] {
      assert (v + [""])[1..] == v[1..] + [""];
      FilledPlain(v[1..]);
    } else {
      assert [] + [""] == [""];
    }
  }

  /** A tidy absolute path spells out the directory it names. */
  lemma TidyAbsoluteNames(s: string)
    requires TidyAbsolute(s)
    ensures var v := Filled(Split(Slash, s));
            Plain(v) && v == Meaning([], s) && s == Rebuilt([""] + v, EndsInSlash(s))
  {
    var dir := Walk([], Split(Slash, s));
    FirstToken(s);
    AbsoluteTidied(Split(Slash, s));
    TidyTokensOf(s);
    hide Split, Tidied, Walk;
    assert Plain(dir) by { NamesPlain(dir); }
    FilledPlain(dir);
    RebuiltNames(dir, EndsInSlash(s));
  }

  lemma AbsoluteTidied(v: Tokens)
    requires Absolute(v)
    ensures Tidied(v) == [""] + Walk([], v)
  {
    TidiedKeeps(v, []);
    NormalAbsolute(Tidied(v));
  }

  lemma NamesPlain(dir: Tokens)
    requires Normal([""] + dir)
    ensures Plain(dir)
  {
    var v := [""] + dir;
    assert v[0] != Up;
    assert forall i :: 0 <= i < |dir| ==> dir[i] == v[i + 1];
  }

  lemma RebuiltNames(dir: Tokens, trail: bool)
    requires Plain(dir) && Bare([""] + dir)
    ensures Filled(Split(Slash, Rebuilt([""] + dir, trail))) == dir
  {
    hide Split, Join;
    var v := [""] + dir;
    FilledPlain(dir);
    if dir == [] {
      EmptyWalk([]);
    } else {
      JoinThenSplit(v);
      JoinTrail(v);
      JoinThenSplit(v + [""]);
      assert Join(v) + "" == Join(v);
      assert v[1..] == dir && (v + [""])[1..] == dir + [""];
    }
  }

  function Untrailed(s: string): string { if |s| > 1 && EndsInSlash(s) then s[..|s| - 1] else s }

  /** Appended to `other`, the relative path tidies back to `path`, but for a trailing slash. */
  lemma RelativeRoundTrip(path: string, other: string)
    requires TidyAbsolute(path) && TidyAbsolute(other)
    ensures var rel := TidyOf(RelativeName(Filled(Split(Slash, path)), Filled(Split(Slash, other))));
            TidyOf(other + "/" + rel) == Untrailed(path)
  {
    TidyAbsoluteNames(path);
    TidyAbsoluteNames(other);
    NamesOf(path);
    var (p, q) := (Filled(Split(Slash, path)), Filled(Split(Slash, other)));
    assert Plain(q[Shared(p, q)..]);
    hide Split, Filled, TidyOf, RelativeName, Meaning, Plain, Names, Shared, Untrailed, Rebuilt;
    var rel := TidyOf(RelativeName(p, q));
    RelativeLeads(path, other);
    TidyNameRelative(p, q);
    AppendedTidy(other, rel, p);
    UntrailedIs(p, EndsInSlash(path));
  }

  /** Between tidy paths there is nothing left to tidy. */
  lemma TidyNameRelative(p: Tokens, q: Tokens)
    requires Plain(p) && Names(p)
    ensures var rel := TidyOf(RelativeName(p, q)); rel != "" && rel[0] != '/'
  {
    hide Split, Join, Shared;
    var w := Way(p, q);
    var name := RelativeName(p, q);
    var v := if w == [] then [Here] else w;
    WayNames(p, q);
    SplitToken(Here);
    if w != [] { JoinThenSplit(w); }
    NormalIsTidy(v);
    hide Tidied;
    assert Join([Here]) == Here by { SplitThenJoin(Here); }
    assert Join(v) + "" == Join(v);
    FirstToken(name);
  }

  lemma AppendedTidy(other: string, rel: string, p: Tokens)
    requires other != "" && other[0] == '/' && rel != "" && rel[0] != '/' && !EndsInSlash(rel)
    requires Meaning(Meaning([], other), rel) == p
    ensures TidyOf(other + "/" + rel) == Rebuilt([""] + p, false)
  {
    var x := other + "/" + rel;
    assert x[0] == '/' && !EndsInSlash(x);
    hide Split, Walk, Tidied, Rebuilt, EndsInSlash;
    SplitConcat(other, rel);
    WalkAppend([], Split(Slash, other), Split(Slash, rel));
    FirstToken(x);
    AbsoluteTidied(Split(Slash, x));
  }

  lemma UntrailedIs(p: Tokens, trail: bool)
    requires Plain(p) && Names(p)
    ensures Untrailed(Rebuilt([""] + p, trail)) == Rebuilt([""] + p, false)
  {
    hide Join;
    if p != [] { JoinLast([""] + p); }
  }


  // ---------------------------------------------------------------- no shorter way

  /** The length of the way from `dir` to `p`. */
  function Distance(dir: Tokens, p: Tokens): (d: nat)
    ensures d == |Way(p, dir)|
  {
    |dir| + |p| - 2 * Shared(p, dir)
  }

  lemma {:induction false} SharedGrows(p: Tokens, u: Tokens, t: string)
    ensures Shared(p, u) <= Shared(p, u + [t]) <= Shared(p, u) + 1
    decreases |u|
  {
    if u != [] && p != [] && p[0] == u[0] {
      assert (u + [t])[1..] == u[1..] + [t];
      SharedGrows(p[1..], u[1..], t);
    }
  }

  lemma StepsOne(dir: Tokens, t: string, p: Tokens)
    ensures Distance(dir, p) <= 1 + Distance(Step(dir, t), p)
  {
    hide Shared;
    if dir != [] {
      var up := dir[..|dir| - 1];
      assert up + [dir[|dir| - 1]] == dir;
      SharedGrows(p, up, dir[|dir| - 1]);
    }
    SharedGrows(p, dir, t);
  }

  /** No walk from `dir` to `p` takes fewer steps than the way. */
  lemma {:induction false} WayIsShortest(dir: Tokens, v: Tokens, p: Tokens)
    requires Walk(dir, v) == p
    ensures |Way(p, dir)| <= |v|
    decreases |v|
  {
    if v == [] {
      SharedIs(p, p, |p|);
    } else {
      StepsOne(dir, v[0], p);
      WayIsShortest(Step(dir, v[0]), v[1..], p);
    }
  }
}
