/**
 The lexical side of path names: `tidy` of src/eckit/filesystem/LocalPathName.cc.
 */
module Paths {
  import opened Tokenizers

  const Here := "."
  const Up := ".."

  // ---------------------------------------------------------------- what a path means

  function Step(dir: Tokens, t: string): Tokens {
    if t == "" || t == Here then dir
    else if t == Up then if dir == [] then [] else dir[..|dir| - 1]
    else dir + [t]
  }

  /** Where the components of `v` lead from directory `dir`, one at a time. */
  function Walk(dir: Tokens, v: Tokens): Tokens
    decreases |v|
  {
    if v == [] then dir else Walk(Step(dir, v[0]), v[1..])
  }

  predicate Absolute(v: Tokens) { v != [] && v[0] == "" }

  function Resolve(dir: Tokens, v: Tokens): Tokens { Walk(if Absolute(v) then [] else dir, v) }

  /** The directory, from the root down, that path `s` names when looked up in `dir`. */
  function Meaning(dir: Tokens, s: string): Tokens {
    Walk(if s != "" && s[0] == '/' then [] else dir, Split(Slash, s))
  }

  lemma {:induction false} WalkAppend(dir: Tokens, u: Tokens, v: Tokens)
    ensures Walk(dir, u + v) == Walk(Walk(dir, u), v)
    decreases |u|
  {
    if u == [] {
      assert u + v == v;
    } else {
      assert (u + v)[1..] == u[1..] + v;
      WalkAppend(Step(dir, u[0]), u[1..], v);
    }
  }

  lemma WalkOne(dir: Tokens, v: Tokens, t: string)
    ensures Walk(dir, v + [t]) == Step(Walk(dir, v), t)
  {
    WalkAppend(dir, v, [t]);
  }

  // ---------------------------------------------------------------- tidying tokens

  /** One turn of the loop in `tidy_path_tokens`. */
  function Push(absolute: bool, path: Tokens, s: string): Tokens {
    if s == "" || s == Here then path
    else if s == Up then
      if path == [] then if absolute then path else [s]
      else
        var back := path[|path| - 1];
        if back == Up then path + [s]
        else if back == "" then path
        else if back == Here then path[..|path| - 1] + [s]
        else path[..|path| - 1]
    else path + [s]
  }

  function PushAll(absolute: bool, path: Tokens, v: Tokens): Tokens
    decreases |v|
  {
    if v == [] then path else PushAll(absolute, Push(absolute, path, v[0]), v[1..])
  }

  function Tidied(v: Tokens): Tokens {
    if v == [] then [] else PushAll(v[0] == "", [v[0]], v[1..])
  }

  method TidyTokens(v: Tokens) returns (r: Tokens)
    ensures r == Tidied(v)
  {
    if v == [] { return v; }
    var absolute := v[0] == "";
    var path := [v[0]];
    for i := 1 to |v|
      invariant PushAll(absolute, path, v[i..]) == Tidied(v)
    {
      var s := v[i];
      assert v[i..][0] == s && v[i..][1..] == v[i + 1..];
      assert PushAll(absolute, path, v[i..]) == PushAll(absolute, Push(absolute, path, s), v[i + 1..]);
      if s == "" || s == Here { continue; }
      if s == Up {
        if path != [] {
          var back := path[|path| - 1];
          if back == Up {
            path := path + [s];
          } else if back == "" {
          } else if back == Here {
            path := path[..|path| - 1] + [s];
          } else {
            path := path[..|path| - 1];
          }
        } else if !absolute {
          path := path + [s];
          assert path == [s];
        }
        continue;
      }
      path := path + [s];
    }
    return path;
  }

  /** Nothing to skip after the first token, and `..` only in an unbroken run at the front. */
  ghost predicate Normal(v: Tokens) {
    && (forall i :: 0 < i < |v| ==> v[i] != "" && v[i] != Here)
    && (forall i, j :: 0 <= j < i < |v| && v[i] == Up ==> v[j] == Up)
  }

  /** Only names: no token to skip and no `..`. */
  ghost predicate Plain(v: Tokens) { "" !in v && Here !in v && Up !in v }

  lemma PushKeeps(dir: Tokens, path: Tokens, s: string)
    requires Normal(path) && (Absolute(path) ==> dir == [])
    ensures var r := Push(Absolute(path), path, s);
            Normal(r) && Absolute(r) == Absolute(path) && Walk(dir, r) == Step(Walk(dir, path), s)
  {
    PushNormal(path, s);
    hide Normal;
    if s == Up && path != [] {
      PushUp(dir, path);
    } else {
      WalkOne(dir, path, s);
      hide Walk;
    }
  }

  lemma PushNormal(path: Tokens, s: string)
    requires Normal(path)
    ensures Normal(Push(Absolute(path), path, s)) && Absolute(Push(Absolute(path), path, s)) == Absolute(path)
    ensures path != [] && (path[|path| - 1] == "" || path[|path| - 1] == Here) ==> path == [path[0]]
  {
  }

  lemma PushUp(dir: Tokens, path: Tokens)
    requires path != [] && (Absolute(path) ==> dir == [])
    requires path[|path| - 1] == "" || path[|path| - 1] == Here ==> path == [path[0]]
    ensures Walk(dir, Push(Absolute(path), path, Up)) == Step(Walk(dir, path), Up)
  {
    var p, back := path[..|path| - 1], path[|path| - 1];
    assert path == p + [back];
    WalkOne(dir, p, back);
    WalkOne(dir, p, Up);
    WalkOne(dir, path, Up);
    assert Walk(dir, []) == dir;
    hide Walk;
  }

  lemma {:induction false} PushAllKeeps(dir: Tokens, path: Tokens, v: Tokens)
    requires Normal(path) && (Absolute(path) ==> dir == [])
    ensures var r := PushAll(Absolute(path), path, v);
            Normal(r) && Absolute(r) == Absolute(path) && Walk(dir, r) == Walk(Walk(dir, path), v)
    decreases |v|
  {
    hide Push, Normal;
    if v != [] {
      PushKeeps(dir, path, v[0]);
      PushAllKeeps(dir, Push(Absolute(path), path, v[0]), v[1..]);
    }
  }

  /** Tidying leads from every directory where the path led, and leaves nothing to tidy. */
  lemma TidiedKeeps(v: Tokens, dir: Tokens)
    ensures Resolve(dir, Tidied(v)) == Resolve(dir, v) && Normal(Tidied(v)) && Absolute(Tidied(v)) == Absolute(v)
  {
    if v != [] {
      var from := if v[0] == "" then [] else dir;
      PushAllKeeps(from, [v[0]], v[1..]);
      assert [v[0]] + v[1..] == v;
      WalkAppend(from, [v[0]], v[1..]);
    }
  }

  /** A leading `.` stays unless a `..` takes its place, and there is no other `.`. */
  lemma {:induction false} DotKept(absolute: bool, path: Tokens, v: Tokens)
    requires Normal(path) && absolute == Absolute(path)
    ensures var r := PushAll(absolute, path, v);
            && (path != [] && path[0] == Here ==> r != [] && (r[0] == Here || r[0] == Up))
            && (Here !in path ==> Here !in r)
            && (path != [] && path[0] == Up ==> r != [] && r[0] == Up)
    decreases |v|
  {
    if v != [] {
      PushKeeps([], path, v[0]);
      DotKept(absolute, Push(absolute, path, v[0]), v[1..]);
    }
  }

  /** A normal path is left alone. */
  lemma {:induction false} PushAllNormal(absolute: bool, path: Tokens, v: Tokens)
    requires path != [] && Normal(path + v)
    ensures PushAll(absolute, path, v) == path + v
    decreases |v|
  {
    if v != [] {
      var n := |path|;
      assert (path + v)[n] == v[0] && (path + v)[n - 1] == path[n - 1];
      assert path + v == (path + [v[0]]) + v[1..];
      PushAllNormal(absolute, path + [v[0]], v[1..]);
    } else {
      assert path + v == path;
    }
  }

  lemma NormalIsTidy(v: Tokens)
    requires Normal(v)
    ensures Tidied(v) == v
  {
    if v != [] {
      assert [v[0]] + v[1..] == v;
      PushAllNormal(v[0] == "", [v[0]], v[1..]);
    }
  }

  // ---------------------------------------------------------------- tidying decides sameness

  function Ups(v: Tokens): (n: nat)
    ensures n <= |v|
  {
    if v != [] && v[0] == Up then 1 + Ups(v[1..]) else 0
  }

  function Climb(dir: Tokens, n: nat): Tokens { if n <= |dir| then dir[..|dir| - n] else [] }

  lemma {:induction false} PlainWalk(dir: Tokens, v: Tokens)
    requires Plain(v)
    ensures Walk(dir, v) == dir + v
    decreases |v|
  {
    if v != [] {
      PlainWalk(dir + [v[0]], v[1..]);
      assert (dir + [v[0]]) + v[1..] == dir + v;
    }
  }

  /** A normal relative path climbs, then descends. */
  lemma {:induction false} NormalWalk(dir: Tokens, v: Tokens)
    requires Normal(v) && (v != [] ==> v[0] != "" && v[0] != Here)
    ensures Walk(dir, v) == Climb(dir, Ups(v)) + v[Ups(v)..]
    ensures forall i :: 0 <= i < Ups(v) ==> v[i] == Up
    decreases |v|
  {
    if v != [] && v[0] == Up {
      NormalWalk(Step(dir, Up), v[1..]);
      var n := Ups(v[1..]);
      assert v[1..][n..] == v[n + 1..] && Climb(Step(dir, Up), n) == Climb(dir, n + 1);
    } else {
      assert Plain(v);
      PlainWalk(dir, v);
    }
  }

  /** A normal absolute path spells out the directory it names. */
  lemma NormalAbsolute(v: Tokens)
    requires Normal(v) && Absolute(v)
    ensures v == [""] + Walk([], v)
  {
    assert Plain(v[1..]) by {
      assert v[0] != Up;
    }
    PlainWalk([], v[1..]);
    assert v == [""] + v[1..];
  }

  /** `v` leads to the same place as `u` from every directory. */
  ghost predicate Same(u: Tokens, v: Tokens) { forall dir :: Resolve(dir, u) == Resolve(dir, v) }

  ghost predicate Relative(v: Tokens) { Normal(v) && (v != [] ==> v[0] != "" && v[0] != Here) }

  lemma SameTail(u: Tokens, v: Tokens)
    requires Relative(u) && Relative(v) && Same(u, v)
    ensures u[Ups(u)..] == v[Ups(v)..]
  {
    hide Walk, Normal, Ups;
    assert Resolve([], u) == Resolve([], v);
    NormalWalk([], u);
    NormalWalk([], v);
    assert forall x: Tokens :: [] + x == x;
  }

  lemma SameUps(u: Tokens, v: Tokens)
    requires Relative(u) && Relative(v) && Same(u, v)
    ensures Ups(u) == Ups(v)
  {
    SameTail(u, v);
    hide Walk, Normal, Ups;
    var dir: Tokens := seq(Ups(u) + Ups(v), _ => "x");
    assert Resolve(dir, u) == Resolve(dir, v);
    NormalWalk(dir, u);
    NormalWalk(dir, v);
    hide Same;
    assert |Climb(dir, Ups(u))| == Ups(v) && |Climb(dir, Ups(v))| == Ups(u);
  }

  lemma SameRelative(u: Tokens, v: Tokens)
    requires Relative(u) && Relative(v) && Same(u, v)
    ensures u == v
  {
    SameTail(u, v);
    SameUps(u, v);
    NormalWalk([], u);
    NormalWalk([], v);
    hide Same, Normal, Ups, Walk;
    assert u == u[..Ups(u)] + u[Ups(u)..] && v == v[..Ups(v)] + v[Ups(v)..];
  }

  lemma OtherKind(u: Tokens, v: Tokens)
    requires Relative(v) && Absolute(u)
    ensures !Same(u, v) && !Same(v, u)
  {
    hide Walk, Normal;
    var dir: Tokens := seq(Ups(v) + 1, _ => "x");
    NormalWalk([], v);
    NormalWalk(dir, v);
    assert Resolve([], u) == Resolve(dir, u);
    assert |Resolve([], v)| < |Resolve(dir, v)|;
  }

  function Undotted(v: Tokens): Tokens { if v != [] && v[0] == Here then v[1..] else v }

  lemma UndottedTidied(v: Tokens)
    ensures var r := Undotted(Tidied(v));
            Normal(r) && Absolute(r) == Absolute(v) && (r != [] ==> r[0] != Here) && Same(r, v)
  {
    hide Tidied;
    var t := Tidied(v);
    TidiedKeeps(v, []);
    forall dir ensures Resolve(dir, Undotted(t)) == Resolve(dir, v) {
      TidiedKeeps(v, dir);
    }
  }

  /** Two paths lead to the same place from every directory exactly when they tidy to the same tokens, up to a leading
      `.`. */
  lemma TidyDecides(u: Tokens, v: Tokens)
    ensures Same(u, v) <==> Undotted(Tidied(u)) == Undotted(Tidied(v))
  {
    hide Undotted, Normal, Walk, Tidied;
    UndottedTidied(u);
    UndottedTidied(v);
    var (a, b) := (Undotted(Tidied(u)), Undotted(Tidied(v)));
    if Same(u, v) {
      assert Same(a, b);
      if Absolute(a) && Absolute(b) {
        NormalAbsolute(a);
        NormalAbsolute(b);
        assert Resolve([], a) == Resolve([], b);
      } else if Absolute(a) {
        OtherKind(a, b);
      } else if Absolute(b) {
        OtherKind(b, a);
      } else {
        SameRelative(a, b);
      }
    }
  }

  // ---------------------------------------------------------------- tidying strings

  predicate EndsInSlash(s: string) { s != "" && s[|s| - 1] == '/' }

  function Rebuilt(v: Tokens, trail: bool): string {
    if v == [""] then "/" else Join(v) + if trail then "/" else ""
  }

  function TidyOf(s: string): string {
    if s == "" then "" else Rebuilt(Tidied(Split(Slash, s)), EndsInSlash(s))
  }

  method RebuildPath(v: Tokens, trail: bool) returns (path: string)
    ensures path == Rebuilt(v, trail)
  {
    path := "";
    if |v| == 1 && v[0] == "" { return "/"; }
    for i := 0 to |v|
      invariant path + Join(v[i..]) == Join(v)
    {
      assert v[i..][0] == v[i] && v[i..][1..] == v[i + 1..];
      assert i == |v| - 1 ==> v[i + 1..] == [];
      path := path + v[i];
      if i != |v| - 1 { path := path + "/"; }
    }
    assert v[|v|..] == [] && path + "" == path;
    if trail { path := path + "/"; }
  }

  /** `tidy`, but for the expansion of a leading `~`. */
  method Tidy(path: string) returns (r: string)
    ensures r == TidyOf(path)
  {
    if |path| == 0 { return path; }
    var trail := path[|path| - 1] == '/';
    var tokens := Tokenize(Slash, path, true);
    tokens := TidyTokens(tokens);
    r := RebuildPath(tokens, trail);
  }

  lemma {:induction false} PushAllBare(absolute: bool, path: Tokens, v: Tokens)
    requires Bare(path) && Bare(v)
    ensures Bare(PushAll(absolute, path, v))
    decreases |v|
  {
    if v != [] { PushAllBare(absolute, Push(absolute, path, v[0]), v[1..]); }
  }

  /** The tokens a path tidies to. */
  lemma TidyTokensOf(s: string)
    ensures var v := Tidied(Split(Slash, s)); Bare(v) && Normal(v) && Absolute(v) == Absolute(Split(Slash, s))
  {
    SplitThenJoin(s);
    var v := Split(Slash, s);
    PushAllBare(v[0] == "", [v[0]], v[1..]);
    TidiedKeeps(v, []);
  }

  lemma EmptyWalk(dir: Tokens)
    ensures Walk(dir, [""]) == dir && Walk(dir, ["", ""]) == dir
    ensures Split(Slash, "/") == ["", ""] && "" + "/" == "/" && "" + "" == ""
  {
  }

  lemma MeaningOfTokens(dir: Tokens, v: Tokens)
    requires Bare(v) && v != [""]
    ensures Meaning(dir, Join(v)) == Resolve(dir, v)
  {
    EmptyWalk(dir);
    if v != [] { JoinThenSplit(v); }
  }

  lemma MeaningIsResolve(dir: Tokens, s: string)
    ensures Meaning(dir, s) == if s == "" then dir else Resolve(dir, Split(Slash, s))
  {
    EmptyWalk(dir);
    SplitThenJoin(s);
    if s != "" { MeaningOfTokens(dir, Split(Slash, s)); }
  }

  lemma {:induction false} JoinTrail(v: Tokens)
    requires v != []
    ensures Join(v) + "/" == Join(v + [""])
  {
    if |v| > 1 {
      JoinTrail(v[1..]);
      assert (v + [""])[1..] == v[1..] + [""];
    }
  }

  lemma {:induction false} JoinLast(v: Tokens)
    requires v != [] && v[|v| - 1] != "" && Bare(v)
    ensures Join(v) != "" && !EndsInSlash(Join(v))
  {
    if |v| > 1 { JoinLast(v[1..]); }
  }

  lemma RebuiltMeaning(dir: Tokens, v: Tokens, trail: bool)
    requires Bare(v)
    ensures Meaning(dir, Rebuilt(v, trail)) == if v == [] && trail then [] else Resolve(dir, v)
  {
    if v == [""] || v == [] {
      EmptyWalk(dir);
      EmptyWalk([]);
    } else if trail {
      JoinTrail(v);
      MeaningOfTokens(dir, v + [""]);
      WalkOne(if Absolute(v) then [] else dir, v, "");
    } else {
      assert Join(v) + "" == Join(v);
      MeaningOfTokens(dir, v);
    }
  }

  /** Tidying keeps what a path means exactly when the path does not cancel out before a trailing slash. */
  lemma TidyKeepsMeaning(s: string)
    ensures (forall dir :: Meaning(dir, TidyOf(s)) == Meaning(dir, s))
       <==> !(EndsInSlash(s) && Tidied(Split(Slash, s)) == [])
  {
    hide Meaning, Split, Tidied, Rebuilt, Resolve;
    var u := Split(Slash, s);
    var v := Tidied(u);
    TidyTokensOf(s);
    forall dir
      ensures Meaning(dir, s) == if s == "" then dir else Resolve(dir, v)
      ensures s != "" ==> Meaning(dir, TidyOf(s)) == if EndsInSlash(s) && v == [] then [] else Resolve(dir, v)
    {
      MeaningIsResolve(dir, s);
      TidiedKeeps(u, dir);
      RebuiltMeaning(dir, v, EndsInSlash(s));
    }
    assert Resolve(["x"], []) == ["x"] by { NothingWalked(["x"]); }
    assert v == [] && EndsInSlash(s) ==> Meaning(["x"], TidyOf(s)) != Meaning(["x"], s);
  }

  lemma NothingWalked(dir: Tokens)
    ensures Resolve(dir, []) == dir
  {
  }

  /** A path cancels out exactly when it leads nowhere from every directory and does not start with `.`. */
  lemma CancelsOut(v: Tokens)
    requires v != []
    ensures Tidied(v) == [] <==> v[0] != Here && forall dir :: Resolve(dir, v) == dir
  {
    var t := Tidied(v);
    TidyDecides(v, []);
    DotKept(v[0] == "", [v[0]], v[1..]);
    assert Same(v, []) <==> forall dir :: Resolve(dir, v) == dir by {
      forall dir ensures Resolve(dir, []) == dir { }
    }
    assert t != [] && t[0] == Here && t[1..] == [] ==> Here in t;
  }

  /** `a/../` becomes `/`. */
  lemma TidyCanJumpToRoot()
    ensures TidyOf("a/../") == "/" && Meaning(["x"], "a/../") == ["x"] && Meaning(["x"], "/") == []
  {
    var v := ["a", "..", ""];
    assert Join(["..", ""]) == "../" && Join(v) == "a" + "/" + "../";
    assert Join(v) == "a/../";
    JoinThenSplit(v);
    assert v[1..] == ["..", ""] && v[1..][1..] == [""];
    assert Tidied(v) == [];
    assert Split(Slash, "/") == ["", ""];
  }

  /** Tidying twice is tidying once. */
  lemma TidyIdempotent(s: string)
    ensures TidyOf(TidyOf(s)) == TidyOf(s)
  {
    hide Split, Normal;
    if s != "" {
      TidyTokensOf(s);
      RebuiltIsTidy(Tidied(Split(Slash, s)), EndsInSlash(s));
    }
  }

  lemma LastFilled(v: Tokens)
    requires Normal(v) && v != [] && v != [""]
    ensures v[|v| - 1] != ""
  {
  }

  lemma RebuiltIsTidy(v: Tokens, trail: bool)
    requires Bare(v) && Normal(v)
    ensures TidyOf(Rebuilt(v, trail)) == Rebuilt(v, trail)
  {
    hide Split, Tidied;
    if v == [] || v == [""] {
      RootIsTidy();
      EmptyWalk([]);
    } else {
      LastFilled(v);
      JoinLast(v);
      NormalIsTidy(v);
      TrailTidied(v);
      JoinTrail(v);
      JoinThenSplit(v);
      JoinThenSplit(v + [""]);
      assert Join(v) + "" == Join(v);
    }
  }

  lemma RootIsTidy()
    ensures TidyOf("/") == "/"
  {
    EmptyWalk([]);
    assert ["", ""][1..] == [""] && [""][1..] == [];
  }

  lemma TrailTidied(v: Tokens)
    requires v != []
    ensures Tidied(v + [""]) == Tidied(v)
  {
    assert (v + [""])[1..] == v[1..] + [""];
    PushAllTrail(v[0] == "", [v[0]], v[1..]);
  }

  lemma {:induction false} PushAllTrail(absolute: bool, path: Tokens, v: Tokens)
    ensures PushAll(absolute, path, v + [""]) == PushAll(absolute, path, v)
    decreases |v|
  {
    if v != [] {
      assert (v + [""])[1..] == v[1..] + [""];
      PushAllTrail(absolute, Push(absolute, path, v[0]), v[1..]);
    }
  }

  /** A trailing slash is kept, and none is added except where an absolute path names the root. */
  lemma TidyKeepsTrail(s: string)
    ensures EndsInSlash(TidyOf(s)) <==> EndsInSlash(s) || (s != "" && s[0] == '/' && Meaning([], s) == [])
  {
    hide Split, Normal, Tidied, Walk;
    var v := Tidied(Split(Slash, s));
    TidyTokensOf(s);
    TidiedKeeps(Split(Slash, s), []);
    FirstToken(s);
    if s != "" && v != [] {
      if Absolute(v) { NormalAbsolute(v); }
      if v != [""] {
        LastFilled(v);
        JoinLast(v);
      }
    }
  }

  lemma FirstToken(s: string)
    ensures Absolute(Split(Slash, s)) <==> s == "" || s[0] == '/'
  {
  }
}
