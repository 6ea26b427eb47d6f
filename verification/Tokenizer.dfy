/**
 The tokenizer of src/eckit/utils/Tokenizer.cc and joining tokens with slashes, its inverse on paths.
 */
module Tokenizers {
  type Tokens = seq<string>

  const Slash := {'/'}

  /** Puts `c` in front of the first token. */
  function Widen(c: string, v: Tokens): Tokens
    requires v != []
  {
    [c + v[0]] + v[1..]
  }

  lemma WidenTwice(a: string, b: string, v: Tokens)
    requires v != []
    ensures Widen("", v) == v && Widen(a, Widen(b, v)) == Widen(a + b, v)
  {
    assert a + (b + v[0]) == (a + b) + v[0] && "" + v[0] == v[0];
  }

  /** The tokens between the separators, empty ones included. */
  function Split(separators: set<char>, s: string): (v: Tokens)
    ensures v != []
  {
    if s == "" then [""]
    else if s[0] in separators then [""] + Split(separators, s[1..])
    else Widen([s[0]], Split(separators, s[1..]))
  }

  function Filled(v: Tokens): Tokens {
    if v == [] then [] else (if v[0] == "" then [] else [v[0]]) + Filled(v[1..])
  }

  lemma {:induction false} FilledAppend(u: Tokens, v: Tokens)
    ensures Filled(u + v) == Filled(u) + Filled(v)
  {
    if u == [] {
      assert u + v == v;
    } else {
      assert (u + v)[1..] == u[1..] + v;
      FilledAppend(u[1..], v);
    }
  }

  lemma SplitStep(separators: set<char>, raw: string, index: nat, token: string)
    requires index < |raw|
    ensures var rest := Split(separators, raw[index + 1..]);
            Widen(token, Split(separators, raw[index..])) ==
              if raw[index] in separators then [token] + Widen("", rest) else Widen(token + [raw[index]], rest)
  {
    var s := raw[index..];
    assert s[0] == raw[index] && s[1..] == raw[index + 1..];
    var rest := Split(separators, s[1..]);
    WidenTwice(token, [raw[index]], rest);
    assert token + "" == token && ([""] + rest)[1..] == rest;
  }

  lemma SplitEnd(separators: set<char>, token: string)
    ensures Widen(token, Split(separators, "")) == [token] && Split(separators, "") == [""]
    ensures Filled([]) == [] && Filled([token]) == if token == "" then [] else [token]
  {
    assert token + "" == token;
  }

  /** The tokens that are kept. */
  function Kept(v: Tokens, keepEmpty: bool): Tokens { if keepEmpty then v else Filled(v) }

  lemma KeptOneMore(v: Tokens, token: string, keepEmpty: bool)
    ensures Kept(v + [token], keepEmpty) == Kept(v, keepEmpty) + if |token| > 0 || keepEmpty then [token] else []
  {
    hide Filled;
    FilledAppend(v, [token]);
    SplitEnd({}, token);
  }

  /** After `index` characters `all` has been split off and `token` is under way. */
  ghost predicate Under(separators: set<char>, raw: string, index: nat, all: Tokens, token: string)
    requires index <= |raw|
  {
    all + Widen(token, Split(separators, raw[index..])) == Split(separators, raw)
  }

  lemma UnderStarts(separators: set<char>, raw: string)
    ensures Under(separators, raw, 0, [], "")
  {
    assert raw[0..] == raw;
    WidenTwice("", "", Split(separators, raw));
  }

  lemma UnderNext(separators: set<char>, raw: string, index: nat, all: Tokens, token: string)
    requires index < |raw| && Under(separators, raw, index, all, token)
    ensures if raw[index] in separators then Under(separators, raw, index + 1, all + [token], "")
            else Under(separators, raw, index + 1, all, token + [raw[index]])
  {
    hide Split, Widen;
    SplitStep(separators, raw, index, token);
    var rest := Widen("", Split(separators, raw[index + 1..]));
    assert all + ([token] + rest) == (all + [token]) + rest;
  }

  lemma UnderEnds(separators: set<char>, raw: string, all: Tokens, token: string)
    requires Under(separators, raw, |raw|, all, token)
    ensures all + [token] == Split(separators, raw)
  {
    hide Split, Widen;
    assert raw[|raw|..] == "";
    SplitEnd(separators, token);
  }

  method Tokenize(separators: set<char>, raw: string, keepEmpty: bool) returns (v: Tokens)
    ensures v == Kept(Split(separators, raw), keepEmpty)
  {
    v := [];
    var token := "";
    ghost var all: Tokens := [];
    assert Kept([], keepEmpty) == [];
    hide Under, Kept, Split;
    UnderStarts(separators, raw);
    for index := 0 to |raw|
      invariant Under(separators, raw, index, all, token) && v == Kept(all, keepEmpty)
    {
      var c := raw[index];
      UnderNext(separators, raw, index, all, token);
      if c in separators {
        KeptOneMore(all, token, keepEmpty);
        if |token| > 0 || keepEmpty { v := v + [token]; }
        all := all + [token];
        token := "";
      } else {
        token := token + [c];
      }
    }
    UnderEnds(separators, raw, all, token);
    KeptOneMore(all, token, keepEmpty);
    if |token| > 0 || keepEmpty { v := v + [token]; }
  }

  // ---------------------------------------------------------------- any separators

  /** The separators of a string, in order. */
  ghost function Marks(separators: set<char>, s: string): string {
    if s == "" then "" else (if s[0] in separators then [s[0]] else "") + Marks(separators, s[1..])
  }

  /** Tokens with one separator between each and the next. */
  ghost function Woven(v: Tokens, marks: string): string
    requires |v| == |marks| + 1
    decreases |v|
  {
    if marks == "" then v[0] else v[0] + ([marks[0]] + Woven(v[1..], marks[1..]))
  }

  ghost predicate Clear(separators: set<char>, v: Tokens) {
    forall i, j :: 0 <= i < |v| && 0 <= j < |v[i]| ==> v[i][j] !in separators
  }

  lemma WidenWoven(c: string, v: Tokens, marks: string)
    requires |v| == |marks| + 1
    ensures Woven(Widen(c, v), marks) == c + Woven(v, marks)
  {
    assert Widen(c, v)[1..] == v[1..];
    if marks != "" {
      assert (c + v[0]) + ([marks[0]] + Woven(v[1..], marks[1..])) ==
             c + (v[0] + ([marks[0]] + Woven(v[1..], marks[1..])));
    }
  }

  /** The tokens hold no separator and, with the separators between them, are the string. */
  lemma {:induction false} SplitThenWeave(separators: set<char>, s: string)
    ensures var (v, marks) := (Split(separators, s), Marks(separators, s));
            Clear(separators, v) && |v| == |marks| + 1 && Woven(v, marks) == s
  {
    if s != "" {
      SplitThenWeave(separators, s[1..]);
      var v, marks := Split(separators, s[1..]), Marks(separators, s[1..]);
      assert [s[0]] + s[1..] == s;
      if s[0] in separators {
        assert ([""] + v)[1..] == v && ([s[0]] + marks)[1..] == marks;
      } else {
        WidenWoven([s[0]], v, marks);
        assert "" + marks == marks;
      }
    }
  }

  /** Whatever separator-free tokens are put together, splitting takes them apart again. */
  lemma {:induction false} WeaveThenSplit(separators: set<char>, v: Tokens, marks: string)
    requires |v| == |marks| + 1 && Clear(separators, v) && forall i :: 0 <= i < |marks| ==> marks[i] in separators
    ensures Split(separators, Woven(v, marks)) == v
    decreases |v|, |v[0]|
  {
    var s := Woven(v, marks);
    if v[0] != "" {
      var u := [v[0][1..]] + v[1..];
      assert Widen([v[0][0]], u) == v by { assert [v[0][0]] + v[0][1..] == v[0]; }
      WidenWoven([v[0][0]], u, marks);
      WeaveThenSplit(separators, u, marks);
      assert s[0] == v[0][0] && s[1..] == Woven(u, marks);
      assert v[0][0] !in separators;
    } else if marks != "" {
      WeaveThenSplit(separators, v[1..], marks[1..]);
      assert s[0] == marks[0] && s[1..] == Woven(v[1..], marks[1..]);
      assert [""] + v[1..] == v;
    } else {
      assert v == [""];
    }
  }

  // ---------------------------------------------------------------- slashes

  /** The loop of `rebuild_path`. */
  function Join(v: Tokens): string {
    if v == [] then "" else if |v| == 1 then v[0] else v[0] + "/" + Join(v[1..])
  }

  predicate Bare(v: Tokens) { forall i :: 0 <= i < |v| ==> '/' !in v[i] }

  lemma {:induction false} SplitThenJoin(s: string)
    ensures Bare(Split(Slash, s)) && Join(Split(Slash, s)) == s
  {
    if s != "" {
      SplitThenJoin(s[1..]);
      var v := Split(Slash, s[1..]);
      if s[0] != '/' {
        var w := Widen([s[0]], v);
        assert w[1..] == v[1..];
        assert Join(w) == [s[0]] + Join(v);
      }
    }
  }

  lemma {:induction false} SplitToken(t: string)
    requires '/' !in t
    ensures Split(Slash, t) == [t]
  {
    if t != "" {
      SplitToken(t[1..]);
      assert [t[0]] + t[1..] == t;
    }
  }

  /** A slash between two strings separates their tokens. */
  lemma {:induction false} SplitConcat(a: string, b: string)
    ensures Split(Slash, a + "/" + b) == Split(Slash, a) + Split(Slash, b)
  {
    hide Split;
    var s := a + "/" + b;
    SplitFirst(Slash, s);
    if a == "" {
      SplitEnd(Slash, "");
      assert s[1..] == b;
    } else {
      assert s[1..] == a[1..] + "/" + b && a[0] == s[0];
      SplitConcat(a[1..], b);
      SplitFirst(Slash, a);
      WidenConcat([a[0]], Split(Slash, a[1..]), Split(Slash, b));
    }
  }

  lemma WidenConcat(c: string, u: Tokens, v: Tokens)
    requires u != []
    ensures [""] + (u + v) == ([""] + u) + v && Widen(c, u + v) == Widen(c, u) + v
  {
  }

  lemma SplitFirst(separators: set<char>, s: string)
    requires s != ""
    ensures Split(separators, s) ==
              if s[0] in separators then [""] + Split(separators, s[1..]) else Widen([s[0]], Split(separators, s[1..]))
  {
  }

  lemma {:induction false} JoinThenSplit(v: Tokens)
    requires v != [] && Bare(v)
    ensures Split(Slash, Join(v)) == v
  {
    if |v| == 1 {
      SplitToken(v[0]);
    } else {
      SplitToken(v[0]);
      SplitConcat(v[0], Join(v[1..]));
      JoinThenSplit(v[1..]);
    }
  }
}
