/**
 The byte trie of src/eckit/container/Trie.cc. Every node keeps its children in a window of consecutive byte values
 that grows on either side and is dropped when the last child goes.
 */
module Tries {
  import opened Common

  type Value(==, !new)

  /** A byte of a key; keys end before the first NUL. */
  type Byte = b: int | 1 <= b <= 255 witness 1
  type Key = seq<Byte>

  /** The shape of a trie as a value; `value` is `value_` guarded by `set_`. */
  datatype Node = Node(from: nat, value: Option<Value>, kids: seq<Option<Node>>)

  const Blank := Node(0, None, [])

  /** What a window that starts at `from` holds for byte `c`. */
  function InWindow<T>(from: nat, kids: seq<T>, none: T, c: int): T {
    if from <= c < from + |kids| then kids[c - from] else none
  }

  /** The window grown, on either side, to cover byte `c`. */
  function Grow<T>(from: nat, kids: seq<T>, none: T, c: Byte): (r: (nat, seq<T>))
    ensures r.0 <= c < r.0 + |r.1|
    ensures forall d: int :: InWindow(r.0, r.1, none, d) == InWindow(from, kids, none, d)
  {
    var pos := c - from;
    if 0 <= pos < |kids| then (from, kids)
    else if kids == [] then (c, [none])
    else if pos < 0 then (c, seq(-pos, _ => none) + kids)
    else (from, kids + seq(pos + 1 - |kids|, _ => none))
  }

  function Kid(n: Node, c: int): Option<Node> { InWindow(n.from, n.kids, None, c) }

  ghost predicate Live(n: Node) { n.value.Some? || n.kids != [] }

  /** Windows stay within byte range and are never without a child; every child holds something. */
  ghost predicate Wellformed(n: Node) {
    && (n.kids != [] ==> 1 <= n.from && n.from + |n.kids| <= 256 && exists i :: 0 <= i < |n.kids| && n.kids[i].Some?)
    && forall i :: 0 <= i < |n.kids| && n.kids[i].Some? ==> Live(n.kids[i].value) && Wellformed(n.kids[i].value)
  }

  function Get(n: Node, key: Key): Option<Value> {
    if key == [] then n.value
    else if Kid(n, key[0]).Some? then Get(Kid(n, key[0]).value, key[1..])
    else None
  }

  // ---------------------------------------------------------------- inserting

  function Grown(n: Node, c: Byte): (r: Node)
    ensures r.from <= c < r.from + |r.kids| && r.value == n.value
    ensures forall d: int :: Kid(r, d) == Kid(n, d)
  {
    var (from, kids) := Grow(n.from, n.kids, None, c);
    n.(from := from, kids := kids)
  }

  function Put(n: Node, key: Key, v: Value): Node
    decreases |key|
  {
    if key == [] then n.(value := Some(v))
    else
      var g := Grown(n, key[0]);
      var pos := key[0] - g.from;
      var kid := if g.kids[pos].Some? then g.kids[pos].value else Blank;
      g.(kids := g.kids[pos := Some(Put(kid, key[1..], v))])
  }

  /** Inserting below byte `key[0]` changes the child for that byte only. */
  lemma PutBelow(n: Node, key: Key, v: Value, c: int)
    requires key != []
    ensures var old_ := Kid(n, key[0]);
            Kid(Put(n, key, v), c) ==
              if c == key[0] then Some(Put(if old_.Some? then old_.value else Blank, key[1..], v)) else Kid(n, c)
  {
    var g := Grown(n, key[0]);
    assert Kid(n, key[0]) == Kid(g, key[0]) && Kid(n, c) == Kid(g, c);
    hide Grown;
  }

  lemma {:induction false} GetAfterPut(n: Node, key: Key, v: Value, k: Key)
    ensures Get(Put(n, key, v), k) == if k == key then Some(v) else Get(n, k)
    decreases |key|
  {
    if key != [] && k != [] {
      PutBelow(n, key, v, k[0]);
      if k[0] == key[0] {
        var old_ := Kid(n, key[0]);
        GetAfterPut(if old_.Some? then old_.value else Blank, key[1..], v, k[1..]);
        assert k == [k[0]] + k[1..] && key == [key[0]] + key[1..];
        GetBlank(k[1..]);
      }
      hide Put, Kid;
    }
  }

  lemma GetBlank(k: Key)
    ensures Get(Blank, k) == None
  {
  }

  lemma {:induction false} PutKeeps(n: Node, key: Key, v: Value)
    requires Wellformed(n)
    ensures Wellformed(Put(n, key, v)) && Live(Put(n, key, v))
    decreases |key|
  {
    if key != [] {
      var g := Grown(n, key[0]);
      var pos := key[0] - g.from;
      GrownKeeps(n, key[0]);
      var kid := if g.kids[pos].Some? then g.kids[pos].value else Blank;
      PutKeeps(kid, key[1..], v);
      assert Put(n, key, v).kids[pos].Some?;
    }
  }

  lemma GrownKeeps(n: Node, c: Byte)
    requires Wellformed(n)
    ensures var g := Grown(n, c);
            && 1 <= g.from && g.from + |g.kids| <= 256
            && forall i :: 0 <= i < |g.kids| && g.kids[i].Some? ==> Live(g.kids[i].value) && Wellformed(g.kids[i].value)
  {
  }

  // ---------------------------------------------------------------- removing

  predicate NoKids(kids: seq<Option<Node>>) { forall i :: 0 <= i < |kids| ==> kids[i].None? }

  /** What becomes of a node when its child at `pos` has become `r`. */
  function DelAt(n: Node, pos: nat, r: (Node, bool)): (Node, bool)
    requires pos < |n.kids|
  {
    if !r.1 then (n.(kids := n.kids[pos := Some(r.0)]), false)
    else
      var kids := n.kids[pos := None];
      if NoKids(kids) then (n.(kids := []), n.value.None?) else (n.(kids := kids), false)
  }

  /** The node without `key`, and whether its parent should delete it. */
  function Del(n: Node, key: Key): (Node, bool) {
    if key == [] then (n.(value := None), n.kids == [])
    else if Kid(n, key[0]).None? then (n, false)
    else DelAt(n, key[0] - n.from, Del(n.kids[key[0] - n.from].value, key[1..]))
  }

  lemma DelBelow(n: Node, key: Key)
    requires key != [] && Kid(n, key[0]).Some?
    ensures n.from <= key[0] < n.from + |n.kids| && n.kids[key[0] - n.from].Some?
    ensures Del(n, key) == DelAt(n, key[0] - n.from, Del(n.kids[key[0] - n.from].value, key[1..]))
  {
  }

  /** A node that held something is to be deleted exactly if nothing is left in it. */
  lemma {:induction false} DelKeeps(n: Node, key: Key)
    requires Wellformed(n)
    ensures Wellformed(Del(n, key).0)
    ensures Live(n) ==> (Del(n, key).1 <==> !Live(Del(n, key).0))
    ensures Del(n, key).1 ==> !Live(Del(n, key).0)
    decreases |key|
  {
    if key != [] && Kid(n, key[0]).Some? {
      var pos := key[0] - n.from;
      DelKeeps(n.kids[pos].value, key[1..]);
      var (kid, dead) := Del(n.kids[pos].value, key[1..]);
      if !dead {
        assert n.kids[pos := Some(kid)][pos].Some?;
      } else {
        var kids := n.kids[pos := None];
        if !NoKids(kids) { var i :| 0 <= i < |kids| && kids[i].Some?; }
      }
    }
  }

  lemma {:induction false} GetAfterDel(n: Node, key: Key, k: Key)
    requires Wellformed(n)
    ensures Get(Del(n, key).0, k) == if k == key then None else Get(n, k)
    decreases |key|
  {
    if key != [] && Kid(n, key[0]).Some? && k != [] {
      var pos := key[0] - n.from;
      var n' := Del(n, key).0;
      var (kid, dead) := Del(n.kids[pos].value, key[1..]);
      if k[0] == key[0] {
        GetAfterDel(n.kids[pos].value, key[1..], k[1..]);
        DelKeeps(n.kids[pos].value, key[1..]);
        assert k == [k[0]] + k[1..] && key == [key[0]] + key[1..];
        if dead { GetDead(kid, k[1..]); }
      } else {
        assert Kid(n', k[0]) == Kid(n, k[0]) by {
          if n.from <= k[0] < n.from + |n.kids| { assert n.kids[pos := None][k[0] - n.from] == n.kids[k[0] - n.from]; }
        }
      }
    }
  }

  lemma GetDead(n: Node, k: Key)
    requires !Live(n)
    ensures Get(n, k) == None
  {
  }

  // ---------------------------------------------------------------- emptiness

  /** A node that holds something holds a key. */
  lemma {:induction false} SomeKey(n: Node) returns (k: Key)
    requires Wellformed(n) && Live(n)
    ensures Get(n, k).Some?
  {
    if n.value.Some? { return []; }
    var i :| 0 <= i < |n.kids| && n.kids[i].Some?;
    var rest := SomeKey(n.kids[i].value);
    k := [n.from + i] + rest;
    assert k[1..] == rest && Kid(n, k[0]) == n.kids[i];
  }

  /** `empty()` holds exactly if no key is stored. */
  lemma EmptyIffNoKey(n: Node)
    requires Wellformed(n)
    ensures !Live(n) <==> forall k :: Get(n, k).None?
  {
    if Live(n) { var k := SomeKey(n); }
  }

  // ---------------------------------------------------------------- nodes in memory

  type Char = b: int | 0 <= b <= 255

  /** What is left of a string as `c_str()`: everything before the first NUL. */
  function CStr(s: seq<Char>): (r: Key)
    ensures |r| <= |s| && (forall i :: 0 <= i < |r| ==> r[i] == s[i]) && (|r| < |s| ==> s[|r|] == 0)
  {
    if s == [] || s[0] == 0 then [] else [s[0]] + CStr(s[1..])
  }

  /** No node belongs to two children. */
  ghost predicate Apart(kids: seq<Trie?>)
    reads kids
  {
    forall i, j :: 0 <= i < j < |kids| && kids[i] != null && kids[j] != null ==> kids[i].Repr !! kids[j].Repr
  }

  /** There is a child exactly where the tree has one. */
  ghost predicate Alike(kids: seq<Trie?>, nodes: seq<Option<Node>>) {
    |kids| == |nodes| && forall i :: 0 <= i < |kids| ==> (kids[i] == null <==> nodes[i].None?)
  }

  lemma AlikePadded(kids: seq<Trie?>, nodes: seq<Option<Node>>, n: nat)
    requires Alike(kids, nodes)
    ensures Alike(seq(n, _ => null) + kids, seq(n, _ => None) + nodes)
  {
  }

  lemma ApartPadded(kids: seq<Trie?>, n: nat)
    requires Apart(kids)
    ensures Apart(seq(n, _ => null) + kids) && Apart(kids + seq(n, _ => null))
  {
  }

  lemma ApartBut(kids: seq<Trie?>, b: nat)
    requires b < |kids| && Apart(kids)
    ensures Apart(kids[b := null])
  {
  }

  lemma ApartWith(kids: seq<Trie?>, b: nat, k: Trie)
    requires b < |kids| && Apart(kids[b := null]) && kids[b] == k
    requires forall i :: 0 <= i < |kids| && i != b && kids[i] != null ==> kids[i].Repr !! k.Repr
    ensures Apart(kids)
  {
    assert forall i :: 0 <= i < |kids| && i != b ==> kids[i] == kids[b := null][i];
  }

  class Trie {
    var from: nat
    var value: Option<Value>
    var kids: seq<Trie?>

    ghost var tree: Node
    ghost var Repr: set<Trie>

    /** This node and the nodes below it, none shared, make up `tree`. */
    ghost predicate Valid()
      reads this, Repr
      decreases tree
      ensures Valid() ==> this in Repr && from == tree.from && value == tree.value && |kids| == |tree.kids|
    {
      && this in Repr && from == tree.from && value == tree.value && Alike(kids, tree.kids)
      && (forall i :: 0 <= i < |kids| && kids[i] != null ==>
            && kids[i] in Repr && kids[i].Repr <= Repr && this !in kids[i].Repr
            && kids[i].tree == tree.kids[i].value && kids[i].Valid())
      && Apart(kids)
    }

    /** The same within `R`, apart from child `b`. */
    ghost predicate ValidBut(R: set<Trie>, b: nat)
      requires b < |kids|
      reads this, R
    {
      && this in R && from == tree.from && value == tree.value && |kids| == |tree.kids|
      && (forall i :: 0 <= i < |kids| && i != b ==> (kids[i] == null <==> tree.kids[i].None?))
      && (forall i :: 0 <= i < |kids| && i != b && kids[i] != null ==>
            && kids[i] in R && kids[i].Repr <= R && this !in kids[i].Repr
            && kids[i].tree == tree.kids[i].value && kids[i].Valid())
      && Apart(kids[b := null])
    }

    constructor ()
      ensures Valid() && fresh(Repr) && tree == Blank
    {
      from, value, kids := 0, None, [];
      tree, Repr := Blank, {this};
    }

    /** `find` without making nodes. */
    method Find(key: Key) returns (r: Option<Value>)
      requires Valid()
      decreases |key|
      ensures r == Get(tree, key)
    {
      if key == [] { return value; }
      var pos := key[0] - from;
      if 0 <= pos < |kids| && kids[pos] != null {
        r := kids[pos].Find(key[1..]);
        return;
      }
      return None;
    }

    /** Reallocates the window of children when byte `c` lies outside. */
    method Widen(c: Byte)
      requires Valid()
      modifies this
      ensures Valid() && Repr == old(Repr) && tree == Grown(old(tree), c)
    {
      hide Valid;
      var pos := c - from;
      if kids == [] {
        WidenAfter(1);
        Start(c);
      } else if pos < 0 {
        WidenBefore(-pos);
      } else if pos >= |kids| {
        WidenAfter(pos + 1 - |kids|);
      }
    }

    /** A window without children can start anywhere. */
    method Start(c: Byte)
      requires Valid() && |kids| == 1 && kids[0] == null
      modifies `from, `tree
      ensures Valid() && tree == old(tree).(from := c)
    {
      from := c;
      tree := tree.(from := c);
    }

    method WidenAfter(n: nat)
      requires Valid()
      modifies `kids, `tree
      ensures Valid() && tree == old(tree).(kids := old(tree).kids + seq(n, _ => None))
      ensures kids == old(kids) + seq(n, _ => null)
    {
      ApartPadded(kids, n);
      hide Apart;
      kids := kids + seq(n, _ => null);
      tree := tree.(kids := tree.kids + seq(n, _ => None));
    }

    method WidenBefore(n: nat)
      requires Valid() && n <= from
      modifies `from, `kids, `tree
      ensures Valid() && tree == old(tree).(from := old(from) - n, kids := seq(n, _ => None) + old(tree).kids)
    {
      ApartPadded(kids, n);
      AlikePadded(kids, tree.kids, n);
      Kinship();
      hide Apart, Alike, Valid;
      kids := seq(n, _ => null) + kids;
      tree := tree.(from := from - n, kids := seq(n, _ => None) + tree.kids);
      from := from - n;
      forall i | 0 <= i < |kids| && kids[i] != null
        ensures && kids[i] in Repr && kids[i].Repr <= Repr && this !in kids[i].Repr
                && tree.kids[i] == Some(kids[i].tree) && kids[i].Valid()
      {
        assert kids[i] == old(kids)[i - n] && tree.kids[i] == old(tree).kids[i - n];
      }
      ValidAgain();
    }

    /** What `Valid` says of the children. */
    lemma Kinship()
      requires Valid()
      ensures Alike(kids, tree.kids) && Apart(kids)
      ensures forall i :: 0 <= i < |kids| && kids[i] != null ==>
                && kids[i] in Repr && kids[i].Repr <= Repr && this !in kids[i].Repr
                && tree.kids[i] == Some(kids[i].tree) && kids[i].Valid()
    {
    }

    lemma ValidAgain()
      requires this in Repr && from == tree.from && value == tree.value && Alike(kids, tree.kids) && Apart(kids)
      requires forall i :: 0 <= i < |kids| && kids[i] != null ==>
                 && kids[i] in Repr && kids[i].Repr <= Repr && this !in kids[i].Repr
                 && i < |tree.kids| && tree.kids[i] == Some(kids[i].tree) && kids[i].Valid()
      ensures Valid()
    {
    }

    /** `find` making the missing nodes, then storing the value in the node it returns. */
    method Insert(key: Key, v: Value)
      requires Valid()
      modifies Repr
      decreases |key|, 1
      ensures Valid() && fresh(Repr - old(Repr)) && tree == Put(old(tree), key, v)
    {
      if key == [] {
        value := Some(v);
        tree := tree.(value := Some(v));
        return;
      }
      Widen(key[0]);
      var pos := key[0] - from;
      if kids[pos] == null {
        InsertNew(pos, key, v);
      } else {
        InsertBelow(pos, key, v);
      }
    }

    method InsertBelow(pos: nat, key: Key, v: Value)
      requires Valid() && key != [] && pos < |kids| && kids[pos] != null
      modifies Repr
      decreases |key|, 0
      ensures Valid() && fresh(Repr - old(Repr)) && pos < |old(tree).kids| && old(tree).kids[pos].Some?
      ensures tree == old(tree).(kids := old(tree).kids[pos := Some(Put(old(tree).kids[pos].value, key[1..], v))])
    {
      var k := kids[pos];
      Detach(pos);
      hide Put, Valid, ValidBut;
      ghost var R := Repr - k.Repr;
      k.Insert(key[1..], v);
      Attach(pos, k, R);
    }

    method InsertNew(pos: nat, key: Key, v: Value)
      requires Valid() && key != [] && pos < |kids| && kids[pos] == null
      modifies Repr
      decreases |key|, 0
      ensures Valid() && fresh(Repr - old(Repr)) && pos < |old(tree).kids|
      ensures tree == old(tree).(kids := old(tree).kids[pos := Some(Put(Blank, key[1..], v))])
    {
      hide Put, Valid, ValidBut;
      var k := new Trie();
      k.Insert(key[1..], v);
      SetKid(pos, k);
      Attach(pos, k, Repr);
    }

    method SetKid(pos: nat, k: Trie?)
      requires Valid() && pos < |kids|
      modifies `kids
      ensures kids == old(kids)[pos := k] && ValidBut(Repr, pos)
    {
      ApartBut(kids, pos);
      assert kids[pos := k][pos := null] == kids[pos := null];
      hide Apart;
      kids := kids[pos := k];
    }

    /** Setting a child aside leaves the others as they are. */
    lemma Detach(pos: nat)
      requires Valid() && pos < |kids| && kids[pos] != null
      ensures var k := kids[pos];
              && k in Repr && k.Valid() && tree.kids[pos] == Some(k.tree)
              && k.Repr <= Repr && this !in k.Repr && ValidBut(Repr - k.Repr, pos)
    {
      ApartBut(kids, pos);
    }

    /** Takes note of what has become of the child at `pos`. */
    ghost method Attach(pos: nat, k: Trie, R: set<Trie>)
      requires pos < |kids| && kids[pos] == k && k.Valid() && this !in k.Repr && R !! k.Repr && ValidBut(R, pos)
      modifies `Repr, `tree
      ensures Valid() && Repr == R + k.Repr && pos < |old(tree).kids|
      ensures tree == old(tree).(kids := old(tree).kids[pos := Some(k.tree)])
    {
      assert k in k.Repr;
      Repr := R + k.Repr;
      tree := tree.(kids := tree.kids[pos := Some(k.tree)]);
      assert k.Valid();
      forall i | 0 <= i < |kids| && i != pos && kids[i] != null ensures kids[i].Valid() && kids[i].Repr <= R {
      }
      ApartWith(kids, pos, k);
      hide Apart;
    }

    /** Deletes the child at `pos`. */
    method DropKid(pos: nat, ghost R: set<Trie>)
      requires pos < |kids| && ValidBut(R, pos)
      modifies `kids, `tree, `Repr
      ensures Valid() && Repr == R && pos < |old(tree).kids|
      ensures tree == old(tree).(kids := old(tree).kids[pos := None])
    {
      hide Apart;
      kids := kids[pos := null];
      tree := tree.(kids := tree.kids[pos := None]);
      Repr := R;
      forall i | 0 <= i < |kids| && kids[i] != null ensures kids[i].Valid() && kids[i].Repr <= R {
      }
    }

    /** `remove`: whether the parent should delete this node. */
    method Remove(key: Key) returns (dead: bool)
      requires Valid()
      modifies Repr
      decreases |key|, 1
      ensures Valid() && Repr <= old(Repr) && (tree, dead) == Del(old(tree), key)
    {
      if key == [] {
        value := None;
        tree := tree.(value := None);
        return kids == [];
      }
      var pos := key[0] - from;
      if 0 <= pos < |kids| && kids[pos] != null {
        DelBelow(tree, key);
        dead := RemoveBelow(pos, key);
      } else {
        dead := false;
      }
    }

    method RemoveBelow(pos: nat, key: Key) returns (dead: bool)
      requires Valid() && key != [] && pos < |kids| && kids[pos] != null
      modifies Repr
      decreases |key|, 0
      ensures Valid() && Repr <= old(Repr) && pos < |old(tree).kids| && old(tree).kids[pos].Some?
      ensures (tree, dead) == DelAt(old(tree), pos, Del(old(tree).kids[pos].value, key[1..]))
    {
      var k := kids[pos];
      Detach(pos);
      hide Del, Valid, ValidBut;
      ghost var R := Repr - k.Repr;
      var gone := k.Remove(key[1..]);
      if gone {
        DropKid(pos, R);
        dead := DropEmptyWindow();
      } else {
        Attach(pos, k, R);
        dead := false;
      }
    }

    /** Clears the window when it has no child left. */
    method DropEmptyWindow() returns (dead: bool)
      requires Valid()
      modifies `kids, `tree
      ensures Valid() && tree == old(tree).(kids := if NoKids(old(tree).kids) then [] else old(tree).kids)
      ensures dead <==> NoKids(old(tree).kids) && tree.value.None?
    {
      for i := 0 to |kids|
        invariant forall j :: 0 <= j < i ==> kids[j] == null && tree.kids[j].None?
      {
        if kids[i] != null { return false; }
      }
      kids := [];
      tree := tree.(kids := []);
      return value.None?;
    }

    // -------------------------------------------------------------- on strings

    method InsertString(s: seq<Char>, v: Value)
      requires Valid() && Wellformed(tree)
      modifies Repr
      ensures Valid() && fresh(Repr - old(Repr)) && Wellformed(tree)
      ensures forall k :: Get(tree, k) == if k == CStr(s) then Some(v) else Get(old(tree), k)
    {
      hide Get, Put, Wellformed;
      Insert(CStr(s), v);
      PutKeeps(old(tree), CStr(s), v);
      forall k ensures Get(tree, k) == if k == CStr(s) then Some(v) else Get(old(tree), k) {
        GetAfterPut(old(tree), CStr(s), v, k);
      }
    }

    method RemoveString(s: seq<Char>)
      requires Valid() && Wellformed(tree)
      modifies Repr
      ensures Valid() && Repr <= old(Repr) && Wellformed(tree)
      ensures forall k :: Get(tree, k) == if k == CStr(s) then None else Get(old(tree), k)
    {
      hide Get, Del, Wellformed;
      var dead := Remove(CStr(s));
      DelKeeps(old(tree), CStr(s));
      forall k ensures Get(tree, k) == if k == CStr(s) then None else Get(old(tree), k) {
        GetAfterDel(old(tree), CStr(s), k);
      }
    }

    method FindString(s: seq<Char>) returns (r: Option<Value>)
      requires Valid()
      ensures r == Get(tree, CStr(s))
    {
      r := Find(CStr(s));
    }

    method Empty() returns (r: bool)
      requires Valid() && Wellformed(tree)
      ensures r <==> forall k :: Get(tree, k).None?
    {
      EmptyIffNoKey(tree);
      r := kids == [] && value.None?;
    }
  }

  // ---------------------------------------------------------------- whole runs

  datatype Op = InsertOp(s: seq<Char>, value: Value) | RemoveOp(s: seq<Char>) | FindOp(s: seq<Char>) | EmptyOp

  datatype Answer = Done | Found(value: Option<Value>) | Emptiness(empty: bool)

  function MapAnswer(m: map<Key, Value>, op: Op): Answer {
    match op
    case InsertOp(_, _) => Done
    case RemoveOp(_) => Done
    case FindOp(s) => Found(if CStr(s) in m then Some(m[CStr(s)]) else None)
    case EmptyOp => Emptiness(m == map[])
  }

  function MapAfter(m: map<Key, Value>, op: Op): map<Key, Value> {
    match op
    case InsertOp(s, v) => m[CStr(s) := v]
    case RemoveOp(s) => m - {CStr(s)}
    case FindOp(_) => m
    case EmptyOp => m
  }

  /** What a finite map answers to a run. */
  function MapRun(m: map<Key, Value>, ops: seq<Op>): seq<Answer>
    decreases |ops|
  {
    if ops == [] then [] else [MapAnswer(m, ops[0])] + MapRun(MapAfter(m, ops[0]), ops[1..])
  }

  ghost predicate Holds(n: Node, m: map<Key, Value>) {
    forall k: Key :: Get(n, k) == if k in m then Some(m[k]) else None
  }

  lemma HoldsNothing(n: Node, m: map<Key, Value>)
    requires Holds(n, m)
    ensures m == map[] <==> forall k: Key :: Get(n, k).None?
  {
    hide Get;
    if m != map[] {
      var k :| k in m;
      assert Get(n, k).Some?;
    }
  }

  method Perform(t: Trie, op: Op, ghost m: map<Key, Value>) returns (answer: Answer)
    requires t.Valid() && Wellformed(t.tree) && Holds(t.tree, m)
    modifies t.Repr
    ensures t.Valid() && Wellformed(t.tree) && fresh(t.Repr - old(t.Repr))
    ensures answer == MapAnswer(m, op) && Holds(t.tree, MapAfter(m, op))
  {
    hide Get, Wellformed, CStr;
    answer := Done;
    match op
    case InsertOp(s, v) => t.InsertString(s, v);
    case RemoveOp(s) => t.RemoveString(s);
    case FindOp(s) =>
      var r := t.FindString(s);
      answer := Found(r);
    case EmptyOp =>
      var r := t.Empty();
      HoldsNothing(t.tree, m);
      answer := Emptiness(r);
  }

  /** Any run on a new trie answers like a finite map. */
  method Replay(ops: seq<Op>) returns (answers: seq<Answer>)
    ensures answers == MapRun(map[], ops)
  {
    var t := new Trie();
    ghost var m: map<Key, Value> := map[];
    assert Wellformed(t.tree);
    hide Get, Wellformed;
    forall k ensures Get(t.tree, k).None? { GetBlank(k); }
    answers := [];
    for i := 0 to |ops|
      invariant fresh(t.Repr) && t.Valid() && Wellformed(t.tree) && Holds(t.tree, m)
      invariant answers + MapRun(m, ops[i..]) == MapRun(map[], ops)
    {
      var answer := Perform(t, ops[i], m);
      assert ops[i..][0] == ops[i] && ops[i..][1..] == ops[i + 1..];
      assert answers + ([answer] + MapRun(MapAfter(m, ops[i]), ops[i + 1..])) ==
             answers + [answer] + MapRun(MapAfter(m, ops[i]), ops[i + 1..]);
      m := MapAfter(m, ops[i]);
      answers := answers + [answer];
    }
  }
}
