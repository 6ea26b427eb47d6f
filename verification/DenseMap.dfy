/**
 The sorted deque behind src/eckit/container/DenseMap.h.
 */
module DenseMaps {
  import opened Common

  type Value(==, !new)

  datatype Item = Item(key: Ordered, value: Value)

  ghost predicate SortedKeys(s: seq<Item>) { forall i, j :: 0 <= i < j < |s| ==> s[i].key <= s[j].key }

  ghost predicate AscendingKeys(s: seq<Item>) { forall i, j :: 0 <= i < j < |s| ==> s[i].key < s[j].key }

  /** The items as writes in order: the last write of a key wins. */
  ghost function Latest(s: seq<Item>): map<Ordered, Value> {
    if s == [] then map[] else Latest(s[..|s| - 1])[s[|s| - 1].key := s[|s| - 1].value]
  }

  /** The items of one key, in order. */
  ghost function OfKey(s: seq<Item>, k: Ordered): seq<Item> {
    if s == [] then [] else OfKey(s[..|s| - 1], k) + if s[|s| - 1].key == k then [s[|s| - 1]] else []
  }

  lemma {:induction false} OfKeyAppend(a: seq<Item>, b: seq<Item>, k: Ordered)
    ensures OfKey(a + b, k) == OfKey(a, k) + OfKey(b, k)
    decreases |b|
  {
    if b == [] {
      assert a + b == a;
    } else {
      assert (a + b)[..|a + b| - 1] == a + b[..|b| - 1];
      OfKeyAppend(a, b[..|b| - 1], k);
    }
  }

  lemma {:induction false} NoneOfKey(s: seq<Item>, k: Ordered)
    requires forall i :: 0 <= i < |s| ==> s[i].key != k
    ensures OfKey(s, k) == []
  {
    if s != [] { NoneOfKey(s[..|s| - 1], k); }
  }

  /** What a key maps to is the last of its items. */
  lemma {:induction false} LatestIsLast(s: seq<Item>, k: Ordered)
    ensures k in Latest(s) <==> OfKey(s, k) != []
    ensures k in Latest(s) ==> Latest(s)[k] == OfKey(s, k)[|OfKey(s, k)| - 1].value
  {
    if s != [] { LatestIsLast(s[..|s| - 1], k); }
  }

  /** Inserting `x` behind all items whose key is not above its own appends it to the items of its key. */
  lemma InsertedStably(r: seq<Item>, i: nat, x: Item, k: Ordered)
    requires i <= |r| && forall j :: i <= j < |r| ==> x.key < r[j].key
    ensures OfKey(r[..i] + [x] + r[i..], k) == OfKey(r, k) + if x.key == k then [x] else []
  {
    assert r == r[..i] + r[i..];
    OfKeyAppend(r[..i], r[i..], k);
    OfKeyAppend(r[..i] + [x], r[i..], k);
    assert (r[..i] + [x])[..i] == r[..i];
    if x.key == k { NoneOfKey(r[i..], k); }
  }

  /** `std::stable_sort` by key: the items of every key stay in their order. */
  method StableSort(s: seq<Item>) returns (r: seq<Item>)
    ensures SortedKeys(r) && forall k :: OfKey(r, k) == OfKey(s, k)
  {
    r := [];
    hide OfKey;
    for n := 0 to |s|
      invariant SortedKeys(r) && forall k :: OfKey(r, k) == OfKey(s[..n], k)
    {
      hide SortedKeys;
      var r' := StableInsertion(r, s[n]);
      forall k ensures OfKey(r', k) == OfKey(s[..n + 1], k) { OfKeyNext(s, n, k); }
      r := r';
    }
    assert s[..|s|] == s;
  }

  lemma OfKeyNext(s: seq<Item>, n: nat, k: Ordered)
    requires n < |s|
    ensures OfKey(s[..n + 1], k) == OfKey(s[..n], k) + if s[n].key == k then [s[n]] else []
  {
    assert s[..n + 1][..n] == s[..n];
  }

  /** Puts `x` behind all items whose key is not above its own. */
  method StableInsertion(s: seq<Item>, x: Item) returns (r: seq<Item>)
    requires SortedKeys(s)
    ensures SortedKeys(r) && forall k :: OfKey(r, k) == OfKey(s, k) + if x.key == k then [x] else []
  {
    hide OfKey;
    var i := |s|;
    while i > 0 && x.key < s[i - 1].key
      invariant 0 <= i <= |s| && forall k :: i <= k < |s| ==> x.key < s[k].key
    {
      i := i - 1;
    }
    r := s[..i] + [x] + s[i..];
    forall k ensures OfKey(r, k) == OfKey(s, k) + if x.key == k then [x] else [] { InsertedStably(s, i, x, k); }
  }

  lemma SameLatestAt(a: seq<Item>, b: seq<Item>, k: Ordered)
    requires OfKey(a, k) == OfKey(b, k)
    ensures k in Latest(a) <==> k in Latest(b)
    ensures k in Latest(a) ==> Latest(a)[k] == Latest(b)[k]
  {
    hide Latest, OfKey;
    LatestIsLast(a, k);
    LatestIsLast(b, k);
  }

  lemma SameLatest(a: seq<Item>, b: seq<Item>)
    requires forall k :: OfKey(a, k) == OfKey(b, k)
    ensures Latest(a) == Latest(b)
  {
    hide Latest, OfKey;
    forall k
      ensures k in Latest(a) <==> k in Latest(b)
      ensures k in Latest(a) ==> Latest(a)[k] == Latest(b)[k]
    {
      SameLatestAt(a, b, k);
    }
  }

  lemma {:induction false} LatestPrepend(x: Item, s: seq<Item>)
    ensures Latest([x] + s) == if x.key in Latest(s) then Latest(s) else Latest(s)[x.key := x.value]
  {
    if s == [] {
      assert [x] + s == [x] && [x][..0] == [];
    } else {
      LatestPrepend(x, s[..|s| - 1]);
      assert ([x] + s)[..|s|] == [x] + s[..|s| - 1];
    }
  }

  lemma {:induction false} LatestKeys(s: seq<Item>, k: Ordered)
    ensures k in Latest(s) <==> exists i :: 0 <= i < |s| && s[i].key == k
  {
    if s != [] {
      var f := s[..|s| - 1];
      LatestKeys(f, k);
      assert forall i :: 0 <= i < |f| ==> f[i] == s[i];
    }
  }

  lemma KeptOrNot(x: Item, kept: seq<Item>, rest: seq<Item>)
    requires Latest(kept) == Latest(rest) && kept != [] && AscendingKeys(kept) && x.key <= kept[0].key
    ensures Latest([x] + rest) == if x.key == kept[0].key then Latest(kept) else Latest([x] + kept)
    ensures x.key != kept[0].key ==> AscendingKeys([x] + kept)
  {
    hide Latest;
    LatestPrepend(x, rest);
    LatestPrepend(x, kept);
    LatestKeys(kept, x.key);
  }

  /** `std::unique` on the reversed items: the last of each run of equal keys moves to the back; what is before
      `begin` is left over. */
  method UniqueReverse(s: seq<Item>) returns (r: seq<Item>, begin: nat)
    requires SortedKeys(s)
    ensures |r| == |s| && begin <= |r| && AscendingKeys(r[begin..]) && Latest(r[begin..]) == Latest(s)
  {
    hide Latest;
    if s == [] { return s, 0; }
    r, begin := s, |s| - 1;
    var i := |s| - 1;
    while i > 0
      invariant 0 <= i <= begin < |s| == |r|
      invariant r[..i] == s[..i] && r[begin].key == s[i].key
      invariant AscendingKeys(r[begin..]) && Latest(r[begin..]) == Latest(s[i..])
    {
      i := i - 1;
      assert r[i] == r[..i + 1][i] == s[i];
      ghost var kept := r[begin..];
      assert s[i..] == [s[i]] + s[i + 1..];
      KeptOrNot(s[i], kept, s[i + 1..]);
      if r[i].key != r[begin].key {
        begin := begin - 1;
        r := r[begin := r[i]];
        assert r[begin..] == [s[i]] + kept;
      }
    }
    assert s[0..] == s;
  }

  /** With ascending keys every item is the latest of its key. */
  lemma {:induction false} AscendingLatest(s: seq<Item>, i: nat)
    requires AscendingKeys(s) && i < |s|
    ensures s[i].key in Latest(s) && Latest(s)[s[i].key] == s[i].value
    decreases |s|
  {
    if i < |s| - 1 { AscendingLatest(s[..|s| - 1], i); }
  }

  lemma {:induction false} AscendingSize(s: seq<Item>)
    requires AscendingKeys(s)
    ensures |Latest(s)| == |s|
  {
    if s != [] {
      AscendingSize(s[..|s| - 1]);
      LatestKeys(s[..|s| - 1], s[|s| - 1].key);
      assert Latest(s).Keys == Latest(s[..|s| - 1]).Keys + {s[|s| - 1].key};
      assert |Latest(s)| == |Latest(s).Keys|;
    }
  }

  function Keys(s: seq<Item>): (r: seq<Ordered>)
    ensures |r| == |s| && forall i {:trigger r[i]} {:trigger s[i]} :: 0 <= i < |s| ==> r[i] == s[i].key
  {
    seq(|s|, i requires 0 <= i < |s| => s[i].key)
  }

  class DenseMap {
    var items: seq<Item>
    var sorted: bool

    ghost predicate Valid()
      reads this
    {
      (sorted ==> AscendingKeys(items)) && (items == [] ==> sorted)
    }

    ghost function Map(): map<Ordered, Value>
      reads this
    {
      Latest(items)
    }

    constructor ()
      ensures Valid() && Map() == map[] && sorted
    {
      items, sorted := [], true;
    }

    method Insert(k: Ordered, v: Value)
      requires Valid()
      modifies this
      ensures Valid() && !sorted && Map() == old(Map())[k := v]
    {
      items := items + [Item(k, v)];
      sorted := false;
      assert items[..|items| - 1] == old(items);
    }

    /** Brings the items into strictly ascending order of keys without changing what any key maps to. */
    method Sort()
      requires Valid()
      modifies this
      ensures Valid() && sorted && Map() == old(Map())
    {
      if sorted { return; }
      var s := StableSort(items);
      SameLatest(s, items);
      var r, position := UniqueReverse(s);
      items := r[position..];
      sorted := true;
    }

    /** The position of a key, or none; for an unsorted map a failed assertion. */
    method Find(k: Ordered) returns (ok: bool, at: Option<nat>)
      requires Valid()
      ensures ok <==> sorted
      ensures ok ==> (at.Some? <==> k in Map())
      ensures ok && at.Some? ==> at.value < |items| && items[at.value] == Item(k, Map()[k])
    {
      LatestKeys(items, k);
      if items == [] { return true, None; }
      if !sorted { return false, None; }
      var e := LowerBound(Keys(items), k);
      if e != |items| && items[e].key == k {
        AscendingLatest(items, e);
        return true, Some(e);
      }
      return true, None;
    }

    method Replace(k: Ordered, v: Value) returns (ok: bool)
      requires Valid()
      modifies this
      ensures Valid()
      ensures ok <==> old(sorted)
      ensures Map() == if ok then old(Map())[k := v] else old(Map())
      ensures sorted <==> old(sorted) && (!ok || k in old(Map()))
    {
      var at;
      ok, at := Find(k);
      if !ok { return; }
      if at.Some? {
        Replaced(items, at.value, v);
        items := items[at.value := Item(k, v)];
      } else {
        Insert(k, v);
      }
    }

    method Size() returns (ok: bool, n: nat)
      requires Valid()
      ensures ok <==> sorted
      ensures ok ==> n == |Map()|
    {
      if !sorted { return false, 0; }
      AscendingSize(items);
      return true, |items|;
    }
  }

  lemma {:induction false} Replaced(s: seq<Item>, i: nat, v: Value)
    requires AscendingKeys(s) && i < |s|
    ensures Latest(s[i := s[i].(value := v)]) == Latest(s)[s[i].key := v]
    decreases |s|
  {
    var s', n := s[i := s[i].(value := v)], |s| - 1;
    if i < n {
      Replaced(s[..n], i, v);
      assert s'[..n] == s[..n][i := s[i].(value := v)];
    } else {
      assert s'[..n] == s[..n];
    }
  }

  // ---------------------------------------------------------------- whole runs

  datatype Op = InsertOp(k: Ordered, v: Value) | ReplaceOp(k: Ordered, v: Value) | SortOp

  /** A map, and whether it counts as sorted. */
  datatype Plain = Plain(m: map<Ordered, Value>, sorted: bool)

  /** `replace` fails on an unsorted map and otherwise leaves it sorted if the key was there. */
  function PlainAfter(s: Plain, op: Op): Plain {
    match op
    case InsertOp(k, v) => Plain(s.m[k := v], false)
    case ReplaceOp(k, v) => if s.sorted then Plain(s.m[k := v], k in s.m) else s
    case SortOp => s.(sorted := true)
  }

  function PlainRun(ops: seq<Op>): Plain {
    if ops == [] then Plain(map[], true) else PlainAfter(PlainRun(ops[..|ops| - 1]), ops[|ops| - 1])
  }

  method Perform(d: DenseMap, op: Op)
    requires d.Valid()
    modifies d
    ensures d.Valid()
    ensures Plain(d.Map(), d.sorted) == PlainAfter(Plain(old(d.Map()), old(d.sorted)), op)
  {
    match op
    case InsertOp(k, v) => d.Insert(k, v);
    case ReplaceOp(k, v) => var ok := d.Replace(k, v);
    case SortOp => d.Sort();
  }

  /** Any run that ends in `sort` leaves each key once, in ascending order, with the value written last. */
  method Replay(ops: seq<Op>) returns (items: seq<Item>)
    ensures AscendingKeys(items)
    ensures var m := PlainRun(ops).m; forall x: Item :: x in items <==> x.key in m && m[x.key] == x.value
  {
    var d := new DenseMap();
    for i := 0 to |ops|
      invariant fresh(d) && d.Valid()
      invariant Plain(d.Map(), d.sorted) == PlainRun(ops[..i])
    {
      assert ops[..i + 1][..i] == ops[..i];
      Perform(d, ops[i]);
    }
    assert ops[..|ops|] == ops;
    d.Sort();
    items := d.items;
    forall x: Item ensures x in items <==> x.key in Latest(items) && Latest(items)[x.key] == x.value {
      InLatest(items, x);
    }
  }

  lemma InLatest(s: seq<Item>, x: Item)
    requires AscendingKeys(s)
    ensures x in s <==> x.key in Latest(s) && Latest(s)[x.key] == x.value
  {
  }
}
