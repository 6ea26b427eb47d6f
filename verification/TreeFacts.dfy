/**
 What follows from the page-by-page conditions for the tree as a whole: how many entries a page
 answers for, how high the tree can be, and that the leaf links are the list of all leaves in key order.
 */
module TreeFacts {
  import opened Pages
  import opened TreeShape

  // ---------------------------------------------------------------- entries below a page

  ghost function KeysIn(m: map<Key, Value>, lo: Bound, hi: Bound): set<Key> {
    set k | k in m && In(lo, hi, k)
  }

  lemma KeysInSplit(m: map<Key, Value>, lo: Bound, mid: Bound, hi: Bound)
    requires Lt(lo, mid) && Lt(mid, hi)
    ensures |KeysIn(m, lo, hi)| == |KeysIn(m, lo, mid)| + |KeysIn(m, mid, hi)|
  {
    assert KeysIn(m, lo, hi) == KeysIn(m, lo, mid) + KeysIn(m, mid, hi);
    assert KeysIn(m, lo, mid) !! KeysIn(m, mid, hi);
  }

  ghost function KeySet(es: seq<LeafEntry>): set<Key> {
    set e | e in es :: e.key
  }

  lemma {:induction false} KeySetSize(es: seq<LeafEntry>)
    requires SortedLeaf(es)
    ensures |KeySet(es)| == |es|
  {
    if es != [] {
      var front, last := es[..|es| - 1], es[|es| - 1];
      KeySetSize(front);
      assert es == front + [last];
      assert KeySet(es) == KeySet(front) + {last.key};
      assert last.key !in KeySet(front);
    }
  }

  lemma LeafSize(t: Tree, full: nat, m: map<Key, Value>, i: nat)
    requires Wellformed(t, full) && Stores(t, m) && i in t.pages && t.pages[i].LeafPage?
    ensures i in t.info && |KeysIn(m, t.info[i].lo, t.info[i].hi)| == |t.pages[i].lentries|
  {
    hide Children, Links, LeavesApart, Sizes;
    var es, x := t.pages[i].lentries, t.info[i];
    assert GoodLeaf(t.pages[i], x);
    KeySetSize(es);
    forall k ensures k in KeysIn(m, x.lo, x.hi) <==> k in KeySet(es) {
      if k in KeysIn(m, x.lo, x.hi) {
        assert LeafEntry(k, m[k]) in es;
      }
      if k in KeySet(es) {
        var e :| e in es && e.key == k;
        var a :| 0 <= a < |es| && es[a] == e;
        assert In(x.lo, x.hi, es[a].key);
      }
    }
    assert KeysIn(m, x.lo, x.hi) == KeySet(es);
  }

  /** The keys up to slot `j` are those up to slot `j - 1` and those of the child in slot `j`. */
  lemma SlotSize(t: Tree, full: nat, m: map<Key, Value>, i: nat, j: nat)
    requires Wellformed(t, full) && i in t.pages && t.pages[i].NodePage? && 0 < j <= |t.pages[i].nentries|
    ensures i in t.info
    ensures var p, x, c := t.pages[i], t.info[i], Child(t.pages[i], j);
            && c in t.pages && c in t.info && c != 1 && x.level > 0 && t.info[c].level == x.level - 1
            && |KeysIn(m, x.lo, SlotHi(p, x.hi, j))| ==
               |KeysIn(m, x.lo, SlotHi(p, x.hi, j - 1))| + |KeysIn(m, t.info[c].lo, t.info[c].hi)|
  {
    hide Links, LeavesApart, Sizes;
    var p, x := t.pages[i], t.info[i];
    assert GoodChild(t, i, j);
    assert GoodNode(p, x);
    KeysInSplit(m, x.lo, SlotHi(p, x.hi, j - 1), SlotHi(p, x.hi, j));
  }

  lemma FirstSlot(t: Tree, full: nat, m: map<Key, Value>, i: nat)
    requires Wellformed(t, full) && i in t.pages && t.pages[i].NodePage?
    ensures i in t.info
    ensures var p, x, c := t.pages[i], t.info[i], t.pages[i].left;
            && c in t.pages && c in t.info && c != 1 && x.level > 0 && t.info[c].level == x.level - 1
            && t.info[c].lo == x.lo && t.info[c].hi == SlotHi(p, x.hi, 0)
  {
    assert GoodChild(t, i, 0);
    assert GoodNode(t.pages[i], t.info[i]);
  }

  // ---------------------------------------------------------------- height

  function Pow(b: nat, e: nat): nat { if e == 0 then 1 else b * Pow(b, e - 1) }

  /** The fewest entries below a page other than the root. */
  ghost function FewestBelow(t: Tree, level: nat): nat
    requires t.maxNode > 3
  {
    MinLeaf(t) * Pow(MinNode(t) + 1, level)
  }

  lemma FewestStep(t: Tree, level: nat)
    requires t.maxNode > 3 && level > 0
    ensures FewestBelow(t, level) == (MinNode(t) + 1) * FewestBelow(t, level - 1)
  {
  }

  lemma MoreOf(a: nat, b: nat, f: nat)
    requires a <= b
    ensures a * f <= b * f
  {
  }

  lemma {:induction false} PageHoldsAtLeast(t: Tree, m: map<Key, Value>, i: nat)
    requires Wellformed(t, 0) && Stores(t, m) && i in t.pages && i != 1
    ensures i in t.info && |KeysIn(m, t.info[i].lo, t.info[i].hi)| >= FewestBelow(t, t.info[i].level)
    decreases if i in t.info then t.info[i].level else 0, 1, 0
  {
    hide Wellformed, Stores;
    if t.pages[i].LeafPage? {
      LeafFacts(t, 0, i);
      LeafSize(t, 0, m, i);
    } else {
      NodeFacts(t, 0, i);
      var n := |t.pages[i].nentries|;
      SlotsHoldAtLeast(t, m, i, n);
      FewestStep(t, t.info[i].level);
      var f := FewestBelow(t, t.info[i].level - 1);
      MoreOf(MinNode(t) + 1, n + 1, f);
    }
  }

  lemma {:induction false} SlotsHoldAtLeast(t: Tree, m: map<Key, Value>, i: nat, j: nat)
    requires Wellformed(t, 0) && Stores(t, m) && i in t.pages && t.pages[i].NodePage? && j <= |t.pages[i].nentries|
    ensures i in t.info && t.info[i].level > 0
    ensures |KeysIn(m, t.info[i].lo, SlotHi(t.pages[i], t.info[i].hi, j))| >=
            (j + 1) * FewestBelow(t, t.info[i].level - 1)
    decreases if i in t.info then t.info[i].level else 0, 0, j
  {
    hide Wellformed, Stores;
    NodeFacts(t, 0, i);
    FirstSlot(t, 0, m, i);
    if j == 0 {
      PageHoldsAtLeast(t, m, t.pages[i].left);
    } else {
      SlotSize(t, 0, m, i, j);
      SlotsHoldAtLeast(t, m, i, j - 1);
      PageHoldsAtLeast(t, m, Child(t.pages[i], j));
      var f := FewestBelow(t, t.info[i].level - 1);
      assert (j + 1) * f == j * f + f;
    }
  }

  /** The height is at most logarithmic in the number of entries, to base `maxNode - maxNode / 2 >= 2`. */
  lemma HeightIsLogarithmic(t: Tree, m: map<Key, Value>)
    requires Wellformed(t, 0) && Stores(t, m)
    ensures 1 in t.info && t.maxNode > 3
    ensures t.info[1].level > 0 ==> |m| >= 2 * FewestBelow(t, t.info[1].level - 1)
  {
    hide Wellformed, Stores;
    RootFacts(t, 0);
    if t.pages[1].LeafPage? {
      LeafFacts(t, 0, 1);
    } else {
      NodeFacts(t, 0, 1);
      var n := |t.pages[1].nentries|;
      SlotsHoldAtLeast(t, m, 1, n);
      AllKeys(m);
      var f := FewestBelow(t, t.info[1].level - 1);
      MoreOf(2, n + 1, f);
    }
  }

  lemma AllKeys(m: map<Key, Value>)
    ensures KeysIn(m, NegInf, PosInf) == m.Keys && |m.Keys| == |m|
  {
  }

  // ---------------------------------------------------------------- the leaf chain

  /** The leaves from leaf `i` on, by key range. */
  ghost function LeavesFrom(t: Tree, i: nat): set<nat> {
    set a | a in t.pages && t.pages[a].LeafPage? && a in t.info && i in t.info && !Lt(t.info[a].lo, t.info[i].lo)
  }

  /** The right neighbour is the next leaf by key range. */
  lemma RightNeighbour(t: Tree, full: nat, i: nat)
    requires Wellformed(t, full) && i in t.pages && t.pages[i].LeafPage? && t.pages[i].right != 0
    ensures Domain(t)
    ensures var r := t.pages[i].right;
            && r in t.pages && t.pages[r].LeafPage? && r != i
            && t.pages[r].left == i && t.info[r].lo == t.info[i].hi
            && LeavesFrom(t, i) == {i} + LeavesFrom(t, r) && i !in LeavesFrom(t, r)
  {
    hide Locals, Children, Sizes;
    assert GoodLinks(t, i);
    var r := t.pages[i].right;
    forall a | a in LeavesFrom(t, i) && a != i ensures a in LeavesFrom(t, r) {
      assert Apart(t.info[a], t.info[i]);
    }
  }

  lemma LastLeaf(t: Tree, full: nat, i: nat)
    requires Wellformed(t, full) && i in t.pages && t.pages[i].LeafPage? && t.pages[i].right == 0
    ensures Domain(t) && t.info[i].hi == PosInf && LeavesFrom(t, i) == {i}
  {
  }

  /** The pages met by following `right` from leaf `i`. */
  ghost function Chain(t: Tree, i: nat): (c: seq<nat>)
    requires Wellformed(t, 0) && i in t.pages && t.pages[i].LeafPage?
    ensures c != [] && c[0] == i
    decreases |LeavesFrom(t, i)|
  {
    hide Wellformed, LeavesFrom;
    if t.pages[i].right == 0 then [i] else
      RightNeighbour(t, 0, i);
      [i] + Chain(t, t.pages[i].right)
  }

  /** Leaves in ascending key ranges, each linked to the next in both directions. */
  ghost predicate Strung(t: Tree, c: seq<nat>) {
    && (forall k :: 0 <= k < |c| ==> c[k] in t.pages && c[k] in t.info && t.pages[c[k]].LeafPage?)
    && (forall k :: 0 < k < |c| ==> t.pages[c[k - 1]].right == c[k] && t.pages[c[k]].left == c[k - 1])
    && (forall k, l :: 0 <= k < l < |c| ==> !Lt(t.info[c[l]].lo, t.info[c[k]].hi))
  }

  lemma StrungBefore(t: Tree, i: nat, c: seq<nat>)
    requires Strung(t, c) && c != [] && i in t.pages && i in t.info && t.pages[i].LeafPage?
    requires t.pages[i].right == c[0] && t.pages[c[0]].left == i
    requires forall k :: 0 <= k < |c| ==> !Lt(t.info[c[k]].lo, t.info[i].hi)
    ensures Strung(t, [i] + c)
  {
    var d := [i] + c;
    assert forall k :: 0 < k < |d| ==> d[k] == c[k - 1];
  }

  /** Following `right` from leaf `i` meets every leaf from `i` on exactly once, in ascending key ranges, and `left`
      leads back. */
  lemma {:induction false} ChainIsLeavesFrom(t: Tree, i: nat)
    requires Wellformed(t, 0) && i in t.pages && t.pages[i].LeafPage?
    ensures var c := Chain(t, i);
            && Strung(t, c) && (forall a :: a in c <==> a in LeavesFrom(t, i))
            && t.pages[c[|c| - 1]].right == 0
    decreases |LeavesFrom(t, i)|
  {
    hide Wellformed, Strung, LeavesFrom;
    RootFacts(t, 0);
    var r := t.pages[i].right;
    if r == 0 {
      LastLeaf(t, 0, i);
      OneLeaf(t, i);
    } else {
      RightNeighbour(t, 0, i);
      ChainIsLeavesFrom(t, r);
      FromIsAbove(t, r);
      StrungBefore(t, i, Chain(t, r));
    }
  }

  lemma OneLeaf(t: Tree, i: nat)
    requires i in t.pages && i in t.info && t.pages[i].LeafPage?
    ensures Strung(t, [i])
  {
  }

  lemma FromIsAbove(t: Tree, i: nat)
    ensures forall a :: a in LeavesFrom(t, i) ==> a in t.info && i in t.info && !Lt(t.info[a].lo, t.info[i].lo)
  {
  }

  ghost function FirstLeaf(t: Tree, i: nat): (r: nat)
    requires Wellformed(t, 0) && i in t.pages
    ensures i in t.info && r in t.pages && t.pages[r].LeafPage? && r in t.info && t.info[r].lo == t.info[i].lo
    decreases if i in t.info then t.info[i].level else 0
  {
    hide Wellformed;
    RootFacts(t, 0);
    if t.pages[i].LeafPage? then i else
      FirstSlot(t, 0, map[], i);
      FirstLeaf(t, t.pages[i].left)
  }

  /** The leaf chain, from the leftmost leaf, is the list of all leaves in key order. */
  lemma ChainIsAllLeaves(t: Tree)
    requires Wellformed(t, 0)
    ensures 1 in t.pages
    ensures var c := Chain(t, FirstLeaf(t, 1));
            && Strung(t, c) && (forall a :: a in c <==> a in t.pages && t.pages[a].LeafPage?)
            && t.pages[c[0]].left == 0 && t.pages[c[|c| - 1]].right == 0
  {
    hide Wellformed, Strung;
    RootFacts(t, 0);
    var f := FirstLeaf(t, 1);
    ChainIsLeavesFrom(t, f);
    LeafFacts(t, 0, f);
  }

  /** The entry counts along the chain from leaf `i`. */
  ghost function ChainCount(t: Tree, c: seq<nat>): nat
    requires forall a :: a in c ==> a in t.pages
  {
    if c == [] then 0 else t.pages[c[0]].Count() + ChainCount(t, c[1..])
  }

  lemma {:induction false} ChainCountFrom(t: Tree, m: map<Key, Value>, i: nat)
    requires Wellformed(t, 0) && Stores(t, m) && i in t.pages && t.pages[i].LeafPage?
    ensures forall a :: a in Chain(t, i) ==> a in t.pages
    ensures ChainCount(t, Chain(t, i)) == |KeysIn(m, t.info[i].lo, PosInf)|
    decreases |LeavesFrom(t, i)|
  {
    hide Wellformed, Stores;
    RootFacts(t, 0);
    ChainIsLeavesFrom(t, i);
    LeafSize(t, 0, m, i);
    var c, r := Chain(t, i), t.pages[i].right;
    if r == 0 {
      LastLeaf(t, 0, i);
    } else {
      RightNeighbour(t, 0, i);
      ChainCountFrom(t, m, r);
      assert c[1..] == Chain(t, r);
      KeysInSplit(m, t.info[i].lo, t.info[i].hi, PosInf);
    }
  }

  /** The entries along the leaf chain are as many as the map has. */
  lemma ChainCountsAll(t: Tree, m: map<Key, Value>)
    requires Wellformed(t, 0) && Stores(t, m)
    ensures 1 in t.pages && forall a :: a in Chain(t, FirstLeaf(t, 1)) ==> a in t.pages
    ensures ChainCount(t, Chain(t, FirstLeaf(t, 1))) == |m|
  {
    hide Wellformed, Stores;
    RootFacts(t, 0);
    ChainCountFrom(t, m, FirstLeaf(t, 1));
    AllKeys(m);
  }

  // ---------------------------------------------------------------- key ranges

  ghost predicate Stored(m: map<Key, Value>, e: LeafEntry) {
    e.key in m && m[e.key] == e.value
  }

  /** `s` lists, in ascending order, exactly the entries with keys in [k1, k2]. */
  ghost predicate IsSlice(m: map<Key, Value>, k1: Key, k2: Key, s: seq<LeafEntry>) {
    SortedLeaf(s) && forall e :: e in s <==> Stored(m, e) && k1 <= e.key <= k2
  }

  /** The leaf responsible for `k` holds a key that is not below `k`. */
  ghost predicate LeafReaches(t: Tree, k: Key)
    requires t.pages.Keys == t.info.Keys
  {
    exists i, j ::
      i in t.pages && t.pages[i].LeafPage? && In(t.info[i].lo, t.info[i].hi, k)
      && 0 <= j < |t.pages[i].lentries| && k <= t.pages[i].lentries[j].key
  }

  /** Nothing is stored between two neighbouring entries of a leaf. */
  lemma GapInLeaf(t: Tree, full: nat, m: map<Key, Value>, i: nat, k: Key, e: nat, x: LeafEntry)
    requires Wellformed(t, full) && Stores(t, m) && i in t.pages && i in t.info && t.pages[i].LeafPage?
    requires In(t.info[i].lo, t.info[i].hi, k) && e < |t.pages[i].lentries|
    requires e > 0 ==> t.pages[i].lentries[e - 1].key < k
    requires Stored(m, x) && k <= x.key
    ensures t.pages[i].lentries[e].key <= x.key
  {
  }

  /** What is stored and in the range of a leaf is an entry of the leaf. */
  lemma StoredInLeaf(t: Tree, full: nat, m: map<Key, Value>, i: nat, x: LeafEntry)
    requires Wellformed(t, full) && Stores(t, m) && i in t.pages && i in t.info && t.pages[i].LeafPage? && Stored(m, x)
    ensures In(t.info[i].lo, t.info[i].hi, x.key) ==>
              exists a :: 0 <= a < |t.pages[i].lentries| && t.pages[i].lentries[a] == x
  {
  }

  /** Nothing is stored between the last entry of a leaf and the first of its right neighbour. */
  lemma GapBetweenLeaves(t: Tree, full: nat, m: map<Key, Value>, i: nat, x: LeafEntry)
    requires Wellformed(t, full) && Stores(t, m) && i in t.pages && t.pages[i].LeafPage? && |t.pages[i].lentries| > 0
    requires Stored(m, x) && t.pages[i].lentries[|t.pages[i].lentries| - 1].key < x.key
    ensures var r := t.pages[i].right;
            && r != 0 && r in t.pages && t.pages[r].LeafPage?
            && (|t.pages[r].lentries| > 0 ==> t.pages[r].lentries[0].key <= x.key)
  {
    hide Wellformed, Stores;
    var es, r := t.pages[i].lentries, t.pages[i].right;
    LeafFacts(t, full, i);
    StoredInLeaf(t, full, m, i, x);
    assert In(t.info[i].lo, t.info[i].hi, es[|es| - 1].key);
    assert !In(t.info[i].lo, t.info[i].hi, x.key);
    LeafFacts(t, full, r);
    StoredInLeaf(t, full, m, r, x);
    var es' := t.pages[r].lentries;
    assert |es'| > 0 ==> In(t.info[r].lo, t.info[r].hi, es'[0].key);
  }

  /** `s` lists, in ascending order, exactly the entries with keys in [k1, bound). */
  ghost predicate Listed(m: map<Key, Value>, k1: Key, bound: Bound, s: seq<LeafEntry>) {
    SortedLeaf(s) && forall e :: e in s <==> Stored(m, e) && In(At(k1), bound, e.key)
  }

  lemma ListOneMore(m: map<Key, Value>, k1: Key, y: LeafEntry, bound: Bound, s: seq<LeafEntry>)
    requires Listed(m, k1, At(y.key), s) && Stored(m, y) && k1 <= y.key
    requires Lt(At(y.key), bound)
    requires forall x :: Stored(m, x) && y.key < x.key ==> !In(At(k1), bound, x.key)
    ensures Listed(m, k1, bound, s + [y])
  {
  }

  /** What the next entry of the walk is, and that nothing stored lies before it. */
  ghost function NextKey(t: Tree, i: nat, e: nat): Bound
    requires i in t.pages && t.pages[i].LeafPage? && e < |t.pages[i].lentries|
    requires t.pages[i].right != 0 ==>
               t.pages[i].right in t.pages && t.pages[t.pages[i].right].LeafPage? &&
                 |t.pages[t.pages[i].right].lentries| > 0
  {
    var p := t.pages[i];
    if e + 1 < |p.lentries| then At(p.lentries[e + 1].key)
    else if p.right == 0 then PosInf
    else At(t.pages[p.right].lentries[0].key)
  }

  lemma NextStored(t: Tree, m: map<Key, Value>, i: nat, e: nat)
    requires Wellformed(t, 0) && Stores(t, m) && i in t.pages && t.pages[i].LeafPage? && e < |t.pages[i].lentries|
    ensures t.pages[i].right != 0 ==>
              t.pages[i].right in t.pages && t.pages[t.pages[i].right].LeafPage? &&
                |t.pages[t.pages[i].right].lentries| > 0
    ensures Stored(m, t.pages[i].lentries[e]) && Lt(At(t.pages[i].lentries[e].key), NextKey(t, i, e))
    ensures forall x :: Stored(m, x) && t.pages[i].lentries[e].key < x.key ==> !In(NegInf, NextKey(t, i, e), x.key)
  {
    hide Wellformed, Stores, Stored;
    var p := t.pages[i];
    LeafFacts(t, 0, i);
    if p.right != 0 {
      RightNeighbour(t, 0, i);
      LeafFacts(t, 0, p.right);
    }
    EntryStored(t, m, i, e);
    forall x | Stored(m, x) && p.lentries[e].key < x.key ensures !In(NegInf, NextKey(t, i, e), x.key) {
      if e + 1 < |p.lentries| {
        if !(p.lentries[e + 1].key <= x.key) { GapInLeaf(t, 0, m, i, x.key, e + 1, x); }
      } else {
        GapBetweenLeaves(t, 0, m, i, x);
      }
    }
  }

  lemma NothingBefore(t: Tree, m: map<Key, Value>, i: nat, k: Key, e: nat)
    requires Wellformed(t, 0) && Stores(t, m) && i in t.pages && i in t.info && t.pages[i].LeafPage?
    requires In(t.info[i].lo, t.info[i].hi, k) && e < |t.pages[i].lentries|
    requires forall a :: 0 <= a < e ==> t.pages[i].lentries[a].key < k
    ensures Listed(m, k, At(t.pages[i].lentries[e].key), [])
  {
  }

  lemma ListedIsSlice(m: map<Key, Value>, k1: Key, bound: Bound, k2: Key, s: seq<LeafEntry>)
    requires Listed(m, k1, bound, s) && Lt(At(k2), bound) && forall x :: x in s ==> x.key <= k2
    ensures IsSlice(m, k1, k2, s)
  {
  }

  // ---------------------------------------------------------------- when a range is served

  ghost function SlotFor(es: seq<NodeEntry>, k: Key): (j: nat)
    requires SortedNode(es)
    ensures j <= |es| && (j > 0 ==> es[j - 1].key <= k) && (j < |es| ==> k < es[j].key)
  {
    if es == [] then 0 else if es[|es| - 1].key <= k then |es| else SlotFor(es[..|es| - 1], k)
  }

  lemma SlotUnique(es: seq<NodeEntry>, k: Key, j: nat)
    requires SortedNode(es) && j <= |es| && (j > 0 ==> es[j - 1].key <= k) && (j < |es| ==> k < es[j].key)
    ensures j == SlotFor(es, k)
  {
    hide SlotFor;
  }

  /** Every key has a leaf responsible for it. */
  lemma {:induction false} LeafFor(t: Tree, page: nat, k: Key) returns (i: nat)
    requires Wellformed(t, 0) && page in t.pages && page in t.info && In(t.info[page].lo, t.info[page].hi, k)
    ensures i in t.pages && t.pages[i].LeafPage? && i in t.info && In(t.info[i].lo, t.info[i].hi, k)
    decreases t.info[page].level
  {
    hide Wellformed;
    if t.pages[page].LeafPage? { return page; }
    NodeFacts(t, 0, page);
    var j := SlotFor(t.pages[page].nentries, k);
    NextInRange(t, 0, page, j, k);
    i := LeafFor(t, Child(t.pages[page], j), k);
  }

  /** The child whose slot surrounds a key is responsible for the key. */
  lemma NextInRange(t: Tree, full: nat, i: nat, j: nat, key: Key)
    requires Wellformed(t, full) && i in t.pages && t.pages[i].NodePage? && j <= |t.pages[i].nentries|
    requires i in t.info && In(t.info[i].lo, t.info[i].hi, key)
    requires j > 0 ==> t.pages[i].nentries[j - 1].key <= key
    requires j < |t.pages[i].nentries| ==> key < t.pages[i].nentries[j].key
    ensures var c := Child(t.pages[i], j);
            && c in t.pages && c in t.info && c != 1 && In(t.info[c].lo, t.info[c].hi, key)
            && t.info[i].level > 0 && t.info[c].level == t.info[i].level - 1
  {
    assert GoodChild(t, i, j);
    assert GoodNode(t.pages[i], t.info[i]);
  }

  /** A range that starts at a stored key is served. */
  lemma ReachesStored(t: Tree, m: map<Key, Value>, k: Key)
    requires Wellformed(t, 0) && Stores(t, m) && k in m
    ensures t.pages.Keys == t.info.Keys && LeafReaches(t, k)
  {
    hide Wellformed, Stores;
    RootFacts(t, 0);
    var i := LeafFor(t, 1, k);
    StoredInLeaf(t, 0, m, i, LeafEntry(k, m[k]));
  }

  /** A range that starts at or before the smallest stored key is served. */
  lemma ReachesFromBelow(t: Tree, m: map<Key, Value>, k: Key)
    requires Wellformed(t, 0) && Stores(t, m) && m != map[] && forall k' :: k' in m ==> k <= k'
    ensures t.pages.Keys == t.info.Keys && LeafReaches(t, k)
  {
    hide Wellformed, Stores;
    RootFacts(t, 0);
    var i := LeafFor(t, 1, k);
    LeafNotEmpty(t, m, i);
    EntryStored(t, m, i, 0);
  }

  lemma EntryStored(t: Tree, m: map<Key, Value>, i: nat, e: nat)
    requires Wellformed(t, 0) && Stores(t, m) && i in t.pages && t.pages[i].LeafPage? && e < |t.pages[i].lentries|
    ensures Stored(m, t.pages[i].lentries[e])
  {
  }

  lemma LeafNotEmpty(t: Tree, m: map<Key, Value>, i: nat)
    requires Wellformed(t, 0) && Stores(t, m) && m != map[] && i in t.pages && t.pages[i].LeafPage?
    ensures |t.pages[i].lentries| > 0
  {
    hide Wellformed, Stores;
    LeafFacts(t, 0, i);
    if i == 1 {
      LeafSize(t, 0, m, 1);
      AllKeys(m);
      assert m.Keys != {};
    }
  }

  /** A tree of one leaf. */
  ghost function Seedling(es: seq<LeafEntry>): Tree {
    Tree(map[1 := LeafPage(1, 0, 0, es)], map[1 := Info(0, NegInf, PosInf, 0)], 4, 4)
  }

  lemma SeedlingGood(es: seq<LeafEntry>, m: map<Key, Value>)
    requires SortedLeaf(es) && |es| == 4 && forall e :: e in es <==> Stored(m, e)
    ensures Wellformed(Seedling(es), 1) && Stores(Seedling(es), m)
  {
  }

  /** A range can miss stored keys: with 1, 2 in one leaf and 10, 11 in the next, the range from 5 is empty. */
  lemma RangeCanMiss(v: Value) returns (t: Tree, m: map<Key, Value>)
    ensures Wellformed(t, 0) && Stores(t, m) && m.Keys == {1.0, 2.0, 10.0, 11.0}
    ensures !LeafReaches(t, 5.0)
  {
    hide Wellformed, Stores, LeafReaches, Domain;
    var es := [LeafEntry(1.0, v), LeafEntry(2.0, v), LeafEntry(10.0, v), LeafEntry(11.0, v)];
    m := map[1.0 := v, 2.0 := v, 10.0 := v, 11.0 := v];
    var t0 := Seedling(es);
    SeedlingGood(es, m);
    SplitRootLeafKeeps(t0, 2, 3);
    RootFacts(SplitRootLeaf(t0, 2, 3), 0);
    SplitRootLeafStores(t0, 2, 3, m);
    t := SplitRootLeaf(t0, 2, 3);
    FirstHalfEndsBefore(t0, 5.0);
  }

  /** After the split of a lone leaf, a key between the halves leads to the first half, which ends before it. */
  lemma FirstHalfEndsBefore(t: Tree, k: Key)
    requires CanSplitRootLeaf(t, 2, 3) && t.pages.Keys == {1} == t.info.Keys && SortedLeaf(t.pages[1].lentries)
    requires t.pages[1].lentries[t.maxLeaf / 2 - 1].key < k < SplitKeyLeaf(t, 1)
    ensures !LeafReaches(SplitRootLeaf(t, 2, 3), k)
  {
  }
}
