/**
 What it means for a set of pages to be a B+tree, page by page.

 Next to every page the proof keeps its level above the leaves, the half-open key range it is
 responsible for and its parent. All conditions are local to a page and its neighbours, so a
 split has to be checked only around the pages it writes.
 */
module TreeShape {
  import opened Pages

  datatype Bound = NegInf | At(key: Key) | PosInf

  ghost predicate Lt(a: Bound, b: Bound) {
    || (a.NegInf? && !b.NegInf?)
    || (!a.PosInf? && b.PosInf?)
    || (a.At? && b.At? && a.key < b.key)
  }

  /** The key belongs to the half-open range [lo, hi). */
  ghost predicate In(lo: Bound, hi: Bound, k: Key) {
    && (lo.NegInf? || (lo.At? && lo.key <= k))
    && (hi.PosInf? || (hi.At? && k < hi.key))
  }

  datatype Info = Info(level: nat, lo: Bound, hi: Bound, parent: nat)

  datatype Tree = Tree(pages: map<nat, Page>, info: map<nat, Info>, maxLeaf: nat, maxNode: nat)

  function MinLeaf(t: Tree): nat { t.maxLeaf / 2 }
  function MinNode(t: Tree): int { t.maxNode - t.maxNode / 2 - 1 }

  function Child(p: Page, j: nat): nat
    requires p.NodePage? && j <= |p.nentries|
  {
    if j == 0 then p.left else p.nentries[j - 1].page
  }

  ghost function SlotLo(p: Page, lo: Bound, j: nat): Bound
    requires p.NodePage? && j <= |p.nentries|
  {
    if j == 0 then lo else At(p.nentries[j - 1].key)
  }

  ghost function SlotHi(p: Page, hi: Bound, j: nat): Bound
    requires p.NodePage? && j <= |p.nentries|
  {
    if j == |p.nentries| then hi else At(p.nentries[j].key)
  }

  ghost predicate GoodLeaf(p: Page, x: Info)
    requires p.LeafPage?
  {
    && x.level == 0
    && SortedLeaf(p.lentries)
    && forall j :: 0 <= j < |p.lentries| ==> In(x.lo, x.hi, p.lentries[j].key)
  }

  ghost predicate GoodNode(p: Page, x: Info)
    requires p.NodePage?
  {
    && x.level > 0
    && |p.nentries| > 0
    && SortedNode(p.nentries)
    && forall j :: 0 <= j < |p.nentries| ==> Lt(x.lo, At(p.nentries[j].key)) && Lt(At(p.nentries[j].key), x.hi)
  }

  /** The child in slot `j` of node `i` exists, hangs below `i` only, one level down, and is responsible for exactly
      the keys between the separators around the slot. */
  ghost predicate GoodChild(t: Tree, i: nat, j: nat)
    requires i in t.pages && i in t.info && t.pages[i].NodePage? && j <= |t.pages[i].nentries|
  {
    var p, x, c := t.pages[i], t.info[i], Child(t.pages[i], j);
    && c in t.pages && c in t.info && c != 1
    && t.info[c] == Info(if x.level == 0 then 0 else x.level - 1, SlotLo(p, x.lo, j), SlotHi(p, x.hi, j), i)
  }

  /** The sibling links of leaf `i` meet the neighbouring ranges, in both directions. */
  ghost predicate GoodLinks(t: Tree, i: nat)
    requires i in t.pages && t.pages.Keys == t.info.Keys && t.pages[i].LeafPage?
  {
    var p, x := t.pages[i], t.info[i];
    && (p.left == 0 ==> x.lo.NegInf?)
    && (p.left != 0 ==>
          && p.left in t.pages && t.pages[p.left].LeafPage? && t.pages[p.left].right == i
          && t.info[p.left].hi == x.lo)
    && (p.right == 0 ==> x.hi.PosInf?)
    && (p.right != 0 ==>
          && p.right in t.pages && t.pages[p.right].LeafPage? && t.pages[p.right].left == i
          && t.info[p.right].lo == x.hi)
  }

  ghost predicate Apart(a: Info, b: Info) {
    !Lt(b.lo, a.hi) || !Lt(a.lo, b.hi)
  }

  /** Occupancy of page `i`; only page `full` may have reached capacity. */
  ghost predicate GoodSize(t: Tree, i: nat, full: nat)
    requires i in t.pages
  {
    var p := t.pages[i];
    var max := if p.LeafPage? then t.maxLeaf else t.maxNode;
    && (if i == full then p.Count() <= max else p.Count() < max)
    && (i != 1 ==> p.Count() >= if p.LeafPage? then MinLeaf(t) else MinNode(t))
  }

  ghost predicate Domain(t: Tree) {
    && t.maxLeaf > 3 && t.maxNode > 3
    && t.pages.Keys == t.info.Keys
    && 0 !in t.pages && 1 in t.pages
    && t.info[1].lo == NegInf && t.info[1].hi == PosInf
    && (forall i :: i in t.pages ==> t.pages[i].id == i && Lt(t.info[i].lo, t.info[i].hi))
  }

  ghost predicate Locals(t: Tree)
    requires t.pages.Keys == t.info.Keys
  {
    forall i :: i in t.pages ==>
      if t.pages[i].LeafPage? then GoodLeaf(t.pages[i], t.info[i]) else GoodNode(t.pages[i], t.info[i])
  }

  ghost predicate Children(t: Tree)
    requires t.pages.Keys == t.info.Keys
  {
    forall i, j :: i in t.pages && t.pages[i].NodePage? && 0 <= j <= |t.pages[i].nentries| ==> GoodChild(t, i, j)
  }

  ghost predicate Links(t: Tree)
    requires t.pages.Keys == t.info.Keys
  {
    forall i :: i in t.pages && t.pages[i].LeafPage? ==> GoodLinks(t, i)
  }

  ghost predicate LeavesApart(t: Tree)
    requires t.pages.Keys == t.info.Keys
  {
    forall i, j :: i in t.pages && j in t.pages && t.pages[i].LeafPage? && t.pages[j].LeafPage? && i != j ==>
      Apart(t.info[i], t.info[j])
  }

  ghost predicate Sizes(t: Tree, full: nat) {
    forall i :: i in t.pages ==> GoodSize(t, i, full)
  }

  /** A B+tree in which only page `full` (0: none) may have reached capacity. */
  ghost predicate Wellformed(t: Tree, full: nat) {
    Domain(t) && Locals(t) && Children(t) && Links(t) && LeavesApart(t) && Sizes(t, full)
  }

  /** The leaves hold exactly the entries of `m`: a leaf answers for every key of its range. */
  ghost predicate Stores(t: Tree, m: map<Key, Value>)
    requires t.pages.Keys == t.info.Keys
  {
    forall i, e: LeafEntry :: i in t.pages && t.pages[i].LeafPage? && In(t.info[i].lo, t.info[i].hi, e.key) ==>
      (e in t.pages[i].lentries <==> e.key in m && m[e.key] == e.value)
  }

  lemma RootFacts(t: Tree, full: nat)
    requires Wellformed(t, full)
    ensures Domain(t)
  {
  }

  lemma LeafFacts(t: Tree, full: nat, i: nat)
    requires Wellformed(t, full) && i in t.pages && t.pages[i].LeafPage?
    ensures Domain(t) && GoodLeaf(t.pages[i], t.info[i]) && GoodLinks(t, i) && GoodSize(t, i, full)
  {
  }

  lemma NodeFacts(t: Tree, full: nat, i: nat)
    requires Wellformed(t, full) && i in t.pages && t.pages[i].NodePage?
    ensures Domain(t) && GoodNode(t.pages[i], t.info[i]) && GoodSize(t, i, full)
  {
  }

  /** Once the last page is below capacity again the tree is settled. */
  lemma Settled(t: Tree, i: nat)
    requires Wellformed(t, i) && i in t.pages
    requires t.pages[i].Count() != if t.pages[i].LeafPage? then t.maxLeaf else t.maxNode
    ensures Wellformed(t, 0)
  {
  }

  /** Different slots of a node hold different children. */
  lemma SlotsDistinct(t: Tree, q: nat, a: nat, b: nat)
    requires Domain(t) && Locals(t) && Children(t)
    requires q in t.pages && t.pages[q].NodePage? && a < b <= |t.pages[q].nentries|
    ensures Child(t.pages[q], a) != Child(t.pages[q], b)
  {
    assert GoodChild(t, q, a) && GoodChild(t, q, b);
    assert GoodNode(t.pages[q], t.info[q]);
    assert Lt(SlotLo(t.pages[q], t.info[q].lo, a), SlotLo(t.pages[q], t.info[q].lo, b));
  }

  // ---------------------------------------------------------------- writing an entry into a leaf

  ghost function PutLeaf(t: Tree, i: nat, es: seq<LeafEntry>): Tree
    requires i in t.pages && t.pages[i].LeafPage?
  {
    t.(pages := t.pages[i := t.pages[i].(lentries := es)])
  }

  lemma PutLeafChildren(t: Tree, i: nat, es: seq<LeafEntry>)
    requires Domain(t) && Children(t) && i in t.pages && t.pages[i].LeafPage?
    ensures Children(PutLeaf(t, i, es))
  {
    var t' := PutLeaf(t, i, es);
    forall a, j | a in t'.pages && t'.pages[a].NodePage? && 0 <= j <= |t'.pages[a].nentries|
      ensures GoodChild(t', a, j)
    {
      assert GoodChild(t, a, j);
    }
  }

  lemma PutLeafLinks(t: Tree, i: nat, es: seq<LeafEntry>)
    requires Domain(t) && Links(t) && i in t.pages && t.pages[i].LeafPage?
    ensures Links(PutLeaf(t, i, es))
  {
    var t' := PutLeaf(t, i, es);
    forall a | a in t'.pages && t'.pages[a].LeafPage? ensures GoodLinks(t', a) {
      assert GoodLinks(t, a);
    }
  }

  lemma PutLeafKeeps(t: Tree, i: nat, es: seq<LeafEntry>)
    requires Wellformed(t, 0) && i in t.pages && t.pages[i].LeafPage?
    requires GoodLeaf(t.pages[i].(lentries := es), t.info[i])
    requires |t.pages[i].lentries| <= |es| <= t.maxLeaf
    ensures Wellformed(PutLeaf(t, i, es), i)
  {
    PutLeafLocals(t, i, es);
    PutLeafChildren(t, i, es);
    PutLeafLinks(t, i, es);
    PutLeafApart(t, i, es);
    PutLeafSizes(t, i, es);
    hide Domain, Locals, Children, Links, LeavesApart, Sizes;
  }

  lemma PutLeafLocals(t: Tree, i: nat, es: seq<LeafEntry>)
    requires Domain(t) && Locals(t) && i in t.pages && t.pages[i].LeafPage?
    requires GoodLeaf(t.pages[i].(lentries := es), t.info[i])
    ensures Domain(PutLeaf(t, i, es)) && Locals(PutLeaf(t, i, es))
  {
    hide GoodLeaf, GoodNode;
  }

  lemma PutLeafApart(t: Tree, i: nat, es: seq<LeafEntry>)
    requires Domain(t) && LeavesApart(t) && i in t.pages && t.pages[i].LeafPage?
    ensures LeavesApart(PutLeaf(t, i, es))
  {
    hide Apart;
  }

  lemma PutLeafSizes(t: Tree, i: nat, es: seq<LeafEntry>)
    requires Domain(t) && Sizes(t, 0) && i in t.pages && t.pages[i].LeafPage? &&
             |t.pages[i].lentries| <= |es| <= t.maxLeaf
    ensures Sizes(PutLeaf(t, i, es), i)
  {
    forall a | a in t.pages ensures GoodSize(PutLeaf(t, i, es), a, i) { assert GoodSize(t, a, 0); }
  }

  lemma PutLeafStores(t: Tree, i: nat, es: seq<LeafEntry>, m: map<Key, Value>, k: Key, v: Value)
    requires Wellformed(t, 0) && Stores(t, m) && i in t.pages && t.pages[i].LeafPage?
    requires In(t.info[i].lo, t.info[i].hi, k)
    requires forall e: LeafEntry :: e in es <==> (if e.key == k then e.value == v else e in t.pages[i].lentries)
    ensures Stores(PutLeaf(t, i, es), m[k := v])
  {
  }

  // ---------------------------------------------------------------- splitting a full leaf below a parent

  /** The parent `q` after the new page `n` with separator `k` went in right after slot `e`. */
  ghost function WithEntry(t: Tree, q: nat, e: nat, k: Key, n: nat): Page
    requires q in t.pages && t.pages[q].NodePage? && e <= |t.pages[q].nentries|
  {
    t.pages[q].(nentries := InsertAt(t.pages[q].nentries, e, NodeEntry(k, n)))
  }

  ghost predicate CanSplit(t: Tree, i: nat, n: nat, q: nat, e: nat) {
    && i in t.pages && i != 1 && n !in t.pages && n != 0
    && q in t.pages && t.pages[q].NodePage? && e <= |t.pages[q].nentries|
    && Child(t.pages[q], e) == i
    && i in t.info && q in t.info
  }

  ghost predicate CanSplitLeaf(t: Tree, i: nat, n: nat, q: nat, e: nat) {
    && CanSplit(t, i, n, q, e)
    && t.pages[i].LeafPage? && |t.pages[i].lentries| == t.maxLeaf > 3
  }

  ghost function SplitKeyLeaf(t: Tree, i: nat): Key
    requires i in t.pages && t.pages[i].LeafPage? && |t.pages[i].lentries| == t.maxLeaf > 3
  {
    t.pages[i].lentries[t.maxLeaf / 2].key
  }

  /** Relinks the right neighbour of leaf `i`, if there is one. */
  ghost function Relinked(pages: map<nat, Page>, r: nat, n: nat): map<nat, Page>
    requires r != 0 ==> r in pages
  {
    if r == 0 then pages else pages[r := pages[r].(left := n)]
  }

  ghost function SplitLeaf(t: Tree, i: nat, n: nat, q: nat, e: nat): Tree
    requires CanSplitLeaf(t, i, n, q, e)
    requires t.pages[i].right != 0 ==> t.pages[i].right in t.pages
  {
    var p, mid, k := t.pages[i], t.maxLeaf / 2, SplitKeyLeaf(t, i);
    t.(pages := Relinked(t.pages, p.right, n)
                [n := LeafPage(n, i, p.right, p.lentries[mid..])]
                [i := LeafPage(i, p.left, n, p.lentries[..mid])]
                [q := WithEntry(t, q, e, k, n)],
       info := t.info[n := Info(0, At(k), t.info[i].hi, q)][i := t.info[i].(hi := At(k))])
  }

  lemma SplitKeyInside(t: Tree, i: nat)
    requires i in t.pages && t.pages[i].LeafPage? && |t.pages[i].lentries| == t.maxLeaf > 3
    requires i in t.info && GoodLeaf(t.pages[i], t.info[i])
    ensures Lt(t.info[i].lo, At(SplitKeyLeaf(t, i))) && Lt(At(SplitKeyLeaf(t, i)), t.info[i].hi)
  {
    var es := t.pages[i].lentries;
    assert In(t.info[i].lo, t.info[i].hi, es[0].key) && In(t.info[i].lo, t.info[i].hi, es[t.maxLeaf / 2].key);
  }

  /** What is known of a leaf that is split, its parent and its right neighbour. */
  lemma SplitLeafFacts(t: Tree, i: nat, n: nat, q: nat, e: nat)
    requires Domain(t) && Locals(t) && Links(t) && CanSplitLeaf(t, i, n, q, e)
    ensures GoodLeaf(t.pages[i], t.info[i]) && GoodLinks(t, i) && i != q && t.pages[i].right != i &&
            t.pages[i].right != q
    ensures Lt(t.info[i].lo, At(SplitKeyLeaf(t, i))) && Lt(At(SplitKeyLeaf(t, i)), t.info[i].hi)
  {
    assert GoodLinks(t, i);
    SplitKeyInside(t, i);
  }

  /** What a leaf split makes of page `a`. */
  lemma SplitLeafAt(t: Tree, i: nat, n: nat, q: nat, e: nat, a: nat)
    requires CanSplitLeaf(t, i, n, q, e) && i != q && t.pages[i].right != i && t.pages[i].right != q
    requires (t.pages[i].right != 0 ==> t.pages[i].right in t.pages) && n !in t.info
    ensures var p, mid, k, t' := t.pages[i], t.maxLeaf / 2, SplitKeyLeaf(t, i), SplitLeaf(t, i, n, q, e);
            && (a in t'.pages <==> a in t.pages || a == n) && (a in t'.info <==> a in t.info || a == n)
            && (a == n ==> t'.pages[a] == LeafPage(n, i, p.right, p.lentries[mid..]))
            && (a == i ==> t'.pages[a] == LeafPage(i, p.left, n, p.lentries[..mid]))
            && (a == q ==> t'.pages[a] == WithEntry(t, q, e, k, n))
            && (a in t.pages && a != i && a != q ==> t'.pages[a] == Relinked(t.pages, p.right, n)[a])
            && (a == n ==> t'.info[a] == Info(0, At(k), t.info[i].hi, q))
            && (a == i ==> t'.info[a] == t.info[i].(hi := At(k)))
            && (a in t.info && a != i ==> t'.info[a] == t.info[a])
            && t'.maxLeaf == t.maxLeaf && t'.maxNode == t.maxNode
  {
  }

  /** The entries of a sorted page on the two sides of one of its keys. */
  lemma SplitMembers(es: seq<LeafEntry>, mid: nat, x: LeafEntry)
    requires SortedLeaf(es) && mid < |es|
    ensures x.key < es[mid].key ==> (x in es <==> x in es[..mid])
    ensures es[mid].key <= x.key ==> (x in es <==> x in es[mid..])
  {
    assert es == es[..mid] + es[mid..];
    assert forall j :: 0 <= j < mid ==> es[j].key < es[mid].key;
    assert forall j :: mid < j < |es| ==> es[mid].key < es[j].key;
  }

  lemma SplitLeafDomain(t: Tree, i: nat, n: nat, q: nat, e: nat)
    requires Domain(t) && Locals(t) && Links(t) && CanSplitLeaf(t, i, n, q, e)
    ensures Domain(SplitLeaf(t, i, n, q, e))
  {
    SplitLeafFacts(t, i, n, q, e);
    hide Locals, Links, GoodLeaf;
  }

  /** A separator strictly inside slot `e` keeps the node sorted and within its range. */
  lemma WithEntryGood(t: Tree, q: nat, e: nat, k: Key, n: nat)
    requires q in t.pages && q in t.info && t.pages[q].NodePage? && e <= |t.pages[q].nentries|
    requires GoodNode(t.pages[q], t.info[q])
    requires Lt(SlotLo(t.pages[q], t.info[q].lo, e), At(k)) && Lt(At(k), SlotHi(t.pages[q], t.info[q].hi, e))
    ensures GoodNode(WithEntry(t, q, e, k, n), t.info[q])
  {
  }

  lemma SplitLeafLocals(t: Tree, i: nat, n: nat, q: nat, e: nat)
    requires Domain(t) && Locals(t) && Links(t) && CanSplitLeaf(t, i, n, q, e) && GoodChild(t, q, e)
    requires SplitLeaf(t, i, n, q, e).pages.Keys == SplitLeaf(t, i, n, q, e).info.Keys
    ensures Locals(SplitLeaf(t, i, n, q, e))
  {
    SplitLeafFacts(t, i, n, q, e);
    hide SplitLeaf, Links;
    var t' := SplitLeaf(t, i, n, q, e);
    WithEntryGood(t, q, e, SplitKeyLeaf(t, i), n);
    SplitLeafAt(t, i, n, q, e, i);
    SplitLeafAt(t, i, n, q, e, n);
    HalvesSorted(t.pages[i].lentries, t.info[i], t.maxLeaf / 2, t'.pages[i], t'.pages[n], q);
    hide GoodNode, WithEntry, GoodLinks;
    forall a | a in t'.pages
      ensures if t'.pages[a].LeafPage? then GoodLeaf(t'.pages[a], t'.info[a]) else GoodNode(t'.pages[a], t'.info[a])
    {
      SplitLeafAt(t, i, n, q, e, a);
    }
  }

  /** The two halves of a leaf on the two sides of the first key of the upper one. */
  lemma HalvesSorted(es: seq<LeafEntry>, x: Info, mid: nat, a: Page, b: Page, q: nat)
    requires a.LeafPage? && b.LeafPage? && mid < |es| && a.lentries == es[..mid] && b.lentries == es[mid..]
    requires x.level == 0 && SortedLeaf(es) && forall j :: 0 <= j < |es| ==> In(x.lo, x.hi, es[j].key)
    ensures GoodLeaf(a, x.(hi := At(es[mid].key))) && GoodLeaf(b, Info(0, At(es[mid].key), x.hi, q))
  {
  }

  lemma NotOwnParent(t: Tree, i: nat, n: nat, q: nat, e: nat)
    requires Domain(t) && Locals(t) && Children(t) && CanSplit(t, i, n, q, e)
    ensures i != q && t.info[i].parent == q && GoodChild(t, q, e)
  {
    assert GoodChild(t, q, e);
    assert GoodNode(t.pages[q], t.info[q]);
  }

  /** The slots of the parent: the split page keeps slot `e` up to key `k`, the new page takes the next one. */
  lemma ParentChild(t: Tree, t': Tree, i: nat, n: nat, q: nat, e: nat, k: Key, j: nat)
    requires Domain(t) && Locals(t) && Children(t) && CanSplit(t, i, n, q, e)
    requires {q, i, n} <= t'.pages.Keys && {q, i, n} <= t'.info.Keys
    requires t'.pages[q] == WithEntry(t, q, e, k, n) && t'.info[q] == t.info[q]
    requires t'.info[n] == Info(t.info[i].level, At(k), t.info[i].hi, q) && t'.info[i] == t.info[i].(hi := At(k))
    requires forall c :: c in t.info && c != i && t.info[c].parent == q ==>
               c in t'.pages && c in t'.info && t'.info[c] == t.info[c]
    requires j <= |t.pages[q].nentries| + 1
    ensures GoodChild(t', q, j)
  {
    assert GoodChild(t, q, e);
    if j < e {
      assert GoodChild(t, q, j);
      SlotsDistinct(t, q, j, e);
    } else if j > e + 1 {
      assert GoodChild(t, q, j - 1);
      SlotsDistinct(t, q, e, j - 1);
    }
  }

  /** A slot whose page, and whose child, are as they were. */
  lemma SameChild(t: Tree, t': Tree, a: nat, j: nat)
    requires a in t.pages && a in t.info && t.pages[a].NodePage? && j <= |t.pages[a].nentries| && GoodChild(t, a, j)
    requires a in t'.pages && a in t'.info && t'.pages[a] == t.pages[a] &&
             t'.info[a] == t.info[a].(parent := t'.info[a].parent)
    requires var c := Child(t.pages[a], j); c in t'.pages && c in t'.info && t'.info[c] == t.info[c]
    ensures GoodChild(t', a, j)
  {
  }

  lemma SplitLeafChildren(t: Tree, i: nat, n: nat, q: nat, e: nat)
    requires Domain(t) && Locals(t) && Links(t) && Children(t) && CanSplitLeaf(t, i, n, q, e)
    ensures Children(SplitLeaf(t, i, n, q, e))
  {
    NotOwnParent(t, i, n, q, e);
    SplitLeafFacts(t, i, n, q, e);
    SplitLeafDomain(t, i, n, q, e);
    hide Links, Locals, GoodLeaf, SplitLeaf;
    var t' := SplitLeaf(t, i, n, q, e);
    forall a, j | a in t'.pages && t'.pages[a].NodePage? && 0 <= j <= |t'.pages[a].nentries|
      ensures GoodChild(t', a, j)
    {
      SplitLeafAt(t, i, n, q, e, a);
      if a != q {
        assert GoodChild(t, a, j);
        SplitLeafAt(t, i, n, q, e, Child(t.pages[a], j));
        hide Children, Domain;
        SameChild(t, t', a, j);
      } else {
        SplitLeafParent(t, i, n, q, e, j);
      }
    }
  }

  lemma SplitLeafParent(t: Tree, i: nat, n: nat, q: nat, e: nat, j: nat)
    requires Domain(t) && Locals(t) && Links(t) && Children(t) && CanSplitLeaf(t, i, n, q, e)
    requires GoodLinks(t, i) && i != q && t.info[i].level == 0 && t.pages[i].right != i && t.pages[i].right != q
    requires t.info[i].parent == q && j <= |t.pages[q].nentries| + 1
    ensures q in SplitLeaf(t, i, n, q, e).pages && q in SplitLeaf(t, i, n, q, e).info
    ensures SplitLeaf(t, i, n, q, e).pages[q] == WithEntry(t, q, e, SplitKeyLeaf(t, i), n)
    ensures GoodChild(SplitLeaf(t, i, n, q, e), q, j)
  {
    hide Locals, Links;
    ParentChild(t, SplitLeaf(t, i, n, q, e), i, n, q, e, SplitKeyLeaf(t, i), j);
  }

  lemma SplitLeafLinks(t: Tree, i: nat, n: nat, q: nat, e: nat)
    requires Domain(t) && Locals(t) && Links(t) && CanSplitLeaf(t, i, n, q, e)
    ensures Links(SplitLeaf(t, i, n, q, e))
  {
    SplitLeafFacts(t, i, n, q, e);
    SplitLeafDomain(t, i, n, q, e);
    var t' := SplitLeaf(t, i, n, q, e);
    hide SplitLeaf, Domain, Locals;
    forall a | a in t'.pages && t'.pages[a].LeafPage? ensures GoodLinks(t', a) {
      SplitLeafAt(t, i, n, q, e, a);
      if a != n {
        assert GoodLinks(t, a);
        hide Links;
        SplitLeafLink(t, i, n, q, e, a);
      } else {
        SplitLeafAt(t, i, n, q, e, i);
        SplitLeafAt(t, i, n, q, e, t.pages[i].right);
      }
    }
  }

  lemma SplitLeafLink(t: Tree, i: nat, n: nat, q: nat, e: nat, a: nat)
    requires CanSplitLeaf(t, i, n, q, e) && i != q && t.pages[i].right != i && t.pages[i].right != q
    requires t.pages.Keys == t.info.Keys && a in t.pages && t.pages[a].LeafPage? && GoodLinks(t, a) && GoodLinks(t, i)
    requires SplitLeaf(t, i, n, q, e).pages.Keys == SplitLeaf(t, i, n, q, e).info.Keys && 0 !in t.pages
    ensures a in SplitLeaf(t, i, n, q, e).pages && SplitLeaf(t, i, n, q, e).pages[a].LeafPage?
    ensures GoodLinks(SplitLeaf(t, i, n, q, e), a)
  {
    hide SplitLeaf;
    SplitLeafAt(t, i, n, q, e, a);
    SplitLeafAt(t, i, n, q, e, n);
    SplitLeafAt(t, i, n, q, e, t.pages[a].left);
    SplitLeafAt(t, i, n, q, e, t.pages[a].right);
  }

  lemma SplitLeafApart(t: Tree, i: nat, n: nat, q: nat, e: nat)
    requires Domain(t) && Locals(t) && Links(t) && LeavesApart(t) && CanSplitLeaf(t, i, n, q, e)
    ensures LeavesApart(SplitLeaf(t, i, n, q, e))
  {
    SplitLeafFacts(t, i, n, q, e);
    hide SplitLeaf, Locals, Links, GoodLeaf, GoodLinks, SplitKeyLeaf, WithEntry, Apart;
    var t' := SplitLeaf(t, i, n, q, e);
    forall a, b | a in t'.pages && b in t'.pages && t'.pages[a].LeafPage? && t'.pages[b].LeafPage? && a != b
      ensures Apart(t'.info[a], t'.info[b])
    {
      SplitLeafWithin(t, i, n, q, e, a);
      SplitLeafWithin(t, i, n, q, e, b);
      hide Domain, Lt;
      var a', b' := SplitFrom(i, n, a), SplitFrom(i, n, b);
      if a' != b' {
        ApartWithin(t.info[a'], t.info[b'], t'.info[a], t'.info[b]);
      } else {
        SplitLeafAt(t, i, n, q, e, i);
        SplitLeafAt(t, i, n, q, e, n);
        HalvesApart(t'.info[a], t'.info[b]);
      }
    }
  }

  /** The page that page `a` was part of before `n` split off from `i`. */
  ghost function SplitFrom(i: nat, n: nat, a: nat): nat { if a == n then i else a }

  lemma SplitLeafWithin(t: Tree, i: nat, n: nat, q: nat, e: nat, a: nat)
    requires CanSplitLeaf(t, i, n, q, e) && i != q && t.pages[i].right != i && t.pages[i].right != q && n !in t.info
    requires t.pages.Keys == t.info.Keys && (t.pages[i].right != 0 ==> t.pages[i].right in t.pages)
    requires Lt(t.info[i].lo, At(SplitKeyLeaf(t, i))) && Lt(At(SplitKeyLeaf(t, i)), t.info[i].hi)
    requires var t' := SplitLeaf(t, i, n, q, e); a in t'.pages && t'.pages[a].LeafPage?
    ensures var t', b := SplitLeaf(t, i, n, q, e), SplitFrom(i, n, a);
            && a in t'.info && b in t.pages && b in t.info && t.pages[b].LeafPage?
            && !Lt(t'.info[a].lo, t.info[b].lo) && !Lt(t.info[b].hi, t'.info[a].hi)
  {
    SplitLeafAt(t, i, n, q, e, a);
    hide SplitLeaf;
  }

  lemma ApartWithin(a: Info, b: Info, a': Info, b': Info)
    requires Apart(a, b) && !Lt(a'.lo, a.lo) && !Lt(a.hi, a'.hi) && !Lt(b'.lo, b.lo) && !Lt(b.hi, b'.hi)
    ensures Apart(a', b')
  {
  }

  lemma HalvesApart(a: Info, b: Info)
    requires a.hi == b.lo || b.hi == a.lo
    ensures Apart(a, b)
  {
  }

  lemma SplitLeafSizes(t: Tree, i: nat, n: nat, q: nat, e: nat)
    requires Domain(t) && Locals(t) && Links(t) && Sizes(t, i) && CanSplitLeaf(t, i, n, q, e)
    ensures Sizes(SplitLeaf(t, i, n, q, e), q)
  {
  }

  /** Nothing above the parent is written. */
  lemma SplitLeafAbove(t: Tree, i: nat, n: nat, q: nat, e: nat)
    requires t.pages.Keys == t.info.Keys && CanSplitLeaf(t, i, n, q, e)
    requires t.pages[i].right != 0 ==> t.pages[i].right in t.pages && t.pages[t.pages[i].right].LeafPage?
    requires t.info[i].level == 0
    ensures var t' := SplitLeaf(t, i, n, q, e);
            && (forall a :: a in t.info ==> a in t'.info && t'.info[a].level == t.info[a].level)
            && (forall a :: a in t.pages && t.info[a].level > t.info[q].level && t.pages[a].NodePage? ==>
                  a in t'.pages && t'.pages[a] == t.pages[a])
  {
  }

  lemma SplitLeafKeeps(t: Tree, i: nat, n: nat, q: nat, e: nat)
    requires Wellformed(t, i) && CanSplitLeaf(t, i, n, q, e)
    ensures t.pages[i].right != 0 ==> t.pages[i].right in t.pages
    ensures Wellformed(SplitLeaf(t, i, n, q, e), q)
  {
    assert GoodLinks(t, i);
    assert GoodChild(t, q, e);
    SplitLeafDomain(t, i, n, q, e);
    SplitLeafLocals(t, i, n, q, e);
    SplitLeafChildren(t, i, n, q, e);
    SplitLeafLinks(t, i, n, q, e);
    SplitLeafApart(t, i, n, q, e);
    SplitLeafSizes(t, i, n, q, e);
  }

  lemma SplitLeafStores(t: Tree, i: nat, n: nat, q: nat, e: nat, m: map<Key, Value>)
    requires Wellformed(t, i) && Stores(t, m) && CanSplitLeaf(t, i, n, q, e)
    ensures t.pages[i].right != 0 ==> t.pages[i].right in t.pages
    ensures Domain(SplitLeaf(t, i, n, q, e)) ==> Stores(SplitLeaf(t, i, n, q, e), m)
  {
    SplitLeafFacts(t, i, n, q, e);
    hide SplitLeaf, Wellformed, Domain, Locals, WithEntry, GoodLinks;
    var t' := SplitLeaf(t, i, n, q, e);
    forall a, x: LeafEntry | a in t'.pages && a in t'.info && t'.pages[a].LeafPage? &&
           In(t'.info[a].lo, t'.info[a].hi, x.key)
      ensures x in t'.pages[a].lentries <==> x.key in m && m[x.key] == x.value
    {
      SplitLeafMembers(t, i, n, q, e, a, x);
    }
  }

  /** A leaf has an entry for a key of its range exactly if the leaf it was part of had. */
  lemma SplitLeafMembers(t: Tree, i: nat, n: nat, q: nat, e: nat, a: nat, x: LeafEntry)
    requires CanSplitLeaf(t, i, n, q, e) && i != q && t.pages[i].right != i && t.pages[i].right != q && n !in t.info
    requires t.pages.Keys == t.info.Keys && (t.pages[i].right != 0 ==> t.pages[i].right in t.pages)
    requires SortedLeaf(t.pages[i].lentries)
    requires Lt(t.info[i].lo, At(SplitKeyLeaf(t, i))) && Lt(At(SplitKeyLeaf(t, i)), t.info[i].hi)
    requires var t' := SplitLeaf(t, i, n, q, e);
             a in t'.pages && a in t'.info && t'.pages[a].LeafPage? && In(t'.info[a].lo, t'.info[a].hi, x.key)
    ensures var t', b := SplitLeaf(t, i, n, q, e), SplitFrom(i, n, a);
            && b in t.pages && t.pages[b].LeafPage? && In(t.info[b].lo, t.info[b].hi, x.key)
            && (x in t'.pages[a].lentries <==> x in t.pages[b].lentries)
  {
    SplitLeafAt(t, i, n, q, e, a);
    SplitMembers(t.pages[i].lentries, t.maxLeaf / 2, x);
    hide SplitLeaf, SortedLeaf;
  }

  // ---------------------------------------------------------------- splitting a full node below a parent

  ghost predicate CanSplitNode(t: Tree, i: nat, n: nat, q: nat, e: nat) {
    && CanSplit(t, i, n, q, e)
    && t.pages[i].NodePage? && |t.pages[i].nentries| == t.maxNode > 3
  }

  ghost function SplitKeyNode(t: Tree, i: nat): Key
    requires i in t.pages && t.pages[i].NodePage? && |t.pages[i].nentries| == t.maxNode > 3
  {
    t.pages[i].nentries[t.maxNode / 2].key
  }

  /** The children of `i` from key `k` on now hang below `n`, those before it below `l`. */
  ghost function Reparented(info: map<nat, Info>, i: nat, k: Key, l: nat, n: nat): (r: map<nat, Info>)
    ensures r.Keys == info.Keys
    ensures forall c :: c in info ==>
              r[c] ==
                if info[c].parent != i then info[c]
                else info[c].(parent := if Lt(info[c].lo, At(k)) then l else n)
  {
    map c | c in info ::
      if info[c].parent != i then info[c] else info[c].(parent := if Lt(info[c].lo, At(k)) then l else n)
  }

  ghost function SplitNode(t: Tree, i: nat, n: nat, q: nat, e: nat): Tree
    requires CanSplitNode(t, i, n, q, e)
  {
    var p, mid, k := t.pages[i], t.maxNode / 2, SplitKeyNode(t, i);
    t.(pages := t.pages
                [n := NodePage(n, p.nentries[mid].page, 0, p.nentries[mid + 1..])]
                [i := p.(nentries := p.nentries[..mid])]
                [q := WithEntry(t, q, e, k, n)],
       info := Reparented(t.info, i, k, i, n)
               [n := Info(t.info[i].level, At(k), t.info[i].hi, q)]
               [i := t.info[i].(hi := At(k))])
  }

  /** What is asked of a page by itself does not depend on its parent. */
  lemma SameRange(p: Page, x: Info, x': Info)
    requires x' == x.(parent := x'.parent)
    ensures p.LeafPage? ==> (GoodLeaf(p, x) <==> GoodLeaf(p, x'))
    ensures p.NodePage? ==> (GoodNode(p, x) <==> GoodNode(p, x'))
  {
  }

  /** The two halves of a node are nodes on the two sides of the key that is pushed up. */
  lemma HalvesGood(p: Page, x: Info, mid: nat, a: Page, b: Page)
    requires p.NodePage? && GoodNode(p, x) && 0 < mid < |p.nentries| - 1
    requires a.NodePage? && a.nentries == p.nentries[..mid]
    requires b.NodePage? && b.nentries == p.nentries[mid + 1..]
    ensures GoodNode(a, x.(hi := At(p.nentries[mid].key))) && GoodNode(b, x.(lo := At(p.nentries[mid].key)))
    ensures Lt(x.lo, At(p.nentries[mid].key)) && Lt(At(p.nentries[mid].key), x.hi)
  {
  }

  lemma SplitNodeDomain(t: Tree, i: nat, n: nat, q: nat, e: nat)
    requires Domain(t) && Locals(t) && CanSplitNode(t, i, n, q, e)
    ensures Domain(SplitNode(t, i, n, q, e))
  {
  }

  lemma SplitNodeLocals(t: Tree, i: nat, n: nat, q: nat, e: nat)
    requires Domain(t) && Locals(t) && CanSplitNode(t, i, n, q, e) && GoodChild(t, q, e) && i != q
    requires SplitNode(t, i, n, q, e).pages.Keys == SplitNode(t, i, n, q, e).info.Keys
    ensures Locals(SplitNode(t, i, n, q, e))
  {
    var t' := SplitNode(t, i, n, q, e);
    HalvesGood(t.pages[i], t.info[i], t.maxNode / 2, t'.pages[i], t'.pages[n]);
    WithEntryGood(t, q, e, SplitKeyNode(t, i), n);
    hide GoodLeaf, GoodNode;
    forall a | a in t.pages && a != i
      ensures if t'.pages[a].LeafPage? then GoodLeaf(t'.pages[a], t'.info[a]) else GoodNode(t'.pages[a], t'.info[a])
    {
      SameRange(t'.pages[a], t.info[a], t'.info[a]);
    }
  }

  /** The slots of node `a` untouched by the split. */
  lemma SplitNodeChild(t: Tree, i: nat, n: nat, q: nat, e: nat, a: nat, j: nat)
    requires Domain(t) && Locals(t) && Children(t) && CanSplitNode(t, i, n, q, e)
    requires a in t.pages && t.pages[a].NodePage? && j <= |t.pages[a].nentries| && a != i && a != q
    ensures
      var c := Child(t.pages[a], j);
      c in t.pages && c != i && SplitNode(t, i, n, q, e).info[c] == t.info[c] && c in SplitNode(t, i, n, q, e).pages
  {
    NotOwnParent(t, i, n, q, e);
    assert GoodChild(t, a, j);
  }

  lemma SplitNodeHalves(t: Tree, i: nat, n: nat, q: nat, e: nat, j: nat)
    requires Domain(t) && Locals(t) && Children(t) && CanSplitNode(t, i, n, q, e)
    requires j <= t.maxNode
    ensures Domain(SplitNode(t, i, n, q, e))
    ensures var t', mid := SplitNode(t, i, n, q, e), t.maxNode / 2;
            if j <= mid then GoodChild(t', i, j) else GoodChild(t', n, j - mid - 1)
  {
    NotOwnParent(t, i, n, q, e);
    SplitNodeDomain(t, i, n, q, e);
    assert GoodChild(t, i, j) && GoodNode(t.pages[i], t.info[i]);
    hide Locals, Children, GoodNode;
    HalfChild(t, SplitNode(t, i, n, q, e), i, i, n, j);
  }

  /** A slot of node `i` once its entries have been divided between `a` and `b` at the middle one. */
  lemma HalfChild(t: Tree, t': Tree, i: nat, a: nat, b: nat, j: nat)
    requires i in t.pages && i in t.info && t.pages[i].NodePage?
    requires |t.pages[i].nentries| == t.maxNode > 3 && j <= t.maxNode
    requires GoodNode(t.pages[i], t.info[i]) && GoodChild(t, i, j) && {a, b} <= t'.pages.Keys && {a, b} <= t'.info.Keys
    requires var p, x, mid, k := t.pages[i], t.info[i], t.maxNode / 2, SplitKeyNode(t, i);
             && t'.pages[a] == NodePage(t'.pages[a].id, p.left, t'.pages[a].right, p.nentries[..mid])
             && t'.pages[b] == NodePage(t'.pages[b].id, p.nentries[mid].page, 0, p.nentries[mid + 1..])
             && t'.info[a] == Info(x.level, x.lo, At(k), t'.info[a].parent)
             && t'.info[b] == Info(x.level, At(k), x.hi, t'.info[b].parent)
    requires var c, k := Child(t.pages[i], j), SplitKeyNode(t, i);
             && c in t'.pages && c in t'.info
             && t'.info[c] == t.info[c].(parent := if Lt(t.info[c].lo, At(k)) then a else b)
    ensures var mid := t.maxNode / 2; if j <= mid then GoodChild(t', a, j) else GoodChild(t', b, j - mid - 1)
  {
    assert Lt(SlotLo(t.pages[i], t.info[i].lo, j), At(SplitKeyNode(t, i))) <==> j <= t.maxNode / 2;
  }

  lemma SplitNodeParent(t: Tree, i: nat, n: nat, q: nat, e: nat, j: nat)
    requires Domain(t) && Locals(t) && Children(t) && CanSplitNode(t, i, n, q, e)
    requires j <= |t.pages[q].nentries| + 1
    ensures Domain(SplitNode(t, i, n, q, e)) && GoodChild(SplitNode(t, i, n, q, e), q, j)
  {
    SplitNodeDomain(t, i, n, q, e);
    NotOwnParent(t, i, n, q, e);
    ParentChild(t, SplitNode(t, i, n, q, e), i, n, q, e, SplitKeyNode(t, i), j);
  }

  lemma SplitNodeOther(t: Tree, i: nat, n: nat, q: nat, e: nat, a: nat, j: nat)
    requires Domain(t) && Locals(t) && Children(t) && CanSplitNode(t, i, n, q, e)
    requires a in t.pages && t.pages[a].NodePage? && j <= |t.pages[a].nentries| && a != i && a != q
    ensures Domain(SplitNode(t, i, n, q, e)) && GoodChild(SplitNode(t, i, n, q, e), a, j)
  {
    SplitNodeDomain(t, i, n, q, e);
    assert GoodChild(t, a, j);
    SplitNodeChild(t, i, n, q, e, a, j);
  }

  lemma SplitNodeChildren(t: Tree, i: nat, n: nat, q: nat, e: nat)
    requires Domain(t) && Locals(t) && Children(t) && CanSplitNode(t, i, n, q, e)
    requires Domain(SplitNode(t, i, n, q, e)) && i != q
    ensures Children(SplitNode(t, i, n, q, e))
  {
    var t' := SplitNode(t, i, n, q, e);
    forall a, j | a in t'.pages && t'.pages[a].NodePage? && 0 <= j <= |t'.pages[a].nentries|
      ensures GoodChild(t', a, j)
    {
      if a == i {
        SplitNodeHalves(t, i, n, q, e, j);
      } else if a == n {
        SplitNodeHalves(t, i, n, q, e, t.maxNode / 2 + 1 + j);
      } else if a == q {
        SplitNodeParent(t, i, n, q, e, j);
      } else {
        SplitNodeOther(t, i, n, q, e, a, j);
      }
    }
    hide SplitNode, Domain, Locals, GoodChild;
  }

  /** Splitting a node leaves every leaf alone. */
  lemma SplitNodeLeaves(t: Tree, i: nat, n: nat, q: nat, e: nat)
    requires Domain(t) && CanSplitNode(t, i, n, q, e)
    requires Domain(SplitNode(t, i, n, q, e))
    ensures SameLeaves(t, SplitNode(t, i, n, q, e))
  {
    hide SplitNode, Domain;
    var t' := SplitNode(t, i, n, q, e);
    assert t.pages.Keys == t.info.Keys && t'.pages.Keys == t'.info.Keys by { SameKeys(t); SameKeys(t'); }
    forall a | a in t.pages || a in t'.pages
      ensures a in t.pages && t.pages[a].LeafPage? <==> a in t'.pages && t'.pages[a].LeafPage?
      ensures a in t.pages && t.pages[a].LeafPage? ==>
                t'.pages[a] == t.pages[a] && t'.info[a].lo == t.info[a].lo && t'.info[a].hi == t.info[a].hi
    {
      SplitNodeLeaf(t, i, n, q, e, a);
    }
  }

  lemma SameKeys(t: Tree)
    requires Domain(t)
    ensures t.pages.Keys == t.info.Keys
  {
  }

  lemma SplitNodeLeaf(t: Tree, i: nat, n: nat, q: nat, e: nat, a: nat)
    requires t.pages.Keys == t.info.Keys && CanSplitNode(t, i, n, q, e)
    ensures var t' := SplitNode(t, i, n, q, e);
            && (a in t.pages && t.pages[a].LeafPage? <==> a in t'.pages && t'.pages[a].LeafPage?)
            && (a in t.pages && t.pages[a].LeafPage? ==>
                  && a in t'.info && t'.pages[a] == t.pages[a]
                  && t'.info[a].lo == t.info[a].lo && t'.info[a].hi == t.info[a].hi)
  {
  }

  lemma SplitNodeSizes(t: Tree, i: nat, n: nat, q: nat, e: nat)
    requires Domain(t) && Sizes(t, i) && CanSplitNode(t, i, n, q, e) && i != q
    ensures Sizes(SplitNode(t, i, n, q, e), q)
  {
  }

  ghost predicate SameLeaves(t: Tree, t': Tree)
    requires t.pages.Keys == t.info.Keys && t'.pages.Keys == t'.info.Keys
  {
    && (forall a :: a in t'.pages && t'.pages[a].LeafPage? ==>
          a in t.pages && t'.pages[a] == t.pages[a] && t'.info[a].lo == t.info[a].lo && t'.info[a].hi == t.info[a].hi)
    && (forall a :: a in t.pages && t.pages[a].LeafPage? ==> a in t'.pages && t'.pages[a] == t.pages[a])
  }

  lemma SameLeavesLinks(t: Tree, t': Tree)
    requires Domain(t) && Domain(t') && SameLeaves(t, t') && Links(t)
    ensures Links(t')
  {
  }

  lemma SameLeavesApart(t: Tree, t': Tree)
    requires Domain(t) && Domain(t') && SameLeaves(t, t') && LeavesApart(t)
    ensures LeavesApart(t')
  {
  }

  lemma SameLeavesStores(t: Tree, t': Tree, m: map<Key, Value>)
    requires Domain(t) && Domain(t') && SameLeaves(t, t') && Stores(t, m)
    ensures Stores(t', m)
  {
  }

  lemma SplitNodeAbove(t: Tree, i: nat, n: nat, q: nat, e: nat)
    requires t.pages.Keys == t.info.Keys && CanSplitNode(t, i, n, q, e)
    requires t.info[q].level == t.info[i].level + 1
    ensures var t' := SplitNode(t, i, n, q, e);
            && (forall a :: a in t.info ==> a in t'.info && t'.info[a].level == t.info[a].level)
            && (forall a :: a in t.pages && t.info[a].level > t.info[q].level && t.pages[a].NodePage? ==>
                  a in t'.pages && t'.pages[a] == t.pages[a])
  {
  }

  lemma SplitNodeKeeps(t: Tree, i: nat, n: nat, q: nat, e: nat)
    requires Wellformed(t, i) && CanSplitNode(t, i, n, q, e)
    ensures Wellformed(SplitNode(t, i, n, q, e), q)
  {
    NotOwnParent(t, i, n, q, e);
    SplitNodeDomain(t, i, n, q, e);
    SplitNodeLocals(t, i, n, q, e);
    SplitNodeChildren(t, i, n, q, e);
    SplitNodeSizes(t, i, n, q, e);
    SplitNodeLeaves(t, i, n, q, e);
    SameLeavesLinks(t, SplitNode(t, i, n, q, e));
    SameLeavesApart(t, SplitNode(t, i, n, q, e));
  }

  lemma SplitNodeStores(t: Tree, i: nat, n: nat, q: nat, e: nat, m: map<Key, Value>)
    requires Wellformed(t, i) && Stores(t, m) && CanSplitNode(t, i, n, q, e)
    requires Domain(SplitNode(t, i, n, q, e))
    ensures Stores(SplitNode(t, i, n, q, e), m)
  {
    SplitNodeLeaves(t, i, n, q, e);
    SameLeavesStores(t, SplitNode(t, i, n, q, e), m);
  }

  // ---------------------------------------------------------------- splitting the root, which stays page 1

  ghost predicate FreshPair(t: Tree, l: nat, r: nat) {
    l !in t.pages && r !in t.pages && l != r && l != 0 && r != 0
  }

  ghost predicate CanSplitRootLeaf(t: Tree, l: nat, r: nat) {
    && FreshPair(t, l, r) && 1 in t.pages && 1 in t.info
    && t.pages[1].LeafPage? && |t.pages[1].lentries| == t.maxLeaf > 3
  }

  ghost function SplitRootLeaf(t: Tree, l: nat, r: nat): Tree
    requires CanSplitRootLeaf(t, l, r)
  {
    var es, mid, k := t.pages[1].lentries, t.maxLeaf / 2, SplitKeyLeaf(t, 1);
    t.(pages := t.pages
                [r := LeafPage(r, l, 0, es[mid..])]
                [l := LeafPage(l, 0, r, es[..mid])]
                [1 := NodePage(1, l, 0, [NodeEntry(k, r)])],
       info := t.info[l := Info(0, NegInf, At(k), 1)][r := Info(0, At(k), PosInf, 1)][1 := t.info[1].(level := 1)])
  }

  /** A leaf at the root is the only leaf. */
  lemma LoneLeaf(t: Tree)
    requires Domain(t) && LeavesApart(t) && t.pages[1].LeafPage?
    ensures forall a :: a in t.pages && t.pages[a].LeafPage? ==> a == 1
  {
  }

  lemma SplitRootLeafLocals(t: Tree, l: nat, r: nat)
    requires Domain(t) && Locals(t) && CanSplitRootLeaf(t, l, r)
    ensures Domain(SplitRootLeaf(t, l, r)) && Locals(SplitRootLeaf(t, l, r))
  {
    var t' := SplitRootLeaf(t, l, r);
    SplitKeyInside(t, 1);
    assert GoodLeaf(t.pages[1], t.info[1]);
    assert GoodLeaf(t'.pages[l], t'.info[l]) && GoodLeaf(t'.pages[r], t'.info[r]);
  }

  lemma SplitRootLeafChildren(t: Tree, l: nat, r: nat)
    requires Domain(t) && Children(t) && CanSplitRootLeaf(t, l, r)
    requires Domain(SplitRootLeaf(t, l, r))
    ensures Children(SplitRootLeaf(t, l, r))
  {
    var t' := SplitRootLeaf(t, l, r);
    forall a, j | a in t'.pages && t'.pages[a].NodePage? && 0 <= j <= |t'.pages[a].nentries|
      ensures GoodChild(t', a, j)
    {
      if a != 1 { assert GoodChild(t, a, j); }
    }
  }

  lemma SplitRootLeafLinks(t: Tree, l: nat, r: nat)
    requires Domain(t) && LeavesApart(t) && CanSplitRootLeaf(t, l, r)
    requires Domain(SplitRootLeaf(t, l, r))
    ensures Links(SplitRootLeaf(t, l, r)) && LeavesApart(SplitRootLeaf(t, l, r))
  {
    LoneLeaf(t);
    var t' := SplitRootLeaf(t, l, r);
    assert forall a :: a in t'.pages && t'.pages[a].LeafPage? ==> a == l || a == r;
    assert GoodLinks(t', l) && GoodLinks(t', r);
    assert Apart(t'.info[l], t'.info[r]) && Apart(t'.info[r], t'.info[l]);
    hide Domain, GoodLinks, Apart, SplitRootLeaf;
  }

  lemma SplitRootLeafKeeps(t: Tree, l: nat, r: nat)
    requires Wellformed(t, 1) && CanSplitRootLeaf(t, l, r)
    ensures Wellformed(SplitRootLeaf(t, l, r), 0)
  {
    SplitRootLeafLocals(t, l, r);
    SplitRootLeafChildren(t, l, r);
    SplitRootLeafLinks(t, l, r);
    var t' := SplitRootLeaf(t, l, r);
    forall a | a in t'.pages ensures GoodSize(t', a, 0) {
      if a != l && a != r { assert GoodSize(t, a, 1); }
    }
  }

  lemma SplitRootLeafStores(t: Tree, l: nat, r: nat, m: map<Key, Value>)
    requires Wellformed(t, 1) && Stores(t, m) && CanSplitRootLeaf(t, l, r)
    requires Domain(SplitRootLeaf(t, l, r))
    ensures Stores(SplitRootLeaf(t, l, r), m)
  {
  }

  ghost predicate CanSplitRootNode(t: Tree, l: nat, r: nat) {
    && FreshPair(t, l, r) && 1 in t.pages && 1 in t.info
    && t.pages[1].NodePage? && |t.pages[1].nentries| == t.maxNode > 3
  }

  ghost function SplitRootNode(t: Tree, l: nat, r: nat): Tree
    requires CanSplitRootNode(t, l, r)
  {
    var p, mid, k, h := t.pages[1], t.maxNode / 2, SplitKeyNode(t, 1), t.info[1].level;
    t.(pages := t.pages
                [r := NodePage(r, p.nentries[mid].page, 0, p.nentries[mid + 1..])]
                [l := NodePage(l, p.left, 0, p.nentries[..mid])]
                [1 := NodePage(1, l, 0, [NodeEntry(k, r)])],
       info := Reparented(t.info, 1, k, l, r)
               [l := Info(h, NegInf, At(k), 1)][r := Info(h, At(k), PosInf, 1)][1 := t.info[1].(level := h + 1)])
  }

  lemma SplitRootNodeDomain(t: Tree, l: nat, r: nat)
    requires Domain(t) && Locals(t) && CanSplitRootNode(t, l, r)
    ensures Domain(SplitRootNode(t, l, r))
  {
  }

  lemma SplitRootNodeLocals(t: Tree, l: nat, r: nat)
    requires Domain(t) && Locals(t) && CanSplitRootNode(t, l, r)
    requires Domain(SplitRootNode(t, l, r))
    ensures Locals(SplitRootNode(t, l, r))
  {
    var t' := SplitRootNode(t, l, r);
    hide SplitRootNode;
    forall a | a in t'.pages
      ensures if t'.pages[a].LeafPage? then GoodLeaf(t'.pages[a], t'.info[a]) else GoodNode(t'.pages[a], t'.info[a])
    {
      SplitRootNodeLocal(t, l, r, a);
    }
  }

  lemma SplitRootNodeLocal(t: Tree, l: nat, r: nat, a: nat)
    requires Domain(t) && Locals(t) && CanSplitRootNode(t, l, r) && a in SplitRootNode(t, l, r).pages
    ensures var t' := SplitRootNode(t, l, r);
            && a in t'.info
            && if t'.pages[a].LeafPage? then GoodLeaf(t'.pages[a], t'.info[a]) else GoodNode(t'.pages[a], t'.info[a])
  {
    var t' := SplitRootNode(t, l, r);
    HalvesGood(t.pages[1], t.info[1], t.maxNode / 2, t'.pages[l], t'.pages[r]);
    SplitRootNodeBounds(t, l, r);
    hide GoodLeaf, GoodNode;
    SameRange(t'.pages[l], t.info[1].(hi := t'.info[l].hi), t'.info[l]);
    SameRange(t'.pages[r], t.info[1].(lo := t'.info[r].lo), t'.info[r]);
    if a in t.pages && a != 1 { SameRange(t'.pages[a], t.info[a], t'.info[a]); }
  }

  lemma SplitRootNodeBounds(t: Tree, l: nat, r: nat)
    requires CanSplitRootNode(t, l, r) && GoodNode(t.pages[1], t.info[1]) && t.info[1].lo == NegInf &&
             t.info[1].hi == PosInf
    ensures GoodNode(SplitRootNode(t, l, r).pages[1], SplitRootNode(t, l, r).info[1])
  {
  }

  lemma SplitRootNodeHalves(t: Tree, l: nat, r: nat, j: nat)
    requires Domain(t) && Locals(t) && Children(t) && CanSplitRootNode(t, l, r)
    requires Domain(SplitRootNode(t, l, r)) && j <= t.maxNode
    ensures var t', mid := SplitRootNode(t, l, r), t.maxNode / 2;
            if j <= mid then GoodChild(t', l, j) else GoodChild(t', r, j - mid - 1)
  {
    assert GoodChild(t, 1, j) && GoodNode(t.pages[1], t.info[1]);
    hide Locals, Children, GoodNode;
    HalfChild(t, SplitRootNode(t, l, r), 1, l, r, j);
  }

  lemma SplitRootNodeChildren(t: Tree, l: nat, r: nat)
    requires Domain(t) && Locals(t) && Children(t) && CanSplitRootNode(t, l, r)
    requires Domain(SplitRootNode(t, l, r))
    ensures Children(SplitRootNode(t, l, r))
  {
    hide SplitRootNode, Locals;
    var t' := SplitRootNode(t, l, r);
    forall a, j | a in t'.pages && t'.pages[a].NodePage? && 0 <= j <= |t'.pages[a].nentries|
      ensures GoodChild(t', a, j)
    {
      SplitRootNodeSlot(t, l, r, a, j);
    }
  }

  lemma SplitRootNodeSlot(t: Tree, l: nat, r: nat, a: nat, j: nat)
    requires Domain(t) && Locals(t) && Children(t) && CanSplitRootNode(t, l, r) && Domain(SplitRootNode(t, l, r))
    requires var t' := SplitRootNode(t, l, r); a in t'.pages && t'.pages[a].NodePage? && j <= |t'.pages[a].nentries|
    ensures GoodChild(SplitRootNode(t, l, r), a, j)
  {
    hide Locals, Children;
    if a == l {
      SplitRootNodeHalves(t, l, r, j);
    } else if a == r {
      SplitRootNodeHalves(t, l, r, t.maxNode / 2 + 1 + j);
    } else if a != 1 {
      SplitRootNodeOther(t, l, r, a, j);
    } else {
      SplitRootNodeTop(t, l, r, j);
    }
  }

  lemma SplitRootNodeTop(t: Tree, l: nat, r: nat, j: nat)
    requires Domain(t) && CanSplitRootNode(t, l, r) && j <= 1
    ensures GoodChild(SplitRootNode(t, l, r), 1, j)
  {
  }

  lemma SplitRootNodeOther(t: Tree, l: nat, r: nat, a: nat, j: nat)
    requires Domain(t) && Children(t) && CanSplitRootNode(t, l, r)
    requires a in t.pages && t.pages[a].NodePage? && j <= |t.pages[a].nentries| && a != 1
    ensures a in SplitRootNode(t, l, r).pages && a in SplitRootNode(t, l, r).info
    ensures SplitRootNode(t, l, r).pages[a] == t.pages[a] && GoodChild(SplitRootNode(t, l, r), a, j)
  {
    assert GoodChild(t, a, j);
    hide Children;
    SameChild(t, SplitRootNode(t, l, r), a, j);
  }

  lemma SplitRootNodeLeaves(t: Tree, l: nat, r: nat)
    requires Domain(t) && CanSplitRootNode(t, l, r)
    requires Domain(SplitRootNode(t, l, r))
    ensures SameLeaves(t, SplitRootNode(t, l, r))
  {
    hide SplitRootNode, Domain;
    var t' := SplitRootNode(t, l, r);
    assert t.pages.Keys == t.info.Keys && t'.pages.Keys == t'.info.Keys by { SameKeys(t); SameKeys(t'); }
    forall a | a in t.pages || a in t'.pages
      ensures a in t.pages && t.pages[a].LeafPage? <==> a in t'.pages && t'.pages[a].LeafPage?
      ensures a in t.pages && t.pages[a].LeafPage? ==>
                t'.pages[a] == t.pages[a] && t'.info[a].lo == t.info[a].lo && t'.info[a].hi == t.info[a].hi
    {
      SplitRootNodeLeaf(t, l, r, a);
    }
  }

  lemma SplitRootNodeLeaf(t: Tree, l: nat, r: nat, a: nat)
    requires t.pages.Keys == t.info.Keys && CanSplitRootNode(t, l, r)
    ensures var t' := SplitRootNode(t, l, r);
            && (a in t.pages && t.pages[a].LeafPage? <==> a in t'.pages && t'.pages[a].LeafPage?)
            && (a in t.pages && t.pages[a].LeafPage? ==>
                  && a in t'.info && t'.pages[a] == t.pages[a]
                  && t'.info[a].lo == t.info[a].lo && t'.info[a].hi == t.info[a].hi)
  {
  }

  lemma SplitRootNodeSizes(t: Tree, l: nat, r: nat)
    requires Domain(t) && Sizes(t, 1) && CanSplitRootNode(t, l, r)
    ensures Sizes(SplitRootNode(t, l, r), 0)
  {
  }

  lemma SplitRootNodeKeeps(t: Tree, l: nat, r: nat)
    requires Wellformed(t, 1) && CanSplitRootNode(t, l, r)
    ensures Wellformed(SplitRootNode(t, l, r), 0)
  {
    SplitRootNodeDomain(t, l, r);
    SplitRootNodeLocals(t, l, r);
    SplitRootNodeChildren(t, l, r);
    SplitRootNodeLeaves(t, l, r);
    SplitRootNodeSizes(t, l, r);
    SameLeavesLinks(t, SplitRootNode(t, l, r));
    SameLeavesApart(t, SplitRootNode(t, l, r));
  }

  lemma SplitRootNodeStores(t: Tree, l: nat, r: nat, m: map<Key, Value>)
    requires Wellformed(t, 1) && Stores(t, m) && CanSplitRootNode(t, l, r)
    requires Domain(SplitRootNode(t, l, r))
    ensures Stores(SplitRootNode(t, l, r), m)
  {
  }
}
