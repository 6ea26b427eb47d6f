/**
 The B+tree of src/eckit/container/BTree.cc over its page store.
 */
module BTrees {
  import opened Common
  import opened Pages
  import opened PageStores
  import opened TreeShape
  import opened TreeFacts

  ghost predicate IsChild(t: Tree, q: nat, c: nat) {
    q in t.pages && t.pages[q].NodePage? && exists j :: 0 <= j <= |t.pages[q].nentries| && Child(t.pages[q], j) == c
  }

  /** `path` leads from the root down to, but excluding, `page`. */
  ghost predicate IsPath(t: Tree, path: seq<nat>, page: nat) {
    && page in t.info
    && if path == [] then page == 1 else
         var q := path[|path| - 1];
         && IsChild(t, q, page) && q in t.info && t.info[q].level == t.info[page].level + 1
         && IsPath(t, path[..|path| - 1], q)
  }

  lemma ExtendPath(t: Tree, path: seq<nat>, page: nat, j: nat)
    requires Domain(t) && IsPath(t, path, page) && page in t.pages && t.pages[page].NodePage? &&
             j <= |t.pages[page].nentries|
    requires t.info[page].level > 0 && Child(t.pages[page], j) in t.info &&
             t.info[Child(t.pages[page], j)].level == t.info[page].level - 1
    ensures IsPath(t, path + [page], Child(t.pages[page], j))
  {
  }

  /** The way to a page still stands when no page above it was written. */
  lemma {:induction false} PathKept(t: Tree, t': Tree, path: seq<nat>, page: nat)
    requires IsPath(t, path, page)
    requires forall a :: a in t.info && t.info[a].level > t.info[page].level && a in t.pages && t.pages[a].NodePage? ==>
               a in t'.pages && t'.pages[a] == t.pages[a]
    requires forall a :: a in t.info ==> a in t'.info && t'.info[a].level == t.info[a].level
    ensures IsPath(t', path, page)
  {
    if path != [] {
      PathKept(t, t', path[..|path| - 1], path[|path| - 1]);
    }
  }

  /** Writing an entry changes what a leaf holds for its key, and nothing else. */
  lemma EntryReplaced(es: seq<LeafEntry>, e: nat, v: Value)
    requires SortedLeaf(es) && e < |es|
    ensures var es' := es[e := es[e].(value := v)];
            && SortedLeaf(es')
            && forall x: LeafEntry :: x in es' <==> if x.key == es[e].key then x.value == v else x in es
  {
    var es' := es[e := es[e].(value := v)];
    forall x: LeafEntry ensures x in es' <==> if x.key == es[e].key then x.value == v else x in es {
      if x in es' { var a :| 0 <= a < |es'| && es'[a] == x; assert a != e ==> es[a] == x; }
      if x in es && x.key != es[e].key { var a :| 0 <= a < |es| && es[a] == x; assert es'[a] == x; }
      assert es'[e] in es';
    }
  }

  lemma EntryInserted(es: seq<LeafEntry>, e: nat, y: LeafEntry)
    requires SortedLeaf(es) && e <= |es|
    requires forall a :: 0 <= a < e ==> es[a].key < y.key
    requires forall a :: e <= a < |es| ==> y.key < es[a].key
    ensures var es' := InsertAt(es, e, y);
            && SortedLeaf(es')
            && forall x: LeafEntry :: x in es' <==> if x.key == y.key then x.value == y.value else x in es
  {
  }

  /** `lower_bound` for the split key in the parent lands right behind the page that was split. */
  lemma SlotOfSplit(t: Tree, full: nat, q: nat, i: nat, k: Key, e: nat)
    requires Wellformed(t, full) && IsChild(t, q, i)
    requires i in t.info && Lt(t.info[i].lo, At(k)) && Lt(At(k), t.info[i].hi)
    requires e <= |t.pages[q].nentries|
    requires forall a :: 0 <= a < e ==> t.pages[q].nentries[a].key < k
    requires forall a :: e <= a < |t.pages[q].nentries| ==> k <= t.pages[q].nentries[a].key
    ensures Child(t.pages[q], e) == i
    ensures forall a :: 0 <= a < |t.pages[q].nentries| ==> t.pages[q].nentries[a].key != k
  {
    var j :| 0 <= j <= |t.pages[q].nentries| && Child(t.pages[q], j) == i;
    assert GoodChild(t, q, j);
    assert GoodNode(t.pages[q], t.info[q]);
    assert j == e;
  }

  lemma LeafSplitDone(t: Tree, i: nat, n: nat, q: nat, e: nat, path: seq<nat>, m: map<Key, Value>)
    requires Wellformed(t, i) && Stores(t, m) && CanSplitLeaf(t, i, n, q, e)
    requires IsPath(t, path, i) && path != [] && path[|path| - 1] == q
    ensures t.pages[i].right != 0 ==> t.pages[i].right in t.pages
    ensures var t' := SplitLeaf(t, i, n, q, e);
            Wellformed(t', q) && Stores(t', m) && IsPath(t', path[..|path| - 1], q)
  {
    hide Wellformed, Stores;
    LeafFacts(t, i, i);
    SplitLeafAbove(t, i, n, q, e);
    SplitLeafKeeps(t, i, n, q, e);
    SplitLeafStores(t, i, n, q, e, m);
    PathKept(t, SplitLeaf(t, i, n, q, e), path[..|path| - 1], q);
  }

  lemma NodeSplitDone(t: Tree, i: nat, n: nat, q: nat, e: nat, path: seq<nat>, m: map<Key, Value>)
    requires Wellformed(t, i) && Stores(t, m) && CanSplitNode(t, i, n, q, e)
    requires IsPath(t, path, i) && path != [] && path[|path| - 1] == q
    ensures var t' := SplitNode(t, i, n, q, e);
            Wellformed(t', q) && Stores(t', m) && IsPath(t', path[..|path| - 1], q)
  {
    hide Wellformed, Stores;
    NodeFacts(t, i, i);
    SplitNodeAbove(t, i, n, q, e);
    SplitNodeKeeps(t, i, n, q, e);
    SplitNodeStores(t, i, n, q, e, m);
    PathKept(t, SplitNode(t, i, n, q, e), path[..|path| - 1], q);
  }

  /** Leaf `i` is responsible for `key`. */
  ghost predicate IsLeafOf(t: Tree, i: nat, key: Key) {
    i in t.pages && i in t.info && t.pages[i].LeafPage? && In(t.info[i].lo, t.info[i].hi, key)
  }

  /** A page can be saved, into the file or into the cache. */
  ghost predicate Saves(s: Settings, cached: bool) { !s.readOnly || cached || s.cacheReads || s.cacheWrites }

  /** An entry for a new key brings the leaf to capacity. */
  ghost predicate Fills(t: Tree, leaf: nat, key: Key, m: map<Key, Value>)
    requires IsLeafOf(t, leaf, key)
  {
    key !in m && |t.pages[leaf].lentries| + 1 == t.maxLeaf
  }

  class BTree {
    const store: PageStore
    const maxLeaf: nat
    const maxNode: nat
    ghost var info: map<nat, Info>
    ghost var contents: map<Key, Value>

    ghost function Shape(): Tree
      reads this, store
    {
      Tree(store.pages, info, maxLeaf, maxNode)
    }

    ghost predicate Valid()
      reads this, store
    {
      store.Valid() && Wellformed(Shape(), 0) && Stores(Shape(), contents)
    }

    /** A new tree: the root, page 1, is an empty leaf. Opened read only, a new file has no room for it. */
    static method Open(s: Settings, maxLeaf: nat, maxNode: nat) returns (tree: BTree?)
      requires s.pageSize > 0 && maxLeaf > 3 && maxNode > 3
      ensures tree == null <==> s.readOnly
      ensures tree != null ==>
                && fresh(tree) && fresh(tree.store) && tree.Valid()
                && tree.contents == map[] && tree.store.settings == s
    {
      if s.readOnly {
        var store := new PageStore(s);
        var added, root := store.NewPage();
        assert !added;
        return null;
      }
      tree := new BTree(s, maxLeaf, maxNode);
    }

    constructor (s: Settings, maxLeaf: nat, maxNode: nat)
      requires s.pageSize > 0 && !s.readOnly && maxLeaf > 3 && maxNode > 3
      ensures Valid() && fresh(store) && contents == map[] && store.settings == s
    {
      var st := new PageStore(s);
      var ok, root := st.NewPage();
      assert root.id == 1;
      store := st;
      this.maxLeaf, this.maxNode := maxLeaf, maxNode;
      info := map[1 := Info(0, NegInf, PosInf, 0)];
      contents := map[];
    }

    /** Opening a file that holds a tree. */
    constructor Reopen(s: Settings, other: PageStore, maxLeaf: nat, maxNode: nat,
                       ghost info: map<nat, Info>, ghost contents: map<Key, Value>)
      requires other.Valid() && s.pageSize == other.settings.pageSize && s.offset == other.settings.offset
      requires var t := Tree(other.FilePages(), info, maxLeaf, maxNode); Wellformed(t, 0) && Stores(t, contents)
      ensures Valid() && fresh(store) && this.contents == contents && store.settings == s
    {
      var st := new PageStore.Reopen(s, other);
      store := st;
      this.maxLeaf, this.maxNode := maxLeaf, maxNode;
      this.info, this.contents := info, contents;
    }

    /** `next`: the child to follow for `key`, and the slot it sits in. */
    method Next(key: Key, p: Page) returns (c: nat, ghost j: nat)
      requires p.NodePage? && |p.nentries| > 0 && SortedNode(p.nentries)
      ensures j <= |p.nentries| && c == Child(p, j) == Child(p, SlotFor(p.nentries, key))
      ensures j > 0 ==> p.nentries[j - 1].key <= key
      ensures j < |p.nentries| ==> key < p.nentries[j].key
    {
      hide SlotFor;
      if key < p.nentries[0].key {
        SlotUnique(p.nentries, key, 0);
        return p.left, 0;
      }
      var e := LowerBound(NodeKeys(p.nentries), key);
      if e == |p.nentries| || key < p.nentries[e].key {
        e := e - 1;
      }
      SlotUnique(p.nentries, key, e + 1);
      return p.nentries[e].page, e + 1;
    }

    /** The leaf responsible for a key decides whether the key is stored, and where. */
    lemma LeafAnswers(t: Tree, m: map<Key, Value>, i: nat, key: Key, e: nat)
      requires t.pages.Keys == t.info.Keys && Stores(t, m) && i in t.pages && t.pages[i].LeafPage? &&
               In(t.info[i].lo, t.info[i].hi, key)
      requires e <= |t.pages[i].lentries|
      requires forall a :: 0 <= a < e ==> t.pages[i].lentries[a].key < key
      requires forall a :: e <= a < |t.pages[i].lentries| ==> key <= t.pages[i].lentries[a].key
      requires SortedLeaf(t.pages[i].lentries)
      ensures key in m <==> e < |t.pages[i].lentries| && t.pages[i].lentries[e].key == key
      ensures key in m ==> m[key] == t.pages[i].lentries[e].value
    {
      var es := t.pages[i].lentries;
      assert forall a :: e < a < |es| ==> es[e].key < es[a].key;
      if key in m {
        var x := LeafEntry(key, m[key]);
        assert x in es;
        var a :| 0 <= a < |es| && es[a] == x;
        assert a == e;
      } else if e < |es| {
        assert es[e] in es;
      }
    }

    /** The recursive descent of `search`: a cached or uncached read of one page per level. */
    method Search(page: nat, key: Key) returns (r: Option<Value>)
      requires Valid() && page in store.pages && page in info && In(info[page].lo, info[page].hi, key)
      modifies store`cache
      decreases info[page].level
      ensures Valid()
      ensures r == if key in contents then Some(contents[key]) else None
    {
      hide Wellformed, Stores, Coherent;
      var p := store.LoadPage(page);
      if p.NodePage? {
        NodeFacts(Shape(), 0, page);
        var c, j := Next(key, p);
        NextInRange(Shape(), 0, page, j, key);
        r := Search(c, key);
        return;
      }
      LeafFacts(Shape(), 0, page);
      var e := LowerBound(LeafKeys(p.lentries), key);
      LeafAnswers(Shape(), contents, page, key, e);
      if e != |p.lentries| && p.lentries[e].key == key {
        return Some(p.lentries[e].value);
      }
      return None;
    }

    method Get(key: Key) returns (r: Option<Value>)
      requires Valid()
      modifies store`cache
      ensures Valid()
      ensures r == if key in contents then Some(contents[key]) else None
    {
      r := Search(1, key);
    }

    /** The tree while page `full` may have reached capacity. */
    ghost predicate Standing(full: nat)
      reads this, store
    {
      store.Valid() && full in store.pages && Wellformed(Shape(), full) && Stores(Shape(), contents)
    }

    ghost predicate Growing(full: nat)
      reads this, store
    {
      Standing(full) && !store.settings.readOnly
    }

    /** On a writable tree this always succeeds. On a tree opened read only it succeeds as long as the leaf can be
        saved in the cache and does not fill up: a leaf that does keeps the entry, at capacity, because no page can be
        added. */
    method Set(key: Key, value: Value) returns (ok: bool, existed: bool, ghost leaf: nat)
      requires Valid()
      modifies this, store
      ensures IsLeafOf(old(Shape()), leaf, key)
      ensures var saved := Saves(store.settings, leaf in old(store.cache));
              && contents == (if saved then old(contents)[key := value] else old(contents))
              && (ok <==> saved && !(store.settings.readOnly && Fills(old(Shape()), leaf, key, old(contents))))
              && (ok || !saved ==> Valid())
              && (saved && !ok ==> Standing(leaf) && store.pages[leaf].Count() == maxLeaf)
      ensures ok ==> (existed <==> key in old(contents))
    {
      ok, existed, leaf := Insert(1, key, value, []);
    }

    /** The descent of `insert`, which records the way down. */
    method Insert(page: nat, key: Key, value: Value, path: seq<nat>) returns (ok: bool, existed: bool, ghost leaf: nat)
      requires Valid()
      requires page in store.pages && page in info && In(info[page].lo, info[page].hi, key) &&
               IsPath(Shape(), path, page)
      modifies this, store
      decreases info[page].level
      ensures IsLeafOf(old(Shape()), leaf, key)
      ensures var saved := Saves(store.settings, leaf in old(store.cache));
              && contents == (if saved then old(contents)[key := value] else old(contents))
              && (ok <==> saved && !(store.settings.readOnly && Fills(old(Shape()), leaf, key, old(contents))))
              && (ok || !saved ==> Valid())
              && (saved && !ok ==> Standing(leaf) && store.pages[leaf].Count() == maxLeaf)
      ensures ok ==> (existed <==> key in old(contents))
    {
      hide Wellformed, Stores, Coherent;
      var p := store.LoadPage(page);
      if p.NodePage? {
        NodeFacts(Shape(), 0, page);
        var c, j := Next(key, p);
        NextInRange(Shape(), 0, page, j, key);
        ExtendPath(Shape(), path, page, j);
        ok, existed, leaf := Insert(c, key, value, path + [page]);
      } else {
        ok, existed := InsertIntoLeaf(p, key, value, path);
        leaf := p.id;
      }
    }

    /** The rest of `insert`: replaces the value, or makes room for the entry and splits what is full. */
    method InsertIntoLeaf(leaf: Page, key: Key, value: Value, path: seq<nat>) returns (ok: bool, existed: bool)
      requires Valid() && IsLeafOf(Shape(), leaf.id, key) && leaf == store.pages[leaf.id] &&
               IsPath(Shape(), path, leaf.id)
      modifies this, store
      ensures var saved := !store.settings.readOnly || leaf.id in old(store.cache) || store.settings.cacheWrites;
              && contents == (if saved then old(contents)[key := value] else old(contents))
              && (ok <==> saved && !(store.settings.readOnly && Fills(old(Shape()), leaf.id, key, old(contents))))
              && (ok || !saved ==> Valid())
              && (saved && !ok ==> Standing(leaf.id) && store.pages[leaf.id].Count() == maxLeaf)
      ensures existed <==> key in old(contents)
    {
      hide Wellformed, Stores, Coherent, IsPath, GoodLinks;
      LeafFacts(Shape(), 0, leaf.id);
      var e := LowerBound(LeafKeys(leaf.lentries), key);
      LeafAnswers(Shape(), contents, leaf.id, key, e);
      existed := e != |leaf.lentries| && leaf.lentries[e].key == key;
      if existed {
        EntryReplaced(leaf.lentries, e, value);
        ok := Put(leaf.(lentries := leaf.lentries[e := leaf.lentries[e].(value := value)]), key, value);
      } else {
        ok := AddEntry(leaf, e, key, value, path);
      }
    }

    /** Makes room for a new entry at its place, `e`, and splits what is full. */
    method AddEntry(leaf: Page, e: nat, key: Key, value: Value, path: seq<nat>) returns (ok: bool)
      requires Valid() && IsLeafOf(Shape(), leaf.id, key) && leaf == store.pages[leaf.id] &&
               IsPath(Shape(), path, leaf.id)
      requires e <= |leaf.lentries| < maxLeaf && GoodLeaf(leaf, info[leaf.id]) && key !in contents
      requires forall a :: 0 <= a < e ==> leaf.lentries[a].key < key
      requires forall a :: e <= a < |leaf.lentries| ==> key < leaf.lentries[a].key
      modifies this, store
      ensures var saved := !store.settings.readOnly || leaf.id in old(store.cache) || store.settings.cacheWrites;
              && contents == (if saved then old(contents)[key := value] else old(contents))
              && (ok <==> saved && !(store.settings.readOnly && |leaf.lentries| + 1 == maxLeaf))
              && (ok || !saved ==> Valid())
              && (saved && !ok ==> Standing(leaf.id) && store.pages[leaf.id].Count() == maxLeaf)
    {
      hide Wellformed, Stores, Coherent, IsPath;
      EntryInserted(leaf.lentries, e, LeafEntry(key, value));
      var p := leaf.(lentries := InsertAt(leaf.lentries, e, LeafEntry(key, value)));
      ghost var t := Shape();
      ok := Put(p, key, value);
      if ok {
        hide InsertAt, GoodLeaf;
        PathKept(t, Shape(), path, p.id);
        ok := SplitUpwards(p, path);
      }
    }

    /** Saves leaf `p` after its entry for `key` was written. */
    method Put(p: Page, key: Key, value: Value) returns (ok: bool)
      requires Valid() && IsLeafOf(Shape(), p.id, key) && p.LeafPage? && p == store.pages[p.id].(lentries := p.lentries)
      requires GoodLeaf(p, info[p.id]) && |store.pages[p.id].lentries| <= |p.lentries| <= maxLeaf
      requires forall x: LeafEntry ::
                 x in p.lentries <==> if x.key == key then x.value == value else x in store.pages[p.id].lentries
      modifies this, store
      ensures ok <==> !store.settings.readOnly || p.id in old(store.cache) || store.settings.cacheWrites
      ensures info == old(info)
      ensures !ok ==> Valid() && contents == old(contents)
      ensures ok ==> Standing(p.id) && store.pages == old(store.pages)[p.id := p]
      ensures ok ==> contents == old(contents)[key := value]
      ensures ok && |p.lentries| < maxLeaf ==> Valid()
    {
      PutLeafKeeps(Shape(), p.id, p.lentries);
      PutLeafStores(Shape(), p.id, p.lentries, contents, key, value);
      ok := store.SavePage(p);
      if ok {
        contents := contents[key := value];
      }
    }

    /** The loop of `insert`: splits full pages from the leaf towards the root. */
    method SplitUpwards(page: Page, pathToPage: seq<nat>) returns (ok: bool)
      requires Standing(page.id) && page == store.pages[page.id] && IsPath(Shape(), pathToPage, page.id)
      modifies this, store
      ensures contents == old(contents)
      ensures ok <==> !(store.settings.readOnly && page.Count() == if page.LeafPage? then maxLeaf else maxNode)
      ensures ok ==> Valid()
      ensures !ok ==> Standing(page.id) && store.pages == old(store.pages)
    {
      hide Wellformed, Stores, Coherent;
      var p, path := page, pathToPage;
      while (p.NodePage? && |p.nentries| == maxNode) || (p.LeafPage? && |p.lentries| == maxLeaf)
        invariant Standing(p.id) && p == store.pages[p.id] && IsPath(Shape(), path, p.id)
        invariant contents == old(contents) &&
                  (store.settings.readOnly ==> p == page && store.pages == old(store.pages))
        decreases |path|
      {
        if store.settings.readOnly {
          // either split asks for a new page before anything else
          var added, blank := store.NewPage();
          return added;
        }
        if p.id == 1 {
          SplitRoot();
          return true;
        }
        if p.NodePage? {
          p := SplitNodeBelow(p, path);
        } else {
          p := SplitLeafBelow(p, path);
        }
        path := path[..|path| - 1];
      }
      Settled(Shape(), p.id);
      return true;
    }

    /** Splits a full leaf: upper half to a new page on its right, first key of that half copied up. */
    method SplitLeafBelow(p: Page, path: seq<nat>) returns (q: Page)
      requires Growing(p.id) && p == store.pages[p.id] && IsPath(Shape(), path, p.id) && path != [] && p.id != 1
      requires p.LeafPage? && |p.lentries| == maxLeaf
      modifies this, store
      ensures Growing(q.id) && q == store.pages[q.id] && IsPath(Shape(), path[..|path| - 1], q.id)
      ensures contents == old(contents)
    {
      hide Wellformed, Stores, Coherent;
      ghost var t := Shape();
      var page := path[|path| - 1];
      LeafFacts(t, p.id, p.id);
      NodeFacts(t, p.id, page);
      SplitKeyInside(t, p.id);
      var n, e;
      q, n, e := MoveUpperLeaf(p, page);
      SlotOfSplit(t, p.id, page, p.id, SplitKeyLeaf(t, p.id), e);
      LeafSplitDone(t, p.id, n, page, e, path, contents);
      info := SplitLeaf(t, p.id, n, page, e).info;
      assert Shape() == SplitLeaf(t, p.id, n, page, e);
    }

    /** The page writes of a leaf split. */
    method MoveUpperLeaf(p: Page, page: nat) returns (q: Page, n: nat, e: nat)
      requires store.Valid() && !store.settings.readOnly
      requires p.LeafPage? && p.id in store.pages && |p.lentries| == maxLeaf > 3
      requires p.right != 0 ==> p.right in store.pages && p.right != p.id && store.pages[p.right].LeafPage?
      requires page in store.pages && page != p.id
      requires store.pages[page].NodePage? && SortedNode(store.pages[page].nentries)
      requires |store.pages[page].nentries| < maxNode
      modifies store
      ensures store.Valid() && n !in old(store.pages) && n != 0 && q.id == page
      ensures e <= |old(store.pages)[page].nentries|
      ensures var k := p.lentries[maxLeaf / 2].key;
              && (forall a :: 0 <= a < e ==> old(store.pages)[page].nentries[a].key < k)
              && (forall a :: e <= a < |old(store.pages)[page].nentries| ==>
                    k <= old(store.pages)[page].nentries[a].key)
              && q == old(store.pages)[page].(nentries := InsertAt(old(store.pages)[page].nentries, e, NodeEntry(k, n)))
      ensures store.pages == Relinked(old(store.pages), p.right, n)
                             [n := LeafPage(n, p.id, p.right, p.lentries[maxLeaf / 2..])]
                             [p.id := LeafPage(p.id, p.left, n, p.lentries[..maxLeaf / 2])]
                             [page := q]
    {
      hide Coherent;
      var ok, blank := store.NewPage();
      n := blank.id;
      var middle := |p.lentries| / 2;
      var upper := CopyEntries(p.lentries, middle, |p.lentries|);
      assert upper == p.lentries[middle..];
      var k := upper[0].key;
      if p.right != 0 {
        SetLeft(p.right, n);
      }
      ok := store.SavePage(LeafPage(n, p.id, p.right, upper));
      assert store.pages == Relinked(old(store.pages), p.right, n)[n := LeafPage(n, p.id, p.right, upper)];
      ok := store.SavePage(LeafPage(p.id, p.left, n, p.lentries[..middle]));
      assert store.pages[page] == old(store.pages)[page];
      q, e := AddToParent(page, k, n);
    }

    /** Links leaf `r` back to its new left neighbour. */
    method SetLeft(r: nat, n: nat)
      requires store.Valid() && !store.settings.readOnly && r in store.pages && store.pages[r].LeafPage?
      modifies store
      ensures var p := old(store.pages)[r];
              store.Valid() && store.pages == old(store.pages)[r := LeafPage(p.id, n, p.right, p.lentries)]
    {
      hide Coherent;
      var p := store.LoadPage(r);
      var ok := store.SavePage(LeafPage(p.id, n, p.right, p.lentries));
    }

    /** Splits a full node: the entries above the middle one to a new page, the middle one pushed up. */
    method SplitNodeBelow(p: Page, path: seq<nat>) returns (q: Page)
      requires Growing(p.id) && p == store.pages[p.id] && IsPath(Shape(), path, p.id) && path != [] && p.id != 1
      requires p.NodePage? && |p.nentries| == maxNode
      modifies this, store
      ensures Growing(q.id) && q == store.pages[q.id] && IsPath(Shape(), path[..|path| - 1], q.id)
      ensures contents == old(contents)
    {
      hide Wellformed, Stores, Coherent;
      ghost var t := Shape();
      var page := path[|path| - 1];
      NodeFacts(t, p.id, p.id);
      NodeFacts(t, p.id, page);
      var n, e;
      q, n, e := MoveUpperNode(p, page);
      SlotOfSplit(t, p.id, page, p.id, SplitKeyNode(t, p.id), e);
      NodeSplitDone(t, p.id, n, page, e, path, contents);
      info := SplitNode(t, p.id, n, page, e).info;
      assert Shape() == SplitNode(t, p.id, n, page, e);
    }

    /** The page writes of a node split. */
    method MoveUpperNode(p: Page, page: nat) returns (q: Page, n: nat, e: nat)
      requires store.Valid() && !store.settings.readOnly
      requires p.NodePage? && p.id in store.pages && |p.nentries| == maxNode > 3
      requires page in store.pages && page != p.id
      requires store.pages[page].NodePage? && SortedNode(store.pages[page].nentries)
      requires |store.pages[page].nentries| < maxNode
      modifies store
      ensures store.Valid() && n !in old(store.pages) && n != 0 && q.id == page
      ensures e <= |old(store.pages)[page].nentries|
      ensures var k := p.nentries[maxNode / 2].key;
              && (forall a :: 0 <= a < e ==> old(store.pages)[page].nentries[a].key < k)
              && (forall a :: e <= a < |old(store.pages)[page].nentries| ==>
                    k <= old(store.pages)[page].nentries[a].key)
              && q == old(store.pages)[page].(nentries := InsertAt(old(store.pages)[page].nentries, e, NodeEntry(k, n)))
      ensures store.pages == old(store.pages)
                             [n := NodePage(n, p.nentries[maxNode / 2].page, 0, p.nentries[maxNode / 2 + 1..])]
                             [p.id := p.(nentries := p.nentries[..maxNode / 2])]
                             [page := q]
    {
      hide Coherent;
      var ok, blank := store.NewPage();
      n := blank.id;
      var middle := |p.nentries| / 2;
      var upper := CopyEntries(p.nentries, middle + 1, |p.nentries|);
      assert upper == p.nentries[middle + 1..];
      var k := p.nentries[middle].key;
      ok := store.SavePage(NodePage(n, p.nentries[middle].page, 0, upper));
      ok := store.SavePage(p.(nentries := p.nentries[..middle]));
      q, e := AddToParent(page, k, n);
    }

    /** Stores separator `k` and page `n` in node `page`, keeping the entries sorted. */
    method AddToParent(page: nat, k: Key, n: nat) returns (q: Page, e: nat)
      requires store.Valid() && !store.settings.readOnly && page in store.pages
      requires store.pages[page].NodePage? && SortedNode(store.pages[page].nentries)
      requires |store.pages[page].nentries| < maxNode
      modifies store
      ensures store.Valid() && q.id == page && q.NodePage?
      ensures e <= |old(store.pages)[page].nentries|
      ensures forall a :: 0 <= a < e ==> old(store.pages)[page].nentries[a].key < k
      ensures forall a :: e <= a < |old(store.pages)[page].nentries| ==> k <= old(store.pages)[page].nentries[a].key
      ensures q == old(store.pages)[page].(nentries := InsertAt(old(store.pages)[page].nentries, e, NodeEntry(k, n)))
      ensures store.pages == old(store.pages)[page := q]
    {
      q := store.LoadPage(page);
      e := LowerBound(NodeKeys(q.nentries), k);
      q := q.(nentries := InsertAt(q.nentries, e, NodeEntry(k, n)));
      var ok := store.SavePage(q);
    }

    /** `splitRoot`: both halves go to new pages and page 1 becomes their parent. */
    method SplitRoot()
      requires Growing(1) && store.pages[1].Count() == if store.pages[1].LeafPage? then maxLeaf else maxNode
      modifies this, store
      ensures Valid() && contents == old(contents)
    {
      hide Wellformed, Stores, Coherent;
      ghost var t := Shape();
      if t.pages[1].LeafPage? { LeafFacts(t, 1, 1); } else { NodeFacts(t, 1, 1); }
      var l, r := MoveRootHalves();
      if t.pages[1].LeafPage? {
        SplitRootLeafKeeps(t, l, r);
        SplitRootLeafStores(t, l, r, contents);
        info := SplitRootLeaf(t, l, r).info;
        assert Shape() == SplitRootLeaf(t, l, r);
      } else {
        SplitRootNodeKeeps(t, l, r);
        SplitRootNodeStores(t, l, r, contents);
        info := SplitRootNode(t, l, r).info;
        assert Shape() == SplitRootNode(t, l, r);
      }
    }

    /** The page writes of a root split. */
    method MoveRootHalves() returns (l: nat, r: nat)
      requires store.Valid() && !store.settings.readOnly && 1 in store.pages && maxLeaf > 3 && maxNode > 3
      requires store.pages[1].Count() == if store.pages[1].LeafPage? then maxLeaf else maxNode
      modifies store
      ensures store.Valid() && l !in old(store.pages) && r !in old(store.pages) && l != r && l != 0 && r != 0
      ensures var p, mid := old(store.pages)[1], maxLeaf / 2;
              p.LeafPage? ==> store.pages == old(store.pages)
                [r := LeafPage(r, l, 0, p.lentries[mid..])]
                [l := LeafPage(l, 0, r, p.lentries[..mid])]
                [1 := NodePage(1, l, 0, [NodeEntry(p.lentries[mid].key, r)])]
      ensures var p, mid := old(store.pages)[1], maxNode / 2;
              p.NodePage? ==> store.pages == old(store.pages)
                [r := NodePage(r, p.nentries[mid].page, 0, p.nentries[mid + 1..])]
                [l := NodePage(l, p.left, 0, p.nentries[..mid])]
                [1 := NodePage(1, l, 0, [NodeEntry(p.nentries[mid].key, r)])]
    {
      hide Coherent;
      var p := store.LoadPage(1);
      var ok, pleft := store.NewPage();
      var pright;
      ok, pright := store.NewPage();
      l, r := pleft.id, pright.id;
      var key;
      pleft, pright, key := SplitInTwo(p, l, r);
      ok := store.SavePage(pright);
      ok := store.SavePage(pleft);
      ok := store.SavePage(NodePage(1, l, 0, [NodeEntry(key, r)]));
    }

    /** Fills the pages for both halves of the root. */
    method SplitInTwo(p: Page, l: nat, r: nat) returns (pleft: Page, pright: Page, key: Key)
      requires p.Count() > 3
      ensures pleft.id == l && pright.id == r
      ensures var mid := p.Count() / 2;
              if p.LeafPage? then
                && pleft == LeafPage(l, 0, r, p.lentries[..mid]) && pright == LeafPage(r, l, 0, p.lentries[mid..])
                && key == p.lentries[mid].key
              else
                && pleft == NodePage(l, p.left, 0, p.nentries[..mid]) && key == p.nentries[mid].key
                && pright == NodePage(r, p.nentries[mid].page, 0, p.nentries[mid + 1..])
    {
      var middle := p.Count() / 2;
      if p.NodePage? {
        var lower := CopyEntries(p.nentries, 0, middle);
        var upper := CopyEntries(p.nentries, middle + 1, |p.nentries|);
        pleft := NodePage(l, p.left, 0, lower);
        pright := NodePage(r, p.nentries[middle].page, 0, upper);
        key := p.nentries[middle].key;
      } else {
        var lower := CopyEntries(p.lentries, 0, middle);
        var upper := CopyEntries(p.lentries, middle, |p.lentries|);
        pleft := LeafPage(l, 0, r, lower);
        pright := LeafPage(r, l, 0, upper);
        key := upper[0].key;
      }
    }

    /** `count(page)`: the entries below a page, child by child. */
    method CountBelow(page: nat) returns (c: nat)
      requires Valid() && page in store.pages && page in info
      modifies store`cache
      decreases info[page].level
      ensures Valid()
      ensures c == |KeysIn(contents, info[page].lo, info[page].hi)|
    {
      hide Wellformed, Stores, Coherent;
      ghost var t := Shape();
      var p := store.LoadPage(page);
      if p.LeafPage? {
        LeafSize(t, 0, contents, page);
        return |p.lentries|;
      }
      FirstSlot(t, 0, contents, page);
      c := CountBelow(p.left);
      for i := 0 to |p.nentries|
        invariant Valid() && Shape() == t
        invariant c == |KeysIn(contents, info[page].lo, SlotHi(p, info[page].hi, i))|
      {
        SlotSize(t, 0, contents, page, i + 1);
        var d := CountBelow(p.nentries[i].page);
        c := c + d;
      }
    }

    method Count() returns (c: nat)
      requires Valid()
      modifies store`cache
      ensures Valid() && c == |contents|
    {
      c := CountBelow(1);
      AllKeys(contents);
    }

    /** All entries with keys in [key1, key2], but only if the leaf reached from `key1` holds a key from `key1` on;
        otherwise none. */
    method Range(key1: Key, key2: Key) returns (result: seq<LeafEntry>)
      requires Valid()
      modifies store`cache
      ensures Valid()
      ensures LeafReaches(Shape(), key1) ==> IsSlice(contents, key1, key2, result)
      ensures !LeafReaches(Shape(), key1) ==> result == []
      ensures IsSlice(contents, key1, key2, result) <==>
              LeafReaches(Shape(), key1) || forall k :: k in contents ==> !(key1 <= k <= key2)
    {
      result := SearchRange(1, key1, key2);
      EmptySlice(contents, key1, key2);
    }

    lemma EmptySlice(m: map<Key, Value>, k1: Key, k2: Key)
      ensures IsSlice(m, k1, k2, []) <==> forall k :: k in m ==> !(k1 <= k <= k2)
    {
      if k :| k in m && k1 <= k <= k2 {
        assert Stored(m, LeafEntry(k, m[k]));
      }
    }

    method SearchRange(page: nat, key1: Key, key2: Key) returns (result: seq<LeafEntry>)
      requires Valid() && page in store.pages && page in info && In(info[page].lo, info[page].hi, key1)
      modifies store`cache
      decreases info[page].level
      ensures Valid()
      ensures LeafReaches(Shape(), key1) ==> IsSlice(contents, key1, key2, result)
      ensures !LeafReaches(Shape(), key1) ==> result == []
    {
      hide Wellformed, Stores, Coherent;
      var p := store.LoadPage(page);
      if p.NodePage? {
        NodeFacts(Shape(), 0, page);
        var c, j := Next(key1, p);
        NextInRange(Shape(), 0, page, j, key1);
        result := SearchRange(c, key1, key2);
        return;
      }
      LeafFacts(Shape(), 0, page);
      var e := LowerBound(LeafKeys(p.lentries), key1);
      ReachedLeafDecides(Shape(), page, key1, e);
      if e == |p.lentries| {
        return [];
      }
      result := WalkRight(p, e, key1, key2);
    }

    /** Whether the range is served at all is decided in the one leaf whose range holds `k`. */
    lemma ReachedLeafDecides(t: Tree, i: nat, k: Key, e: nat)
      requires Wellformed(t, 0) && i in t.pages && i in t.info && t.pages[i].LeafPage? &&
               In(t.info[i].lo, t.info[i].hi, k)
      requires e <= |t.pages[i].lentries|
      requires forall a :: 0 <= a < e ==> t.pages[i].lentries[a].key < k
      requires forall a :: e <= a < |t.pages[i].lentries| ==> k <= t.pages[i].lentries[a].key
      ensures t.pages.Keys == t.info.Keys
      ensures LeafReaches(t, k) <==> e < |t.pages[i].lentries|
    {
      hide Locals, Children, Links, Sizes;
      forall a | a in t.pages && t.pages[a].LeafPage? && In(t.info[a].lo, t.info[a].hi, k) ensures a == i {
        assert a != i ==> Apart(t.info[a], t.info[i]);
      }
      if e < |t.pages[i].lentries| {
        assert k <= t.pages[i].lentries[e].key;
      }
    }

    /** The walk along the leaf chain from entry `from` of leaf `leaf`. */
    method WalkRight(leaf: Page, from: nat, key1: Key, key2: Key) returns (result: seq<LeafEntry>)
      requires Valid() && leaf.id in store.pages && leaf == store.pages[leaf.id] && leaf.LeafPage?
      requires leaf.id in info && In(info[leaf.id].lo, info[leaf.id].hi, key1) && from < |leaf.lentries|
      requires forall a :: 0 <= a < from ==> leaf.lentries[a].key < key1
      requires key1 <= leaf.lentries[from].key
      modifies store`cache
      ensures Valid() && IsSlice(contents, key1, key2, result)
    {
      hide Wellformed, Stores, Coherent, Listed;
      ghost var t, m := Shape(), contents;
      RootFacts(t, 0);
      var p, e := leaf, from;
      result := [];
      NothingBefore(t, m, p.id, key1, e);
      while !(key2 < p.lentries[e].key)
        invariant Valid() && Shape() == t
        invariant p.id in t.pages && p == t.pages[p.id] && p.LeafPage? && 0 <= e < |p.lentries|
        invariant key1 <= p.lentries[e].key && Listed(m, key1, At(p.lentries[e].key), result)
        invariant forall x :: x in result ==> x.key <= key2
        decreases |LeavesFrom(t, p.id)|, |p.lentries| - e
      {
        NextStored(t, m, p.id, e);
        ListOneMore(m, key1, p.lentries[e], NextKey(t, p.id, e), result);
        result := result + [p.lentries[e]];
        e := e + 1;
        if e == |p.lentries| {
          if p.right == 0 {
            ListedIsSlice(m, key1, PosInf, key2, result);
            return;
          }
          RightNeighbour(t, 0, p.id);
          p := store.LoadPage(p.right);
          e := 0;
        }
      }
      ListedIsSlice(m, key1, At(p.lentries[e].key), key2, result);
    }
  }

  // ---------------------------------------------------------------- whole runs

  datatype Op =
    | SetOp(key: Key, value: Value)
    | GetOp(key: Key)
    | CountOp
    | ReopenOp(cacheReads: bool, cacheWrites: bool)

  datatype Answer = Existed(existed: bool) | Got(value: Option<Value>) | Counted(count: nat) | Reopened

  function MapAnswer(m: map<Key, Value>, op: Op): Answer {
    match op
    case SetOp(k, v) => Existed(k in m)
    case GetOp(k) => Got(if k in m then Some(m[k]) else None)
    case CountOp => Counted(|m|)
    case ReopenOp(_, _) => Reopened
  }

  function MapAfter(m: map<Key, Value>, op: Op): map<Key, Value> {
    if op.SetOp? then m[op.key := op.value] else m
  }

  /** What a finite map answers to a run. */
  function MapRun(m: map<Key, Value>, ops: seq<Op>): seq<Answer>
    decreases |ops|
  {
    if ops == [] then [] else [MapAnswer(m, ops[0])] + MapRun(MapAfter(m, ops[0]), ops[1..])
  }

  method Perform(tree: BTree, op: Op) returns (next: BTree, answer: Answer)
    requires tree.Valid() && !tree.store.settings.readOnly
    modifies tree, tree.store
    ensures next.Valid() && !next.store.settings.readOnly
    ensures (next == tree || fresh(next)) && (next.store == tree.store || fresh(next.store))
    ensures answer == MapAnswer(old(tree.contents), op) && next.contents == MapAfter(old(tree.contents), op)
  {
    hide Wellformed, Stores, Coherent;
    next := tree;
    if op.SetOp? {
      var ok, existed, leaf := tree.Set(op.key, op.value);
      answer := Existed(existed);
    } else if op.GetOp? {
      var r := tree.Get(op.key);
      answer := Got(r);
    } else if op.CountOp? {
      var c := tree.Count();
      answer := Counted(c);
    } else {
      var ok := tree.store.Flush();
      var settings := tree.store.settings.(cacheReads := op.cacheReads, cacheWrites := op.cacheWrites);
      next := new BTree.Reopen(settings, tree.store, tree.maxLeaf, tree.maxNode, tree.info, tree.contents);
      answer := Reopened;
    }
  }

  /** Any run on a new tree, with any cache settings and reopened any number of times, answers like a finite map. */
  method Replay(s: Settings, maxLeaf: nat, maxNode: nat, ops: seq<Op>) returns (answers: seq<Answer>)
    requires s.pageSize > 0 && !s.readOnly && maxLeaf > 3 && maxNode > 3
    ensures answers == MapRun(map[], ops)
  {
    hide Wellformed, Stores, Coherent;
    var tree := new BTree(s, maxLeaf, maxNode);
    answers := [];
    for i := 0 to |ops|
      invariant fresh(tree) && fresh(tree.store) && tree.Valid() && !tree.store.settings.readOnly
      invariant answers + MapRun(tree.contents, ops[i..]) == MapRun(map[], ops)
    {
      assert ops[i..][1..] == ops[i + 1..];
      var answer;
      tree, answer := Perform(tree, ops[i]);
      answers := answers + [answer];
    }
  }
}
