/**
 The page traffic of the B+tree: a file addressed by byte offset behind a write-back cache
 (`loadPage`, `savePage`, `newPage`, their `_` forms and `flush` of
 src/eckit/container/BTree.cc).

 `pages` is the single logical page store that the file and the cache together stand for.
 */
module PageStores {
  import opened Pages

  /** `_PageInfo`; its hit counter and time stamp are never read. */
  datatype PageInfo = PageInfo(page: Page, dirty: bool)

  datatype Settings = Settings(cacheReads: bool, cacheWrites: bool, readOnly: bool, pageSize: nat, offset: nat)

  /** `pageOffset` */
  function PageOffset(s: Settings, page: nat): nat
    requires page > 0
  {
    s.pageSize * (page - 1) + s.offset
  }

  /** Where page `i` starts, counted page by page. */
  ghost function Start(s: Settings, i: nat): nat {
    if i <= 1 then s.offset else Start(s, i - 1) + s.pageSize
  }

  lemma {:induction false} OffsetIsStart(s: Settings, i: nat)
    requires i > 0
    ensures PageOffset(s, i) == Start(s, i)
  {
    if i > 1 {
      OffsetIsStart(s, i - 1);
      assert s.pageSize * (i - 1) == s.pageSize * (i - 2) + s.pageSize;
    }
  }

  lemma {:induction false} StartsGrow(s: Settings, i: nat, j: nat)
    requires 0 < i < j
    ensures Start(s, i) + s.pageSize <= Start(s, j)
  {
    if i + 1 < j { StartsGrow(s, i, j - 1); }
  }

  /** Pages map to disjoint byte ranges of the file, which tile it from `offset` on. */
  lemma PageRangesTileFile(s: Settings, i: nat, j: nat)
    requires 0 < i && 0 < j
    ensures i != j ==>
              || PageOffset(s, i) + s.pageSize <= PageOffset(s, j)
              || PageOffset(s, j) + s.pageSize <= PageOffset(s, i)
    ensures PageOffset(s, 1) == s.offset && PageOffset(s, i + 1) == PageOffset(s, i) + s.pageSize
  {
    OffsetIsStart(s, 1);
    OffsetIsStart(s, i);
    OffsetIsStart(s, i + 1);
    OffsetIsStart(s, j);
    if i < j { StartsGrow(s, i, j); }
    if j < i { StartsGrow(s, j, i); }
  }

  lemma {:induction false} SameStart(s: Settings, s': Settings, i: nat)
    requires s.pageSize == s'.pageSize && s.offset == s'.offset
    ensures Start(s, i) == Start(s', i)
  {
    if i > 1 { SameStart(s, s', i - 1); }
  }

  lemma StartsDistinct(s: Settings, i: nat)
    requires s.pageSize > 0 && i > 0
    ensures forall j: nat {:trigger Start(s, j)} :: j > 0 && j != i ==> Start(s, j) != Start(s, i)
  {
    forall j: nat {:trigger Start(s, j)} | j > 0 && j != i ensures Start(s, j) != Start(s, i) {
      if i < j { StartsGrow(s, i, j); } else { StartsGrow(s, j, i); }
    }
  }

  /** The page number `_newPage` computes from the end of the file is one past the last. */
  lemma {:induction false} EndOfFilePage(s: Settings, n: nat)
    requires s.pageSize > 0
    ensures s.offset <= Start(s, n + 1)
    ensures (Start(s, n + 1) - s.offset) / s.pageSize == n
  {
    OffsetIsStart(s, n + 1);
    DivideMultiple(s.pageSize, n);
  }

  lemma {:induction false} DivideMultiple(size: nat, n: nat)
    requires size > 0
    ensures (size * n) / size == n
  {
    var d := (size * n) / size - n;
    assert 0 <= -(size * d) < size by {
      assert size * n == size * ((size * n) / size) + (size * n) % size;
    }
    assert d == 0 by {
      assert d >= 1 ==> size * d >= size;
      assert d <= -1 ==> -(size * d) >= size;
    }
  }

  ghost predicate FileHolds(s: Settings, file: map<nat, Page>, i: nat) {
    Start(s, i) in file && file[Start(s, i)].id == i
  }

  ghost function FilePage(s: Settings, file: map<nat, Page>, i: nat): Page
    requires FileHolds(s, file, i)
  {
    file[Start(s, i)]
  }

  /** File and cache together hold the `n` pages of `pages`: a cached page is the current one, a clean cached page and
      an uncached page equal the page in the file. */
  ghost predicate Coherent(
    s: Settings, file: map<nat, Page>, cache: map<nat, PageInfo>, pages: map<nat, Page>, n: nat)
  {
    && (forall i :: i in pages <==> 1 <= i <= n)
    && (forall i :: i in pages ==> pages[i].id == i && FileHolds(s, file, i))
    && (forall i :: i in cache ==> i in pages && cache[i].page == pages[i])
    && (forall i :: i in pages && (i !in cache || !cache[i].dirty) ==> pages[i] == FilePage(s, file, i))
  }

  lemma WriteBack(s: Settings, file: map<nat, Page>, cache: map<nat, PageInfo>, pages: map<nat, Page>, n: nat, j: nat)
    requires s.pageSize > 0 && Coherent(s, file, cache, pages, n) && j in cache
    ensures Coherent(s, file[Start(s, j) := cache[j].page], cache[j := cache[j].(dirty := false)], pages, n)
  {
    hide FilePage, FileHolds;
    var p := cache[j].page;
    forall i | i in pages
      ensures FileHolds(s, file[Start(s, j) := p], i)
      ensures FilePage(s, file[Start(s, j) := p], i) == if i == j then p else FilePage(s, file, i)
    {
      WrittenAt(s, file, j, p, i);
    }
  }

  /** Writing page `j` changes the range of no other page. */
  lemma WrittenAt(s: Settings, file: map<nat, Page>, j: nat, p: Page, i: nat)
    requires s.pageSize > 0 && 0 < i && 0 < j && p.id == j && FileHolds(s, file, i)
    ensures FileHolds(s, file[Start(s, j) := p], i)
    ensures FilePage(s, file[Start(s, j) := p], i) == if i == j then p else FilePage(s, file, i)
  {
    StartsDistinct(s, j);
  }

  lemma SavedInCache(
    s: Settings, file: map<nat, Page>, cache: map<nat, PageInfo>, pages: map<nat, Page>, n: nat, p: Page)
    requires s.pageSize > 0 && Coherent(s, file, cache, pages, n) && p.id in pages
    ensures Coherent(s, file, cache[p.id := PageInfo(p, true)], pages[p.id := p], n)
  {
  }

  lemma SavedInFile(
    s: Settings, file: map<nat, Page>, cache: map<nat, PageInfo>, pages: map<nat, Page>, n: nat, p: Page)
    requires s.pageSize > 0 && Coherent(s, file, cache, pages, n) && p.id in pages
    ensures p.id !in cache ==> Coherent(s, file[Start(s, p.id) := p], cache, pages[p.id := p], n)
  {
    StartsDistinct(s, p.id);
  }

  lemma Appended(s: Settings, file: map<nat, Page>, cache: map<nat, PageInfo>, pages: map<nat, Page>, n: nat, p: Page)
    requires s.pageSize > 0 && Coherent(s, file, cache, pages, n) && p.id == n + 1
    ensures p.id !in pages && p.id !in cache
    ensures Coherent(s, file[Start(s, n + 1) := p], cache, pages[n + 1 := p], n + 1)
    ensures Coherent(s, file[Start(s, n + 1) := p], cache[n + 1 := PageInfo(p, false)], pages[n + 1 := p], n + 1)
  {
    StartsDistinct(s, n + 1);
  }

  class PageStore {
    const settings: Settings
    var file: map<nat, Page>
    var fileEnd: nat
    var cache: map<nat, PageInfo>

    ghost var pages: map<nat, Page>
    ghost var n: nat

    ghost predicate Valid()
      reads this
    {
      && settings.pageSize > 0
      && fileEnd == Start(settings, n + 1)
      && Coherent(settings, file, cache, pages, n)
    }

    /** The file alone already says what the logical store says. */
    ghost predicate Flushed()
      requires Valid()
      reads this
    {
      FilePages() == pages
    }

    /** What the file holds, whatever the cache does. */
    ghost function FilePages(): map<nat, Page>
      requires Valid()
      reads this
    {
      map i | i in pages :: FilePage(settings, file, i)
    }

    /** A new file: nothing past `offset` yet. */
    constructor (s: Settings)
      requires s.pageSize > 0
      ensures Valid() && settings == s && pages == map[] && n == 0
    {
      settings, file, fileEnd, cache := s, map[], s.offset, map[];
      pages, n := map[], 0;
    }

    /** Reopening the file of another store: what counts is what the file holds. */
    constructor Reopen(s: Settings, other: PageStore)
      requires other.Valid() && s.pageSize == other.settings.pageSize && s.offset == other.settings.offset
      ensures Valid() && settings == s && n == other.n && cache == map[] && pages == other.FilePages()
    {
      settings, file, fileEnd, cache := s, other.file, other.fileEnd, map[];
      n, pages := other.n, other.FilePages();
      new;
      forall i: nat ensures Start(settings, i) == Start(other.settings, i) {
        SameStart(settings, other.settings, i);
      }
      assert forall i :: i in pages ==> FileHolds(other.settings, file, i);
    }

    method LoadFromFile(page: nat) returns (p: Page)
      requires Valid() && page in pages
      ensures p == FilePage(settings, file, page)
    {
      var o := PageOffset(settings, page);
      OffsetIsStart(settings, page);
      assert FileHolds(settings, file, page);
      p := file[o];
      assert p.id == page;
    }

    method LoadPage(page: nat) returns (p: Page)
      requires Valid() && page in pages
      modifies `cache
      ensures Valid() && p == pages[page] && p.id == page
      ensures page in cache <==> page in old(cache) || settings.cacheReads
      ensures !settings.cacheReads ==> cache == old(cache)
    {
      if page in cache {
        return cache[page].page;
      }
      p := LoadFromFile(page);
      if settings.cacheReads {
        cache := cache[p.id := PageInfo(p, false)];
      }
    }

    /** The write itself; refuses, with nothing changed, when the tree is read only. */
    method SaveToFile(p: Page) returns (ok: bool)
      requires p.id > 0 && Start(settings, p.id) + settings.pageSize <= fileEnd
      modifies `file
      ensures ok <==> !settings.readOnly
      ensures file == if ok then old(file)[Start(settings, p.id) := p] else old(file)
    {
      if settings.readOnly { return false; }
      var o := PageOffset(settings, p.id);
      OffsetIsStart(settings, p.id);
      file := file[o := p];
      return true;
    }

    /** A cached page, or any page when writes are cached, is saved without looking at `readOnly`. */
    method SavePage(p: Page) returns (ok: bool)
      requires Valid() && p.id in pages
      modifies `cache, `file, `pages
      ensures Valid()
      ensures ok <==> !settings.readOnly || p.id in old(cache) || settings.cacheWrites
      ensures pages == if ok then old(pages)[p.id := p] else old(pages)
      ensures p.id in old(cache) || settings.cacheWrites ==> p.id in cache && cache[p.id].dirty
    {
      InFile(p.id);
      SavedInCache(settings, file, cache, pages, n, p);
      SavedInFile(settings, file, cache, pages, n, p);
      hide Coherent;
      if p.id in cache || settings.cacheWrites {
        cache := cache[p.id := PageInfo(p, true)];
        pages := pages[p.id := p];
        return true;
      }
      ok := SaveToFile(p);
      if ok {
        pages := pages[p.id := p];
      }
    }

    lemma InFile(i: nat)
      requires Valid() && i in pages
      ensures Start(settings, i) + settings.pageSize <= fileEnd
    {
      StartsGrow(settings, i, n + 1);
    }

    /** Appends a blank page; its number is one past the last and it takes the bytes at the end of the file. */
    method NewPage() returns (ok: bool, p: Page)
      requires Valid()
      modifies `file, `fileEnd, `cache, `pages, `n
      ensures Valid()
      ensures ok <==> !settings.readOnly
      ensures !ok ==> pages == old(pages) && n == old(n)
      ensures ok ==> n == old(n) + 1 && p == BlankPage(n) && n !in old(pages) && pages == old(pages)[n := p]
      ensures ok ==> PageOffset(settings, n) == old(fileEnd) && fileEnd == old(fileEnd) + settings.pageSize
    {
      p := BlankPage(0);
      if settings.readOnly { return false, p; }
      var here := fileEnd;
      EndOfFilePage(settings, n);
      var page := (here - settings.offset) / settings.pageSize + 1;
      p := BlankPage(page);
      OffsetIsStart(settings, page);
      assert PageOffset(settings, page) == here;
      Appended(settings, file, cache, pages, n, p);
      hide Coherent;
      file := file[here := p];
      fileEnd := here + settings.pageSize;
      n := n + 1;
      pages := pages[page := p];
      if settings.cacheReads || settings.cacheWrites {
        cache := cache[p.id := PageInfo(p, false)];
      }
      return true, p;
    }

    /** Writes every dirty page. Fails exactly when a read-only tree has a dirty page. */
    method Flush() returns (ok: bool)
      requires Valid()
      modifies `file, `cache
      ensures Valid()
      ensures ok <==> !settings.readOnly || forall i :: i in old(cache) ==> !old(cache)[i].dirty
      ensures ok ==> Flushed() && forall i :: i in cache ==> !cache[i].dirty
      ensures !ok ==> file == old(file) && cache == old(cache)
    {
      hide Coherent, Flushed;
      var todo := cache.Keys;
      while todo != {}
        invariant Valid() && todo <= cache.Keys == old(cache).Keys
        invariant forall i :: i in cache && i !in todo ==> !cache[i].dirty
        invariant settings.readOnly ==> file == old(file) && cache == old(cache)
        decreases |todo|
      {
        var j :| j in todo;
        if cache[j].dirty {
          var saved := Clean(j);
          if !saved { return false; }
        }
        todo := todo - {j};
      }
      AllClean();
      return true;
    }

    lemma AllClean()
      requires Valid() && forall i :: i in cache ==> !cache[i].dirty
      ensures Flushed()
    {
    }

    /** Writes one cached page. */
    method Clean(j: nat) returns (ok: bool)
      requires Valid() && j in cache
      modifies `file, `cache
      ensures Valid() && (ok <==> !settings.readOnly)
      ensures cache == if ok then old(cache)[j := old(cache)[j].(dirty := false)] else old(cache)
      ensures !ok ==> file == old(file)
    {
      InFile(j);
      WriteBack(settings, file, cache, pages, n, j);
      ok := SaveToFile(cache[j].page);
      if ok {
        cache := cache[j := cache[j].(dirty := false)];
      }
    }
  }

  /** On a file reopened read only, with either cache on, a page is saved, but never reaches the file. */
  method SaveReadOnly(s: Settings, p: Page) returns (saved: bool, flushed: bool)
    requires s.pageSize > 0 && !s.readOnly && (s.cacheReads || s.cacheWrites) && p.id == 1
    ensures saved && !flushed
  {
    var store := new PageStore(s);
    var ok, blank := store.NewPage();
    hide Coherent;
    var again := new PageStore.Reopen(s.(readOnly := true), store);
    var before := again.LoadPage(1);
    saved := again.SavePage(p);
    flushed := again.Flush();
  }

  // ---------------------------------------------------------------- whole runs

  datatype StoreOp = NewOp | LoadOp(id: nat) | SaveOp(page: Page) | FlushOp

  /** One page store without file or cache: page numbers count up from 1. Requests for pages that do not exist are
      passed over. */
  function PlainAfter(pages: seq<Page>, op: StoreOp): seq<Page> {
    match op
    case NewOp => pages + [BlankPage(|pages| + 1)]
    case SaveOp(p) => if 1 <= p.id <= |pages| then pages[p.id - 1 := p] else pages
    case _ => pages
  }

  function PlainLoad(pages: seq<Page>, op: StoreOp): seq<Page> {
    if op.LoadOp? && 1 <= op.id <= |pages| then [pages[op.id - 1]] else []
  }

  function PlainLoads(pages: seq<Page>, ops: seq<StoreOp>): seq<Page>
    decreases |ops|
  {
    if ops == [] then [] else PlainLoad(pages, ops[0]) + PlainLoads(PlainAfter(pages, ops[0]), ops[1..])
  }

  ghost predicate SamePages(pages: map<nat, Page>, n: nat, plain: seq<Page>) {
    n == |plain| && (forall i :: i in pages <==> 1 <= i <= n) && forall i :: i in pages ==> pages[i] == plain[i - 1]
  }

  method PerformOn(store: PageStore, op: StoreOp, count: nat, ghost plain: seq<Page>) returns (loaded: seq<Page>)
    requires store.Valid() && !store.settings.readOnly && count == store.n && SamePages(store.pages, store.n, plain)
    modifies store
    ensures store.Valid() && SamePages(store.pages, store.n, PlainAfter(plain, op))
    ensures loaded == PlainLoad(plain, op)
  {
    hide Coherent;
    loaded := [];
    if op.NewOp? {
      var ok, p := store.NewPage();
    } else if op.FlushOp? {
      var ok := store.Flush();
    } else if op.SaveOp? {
      if 1 <= op.page.id <= count { var ok := store.SavePage(op.page); }
    } else if 1 <= op.id <= count {
      var p := store.LoadPage(op.id);
      loaded := [p];
    }
  }

  /** Any run with any cache settings loads what one plain page store loads. */
  method ReplayStore(s: Settings, ops: seq<StoreOp>) returns (loaded: seq<Page>)
    requires s.pageSize > 0 && !s.readOnly
    ensures loaded == PlainLoads([], ops)
  {
    hide Coherent, SamePages, PlainLoads, PlainLoad;
    var store := new PageStore(s);
    var count := 0;
    ghost var plain: seq<Page> := [];
    assert SamePages(store.pages, store.n, plain) by { NoPages(store.pages); }
    loaded := [];
    for i := 0 to |ops|
      invariant fresh(store) && store.Valid() && store.settings == s
      invariant count == |plain| && SamePages(store.pages, store.n, plain)
      invariant loaded + PlainLoads(plain, ops[i..]) == PlainLoads([], ops)
    {
      LoadsNext(loaded, plain, ops, i);
      CountIs(store.pages, store.n, plain);
      var more := PerformOn(store, ops[i], count, plain);
      loaded := loaded + more;
      if ops[i].NewOp? { count := count + 1; }
      plain := PlainAfter(plain, ops[i]);
    }
    LoadsEnd(plain, ops);
  }

  lemma LoadsNext(loaded: seq<Page>, plain: seq<Page>, ops: seq<StoreOp>, i: nat)
    requires i < |ops|
    ensures loaded + PlainLoads(plain, ops[i..])
         == loaded + PlainLoad(plain, ops[i]) + PlainLoads(PlainAfter(plain, ops[i]), ops[i + 1..])
  {
    assert ops[i..][1..] == ops[i + 1..];
  }

  lemma LoadsEnd(plain: seq<Page>, ops: seq<StoreOp>)
    ensures PlainLoads(plain, ops[|ops|..]) == []
  {
  }

  lemma NoPages(pages: map<nat, Page>)
    requires pages == map[]
    ensures SamePages(pages, 0, [])
  {
  }

  lemma CountIs(pages: map<nat, Page>, n: nat, plain: seq<Page>)
    requires SamePages(pages, n, plain)
    ensures n == |plain|
  {
  }
}
