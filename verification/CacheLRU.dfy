/**
 The least-recently-used cache of src/eckit/container/CacheLRU.cc: a list with the most recently used entry in
 front, and a map from keys to list nodes.
 */
module LruCaches {
  import opened Common

  type Key(==, !new)
  type Value(==, !new)

  datatype Entry = Entry(key: Key, value: Value)

  /** A list node; its identity is what an iterator holds on to when the node moves. */
  datatype Node = Node(id: nat, entry: Entry)

  // ---------------------------------------------------------------- recency lists

  ghost predicate Distinct(es: seq<Entry>) { forall i, j :: 0 <= i < j < |es| ==> es[i].key != es[j].key }

  ghost predicate Has(es: seq<Entry>, k: Key) { exists i :: 0 <= i < |es| && es[i].key == k }

  function Without(es: seq<Entry>, k: Key): seq<Entry> {
    if es == [] then [] else (if es[0].key == k then [] else [es[0]]) + Without(es[1..], k)
  }

  function Take(es: seq<Entry>, n: nat): seq<Entry> { if |es| <= n then es else es[..n] }

  /** What `Take` leaves. */
  function Beyond(es: seq<Entry>, n: nat): seq<Entry> { if |es| <= n then [] else es[n..] }

  lemma {:induction false} WithoutAt(es: seq<Entry>, i: nat)
    requires Distinct(es) && i < |es|
    ensures Without(es, es[i].key) == es[..i] + es[i + 1..]
  {
    if i > 0 {
      WithoutAt(es[1..], i - 1);
      assert es[1..][..i - 1] == es[1..i] && es[1..][i..] == es[i + 1..];
    } else {
      WithoutAbsent(es[1..], es[0].key);
    }
  }

  lemma {:induction false} WithoutAbsent(es: seq<Entry>, k: Key)
    requires !Has(es, k)
    ensures Without(es, k) == es
  {
    if es != [] {
      assert es[0].key != k;
      forall i | 0 <= i < |es[1..]| ensures es[1..][i].key != k { assert es[1..][i] == es[i + 1]; }
      WithoutAbsent(es[1..], k);
    }
  }

  lemma WithoutDistinct(es: seq<Entry>, k: Key)
    requires Distinct(es)
    ensures Distinct(Without(es, k)) && !Has(Without(es, k), k)
    ensures forall k' :: k' != k ==> (Has(Without(es, k), k') <==> Has(es, k'))
    ensures |Without(es, k)| == |es| - if Has(es, k) then 1 else 0
  {
    if i :| 0 <= i < |es| && es[i].key == k {
      WithoutAt(es, i);
      var w := es[..i] + es[i + 1..];
      forall k' | k' != k && Has(es, k') ensures Has(w, k') {
        var j :| 0 <= j < |es| && es[j].key == k';
        assert w[if j < i then j else j - 1] == es[j];
      }
    } else {
      WithoutAbsent(es, k);
    }
  }

  // ---------------------------------------------------------------- one step, as a list

  function AfterInsert(cap: nat, es: seq<Entry>, e: Entry): seq<Entry> { Take([e] + Without(es, e.key), cap) }

  function Lookup(es: seq<Entry>, k: Key): (r: Option<Entry>)
    ensures r.Some? <==> Has(es, k)
    ensures r.Some? ==> r.value in es && r.value.key == k
  {
    if es == [] then None
    else if es[0].key == k then Some(es[0])
    else
      assert forall i :: 1 <= i < |es| ==> es[i] == es[1..][i - 1];
      Lookup(es[1..], k)
  }

  /** The entry of a key, if it has one. */
  ghost function EntryOf(es: seq<Entry>, k: Key): multiset<Entry> {
    if Lookup(es, k).Some? then multiset{Lookup(es, k).value} else multiset{}
  }

  /** A hit moves its entry to the front, a miss changes nothing. */
  function AfterAccess(es: seq<Entry>, k: Key): seq<Entry> {
    if Lookup(es, k).Some? then [Lookup(es, k).value] + Without(es, k) else es
  }

  lemma LookupAt(es: seq<Entry>, i: nat)
    requires Distinct(es) && i < |es|
    ensures Lookup(es, es[i].key) == Some(es[i])
  {
  }

  // ---------------------------------------------------------------- the cache

  ghost function Entries(nodes: seq<Node>): (es: seq<Entry>)
    ensures |es| == |nodes| &&
            forall i {:trigger es[i]} {:trigger nodes[i]} :: 0 <= i < |nodes| ==> es[i] == nodes[i].entry
  {
    seq(|nodes|, i requires 0 <= i < |nodes| => nodes[i].entry)
  }

  ghost function KeysOf(es: seq<Entry>): set<Key> { set e | e in es :: e.key }

  /** No two nodes are the same, and the map leads from the key of each to the node. */
  ghost predicate Linked(nodes: seq<Node>, index: map<Key, nat>, nextId: nat) {
    && (forall i, j :: 0 <= i < j < |nodes| ==> nodes[i].id != nodes[j].id)
    && (forall i :: 0 <= i < |nodes| ==>
          nodes[i].id < nextId && nodes[i].entry.key in index && index[nodes[i].entry.key] == nodes[i].id)
  }

  /** The map leads from exactly the keys in the list to the node that holds them. */
  ghost predicate InStep(nodes: seq<Node>, index: map<Key, nat>, nextId: nat) {
    && Distinct(Entries(nodes))
    && index.Keys == KeysOf(Entries(nodes))
    && Linked(nodes, index, nextId)
  }

  lemma KeysOfSplit(es: seq<Entry>, i: nat)
    requires Distinct(es) && i < |es|
    ensures KeysOf(es[..i] + es[i + 1..]) == KeysOf(es) - {es[i].key}
  {
  }

  lemma {:induction false} KeysOfSize(es: seq<Entry>)
    requires Distinct(es)
    ensures |KeysOf(es)| == |es|
  {
    if es != [] {
      var n := |es| - 1;
      KeysOfSplit(es, n);
      assert es[..n] + es[n + 1..] == es[..n];
      KeysOfSize(es[..n]);
      assert es[n] in es;
    }
  }

  lemma IndexSize(nodes: seq<Node>, index: map<Key, nat>, nextId: nat)
    requires InStep(nodes, index, nextId)
    ensures |index| == |nodes|
  {
    KeysOfSize(Entries(nodes));
    assert |index| == |index.Keys|;
  }

  lemma DropNode(nodes: seq<Node>, index: map<Key, nat>, nextId: nat, i: nat)
    requires InStep(nodes, index, nextId) && i < |nodes|
    ensures Entries(nodes[..i] + nodes[i + 1..]) == Without(Entries(nodes), nodes[i].entry.key)
    ensures InStep(nodes[..i] + nodes[i + 1..], index - {nodes[i].entry.key}, nextId)
  {
    hide KeysOf, Without;
    var es, k, rest := Entries(nodes), nodes[i].entry.key, nodes[..i] + nodes[i + 1..];
    WithoutAt(es, i);
    KeysOfSplit(es, i);
    assert Entries(rest) == es[..i] + es[i + 1..];
    forall j | 0 <= j < |rest| ensures rest[j].entry.key != k {
      assert rest[j] == nodes[if j < i then j else j + 1] && es[if j < i then j else j + 1].key != es[i].key;
    }
  }

  lemma NodeTakenOut(nodes: seq<Node>, index: map<Key, nat>, nextId: nat, i: nat)
    requires InStep(nodes, index, nextId) && i < |nodes|
    ensures multiset(Entries(nodes)) == multiset(Without(Entries(nodes), nodes[i].entry.key)) + multiset{nodes[i].entry}
    ensures Lookup(Entries(nodes), nodes[i].entry.key) == Some(nodes[i].entry)
  {
    TakenOut(Entries(nodes), i);
  }

  lemma PushNode(nodes: seq<Node>, index: map<Key, nat>, nextId: nat, node: Node, nextId': nat)
    requires InStep(nodes, index, nextId) && node.entry.key !in index
    requires nextId <= nextId' && node.id < nextId' && forall i :: 0 <= i < |nodes| ==> nodes[i].id != node.id
    ensures Entries([node] + nodes) == [node.entry] + Entries(nodes)
    ensures InStep([node] + nodes, index[node.entry.key := node.id], nextId')
  {
    hide KeysOf, Linked, Distinct, Entries;
    EntriesFront(node, nodes);
    KeysOfFront(node.entry, Entries(nodes));
    DistinctFront(node.entry, Entries(nodes));
    PushLinked(nodes, index, nextId, node, nextId');
  }

  lemma EntriesFront(node: Node, nodes: seq<Node>)
    ensures Entries([node] + nodes) == [node.entry] + Entries(nodes)
  {
  }

  lemma DistinctFront(e: Entry, es: seq<Entry>)
    requires Distinct(es) && e.key !in KeysOf(es)
    ensures Distinct([e] + es)
  {
  }

  lemma PushLinked(nodes: seq<Node>, index: map<Key, nat>, nextId: nat, node: Node, nextId': nat)
    requires Linked(nodes, index, nextId) && node.entry.key !in index
    requires nextId <= nextId' && node.id < nextId' && forall i :: 0 <= i < |nodes| ==> nodes[i].id != node.id
    ensures Linked([node] + nodes, index[node.entry.key := node.id], nextId')
  {
  }

  lemma KeysOfFront(e: Entry, es: seq<Entry>)
    ensures KeysOf([e] + es) == {e.key} + KeysOf(es)
  {
  }

  lemma TakenOut(es: seq<Entry>, i: nat)
    requires Distinct(es) && i < |es|
    ensures multiset(es) == multiset(Without(es, es[i].key)) + multiset{es[i]}
    ensures Lookup(es, es[i].key) == Some(es[i])
  {
    hide Without, Lookup, Has, Distinct;
    WithoutAt(es, i);
    LookupAt(es, i);
    CountedOut(es, i);
  }

  lemma CountedOut(es: seq<Entry>, i: nat)
    requires i < |es|
    ensures multiset(es) == multiset(es[..i] + es[i + 1..]) + multiset{es[i]}
  {
    assert es == es[..i] + ([es[i]] + es[i + 1..]);
  }

  lemma CountedUpTo(es: seq<Entry>, i: nat)
    requires i < |es|
    ensures multiset(es[..i + 1]) == multiset(es[..i]) + multiset{es[i]}
  {
    assert es[..i + 1] == es[..i] + [es[i]];
  }

  /** Wherever an entry that leaves the list is booked, the books still balance. */
  lemma Booked(all: multiset<Entry>, m: multiset<Entry>, m': multiset<Entry>, e: Entry,
               p: multiset<Entry>, x: multiset<Entry>, o: multiset<Entry>)
    requires all == m + p + x + o && m == m' + multiset{e}
    ensures all == m' + (p + multiset{e}) + x + o
    ensures all == m' + p + (x + multiset{e}) + o
    ensures all == m' + p + x + (o + multiset{e})
  {
  }

  lemma AllBooked(all: multiset<Entry>, m: multiset<Entry>, p: multiset<Entry>, x: multiset<Entry>, o: multiset<Entry>)
    requires all == m + p + x + o
    ensures all == multiset([]) + (p + m) + x + o
  {
  }

  /** What has left the list for the books of the purged is what is beyond. */
  lemma Balance(all: multiset<Entry>, es: seq<Entry>, n: nat, p: multiset<Entry>, p': multiset<Entry>,
                x: multiset<Entry>, o: multiset<Entry>)
    requires all == multiset(es) + p + x + o && all == multiset(Take(es, n)) + p' + x + o
    ensures p' == p + multiset(Beyond(es, n))
  {
    assert es == Take(es, n) + Beyond(es, n);
    assert multiset(es) == multiset(Take(es, n)) + multiset(Beyond(es, n));
    Rest(multiset(es), multiset(Take(es, n)), multiset(Beyond(es, n)), p, p', x, o);
  }

  lemma Rest(es: multiset<Entry>, m: multiset<Entry>, r: multiset<Entry>, p: multiset<Entry>, p': multiset<Entry>,
             x: multiset<Entry>, o: multiset<Entry>)
    requires es + p + x + o == m + p' + x + o && es == m + r
    ensures p' == p + r
  {
    forall e ensures p'[e] == (p + r)[e] { assert (es + p + x + o)[e] == (m + p' + x + o)[e]; }
  }

  lemma NothingInStep(nextId: nat)
    ensures InStep([], map[], nextId) && Entries([]) == []
  {
  }

  class CacheLRU {
    var storage: seq<Node>
    var index: map<Key, nat>
    var capacity: nat
    var nextId: nat

    ghost var inserted: multiset<Entry>
    ghost var purged: multiset<Entry>
    ghost var extracted: multiset<Entry>
    ghost var overwritten: multiset<Entry>

    ghost function Contents(): seq<Entry>
      reads this
    {
      Entries(storage)
    }

    /** List and map are in step, and every entry ever inserted is live, purged, extracted or overwritten, exactly
        once. */
    ghost predicate Accounted()
      reads this
    {
      && InStep(storage, index, nextId)
      && inserted == multiset(Contents()) + purged + extracted + overwritten
    }

    ghost predicate Valid()
      reads this
    {
      Accounted() && |storage| <= capacity
    }

    constructor (capacity: nat)
      ensures Valid() && Contents() == [] && this.capacity == capacity
      ensures inserted == purged == extracted == overwritten == multiset{}
    {
      storage, index, this.capacity, nextId := [], map[], capacity, 0;
      inserted, purged, extracted, overwritten := multiset{}, multiset{}, multiset{}, multiset{};
    }

    /** Follows the iterator that the map holds for a key. */
    method Locate(key: Key) returns (i: nat)
      requires Accounted() && key in index
      ensures i < |storage| && storage[i].entry.key == key
    {
      ghost var e :| e in Contents() && e.key == key;
      ghost var j :| 0 <= j < |storage| && Contents()[j] == e;
      i := 0;
      while storage[i].id != index[key]
        invariant i <= j
        decreases |storage| - i
      {
        i := i + 1;
      }
    }

    /** Unlinks a node and forgets its key; the caller says what becomes of the entry. */
    method Erase(key: Key) returns (e: Entry)
      requires Accounted() && key in index
      modifies `storage, `index
      ensures InStep(storage, index, nextId) && key !in index
      ensures Lookup(old(Contents()), key) == Some(e) && Contents() == Without(old(Contents()), key)
      ensures multiset(old(Contents())) == multiset(Contents()) + multiset{e}
      ensures |storage| == |old(storage)| - 1
    {
      var i := Locate(key);
      DropNode(storage, index, nextId, i);
      NodeTakenOut(storage, index, nextId, i);
      e := storage[i].entry;
      storage := storage[..i] + storage[i + 1..];
      index := index - {key};
    }

    method Insert(key: Key, value: Value) returns (existed: bool)
      requires Valid()
      modifies this
      ensures Valid() && capacity == old(capacity)
      ensures existed <==> key in old(index)
      ensures Contents() == AfterInsert(capacity, old(Contents()), Entry(key, value))
      ensures inserted == old(inserted) + multiset{Entry(key, value)} && extracted == old(extracted)
      ensures overwritten == old(overwritten) + EntryOf(old(Contents()), key)
      ensures purged == old(purged) + multiset(Beyond([Entry(key, value)] + Without(old(Contents()), key), capacity))
    {
      hide Accounted, Contents, Without, Take, Beyond, EntryOf;
      existed := key in index;
      Displace(key);
      PushFront(Entry(key, value));
      Trim();
    }

    /** Makes way for a new entry under the same key. */
    method Displace(key: Key)
      requires Accounted()
      modifies `storage, `index, `overwritten
      ensures Accounted() && key !in index && Contents() == Without(old(Contents()), key) && |storage| <= |old(storage)|
      ensures overwritten == old(overwritten) + EntryOf(old(Contents()), key)
    {
      hide InStep, KeysOf, Without, Lookup, Has, Distinct, Entries;
      if key in index {
        var e := Erase(key);
        Booked(inserted, multiset(old(Contents())), multiset(Contents()), e, purged, extracted, overwritten);
        overwritten := overwritten + multiset{e};
      } else {
        NotThere(storage, index, nextId, key);
      }
    }

    /** Purges the least recently used entry. */
    method PopBack()
      requires Accounted() && storage != []
      modifies `storage, `index, `purged
      ensures Accounted() && storage == old(storage)[..|old(storage)| - 1]
    {
      hide InStep, KeysOf, Without, Lookup, Has, Distinct;
      var n := |storage| - 1;
      var e := storage[n].entry;
      DropNode(storage, index, nextId, n);
      NodeTakenOut(storage, index, nextId, n);
      assert storage[..n] + storage[n + 1..] == storage[..n];
      purged := purged + multiset{e};
      index := index - {e.key};
      storage := storage[..n];
    }

    method PushFront(e: Entry)
      requires Accounted() && e.key !in index
      modifies `storage, `index, `nextId, `inserted
      ensures Accounted() && Contents() == [e] + old(Contents()) && inserted == old(inserted) + multiset{e}
    {
      hide InStep, Entries;
      FreshId(storage, index, nextId);
      PushNode(storage, index, nextId, Node(nextId, e), nextId + 1);
      storage := [Node(nextId, e)] + storage;
      index := index[e.key := nextId];
      nextId := nextId + 1;
      inserted := inserted + multiset{e};
    }

    /** Purges from the back until the capacity is kept. */
    method Trim()
      requires Accounted()
      modifies `storage, `index, `purged
      ensures Valid() && Contents() == Take(old(Contents()), capacity)
      ensures purged == old(purged) + multiset(Beyond(old(Contents()), capacity))
    {
      hide Accounted, Take, Beyond, Contents;
      Counted();
      Books();
      while |index| > capacity
        invariant Accounted() && |index| == |storage| <= |old(storage)|
        invariant storage == old(storage)[..|storage|] && (|storage| >= capacity || storage == old(storage))
        decreases |storage|
      {
        PopBack();
        Counted();
      }
      Kept(old(storage));
      Books();
      Balance(inserted, old(Contents()), capacity, old(purged), purged, extracted, overwritten);
    }

    twostate lemma Kept(nodes: seq<Node>)
      requires nodes == old(storage) && |storage| <= |nodes| && |storage| <= capacity && storage == nodes[..|storage|]
      requires |storage| == capacity || |storage| == |nodes|
      ensures Contents() == Take(old(Contents()), capacity)
    {
      Shortened(nodes, |storage|, capacity);
    }

    /** Every entry inserted is somewhere. */
    lemma Books()
      requires Accounted()
      ensures inserted == multiset(Contents()) + purged + extracted + overwritten
    {
    }

    lemma Counted()
      requires Accounted()
      ensures |index| == |storage|
    {
      IndexSize(storage, index, nextId);
    }

    method Access(key: Key) returns (r: Option<Value>)
      requires Valid()
      modifies `storage
      ensures Valid()
      ensures Contents() == AfterAccess(old(Contents()), key)
      ensures r == match Lookup(old(Contents()), key) case Some(e) => Some(e.value) case None => None
    {
      hide InStep, KeysOf, Without, Lookup, Has, AfterAccess, Entries;
      if |storage| > 0 && storage[0].entry.key == key {
        FrontIsHit(storage, index, nextId);
        return Some(storage[0].entry.value);
      }
      if key !in index {
        NotThere(storage, index, nextId, key);
        return None;
      }
      var i := Locate(key);
      MovedToFront(storage, index, nextId, i);
      MovedInStep(storage, index, nextId, i);
      storage := [storage[i]] + storage[..i] + storage[i + 1..];
      return Some(storage[0].entry.value);
    }

    method Extract(key: Key) returns (r: Option<Value>)
      requires Valid()
      modifies `storage, `index, `extracted
      ensures Valid()
      ensures Contents() == Without(old(Contents()), key)
      ensures r == match Lookup(old(Contents()), key) case Some(e) => Some(e.value) case None => None
      ensures extracted == old(extracted) + EntryOf(old(Contents()), key)
    {
      hide InStep, KeysOf, Without, Lookup, Has, Distinct, Entries;
      if key !in index {
        NotThere(storage, index, nextId, key);
        return None;
      }
      var e := Erase(key);
      Booked(inserted, multiset(old(Contents())), multiset(Contents()), e, purged, extracted, overwritten);
      extracted := extracted + multiset{e};
      return Some(e.value);
    }

    method Remove(key: Key) returns (existed: bool)
      requires Valid()
      modifies `storage, `index, `purged
      ensures Valid() && (existed <==> key in old(index))
      ensures Contents() == Without(old(Contents()), key)
      ensures purged == old(purged) + EntryOf(old(Contents()), key)
    {
      hide InStep, KeysOf, Without, Lookup, Has, Distinct, Entries;
      existed := key in index;
      if existed {
        var e := Erase(key);
        Booked(inserted, multiset(old(Contents())), multiset(Contents()), e, purged, extracted, overwritten);
        purged := purged + multiset{e};
      } else {
        NotThere(storage, index, nextId, key);
      }
    }

    method Clear()
      requires Valid()
      modifies `storage, `index, `purged
      ensures Valid() && Contents() == [] && purged == old(purged) + multiset(old(Contents()))
    {
      hide InStep, Entries;
      AllBooked(inserted, multiset(Contents()), purged, extracted, overwritten);
      PurgeAll();
      NothingInStep(nextId);
      storage, index := [], map[];
    }

    method PurgeAll()
      modifies `purged
      ensures purged == old(purged) + multiset(Contents())
    {
      ghost var es := Contents();
      for i := 0 to |storage|
        invariant purged == old(purged) + multiset(es[..i])
      {
        CountedUpTo(es, i);
        purged := purged + multiset{storage[i].entry};
      }
      assert es[..|storage|] == es;
    }

    method SetCapacity(size: nat)
      requires Valid()
      modifies `capacity, `storage, `index, `purged
      ensures Valid() && capacity == size && Contents() == Take(old(Contents()), size)
      ensures purged == old(purged) + multiset(Beyond(old(Contents()), size))
    {
      capacity := size;
      Trim();
    }
  }

  lemma NotThere(nodes: seq<Node>, index: map<Key, nat>, nextId: nat, key: Key)
    requires InStep(nodes, index, nextId) && key !in index
    ensures Lookup(Entries(nodes), key).None? && Without(Entries(nodes), key) == Entries(nodes)
    ensures AfterAccess(Entries(nodes), key) == Entries(nodes)
  {
    var es := Entries(nodes);
    assert !Has(es, key) by {
      forall i | 0 <= i < |es| ensures es[i].key != key { assert es[i] in es; }
    }
    WithoutAbsent(es, key);
  }

  lemma FrontIsHit(nodes: seq<Node>, index: map<Key, nat>, nextId: nat)
    requires InStep(nodes, index, nextId) && nodes != []
    ensures var es, e := Entries(nodes), nodes[0].entry;
            AfterAccess(es, e.key) == es && Lookup(es, e.key) == Some(e)
  {
    var es := Entries(nodes);
    WithoutAt(es, 0);
    assert [es[0]] + (es[..0] + es[1..]) == es;
  }

  lemma MovedToFront(nodes: seq<Node>, index: map<Key, nat>, nextId: nat, i: nat)
    requires InStep(nodes, index, nextId) && i < |nodes|
    ensures var nodes' := [nodes[i]] + nodes[..i] + nodes[i + 1..];
            && Entries(nodes') == AfterAccess(Entries(nodes), nodes[i].entry.key)
            && multiset(Entries(nodes')) == multiset(Entries(nodes))
            && Lookup(Entries(nodes), nodes[i].entry.key) == Some(nodes[i].entry)
  {
    var es := Entries(nodes);
    hide Without, Lookup, Distinct, KeysOf, Linked, AfterAccess;
    WithoutAt(es, i);
    TakenOut(es, i);
    EntriesMoved(nodes, i);
    AfterHit(es, i);
    assert multiset([es[i]] + (es[..i] + es[i + 1..])) == multiset{es[i]} + multiset(es[..i] + es[i + 1..]);
  }

  lemma EntriesMoved(nodes: seq<Node>, i: nat)
    requires i < |nodes|
    ensures var es := Entries(nodes);
            Entries([nodes[i]] + nodes[..i] + nodes[i + 1..]) == [es[i]] + (es[..i] + es[i + 1..])
  {
  }

  lemma AfterHit(es: seq<Entry>, i: nat)
    requires i < |es| && Lookup(es, es[i].key) == Some(es[i])
    ensures AfterAccess(es, es[i].key) == [es[i]] + Without(es, es[i].key)
  {
    hide Lookup, Without;
  }

  lemma MovedInStep(nodes: seq<Node>, index: map<Key, nat>, nextId: nat, i: nat)
    requires InStep(nodes, index, nextId) && i < |nodes|
    ensures InStep([nodes[i]] + nodes[..i] + nodes[i + 1..], index, nextId)
  {
    hide KeysOf, Without;
    var rest, k := nodes[..i] + nodes[i + 1..], nodes[i].entry.key;
    DropNode(nodes, index, nextId, i);
    forall j | 0 <= j < |rest|
      ensures rest[j].id != nodes[i].id
    {
      assert rest[j] == nodes[if j < i then j else j + 1];
    }
    PushNode(rest, index - {k}, nextId, nodes[i], nextId);
    assert (index - {k})[k := nodes[i].id] == index;
    assert [nodes[i]] + rest == [nodes[i]] + nodes[..i] + nodes[i + 1..];
  }

  lemma Shortened(nodes: seq<Node>, n: nat, capacity: nat)
    requires n <= |nodes| && n <= capacity && (n == capacity || n == |nodes|)
    ensures Entries(nodes[..n]) == Take(Entries(nodes), capacity)
  {
  }

  lemma FreshId(nodes: seq<Node>, index: map<Key, nat>, nextId: nat)
    requires InStep(nodes, index, nextId)
    ensures forall i :: 0 <= i < |nodes| ==> nodes[i].id != nextId
  {
  }

  // ---------------------------------------------------------------- whole runs

  datatype Use = Put(e: Entry) | Touch(k: Key)

  function KeyOf(u: Use): Key { if u.Put? then u.e.key else u.k }

  /** What a cache of fixed capacity holds after a run. */
  ghost function Cached(cap: nat, us: seq<Use>): seq<Entry> {
    if us == [] then [] else
      var u, es := us[|us| - 1], Cached(cap, us[..|us| - 1]);
      if u.Put? then AfterInsert(cap, es, u.e) else AfterAccess(es, u.k)
  }

  /** Every access finds its key. */
  ghost predicate AllHit(cap: nat, us: seq<Use>) {
    us != [] ==>
      var u, front := us[|us| - 1], us[..|us| - 1];
      AllHit(cap, front) && (u.Touch? ==> Has(Cached(cap, front), u.k))
  }

  /** The same without a capacity: all keys ever used, the latest first. */
  ghost function Recent(us: seq<Use>): seq<Entry> {
    if us == [] then [] else
      var u, es := us[|us| - 1], Recent(us[..|us| - 1]);
      if u.Put? then [u.e] + Without(es, u.e.key) else AfterAccess(es, u.k)
  }

  /** When a key was last used; 0 for never. */
  ghost function LastUse(us: seq<Use>, k: Key): nat {
    if us == [] then 0 else if KeyOf(us[|us| - 1]) == k then |us| else LastUse(us[..|us| - 1], k)
  }

  lemma {:induction false} LastUseBound(us: seq<Use>, k: Key)
    ensures LastUse(us, k) <= |us|
  {
    if us != [] { LastUseBound(us[..|us| - 1], k); }
  }

  lemma TakeInsert(es: seq<Entry>, cap: nat, e: Entry)
    requires Distinct(es)
    ensures Distinct(Take(es, cap))
    ensures Take([e] + Without(es, e.key), cap) == Take([e] + Without(Take(es, cap), e.key), cap)
  {
    hide Without, Has;
    var t := Take(es, cap);
    if i :| 0 <= i < |es| && es[i].key == e.key {
      TakeInsertAt(es, cap, e, i);
    } else {
      assert !Has(es, e.key) && !Has(t, e.key) by { NotHas(es, e.key); NotHas(t, e.key); }
      WithoutAbsent(es, e.key);
      WithoutAbsent(t, e.key);
      TakeFront(e, es, cap);
    }
  }

  lemma NotHas(es: seq<Entry>, k: Key)
    requires forall i :: 0 <= i < |es| ==> es[i].key != k
    ensures !Has(es, k)
  {
  }

  lemma TakeFront(e: Entry, es: seq<Entry>, cap: nat)
    ensures Take([e] + es, cap) == Take([e] + Take(es, cap), cap)
  {
    if |es| > cap { assert ([e] + es)[..cap] == ([e] + es[..cap])[..cap]; }
  }

  lemma TakeSame(a: seq<Entry>, b: seq<Entry>, cap: nat)
    requires |Take(a, cap)| == |Take(b, cap)| && forall j :: 0 <= j < |Take(a, cap)| ==> a[j] == b[j]
    ensures Take(a, cap) == Take(b, cap)
  {
  }

  lemma TakeFacts(es: seq<Entry>, cap: nat)
    ensures var t := Take(es, cap);
            && |t| == Min(|es|, cap) && (forall j :: 0 <= j < |t| ==> t[j] == es[j]) && (Distinct(es) ==> Distinct(t))
  {
  }

  lemma TakeInsertAt(es: seq<Entry>, cap: nat, e: Entry, i: nat)
    requires Distinct(es) && i < |es| && es[i].key == e.key
    ensures Take([e] + Without(es, e.key), cap) == Take([e] + Without(Take(es, cap), e.key), cap)
  {
    hide Without, Has, Take;
    var t := Take(es, cap);
    WithoutAt(es, i);
    TakeFacts(es, cap);
    if i < |t| {
      assert t[i].key == e.key;
      hide Distinct;
      WithoutAt(t, i);
      TakeWithout(e, es, cap, i);
    } else {
      NotHas(t, e.key);
      hide Distinct;
      WithoutAbsent(t, e.key);
      TakePast(e, es, cap, i);
    }
  }

  lemma TakePast(e: Entry, es: seq<Entry>, cap: nat, i: nat)
    requires cap <= i < |es|
    ensures Take([e] + (es[..i] + es[i + 1..]), cap) == Take([e] + Take(es, cap), cap)
  {
    var a, b := [e] + (es[..i] + es[i + 1..]), [e] + es[..cap];
    assert forall j :: 0 < j < cap ==> a[j] == es[j - 1] == b[j];
    TakeSame(a, b, cap);
  }

  lemma TakeWithout(e: Entry, es: seq<Entry>, cap: nat, i: nat)
    requires i < |es| && i < cap
    ensures var t := Take(es, cap);
            Take([e] + (es[..i] + es[i + 1..]), cap) == Take([e] + (t[..i] + t[i + 1..]), cap)
  {
    var t := Take(es, cap);
    var a, b := [e] + (es[..i] + es[i + 1..]), [e] + (t[..i] + t[i + 1..]);
    assert forall j :: 0 < j < |b| ==> a[j] == b[j];
    TakeSame(a, b, cap);
  }

  lemma TakeAccess(es: seq<Entry>, cap: nat, k: Key)
    requires Distinct(es) && Has(Take(es, cap), k)
    ensures AfterAccess(Take(es, cap), k) == Take(AfterAccess(es, k), cap) && Has(es, k)
  {
    TakeFacts(es, cap);
    var t := Take(es, cap);
    var i :| 0 <= i < |t| && t[i].key == k;
    hide Without, Lookup, AfterAccess, Take;
    assert es[i] == t[i];
    WithoutAt(es, i);
    WithoutAt(t, i);
    LookupAt(es, i);
    LookupAt(t, i);
    AfterHit(es, i);
    AfterHit(t, i);
    hide Distinct;
    TakeMoved(es, cap, i);
  }

  lemma TakeMoved(es: seq<Entry>, cap: nat, i: nat)
    requires i < |es| && i < cap
    ensures var t := Take(es, cap);
            [t[i]] + (t[..i] + t[i + 1..]) == Take([es[i]] + (es[..i] + es[i + 1..]), cap)
  {
    var t := Take(es, cap);
    var a, b := [es[i]] + (es[..i] + es[i + 1..]), [t[i]] + (t[..i] + t[i + 1..]);
    assert |b| == |Take(a, cap)| && forall j :: 0 < j < |b| ==> a[j] == b[j];
  }

  /** The list of recent keys without repetition, in order of last use. */
  ghost predicate ByLastUse(us: seq<Use>, es: seq<Entry>) {
    && Distinct(es)
    && (forall i, j :: 0 <= i < j < |es| ==> LastUse(us, es[i].key) > LastUse(us, es[j].key))
    && (forall k :: Has(es, k) <==> LastUse(us, k) > 0)
  }

  lemma MoveToFrontByLastUse(us: seq<Use>, u: Use, es: seq<Entry>, e: Entry)
    requires ByLastUse(us, es) && KeyOf(u) == e.key
    ensures ByLastUse(us + [u], [e] + Without(es, e.key))
  {
    hide Without;
    var us', es' := us + [u], [e] + Without(es, e.key);
    assert us'[..|us|] == us;
    WithoutDistinct(es, e.key);
    forall k ensures LastUse(us', k) == if k == e.key then |us'| else LastUse(us, k) { }
    forall k ensures LastUse(us, k) <= |us| { LastUseBound(us, k); }
    WithoutOrdered(us, es, e.key);
    forall k ensures Has(es', k) <==> LastUse(us', k) > 0 {
      assert es'[1..] == Without(es, e.key);
      HasFront(e, Without(es, e.key), k);
    }
    forall i | 0 < i < |es'| ensures es'[i].key != e.key && es'[i] == Without(es, e.key)[i - 1] {
    }
  }

  lemma HasFront(e: Entry, w: seq<Entry>, k: Key)
    ensures Has([e] + w, k) <==> e.key == k || Has(w, k)
  {
    assert ([e] + w)[0] == e;
    assert forall i :: 0 <= i < |w| ==> ([e] + w)[i + 1] == w[i];
  }

  lemma WithoutOrdered(us: seq<Use>, es: seq<Entry>, k: Key)
    requires ByLastUse(us, es)
    ensures var w := Without(es, k); forall i, j :: 0 <= i < j < |w| ==> LastUse(us, w[i].key) > LastUse(us, w[j].key)
  {
    if i :| 0 <= i < |es| && es[i].key == k { WithoutAt(es, i); } else { WithoutAbsent(es, k); }
  }

  lemma {:induction false} CachedIsRecent(cap: nat, us: seq<Use>)
    requires AllHit(cap, us)
    ensures Cached(cap, us) == Take(Recent(us), cap) && ByLastUse(us, Recent(us))
  {
    if us != [] {
      var f, u := us[..|us| - 1], us[|us| - 1];
      CachedIsRecent(cap, f);
      assert us == f + [u];
      var es := Recent(f);
      if u.Put? {
        TakeInsert(es, cap, u.e);
        MoveToFrontByLastUse(f, u, es, u.e);
      } else {
        TakeAccess(es, cap, u.k);
        MoveToFrontByLastUse(f, u, es, Lookup(es, u.k).value);
      }
    }
  }

  /** At fixed capacity, after any run of inserts and hitting accesses, the cache lists keys in order of last use, and
      every key in it was used later than every key that is not. */
  lemma KeepsMostRecent(cap: nat, us: seq<Use>, k: Key, k': Key)
    requires AllHit(cap, us)
    ensures var es := Cached(cap, us);
            && |es| <= cap && Distinct(es)
            && (forall i, j :: 0 <= i < j < |es| ==> LastUse(us, es[i].key) > LastUse(us, es[j].key))
            && (Has(es, k) && !Has(es, k') ==> LastUse(us, k) > LastUse(us, k'))
            && (|es| < cap ==> (Has(es, k) <==> LastUse(us, k) > 0))
  {
    hide Cached, Recent, AllHit, LastUse, ByLastUse;
    CachedIsRecent(cap, us);
    FirstByLastUse(us, Recent(us), cap, k, k');
  }

  lemma FirstByLastUse(us: seq<Use>, all: seq<Entry>, cap: nat, k: Key, k': Key)
    requires ByLastUse(us, all)
    ensures var es := Take(all, cap);
            && |es| <= cap && Distinct(es)
            && (forall i, j :: 0 <= i < j < |es| ==> LastUse(us, es[i].key) > LastUse(us, es[j].key))
            && (Has(es, k) && !Has(es, k') ==> LastUse(us, k) > LastUse(us, k'))
            && (|es| < cap ==> (Has(es, k) <==> LastUse(us, k) > 0))
  {
  }

  /** Any run on a new cache leaves what the list of uses says. */
  method Replay(cap: nat, us: seq<Use>) returns (nodes: seq<Node>)
    ensures |nodes| <= cap && Entries(nodes) == Cached(cap, us)
  {
    var c := new CacheLRU(cap);
    hide CacheLRU.Accounted, AfterInsert, AfterAccess, Lookup;
    for i := 0 to |us|
      invariant fresh(c) && c.Valid() && c.capacity == cap && c.Contents() == Cached(cap, us[..i])
    {
      assert us[..i + 1][..i] == us[..i];
      if us[i].Put? {
        var existed := c.Insert(us[i].e.key, us[i].e.value);
      } else {
        var r := c.Access(us[i].k);
      }
    }
    assert us[..|us|] == us;
    nodes := c.storage;
  }
}
