/**
 The sorted vector behind src/eckit/container/DenseSet.h.
 */
module DenseSets {
  import opened Common

  ghost predicate Ascending(s: seq<Ordered>) { forall i, j :: 0 <= i < j < |s| ==> s[i] < s[j] }

  ghost predicate Sorted(s: seq<Ordered>) { forall i, j :: 0 <= i < j < |s| ==> s[i] <= s[j] }

  ghost function SetOf(s: seq<Ordered>): set<Ordered> { set v | v in s }

  /** `std::sort` */
  method Sort(s: seq<Ordered>) returns (r: seq<Ordered>)
    ensures Sorted(r) && multiset(r) == multiset(s)
  {
    hide Sorted;
    r := [];
    assert Sorted(r) by { NothingSorted(); }
    for n := 0 to |s|
      invariant Sorted(r) && multiset(r) == multiset(s[..n])
    {
      assert s[..n + 1] == s[..n] + [s[n]];
      r := Insertion(r, s[n]);
    }
    assert s[..|s|] == s;
  }

  lemma NothingSorted()
    ensures Sorted([])
  {
  }

  method Insertion(s: seq<Ordered>, v: Ordered) returns (r: seq<Ordered>)
    requires Sorted(s)
    ensures Sorted(r) && multiset(r) == multiset(s) + multiset{v}
  {
    hide Sorted;
    var i := |s|;
    while i > 0 && v < s[i - 1]
      invariant 0 <= i <= |s| && forall k :: i <= k < |s| ==> v < s[k]
    {
      i := i - 1;
    }
    r := s[..i] + [v] + s[i..];
    SplicedSorted(s, i, v);
    SplicedSame(s, i, v);
  }

  lemma SplicedSorted(s: seq<Ordered>, i: nat, v: Ordered)
    requires Sorted(s) && i <= |s| && (i > 0 ==> s[i - 1] <= v) && forall k :: i <= k < |s| ==> v < s[k]
    ensures Sorted(s[..i] + [v] + s[i..])
  {
  }

  lemma SplicedSame(s: seq<Ordered>, i: nat, v: Ordered)
    requires i <= |s|
    ensures multiset(s[..i] + [v] + s[i..]) == multiset(s) + multiset{v}
  {
    assert s == s[..i] + s[i..];
  }

  /** `std::unique`: moves the first of each run of equal values down and returns the new end. */
  method Unique(s: seq<Ordered>) returns (r: seq<Ordered>, end: nat)
    requires Sorted(s)
    ensures |r| == |s| && end <= |r| && Ascending(r[..end]) && SetOf(r[..end]) == SetOf(s)
  {
    if s == [] { return s, 0; }
    r, end := s, 1;
    hide Deduped;
    StartsDeduped(s);
    for i := 1 to |s|
      invariant Deduped(s, i, r, end)
    {
      DedupedNext(s, i, r, end);
      if r[i] != r[end - 1] {
        r, end := r[end := r[i]], end + 1;
      }
    }
    assert s[..|s|] == s;
  }

  /** The first `i` values of `s`, without repetition, are the first `end` of `r`, and the rest is as it was. */
  ghost predicate Deduped(s: seq<Ordered>, i: nat, r: seq<Ordered>, end: nat)
    ensures Deduped(s, i, r, end) ==>
              1 <= end <= i <= |s| == |r| && Ascending(r[..end]) && SetOf(r[..end]) == SetOf(s[..i])
  {
    && 1 <= end <= i <= |s| == |r| && r[i..] == s[i..]
    && Ascending(r[..end]) && SetOf(r[..end]) == SetOf(s[..i]) && r[end - 1] == s[i - 1]
  }

  lemma StartsDeduped(s: seq<Ordered>)
    requires s != []
    ensures Deduped(s, 1, s, 1)
  {
  }

  lemma DedupedNext(s: seq<Ordered>, i: nat, r: seq<Ordered>, end: nat)
    requires Sorted(s) && i < |s| && Deduped(s, i, r, end)
    ensures if r[i] != r[end - 1] then Deduped(s, i + 1, r[end := r[i]], end + 1) else Deduped(s, i + 1, r, end)
  {
    assert r[i] == r[i..][0] == s[i] && s[i - 1] <= s[i];
    assert r[i + 1..] == r[i..][1..] && s[i + 1..] == s[i..][1..];
    hide Ascending, SetOf, Sorted;
    TakeOneMore(s, i);
    if r[i] != r[end - 1] {
      var r' := r[end := r[i]];
      assert r'[..end + 1] == r[..end] + [s[i]] && r'[i + 1..] == r[i + 1..];
      OneMore(r[..end], s[i]);
    } else {
      Member(r[..end], end - 1);
    }
  }

  lemma OneMore(a: seq<Ordered>, v: Ordered)
    requires Ascending(a) && a != [] && a[|a| - 1] < v
    ensures Ascending(a + [v]) && SetOf(a + [v]) == SetOf(a) + {v}
  {
  }

  lemma MultisetSet(a: seq<Ordered>, b: seq<Ordered>)
    requires multiset(a) == multiset(b)
    ensures SetOf(a) == SetOf(b)
  {
    forall v ensures v in a <==> v in b { assert v in a <==> v in multiset(a); assert v in b <==> v in multiset(b); }
  }

  class DenseSet {
    var values: seq<Ordered>
    var sorted: bool

    /** The flag never claims more than is true. */
    ghost predicate Valid()
      reads this
    {
      sorted ==> Ascending(values)
    }

    constructor ()
      ensures Valid() && values == [] && sorted
    {
      values, sorted := [], true;
    }

    method Insert(v: Ordered)
      requires Valid()
      modifies this
      ensures Valid() && values == old(values) + [v]
      ensures sorted <==> old(sorted) && (old(values) == [] || old(values)[|old(values)| - 1] < v)
    {
      if values != [] && v <= values[|values| - 1] { sorted := false; }
      values := values + [v];
    }

    method Clear()
      modifies this
      ensures Valid() && values == [] && sorted
    {
      values, sorted := [], true;
    }

    method SortValues()
      requires Valid()
      modifies this
      ensures Valid() && sorted && SetOf(values) == SetOf(old(values))
    {
      if !sorted {
        var s := Sort(values);
        MultisetSet(s, values);
        var r, last := Unique(s);
        values := r[..last];
        sorted := true;
      }
    }

    /** A position, none, or, for an unsorted nonempty set, a failed assertion. */
    method Find(v: Ordered) returns (ok: bool, at: Option<nat>)
      requires Valid()
      ensures ok <==> values == [] || sorted
      ensures ok ==> (at.Some? <==> v in values)
      ensures ok && at.Some? ==> at.value < |values| && values[at.value] == v
    {
      if values == [] { return true, None; }
      if !sorted { return false, None; }
      var e := LowerBound(values, v);
      if e != |values| && values[e] == v { return true, Some(e); }
      return true, None;
    }

    /** `operator==` compares the vectors. */
    method Equals(rhs: DenseSet) returns (r: bool)
      requires Valid() && rhs.Valid()
      ensures sorted && rhs.sorted ==> (r <==> SetOf(values) == SetOf(rhs.values))
    {
      r := values == rhs.values;
      if sorted && rhs.sorted { AscendingIsCanonical(values, rhs.values); }
    }

    /** Inserts the missing values of a sorted set into a sorted set, in place. An empty set takes over the other as
        it is; otherwise both must be sorted. */
    method Merge(other: DenseSet) returns (ok: bool)
      requires Valid() && other.Valid()
      modifies this
      ensures Valid()
      ensures ok <==> old(other.values) == [] || old(values) == [] || (old(sorted) && old(other.sorted))
      ensures !ok ==> values == old(values) && sorted == old(sorted)
      ensures ok ==> SetOf(values) == SetOf(old(values)) + SetOf(old(other.values))
      ensures old(sorted) && old(other.sorted) ==> sorted && Ascending(values)
    {
      if other.values == [] { return true; }
      if values == [] {
        values, sorted := other.values, other.sorted;
        return true;
      }
      if !sorted || !other.sorted { return false; }
      MergeSorted(other);
      return true;
    }

    method MergeSorted(other: DenseSet)
      requires sorted && Ascending(values) && Ascending(other.values)
      modifies `values
      ensures Ascending(values) && SetOf(values) == SetOf(old(values)) + SetOf(old(other.values))
    {
      hide SetOf;
      ghost var mine, theirs := values, other.values;
      NoValues();
      assert theirs[..0] == [];
      var i, j := 0, 0;
      while j < |other.values|
        invariant Ascending(values) && other.values == theirs && 0 <= j <= |theirs| && 0 <= i <= |values|
        invariant SetOf(values) == SetOf(mine) + SetOf(theirs[..j])
        invariant j < |theirs| ==> forall k :: 0 <= k < i ==> values[k] < theirs[j]
        invariant other == this ==> i <= j && values == theirs
        decreases |theirs| - j, |values| - i
      {
        if i >= |values| || values[i] > other.values[j] {
          Inserted(values, i, theirs[j]);
          TakeOneMore(theirs, j);
          values := values[..i] + [other.values[j]] + values[i..];
          i, j := i + 1, j + 1;
        } else if values[i] == other.values[j] {
          TakeOneMore(theirs, j);
          Member(values, i);
          j := j + 1;
        } else {
          i := i + 1;
        }
      }
      assert theirs[..|theirs|] == theirs;
    }
  }

  lemma Member(s: seq<Ordered>, i: nat)
    requires i < |s|
    ensures s[i] in SetOf(s)
  {
  }

  lemma TakeOneMore(s: seq<Ordered>, j: nat)
    requires j < |s|
    ensures SetOf(s[..j + 1]) == SetOf(s[..j]) + {s[j]}
  {
  }

  lemma Inserted(s: seq<Ordered>, i: nat, v: Ordered)
    requires Ascending(s) && i <= |s| && (forall k :: 0 <= k < i ==> s[k] < v) && (i < |s| ==> v < s[i])
    ensures Ascending(s[..i] + [v] + s[i..]) && SetOf(s[..i] + [v] + s[i..]) == SetOf(s) + {v}
  {
  }

  /** Ascending sequences are equal exactly if they hold the same values. */
  lemma {:induction false} AscendingIsCanonical(a: seq<Ordered>, b: seq<Ordered>)
    requires Ascending(a) && Ascending(b)
    ensures a == b <==> SetOf(a) == SetOf(b)
    decreases |a|
  {
    hide Ascending, SetOf;
    if SetOf(a) == SetOf(b) {
      SomeValue(a);
      SomeValue(b);
      NoValues();
      if a != [] {
        LastOfAll(a);
        LastOfAll(b);
        var n, m := |a| - 1, |b| - 1;
        assert a[n] <= b[m] <= a[n];
        AscendingIsCanonical(a[..n], b[..m]);
        assert a == a[..n] + [a[n]] && b == b[..m] + [b[m]];
      }
    }
  }

  /** The last of ascending values is the greatest, and the others are ascending. */
  lemma LastOfAll(a: seq<Ordered>)
    requires Ascending(a) && a != []
    ensures var n := |a| - 1;
            && a[n] in SetOf(a) && (forall v :: v in SetOf(a) ==> v <= a[n])
            && Ascending(a[..n]) && SetOf(a[..n]) == SetOf(a) - {a[n]}
  {
    var n := |a| - 1;
    assert a == a[..n] + [a[n]];
    LastIsGreatest(a);
  }

  lemma NoValues()
    ensures SetOf([]) == {}
  {
  }

  lemma SomeValue(b: seq<Ordered>)
    ensures b != [] ==> SetOf(b) != {}
  {
    if b != [] { assert b[0] in SetOf(b); }
  }

  lemma LastIsGreatest(a: seq<Ordered>)
    requires Ascending(a)
    ensures forall v :: v in a ==> v <= a[|a| - 1]
  {
  }
}
