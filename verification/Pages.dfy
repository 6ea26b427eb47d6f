/**
 The pages of the B+tree (src/eckit/container/BTree.h) as values.

 A page is either a leaf (`node_ == 0`) or a node. Entries past `count_` carry no
 information, so a page holds exactly its `count_` entries. That an entry written into a page
 stays inside the fixed-size array is a precondition of the write, in `Put` for leaves and in
 `AddToParent` for nodes.
 */
module Pages {
  import opened Common

  type Key = Ordered

  /** Values are copied and never inspected. */
  type Value(==, !new, 0)

  datatype LeafEntry = LeafEntry(key: Key, value: Value)
  datatype NodeEntry = NodeEntry(key: Key, page: nat)

  /** In a node `left` is the first child; in a leaf `left` and `right` are the sibling links, with 0 for "none". */
  datatype Page =
    | LeafPage(id: nat, left: nat, right: nat, lentries: seq<LeafEntry>)
    | NodePage(id: nat, left: nat, right: nat, nentries: seq<NodeEntry>)
  {
    function Count(): nat { if LeafPage? then |lentries| else |nentries| }
  }

  /** What `zero(p); p.id_ = id` leaves behind. */
  function BlankPage(id: nat): Page { LeafPage(id, 0, 0, []) }

  ghost predicate SortedLeaf(es: seq<LeafEntry>) {
    forall i, j :: 0 <= i < j < |es| ==> es[i].key < es[j].key
  }

  ghost predicate SortedNode(es: seq<NodeEntry>) {
    forall i, j :: 0 <= i < j < |es| ==> es[i].key < es[j].key
  }

  function LeafKeys(es: seq<LeafEntry>): (r: seq<Key>)
    ensures |r| == |es| && forall i {:trigger r[i]} {:trigger es[i]} :: 0 <= i < |es| ==> r[i] == es[i].key
  {
    seq(|es|, i requires 0 <= i < |es| => es[i].key)
  }

  function NodeKeys(es: seq<NodeEntry>): (r: seq<Key>)
    ensures |r| == |es| && forall i {:trigger r[i]} {:trigger es[i]} :: 0 <= i < |es| ==> r[i] == es[i].key
  {
    seq(|es|, i requires 0 <= i < |es| => es[i].key)
  }

  /** The element-by-element copies of the split code, `n.entries_[n.count_++] = p.entries_[i]`. */
  method CopyEntries<E>(src: seq<E>, from: nat, end: nat) returns (dst: seq<E>)
    requires from <= end <= |src|
    ensures dst == src[from..end]
  {
    dst := [];
    for i := from to end
      invariant dst == src[from..i]
    {
      dst := dst + [src[i]];
    }
  }

  /** `memmove` of the tail one slot up, then the new entry stored in the gap. */
  function InsertAt<E>(es: seq<E>, at: nat, e: E): (r: seq<E>)
    requires at <= |es|
    ensures |r| == |es| + 1
    ensures forall i :: 0 <= i < |r| ==> r[i] == if i < at then es[i] else if i == at then e else es[i - 1]
  {
    es[..at] + [e] + es[at..]
  }
}
