/**
 * The observable content of a DAG tree, as the clustering tests read it:
 * a node's children, then its pinned entries, then the content of each
 * bucket position in bucket order.
 */
module Flattening {
  import opened Wrappers
  import opened Graph

  /**
   * The session's DAGs by bucket position, as `getTree` returns them. A
   * position the session has not seen is an empty leaf, so it contributes
   * nothing.
   */
  type Store = map<TreeId, DagValue>

  /**
   * `flatten(root)`. A bucket position is looked up with the positions already
   * being expanded removed from the store, which keeps the traversal finite;
   * on the acyclic stores a session builds nothing is lost by it.
   */
  function Flatten(store: Store, d: DagValue): (r: seq<NodeId>)
    ensures Elems(d.children) + Elems(d.nonPromotable) <= r
    decreases |store|, 1
  {
    Elems(d.children) + Elems(d.nonPromotable) + FlattenBuckets(store, Elems(d.buckets))
  }

  /** The content of the given bucket positions, concatenated in order. */
  function FlattenBuckets(store: Store, ts: seq<TreeId>): (r: seq<NodeId>)
    ensures forall i :: 0 <= i < |ts| ==> multiset(BucketContent(store, ts[i])) <= multiset(r)
    decreases |store|, 0, |ts|
  {
    if ts == [] then []
    else
      var head := BucketContent(store, ts[0]);
      var rest := FlattenBuckets(store, ts[1..]);
      assert forall i :: 1 <= i < |ts| ==> ts[i] == ts[1..][i - 1];
      head + rest
  }

  /**
   * `flatten(strategy.getTree(t))`: a known position's own entries come
   * first, and an unseen position (an empty leaf) contributes nothing.
   */
  function BucketContent(store: Store, t: TreeId): (r: seq<NodeId>)
    ensures t !in store ==> r == []
    ensures t in store ==> Elems(store[t].children) + Elems(store[t].nonPromotable) <= r
    decreases |store|, 0, 0
  {
    if t in store then Flatten(store - {t}, store[t]) else []
  }

  /**
   * Consistent cached counts, the reading of `childCount` as the total
   * recursive number of entries: every position's count is its own children
   * and pinned entries plus the cached counts of its bucket positions (an
   * unseen position counts zero), and the same holds of those positions.
   */
  ghost predicate CountsCached(store: Store, d: DagValue)
    decreases |store|, 1
  {
    && d.childCount == |Elems(d.children)| + |Elems(d.nonPromotable)| + CachedBucketCounts(store, Elems(d.buckets))
    && BucketsCached(store, Elems(d.buckets))
  }

  ghost predicate BucketsCached(store: Store, ts: seq<TreeId>)
    decreases |store|, 0
  {
    forall i :: 0 <= i < |ts| && ts[i] in store ==> CountsCached(store - {ts[i]}, store[ts[i]])
  }

  function CachedBucketCounts(store: Store, ts: seq<TreeId>): int {
    if ts == [] then 0
    else (if ts[0] in store then store[ts[0]].childCount else 0) + CachedBucketCounts(store, ts[1..])
  }

  /** A position whose counts are cached consistently holds exactly as many entries as it flattens to. */
  lemma {:induction false} ChildCountIsFlattenedSize(store: Store, d: DagValue)
    requires CountsCached(store, d)
    ensures d.childCount == |Flatten(store, d)|
    decreases |store|, 1
  {
    BucketCountsAreFlattenedSizes(store, Elems(d.buckets));
  }

  lemma {:induction false} BucketCountsAreFlattenedSizes(store: Store, ts: seq<TreeId>)
    requires BucketsCached(store, ts)
    ensures CachedBucketCounts(store, ts) == |FlattenBuckets(store, ts)|
    decreases |store|, 0, |ts|
  {
    if ts != [] {
      if ts[0] in store {
        assert CountsCached(store - {ts[0]}, store[ts[0]]);
        ChildCountIsFlattenedSize(store - {ts[0]}, store[ts[0]]);
      }
      assert BucketsCached(store, ts[1..]) by {
        forall i | 0 <= i < |ts[1..]| && ts[1..][i] in store
          ensures CountsCached(store - {ts[1..][i]}, store[ts[1..][i]])
        {
          assert ts[1..][i] == ts[i + 1];
        }
      }
      BucketCountsAreFlattenedSizes(store, ts[1..]);
    }
  }

  /** An entry is flattened from a list of buckets exactly when one of those buckets' content holds it. */
  lemma {:induction false} FlattenBucketsMembers(store: Store, ts: seq<TreeId>, x: NodeId)
    ensures x in FlattenBuckets(store, ts) <==> exists i :: 0 <= i < |ts| && x in BucketContent(store, ts[i])
    decreases |ts|
  {
    if ts != [] {
      FlattenBucketsMembers(store, ts[1..], x);
      if x in FlattenBuckets(store, ts[1..]) {
        var i :| 0 <= i < |ts[1..]| && x in BucketContent(store, ts[1..][i]);
        assert ts[1..][i] == ts[i + 1];
      }
      if exists i :: 0 <= i < |ts| && x in BucketContent(store, ts[i]) {
        var i :| 0 <= i < |ts| && x in BucketContent(store, ts[i]);
        if i > 0 {
          assert ts[1..][i - 1] == ts[i];
        }
      }
    }
  }

  /** The entries of a flattened tree: its children, its pinned entries, and what its buckets hold. */
  lemma FlattenMembers(store: Store, d: DagValue, x: NodeId)
    ensures x in Flatten(store, d) <==>
      || x in Elems(d.children)
      || x in Elems(d.nonPromotable)
      || exists i :: 0 <= i < |Elems(d.buckets)| && x in BucketContent(store, Elems(d.buckets)[i])
  {
    FlattenBucketsMembers(store, Elems(d.buckets), x);
  }

  /**
   * A leaf flattens to its children followed by its pinned entries, so its
   * flattened size is the sum of the two set sizes.
   */
  lemma LeafFlattensToItsEntries(store: Store, d: DagValue)
    requires Elems(d.buckets) == []
    ensures Flatten(store, d) == Elems(d.children) + Elems(d.nonPromotable)
    ensures |Flatten(store, d)| == |Elems(d.children)| + |Elems(d.nonPromotable)|
  {
  }

  /**
   * The shape the tests expect of a root that is (or has collapsed back to) a
   * leaf with nothing pinned: its cached count, its children set and its
   * flattened content all have the same size.
   */
  lemma LeafRootCountsAgree(store: Store, d: DagValue)
    requires d.buckets.None? && d.nonPromotable.None?
    requires CountsCached(store, d)
    ensures d.childCount == |Elems(d.children)| == |Flatten(store, d)|
  {
    LeafFlattensToItsEntries(store, d);
  }

  /** `isEmpty()` holds exactly when the DAG flattens to nothing and has no bucket positions. */
  lemma EmptyIffNothingFlattened(store: Store, d: DagValue)
    ensures d.IsEmpty() <==> Flatten(store, d) == [] && Elems(d.buckets) == []
  {
    if Elems(d.buckets) == [] {
      LeafFlattensToItsEntries(store, d);
    }
  }

  /**
   * `switchToBuckets` takes the children out of the flattened content and
   * hands them to the caller: together they are what the DAG held before.
   */
  lemma SwitchToBucketsHandsOverChildren(store: Store, d: DagValue)
    ensures Flatten(store, d) == Elems(d.children) + Flatten(store, BucketForm(d))
    ensures multiset(Flatten(store, d)) == multiset(Elems(d.children)) + multiset(Flatten(store, BucketForm(d)))
  {
  }

  /** After `switchToLeaf` only the pinned entries remain in the flattened content. */
  lemma SwitchToLeafKeepsOnlyPinned(store: Store, d: DagValue)
    ensures Flatten(store, LeafForm(d)) == Elems(d.nonPromotable)
  {
    LeafFlattensToItsEntries(store, LeafForm(d));
  }

  /**
   * Pinning adds exactly the pinned ids to the flattened content and leaves
   * everything else in it.
   */
  lemma PinningAddsToFlattened(store: Store, d: DagValue, pinned: seq<NodeId>, ids: set<NodeId>)
    requires forall y :: y in pinned <==> y in Elems(d.nonPromotable) || y in ids
    ensures forall y :: y in Flatten(store, d.(nonPromotable := Some(pinned))) <==> y in Flatten(store, d) || y in ids
  {
    var e := d.(nonPromotable := Some(pinned));
    assert Flatten(store, e) == Elems(d.children) + pinned + FlattenBuckets(store, Elems(d.buckets));
  }
}
