/**
 * The persisted leaf trees the clustering tests build as their starting
 * point: a list of feature nodes sorted by the storage order, no buckets and
 * no child trees.
 */
module LeafTrees {
  import opened Wrappers
  import opened Graph

  /** A feature entry: its name and its content reference (bounds are not modelled). */
  datatype Node = Node(name: string, objectId: ObjectId)

  /** The persisted tree value `RevTreeImpl.create` builds; a bucket refers to its tree by id. */
  datatype RevTree = RevTree(
    size: int,
    childTreeCount: int,
    trees: Option<seq<Node>>,
    features: Option<seq<Node>>,
    buckets: Option<map<int, ObjectId>>)

  /**
   * The storage order (`NodeStorageOrder`) as a sort key: a node comes before
   * another when its key is smaller. The key itself is a parameter.
   */
  type Order = Node -> int

  ghost predicate SortedBy(order: Order, s: seq<Node>) {
    forall i, j :: 0 <= i < j < |s| ==> order(s[i]) <= order(s[j])
  }

  /** Places `x` after every node whose key is not larger, so equal keys keep their arrival order. */
  function InsertByOrder(order: Order, x: Node, s: seq<Node>): (r: seq<Node>)
    requires SortedBy(order, s)
    ensures SortedBy(order, r)
    ensures multiset(r) == multiset(s) + multiset{x}
  {
    if s == [] then [x]
    else if order(x) < order(s[0]) then
      [x] + s
    else
      var tail := InsertByOrder(order, x, s[1..]);
      assert s == [s[0]] + s[1..];
      assert forall y :: y in tail ==> order(s[0]) <= order(y) by {
        forall y | y in tail
          ensures order(s[0]) <= order(y)
        {
          assert y in multiset(tail);
          if y != x {
            assert y in multiset(s[1..]);
            var k :| 0 <= k < |s[1..]| && s[1..][k] == y;
            assert s[k + 1] == y;
          }
        }
      }
      var r := [s[0]] + tail;
      assert forall j :: 0 < j < |r| ==> r[j] in tail by {
        forall j | 0 < j < |r|
          ensures r[j] in tail
        {
          assert r[j] == tail[j - 1];
        }
      }
      r
  }

  /** `Collections.sort(list, order)`: the nodes sorted by the storage order. */
  function SortByOrder(order: Order, s: seq<Node>): (r: seq<Node>)
    ensures SortedBy(order, r)
    ensures multiset(r) == multiset(s)
    decreases |s|
  {
    if s == [] then []
    else
      var front := s[..|s| - 1];
      assert s == front + [s[|s| - 1]];
      InsertByOrder(order, s[|s| - 1], SortByOrder(order, front))
  }

  /**
   * `createLeafTree(featureNodes)`: a leaf tree holding exactly the given
   * nodes, sorted by the storage order, whose size is their number.
   */
  function CreateLeafTree(order: Order, featureNodes: seq<Node>): (t: RevTree)
    ensures t.features.Some?
    ensures SortedBy(order, t.features.value)
    ensures multiset(t.features.value) == multiset(featureNodes)
    ensures t.size == |t.features.value| == |featureNodes|
    ensures t.childTreeCount == 0 && t.trees.None? && t.buckets.None?
  {
    var sorted := SortByOrder(order, featureNodes);
    assert |sorted| == |multiset(sorted)| == |multiset(featureNodes)| == |featureNodes|;
    RevTree(|sorted|, 0, None, Some(sorted), None)
  }

  /**
   * `manuallyCreateLeafTree(nodeCount)`: fails unless `nodeCount` is within
   * the size limit for depth 0; otherwise the leaf tree of the feature nodes
   * numbered 0 up to `nodeCount`. The size limit and `featureNode` are
   * parameters.
   */
  method ManuallyCreateLeafTree(sizeLimit: int, featureNode: nat -> Node, order: Order, nodeCount: int)
    returns (r: Result<RevTree, Violation>)
    ensures r.Failure? <==> nodeCount > sizeLimit
    ensures r.Failure? ==> r.error == IllegalArgument
    ensures r.Success? ==>
      var expected := seq(if nodeCount < 0 then 0 else nodeCount, i requires 0 <= i => featureNode(i));
      && r.value.features.Some?
      && multiset(r.value.features.value) == multiset(expected)
      && SortedBy(order, r.value.features.value)
      && r.value.size == |expected|
      && r.value.childTreeCount == 0 && r.value.trees.None? && r.value.buckets.None?
  {
    var check := CheckArgument(nodeCount <= sizeLimit);
    if check.Fail? {
      return Failure(check.error);
    }
    var nodes: seq<Node> := [];
    var i := 0;
    while i < nodeCount
      invariant 0 <= i
      invariant i <= (if nodeCount < 0 then 0 else nodeCount)
      invariant |nodes| == i
      invariant forall k :: 0 <= k < i ==> nodes[k] == featureNode(k)
    {
      nodes := nodes + [featureNode(i)];
      i := i + 1;
    }
    assert nodes == seq(if nodeCount < 0 then 0 else nodeCount, i requires 0 <= i => featureNode(i));
    r := Success(CreateLeafTree(order, nodes));
  }
}
