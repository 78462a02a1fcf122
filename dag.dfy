/**
 * The staging tree node of the clustering engine: the mutable state of one
 * tree position while a new revision's index is being built.
 */
module Graph {
  import opened Wrappers
  import opened SortedSets

  /** A persisted tree's content hash; the hash function is not modelled. */
  datatype ObjectId = ObjectId(hash: nat)

  /** `RevTree.EMPTY_TREE_ID`: the id every new, empty staging tree starts with. */
  const EmptyTreeId: ObjectId := ObjectId(0)

  /** An entry (feature or subtree) identity, given by its position in the storage order. */
  type NodeId = int

  /** A bucket position, given by its position in the bucket order. */
  type TreeId = int

  datatype State = Initialized | Mirrored | Changed

  /** Lifecycle progress: transitions never lower it. */
  function Rank(s: State): nat {
    match s
    case Initialized => 0
    case Mirrored => 1
    case Changed => 2
  }

  /** The members of a nullable sorted set; an absent set has none. */
  function Elems<T>(o: Option<seq<T>>): seq<T> {
    match o
    case None => []
    case Some(s) => s
  }

  /**
   * A snapshot of one DAG: every field, with each nullable set given as
   * `None` or as `Some` of its iteration order.
   */
  datatype DagValue = DagValue(
    treeId: ObjectId,
    state: State,
    childCount: int,
    children: Option<seq<NodeId>>,
    nonPromotable: Option<seq<NodeId>>,
    buckets: Option<seq<TreeId>>)
  {
    /** `isEmpty()`: no children, no buckets and no pinned entries. */
    predicate IsEmpty() {
      Elems(children) == [] && Elems(buckets) == [] && Elems(nonPromotable) == []
    }

    /** The form invariant: never both a children set and a buckets set. */
    predicate SingleForm() {
      children.None? || buckets.None?
    }
  }

  /** What `switchToBuckets` leaves: no children, the existing (or a new empty) buckets set. */
  function BucketForm(v: DagValue): DagValue {
    v.(children := None, buckets := Some(Elems(v.buckets)))
  }

  /** What `switchToLeaf` leaves: an empty children set and no buckets. */
  function LeafForm(v: DagValue): DagValue {
    v.(children := Some([]), buckets := None)
  }

  lemma SwitchesEstablishSingleForm(v: DagValue)
    ensures BucketForm(v).SingleForm() && LeafForm(v).SingleForm()
    ensures BucketForm(v).buckets.Some? && LeafForm(v).children.Some?
    ensures BucketForm(BucketForm(v)) == BucketForm(v) && LeafForm(LeafForm(v)) == LeafForm(v)
  {
  }

  /** The mutable DAG. Each set field is a reference that may be null. */
  class Dag {
    var nonPromotable: TreeSet?
    var children: TreeSet?
    var buckets: TreeSet?
    const treeId: ObjectId
    var state: State
    var childCount: int

    /** Every present set is sorted, and no two fields share one set object. */
    ghost predicate Valid()
      reads this, nonPromotable, children, buckets
    {
      && (nonPromotable != null ==> nonPromotable.Valid())
      && (children != null ==> children.Valid())
      && (buckets != null ==> buckets.Valid())
      && (children != null ==> children != nonPromotable && children != buckets)
      && (buckets != null ==> buckets != nonPromotable)
    }

    function Value(): DagValue
      reads this, nonPromotable, children, buckets
    {
      DagValue(treeId, state, childCount, Snapshot(children), Snapshot(nonPromotable), Snapshot(buckets))
    }

    /** `DAG()`: a new placeholder for the empty tree. */
    constructor ()
      ensures Valid() && fresh(children) && Value().SingleForm()
      ensures Value() == DagValue(EmptyTreeId, Initialized, 0, Some([]), None, None)
    {
      treeId := EmptyTreeId;
      state := Initialized;
      childCount := 0;
      children := new TreeSet();
      nonPromotable := null;
      buckets := null;
    }

    /** `DAG(ObjectId)`: a new placeholder mirroring the given persisted tree. */
    constructor OfTree(originalTreeId: ObjectId)
      ensures Valid() && fresh(children) && Value().SingleForm()
      ensures Value() == DagValue(originalTreeId, Initialized, 0, Some([]), None, None)
    {
      treeId := originalTreeId;
      state := Initialized;
      childCount := 0;
      children := new TreeSet();
      nonPromotable := null;
      buckets := null;
    }

    /**
     * The package-private constructor the storage providers use: stores the
     * given references, except that a DAG given neither children nor buckets
     * gets a new empty children set.
     */
    constructor Restore(oid: ObjectId, childCount: int, state: State,
                        children: TreeSet?, unpromotable: TreeSet?, buckets: TreeSet?)
      requires children != null ==> children.Valid()
      requires unpromotable != null ==> unpromotable.Valid()
      requires buckets != null ==> buckets.Valid()
      requires children != null ==> children != unpromotable && children != buckets
      requires buckets != null ==> buckets != unpromotable
      ensures Valid()
      ensures this.treeId == oid && this.childCount == childCount && this.state == state
      ensures this.nonPromotable == unpromotable && this.buckets == buckets
      ensures children != null ==> this.children == children
      ensures children == null && buckets != null ==> this.children == null
      ensures children == null && buckets == null ==> fresh(this.children) && this.children.elems == []
    {
      treeId := oid;
      this.childCount := childCount;
      this.state := state;
      if children == null {
        if buckets == null {
          this.children := new TreeSet();
        } else {
          this.children := null;
        }
      } else {
        this.children := children;
      }
      nonPromotable := unpromotable;
      this.buckets := buckets;
    }

    /** `setMirrored()`: INITIALIZED becomes MIRRORED; in any other state it fails and changes nothing. */
    method SetMirrored() returns (r: Outcome<Violation>)
      modifies this`state
      ensures r == CheckState(old(state) == Initialized)
      ensures r.Pass? ==> state == Mirrored
      ensures r.Fail? ==> state == old(state)
      ensures Rank(old(state)) <= Rank(state)
      ensures old(Value()).SingleForm() ==> Value().SingleForm()
    {
      r := CheckState(state == Initialized);
      if r.Pass? {
        state := Mirrored;
      }
    }

    /** `setChanged()`: MIRRORED or CHANGED becomes CHANGED; from INITIALIZED it fails and changes nothing. */
    method SetChanged() returns (r: Outcome<Violation>)
      modifies this`state
      ensures r == CheckState(old(state) == Mirrored || old(state) == Changed)
      ensures r.Pass? ==> state == Changed
      ensures r.Fail? ==> state == old(state) == Initialized
      ensures Rank(old(state)) <= Rank(state)
      ensures old(Value()).SingleForm() ==> Value().SingleForm()
    {
      r := CheckState(state == Mirrored || state == Changed);
      if r.Pass? {
        state := Changed;
      }
    }

    /** `switchToBuckets()`: hands back the children set and keeps (or creates) the buckets set. */
    method SwitchToBuckets() returns (c: TreeSet?)
      requires Valid()
      modifies this`children, this`buckets
      ensures Valid()
      ensures c == old(children) && children == null
      ensures old(buckets) != null ==> buckets == old(buckets)
      ensures old(buckets) == null ==> fresh(buckets)
      ensures Value() == BucketForm(old(Value()))
    {
      c := children;
      children := null;
      if buckets == null {
        buckets := new TreeSet();
      }
    }

    /** `switchToLeaf()`: drops the buckets and returns the new, empty children set, which the DAG now holds. */
    method SwitchToLeaf() returns (c: TreeSet)
      requires Valid()
      modifies this`children, this`buckets
      ensures Valid()
      ensures fresh(c) && c == children && buckets == null
      ensures Value() == LeafForm(old(Value()))
    {
      buckets := null;
      children := new TreeSet();
      c := children;
    }

    /** `addNonPromotable(Set)`: pins every given id, creating the pinned set first if there is none. */
    method AddNonPromotableAll(nodeIds: seq<NodeId>)
      requires Valid()
      modifies this`nonPromotable, nonPromotable
      ensures Valid()
      ensures old(nonPromotable) != null ==> nonPromotable == old(nonPromotable)
      ensures old(nonPromotable) == null ==> fresh(nonPromotable)
      ensures nonPromotable != null
      ensures forall y :: y in nonPromotable.elems <==> y in Elems(old(Value()).nonPromotable) || y in nodeIds
      ensures Value() == old(Value()).(nonPromotable := Some(nonPromotable.elems))
      ensures old(Value()).SingleForm() ==> Value().SingleForm()
    {
      if nonPromotable == null {
        nonPromotable := new TreeSet();
      }
      nonPromotable.AddAll(nodeIds);
    }

    /**
     * `addNonPromotable(NodeId)`: pins one id. An id already pinned is taken
     * out and put back, which leaves the sorted set as it was.
     */
    method AddNonPromotable(id: NodeId)
      requires Valid()
      modifies this`nonPromotable, nonPromotable
      ensures Valid()
      ensures old(nonPromotable) != null ==> nonPromotable == old(nonPromotable)
      ensures old(nonPromotable) == null ==> fresh(nonPromotable)
      ensures nonPromotable != null
      ensures forall y :: y in nonPromotable.elems <==> y in Elems(old(Value()).nonPromotable) || y == id
      ensures Value() == old(Value()).(nonPromotable := Some(nonPromotable.elems))
      ensures old(Value()).SingleForm() ==> Value().SingleForm()
      ensures id in Elems(old(Value()).nonPromotable) ==> Value() == old(Value())
    {
      if nonPromotable == null {
        nonPromotable := new TreeSet();
      }
      ghost var before := nonPromotable.elems;
      var added := nonPromotable.Add(id);
      if !added {
        var _ := nonPromotable.Remove(id);
        added := nonPromotable.Add(id);
        SameMembersSameSequence(nonPromotable.elems, before);
      }
    }

    /** `isEmpty()` */
    function IsEmpty(): (r: bool)
      reads this, nonPromotable, children, buckets
      ensures r <==> Value().IsEmpty()
    {
      (children == null || |children.elems| == 0)
      && (buckets == null || |buckets.elems| == 0)
      && (nonPromotable == null || |nonPromotable.elems| == 0)
    }

    /** `clone()`: a new DAG with the same field values and its own copies of the sets. */
    method Clone() returns (c: Dag)
      requires Valid()
      ensures fresh(c) && c.Valid() && c.Value() == Value()
      ensures c.children != null ==> fresh(c.children)
      ensures c.nonPromotable != null ==> fresh(c.nonPromotable)
      ensures c.buckets != null ==> fresh(c.buckets)
    {
      c := new Dag.OfTree(treeId);
      c.nonPromotable := null;
      if nonPromotable != null {
        c.nonPromotable := new TreeSet.Copy(nonPromotable);
      }
      c.children := null;
      if children != null {
        c.children := new TreeSet.Copy(children);
      }
      c.buckets := null;
      if buckets != null {
        c.buckets := new TreeSet.Copy(buckets);
      }
      c.state := state;
      c.childCount := childCount;
    }

    /** `equals(Object)`: false for anything but a DAG, otherwise field by field, sets compared as sets. */
    method Equals(o: Dag?) returns (r: bool)
      requires Valid() && (o != null ==> o.Valid())
      ensures r <==> o != null && Value() == o.Value()
    {
      if o == null {
        return false;
      }
      var sameChildren := SameSet(children, o.children);
      var samePinned := SameSet(nonPromotable, o.nonPromotable);
      var sameBuckets := SameSet(buckets, o.buckets);
      r := treeId == o.treeId && childCount == o.childCount && state == o.state
        && sameChildren && samePinned && sameBuckets;
    }
  }

  /** The iteration order of a nullable set, as the snapshot holds it. */
  function Snapshot(s: TreeSet?): Option<seq<int>>
    reads s
  {
    if s == null then None else Some(s.elems)
  }

  /** Guava's `Objects.equal` on two nullable sorted sets. */
  method SameSet(a: TreeSet?, b: TreeSet?) returns (r: bool)
    requires a != null ==> a.Valid()
    requires b != null ==> b.Valid()
    ensures r <==> Snapshot(a) == Snapshot(b)
  {
    if a == b {
      r := true;
    } else if a == null || b == null {
      r := false;
    } else {
      r := a.Equals(b);
    }
  }

  /**
   * A clone compares equal to its original, and pinning an id in the clone
   * leaves the original as it was.
   */
  method CloneIsIndependent(d: Dag, id: NodeId) returns (c: Dag, equalAtFirst: bool, equalAfter: bool)
    requires d.Valid()
    ensures fresh(c) && equalAtFirst
    ensures d.Value() == old(d.Value())
    ensures id in Elems(c.Value().nonPromotable)
    ensures equalAfter <==> id in Elems(d.Value().nonPromotable)
  {
    c := d.Clone();
    equalAtFirst := d.Equals(c);
    c.AddNonPromotable(id);
    equalAfter := d.Equals(c);
  }
}
