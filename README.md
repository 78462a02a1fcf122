# geogig clustering engine: the staging DAG node

This project models the staging tree node of geogig's clustering engine,
`DAG`, together with the `flatten` traversal and the leaf-tree builders
that the canonical clustering tests use. A `DAG` is the mutable state of one
tree position while a new revision's index is built. It has:

- a lifecycle state that goes INITIALIZED, then MIRRORED, then CHANGED;
- either a sorted set of direct entries (`children`, leaf form) or a sorted
  set of bucket positions (`buckets`, bucket form);
- a sorted set of pinned (non-promotable) entries, kept in either form;
- a cached recursive entry count `childCount` and the id of the persisted
  tree it mirrors.

Modules, one per concern:

- `Wrappers` (`wrappers.dfy`): `Option`, `Result`, `Outcome`, and Guava's
  `checkState`/`checkArgument` as functions returning an error value
  instead of throwing.
- `SortedSets` (`sorted_set.dfy`): `java.util.TreeSet` as the class
  `TreeSet`. Its iteration order is a strictly increasing `seq<int>`, and
  it has the operations the DAG uses (`add`, `remove`, `addAll`, the copy
  constructor, `equals`). The lemmas prove that a sorted set is determined
  by its members.
- `Graph` (`dag.dfy`): the `Dag` class. Its set fields are nullable
  references to `TreeSet` objects, so the model captures aliasing: the set
  `switchToLeaf` returns is the DAG's own, and `clone` copies. `DagValue`
  is a snapshot of all fields, and `Dag.Value()` maps an object to it.
- `Flattening` (`flatten.dfy`): the test's `flatten` as a function over a
  map from bucket position to DAG snapshot. Lemmas cover its members, its
  size, its relation to `childCount`, and what `switchToBuckets`,
  `switchToLeaf` and pinning do to it.
- `LeafTrees` (`leaf_tree.dfy`): `createLeafTree` and
  `manuallyCreateLeafTree`. The storage order and the size limit are
  parameters.

Abstractions:

- `NodeId` and `TreeId` are integers: a key's position in its order. Sorted
  sets are therefore increasing integer sequences.
- `ObjectId` is an opaque datatype. The empty-tree id is a fixed sentinel
  value.
- The storage provider behind `strategy.getTree` is a map from `TreeId` to
  `DagValue`. A position missing from the map stands for the empty leaf that
  `getTree` would create, so it contributes nothing.
- `Flatten` removes a position from the map while expanding it. This only
  guarantees termination: on an acyclic store it gives the same result as
  the source's traversal. On a cyclic store the source would recurse until
  the stack overflows.
- The storage order `NodeStorageOrder`, the test helper `featureNode` and
  `normalizedSizeLimit(0)` are parameters of the members that use them.

Where the source's comments and its code differ, the model follows the
code: the field comment on `buckets` (DAG.java:43-46) says a DAG has either
buckets or features, but the package constructor stores a `children` set
and a `buckets` set if both are given. The "never both" invariant
(`DagValue.SingleForm`) holds after either public constructor and either
switch, and the state and pinning methods keep it; only the package
constructor given both sets (`Restore`) breaks it.

## Model

| member | source | states |
|---|---|---|
| `Graph.Dag.constructor` | src/core/src/main/java/org/locationtech/geogig/api/graph/DAG.java:72-76 | the new DAG has the empty-tree id, state INITIALIZED, count 0, a fresh empty children set, and no buckets or pinned set. It is in leaf form, so `SingleForm` holds |
| `Graph.Dag.OfTree` | src/core/src/main/java/org/locationtech/geogig/api/graph/DAG.java:89-93 | same as the no-argument constructor, but keeps the given tree id, and likewise satisfies `SingleForm` |
| `Graph.Dag.Restore` | src/core/src/main/java/org/locationtech/geogig/api/graph/DAG.java:78-87 | id, count and state are stored as given. The pinned and buckets references are kept as given. A given children set is kept. With buckets but no children, children stays null. With neither, children becomes a fresh empty set |
| `Graph.Dag.SetMirrored` | src/core/src/main/java/org/locationtech/geogig/api/graph/DAG.java:95-98 | succeeds exactly from INITIALIZED and ends in MIRRORED. Otherwise it fails with IllegalState and the state is unchanged. The state never moves backwards. A DAG in single form stays in it |
| `Graph.Dag.SetChanged` | src/core/src/main/java/org/locationtech/geogig/api/graph/DAG.java:100-103 | succeeds exactly from MIRRORED or CHANGED and ends in CHANGED, so a second call is a no-op. From INITIALIZED it fails and changes nothing. A DAG in single form stays in it |
| `Graph.Dag.SwitchToBuckets` | src/core/src/main/java/org/locationtech/geogig/api/graph/DAG.java:128-140 | returns the previous children reference and sets children to null. An existing buckets set is kept, a missing one becomes a fresh empty set. The new snapshot is `BucketForm` of the old one, so nothing else changes |
| `Graph.Dag.SwitchToLeaf` | src/core/src/main/java/org/locationtech/geogig/api/graph/DAG.java:142-146 | buckets becomes null, and children becomes a fresh empty set, which is the one returned. The new snapshot is `LeafForm` of the old one |
| `Graph.SwitchesEstablishSingleForm` | src/core/src/main/java/org/locationtech/geogig/api/graph/DAG.java:43-46 | after either switch at most one of children and buckets is present, the chosen form's set is present, and repeating a switch changes nothing |
| `Graph.Dag.AddNonPromotableAll` | src/core/src/main/java/org/locationtech/geogig/api/graph/DAG.java:148-153 | the pinned set is created only if it was missing. Its members become the old members (none if it was null) plus the given ids. No other field changes. A DAG in single form stays in it |
| `Graph.Dag.AddNonPromotable` | src/core/src/main/java/org/locationtech/geogig/api/graph/DAG.java:155-163 | the pinned members become the old ones plus `id`, and no other field changes. Re-pinning an id that is already pinned leaves the whole DAG unchanged. A DAG in single form stays in it |
| `Graph.Dag.IsEmpty` | src/core/src/main/java/org/locationtech/geogig/api/graph/DAG.java:182-185 | true exactly when children, buckets and pinned are each null or empty, read from the object's fields |
| `Graph.Dag.Clone` | src/core/src/main/java/org/locationtech/geogig/api/graph/DAG.java:60-70 | a fresh DAG with the same snapshot (so `equals` holds), and every present set in it is a fresh copy |
| `Graph.Dag.Equals` | src/core/src/main/java/org/locationtech/geogig/api/graph/DAG.java:165-174 | false for null. Otherwise true exactly when the two snapshots are equal: same id, count and state, and the same members in each set |
| `Graph.SameSet` | src/core/src/main/java/org/locationtech/geogig/api/graph/DAG.java:171-173 | `Objects.equal` on two nullable sorted sets: true exactly when both are null or both hold the same members |
| `Graph.CloneIsIndependent` | src/core/src/main/java/org/locationtech/geogig/api/graph/DAG.java:60-70 | a clone compares equal to its original. Pinning an id in the clone leaves the original unchanged, and afterwards the two are equal only if the original had that id pinned already |
| `SortedSets.TreeSet.constructor` | src/core/src/main/java/org/locationtech/geogig/api/graph/DAG.java:73 | `new TreeSet<>()`: a sorted set with no members |
| `Wrappers.CheckState` | src/core/src/main/java/org/locationtech/geogig/api/graph/DAG.java:96 | `Preconditions.checkState`: passes exactly when the condition holds, and otherwise fails with IllegalState |
| `Wrappers.CheckArgument` | src/core/src/test/java/org/locationtech/geogig/api/graph/CanonicalClusteringStrategyTest.java:490 | `Preconditions.checkArgument`: passes exactly when the condition holds, and otherwise fails with IllegalArgument |
| `SortedSets.TreeSet.Copy` | src/core/src/main/java/org/locationtech/geogig/api/graph/DAG.java:63-65 | `new TreeSet<>(other)`: a fresh set whose iteration order is the other's |
| `SortedSets.TreeSet.Add` | src/core/src/main/java/org/locationtech/geogig/api/graph/DAG.java:159-161 | `add(x)` reports true exactly when `x` was not a member. Afterwards the members are the old ones plus `x`, and a set that already held `x` is unchanged |
| `SortedSets.TreeSet.Remove` | src/core/src/main/java/org/locationtech/geogig/api/graph/DAG.java:160 | `remove(x)` reports true exactly when `x` was a member. Afterwards the members are the old ones minus `x`, and a set that did not hold `x` is unchanged |
| `SortedSets.Insert` | src/core/src/main/java/org/locationtech/geogig/api/graph/DAG.java:159 | `TreeSet.add`: the result is sorted and has the old members plus `x`. It is one longer exactly when `x` was new, and otherwise identical |
| `SortedSets.Delete` | src/core/src/main/java/org/locationtech/geogig/api/graph/DAG.java:160 | `TreeSet.remove`: the result is sorted and has the old members minus `x`. It is one shorter exactly when `x` was present |
| `SortedSets.TreeSet.AddAll` | src/core/src/main/java/org/locationtech/geogig/api/graph/DAG.java:152 | afterwards the members are the old ones plus every element of the collection |
| `SortedSets.SameMembersSameSequence` | src/core/src/main/java/org/locationtech/geogig/api/graph/DAG.java:159-162 | two sorted sets with the same members have the same iteration order. This is why removing an id and adding it back leaves the set as it was |
| `SortedSets.ContainedSameSizeEqual` | src/core/src/main/java/org/locationtech/geogig/api/graph/DAG.java:171-173 | two sorted sets of equal size, one containing the other's elements, are equal. This is the set comparison `equals` relies on |
| `SortedSets.TreeSet.Equals` | src/core/src/main/java/org/locationtech/geogig/api/graph/DAG.java:171-173 | compares sizes, then checks containment element by element. True exactly when the two sets have the same iteration order |
| `Flattening.Flatten` | src/core/src/test/java/org/locationtech/geogig/api/graph/CanonicalClusteringStrategyTest.java:516-535 | `flatten(root)`: the root's children followed by its pinned entries come first in the result, then the content of its buckets |
| `Flattening.FlattenBuckets` | src/core/src/test/java/org/locationtech/geogig/api/graph/CanonicalClusteringStrategyTest.java:528-533 | the loop over the buckets: each bucket's flattened content is contained in the result |
| `Flattening.BucketContent` | src/core/src/test/java/org/locationtech/geogig/api/graph/CanonicalClusteringStrategyTest.java:530-531 | `flatten(strategy.getTree(t))`: a position the store does not hold contributes nothing, and a known position's own children and pinned entries come first |
| `Flattening.FlattenMembers` | src/core/src/test/java/org/locationtech/geogig/api/graph/CanonicalClusteringStrategyTest.java:516-535 | an id is in `flatten(d)` exactly when it is a child, a pinned entry, or in the flattened content of one of d's bucket positions. A null set contributes nothing |
| `Flattening.FlattenBucketsMembers` | src/core/src/test/java/org/locationtech/geogig/api/graph/CanonicalClusteringStrategyTest.java:528-533 | the loop over the buckets yields an id exactly when some bucket's flattened content holds it |
| `Flattening.LeafFlattensToItsEntries` | src/core/src/test/java/org/locationtech/geogig/api/graph/CanonicalClusteringStrategyTest.java:519-527 | with no buckets, `flatten(d)` is the children followed by the pinned entries, and its size is the sum of the two set sizes |
| `Flattening.ChildCountIsFlattenedSize` | src/core/src/main/java/org/locationtech/geogig/api/graph/DAG.java:54-58 | if every position's `childCount` equals its own entries plus its buckets' cached counts, then the root's `childCount` equals the size of `flatten(root)` |
| `Flattening.BucketCountsAreFlattenedSizes` | src/core/src/test/java/org/locationtech/geogig/api/graph/CanonicalClusteringStrategyTest.java:528-533 | with counts cached consistently, the sum of the buckets' cached counts equals the number of ids flattened from them |
| `Flattening.LeafRootCountsAgree` | src/core/src/test/java/org/locationtech/geogig/api/graph/CanonicalClusteringStrategyTest.java:350-362 | a root with null buckets, null pinned set and consistent counts has `childCount`, `children().size()` and `flatten(root).size()` all equal. These are the quantities the shrink tests compare |
| `Flattening.EmptyIffNothingFlattened` | src/core/src/main/java/org/locationtech/geogig/api/graph/DAG.java:182-185 | `isEmpty()` holds exactly when the DAG flattens to nothing and has no bucket positions |
| `Flattening.SwitchToBucketsHandsOverChildren` | src/core/src/main/java/org/locationtech/geogig/api/graph/DAG.java:133-140 | the flattened content before the switch is the returned children followed by the flattened content after it, in that order. So as a multiset nothing is lost or added |
| `Flattening.SwitchToLeafKeepsOnlyPinned` | src/core/src/main/java/org/locationtech/geogig/api/graph/DAG.java:142-146 | after `switchToLeaf`, flattening yields exactly the pinned entries |
| `Flattening.PinningAddsToFlattened` | src/core/src/main/java/org/locationtech/geogig/api/graph/DAG.java:148-163 | pinning ids adds exactly those ids to the flattened content and removes nothing |
| `LeafTrees.InsertByOrder` | src/core/src/test/java/org/locationtech/geogig/api/graph/CanonicalClusteringStrategyTest.java:503 | inserting a node into a list sorted by the storage order keeps it sorted and adds exactly that node |
| `LeafTrees.SortByOrder` | src/core/src/test/java/org/locationtech/geogig/api/graph/CanonicalClusteringStrategyTest.java:502-503 | `Collections.sort` by the storage order: the result is sorted and is a permutation of the input |
| `LeafTrees.CreateLeafTree` | src/core/src/test/java/org/locationtech/geogig/api/graph/CanonicalClusteringStrategyTest.java:499-509 | the features are the input nodes as a permutation, sorted by the storage order. Size equals the number of input nodes. There are no buckets, no tree list and zero child trees |
| `LeafTrees.ManuallyCreateLeafTree` | src/core/src/test/java/org/locationtech/geogig/api/graph/CanonicalClusteringStrategyTest.java:489-497 | fails with IllegalArgument exactly when `nodeCount` exceeds the depth-0 size limit. Otherwise it returns the leaf tree of feature nodes 0 to nodeCount-1, sorted, with size nodeCount (0 when nodeCount is negative) |

## Left out

- `ClusteringStrategy` (`put`, `remove`, `depth`, `getNode`, `computeId`, promotion and demotion) and `DAGStorageProvider` are not part of this model. They are separate classes that this model does not cover. The test assertions about depth, the `normalizedSizeLimit` split and collapse thresholds, and replacement of a node's value on re-put are therefore not modelled. Of those tests' assertions the model keeps only the count equalities: `LeafRootCountsAgree` and `ChildCountIsFlattenedSize` state them for any root in the asserted shape whose counts satisfy `CountsCached`.
- `manuallyCreateBucketsTree` and the test methods' `put`/`remove` loops are not modelled. They rely on the bucket index of `NodeStorageOrder`, on `ObjectId` content hashing, on `store.put` and on `SpatialOps.boundsOf`, none of which is modelled.
- The getters `getState`, `children`, `unpromotable` and `buckets` are the fields themselves (Dafny fields are readable). `toString` is string rendering and is not modelled.
- `Graph.Dag.AddNonPromotable`: modelled sequentially. The `synchronized` modifier (concurrent pinning) is not captured.
- `Graph.Dag.AddNonPromotable`: ids that compare equal are indistinguishable in the model. Removing and re-adding an id replaces the stored `NodeId` instance in the source, and the model cannot observe that.
- `Graph.Dag.Restore`: requires the given sets to be distinct objects. The source does not check this; aliased sets are not modelled.
- `Graph.Dag.AddNonPromotableAll`: the argument `Set` is given as its iteration order (a sequence).
- `LeafTrees.SortByOrder`: the storage order is a sort key, and the relative order of nodes with equal keys (stability) is not stated.
- `RevTree` is a plain value. Bucket bounds and the persisted format are not modelled, and neither are the feature nodes' metadata id, type and bounds.
- `childCount` is an unbounded integer. Java's `long` overflow is not modelled.

