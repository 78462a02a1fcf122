/**
 * A mutable sorted set of keys, the role `java.util.TreeSet` plays for the DAG.
 * Keys are integers standing for positions in the storage order, so the set's
 * iteration order is the increasing order of its elements.
 */
module SortedSets {

  /** The iteration order of a sorted set: every element smaller than the next. */
  ghost predicate StrictlyIncreasing(s: seq<int>) {
    forall i, j :: 0 <= i < j < |s| ==> s[i] < s[j]
  }

  /** The members of a sequence, as a set. */
  function Members(s: seq<int>): set<int> {
    set y | y in s
  }

  /** The first element of a sorted sequence is below all the others. */
  lemma HeadIsLeast(s: seq<int>)
    requires StrictlyIncreasing(s) && s != []
    ensures forall y :: y in s[1..] ==> s[0] < y
  {
    forall y | y in s[1..]
      ensures s[0] < y
    {
      var k :| 0 <= k < |s[1..]| && s[1..][k] == y;
      assert s[k + 1] == y;
    }
  }

  /** Putting a smaller element in front keeps a sequence sorted. */
  lemma ConsIncreasing(h: int, t: seq<int>)
    requires StrictlyIncreasing(t)
    requires forall y :: y in t ==> h < y
    ensures StrictlyIncreasing([h] + t)
  {
    var r := [h] + t;
    forall i, j | 0 <= i < j < |r|
      ensures r[i] < r[j]
    {
      if i == 0 {
        assert r[j] == t[j - 1];
        assert t[j - 1] in t;
      } else {
        assert r[i] == t[i - 1] && r[j] == t[j - 1];
      }
    }
  }

  /** Adds `x` at its place in the order; a sequence that already holds it is returned as is. */
  function Insert(s: seq<int>, x: int): (r: seq<int>)
    requires StrictlyIncreasing(s)
    ensures StrictlyIncreasing(r)
    ensures forall y :: y in r <==> y in s || y == x
    ensures x in s ==> r == s
    ensures x !in s ==> |r| == |s| + 1
  {
    if s == [] then [x]
    else if x < s[0] then
      HeadIsLeast(s);
      assert s == [s[0]] + s[1..];
      ConsIncreasing(x, s);
      [x] + s
    else if x == s[0] then s
    else
      HeadIsLeast(s);
      assert s == [s[0]] + s[1..];
      var tail := Insert(s[1..], x);
      ConsIncreasing(s[0], tail);
      [s[0]] + tail
  }

  /** Removes `x`; a sequence that does not hold it is returned as is. */
  function Delete(s: seq<int>, x: int): (r: seq<int>)
    requires StrictlyIncreasing(s)
    ensures StrictlyIncreasing(r)
    ensures forall y :: y in r <==> y in s && y != x
    ensures x !in s ==> r == s
    ensures x in s ==> |r| == |s| - 1
  {
    if s == [] then []
    else
      HeadIsLeast(s);
      assert s == [s[0]] + s[1..];
      if s[0] == x then s[1..]
      else
        var tail := Delete(s[1..], x);
        ConsIncreasing(s[0], tail);
        [s[0]] + tail
  }

  /** The elements of a strictly increasing sequence are all distinct, so there are as many as its length. */
  lemma {:induction false} CardinalityOfIncreasing(s: seq<int>)
    requires StrictlyIncreasing(s)
    ensures |Members(s)| == |s|
  {
    if s != [] {
      CardinalityOfIncreasing(s[1..]);
      assert s[0] !in s[1..];
      assert Members(s) == {s[0]} + Members(s[1..]);
    }
  }

  /** A sorted set is determined by its elements: two increasing sequences with the same members are equal. */
  lemma {:induction false} SameMembersSameSequence(a: seq<int>, b: seq<int>)
    requires StrictlyIncreasing(a) && StrictlyIncreasing(b)
    requires forall y :: y in a <==> y in b
    ensures a == b
  {
    CardinalityOfIncreasing(a);
    CardinalityOfIncreasing(b);
    assert Members(a) == Members(b);
    if a != [] {
      assert a[0] in a && b[0] in b;
      assert a[0] == b[0];
      forall y
        ensures y in a[1..] <==> y in b[1..]
      {
        if y in a[1..] { assert y in a && y != a[0]; }
        if y in b[1..] { assert y in b && y != b[0]; }
      }
      SameMembersSameSequence(a[1..], b[1..]);
      assert a == [a[0]] + a[1..] && b == [b[0]] + b[1..];
    }
  }

  /**
   * The decision `AbstractSet.equals` makes: two sorted sets of the same size,
   * one containing all elements of the other, are the same sequence.
   */
  lemma ContainedSameSizeEqual(a: seq<int>, b: seq<int>)
    requires StrictlyIncreasing(a) && StrictlyIncreasing(b)
    requires |a| == |b|
    requires forall y :: y in b ==> y in a
    ensures a == b
  {
    CardinalityOfIncreasing(a);
    CardinalityOfIncreasing(b);
    var extra := Members(a) - Members(b);
    assert Members(a) == extra + Members(b);
    assert extra == {};
    forall y
      ensures y in a <==> y in b
    {
      assert y in a <==> y in Members(a);
      assert y in b <==> y in Members(b);
    }
    SameMembersSameSequence(a, b);
  }

  /** A `java.util.TreeSet` of keys; `elems` is its iteration order. */
  class TreeSet {
    var elems: seq<int>

    ghost predicate Valid()
      reads this
    {
      StrictlyIncreasing(elems)
    }

    /** `new TreeSet<>()` */
    constructor ()
      ensures Valid() && elems == []
    {
      elems := [];
    }

    /** `new TreeSet<>(other)`: a fresh set holding the same elements. */
    constructor Copy(other: TreeSet)
      requires other.Valid()
      ensures Valid() && elems == other.elems
    {
      elems := other.elems;
    }

    /** `add(x)`: true when `x` was not yet a member. */
    method Add(x: int) returns (added: bool)
      requires Valid()
      modifies this
      ensures Valid()
      ensures added <==> x !in old(elems)
      ensures forall y :: y in elems <==> y in old(elems) || y == x
      ensures !added ==> elems == old(elems)
    {
      added := x !in elems;
      elems := Insert(elems, x);
    }

    /** `remove(x)`: true when `x` was a member. */
    method Remove(x: int) returns (removed: bool)
      requires Valid()
      modifies this
      ensures Valid()
      ensures removed <==> x in old(elems)
      ensures forall y :: y in elems <==> y in old(elems) && y != x
      ensures !removed ==> elems == old(elems)
    {
      removed := x in elems;
      elems := Delete(elems, x);
    }

    /** `addAll(xs)`: adds the elements of the collection, taken in its iteration order, one at a time. */
    method AddAll(xs: seq<int>)
      requires Valid()
      modifies this
      ensures Valid()
      ensures forall y :: y in elems <==> y in old(elems) || y in xs
    {
      for i := 0 to |xs|
        invariant Valid()
        invariant forall y :: y in elems <==> y in old(elems) || y in xs[..i]
      {
        var _ := Add(xs[i]);
        assert xs[..i + 1] == xs[..i] + [xs[i]];
      }
      assert xs[..|xs|] == xs;
    }

    /** `AbstractSet.equals` between two sorted sets: same size and every element of `other` contained. */
    method Equals(other: TreeSet) returns (r: bool)
      requires Valid() && other.Valid()
      ensures r <==> elems == other.elems
    {
      if this == other {
        return true;
      }
      if |elems| != |other.elems| {
        return false;
      }
      var i := 0;
      while i < |other.elems|
        invariant 0 <= i <= |other.elems|
        invariant forall k :: 0 <= k < i ==> other.elems[k] in elems
      {
        if other.elems[i] !in elems {
          return false;
        }
        i := i + 1;
      }
      ContainedSameSizeEqual(elems, other.elems);
      r := true;
    }
  }
}
