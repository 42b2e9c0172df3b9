/**
 * Small facts about sequences used by the table model: removing one
 * element, mapping a function over a sequence, and how the two interact
 * with reordering.
 */
module Sequences {

  /** The sequence with the element at position `i` removed. */
  function Drop<T>(s: seq<T>, i: nat): (r: seq<T>)
    requires i < |s|
    ensures |r| == |s| - 1
    ensures forall k | 0 <= k < i :: r[k] == s[k]
    ensures forall k | i <= k < |r| :: r[k] == s[k + 1]
  {
    s[..i] + s[i + 1..]
  }

  /** Dropping removes the element at `i` exactly once and nothing else. */
  lemma DropRemovesOnce<T>(s: seq<T>, i: nat)
    requires i < |s|
    ensures multiset(Drop(s, i)) + multiset{s[i]} == multiset(s)
  {
    assert s == s[..i] + [s[i]] + s[i + 1..];
  }

  /** Applies `f` to every element, keeping the order. */
  function MapSeq<A, B>(s: seq<A>, f: A -> B): (r: seq<B>)
    ensures |r| == |s|
    ensures forall k | 0 <= k < |s| :: r[k] == f(s[k])
  {
    seq(|s|, k requires 0 <= k < |s| => f(s[k]))
  }

  /** Removing one element and then mapping removes one image. */
  lemma MapDrop<A, B>(s: seq<A>, k: nat, f: A -> B)
    requires k < |s|
    ensures multiset(MapSeq(s, f)) == multiset(MapSeq(Drop(s, k), f)) + multiset{f(s[k])}
  {
    var m := MapSeq(s, f);
    assert MapSeq(Drop(s, k), f) == Drop(m, k);
    DropRemovesOnce(m, k);
  }

  /** Mapping two orderings of the same elements gives two orderings of the same images. */
  lemma {:induction false} MapPermutation<A, B>(a: seq<A>, b: seq<A>, f: A -> B)
    requires multiset(a) == multiset(b)
    ensures multiset(MapSeq(a, f)) == multiset(MapSeq(b, f))
    decreases |a|
  {
    if |a| == 0 {
      assert |b| == |multiset(b)| == 0;
    } else {
      assert a[0] in multiset(b);
      var k :| 0 <= k < |b| && b[k] == a[0];
      DropRemovesOnce(a, 0);
      DropRemovesOnce(b, k);
      MapDrop(a, 0, f);
      MapDrop(b, k, f);
      assert multiset(Drop(a, 0)) == multiset(a) - multiset{a[0]};
      assert multiset(Drop(b, k)) == multiset(b) - multiset{a[0]};
      MapPermutation(Drop(a, 0), Drop(b, k), f);
    }
  }
}
