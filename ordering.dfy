/**
 * The two collection operations map composition takes from its data-frame
 * library: the distinct values of a column in order of first appearance, and the
 * buffers sorted by `buffer_km`, largest first.
 */
module Ordering {
  import opened MapTypes

  predicate Distinct<T(==)>(xs: seq<T>)
  {
    forall i, j :: 0 <= i < j < |xs| ==> xs[i] != xs[j]
  }

  /** The position of the first occurrence of x in xs. */
  function FirstIndex<T(==)>(xs: seq<T>, x: T): (k: nat)
    requires x in xs
    ensures k < |xs| && xs[k] == x
    ensures forall j :: 0 <= j < k ==> xs[j] != x
  {
    if xs[0] == x then 0 else 1 + FirstIndex(xs[1..], x)
  }

  /** A position holding x with no x before it is the first index of x. */
  lemma FirstIndexUnique<T>(xs: seq<T>, x: T, k: nat)
    requires k < |xs| && xs[k] == x
    requires forall j :: 0 <= j < k ==> xs[j] != x
    ensures FirstIndex(xs, x) == k
  {
    var f := FirstIndex(xs, x);
    assert !(f < k) && !(k < f);
  }

  /** The distinct values of xs, each where it first appears. */
  function FirstAppearance<T(==,!new)>(xs: seq<T>): (r: seq<T>)
    ensures Distinct(r)
    ensures forall x :: x in r <==> x in xs
    ensures forall i, j :: 0 <= i < j < |r| ==> FirstIndex(xs, r[i]) < FirstIndex(xs, r[j])
  {
    if xs == [] then []
    else
      var init, last := xs[..|xs| - 1], xs[|xs| - 1];
      var p := FirstAppearance(init);
      assert xs == init + [last];
      FirstIndexOfPrefix(init, last, p);
      if last in p then p else p + [last]
  }

  /** Appending an element does not move the first index of values already present. */
  lemma FirstIndexOfPrefix<T(!new)>(init: seq<T>, last: T, p: seq<T>)
    requires forall x :: x in p ==> x in init
    ensures forall x :: x in p ==> FirstIndex(init + [last], x) == FirstIndex(init, x)
    ensures last !in init ==> FirstIndex(init + [last], last) == |init|
  {
    var xs := init + [last];
    forall x | x in p
      ensures FirstIndex(xs, x) == FirstIndex(init, x)
    {
      FirstIndexUnique(xs, x, FirstIndex(init, x));
    }
    if last !in init {
      FirstIndexUnique(xs, last, |init|);
    }
  }

  /** No buffer follows a buffer with a smaller range. */
  predicate DescendingByKm(bs: seq<BufferRow>)
  {
    forall i, j :: 0 <= i < j < |bs| ==> bs[i].km >= bs[j].km
  }

  /** Inserts b before the first buffer whose range is not larger. */
  function InsertByKm(b: BufferRow, bs: seq<BufferRow>): (r: seq<BufferRow>)
    requires DescendingByKm(bs)
    ensures multiset(r) == multiset(bs) + multiset{b}
    ensures forall x :: x in r ==> x == b || x in bs
    ensures DescendingByKm(r)
  {
    if bs == [] || bs[0].km <= b.km then
      [b] + bs
    else
      var rest := InsertByKm(b, bs[1..]);
      assert bs == [bs[0]] + bs[1..];
      assert forall x :: x in rest ==> bs[0].km >= x.km;
      [bs[0]] + rest
  }

  /** The buffers ordered by `buffer_km`, largest first. */
  function SortByRange(bs: seq<BufferRow>): (r: seq<BufferRow>)
    ensures DescendingByKm(r)
    ensures multiset(r) == multiset(bs)
  {
    if bs == [] then []
    else
      assert bs == [bs[0]] + bs[1..];
      InsertByKm(bs[0], SortByRange(bs[1..]))
  }

  /** Sorting keeps exactly the buffers it was given. */
  lemma SortByRangeMembers(bs: seq<BufferRow>)
    ensures forall b :: b in SortByRange(bs) <==> b in bs
  {
    var r := SortByRange(bs);
    forall b ensures b in r <==> b in bs {
      assert b in r <==> b in multiset(r);
      assert b in bs <==> b in multiset(bs);
    }
  }
}
