/**
 * The records shared by the ranker, the list store, sharing and the tier board
 * (Rankle/Sources/Models/Models.swift). Identifiers are compared only for
 * equality, so a `nat` stands in for Foundation's UUID; every place where the
 * app calls `UUID()` takes the fresh identifier as a parameter instead.
 */
module Models {

  type Uuid = nat

  /**
   * An item. Equality compares the identifier and the title scalar by scalar;
   * Swift's synthesised equality compares titles up to Unicode canonical
   * equivalence, which is not modelled.
   */
  datatype RankleItem = RankleItem(id: Uuid, title: string)

  /** A named list whose item order is its ranking (index 0 ranks highest). */
  datatype RankleList = RankleList(id: Uuid, name: string, items: seq<RankleItem>)

  /** A pair presented for one preference judgment. */
  datatype Matchup = Matchup(left: RankleItem, right: RankleItem)

  datatype MatchupChoice = Left | Right

  /** No element occurs twice. */
  predicate Distinct<T(==)>(xs: seq<T>) {
    forall i, j :: 0 <= i < j < |xs| ==> xs[i] != xs[j]
  }

  /** Swift's `firstIndex(of:)` on an element known to be present. */
  function FirstIndex<T(==)>(xs: seq<T>, x: T): (i: nat)
    requires x in xs
    ensures i < |xs| && xs[i] == x
    ensures forall j :: 0 <= j < i ==> xs[j] != x
  {
    if xs[0] == x then 0 else 1 + FirstIndex(xs[1..], x)
  }

  /** In a sequence without repetitions, looking an element up finds the index it was read from. */
  lemma FirstIndexOfDistinct<T>(xs: seq<T>, i: nat)
    requires Distinct(xs) && i < |xs|
    ensures FirstIndex(xs, xs[i]) == i
  {
  }

  /** No element of `a` occurs in `b`. */
  predicate Disjoint<T(==)>(a: seq<T>, b: seq<T>) {
    forall x :: x in a ==> x !in b
  }

  lemma DistinctSplit<T>(a: seq<T>, b: seq<T>)
    requires Distinct(a + b)
    ensures Distinct(a) && Distinct(b) && Disjoint(a, b)
  {
    assert forall i :: 0 <= i < |a| ==> (a + b)[i] == a[i];
    assert forall j :: 0 <= j < |b| ==> (a + b)[|a| + j] == b[j];
  }

  lemma DistinctJoin<T>(a: seq<T>, b: seq<T>)
    requires Distinct(a) && Distinct(b) && Disjoint(a, b)
    ensures Distinct(a + b)
  {
    forall i, j | 0 <= i < j < |a + b|
      ensures (a + b)[i] != (a + b)[j]
    {
      if j < |a| {
      } else if i >= |a| {
        assert (a + b)[i] == b[i - |a|];
        assert (a + b)[j] == b[j - |a|];
      } else {
        assert (a + b)[i] == a[i] && a[i] in a;
        assert (a + b)[j] == b[j - |a|] && b[j - |a|] in b;
      }
    }
  }

  /** The sequence read back to front. */
  function Reverse<T>(xs: seq<T>): (r: seq<T>)
    ensures |r| == |xs|
  {
    if xs == [] then [] else Reverse(xs[1..]) + [xs[0]]
  }

  lemma {:induction false} ReverseSnoc<T>(xs: seq<T>, x: T)
    ensures Reverse(xs + [x]) == [x] + Reverse(xs)
  {
    if xs == [] {
      assert Reverse([x]) == Reverse([x][1..]) + [x];
    } else {
      assert (xs + [x])[1..] == xs[1..] + [x];
      ReverseSnoc(xs[1..], x);
    }
  }
}
