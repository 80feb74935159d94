/** Small facts about sequences used as ordered key lists. */
module Sequences {
  /** Removing from a sequence every occurrence of one element. */
  function Without<T(==, !new)>(order: seq<T>, x: T): (r: seq<T>)
    ensures forall y :: y in r <==> y in order && y != x
    ensures x !in order ==> r == order
  {
    if order == [] then []
    else if order[0] == x then Without(order[1..], x)
    else [order[0]] + Without(order[1..], x)
  }

  predicate Distinct<T(==)>(order: seq<T>) {
    forall i, j | 0 <= i < j < |order| :: order[i] != order[j]
  }

  /** Appending a new element keeps a list free of repetitions and adds just that element. */
  lemma AppendKeepsDistinct<T(!new)>(order: seq<T>, x: T)
    requires Distinct(order) && x !in order
    ensures Distinct(order + [x])
    ensures (set y | y in order + [x]) == (set y | y in order) + {x}
  {
    var grown := order + [x];
    forall i, j | 0 <= i < j < |grown|
      ensures grown[i] != grown[j]
    {
      if j == |order| {
        assert grown[i] == order[i];
      }
    }
  }

  /** Removing an element keeps a list free of repetitions. */
  lemma {:induction false} WithoutKeepsDistinct<T(!new)>(order: seq<T>, x: T)
    requires Distinct(order)
    ensures Distinct(Without(order, x))
  {
    if order != [] {
      var rest := order[1..];
      assert Distinct(rest) by {
        forall i, j | 0 <= i < j < |rest|
          ensures rest[i] != rest[j]
        {
          assert rest[i] == order[i + 1] && rest[j] == order[j + 1];
        }
      }
      WithoutKeepsDistinct(rest, x);
      if order[0] != x {
        assert order[0] !in rest by {
          forall i | 0 <= i < |rest|
            ensures rest[i] != order[0]
          {
            assert rest[i] == order[i + 1];
          }
        }
        var r := [order[0]] + Without(rest, x);
        forall i, j | 0 <= i < j < |r|
          ensures r[i] != r[j]
        {
          if i == 0 {
            assert r[j] in Without(rest, x);
          } else {
            assert r[i] == Without(rest, x)[i - 1] && r[j] == Without(rest, x)[j - 1];
          }
        }
      }
    }
  }

  /**
   * In a list without repetitions, removing the element at `p` closes the
   * gap: the elements before it keep their places and the ones after it
   * move up by one.
   */
  lemma {:induction false} WithoutAt<T(!new)>(order: seq<T>, p: nat)
    requires Distinct(order) && p < |order|
    ensures Without(order, order[p]) == order[..p] + order[p + 1..]
  {
    var rest := order[1..];
    assert order[0] !in rest by {
      forall i | 0 <= i < |rest|
        ensures rest[i] != order[0]
      {
        assert rest[i] == order[i + 1];
      }
    }
    if p > 0 {
      assert Distinct(rest) by {
        forall i, j | 0 <= i < j < |rest|
          ensures rest[i] != rest[j]
        {
          assert rest[i] == order[i + 1] && rest[j] == order[j + 1];
        }
      }
      assert rest[p - 1] == order[p];
      WithoutAt(rest, p - 1);
      assert [order[0]] + rest[..p - 1] == order[..p];
      assert rest[p..] == order[p + 1..];
    }
  }

  /** A list without repetitions has as many elements as the set of its elements. */
  lemma {:induction false} DistinctCardinality<T>(order: seq<T>)
    requires Distinct(order)
    ensures |set x | x in order| == |order|
  {
    if order != [] {
      var rest := order[1..];
      assert Distinct(rest) by {
        forall i, j | 0 <= i < j < |rest|
          ensures rest[i] != rest[j]
        {
          assert rest[i] == order[i + 1] && rest[j] == order[j + 1];
        }
      }
      DistinctCardinality(rest);
      assert order[0] !in rest by {
        forall i | 0 <= i < |rest|
          ensures rest[i] != order[0]
        {
          assert rest[i] == order[i + 1];
        }
      }
      assert (set x | x in order) == (set x | x in rest) + {order[0]};
    }
  }

  /** The elements of a sequence that `keep` accepts, in their order. */
  function Filtered<T(!new)>(s: seq<T>, keep: T -> bool): (r: seq<T>)
    ensures forall y :: y in r <==> y in s && keep(y)
  {
    if s == [] then []
    else if keep(s[0]) then [s[0]] + Filtered(s[1..], keep)
    else Filtered(s[1..], keep)
  }

  /** Filtering keeps a list free of repetitions. */
  lemma {:induction false} FilteredKeepsDistinct<T(!new)>(s: seq<T>, keep: T -> bool)
    requires Distinct(s)
    ensures Distinct(Filtered(s, keep))
  {
    if s != [] {
      var rest := s[1..];
      assert Distinct(rest) by {
        forall i, j | 0 <= i < j < |rest|
          ensures rest[i] != rest[j]
        {
          assert rest[i] == s[i + 1] && rest[j] == s[j + 1];
        }
      }
      FilteredKeepsDistinct(rest, keep);
      if keep(s[0]) {
        assert s[0] !in rest by {
          forall i | 0 <= i < |rest|
            ensures rest[i] != s[0]
          {
            assert rest[i] == s[i + 1];
          }
        }
        var r := [s[0]] + Filtered(rest, keep);
        forall i, j | 0 <= i < j < |r|
          ensures r[i] != r[j]
        {
          if i == 0 {
            assert r[j] in Filtered(rest, keep);
          } else {
            assert r[i] == Filtered(rest, keep)[i - 1] && r[j] == Filtered(rest, keep)[j - 1];
          }
        }
      }
    }
  }
}
