/** pandas' rank(method='average') within one group of values, kept exactly
    as a doubled integer: a rank of 2.5 is held as 5. */
module Ranking {

  /** How many values of v are greater than x. */
  function CountGt(v: seq<int>, x: int): nat {
    if v == [] then 0 else CountGt(v[..|v| - 1], x) + (if v[|v| - 1] > x then 1 else 0)
  }

  /** How many values of v are less than x. */
  function CountLt(v: seq<int>, x: int): nat {
    if v == [] then 0 else CountLt(v[..|v| - 1], x) + (if v[|v| - 1] < x then 1 else 0)
  }

  /** How many values of v equal x. */
  function CountEq(v: seq<int>, x: int): nat {
    if v == [] then 0 else CountEq(v[..|v| - 1], x) + (if v[|v| - 1] == x then 1 else 0)
  }

  /** Twice the descending average rank of x in v: the values tied with x hold
      ranks CountGt + 1 .. CountGt + CountEq, whose mean is CountGt + (CountEq + 1) / 2. */
  function DescRank2(v: seq<int>, x: int): nat {
    2 * CountGt(v, x) + CountEq(v, x) + 1
  }

  /** Twice the ascending average rank of x in v. */
  function AscRank2(v: seq<int>, x: int): nat {
    2 * CountLt(v, x) + CountEq(v, x) + 1
  }

  /** The sum of the ranks g + 1 .. g + e. */
  function SpanSum(g: nat, e: nat): nat {
    if e == 0 then 0 else SpanSum(g, e - 1) + g + e
  }

  predicate Distinct(v: seq<int>) {
    forall i, j :: 0 <= i < j < |v| ==> v[i] != v[j]
  }

  lemma {:induction false} CountSplit(v: seq<int>, x: int)
    ensures CountLt(v, x) + CountEq(v, x) + CountGt(v, x) == |v|
  {
    if v != [] {
      CountSplit(v[..|v| - 1], x);
    }
  }

  lemma {:induction false} CountEqMember(v: seq<int>, x: int)
    requires x in v
    ensures CountEq(v, x) >= 1
  {
    var w := v[..|v| - 1];
    assert v == w + [v[|v| - 1]];
    if v[|v| - 1] != x {
      assert x in w;
      CountEqMember(w, x);
    }
  }

  lemma {:induction false} CountEqDistinct(v: seq<int>, x: int)
    requires Distinct(v) && x in v
    ensures CountEq(v, x) == 1
  {
    var w := v[..|v| - 1];
    assert v == w + [v[|v| - 1]];
    if v[|v| - 1] == x {
      CountEqAbsent(w, x);
    } else {
      assert x in w;
      CountEqDistinct(w, x);
    }
  }

  lemma {:induction false} CountEqAbsent(v: seq<int>, x: int)
    requires x !in v
    ensures CountEq(v, x) == 0
  {
    if v != [] {
      var w := v[..|v| - 1];
      assert v == w + [v[|v| - 1]];
      CountEqAbsent(w, x);
    }
  }

  /** Every value at least b is greater than a, for a < b. */
  lemma {:induction false} CountGtAntitone(v: seq<int>, a: int, b: int)
    requires a < b
    ensures CountGt(v, b) + CountEq(v, b) <= CountGt(v, a)
  {
    if v != [] {
      CountGtAntitone(v[..|v| - 1], a, b);
    }
  }

  /** Every value at most a is less than b, for a < b. */
  lemma {:induction false} CountLtMonotone(v: seq<int>, a: int, b: int)
    requires a < b
    ensures CountLt(v, a) + CountEq(v, a) <= CountLt(v, b)
  {
    if v != [] {
      CountLtMonotone(v[..|v| - 1], a, b);
    }
  }

  /** A value of a group of n ranks between 1 and n (doubled: between 2 and 2n). */
  lemma DescRankBounds(v: seq<int>, x: int)
    requires x in v
    ensures 2 <= DescRank2(v, x) <= 2 * |v|
  {
    CountSplit(v, x);
    CountEqMember(v, x);
  }

  /** Highest first: within a group, more points means a strictly better
      (smaller) rank, and a strictly better rank means more points. */
  lemma DescRankOrder(v: seq<int>, x: int, y: int)
    requires x in v && y in v
    ensures x > y <==> DescRank2(v, x) < DescRank2(v, y)
  {
    if x > y {
      CountGtAntitone(v, y, x);
      CountEqMember(v, x);
    } else if x < y {
      CountGtAntitone(v, x, y);
      CountEqMember(v, y);
    }
  }

  /** The doubled rank is twice the mean of the ranks the tied values span:
      CountEq * rank == the sum of ranks CountGt + 1 .. CountGt + CountEq. */
  lemma DescRankIsAverage(v: seq<int>, x: int)
    ensures CountEq(v, x) * DescRank2(v, x) == 2 * SpanSum(CountGt(v, x), CountEq(v, x))
  {
    SpanSumClosed(CountGt(v, x), CountEq(v, x));
  }

  lemma {:induction false} SpanSumClosed(g: nat, e: nat)
    ensures e * (2 * g + e + 1) == 2 * SpanSum(g, e)
  {
    if e > 0 {
      SpanSumClosed(g, e - 1);
      calc {
        e * (2 * g + e + 1);
        (e - 1) * (2 * g + e) + 2 * (g + e);
      }
    }
  }

  /** The sum, over the values y of u, of the doubled rank of y in g. */
  function SumDesc(u: seq<int>, g: seq<int>): int {
    if u == [] then 0 else SumDesc(u[..|u| - 1], g) + DescRank2(g, u[|u| - 1])
  }

  /** Adding x to the group raises the rank of each smaller value by one (doubled: two)
      and that of each equal value by a half (doubled: one). */
  lemma {:induction false} SumDescGrow(u: seq<int>, w: seq<int>, x: int)
    ensures SumDesc(u, w + [x]) == SumDesc(u, w) + 2 * CountLt(u, x) + CountEq(u, x)
  {
    if u != [] {
      var y := u[|u| - 1];
      assert (w + [x])[..|w|] == w;
      assert DescRank2(w + [x], y) == DescRank2(w, y) + (if x > y then 2 else if x == y then 1 else 0);
      SumDescGrow(u[..|u| - 1], w, x);
    }
  }

  /** The ranks of a group of n values sum to n(n+1)/2 (doubled: n(n+1)). */
  lemma {:induction false} DescRankSum(v: seq<int>)
    ensures SumDesc(v, v) == |v| * (|v| + 1)
  {
    if v != [] {
      var w, x := v[..|v| - 1], v[|v| - 1];
      assert v == w + [x];
      DescRankSum(w);
      SumDescGrow(w, w, x);
      assert v[..|v| - 1] == w;
      assert (w + [x])[..|w|] == w;
      assert DescRank2(v, x) == 2 * CountGt(w, x) + CountEq(w, x) + 2;
      CountSplit(w, x);
      calc {
        SumDesc(v, v);
        SumDesc(w, v) + DescRank2(v, x);
        |w| * (|w| + 1) + 2 * |w| + 2;
        (|w| + 1) * (|w| + 2);
      }
    }
  }

  /** position_draft of x: the ascending average rank cast to int (truncated). */
  function DraftOrdinal(v: seq<int>, x: int): nat {
    AscRank2(v, x) / 2
  }

  /** With distinct values the ordinal is one plus the number of smaller values. */
  lemma DraftOrdinalDistinct(v: seq<int>, x: int)
    requires Distinct(v) && x in v
    ensures DraftOrdinal(v, x) == CountLt(v, x) + 1
  {
    CountEqDistinct(v, x);
  }

  /** Draft order within a group: a smaller value gets a smaller ordinal, with or without ties. */
  lemma DraftOrdinalOrder(v: seq<int>, a: int, b: int)
    requires a in v && b in v && a < b
    ensures DraftOrdinal(v, a) < DraftOrdinal(v, b)
  {
    CountLtMonotone(v, a, b);
    CountEqMember(v, a);
    CountEqMember(v, b);
  }

  /** Some value of v has ordinal k. */
  predicate OrdinalTaken(v: seq<int>, k: int) {
    exists x :: x in v && DraftOrdinal(v, x) == k
  }

  /** Some value of v has exactly k smaller values in v. */
  predicate LessCountTaken(v: seq<int>, k: int) {
    exists x :: x in v && CountLt(v, x) == k
  }

  /** With distinct values the ordinals of a group of n are a permutation of 1 .. n:
      each lies in 1 .. n, each of 1 .. n is taken, and no two values share one. */
  lemma DraftOrdinalsPermutation(v: seq<int>)
    requires Distinct(v)
    ensures forall x :: x in v ==> 1 <= DraftOrdinal(v, x) <= |v|
    ensures forall k :: 1 <= k <= |v| ==> OrdinalTaken(v, k)
    ensures forall x, y :: x in v && y in v && x != y ==> DraftOrdinal(v, x) != DraftOrdinal(v, y)
  {
    forall x | x in v
      ensures DraftOrdinal(v, x) == CountLt(v, x) + 1
    {
      DraftOrdinalDistinct(v, x);
    }
    CountLtRanks(v);
    forall x, y | x in v && y in v && x < y
      ensures CountLt(v, x) < CountLt(v, y)
    {
      CountLtMonotone(v, x, y);
      CountEqMember(v, x);
    }
    forall k | 1 <= k <= |v| ensures OrdinalTaken(v, k) {
      assert LessCountTaken(v, k - 1);
      var x :| x in v && CountLt(v, x) == k - 1;
      assert DraftOrdinal(v, x) == k;
    }
  }

  /** With distinct values, the numbers of smaller values are exactly 0 .. n-1. */
  lemma {:induction false} CountLtRanks(v: seq<int>)
    requires Distinct(v)
    ensures forall x :: x in v ==> CountLt(v, x) < |v|
    ensures forall k :: 0 <= k < |v| ==> LessCountTaken(v, k)
  {
    forall y | y in v ensures CountLt(v, y) < |v| {
      CountSplit(v, y);
      CountEqMember(v, y);
    }
    if v != [] {
      var w, x := v[..|v| - 1], v[|v| - 1];
      assert v == w + [x];
      assert x !in w;
      CountLtRanks(w);
      var c := CountLt(w, x);
      CountSplit(w, x);
      CountEqAbsent(w, x);
      assert (w + [x])[..|w|] == w;
      forall y | y in w
        ensures CountLt(v, y) == CountLt(w, y) + (if x < y then 1 else 0)
        ensures y < x ==> CountLt(w, y) < c
        ensures y > x ==> CountLt(w, y) >= c
      {
        if y < x {
          CountLtMonotone(w, y, x);
          CountEqMember(w, y);
        } else if y > x {
          CountLtMonotone(w, x, y);
        }
      }
      forall k | 0 <= k < |v| ensures LessCountTaken(v, k) {
        if k < c {
          assert LessCountTaken(w, k);
          var y :| y in w && CountLt(w, y) == k;
          assert CountLt(v, y) == k;
        } else if k == c {
          assert CountLt(v, x) == k;
        } else {
          assert LessCountTaken(w, k - 1);
          var y :| y in w && CountLt(w, y) == k - 1;
          assert CountLt(v, y) == k;
        }
      }
    }
  }

}
