/** Turning take-profit shares into whole percentages that sum to 100, by largest remainder.
    In exact arithmetic. */
module Percentages {
  import opened Prelude

  function SumInt(xs: seq<int>): int {
    if xs == [] then 0 else SumInt(xs[..|xs| - 1]) + xs[|xs| - 1]
  }

  /** Truncation toward zero. */
  function Truncated(x: real): int {
    if x >= 0.0 then x.Floor else -((-x).Floor)
  }

  /** The shares in percent, after spreading what is missing to 1 equally. */
  function Scaled(tps: seq<real>): (r: seq<real>)
    requires tps != []
    ensures |r| == |tps|
  {
    var spread := (1.0 - Sum(tps)) / |tps| as real;
    seq(|tps|, i requires 0 <= i < |tps| => (tps[i] + spread) * 100.0)
  }

  function Wholes(xs: seq<real>): (r: seq<int>)
    ensures |r| == |xs| && forall i | 0 <= i < |xs| :: r[i] == Truncated(xs[i])
  {
    seq(|xs|, i requires 0 <= i < |xs| => Truncated(xs[i]))
  }

  function Fractions(xs: seq<real>): (r: seq<real>)
    ensures |r| == |xs| && forall i | 0 <= i < |xs| :: r[i] == xs[i] - Truncated(xs[i]) as real
  {
    seq(|xs|, i requires 0 <= i < |xs| => xs[i] - Truncated(xs[i]) as real)
  }

  /** Truncation drops the fraction, whatever the sign. */
  lemma TruncatedExactly(x: real)
    ensures x >= 0.0 ==> 0 <= Truncated(x) && x - 1.0 < Truncated(x) as real <= x
    ensures x <= 0.0 ==> Truncated(x) <= 0 && x <= Truncated(x) as real < x + 1.0
  {
  }

  // ----- Ranking by fraction, largest first, ties in the original order -----

  predicate Below(ranked: seq<nat>, n: nat) {
    forall i | 0 <= i < |ranked| :: ranked[i] < n
  }

  /** Puts `k` after every index with a fraction at least as large. */
  function Inserted(ranked: seq<nat>, k: nat, keys: seq<real>): seq<nat>
    requires k < |keys| && Below(ranked, |keys|)
  {
    if ranked == [] || keys[ranked[|ranked| - 1]] >= keys[k] then ranked + [k]
    else Inserted(ranked[..|ranked| - 1], k, keys) + [ranked[|ranked| - 1]]
  }

  /** The indices below `n`, ranked. */
  function Ranked(keys: seq<real>, n: nat): (r: seq<nat>)
    requires n <= |keys|
    ensures |r| == n && Below(r, n)
    ensures forall j: nat :: j in r <==> j < n
  {
    if n == 0 then []
    else
      var r := Inserted(Ranked(keys, n - 1), n - 1, keys);
      InsertedElements(Ranked(keys, n - 1), n - 1, keys);
      assert forall i | 0 <= i < |r| :: r[i] in r;
      r
  }

  ghost predicate InOrder(a: nat, b: nat, keys: seq<real>)
    requires a < |keys| && b < |keys|
  {
    keys[a] > keys[b] || (keys[a] == keys[b] && a < b)
  }

  /** Larger fractions first; equal ones in the original order; so no index twice. */
  ghost predicate IsRanking(ranked: seq<nat>, keys: seq<real>) {
    && Below(ranked, |keys|)
    && forall i, j | 0 <= i < j < |ranked| :: InOrder(ranked[i], ranked[j], keys)
  }

  lemma {:induction false} InsertedElements(ranked: seq<nat>, k: nat, keys: seq<real>)
    requires k < |keys| && Below(ranked, |keys|)
    ensures |Inserted(ranked, k, keys)| == |ranked| + 1
    ensures forall j: nat :: j in Inserted(ranked, k, keys) <==> j == k || j in ranked
    ensures Below(Inserted(ranked, k, keys), |keys|)
  {
    if ranked != [] && keys[ranked[|ranked| - 1]] < keys[k] {
      var m := |ranked| - 1;
      InsertedElements(ranked[..m], k, keys);
      assert ranked == ranked[..m] + [ranked[m]];
    }
    assert Below(Inserted(ranked, k, keys), |keys|);
  }

  lemma {:induction false} InsertedRanks(ranked: seq<nat>, k: nat, keys: seq<real>)
    requires k < |keys| && IsRanking(ranked, keys) && Below(ranked, k)
    ensures IsRanking(Inserted(ranked, k, keys), keys)
  {
    InsertedElements(ranked, k, keys);
    if ranked != [] {
      var m := |ranked| - 1;
      if keys[ranked[m]] >= keys[k] {
        assert forall i | 0 <= i < m :: InOrder(ranked[i], ranked[m], keys);
      } else {
        InsertedRanks(ranked[..m], k, keys);
        FrontInOrder(ranked, k, keys);
      }
    }
  }

  lemma FrontInOrder(ranked: seq<nat>, k: nat, keys: seq<real>)
    requires k < |keys| && IsRanking(ranked, keys) && ranked != [] && keys[ranked[|ranked| - 1]] < keys[k]
    ensures var m := |ranked| - 1;
            var front := Inserted(ranked[..m], k, keys);
            Below(front, |keys|) && forall i | 0 <= i < |front| :: InOrder(front[i], ranked[m], keys)
  {
    var m := |ranked| - 1;
    var front := Inserted(ranked[..m], k, keys);
    InsertedElements(ranked[..m], k, keys);
    forall i | 0 <= i < |front| ensures InOrder(front[i], ranked[m], keys) {
      assert front[i] in front;
    }
  }

  lemma {:induction false} RankedIsRanking(keys: seq<real>, n: nat)
    requires n <= |keys|
    ensures IsRanking(Ranked(keys, n), keys)
  {
    if n > 0 {
      RankedIsRanking(keys, n - 1);
      InsertedRanks(Ranked(keys, n - 1), n - 1, keys);
    }
  }

  // ----- Handing out the remainder -----

  /** One more for each of the first `count` ranked indices. */
  function Bumped(ints: seq<int>, ranked: seq<nat>, count: nat): (r: seq<int>)
    requires count <= |ranked| && Below(ranked, |ints|)
    ensures |r| == |ints|
  {
    if count == 0 then ints
    else
      var earlier := Bumped(ints, ranked, count - 1);
      earlier[ranked[count - 1] := earlier[ranked[count - 1]] + 1]
  }

  function Remainder(scaled: seq<real>): int {
    100 - SumInt(Wholes(scaled))
  }

  /** The percentages of shares that do not sum to 1 yet. */
  function Distributed(tps: seq<real>): (r: seq<int>)
    requires tps != []
    ensures |r| == |tps|
  {
    var scaled := Scaled(tps);
    RemainderInRange(tps);
    Bumped(Wholes(scaled), Ranked(Fractions(scaled), |tps|), if Remainder(scaled) > 0 then Remainder(scaled) else 0)
  }

  // ----- Totals -----

  lemma {:induction false} SumScaled(tps: seq<real>, spread: real, n: nat)
    requires n <= |tps|
    ensures Sum(seq(n, i requires 0 <= i < n => (tps[i] + spread) * 100.0)) ==
            100.0 * Sum(tps[..n]) + 100.0 * n as real * spread
  {
    var all := seq(n, i requires 0 <= i < n => (tps[i] + spread) * 100.0);
    if n > 0 {
      SumScaled(tps, spread, n - 1);
      assert all[..n - 1] == seq(n - 1, i requires 0 <= i < n - 1 => (tps[i] + spread) * 100.0);
      assert tps[..n][..n - 1] == tps[..n - 1];
      assert n as real * spread == (n - 1) as real * spread + spread;
    }
  }

  /** What is missing is spread equally, and the shares then sum to one hundred percent. */
  lemma ScaledSumsTo100(tps: seq<real>)
    requires tps != []
    ensures Sum(Scaled(tps)) == 100.0
    ensures forall i, j | 0 <= i < |tps| && 0 <= j < |tps| ::
              Scaled(tps)[i] - Scaled(tps)[j] == 100.0 * (tps[i] - tps[j])
  {
    var spread := (1.0 - Sum(tps)) / |tps| as real;
    SumScaled(tps, spread, |tps|);
    assert tps[..|tps|] == tps;
    assert |tps| as real * spread == 1.0 - Sum(tps);
    assert Scaled(tps) == seq(|tps|, i requires 0 <= i < |tps| => (tps[i] + spread) * 100.0);
  }

  lemma {:induction false} FractionsSum(xs: seq<real>)
    ensures Sum(Fractions(xs)) == Sum(xs) - SumInt(Wholes(xs)) as real
    ensures xs != [] ==> -(|xs| as real) < Sum(Fractions(xs)) < |xs| as real
    ensures (forall i | 0 <= i < |xs| :: xs[i] >= 0.0) ==> Sum(Fractions(xs)) >= 0.0
  {
    if xs != [] {
      var m := |xs| - 1;
      FractionsSum(xs[..m]);
      assert Fractions(xs)[..m] == Fractions(xs[..m]);
      assert Wholes(xs)[..m] == Wholes(xs[..m]);
      assert -1.0 < Fractions(xs)[m] < 1.0;
    }
  }

  /** The remainder never reaches the number of shares, so there is always an index to bump;
      it is not negative when no share is. */
  lemma RemainderInRange(tps: seq<real>)
    requires tps != []
    ensures -|tps| < Remainder(Scaled(tps)) < |tps|
    ensures (forall i | 0 <= i < |tps| :: Scaled(tps)[i] >= 0.0) ==> Remainder(Scaled(tps)) >= 0
  {
    ScaledSumsTo100(tps);
    FractionsSum(Scaled(tps));
  }

  lemma {:induction false} SumUpdate(ints: seq<int>, k: nat, x: int)
    requires k < |ints|
    ensures SumInt(ints[k := x]) == SumInt(ints) - ints[k] + x
  {
    var m := |ints| - 1;
    if k < m {
      SumUpdate(ints[..m], k, x);
      assert ints[k := x][..m] == ints[..m][k := x];
    } else {
      assert ints[k := x][..m] == ints[..m];
    }
  }

  lemma {:induction false} BumpedSum(ints: seq<int>, ranked: seq<nat>, count: nat)
    requires count <= |ranked| && Below(ranked, |ints|)
    ensures SumInt(Bumped(ints, ranked, count)) == SumInt(ints) + count
  {
    if count > 0 {
      BumpedSum(ints, ranked, count - 1);
      var earlier := Bumped(ints, ranked, count - 1);
      SumUpdate(earlier, ranked[count - 1], earlier[ranked[count - 1]] + 1);
    }
  }

  lemma {:induction false} BumpedAt(ints: seq<int>, ranked: seq<nat>, count: nat, keys: seq<real>)
    requires count <= |ranked| && |keys| == |ints| && IsRanking(ranked, keys)
    ensures forall i | 0 <= i < |ints| ::
              Bumped(ints, ranked, count)[i] == ints[i] + if i in ranked[..count] then 1 else 0
  {
    if count > 0 {
      BumpedAt(ints, ranked, count - 1, keys);
      assert ranked[..count] == ranked[..count - 1] + [ranked[count - 1]];
      assert forall i | 0 <= i < count - 1 :: InOrder(ranked[i], ranked[count - 1], keys);
      assert ranked[count - 1] !in ranked[..count - 1];
    }
  }

  /** The percentages sum to 100 if and only if the truncated shares do not exceed it; otherwise,
      which takes a negative share, they are left at their truncated total. */
  lemma PercentagesSumExactly(tps: seq<real>)
    requires tps != []
    ensures SumInt(Distributed(tps)) == 100 <==> SumInt(Wholes(Scaled(tps))) <= 100
    ensures SumInt(Distributed(tps)) == if SumInt(Wholes(Scaled(tps))) <= 100 then 100 else SumInt(Wholes(Scaled(tps)))
    ensures (forall i | 0 <= i < |tps| :: Scaled(tps)[i] >= 0.0) ==> SumInt(Distributed(tps)) == 100
  {
    var scaled := Scaled(tps);
    RemainderInRange(tps);
    var ranked := Ranked(Fractions(scaled), |tps|);
    BumpedSum(Wholes(scaled), ranked, if Remainder(scaled) > 0 then Remainder(scaled) else 0);
  }

  lemma TakeHolds(ranked: seq<nat>, count: nat, a: nat)
    requires a < |ranked| && count <= |ranked|
    ensures a < count ==> ranked[a] in ranked[..count]
  {
    if a < count { assert ranked[..count][a] == ranked[a]; }
  }

  /** Each percentage is the truncated share or one more, so for shares that are not negative within 1
      of the share; and no share left as it was has a larger fraction than one that got one more, or as large a
      one and came before it. */
  lemma PercentagesByLargestRemainder(tps: seq<real>)
    requires tps != []
    ensures var scaled, r := Scaled(tps), Distributed(tps);
            && (forall i | 0 <= i < |tps| :: r[i] == Truncated(scaled[i]) || r[i] == Truncated(scaled[i]) + 1)
            && (forall i | 0 <= i < |tps| && scaled[i] >= 0.0 :: -1.0 < r[i] as real - scaled[i] <= 1.0)
            && (forall i, j | 0 <= i < |tps| && 0 <= j < |tps| &&
                              r[i] == Truncated(scaled[i]) && r[j] == Truncated(scaled[j]) + 1 ::
                  InOrder(j, i, Fractions(scaled)))
  {
    var scaled, r := Scaled(tps), Distributed(tps);
    var keys := Fractions(scaled);
    var ranked := Ranked(keys, |tps|);
    var count := if Remainder(scaled) > 0 then Remainder(scaled) else 0;
    RemainderInRange(tps);
    RankedIsRanking(keys, |tps|);
    BumpedAt(Wholes(scaled), ranked, count, keys);
    forall i, j | 0 <= i < |tps| && 0 <= j < |tps| && i !in ranked[..count] && j in ranked[..count]
      ensures InOrder(j, i, keys)
    {
      assert i in ranked;
      var a: nat :| a < |ranked| && ranked[a] == i;
      var b: nat :| b < count && ranked[b] == j;
      TakeHolds(ranked, count, a);
      assert InOrder(ranked[b], ranked[a], keys);
    }
  }

  lemma SumOfThree(a: real, b: real, c: real)
    ensures Sum([a, b, c]) == a + b + c
  {
    assert [a, b, c][..2] == [a, b] && [a, b][..1] == [a] && [a][..0] == [];
    assert Sum([a]) == a && Sum([a, b]) == a + b;
  }

  lemma SumIntOfThree(a: int, b: int, c: int)
    ensures SumInt([a, b, c]) == a + b + c
  {
    assert [a, b, c][..2] == [a, b] && [a, b][..1] == [a] && [a][..0] == [];
    assert SumInt([a]) == a && SumInt([a, b]) == a + b;
  }

  /** With negative shares the truncated total can exceed 100: -0.5, -0.5 and 101 percent. */
  lemma NegativeSharesMiss100()
    ensures var tps := [-0.105, -0.105, 0.91];
            Sum(tps) != 1.0 && SumInt(Distributed(tps)) == 101
  {
    var tps := [-0.105, -0.105, 0.91];
    SumOfThree(tps[0], tps[1], tps[2]);
    assert tps == [tps[0], tps[1], tps[2]];
    assert (1.0 - Sum(tps)) / 3.0 == 0.1;
    assert Scaled(tps) == [-0.5, -0.5, 101.0];
    assert Wholes(Scaled(tps)) == [0, 0, 101];
    SumIntOfThree(0, 0, 101);
    PercentagesSumExactly(tps);
  }

  // ----- The orders updated in place -----

  class Order {
    var tpPercentage: real

    constructor (tpPercentage: real)
      ensures this.tpPercentage == tpPercentage
    {
      this.tpPercentage := tpPercentage;
    }
  }

  function SharesOf(orders: seq<Order>): (r: seq<real>)
    reads orders
    ensures |r| == |orders| && forall i | 0 <= i < |orders| :: r[i] == orders[i].tpPercentage
  {
    seq(|orders|, i requires 0 <= i < |orders| reads orders => orders[i].tpPercentage)
  }

  /** Bumps the truncated percentages in place. */
  method BumpLargest(ints: array<int>, ranked: seq<nat>, remainder: int)
    requires remainder <= |ranked| && Below(ranked, ints.Length)
    modifies ints
    ensures ints[..] == Bumped(old(ints[..]), ranked, if remainder > 0 then remainder else 0)
  {
    var i := 0;
    while i < remainder
      invariant 0 <= i && (i <= remainder || i == 0)
      invariant ints[..] == Bumped(old(ints[..]), ranked, i)
    {
      assert ranked[i] in ranked;
      ints[ranked[i]] := ints[ranked[i]] + 1;
      i := i + 1;
    }
  }

  /** Orders whose shares sum to 1 already stay as they are; otherwise each gets its whole percentage
      (an order listed more than once, that of its last place). */
  method DistributePercentages(orders: seq<Order>)
    modifies orders
    ensures orders == [] || Sum(old(SharesOf(orders))) == 1.0 ==> SharesOf(orders) == old(SharesOf(orders))
    ensures orders != [] && Sum(old(SharesOf(orders))) != 1.0 ==>
              forall i | 0 <= i < |orders| && (forall j | i < j < |orders| :: orders[j] != orders[i]) ::
                orders[i].tpPercentage == Distributed(old(SharesOf(orders)))[i] as real
  {
    if orders == [] {
      return;
    }
    var tps := SharesOf(orders);
    var missing := 1.0 - Sum(tps);
    if missing == 0.0 {
      return;
    }
    var percentages := WholePercentages(tps);
    for i := 0 to |orders|
      invariant forall k | 0 <= k < i && (forall j | k < j < i :: orders[j] != orders[k]) ::
                  orders[k].tpPercentage == percentages[k] as real
    {
      orders[i].tpPercentage := percentages[i] as real;
    }
  }

  method WholePercentages(tps: seq<real>) returns (percentages: seq<int>)
    requires tps != []
    ensures percentages == Distributed(tps)
  {
    var scaled := Scaled(tps);
    var intTps := new int[|tps|](i requires 0 <= i < |tps| => Truncated(scaled[i]));
    assert intTps[..] == Wholes(scaled);
    var remainder := 100 - SumInt(intTps[..]);
    var sortedIndices := Ranked(Fractions(scaled), |tps|);
    RemainderInRange(tps);
    BumpLargest(intTps, sortedIndices, remainder);
    percentages := intTps[..];
  }
}
