/** Splitting an order quantity over take-profit amounts: rounding and a minimum size disturb the
    total, and the last amounts absorb the difference. In exact arithmetic. */
module TakeProfit {
  import opened Prelude

  function RoundHalfEven(x: real): int {
    var below := x.Floor;
    var rest := x - below as real;
    if rest < 0.5 || (rest == 0.5 && below % 2 == 0) then below else below + 1
  }

  function Pow10(n: nat): (p: nat)
    ensures p > 0
  {
    if n == 0 then 1 else 10 * Pow10(n - 1)
  }

  /** The multiple of 1/units nearest to `x`, ties to even. */
  function QuantizeBy(x: real, units: real): real
    requires units > 0.0
  {
    RoundHalfEven(x * units) as real / units
  }

  /** Rounds to `precision` decimal places; to a whole number for precision 0. */
  function Quantize(x: real, precision: nat): real {
    QuantizeBy(x, Pow10(precision) as real)
  }

  /** Takes `excess` from the last entries, emptying each that is smaller than what is left to take. */
  function TakeExcess(xs: seq<real>, excess: real): seq<real> {
    if xs == [] then []
    else
      var n := |xs| - 1;
      if xs[n] >= excess then xs[..n] + [xs[n] - excess]
      else TakeExcess(xs[..n], excess - xs[n]) + [0.0]
  }

  /** Gives `deficit` to the last positive entry. */
  function GiveDeficit(xs: seq<real>, deficit: real): seq<real> {
    if xs == [] then []
    else
      var n := |xs| - 1;
      if xs[n] > 0.0 then xs[..n] + [xs[n] + deficit]
      else GiveDeficit(xs[..n], deficit) + [xs[n]]
  }

  function Adjusted(xs: seq<real>, quantity: real): seq<real> {
    if Sum(xs) > quantity then TakeExcess(xs, Sum(xs) - quantity)
    else if Sum(xs) < quantity then GiveDeficit(xs, quantity - Sum(xs))
    else xs
  }

  function Share(quantity: real, precision: nat, amount: real, total: real): real
    requires total != 0.0
  {
    Quantize(quantity * (amount / total), precision)
  }

  function Rounded(quantity: real, precision: nat, amounts: seq<real>, total: real): (r: seq<real>)
    requires total != 0.0
    ensures |r| == |amounts| && forall i | 0 <= i < |r| :: r[i] == Share(quantity, precision, amounts[i], total)
  {
    seq(|amounts|, i requires 0 <= i < |amounts| => Share(quantity, precision, amounts[i], total))
  }

  function Raised(xs: seq<real>, minQty: real): seq<real> {
    seq(|xs|, i requires 0 <= i < |xs| => if xs[i] < minQty then minQty else xs[i])
  }

  datatype Outcome = Rearranged(tps: seq<real>) | DivisionByZero

  function Rearrange(quantity: real, precision: nat, amounts: seq<real>, minQty: real): Outcome {
    if amounts == [] then Rearranged(Adjusted([], quantity))
    else if Sum(amounts) == 0.0 then DivisionByZero
    else Rearranged(Adjusted(Raised(Rounded(quantity, precision, amounts, Sum(amounts)), minQty), quantity))
  }

  // ----- The list updated in place -----

  method Total(a: array<real>) returns (total: real)
    ensures total == Sum(a[..])
  {
    total := 0.0;
    for i := 0 to a.Length
      invariant total == Sum(a[..i])
    {
      assert a[..i + 1][..i] == a[..i];
      total := total + a[i];
    }
    assert a[..a.Length] == a[..];
  }

  method RaiseToMinimum(a: array<real>, minQty: real)
    modifies a
    ensures a[..] == Raised(old(a[..]), minQty)
  {
    for i := 0 to a.Length
      invariant forall k | 0 <= k < i :: a[k] == Raised(old(a[..]), minQty)[k]
      invariant forall k | i <= k < a.Length :: a[k] == old(a[k])
    {
      if a[i] < minQty {
        a[i] := minQty;
      }
    }
  }

  lemma TakeExcessStep(xs: seq<real>, excess: real, rest: seq<real>)
    requires xs != []
    ensures var n := |xs| - 1;
            TakeExcess(xs, excess) + rest ==
            if xs[n] >= excess then xs[..n] + ([xs[n] - excess] + rest)
            else TakeExcess(xs[..n], excess - xs[n]) + ([0.0] + rest)
  {
  }

  method TakeFromLast(a: array<real>, amount: real)
    modifies a
    ensures a[..] == TakeExcess(old(a[..]), amount)
  {
    ghost var before := a[..];
    var excess := amount;
    var index := a.Length;
    assert before[..index] == before && a[index..] == [];
    while index > 0
      invariant 0 <= index <= a.Length
      invariant a[..index] == before[..index]
      invariant TakeExcess(before, amount) == TakeExcess(before[..index], excess) + a[index..]
    {
      index := index - 1;
      assert a[index] == before[..index + 1][index];
      TakeExcessStep(before[..index + 1], excess, a[index + 1..]);
      assert before[..index + 1][..index] == before[..index];
      if a[index] >= excess {
        a[index] := a[index] - excess;
        assert a[..] == before[..index] + ([a[index]] + a[index + 1..]);
        return;
      } else {
        excess := excess - a[index];
        a[index] := 0.0;
        assert a[index..] == [0.0] + a[index + 1..];
      }
    }
  }

  method GiveToLast(a: array<real>, deficit: real)
    modifies a
    ensures a[..] == GiveDeficit(old(a[..]), deficit)
  {
    ghost var before := a[..];
    var index := a.Length;
    assert before[..index] == before && before[index..] == [];
    while index > 0
      invariant 0 <= index <= a.Length
      invariant a[..] == before
      invariant GiveDeficit(before, deficit) == GiveDeficit(before[..index], deficit) + before[index..]
    {
      index := index - 1;
      assert before[..index + 1][..index] == before[..index];
      assert [before[index]] + before[index + 1..] == before[index..];
      if a[index] > 0.0 {
        a[index] := a[index] + deficit;
        assert a[..] == before[..index] + [a[index]] + before[index + 1..];
        return;
      }
    }
  }

  method RoundShares(quantity: real, precision: nat, amounts: array<real>, total: real) returns (tps: array<real>)
    requires total != 0.0
    ensures fresh(tps) && tps[..] == Rounded(quantity, precision, amounts[..], total)
  {
    tps := new real[amounts.Length];
    for i := 0 to amounts.Length
      invariant forall k | 0 <= k < i :: tps[k] == Share(quantity, precision, amounts[k], total)
    {
      tps[i] := Share(quantity, precision, amounts[i], total);
    }
  }

  method AdjustTotal(tps: array<real>, quantity: real)
    modifies tps
    ensures tps[..] == Adjusted(old(tps[..]), quantity)
  {
    var tpsSumRounded := Total(tps);
    if tpsSumRounded > quantity {
      TakeFromLast(tps, tpsSumRounded - quantity);
    } else if tpsSumRounded < quantity {
      GiveToLast(tps, quantity - tpsSumRounded);
    }
  }

  method RearrangeTps(quantity: real, precision: nat, amounts: array<real>, minQty: real) returns (r: Outcome)
    ensures r == Rearrange(quantity, precision, amounts[..], minQty)
  {
    var tpsSum := Total(amounts);
    var tps := new real[0];
    if amounts.Length > 0 {
      if tpsSum == 0.0 {
        return DivisionByZero;
      }
      tps := RoundShares(quantity, precision, amounts, tpsSum);
      RaiseToMinimum(tps, minQty);
    }
    AdjustTotal(tps, quantity);
    r := Rearranged(tps[..]);
  }

  // ----- Conservation -----

  ghost predicate NonNegative(xs: seq<real>) {
    forall i | 0 <= i < |xs| :: xs[i] >= 0.0
  }

  ghost predicate HasPositive(xs: seq<real>) {
    exists i :: 0 <= i < |xs| && xs[i] > 0.0
  }

  lemma {:induction false} SumAppend(xs: seq<real>, x: real)
    ensures Sum(xs + [x]) == Sum(xs) + x
  {
    assert (xs + [x])[..|xs|] == xs;
  }

  lemma {:induction false} SumNonNegative(xs: seq<real>)
    requires NonNegative(xs)
    ensures Sum(xs) >= 0.0
    ensures HasPositive(xs) <==> Sum(xs) > 0.0
  {
    if xs != [] {
      SumNonNegative(xs[..|xs| - 1]);
      assert forall i | 0 <= i < |xs| - 1 :: xs[..|xs| - 1][i] == xs[i];
      if i :| 0 <= i < |xs| - 1 && xs[i] > 0.0 {
        assert xs[..|xs| - 1][i] > 0.0;
      }
    }
  }

  /** The loop that takes the excess stops by its break: some entry covers what is left to take. */
  predicate Breaks(xs: seq<real>, excess: real) {
    xs != [] && (xs[|xs| - 1] >= excess || Breaks(xs[..|xs| - 1], excess - xs[|xs| - 1]))
  }

  /** Of non-negative entries, a positive excess is taken by a break exactly when it is there to be taken;
      then the total drops by just that, and otherwise to zero. */
  lemma {:induction false} ExcessTaken(xs: seq<real>, excess: real)
    requires NonNegative(xs) && excess > 0.0
    ensures Breaks(xs, excess) <==> excess <= Sum(xs)
    ensures Sum(TakeExcess(xs, excess)) == if excess <= Sum(xs) then Sum(xs) - excess else 0.0
    ensures |TakeExcess(xs, excess)| == |xs| && NonNegative(TakeExcess(xs, excess))
  {
    if xs != [] {
      var n := |xs| - 1;
      var front, last := xs[..n], xs[n];
      assert Sum(xs) == Sum(front) + last;
      SumNonNegative(front);
      if last >= excess {
        SumAppend(front, last - excess);
      } else {
        ExcessTaken(front, excess - last);
        SumAppend(TakeExcess(front, excess - last), 0.0);
      }
    }
  }

  /** The entries up to some place stay as they were; after it they are all emptied. */
  lemma {:induction false} OnlySuffixTaken(xs: seq<real>, excess: real) returns (k: nat)
    requires NonNegative(xs) && 0.0 < excess <= Sum(xs)
    ensures k < |xs| == |TakeExcess(xs, excess)|
    ensures var ys := TakeExcess(xs, excess);
            ys[..k] == xs[..k] && 0.0 <= ys[k] <= xs[k] && forall i | k < i < |ys| :: ys[i] == 0.0
  {
    var n := |xs| - 1;
    if xs[n] >= excess {
      k := n;
    } else {
      SumNonNegative(xs[..n]);
      k := OnlySuffixTaken(xs[..n], excess - xs[n]);
      assert TakeExcess(xs, excess)[..k] == TakeExcess(xs[..n], excess - xs[n])[..k];
    }
  }

  lemma {:induction false} DeficitGiven(xs: seq<real>, deficit: real)
    requires NonNegative(xs) && deficit > 0.0
    ensures Sum(GiveDeficit(xs, deficit)) == if Sum(xs) > 0.0 then Sum(xs) + deficit else 0.0
    ensures |GiveDeficit(xs, deficit)| == |xs|
    ensures forall i | 0 <= i < |xs| :: GiveDeficit(xs, deficit)[i] >= xs[i]
  {
    if xs != [] {
      var n := |xs| - 1;
      SumNonNegative(xs[..n]);
      if xs[n] > 0.0 {
        SumAppend(xs[..n], xs[n] + deficit);
      } else {
        DeficitGiven(xs[..n], deficit);
        SumAppend(GiveDeficit(xs[..n], deficit), xs[n]);
      }
    }
  }

  lemma ExcessAdjusted(xs: seq<real>, quantity: real)
    requires NonNegative(xs) && Sum(xs) > quantity
    ensures Sum(Adjusted(xs, quantity)) == quantity <==> quantity >= 0.0 && HasPositive(xs)
    ensures |Adjusted(xs, quantity)| == |xs| && NonNegative(Adjusted(xs, quantity))
  {
    SumNonNegative(xs);
    ExcessTaken(xs, Sum(xs) - quantity);
  }

  lemma DeficitAdjusted(xs: seq<real>, quantity: real)
    requires NonNegative(xs) && Sum(xs) < quantity
    ensures Sum(Adjusted(xs, quantity)) == quantity <==> quantity >= 0.0 && HasPositive(xs)
    ensures |Adjusted(xs, quantity)| == |xs| && NonNegative(Adjusted(xs, quantity))
  {
    SumNonNegative(xs);
    DeficitGiven(xs, quantity - Sum(xs));
  }

  /** Adjusting non-negative entries reaches the quantity if and only if they sum to it already,
      or it is not negative and there is a positive entry to adjust. */
  lemma AdjustingConservesExactly(xs: seq<real>, quantity: real)
    requires NonNegative(xs)
    ensures Sum(Adjusted(xs, quantity)) == quantity <==>
            Sum(xs) == quantity || (quantity >= 0.0 && HasPositive(xs))
    ensures |Adjusted(xs, quantity)| == |xs| && NonNegative(Adjusted(xs, quantity))
  {
    if Sum(xs) > quantity {
      ExcessAdjusted(xs, quantity);
    } else if Sum(xs) < quantity {
      DeficitAdjusted(xs, quantity);
    }
  }

  /** The deficit goes to the last positive entry, and to no other. */
  lemma {:induction false} GivenToLastPositive(xs: seq<real>, deficit: real, k: nat)
    requires k < |xs| && xs[k] > 0.0 && forall i | k < i < |xs| :: xs[i] <= 0.0
    ensures GiveDeficit(xs, deficit) == xs[k := xs[k] + deficit]
  {
    var n := |xs| - 1;
    if k < n {
      assert forall i | k < i < n :: xs[..n][i] == xs[i];
      GivenToLastPositive(xs[..n], deficit, k);
    }
  }

  /** With no positive entry to give it to, the deficit stays. */
  lemma {:induction false} GivenToNone(xs: seq<real>, deficit: real)
    requires forall i | 0 <= i < |xs| :: xs[i] <= 0.0
    ensures GiveDeficit(xs, deficit) == xs
  {
    if xs != [] { GivenToNone(xs[..|xs| - 1], deficit); }
  }

  /** What adjusting does to entries that are all at least the minimum. */
  ghost predicate WellAdjusted(raised: seq<real>, tps: seq<real>, quantity: real, minQty: real) {
    && |tps| == |raised| && Sum(tps) == quantity && NonNegative(tps)
    && (Sum(raised) == quantity ==> tps == raised)
    && (Sum(raised) < quantity ==> GivenToLast(raised, tps, quantity - Sum(raised)))
    && (Sum(raised) <= quantity ==> forall i | 0 <= i < |tps| :: tps[i] >= minQty)
    && (Sum(raised) > quantity ==> Breaks(raised, Sum(raised) - quantity) && exists k :: EmptiedAfter(raised, tps, k))
  }

  ghost predicate GivenToLast(raised: seq<real>, tps: seq<real>, deficit: real) {
    raised != [] && tps == raised[|raised| - 1 := raised[|raised| - 1] + deficit]
  }

  ghost predicate EmptiedAfter(raised: seq<real>, tps: seq<real>, k: int) {
    && 0 <= k < |raised| == |tps|
    && tps[..k] == raised[..k] && tps[k] <= raised[k]
    && forall i | k < i < |tps| :: tps[i] == 0.0
  }

  lemma AdjustingRaised(raised: seq<real>, quantity: real, minQty: real)
    requires quantity >= 0.0 && minQty > 0.0 && raised != []
    requires forall i | 0 <= i < |raised| :: raised[i] >= minQty
    ensures WellAdjusted(raised, Adjusted(raised, quantity), quantity, minQty)
  {
    assert raised[0] > 0.0;
    assert NonNegative(raised) && HasPositive(raised);
    AdjustingConservesExactly(raised, quantity);
    if Sum(raised) > quantity {
      ExcessSuffix(raised, quantity);
    } else if Sum(raised) < quantity {
      GivenToLastPositive(raised, quantity - Sum(raised), |raised| - 1);
    }
  }

  lemma ExcessSuffix(raised: seq<real>, quantity: real)
    requires NonNegative(raised) && 0.0 <= quantity < Sum(raised)
    ensures Breaks(raised, Sum(raised) - quantity) && exists k :: EmptiedAfter(raised, Adjusted(raised, quantity), k)
  {
    ExcessTaken(raised, Sum(raised) - quantity);
    var k := OnlySuffixTaken(raised, Sum(raised) - quantity);
    assert EmptiedAfter(raised, Adjusted(raised, quantity), k);
  }

  // ----- The shares asked for -----

  /** Rounding moves a number by at most a half, and a half only to an even number. */
  lemma RoundingIsNearest(x: real)
    ensures var r := RoundHalfEven(x);
            -0.5 <= r as real - x <= 0.5 && (r as real - x == 0.5 || r as real - x == -0.5 ==> r % 2 == 0)
  {
  }

  /** A quantized number is a whole number of units, the one nearest. */
  lemma QuantizedUnits(x: real, units: real)
    requires units > 0.0
    ensures QuantizeBy(x, units) * units == RoundHalfEven(x * units) as real
    ensures -0.5 <= QuantizeBy(x, units) * units - x * units <= 0.5
  {
    DivTimes(RoundHalfEven(x * units) as real, units);
    RoundingIsNearest(x * units);
  }

  lemma DivTimes(a: real, b: real)
    requires b != 0.0
    ensures a / b * b == a
  {
  }

  /** Ten to the power of n: n + m decimal places are n of them, and m more. */
  lemma {:induction false} PowersOfTen(n: nat, m: nat)
    ensures Pow10(0) == 1 && Pow10(1) == 10 && Pow10(n + m) == Pow10(n) * Pow10(m)
  {
    if n > 0 {
      PowersOfTen(n - 1, m);
      assert Pow10(n + m) == 10 * Pow10(n - 1 + m);
      TimesThree(10, Pow10(n - 1), Pow10(m));
    }
  }

  lemma TimesThree(a: nat, b: nat, c: nat)
    ensures a * (b * c) == (a * b) * c
  {
  }

  /** No whole number is nearer to `z` than `n`; of two as near it is the even one. */
  ghost predicate IsNearestWhole(n: int, z: real) {
    -0.5 <= n as real - z <= 0.5 && (n as real - z == 0.5 || n as real - z == -0.5 ==> n % 2 == 0)
  }

  function InUnits(x: real, units: real): real {
    x * units
  }

  /** `y` is the multiple of 1/units nearest to `x`. */
  ghost predicate IsNearestBy(y: real, x: real, units: real) {
    exists n :: IsNearestWhole(n, InUnits(x, units)) && InUnits(y, units) == n as real
  }

  lemma QuantizeByIsNearest(x: real, units: real)
    requires units > 0.0
    ensures IsNearestBy(QuantizeBy(x, units), x, units)
  {
    QuantizedUnits(x, units);
    RoundingIsNearest(x * units);
    assert IsNearestWhole(RoundHalfEven(x * units), InUnits(x, units));
  }

  /** `y` is `x` rounded to `precision` decimal places. */
  ghost predicate IsNearest(y: real, x: real, precision: nat) {
    IsNearestBy(y, x, Pow10(precision) as real)
  }

  lemma QuantizeIsNearest(x: real, precision: nat)
    ensures IsNearest(Quantize(x, precision), x, precision)
  {
    QuantizeByIsNearest(x, Pow10(precision) as real);
  }

  /** The exact share of an amount: the quantity in proportion. */
  function ExactShare(quantity: real, amount: real, total: real): real
    requires total != 0.0
  {
    quantity * (amount / total)
  }

  /** What is asked for where the exact share is `x`: the nearest with that precision, or the minimum where that
      is below it. */
  ghost predicate AsAsked(y: real, x: real, precision: nat, minQty: real) {
    exists share :: IsNearest(share, x, precision) && (if share < minQty then y == minQty else y == share)
  }

  /** The amounts asked for: in proportion, rounded and raised to the minimum. */
  ghost predicate AllAsAsked(asked: seq<real>, quantity: real, precision: nat, amounts: seq<real>, minQty: real)
    requires Sum(amounts) != 0.0
  {
    |asked| == |amounts| &&
    forall i | 0 <= i < |amounts| ::
      AsAsked(asked[i], ExactShare(quantity, amounts[i], Sum(amounts)), precision, minQty)
  }

  lemma ShareIsNearest(quantity: real, precision: nat, amount: real, total: real)
    requires total != 0.0
    ensures IsNearest(Share(quantity, precision, amount, total), ExactShare(quantity, amount, total), precision)
  {
    QuantizeIsNearest(ExactShare(quantity, amount, total), precision);
  }

  /** Each rounded share is the nearest to the quantity in proportion to its amount, and is raised to the minimum. */
  lemma RaisedAsAsked(quantity: real, precision: nat, amounts: seq<real>, minQty: real)
    requires Sum(amounts) != 0.0
    ensures AllAsAsked(Raised(Rounded(quantity, precision, amounts, Sum(amounts)), minQty),
                       quantity, precision, amounts, minQty)
  {
    var total := Sum(amounts);
    var raised := Raised(Rounded(quantity, precision, amounts, total), minQty);
    forall i | 0 <= i < |amounts|
      ensures AsAsked(raised[i], ExactShare(quantity, amounts[i], total), precision, minQty)
    {
      ShareIsNearest(quantity, precision, amounts[i], total);
    }
  }

  /** For a non-negative quantity, a total other than zero and a positive minimum, the amounts returned sum exactly
      to the quantity and none is negative. They are the amounts asked for, in proportion and raised to the minimum,
      but for what that total differs by: when it fell short, the last amount gets the difference; when it went over,
      the loop stopped by its break and changed only a suffix, emptying all of it after the first change. */
  lemma RearrangedConserves(quantity: real, precision: nat, amounts: seq<real>, minQty: real)
    requires quantity >= 0.0 && Sum(amounts) != 0.0 && minQty > 0.0
    ensures var r := Rearrange(quantity, precision, amounts, minQty);
            r.Rearranged? && |r.tps| == |amounts| &&
            exists asked ::
              AllAsAsked(asked, quantity, precision, amounts, minQty) && WellAdjusted(asked, r.tps, quantity, minQty)
  {
    var raised := Raised(Rounded(quantity, precision, amounts, Sum(amounts)), minQty);
    assert amounts != [] && |raised| == |amounts|;
    RaisedAsAsked(quantity, precision, amounts, minQty);
    AdjustingRaised(raised, quantity, minQty);
  }

  /** No amounts are rearranged into none; amounts that sum to zero divide by zero. */
  lemma DividesByZeroExactly(quantity: real, precision: nat, amounts: seq<real>, minQty: real)
    ensures Rearrange(quantity, precision, amounts, minQty).DivisionByZero? <==> amounts != [] && Sum(amounts) == 0.0
    ensures Rearrange(quantity, precision, [], minQty) == Rearranged([])
  {
  }
}
