/** The mixed-radix schedule of benchmark runs: consecutive run counts go through every
    combination of implementation and configuration. */
module BenchSchedule {

  const NUM_BENCH_IMPLS: nat := 2

  /** A dimension of 0 would make `factorize` divide by zero. */
  type Dimension = d: nat | d > 0 witness 1

  function Div(i: nat, d: nat): nat
    requires d > 0
  {
    i / d
  }

  function Mod(i: nat, d: nat): nat
    requires d > 0
  {
    i % d
  }

  function Product(dims: seq<Dimension>): nat {
    if dims == [] then 1 else dims[0] * Product(dims[1..])
  }

  /** The digits of `i`, least significant first. */
  function Digits(i: nat, dims: seq<Dimension>): (digits: seq<nat>)
    ensures |digits| == |dims|
    decreases |dims|
  {
    if dims == [] then [] else [Mod(i, dims[0])] + Digits(Div(i, dims[0]), dims[1..])
  }

  /** The mixed-radix number with the given digits. */
  function Value(digits: seq<nat>, dims: seq<Dimension>): nat
    requires |digits| == |dims|
  {
    if dims == [] then 0 else digits[0] + dims[0] * Value(digits[1..], dims[1..])
  }

  ghost predicate AreDigits(digits: seq<nat>, dims: seq<Dimension>) {
    |digits| == |dims| && forall k | 0 <= k < |dims| :: digits[k] < dims[k]
  }

  method Factorize(i: nat, dimensions: seq<Dimension>) returns (result: seq<nat>)
    ensures result == Digits(i, dimensions)
  {
    var rest := i;
    result := [];
    for k := 0 to |dimensions|
      invariant result + Digits(rest, dimensions[k..]) == Digits(i, dimensions)
    {
      var dim := dimensions[k];
      assert dimensions[k..][1..] == dimensions[k + 1..];
      result := result + [Mod(rest, dim)];
      rest := Div(rest, dim);
    }
  }

  // ----- Arithmetic -----

  lemma DivMod(i: nat, d: nat)
    requires d > 0
    ensures i == d * Div(i, d) + Mod(i, d) && Mod(i, d) < d
  {
  }

  lemma QuotientUnique(i: nat, d: nat, q: nat, r: nat)
    requires d > 0 && r < d && i == d * q + r
    ensures Div(i, d) == q && Mod(i, d) == r
  {
    DivMod(i, d);
    var q' := Div(i, d);
    if q' < q {
      Monotone(d, q' + 1, q);
    } else if q < q' {
      Monotone(d, q + 1, q');
    }
  }

  lemma Monotone(d: nat, a: nat, b: nat)
    requires a <= b
    ensures d * a <= d * b
  {
  }

  lemma {:induction false} ProductPositive(dims: seq<Dimension>)
    ensures Product(dims) > 0
  {
    if dims != [] {
      ProductPositive(dims[1..]);
      Monotone(dims[0], 1, Product(dims[1..]));
    }
  }

  // ----- The digits and the number determine each other -----

  lemma DivDiv(i: nat, a: nat, b: nat)
    requires a > 0 && b > 0 && a * b > 0
    ensures Div(Div(i, a), b) == Div(i, a * b)
  {
    DivMod(i, a);
    DivMod(Div(i, a), b);
    var q, r := Div(Div(i, a), b), Mod(Div(i, a), b);
    Monotone(a, r + 1, b);
    Distribute(a, r, b, q);
    QuotientUnique(i, a * b, q, a * r + Mod(i, a));
  }

  /** Digit k is what is left of the number after the dimensions before, modulo dimension k: the first dimension
      changes with every run, each later one when those before have gone through all their combinations. */
  lemma {:induction false} DigitAt(i: nat, dims: seq<Dimension>, k: nat)
    requires k < |dims|
    ensures Product(dims[..k]) > 0
    ensures Digits(i, dims)[k] == Mod(Div(i, Product(dims[..k])), dims[k])
    decreases k
  {
    ProductPositive(dims[..k]);
    if k == 0 {
      QuotientUnique(i, 1, i, 0);
    } else {
      DigitAt(Div(i, dims[0]), dims[1..], k - 1);
      assert dims[..k][1..] == dims[1..][..k - 1];
      DivDiv(i, dims[0], Product(dims[1..][..k - 1]));
    }
  }

  lemma {:induction false} DigitsAreDigits(i: nat, dims: seq<Dimension>)
    ensures AreDigits(Digits(i, dims), dims)
    decreases |dims|
  {
    if dims != [] {
      DivMod(i, dims[0]);
      DigitsAreDigits(Div(i, dims[0]), dims[1..]);
    }
  }

  /** Every digit vector is the digits of its value, which is below the product. */
  lemma {:induction false} DigitsOfValue(digits: seq<nat>, dims: seq<Dimension>)
    requires AreDigits(digits, dims)
    ensures Value(digits, dims) < Product(dims)
    ensures Digits(Value(digits, dims), dims) == digits
  {
    if dims != [] {
      assert AreDigits(digits[1..], dims[1..]) by {
        assert forall k | 0 <= k < |dims| - 1 :: digits[1..][k] == digits[k + 1] && dims[1..][k] == dims[k + 1];
      }
      DigitsOfValue(digits[1..], dims[1..]);
      LeadingDigit(digits[0], dims[0], Value(digits[1..], dims[1..]), Product(dims[1..]));
    }
  }

  lemma LeadingDigit(digit: nat, d: nat, higher: nat, p: nat)
    requires digit < d && higher < p
    ensures digit + d * higher < d * p
    ensures Div(digit + d * higher, d) == higher && Mod(digit + d * higher, d) == digit
  {
    QuotientUnique(digit + d * higher, d, higher, digit);
    Monotone(d, higher + 1, p);
  }

  /** The value of the digits of `i` is `i` reduced by a multiple of the product. */
  lemma {:induction false} ValueOfDigits(i: nat, dims: seq<Dimension>) returns (rounds: nat)
    ensures i == Value(Digits(i, dims), dims) + Product(dims) * rounds
    decreases |dims|
  {
    if dims == [] {
      rounds := i;
    } else {
      var d := dims[0];
      rounds := ValueOfDigits(Div(i, d), dims[1..]);
      DivMod(i, d);
      var v, p := Value(Digits(Div(i, d), dims[1..]), dims[1..]), Product(dims[1..]);
      Distribute(d, v, p, rounds);
    }
  }

  lemma Distribute(d: nat, v: nat, p: nat, k: nat)
    ensures d * (v + p * k) == d * v + d * p * k
  {
  }

  /** `factorize` is a bijection between the numbers below the product and the digit vectors,
      inverted by the mixed-radix value. */
  lemma FactorizeIsBijective(i: nat, dims: seq<Dimension>)
    requires i < Product(dims)
    ensures AreDigits(Digits(i, dims), dims) && Value(Digits(i, dims), dims) == i
  {
    DigitsAreDigits(i, dims);
    DigitsOfValue(Digits(i, dims), dims);
    var rounds := ValueOfDigits(i, dims);
    if rounds > 0 { Monotone(Product(dims), 1, rounds); }
  }

  lemma SameDigitsFarApart(i: nat, j: nat, dims: seq<Dimension>)
    requires i < j && Digits(i, dims) == Digits(j, dims)
    ensures j - i >= Product(dims)
  {
    var a := ValueOfDigits(i, dims);
    var b := ValueOfDigits(j, dims);
    DigitsAreDigits(i, dims);
    DigitsAreDigits(j, dims);
    Gap(Value(Digits(i, dims), dims), Product(dims), a, b);
  }

  lemma Gap(v: nat, p: nat, a: nat, b: nat)
    requires v + p * a < v + p * b
    ensures (v + p * b) - (v + p * a) >= p
  {
    if a < b {
      Monotone(p, a + 1, b);
    } else {
      Monotone(p, b, a);
    }
  }

  lemma {:induction false} ShiftedDigits(i: nat, dims: seq<Dimension>, rounds: nat)
    ensures Digits(i + Product(dims) * rounds, dims) == Digits(i, dims)
    decreases |dims|
  {
    if dims != [] {
      var d, p := dims[0], Product(dims[1..]);
      DivMod(i, d);
      Distribute(d, Div(i, d), p, rounds);
      QuotientUnique(i + d * p * rounds, d, Div(i, d) + p * rounds, Mod(i, d));
      ShiftedDigits(Div(i, d), dims[1..], rounds);
    }
  }

  /** In any window of as many consecutive run counts as there are combinations,
      every combination comes up exactly once. */
  lemma EachCombinationOnce(start: nat, digits: seq<nat>, dims: seq<Dimension>)
    requires AreDigits(digits, dims)
    ensures exists i: nat :: start <= i < start + Product(dims) && Digits(i, dims) == digits
    ensures forall i: nat, j: nat | start <= i < start + Product(dims) && start <= j < start + Product(dims) &&
                                    Digits(i, dims) == digits && Digits(j, dims) == digits :: i == j
  {
    var p, v := Product(dims), Value(digits, dims);
    DigitsOfValue(digits, dims);
    var rounds := if start <= v then 0 else Div(start - v + p - 1, p);
    ProductPositive(dims);
    if start > v { DivMod(start - v + p - 1, p); }
    ShiftedDigits(v, dims, rounds);
    assert start <= v + p * rounds < start + p;
    forall i: nat, j: nat | start <= i < start + p && start <= j < start + p &&
                            Digits(i, dims) == digits && Digits(j, dims) == digits
      ensures i == j
    {
      if i < j {
        SameDigitsFarApart(i, j, dims);
      } else if j < i {
        SameDigitsFarApart(j, i, dims);
      }
    }
  }

  /** A tenant with `configs` bench configurations runs every implementation with every configuration
      exactly once in any 2 * configs consecutive runs, the first of which has run count 1. */
  lemma EveryBenchOnce(start: nat, configs: Dimension, impl: nat, config: nat)
    requires start > 0 && impl < NUM_BENCH_IMPLS && config < configs
    ensures var dims: seq<Dimension> := [NUM_BENCH_IMPLS, configs];
            && (exists run: nat :: start <= run < start + 2 * configs && Digits(run, dims) == [impl, config])
            && (forall i: nat, j: nat |
                  && start <= i < start + 2 * configs && start <= j < start + 2 * configs
                  && Digits(i, dims) == [impl, config] && Digits(j, dims) == [impl, config] :: i == j)
  {
    var dims: seq<Dimension> := [NUM_BENCH_IMPLS, configs];
    assert dims[1..] == [configs] && [configs][1..] == [];
    assert Product([configs]) == configs;
    assert Product(dims) == 2 * configs;
    EachCombinationOnce(start, [impl, config], dims);
  }
}
