/** What several models share: slots, keys, commitment levels, Option, sums, and the least and greatest
    elements of finite sets of naturals (the first and last keys of an ordered set or map). */
module Prelude {

  datatype Option<+T> = None | Some(value: T)

  type Slot = nat
  type Pubkey = nat

  datatype Commitment = Processed | Confirmed | Finalized

  function Max(a: nat, b: nat): nat {
    if a < b then b else a
  }

  function Min(a: nat, b: nat): nat {
    if a < b then a else b
  }

  /** Subtraction that stops at zero. */
  function SaturatingSub(a: nat, b: nat): nat {
    if a < b then 0 else a - b
  }

  function Sum(xs: seq<real>): real {
    if xs == [] then 0.0 else Sum(xs[..|xs| - 1]) + xs[|xs| - 1]
  }

  predicate IsGreatest(s: set<nat>, m: nat) {
    m in s && forall k | k in s :: k <= m
  }

  predicate IsLeast(s: set<nat>, m: nat) {
    m in s && forall k | k in s :: m <= k
  }

  lemma {:induction false} MaxExists(s: set<nat>)
    requires s != {}
    ensures exists m :: IsGreatest(s, m)
    decreases |s|
  {
    var m :| m in s;
    if s != {m} {
      MaxExists(s - {m});
      var n :| IsGreatest(s - {m}, n);
      var top := if m < n then n else m;
      forall k | k in s ensures k <= top { assert k == m || k in s - {m}; }
      assert IsGreatest(s, top);
    } else {
      assert IsGreatest(s, m);
    }
  }

  lemma {:induction false} MinExists(s: set<nat>)
    requires s != {}
    ensures exists m :: IsLeast(s, m)
    decreases |s|
  {
    var m :| m in s;
    if s != {m} {
      MinExists(s - {m});
      var n :| IsLeast(s - {m}, n);
      var bottom := if n < m then n else m;
      forall k | k in s ensures bottom <= k { assert k == m || k in s - {m}; }
      assert IsLeast(s, bottom);
    } else {
      assert IsLeast(s, m);
    }
  }

  function MaxOf(s: set<nat>): (m: nat)
    requires s != {}
    ensures m in s && forall k | k in s :: k <= m
  {
    MaxExists(s);
    var m :| IsGreatest(s, m);
    m
  }

  function MinOf(s: set<nat>): (m: nat)
    requires s != {}
    ensures m in s && forall k | k in s :: m <= k
  {
    MinExists(s);
    var m :| IsLeast(s, m);
    m
  }

  /** A property that holds at first, and as long as it holds is kept by exactly the good steps. */
  lemma {:induction false} HoldsWhileKept(holds: seq<bool>, keeps: seq<bool>, n: nat)
    requires n <= |keeps| == |holds| - 1 && holds[0]
    requires forall i | 0 <= i < |keeps| && holds[i] :: holds[i + 1] <==> keeps[i]
    ensures (forall i | 0 <= i <= n :: holds[i]) <==> (forall i | 0 <= i < n :: keeps[i])
  {
    if n > 0 {
      HoldsWhileKept(holds, keeps, n - 1);
      if holds[n - 1] { assert holds[n - 1 + 1] <==> keeps[n - 1]; }
    }
  }
}
