/**
 The floor-division allocators of deploy/traffic/traffic.py. Amounts are cut by differences of
 rounded cumulative shares, over time in one place and over domains in another, so that the
 pieces always add up to the whole.
 */
module Allocation {

  /** The part of an amount that falls between two offsets of a duration. */
  function Share(amount: int, left: int, right: int, duration: int): int
    requires 0 < duration
  {
    amount * right / duration - amount * left / duration
  }

  /** The part of a budget that a value receives after `consumed` of the total was served. */
  function Portion(budget: int, total: int, consumed: int, value: int): int {
    if total == 0 then 0
    else budget * (consumed + value) / total - budget * consumed / total
  }

  /** The sum of the first n values. */
  function Prefix(vals: seq<int>, n: nat): int
    requires n <= |vals|
  {
    if n == 0 then 0 else Prefix(vals, n - 1) + vals[n - 1]
  }

  function Total(vals: seq<int>): int {
    Prefix(vals, |vals|)
  }

  /** A budget handed out in order, each value getting its rounded cumulative portion. */
  function Apportion(budget: int, total: int, vals: seq<int>): (parts: seq<int>)
    ensures |parts| == |vals|
  {
    seq(|vals|, i requires 0 <= i < |vals| => Portion(budget, total, Prefix(vals, i), vals[i]))
  }

  /** Values scaled down when they exceed the budget, and left alone otherwise. */
  function Capped(vals: seq<int>, budget: int): (kept: seq<int>)
    ensures |kept| == |vals|
  {
    if Total(vals) > budget then Apportion(budget, Total(vals), vals) else vals
  }

  predicate NonNegative(vals: seq<int>) {
    forall i :: 0 <= i < |vals| ==> 0 <= vals[i]
  }

  // ---- floor division ----

  lemma Floor(n: int, d: int)
    requires 0 < d
    ensures n / d * d <= n < n / d * d + d
  {
  }

  lemma FloorBetween(n: int, d: int, q: int)
    requires 0 < d && q * d <= n < (q + 1) * d
    ensures n / d == q
  {
    Floor(n, d);
    if n / d < q {
      Times(n / d + 1, q, d);
    } else if n / d > q {
      Times(q + 1, n / d, d);
    }
  }

  lemma Times(a: int, b: int, d: int)
    requires a <= b && 0 <= d
    ensures a * d <= b * d
  {
  }

  lemma FloorMonotone(a: int, b: int, d: int)
    requires 0 < d && a <= b
    ensures a / d <= b / d
  {
    Floor(a, d);
    Floor(b, d);
    if b / d < a / d {
      Times(b / d + 1, a / d, d);
    }
  }

  lemma FloorShift(n: int, k: int, d: int)
    requires 0 < d
    ensures (n + k * d) / d == n / d + k
  {
    Floor(n, d);
    FloorBetween(n + k * d, d, n / d + k);
  }

  // ---- cuts over time ----

  lemma ShareAdjacent(amount: int, left: int, middle: int, right: int, duration: int)
    requires 0 < duration
    ensures Share(amount, left, middle, duration) + Share(amount, middle, right, duration) ==
            Share(amount, left, right, duration)
  {
  }

  lemma ShareNonNegative(amount: int, left: int, right: int, duration: int)
    requires 0 < duration && 0 <= amount && left <= right
    ensures 0 <= Share(amount, left, right, duration)
  {
    Times(left, right, amount);
    FloorMonotone(amount * left, amount * right, duration);
  }

  lemma ShareWhole(amount: int, duration: int)
    requires 0 < duration
    ensures Share(amount, 0, duration, duration) == amount
  {
    FloorShift(0, amount, duration);
  }

  // ---- portions of a budget ----

  lemma PortionBounds(budget: int, total: int, consumed: int, value: int)
    requires 0 <= budget && 0 <= total && 0 <= value
    ensures 0 <= Portion(budget, total, consumed, value)
    ensures budget <= total ==> Portion(budget, total, consumed, value) <= value
  {
    if total > 0 {
      var low, high := budget * consumed, budget * (consumed + value);
      assert high == low + budget * value;
      Times(0, value, budget);
      FloorMonotone(low, high, total);
      if budget <= total {
        Times(budget, total, value);
        assert high <= low + value * total;
        FloorMonotone(high, low + value * total, total);
        FloorShift(low, value, total);
      }
    }
  }

  /** One portion misses its exact share of the budget by less than one unit. */
  lemma PortionRounding(budget: int, total: int, consumed: int, value: int)
    requires 0 < total
    ensures budget * value - total < total * Portion(budget, total, consumed, value) < budget * value + total
  {
    var low, high := budget * consumed, budget * (consumed + value);
    assert high - low == budget * value;
    Floor(low, total);
    Floor(high, total);
    var p := high / total - low / total;
    assert total * p == high / total * total - low / total * total;
  }

  lemma {:induction false} ApportionPrefix(budget: int, total: int, vals: seq<int>, n: nat)
    requires 0 < total && n <= |vals|
    ensures Prefix(Apportion(budget, total, vals), n) == budget * Prefix(vals, n) / total
  {
    if n > 0 {
      ApportionPrefix(budget, total, vals, n - 1);
      var parts := Apportion(budget, total, vals);
      var before := Prefix(vals, n - 1);
      assert parts[n - 1] == Portion(budget, total, before, vals[n - 1]);
      assert Prefix(parts, n) == Prefix(parts, n - 1) + parts[n - 1];
      assert Prefix(vals, n) == before + vals[n - 1];
    }
  }

  /** The pieces of a budget add up to it exactly when the values add up to the total. */
  lemma ApportionExact(budget: int, total: int, vals: seq<int>)
    requires 0 <= total && Total(vals) == total
    ensures Total(Apportion(budget, total, vals)) == (if total == 0 then 0 else budget)
  {
    if total == 0 {
      AllZero(Apportion(budget, total, vals), |vals|);
    } else {
      ApportionPrefix(budget, total, vals, |vals|);
      FloorShift(0, budget, total);
      assert budget * total == 0 + budget * total;
    }
  }

  lemma {:induction false} AllZero(vals: seq<int>, n: nat)
    requires n <= |vals| && forall i :: 0 <= i < |vals| ==> vals[i] == 0
    ensures Prefix(vals, n) == 0
  {
    if n > 0 {
      AllZero(vals, n - 1);
    }
  }

  lemma {:induction false} PrefixNonNegative(vals: seq<int>, n: nat)
    requires n <= |vals| && NonNegative(vals)
    ensures 0 <= Prefix(vals, n) <= Total(vals)
    decreases |vals| - n
  {
    if n == |vals| {
      TotalNonNegative(vals, n);
    } else {
      PrefixNonNegative(vals, n + 1);
      TotalNonNegative(vals, n);
    }
  }

  lemma {:induction false} TotalNonNegative(vals: seq<int>, n: nat)
    requires n <= |vals| && NonNegative(vals)
    ensures 0 <= Prefix(vals, n)
  {
    if n > 0 {
      TotalNonNegative(vals, n - 1);
    }
  }

  /** Capping keeps min(observed, budget) in all, never raises a value, and leaves a non-negative remainder. */
  lemma CapCorrect(vals: seq<int>, budget: int)
    requires NonNegative(vals) && 0 <= budget
    ensures Total(Capped(vals, budget)) == (if Total(vals) <= budget then Total(vals) else budget)
    ensures forall i :: 0 <= i < |vals| ==> 0 <= Capped(vals, budget)[i] <= vals[i]
    ensures 0 <= budget - Total(Capped(vals, budget))
    ensures (if Total(vals) > budget then Total(vals) - budget else 0) + Total(Capped(vals, budget)) == Total(vals)
  {
    var total := Total(vals);
    if total > budget {
      ApportionExact(budget, total, vals);
      forall i | 0 <= i < |vals|
        ensures 0 <= Capped(vals, budget)[i] <= vals[i]
      {
        PortionBounds(budget, total, Prefix(vals, i), vals[i]);
      }
    }
  }

  // ---- one value served from several budgets ----

  /** What a value receives from a series of budgets, always at the same place of the order. */
  function Received(budgets: seq<int>, total: int, consumed: int, value: int, n: nat): int
    requires n <= |budgets|
  {
    if n == 0 then 0
    else Received(budgets, total, consumed, value, n - 1) + Portion(budgets[n - 1], total, consumed, value)
  }

  lemma {:induction false} ReceivedScaled(budgets: seq<int>, total: int, consumed: int, value: int, n: nat)
    requires 0 < total && n <= |budgets|
    ensures Prefix(budgets, n) * value - n * total <= total * Received(budgets, total, consumed, value, n)
    ensures total * Received(budgets, total, consumed, value, n) <= Prefix(budgets, n) * value + n * total
    ensures n > 0 ==> Prefix(budgets, n) * value - n * total < total * Received(budgets, total, consumed, value, n)
    ensures n > 0 ==> total * Received(budgets, total, consumed, value, n) < Prefix(budgets, n) * value + n * total
  {
    if n > 0 {
      ReceivedScaled(budgets, total, consumed, value, n - 1);
      PortionRounding(budgets[n - 1], total, consumed, value);
      var before := Received(budgets, total, consumed, value, n - 1);
      var part := Portion(budgets[n - 1], total, consumed, value);
      assert total * (before + part) == total * before + total * part;
      assert (Prefix(budgets, n - 1) + budgets[n - 1]) * value == Prefix(budgets, n - 1) * value + budgets[n - 1] * value;
      assert (n - 1) * total == n * total - total;
    }
  }

  /** Budgets that add up to the total give a value back to within their number, and exactly when there is one. */
  lemma ReceivedRounding(budgets: seq<int>, total: int, consumed: int, value: int)
    requires 0 < total && Total(budgets) == total && 0 < |budgets|
    ensures var got := Received(budgets, total, consumed, value, |budgets|);
            value - |budgets| < got < value + |budgets|
  {
    var k := |budgets|;
    ReceivedScaled(budgets, total, consumed, value, k);
    CancelBetween(total, value, k, Received(budgets, total, consumed, value, k));
  }

  lemma CancelBetween(d: int, value: int, k: int, got: int)
    requires 0 < d && d * value - k * d < d * got < d * value + k * d
    ensures value - k < got < value + k
  {
    assert d * (value - k) == d * value - k * d;
    assert d * (value + k) == d * value + k * d;
    Cancel(d, value - k, got);
    Cancel(d, got, value + k);
  }

  lemma Cancel(d: int, a: int, b: int)
    requires 0 < d && d * a < d * b
    ensures a < b
  {
    if b <= a {
      Times(b, a, d);
    }
  }
}
