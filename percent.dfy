// The completion percentage both progress displays use:
// total > 0 ? Math.round((completed / total) * 100) : 0.

module Percent {

  /** Math.round(n / d) for non-negative integers, computed exactly:
      floor(n / d + 1/2), so that halves round up. */
  function RoundHalfUp(n: nat, d: nat): nat
    requires d > 0
  {
    (2 * n + d) / (2 * d)
  }

  /** The percentage of `completed` out of `total`, 0 when there is nothing
      to complete; never above 100 while completed <= total. */
  function Percent(completed: nat, total: nat): (p: nat)
    ensures total == 0 ==> p == 0
    ensures completed == 0 ==> p == 0
    ensures completed <= total ==> p <= 100
  {
    if total == 0 then 0
    else
      RoundHalfUpBounds(completed, total);
      RoundHalfUp(100 * completed, total)
  }

  /** The rounded percentage of nothing is 0, and of at most everything at
      most 100. */
  lemma RoundHalfUpBounds(completed: nat, total: nat)
    requires total > 0
    ensures completed == 0 ==> RoundHalfUp(100 * completed, total) == 0
    ensures completed <= total ==> RoundHalfUp(100 * completed, total) <= 100
  {
    var a, b := 200 * completed + total, 2 * total;
    var q := a / b;
    assert b * q <= a;
    if completed == 0 {
      DivByBounds(a, b, 0);
    }
    if completed <= total {
      assert a < b * 101;
      ScaleStrict(b, q, 101);
    }
  }

  lemma {:induction false} MulAtLeast(b: nat, k: nat)
    requires k >= 1
    ensures b * k >= b
  {
    if k > 1 {
      MulAtLeast(b, k - 1);
      assert b * k == b * (k - 1) + b;
    }
  }

  /** Multiplying by a positive number keeps strict order, both ways. */
  lemma ScaleStrict(b: int, x: int, y: int)
    requires b > 0
    ensures x < y <==> b * x < b * y
  {
    if x < y {
      MulAtLeast(b, y - x);
      assert b * y == b * x + b * (y - x);
    } else if x > y {
      MulAtLeast(b, x - y);
      assert b * x == b * y + b * (x - y);
    }
  }

  /** Integer division is pinned down by its bounds. */
  lemma DivByBounds(a: int, b: int, q: int)
    requires b > 0 && b * q <= a < b * q + b
    ensures a / b == q
  {
    var r := a / b;
    assert b * r <= a < b * r + b;
    ScaleStrict(b, r, q + 1);
    ScaleStrict(b, q, r + 1);
  }

  /** The percentage is the nearest integer to 100 * completed / total,
      halves going up: |p - 100c/t| <= 1/2, with equality only from below. */
  lemma PercentIsNearest(completed: nat, total: nat)
    requires total > 0
    ensures var p := Percent(completed, total);
      2 * total * p - total <= 200 * completed < 2 * total * p + total
  {
    var p := Percent(completed, total);
    var a, b := 200 * completed + total, 2 * total;
    assert p == a / b;
    assert b * p <= a < b * p + b;
  }

  /** Nothing to complete gives 0%, not a division by zero. */
  lemma PercentOfNothing(completed: nat)
    ensures Percent(completed, 0) == 0
  {
  }

  /** With completed <= total the percentage lies in [0, 100]. It reaches
      100 once completed / total is at least 99.5%, and stays 0 while
      completed / total is below 0.5%: everything and nothing done give
      100 and 0, but so can a nearly full or nearly empty list. */
  lemma PercentRange(completed: nat, total: nat)
    requires total > 0 && completed <= total
    ensures Percent(completed, total) <= 100
    ensures Percent(completed, total) == 100 <==> 199 * total <= 200 * completed
    ensures Percent(completed, total) == 0 <==> 200 * completed < total
    ensures completed == total ==> Percent(completed, total) == 100
    ensures completed == 0 ==> Percent(completed, total) == 0
  {
    var p := Percent(completed, total);
    PercentIsNearest(completed, total);
    ScaleStrict(2 * total, p, 101);
    ScaleStrict(2 * total, 99, p);
    ScaleStrict(2 * total, p, 1);
  }

  /** The range facts for any total, the empty list included. */
  lemma PercentBounded(completed: nat, total: nat)
    requires completed <= total
    ensures Percent(completed, total) <= 100
    ensures completed == 0 ==> Percent(completed, total) == 0
    ensures total > 0 && completed == total ==> Percent(completed, total) == 100
  {
    if total > 0 {
      PercentRange(completed, total);
    }
  }

  /** Checking one more item never lowers the percentage. */
  lemma PercentMonotonic(c1: nat, c2: nat, total: nat)
    requires c1 <= c2
    ensures Percent(c1, total) <= Percent(c2, total)
  {
    if total > 0 {
      var p1, p2 := Percent(c1, total), Percent(c2, total);
      PercentIsNearest(c1, total);
      PercentIsNearest(c2, total);
      ScaleStrict(2 * total, p1, p2 + 1);
    }
  }

  /** Out of five, each completed item is worth exactly 20%. */
  lemma PercentOfFive(completed: nat)
    ensures Percent(completed, 5) == 20 * completed
  {
    DivByBounds(200 * completed + 5, 10, 20 * completed);
  }
}
