/** Doubling waits with a cap, as both the poll errors and the Telegram sender use them
    (app/services/monitoring_service.py:157-162, app/notifications/sender.py:65-70). */
module Backoff {
  import opened AuctionTypes

  function Power2(n: nat): int { if n == 0 then 1 else 2 * Power2(n - 1) }

  /** `min(base * 2 ** (count - 1), cap)` for the `count`-th attempt. */
  function Wait(count: int, base: int, cap: int): int {
    Min(base * Power2(if count < 1 then 0 else count - 1), cap)
  }

  /** The first `n` waits, added up. */
  function TotalWait(n: nat, base: int, cap: int): int {
    if n == 0 then 0 else TotalWait(n - 1, base, cap) + Wait(n, base, cap)
  }

  lemma {:induction false} Power2Monotone(m: nat, n: nat)
    requires m <= n
    ensures 1 <= Power2(m) <= Power2(n)
  {
    if n > 0 {
      Power2Monotone(if m < n then m else n - 1, n - 1);
    }
  }

  lemma ScaleUp(b: int, x: int, y: int)
    requires 0 <= b && 0 <= x <= y
    ensures 0 <= b * x <= b * y
  {
  }

  /** A wait never shrinks as the count grows, and never exceeds the cap. */
  lemma WaitGrowsToCap(m: int, n: int, base: int, cap: int)
    requires m <= n && 0 <= base && 0 <= cap
    ensures 0 <= Wait(m, base, cap) <= Wait(n, base, cap) <= cap
  {
    var x, y := if m < 1 then 0 else m - 1, if n < 1 then 0 else n - 1;
    Power2Monotone(x, y);
    ScaleUp(base, Power2(x), Power2(y));
  }

  /** Each wait is twice the one before it, up to the cap. */
  lemma WaitDoubles(n: nat, base: int, cap: int)
    requires 0 <= base && 0 <= cap
    ensures Wait(1, base, cap) == if base < cap then base else cap
    ensures
      var wait := Wait(n + 1, base, cap);
      Wait(n + 2, base, cap) == if 2 * wait < cap then 2 * wait else cap
  {
    Power2Monotone(0, n);
    ScaleUp(base, 0, Power2(n));
    assert base * Power2(n + 1) == 2 * (base * Power2(n));
  }

  /** While no wait is capped, `n` waits take `base * (2^n - 1)`. */
  lemma {:induction false} TotalWaitUncapped(n: nat, base: int, cap: int)
    requires 0 <= base && (n > 0 ==> base * Power2(n - 1) <= cap)
    ensures TotalWait(n, base, cap) == base * (Power2(n) - 1)
  {
    if n > 0 {
      if n > 1 {
        Power2Monotone(n - 2, n - 1);
        ScaleUp(base, Power2(n - 2), Power2(n - 1));
      }
      TotalWaitUncapped(n - 1, base, cap);
      assert base * (Power2(n) - 1) == base * (Power2(n - 1) - 1) + base * Power2(n - 1);
    }
  }
}
