/** The kernel's wrapping jiffies counter and its time_before comparison. */
module Clock {

  /** `a` before `b` on a counter of 2 * `half` values: the difference, read as signed, is negative. */
  predicate TimeBefore(a: int, b: int, half: nat)
    requires half > 0
  {
    (a - b) % (2 * half) >= half
  }

  lemma MultipleIsLarge(m: int, k: int)
    requires m > 0 && k != 0
    ensures m * k <= -m || m <= m * k
  {
  }

  lemma ModUnique(x: int, m: int, q: int, r: int)
    requires m > 0 && x == m * q + r && 0 <= r < m
    ensures x % m == r
  {
    var k := x / m - q;
    assert m * k == m * (x / m) - m * q;
    if k != 0 { MultipleIsLarge(m, k); }
  }

  lemma ModPlusMultiple(x: int, m: int, k: int)
    requires m > 0
    ensures (x + m * k) % m == x % m
  {
    var q := x / m;
    assert m * (q + k) == m * q + m * k;
    ModUnique(x + m * k, m, q + k, x % m);
  }

  lemma DivMod(a: int, m: int)
    requires m > 0
    ensures a == m * (a / m) + a % m
  {
  }

  lemma Distribute(m: int, x: int, y: int)
    ensures m * (x - y) == m * x - m * y
  {
  }

  /** Adding on the wrapped counter is wrapping the sum. */
  lemma WrappedSum(now: nat, d: nat, m: nat)
    requires m > 0
    ensures (now % m + d) % m == (now + d) % m
  {
    DivMod(now, m);
    ModPlusMultiple(now % m + d, m, now / m);
  }

  lemma WrappedDifference(a: int, b: int, m: int)
    requires m > 0
    ensures (a % m - b % m) % m == (a - b) % m
  {
    Distribute(m, a / m, b / m);
    DivMod(a, m);
    DivMod(b, m);
    ModPlusMultiple(a % m - b % m, m, a / m - b / m);
  }

  /** time_before agrees with the true order exactly as long as the counter has not run half its
      range past the deadline; for the half range after that it claims the deadline is still ahead. */
  lemma TimeBeforeWindow(now: nat, deadline: nat, half: nat)
    requires half > 0 && deadline <= now + half && now < deadline + 2 * half
    ensures TimeBefore(now % (2 * half), deadline % (2 * half), half)
            <==> now < deadline || now >= deadline + half
  {
    var d, m := now - deadline, 2 * half;
    WrappedDifference(now, deadline, m);
    if d < 0 {
      ModUnique(d, m, -1, d + m);
    } else {
      ModUnique(d, m, 0, d);
    }
  }
}
