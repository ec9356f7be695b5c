/** Iteration and folding over any type. */
module Iteration {

  function Iterate<T>(f: T -> T, c: T, n: nat): T
    decreases n
  {
    if n == 0 then c else Iterate(f, f(c), n - 1)
  }

  function FoldBits<T>(clock: (T, bool) -> T, c: T, bits: seq<bool>): T
    decreases |bits|
  {
    if |bits| == 0 then c else FoldBits(clock, clock(c, bits[0]), bits[1..])
  }

  /** The bits that come out at the top of `t` as it moves up. */
  function Tops<T>(top: T -> bool, up: T -> T, t: T, n: nat): (bits: seq<bool>)
    ensures |bits| == n
    decreases n
  {
    if n == 0 then [] else [top(t)] + Tops(top, up, up(t), n - 1)
  }

  /** Clocking in the top bit of a pending value leaves the rest of it pending. */
  ghost predicate Pending<T(!new)>(plus: (T, T) -> T, clock: (T, bool) -> T, step: T -> T, top: T -> bool, up: T -> T) {
    forall a: T, b: T :: clock(plus(a, b), top(b)) == plus(step(a), up(b))
  }

  /** If clocking in the top bit of a pending `t` leaves `up(t)` pending, so does clocking in all of them. */
  lemma {:induction false} ClockTops<T(!new)>(plus: (T, T) -> T, clock: (T, bool) -> T, step: T -> T,
                                              top: T -> bool, up: T -> T, s: T, t: T, n: nat)
    requires Pending(plus, clock, step, top, up)
    ensures FoldBits(clock, plus(s, t), Tops(top, up, t, n)) == plus(Iterate(step, s, n), Iterate(up, t, n))
    decreases n
  {
    if n > 0 {
      ClockTops(plus, clock, step, top, up, step(s), up(t), n - 1);
    }
  }

  /** Rows of eight laid end to end, row 0 first. */
  lemma FlatHead<T(!new)>(byte: T -> seq<bool>, bs: seq<T>, all: seq<bool>, rest: seq<bool>)
    requires |bs| > 0 && (forall b: T :: |byte(b)| == 8)
    requires |all| == 8 * |bs| && |rest| == 8 * |bs| - 8
    requires forall i | 0 <= i < |all| :: all[i] == byte(bs[i / 8])[i % 8]
    requires forall i | 0 <= i < |rest| :: rest[i] == byte(bs[1..][i / 8])[i % 8]
    ensures all == byte(bs[0]) + rest
  {
    forall i | 0 <= i < |all| ensures all[i] == (byte(bs[0]) + rest)[i] {
      if i >= 8 { assert (i - 8) / 8 == i / 8 - 1 && (i - 8) % 8 == i % 8; }
    }
  }

  function Zip<T>(plus: (T, T) -> T, a: seq<T>, b: seq<T>): (c: seq<T>)
    requires |a| == |b|
    ensures |c| == |a|
  {
    if |a| == 0 then [] else [plus(a[0], b[0])] + Zip(plus, a[1..], b[1..])
  }

  /** A table-driven loop over a message, for any addition and any table. */
  function Fold<T>(plus: (T, T) -> T, tab: T -> T, c: T, bs: seq<T>): T
    decreases |bs|
  {
    if |bs| == 0 then c else Fold(plus, tab, tab(plus(c, bs[0])), bs[1..])
  }

  /** Two sums added up in either order, and a function that respects addition. */
  ghost predicate Linear<T(!new)>(plus: (T, T) -> T, tab: T -> T) {
    && (forall a: T, b: T, c: T, d: T :: plus(plus(a, b), plus(c, d)) == plus(plus(a, c), plus(b, d)))
    && (forall a: T, b: T :: tab(plus(a, b)) == plus(tab(a), tab(b)))
  }

  lemma FoldStep<T(!new)>(plus: (T, T) -> T, tab: T -> T, c: T, d: T, a: T, b: T)
    requires Linear(plus, tab)
    ensures tab(plus(plus(c, d), plus(a, b))) == plus(tab(plus(c, a)), tab(plus(d, b)))
  {
  }

  lemma {:induction false} FoldSum<T(!new)>(plus: (T, T) -> T, tab: T -> T, c: T, d: T, a: seq<T>, b: seq<T>)
    requires Linear(plus, tab) && |a| == |b|
    ensures Fold(plus, tab, plus(c, d), Zip(plus, a, b)) == plus(Fold(plus, tab, c, a), Fold(plus, tab, d, b))
    decreases |a|
  {
    if |a| > 0 {
      FoldStep(plus, tab, c, d, a[0], b[0]);
      FoldSum(plus, tab, tab(plus(c, a[0])), tab(plus(d, b[0])), a[1..], b[1..]);
      assert Zip(plus, a, b)[1..] == Zip(plus, a[1..], b[1..]);
    }
  }
}
