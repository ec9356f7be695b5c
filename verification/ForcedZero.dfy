/** The forced-zero window: for how many ticks motors are held at zero after a call. */
module ForcedZero {
  import opened PwmModel
  import opened ClearBeforeRate
  import RateProgress

  predicate IsTick(e: Timed) {
    e.event.WorkerTick? || e.event.ForceZeroCall?
  }

  /** A tick, that of a forced-zero call included, that does not return early on a rate change.
      Unarmed ticks count. */
  predicate Completes(env: Env, s: State, e: Timed)
    requires env.Valid()
  {
    IsTick(e) && KindOfTick(env, s, e.now).Finishes?
  }

  /** Completed ticks of a run. */
  function Spent(env: Env, s: State, h: seq<Timed>): nat
    requires env.Valid()
    decreases |h|
  {
    if |h| == 0 then 0
    else (if Completes(env, s, h[0]) then 1 else 0) + Spent(env, Step(env, s, h[0]), h[1..])
  }

  /** Forced-zero calls of a run. */
  function Calls(h: seq<Timed>): nat {
    if |h| == 0 then 0 else (if h[0].event.ForceZeroCall? then 1 else 0) + Calls(h[1..])
  }

  function Budget(s: State, h: seq<Timed>): int {
    s.zeroCountdown + 50 * Calls(h)
  }

  lemma StepCountdown(env: Env, s: State, e: Timed)
    requires env.Valid() && s.zeroCountdown >= 0
    ensures var before := s.zeroCountdown + if e.event.ForceZeroCall? then 50 else 0;
            Step(env, s, e).zeroCountdown == if Completes(env, s, e) && before > 0 then before - 1 else before
  {
    match e.event
    case ForceZeroCall => CallCountdown(env, s, e.now);
    case WorkerTick => TickCountdown(env, s, e.now);
    case _ =>
  }

  lemma CallCountdown(env: Env, s: State, now: nat)
    requires env.Valid() && s.zeroCountdown >= 0
    ensures ForceZero(env, s, now).zeroCountdown ==
            s.zeroCountdown + 50 - if KindOfTick(env, s, now).Finishes? then 1 else 0
  {
    var s1 := s.(zeroCountdown := s.zeroCountdown + ZERO_SKIP_UPDATE_CYCLES);
    SameKind(env, s, s1, now);
    TickCountdown(env, s1, now);
  }

  lemma SameKind(env: Env, s: State, s1: State, now: nat)
    requires env.Valid() && s1 == s.(zeroCountdown := s1.zeroCountdown)
    ensures KindOfTick(env, s1, now) == KindOfTick(env, s, now)
  {
    RateProgress.SameTail(s, s1, 0);
  }

  lemma TickCountdown(env: Env, s: State, now: nat)
    requires env.Valid() && s.zeroCountdown >= 0
    ensures Tick(env, s, now).zeroCountdown ==
            if KindOfTick(env, s, now).Finishes? && s.zeroCountdown > 0 then s.zeroCountdown - 1 else s.zeroCountdown
  {
    match KindOfTick(env, s, now)
    case Clears =>
    case Programs(r) =>
    case Finishes =>
  }

  /** The countdown is never negative. */
  lemma {:induction false} NeverNegative(env: Env, s: State, h: seq<Timed>)
    requires env.Valid() && s.zeroCountdown >= 0
    ensures Run(env, s, h).zeroCountdown >= 0
    decreases |h|
  {
    if |h| > 0 {
      StepCountdown(env, s, h[0]);
      NeverNegative(env, Step(env, s, h[0]), h[1..]);
    }
  }

  /** As long as no prefix of a run has spent more completed ticks than were granted, the countdown is
      what was granted and is not yet spent: each call grants 50, each completed tick spends one. */
  lemma {:induction false} CountdownConserved(env: Env, s: State, h: seq<Timed>)
    requires env.Valid() && s.zeroCountdown >= 0
    requires forall n | 0 <= n <= |h| :: Spent(env, s, h[..n]) <= Budget(s, h[..n])
    ensures Run(env, s, h).zeroCountdown == Budget(s, h) - Spent(env, s, h)
    decreases |h|
  {
    if |h| > 0 {
      var s1, t := Step(env, s, h[0]), h[1..];
      StepCountdown(env, s, h[0]);
      assert h[..1][0] == h[0] && h[..1][1..] == [];
      assert Spent(env, s, h[..1]) <= Budget(s, h[..1]);
      assert Calls(h[..1]) == if h[0].event.ForceZeroCall? then 1 else 0;
      forall n | 0 <= n <= |t| ensures Spent(env, s1, t[..n]) <= Budget(s1, t[..n]) {
        assert h[..n + 1][0] == h[0] && h[..n + 1][1..] == t[..n];
        assert Spent(env, s, h[..n + 1]) <= Budget(s, h[..n + 1]);
      }
      CountdownConserved(env, s1, t);
    }
  }

  /** Whatever the step from `s` to `t` writes to the output page is the whole page, and zero on `ch`. */
  ghost predicate WritesZero(s: State, t: State, ch: Channel) {
    || t.log == s.log
    || exists w: Entry ::
         t.log == s.log + [w]
         && (ToOutputs(w) ==> w.write.offset == 0 && |w.write.regs| == MAX_CHANNELS && w.write.regs[ch] == 0)
  }

  /** While the countdown runs, a config of a motor channel stores zero and changes nothing else, and
      ticks write zero to it. */
  ghost predicate HeldAtZero(env: Env, s: State, e: Timed, ch: Channel)
    requires env.Valid()
  {
    && (e.event.ConfigCall? && e.event.ch == ch ==> Step(env, s, e) == s.(values := s.values[ch := 0]))
    && (IsTick(e) ==> WritesZero(s, Step(env, s, e), ch))
  }

  lemma TickWritesZero(env: Env, s: State, now: nat, ch: Channel)
    requires env.Valid() && s.zeroCountdown > 0 && ch < 12
    ensures WritesZero(s, Tick(env, s, now), ch)
  {
  }

  lemma CountdownHoldsMotors(env: Env, s: State, e: Timed, ch: Channel)
    requires env.Valid() && s.zeroCountdown > 0 && ch < 12
    ensures HeldAtZero(env, s, e, ch)
  {
    if e.event.WorkerTick? {
      TickWritesZero(env, s, e.now, ch);
    } else if e.event.ForceZeroCall? {
      CallWritesZero(env, s, e.now, ch);
    }
  }

  lemma CallWritesZero(env: Env, s: State, now: nat, ch: Channel)
    requires env.Valid() && s.zeroCountdown >= 0 && ch < 12
    ensures WritesZero(s, ForceZero(env, s, now), ch)
  {
    TickWritesZero(env, s.(zeroCountdown := s.zeroCountdown + ZERO_SKIP_UPDATE_CYCLES), now, ch);
  }

  /** What a step may do in a state with `left` granted ticks: motors are held at zero while there are
      any, and no longer: once the last one is spent a config call of a motor channel is not held back. A
      call for forced zero writes no motor value whether it finds ticks left or opens the window. */
  ghost predicate WindowOf(env: Env, s: State, left: int, e: Timed, ch: Channel)
    requires env.Valid()
  {
    && (left > 0 ==> HeldAtZero(env, s, e, ch))
    && (e.event.ForceZeroCall? ==> WritesZero(s, Step(env, s, e), ch))
    && (left == 0 ==> forall duty: int :: Gated(s, ch, duty) <==> Ignored(s.ignoreMask, ch) && duty != 0)
  }

  lemma CountdownIsWindow(env: Env, s: State, e: Timed, ch: Channel)
    requires env.Valid() && s.zeroCountdown >= 0 && ch < 12
    ensures WindowOf(env, s, s.zeroCountdown, e, ch)
  {
    if s.zeroCountdown > 0 {
      CountdownHoldsMotors(env, s, e, ch);
    } else if e.event.ForceZeroCall? {
      CallWritesZero(env, s, e.now, ch);
    }
  }

  /** After any run inside the window the window has exactly the ticks left that were granted and not spent. */
  lemma WindowHoldsMotorsAtZero(env: Env, s: State, h: seq<Timed>, e: Timed, ch: Channel)
    requires env.Valid() && s.zeroCountdown >= 0 && ch < 12
    requires forall n | 0 <= n <= |h| :: Spent(env, s, h[..n]) <= Budget(s, h[..n])
    ensures WindowOf(env, Run(env, s, h), Budget(s, h) - Spent(env, s, h), e, ch)
  {
    CountdownConserved(env, s, h);
    assert h[..|h|] == h;
    CountdownIsWindow(env, Run(env, s, h), e, ch);
  }
}
