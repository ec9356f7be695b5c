/** What one armed tick does, said of the flags, the log and the register numbers themselves: which rate goes
    first, and that a rate is all it touches. */
module TickOrder {
  import opened PwmModel
  import opened RateProgress

  /** A tick that may write: its clock is before the deadline. */
  ghost predicate Ready(env: Env, s: State, now: nat) {
    env.Valid() && Armed(env, s, now)
  }

  // ---------------------------------------------------------------- banks

  /** Older firmware. The first armed tick that sees a flag clears all outputs; the next serves the alt rate
      if its flag is up, and only then the default rate; each drops its own flag and nothing else. */
  lemma BankTick(env: Env, s: State, now: nat)
    requires Ready(env, s, now) && !env.adv
    ensures var t := Tick(env, s, now);
            && (!s.noticed && (s.altUpdated || s.defaultUpdated) ==>
                  t == s.(armed := true, noticed := true,
                          log := s.log + [Wrote(now, RegWrite(54, 0, [0, 0, 0, 0, 0, 0, 0, 0, 0, 0, 0, 0, 0, 0, 0, 0]))]))
            && (s.noticed && s.altUpdated ==>
                  t == s.(armed := true, altUpdated := false,
                          log := s.log + [Wrote(now, RegWrite(50, 4, [s.altFrequency]))]))
            && (s.noticed && !s.altUpdated && s.defaultUpdated ==>
                  t == s.(armed := true, defaultUpdated := false,
                          log := s.log + [Wrote(now, RegWrite(50, 3, [s.defaultFrequency]))]))
  {
  }

  /** The default rate is programmed only while no alt rate waits. */
  lemma DefaultWaitsForAlt(env: Env, s: State, now: nat, w: Entry)
    requires env.Valid() && !env.adv && Tick(env, s, now).log == s.log + [w]
    requires Covers(w, 50, 3)
    ensures s.noticed && !s.altUpdated && s.defaultUpdated && w == Wrote(now, RegWrite(50, 3, [s.defaultFrequency]))
  {
    assert w == Tick(env, s, now).log[|s.log|];
  }

  // ---------------------------------------------------------------- groups

  /** Newer firmware: the same with four rates at registers 26 to 29, the least flagged group first. */
  lemma GroupTick(env: Env, s: State, now: nat, g: nat)
    requires Ready(env, s, now) && env.adv
    requires g < TIMER_COUNT && s.updateRequired[g] && forall k | 0 <= k < g :: !s.updateRequired[k]
    ensures var t := Tick(env, s, now);
            t == if s.noticed then
                   s.(armed := true, frequencies := s.frequencies[g := s.newFrequencies[g]],
                      updateRequired := s.updateRequired[g := false],
                      log := s.log + [Wrote(now, RegWrite(50, 26 + g, [s.newFrequencies[g]]))])
                 else
                   s.(armed := true, noticed := true,
                      log := s.log + [Wrote(now, RegWrite(54, 0, [0, 0, 0, 0, 0, 0, 0, 0, 0, 0, 0, 0, 0, 0, 0, 0]))])
  {
    assert s.updateRequired[g] in s.updateRequired;
    LeastIsFirst(s, 0, g);
  }

  lemma {:induction false} LeastIsFirst(s: State, k: nat, g: nat)
    requires k <= g < TIMER_COUNT && s.updateRequired[g]
    requires forall j | k <= j < g :: !s.updateRequired[j]
    ensures |WaitingGroups(s, k)| > 0 && WaitingGroups(s, k)[0] == Group(g)
    decreases g - k
  {
    if k < g { LeastIsFirst(s, k + 1, g); }
  }

  // ---------------------------------------------------------------- nothing to program

  /** With no flag up a tick ends the change: it counts the forced zeroing down, holds channels 0 to 11 at
      zero while that runs and leaves 12 to 15 alone, and if armed sends all sixteen values. */
  lemma QuietTick(env: Env, s: State, now: nat)
    requires env.Valid() && !s.altUpdated && !s.defaultUpdated && forall g | 0 <= g < TIMER_COUNT :: !s.updateRequired[g]
    ensures var t := Tick(env, s, now);
            && (forall i: nat | i < MAX_CHANNELS ::
                  t.values[i] == if s.zeroCountdown > 0 && i < 12 then 0 else s.values[i])
            && t == s.(armed := Armed(env, s, now), noticed := false, values := t.values, log := t.log,
                       zeroCountdown := if s.zeroCountdown > 0 then s.zeroCountdown - 1 else 0)
            && t.log == if Armed(env, s, now) then s.log + [Wrote(now, RegWrite(54, 0, t.values))] else s.log
  {
    WaitingInRange(env.adv, s, 0);
  }

  /** An unarmed tick writes nothing and leaves every request waiting; forced zeroing goes on. */
  lemma UnarmedTick(env: Env, s: State, now: nat)
    requires env.Valid() && !Armed(env, s, now)
    ensures var t := Tick(env, s, now);
            && (forall i: nat | i < MAX_CHANNELS ::
                  t.values[i] == if s.zeroCountdown > 0 && i < 12 then 0 else s.values[i])
            && t == s.(armed := false, noticed := false, values := t.values,
                       zeroCountdown := if s.zeroCountdown > 0 then s.zeroCountdown - 1 else 0)
  {
  }

  // ---------------------------------------------------------------- calls and the next tick

  /** A call for forced zero is a tick at once, after fifty more ticks of zeroing were granted. */
  lemma ForceZeroIsTick(env: Env, s: State, now: nat)
    requires env.Valid()
    ensures Step(env, s, Timed(now, ForceZeroCall)) ==
            Step(env, s.(zeroCountdown := s.zeroCountdown + 50), Timed(now, WorkerTick))
  {
  }

  lemma EnableEffect(env: Env, s: State, now: nat)
    requires env.Valid()
    ensures Step(env, s, Timed(now, EnableCall)) == s.(armed := true)
  {
  }

  lemma EnableKeepsKind(env: Env, s: State, e: State, now: nat)
    requires env.Valid() && e == s.(armed := true)
    ensures KindOfTick(env, e, now) == KindOfTick(env, s, now)
  {
  }

  /** The next tick decides anew whether to arm: whether a channel was enabled makes no difference to it. */
  lemma EnableIsForgotten(env: Env, s: State, e: State, now: nat)
    requires env.Valid() && e == s.(armed := true)
    ensures Tick(env, e, now) == Tick(env, s, now)
  {
    EnableKeepsKind(env, s, e, now);
  }

  // ---------------------------------------------------------------- whole changes

  /** Both banks waiting: exactly four armed ticks send a clear, the alt rate, the default rate and the values. */
  lemma BothBanksInOrder(env: Env, s: State, t0: nat, t1: nat, t2: nat, t3: nat)
    requires Ready(env, s, t0) && Ready(env, s, t1) && Ready(env, s, t2) && Ready(env, s, t3) && !env.adv
    requires !s.noticed && s.altUpdated && s.defaultUpdated && forall g | 0 <= g < TIMER_COUNT :: !s.updateRequired[g]
    ensures var t := Tick(env, Tick(env, Tick(env, Tick(env, s, t0), t1), t2), t3);
            && t.log == s.log
                        + [Wrote(t0, RegWrite(54, 0, [0, 0, 0, 0, 0, 0, 0, 0, 0, 0, 0, 0, 0, 0, 0, 0]))]
                        + [Wrote(t1, RegWrite(50, 4, [s.altFrequency]))]
                        + [Wrote(t2, RegWrite(50, 3, [s.defaultFrequency]))]
                        + [Wrote(t3, RegWrite(54, 0, t.values))]
            && forall i: nat | i < MAX_CHANNELS ::
                 t.values[i] == if s.zeroCountdown > 0 && i < 12 then 0 else s.values[i]
  {
    var s1 := Tick(env, s, t0);
    BankTick(env, s, t0);
    var s2 := Tick(env, s1, t1);
    BankTick(env, s1, t1);
    var s3 := Tick(env, s2, t2);
    BankTick(env, s2, t2);
    QuietTick(env, s3, t3);
  }

  /** The rate writes of groups: one for each flag in `flags` from `k` on, in increasing order. */
  function GroupWrites(flags: seq<bool>, rates: seq<u16>, k: nat): (ws: seq<RegWrite>)
    requires |flags| == |rates| == TIMER_COUNT && k <= TIMER_COUNT
    decreases TIMER_COUNT - k
  {
    if k == TIMER_COUNT then []
    else (if flags[k] then [RegWrite(50, 26 + k, [rates[k]])] else []) + GroupWrites(flags, rates, k + 1)
  }

  lemma {:induction false} ScheduledGroups(s: State, k: nat)
    requires k <= TIMER_COUNT
    requires forall r | r in WaitingGroups(s, k) :: r.Group? ==> r.g < TIMER_COUNT
    ensures RatesThenValues(s, WaitingGroups(s, k)) ==
            GroupWrites(s.updateRequired, s.newFrequencies, k) + [Outputs(FinalValues(s))]
    decreases TIMER_COUNT - k
  {
    if k < TIMER_COUNT {
      WaitingInRange(true, s, k + 1);
      ScheduledGroups(s, k + 1);
      if s.updateRequired[k] {
        GroupGoesFirst(s, k, WaitingGroups(s, k + 1));
        Regroup(RegWrite(50, 26 + k, [s.newFrequencies[k]]), GroupWrites(s.updateRequired, s.newFrequencies, k + 1),
                [Outputs(FinalValues(s))]);
      } else {
        assert WaitingGroups(s, k) == WaitingGroups(s, k + 1);
      }
    }
  }

  lemma Regroup(w: RegWrite, ws: seq<RegWrite>, last: seq<RegWrite>)
    ensures [w] + (ws + last) == ([w] + ws) + last
  {
  }

  lemma GroupGoesFirst(s: State, k: nat, rest: seq<RateRegister>)
    requires k < TIMER_COUNT && forall r | r in rest :: r.Group? ==> r.g < TIMER_COUNT
    ensures RatesThenValues(s, [Group(k)] + rest) ==
            [RegWrite(50, 26 + k, [s.newFrequencies[k]])] + RatesThenValues(s, rest)
  {
    assert ([Group(k)] + rest)[1..] == rest;
  }

  /** Any set of groups waiting: the armed ticks send a clear, one write for each flagged group in order, and
      the values. */
  lemma GroupsInOrder(env: Env, s: State, times: seq<nat>)
    requires env.Valid() && env.adv && AllArmed(env, s, times) && !s.noticed && !s.altUpdated && !s.defaultUpdated
    requires true in s.updateRequired
    requires |times| == |GroupWrites(s.updateRequired, s.newFrequencies, 0)| + 2
    ensures var t := Ticks(env, s, times);
            && t.log == s.log + Stamped(times, [RegWrite(54, 0, [0, 0, 0, 0, 0, 0, 0, 0, 0, 0, 0, 0, 0, 0, 0, 0])]
                                               + GroupWrites(s.updateRequired, s.newFrequencies, 0)
                                               + [RegWrite(54, 0, t.values)])
  {
    WaitingIffPending(true, s);
    WaitingInRange(true, s, 0);
    ScheduledGroups(s, 0);
    LengthOfSchedule(s, WaitingGroups(s, 0));
    PendingRatesReachDevice(env, s, times);
    var ws := GroupWrites(s.updateRequired, s.newFrequencies, 0);
    assert Schedule(true, s) == [CLEAR_OUTPUTS] + (ws + [Outputs(FinalValues(s))]);
    assert [CLEAR_OUTPUTS] + (ws + [Outputs(FinalValues(s))]) == [CLEAR_OUTPUTS] + ws + [Outputs(FinalValues(s))];
  }

  lemma LengthOfSchedule(s: State, w: seq<RateRegister>)
    requires forall r | r in w :: r.Group? ==> r.g < TIMER_COUNT
    ensures |RatesThenValues(s, w)| == |w| + 1
  {
  }
}
