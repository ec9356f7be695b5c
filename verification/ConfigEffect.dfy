/** What one config call does, said of the values, rates and flags themselves: who may change a rate, and
    when a duty is stored. */
module ConfigEffect {
  import opened PwmModel

  /** The driver takes the call for what it asks. Otherwise the pin is ignored by PWM and the duty is not
      zero, or motors are being held at zero; then it only stores a zero. */
  predicate Passes(s: State, ch: Channel, duty: int) {
    && !((s.ignoreMask >> ch) & 1 == 1 && duty != 0)
    && !(s.zeroCountdown > 0 && ch < 12)
  }

  lemma HeldBackCall(env: Env, s: State, now: nat, ch: Channel, duty: int, period: Period)
    requires env.Valid() && !Passes(s, ch, duty)
    ensures Step(env, s, Timed(now, ConfigCall(ch, duty, period))) == s.(values := s.values[ch := 0])
  {
  }

  // ---------------------------------------------------------------- the numbers

  /** C division goes toward zero: the quotient of the magnitudes, with the sign of the product. */
  lemma DivisionTruncates(m: int, n: int)
    requires m >= 0 && n > 0
    ensures CDiv(m, n) == m / n && CDiv(-m, -n) == m / n
    ensures CDiv(-m, n) == -(m / n) && CDiv(m, -n) == -(m / n)
  {
    if m == 0 { assert m / n == 0; }
  }

  /** Rate in hertz and duty in microseconds, both cut to sixteen bits. */
  lemma RateAndDuty(duty: int, period: Period)
    ensures FrequencyOf(period) == CDiv(1_000_000_000, period) % 65536 && DutyOf(duty) == CDiv(duty, 1000) % 65536
  {
  }

  // ---------------------------------------------------------------- groups

  predicate GroupStands(s: State, g: nat)
    requires g < TIMER_COUNT
  {
    s.values[4 * g] == 0 && s.values[4 * g + 1] == 0 && s.values[4 * g + 2] == 0 && s.values[4 * g + 3] == 0
  }

  /** Newer firmware, the whole effect of a call that passes. A new rate for the group is requested exactly if
      it differs from the cached one and the call is the control pin's or the whole group stands still; the
      duty is stored exactly if the call's rate is the cached one. */
  lemma GroupConfig(env: Env, s: State, now: nat, ch: Channel, duty: int, period: Period, g: nat, f: u16)
    requires env.Valid() && env.adv && Passes(s, ch, duty) && g == ch / 4 && f == FrequencyOf(period)
    ensures var t := Step(env, s, Timed(now, ConfigCall(ch, duty, period)));
            var asks := s.frequencies[g] != f && (ch == 4 * g || GroupStands(s, g));
            t == s.(values := s.values[ch := if s.frequencies[g] == f then DutyOf(duty) else 0],
                    newFrequencies := if asks then s.newFrequencies[g := f] else s.newFrequencies,
                    updateRequired := if asks then s.updateRequired[g := true] else s.updateRequired,
                    armTimeout := (now + env.hz / 10) % (2 * env.half), log := s.log + [Accepted(now)])
  {
    Standing(s, g);
  }

  lemma Standing(s: State, g: nat)
    requires g < TIMER_COUNT
    ensures GroupStands(s, g) <==> forall i | 4 * g <= i < 4 * g + 4 :: s.values[i] == 0
  {
  }

  /** A pin that is not the control pin cannot change the rate under a running motor of its group. */
  lemma RunningGroupKeepsRate(env: Env, s: State, now: nat, ch: Channel, duty: int, period: Period, i: nat)
    requires env.Valid() && env.adv && Passes(s, ch, duty) && ch % 4 != 0
    requires i < MAX_CHANNELS && i / 4 == ch / 4 && s.values[i] != 0
    ensures var t := Step(env, s, Timed(now, ConfigCall(ch, duty, period)));
            t.newFrequencies == s.newFrequencies && t.updateRequired == s.updateRequired && t.frequencies == s.frequencies
  {
    GroupConfig(env, s, now, ch, duty, period, ch / 4, FrequencyOf(period));
    assert !GroupStands(s, ch / 4);
  }

  // ---------------------------------------------------------------- banks

  /** Older firmware, the whole effect: pins 0 and 4 speak for channels 0 to 7, pins 8 and 12 for the rest, and
      only with a duty; the duty is stored exactly if the call's rate is the wanted one afterwards. */
  lemma LowBankConfig(env: Env, s: State, now: nat, ch: Channel, duty: int, period: Period, f: u16)
    requires env.Valid() && !env.adv && Passes(s, ch, duty) && ch < 8 && f == FrequencyOf(period)
    ensures var t := Step(env, s, Timed(now, ConfigCall(ch, duty, period)));
            var asks := s.altFrequency != f && duty != 0 && (ch == 0 || ch == 4);
            t == s.(values := s.values[ch := if asks || s.altFrequency == f then DutyOf(duty) else 0],
                    altFrequency := if asks then f else s.altFrequency, altUpdated := s.altUpdated || asks,
                    armTimeout := (now + env.hz / 10) % (2 * env.half), log := s.log + [Accepted(now)])
  {
  }

  lemma HighBankConfig(env: Env, s: State, now: nat, ch: Channel, duty: int, period: Period, f: u16)
    requires env.Valid() && !env.adv && Passes(s, ch, duty) && ch >= 8 && f == FrequencyOf(period)
    ensures var t := Step(env, s, Timed(now, ConfigCall(ch, duty, period)));
            var asks := s.defaultFrequency != f && duty != 0 && (ch == 8 || ch == 12);
            t == s.(values := s.values[ch := if asks || s.defaultFrequency == f then DutyOf(duty) else 0],
                    defaultFrequency := if asks then f else s.defaultFrequency, defaultUpdated := s.defaultUpdated || asks,
                    armTimeout := (now + env.hz / 10) % (2 * env.half), log := s.log + [Accepted(now)])
  {
  }

  // ---------------------------------------------------------------- who changes a rate, over runs

  /** A call entitled to change the rate of group `g`: its control pin's, or one of its pins' while all four
      stand still. */
  predicate MayChangeGroup(adv: bool, s: State, e: Event, g: nat)
    requires g < TIMER_COUNT
  {
    adv && e.ConfigCall? && e.ch / 4 == g && (e.ch == 4 * g || GroupStands(s, g))
  }

  /** A call entitled to change the rate of channels 0 to 7, or of 8 to 15. */
  predicate MayChangeBank(adv: bool, e: Event, low: bool) {
    !adv && e.ConfigCall? && e.duty != 0 && if low then e.ch == 0 || e.ch == 4 else e.ch == 8 || e.ch == 12
  }

  lemma CallChangesRates(env: Env, s: State, e: Timed, g: nat)
    requires env.Valid() && g < TIMER_COUNT && e.event.ConfigCall?
    ensures var t := Step(env, s, e);
            && (t.newFrequencies[g] != s.newFrequencies[g] ==> MayChangeGroup(env.adv, s, e.event, g))
            && (t.altFrequency != s.altFrequency ==> MayChangeBank(env.adv, e.event, true))
            && (t.defaultFrequency != s.defaultFrequency ==> MayChangeBank(env.adv, e.event, false))
  {
    var ch, duty, period := e.event.ch, e.event.duty, e.event.period;
    if !Passes(s, ch, duty) {
      HeldBackCall(env, s, e.now, ch, duty, period);
    } else if env.adv {
      GroupConfig(env, s, e.now, ch, duty, period, ch / 4, FrequencyOf(period));
    } else if ch < 8 {
      LowBankConfig(env, s, e.now, ch, duty, period, FrequencyOf(period));
    } else {
      HighBankConfig(env, s, e.now, ch, duty, period, FrequencyOf(period));
    }
  }

  lemma TickKeepsRequests(env: Env, s: State, now: nat)
    requires env.Valid()
    ensures var t := Tick(env, s, now);
            && t.newFrequencies == s.newFrequencies && t.altFrequency == s.altFrequency
            && t.defaultFrequency == s.defaultFrequency
  {
    TickEffect(env, s, now);
  }

  lemma ForceZeroKeepsRequests(env: Env, s: State, s1: State, now: nat)
    requires env.Valid() && s1 == s.(zeroCountdown := s1.zeroCountdown)
    ensures var t := Tick(env, s1, now);
            && t.newFrequencies == s.newFrequencies && t.altFrequency == s.altFrequency
            && t.defaultFrequency == s.defaultFrequency
  {
    TickKeepsRequests(env, s1, now);
  }

  lemma OnlyEntitledCallsChangeRates(env: Env, s: State, e: Timed, g: nat)
    requires env.Valid() && g < TIMER_COUNT
    ensures var t := Step(env, s, e);
            && (t.newFrequencies[g] != s.newFrequencies[g] ==> MayChangeGroup(env.adv, s, e.event, g))
            && (t.altFrequency != s.altFrequency ==> MayChangeBank(env.adv, e.event, true))
            && (t.defaultFrequency != s.defaultFrequency ==> MayChangeBank(env.adv, e.event, false))
  {
    match e.event
    case ConfigCall(_, _, _) => CallChangesRates(env, s, e, g);
    case WorkerTick => TickKeepsRequests(env, s, e.now);
    case ForceZeroCall =>
      ForceZeroKeepsRequests(env, s, s.(zeroCountdown := s.zeroCountdown + ZERO_SKIP_UPDATE_CYCLES), e.now);
    case _ =>
  }

  /** Some call of the run was entitled to change the rate, in the state it met. */
  ghost predicate SomeoneMayChange(env: Env, s: State, h: seq<Timed>, g: nat)
    requires env.Valid() && g < TIMER_COUNT
    decreases |h|
  {
    |h| > 0 && (MayChangeGroup(env.adv, s, h[0].event, g) || SomeoneMayChange(env, Step(env, s, h[0]), h[1..], g))
  }

  /** Over any run the wanted rate of a group changes only if such a call was made, and a bank's only if one of
      its two control pins was configured with a duty. */
  lemma {:induction false} RatesChangeOnlyByEntitledCalls(env: Env, s: State, h: seq<Timed>, g: nat)
    requires env.Valid() && g < TIMER_COUNT
    ensures var t := Run(env, s, h);
            && (t.newFrequencies[g] != s.newFrequencies[g] ==> SomeoneMayChange(env, s, h, g))
            && (t.altFrequency != s.altFrequency ==> exists e :: e in h && MayChangeBank(env.adv, e.event, true))
            && (t.defaultFrequency != s.defaultFrequency ==> exists e :: e in h && MayChangeBank(env.adv, e.event, false))
    decreases |h|
  {
    if |h| > 0 {
      OnlyEntitledCallsChangeRates(env, s, h[0], g);
      RatesChangeOnlyByEntitledCalls(env, Step(env, s, h[0]), h[1..], g);
      assert h[0] in h;
    }
  }
}
