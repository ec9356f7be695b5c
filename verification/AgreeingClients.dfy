/** When clients agree on one rate per timer (or bank) the condition of FrameFit always holds. */
module AgreeingClients {
  import opened PwmModel
  import opened PwmProbe
  import opened ClearBeforeRate
  import opened RateAgreement
  import opened RateProgress
  import opened FrameFit

  /** The rate the clients of each rate register have agreed on. */
  type Rates = RateRegister -> u16

  /** Arguments the PWM core lets through, at the agreed rate. */
  ghost predicate Agreed(adv: bool, e: Timed, rates: Rates) {
    e.event.ConfigCall? ==>
      && 0 <= e.event.duty <= e.event.period
      && FrequencyOf(e.event.period) == rates(Governs(adv, e.event.ch))
  }

  /** A rate is still the initial one or the agreed one, and whoever has a value stored it at the agreed rate. */
  ghost predicate Settles(adv: bool, s: State, rates: Rates, ch: Channel) {
    var r := Governs(adv, ch);
    && (Requested(s, r) == rates(r) || (Requested(s, r) == 50 && CachedRate(s, r) == 50))
    && (CachedRate(s, r) == rates(r) ==> Requested(s, r) == rates(r))
    && (s.values[ch] == 0 || (CachedRate(s, r) == rates(r) && Pulse(s.values[ch], rates(r))))
  }

  ghost predicate AllSettle(adv: bool, s: State, rates: Rates) {
    forall ch: Channel :: Settles(adv, s, rates, ch)
  }

  lemma MulMono(a: nat, b: nat, c: nat, d: nat)
    requires a <= b && c <= d
    ensures a * c <= b * d
  {
  }

  /** A duty within its period gives a pulse within its frame; truncation to u16 only shortens it. */
  lemma DutyWithinPeriod(duty: int, period: Period)
    requires 0 <= duty <= period
    ensures Pulse(DutyOf(duty), FrequencyOf(period))
  {
    var d, q := duty / 1000, NS_PER_SECOND / period;
    MulMono(DutyOf(duty), d, FrequencyOf(period), q);
    assert period * q <= NS_PER_SECOND;
    MulMono(1000 * d, period, q, q);
    assert 1000 * d * q == 1000 * (d * q);
  }

  lemma AgreedConfigFits(adv: bool, s: State, e: Timed, rates: Rates)
    requires AllSettle(adv, s, rates) && Agreed(adv, e, rates) && e.event.ConfigCall?
    ensures ConfigFits(adv, s, e.event.ch, e.event.duty, e.event.period)
  {
    var ch, r := e.event.ch, Governs(adv, e.event.ch);
    assert Settles(adv, s, rates, ch);
    DutyWithinPeriod(e.event.duty, e.event.period);
    forall i: Channel | RequestsRate(adv, s, ch, e.event.duty, rates(r)) && i != ch && Governs(adv, i) == r
      ensures Pulse(FinalValues(s)[i], rates(r))
    {
      assert Settles(adv, s, rates, i);
    }
  }

  lemma ReconfigureSettles(adv: bool, s: State, rates: Rates, ch: Channel, duty: int, period: Period)
    requires AllSettle(adv, s, rates) && 0 <= duty <= period
    requires FrequencyOf(period) == rates(Governs(adv, ch))
    ensures AllSettle(adv, Reconfigure(adv, s, ch, duty, FrequencyOf(period)), rates)
  {
    DutyWithinPeriod(duty, period);
    forall i: Channel ensures Settles(adv, Reconfigure(adv, s, ch, duty, FrequencyOf(period)), rates, i) {
      assert Settles(adv, s, rates, ch) && Settles(adv, s, rates, i);
    }
  }

  /** Values may go to zero and a cached rate may take over the wanted one. */
  lemma StillSettles(adv: bool, s: State, s': State, rates: Rates)
    requires AllSettle(adv, s, rates)
    requires s'.newFrequencies == s.newFrequencies
    requires s'.altFrequency == s.altFrequency && s'.defaultFrequency == s.defaultFrequency
    requires forall i | 0 <= i < MAX_CHANNELS :: s'.values[i] == s.values[i] || s'.values[i] == 0
    requires forall g | 0 <= g < TIMER_COUNT ::
               s'.frequencies[g] == s.frequencies[g] || s'.frequencies[g] == s.newFrequencies[g]
    ensures AllSettle(adv, s', rates)
  {
    forall ch: Channel ensures Settles(adv, s', rates, ch) {
      assert Settles(adv, s, rates, ch);
    }
  }

  lemma TickSettles(env: Env, s: State, now: nat, rates: Rates)
    requires env.Valid() && AllSettle(env.adv, s, rates)
    ensures AllSettle(env.adv, Tick(env, s, now), rates)
  {
    TickEffect(env, s, now);
    StillSettles(env.adv, s, Tick(env, s, now), rates);
  }

  lemma StepSettles(env: Env, s: State, e: Timed, rates: Rates)
    requires env.Valid() && AllSettle(env.adv, s, rates) && Agreed(env.adv, e, rates)
    ensures AllSettle(env.adv, Step(env, s, e), rates)
  {
    if e.event.ConfigCall? && !Gated(s, e.event.ch, e.event.duty) {
      var s1 := Accept(env, s, e.now);
      StillSettles(env.adv, s, s1, rates);
      ReconfigureSettles(env.adv, s1, rates, e.event.ch, e.event.duty, e.event.period);
    } else if e.event.ForceZeroCall? {
      var s1 := s.(zeroCountdown := s.zeroCountdown + ZERO_SKIP_UPDATE_CYCLES);
      StillSettles(env.adv, s, s1, rates);
      TickSettles(env, s1, e.now, rates);
    } else if e.event.WorkerTick? {
      TickSettles(env, s, e.now, rates);
    } else {
      StillSettles(env.adv, s, Step(env, s, e), rates);
    }
  }

  lemma {:induction false} AgreedRunFits(env: Env, s: State, h: seq<Timed>, rates: Rates)
    requires env.Valid() && AllSettle(env.adv, s, rates)
    requires forall e | e in h :: Agreed(env.adv, e, rates)
    ensures RunFits(env, s, h)
    decreases |h|
  {
    if |h| > 0 {
      if h[0].event.ConfigCall? { AgreedConfigFits(env.adv, s, h[0], rates); }
      StepSettles(env, s, h[0], rates);
      AgreedRunFits(env, Step(env, s, h[0]), h[1..], rates);
    }
  }

  /** Every device state of every run in which all clients of a timer (of a bank, with the older
      firmware) ask for the same rate and for a duty within the period keeps every pulse in its frame. */
  lemma AgreeingClientsKeepFrames(env: Env, start: nat, h: seq<Timed>, rates: Rates)
    requires env.Valid() && forall e | e in h :: Agreed(env.adv, e, rates)
    ensures Fits(env.adv, Run(env, InitialState(env, start), h).log)
  {
    AgreedRunFits(env, InitialState(env, start), h, rates);
    FittingCallsKeepFrames(env, start, h);
  }

  lemma {:induction false} RunSettles(env: Env, s: State, h: seq<Timed>, rates: Rates)
    requires env.Valid() && AllSettle(env.adv, s, rates)
    requires forall e | e in h :: Agreed(env.adv, e, rates)
    ensures AllSettle(env.adv, Run(env, s, h), rates)
    decreases |h|
  {
    if |h| > 0 {
      StepSettles(env, s, h[0], rates);
      RunSettles(env, Step(env, s, h[0]), h[1..], rates);
    }
  }

  lemma StreamedValue(env: Env, s: State, e: Timed, w: Entry)
    requires env.Valid() && Step(env, s, e).log == s.log + [w]
    requires ToOutputs(w) && !AllZero(w.write.regs)
    ensures w.write == Outputs(Step(env, s, e).values)
  {
    NonzeroOnlyWhenSettled(env, s, e, w);
    if e.event.WorkerTick? {
      TickStreams(env, s, e.now, w);
    } else {
      TickStreams(env, s.(zeroCountdown := s.zeroCountdown + ZERO_SKIP_UPDATE_CYCLES), e.now, w);
    }
  }

  /** And whatever nonzero value is streamed to a channel then, the device runs the channel at the agreed
      rate, the one the value was stored for. */
  lemma AgreedValuesRunAtTheirRate(env: Env, start: nat, h: seq<Timed>, e: Timed, w: Entry, ch: Channel, rates: Rates)
    requires env.Valid() && Agreed(env.adv, e, rates) && forall g | g in h :: Agreed(env.adv, g, rates)
    requires var s := Run(env, InitialState(env, start), h);
             Step(env, s, e).log == s.log + [w] && ToOutputs(w) && |w.write.regs| == MAX_CHANNELS && w.write.regs[ch] != 0
    ensures DeviceRate(Step(env, Run(env, InitialState(env, start), h), e).log, Governs(env.adv, ch))
            == rates(Governs(env.adv, ch))
  {
    var s := Run(env, InitialState(env, start), h);
    RunSettles(env, InitialState(env, start), h, rates);
    StepSettles(env, s, e, rates);
    StreamsOnlyUnderAgreedRates(env, start, h, e, w, ch);
    StreamedValue(env, s, e, w);
    assert Settles(env.adv, Step(env, s, e), rates, ch);
  }

  // ---------------------------------------------------------------- and when they do not

  /** A 32-bit jiffies counter at 100 Hz, firmware with per-timer rates. */
  const BOARD: Env := Env(true, 0x8000_0000, 100)

  function ServoThenMotor(): seq<Timed> {
    [Timed(0, ConfigCall(1, 20_000_000, 20_000_000)), Timed(0, ConfigCall(0, 2_500_000, 2_500_000))]
  }

  lemma ServoConfigured()
    ensures var s := Step(BOARD, InitialState(BOARD, 0), ServoThenMotor()[0]);
            && !Pending(s) && !s.noticed && s.zeroCountdown == 0 && s.ignoreMask == 0
            && s.values == ZEROS[1 := 20_000] && s.newFrequencies == s.frequencies == [50, 50, 50, 50]
  {
    assert Wrap(CDiv(NS_PER_SECOND, 20_000_000)) == 50 && DutyOf(20_000_000) == 20_000;
    NotIgnored(1);
  }

  lemma NotIgnored(ch: Channel)
    ensures !Ignored(0, ch)
  {
  }

  lemma MotorCallDoesNotFit(s: State)
    requires !Pending(s) && s.zeroCountdown == 0 && s.values == ZEROS[1 := 20_000]
    requires s.newFrequencies == s.frequencies == [50, 50, 50, 50]
    ensures !ConfigFits(true, s, 0, 2_500_000, 2_500_000)
  {
    assert FrequencyOf(2_500_000) == 400;
    assert Governs(true, 1) == Governs(true, 0) == Group(0);
    assert FinalValues(s)[1] == 20_000;
    assert !Pulse(20_000, 400);
  }

  lemma MotorRequested(s: State)
    requires !Pending(s) && !s.noticed && s.zeroCountdown == 0 && s.ignoreMask == 0
    requires s.values == ZEROS[1 := 20_000] && s.newFrequencies == s.frequencies == [50, 50, 50, 50]
    ensures var t := Config(BOARD, s, 0, 0, 2_500_000, 2_500_000);
            && t.armTimeout == 10 && Measure(true, t) == 2
            && FinalValues(t)[1] == 20_000 && Requested(t, Governs(true, 1)) == 400
  {
  }

  lemma NotGated(s: State)
    requires s.zeroCountdown == 0 && s.ignoreMask == 0
    ensures !Gated(s, 0, 2_500_000)
  {
  }

  /** A servo at 50 Hz on channel 1 with a full-frame pulse, then a motor at 400 Hz on the control pin of
      the same timer: three ticks later the device drives a pulse of 20 ms in a frame of 2.5 ms. */
  lemma DisagreeingClientsBreakFrames()
    ensures var log := Ticks(BOARD, Run(BOARD, InitialState(BOARD, 0), ServoThenMotor()), [0, 0, 0]).log;
            !Fits(true, log) && DeviceOutput(log, 1) == 20_000 && DeviceRate(log, Governs(true, 1)) == 400
  {
    var h := ServoThenMotor();
    var s0 := InitialState(BOARD, 0);
    var s1 := Step(BOARD, s0, h[0]);
    var s2 := Step(BOARD, s1, h[1]);
    TwoCalls(BOARD, s0, h[0], h[1]);
    ServoConfigured();
    MotorCallDoesNotFit(s1);
    MotorRequested(s1);
    NotGated(s1);
    ProbeFits(BOARD, 0);
    ServoFits(s0);
    ArmedAtOnce(s2);
    UnfitCallBreaksFrames(BOARD, s1, 0, 0, 2_500_000, 2_500_000, s2, [0, 0, 0]);
    ConfigAgrees(s1);
    SettledDevice(BOARD, s2, [0, 0, 0], 1);
  }

  lemma ConfigAgrees(s: State)
    requires Agrees(true, s)
    ensures Agrees(true, Config(BOARD, s, 0, 0, 2_500_000, 2_500_000))
  {
    StepKeepsAgreement(BOARD, s, Timed(0, ConfigCall(0, 2_500_000, 2_500_000)));
  }

  lemma TwoCalls(env: Env, s: State, a: Timed, b: Timed)
    requires env.Valid()
    ensures Run(env, s, [a, b]) == Step(env, Step(env, s, a), b)
  {
    assert [a, b][1..] == [b] && [b][1..] == [];
    assert Run(env, s, [a, b]) == Run(env, Step(env, s, a), [b]);
  }

  lemma ArmedAtOnce(s: State)
    requires s.armTimeout == 10
    ensures AllArmed(BOARD, s, [0, 0, 0])
  {
  }

  lemma ServoFits(s: State)
    requires s == InitialState(BOARD, 0) && FrameFit.Inv(true, s)
    ensures FrameFit.Inv(true, Step(BOARD, s, ServoThenMotor()[0]))
  {
    assert FrequencyOf(20_000_000) == 50 && DutyOf(20_000_000) == 20_000;
    assert !RequestsRate(true, s, 1, 20_000_000, 50);
    FrameFit.ConfigKeepsInv(BOARD, s, 0, 1, 20_000_000, 20_000_000);
  }
}
