/** Every pulse fits in its frame: device output (microseconds) times device rate (hertz) never
    exceeds a million. Exactly when that can be kept, over a lossless transport. */
module FrameFit {
  import opened Clock
  import opened PwmModel
  import opened PwmProbe
  import opened ClearBeforeRate
  import opened RateAgreement
  import opened RateProgress

  const US_PER_SECOND: int := 1_000_000

  predicate Pulse(value: int, rate: int) {
    value * rate <= US_PER_SECOND
  }

  /** What the device outputs fits the rates the device runs. */
  ghost predicate Fits(adv: bool, log: seq<Entry>) {
    forall ch: Channel :: Pulse(DeviceOutput(log, ch), DeviceRate(log, Governs(adv, ch)))
  }

  /** What the driver would stream fits the rates clients last asked for. */
  ghost predicate ValuesFit(adv: bool, s: State) {
    forall ch: Channel :: Pulse(FinalValues(s)[ch], Requested(s, Governs(adv, ch)))
  }

  ghost predicate OutputsZero(log: seq<Entry>) {
    forall ch: Channel :: DeviceOutput(log, ch) == 0
  }

  ghost predicate Inv(adv: bool, s: State) {
    && Agrees(adv, s) && ValuesFit(adv, s) && Fits(adv, s.log)
    && (s.noticed ==> OutputsZero(s.log))
  }

  /** The condition on a config call: the duty it stores fits the rate wanted for its channels, and a
      rate it requests fits what the other channels of that rate are going to output. */
  ghost predicate ConfigFits(adv: bool, s: State, ch: Channel, duty: int, period: Period) {
    var f, r := FrequencyOf(period), Governs(adv, ch);
    var requests := RequestsRate(adv, s, ch, duty, f);
    var inForce := if requests && !adv then f else CachedRate(s, r);
    && (inForce == f ==> Pulse(DutyOf(duty), if requests then f else Requested(s, r)))
    && (requests ==> forall i: Channel | i != ch && Governs(adv, i) == r :: Pulse(FinalValues(s)[i], f))
  }

  ghost predicate EventFits(env: Env, s: State, e: Timed) {
    e.event.ConfigCall? && !Gated(s, e.event.ch, e.event.duty) ==>
      ConfigFits(env.adv, s, e.event.ch, e.event.duty, e.event.period)
  }

  /** Every config call of the run meets the condition at its time. */
  ghost predicate RunFits(env: Env, s: State, h: seq<Timed>)
    requires env.Valid()
    decreases |h|
  {
    |h| > 0 ==> EventFits(env, s, h[0]) && RunFits(env, Step(env, s, h[0]), h[1..])
  }

  // ---------------------------------------------------------------- the device stays in the frame

  lemma OutputAppend(log: seq<Entry>, e: Entry)
    ensures forall ch: Channel ::
              DeviceOutput(log + [e], ch) ==
              if Covers(e, PAGE_DIRECT_PWM, ch) then e.write.regs[ch - e.write.offset] else DeviceOutput(log, ch)
  {
  }

  lemma ZeroFits(adv: bool, log: seq<Entry>)
    requires OutputsZero(log)
    ensures Fits(adv, log)
  {
  }

  lemma ServeFits(adv: bool, s: State, now: nat, r: RateRegister)
    requires Inv(adv, s) && s.noticed && |Waiting(adv, s)| > 0 && r == Waiting(adv, s)[0]
    requires r.Group? ==> r.g < TIMER_COUNT
    ensures Inv(adv, ServeRate(s, now, r))
  {
    var s' := ServeRate(s, now, r);
    ServeKeepsAgreement(adv, s, now, r);
    OutputAppend(s.log, Wrote(now, RateWrite(r, Requested(s, r))));
    ZeroFits(adv, s'.log);
    forall ch: Channel ensures Pulse(FinalValues(s')[ch], Requested(s', Governs(adv, ch))) {
      assert Pulse(FinalValues(s)[ch], Requested(s, Governs(adv, ch)));
    }
  }

  lemma StreamFits(adv: bool, s: State, s': State, now: nat)
    requires Agrees(adv, s) && ValuesFit(adv, s) && !Pending(s)
    requires s'.log == s.log + [Wrote(now, Outputs(FinalValues(s)))]
    ensures Fits(adv, s'.log)
  {
  }

  lemma FinishValues(s: State, now: nat)
    ensures FinalValues(Finish(s, now)) == FinalValues(s)
  {
  }

  lemma FinishFits(adv: bool, s: State, now: nat)
    requires Inv(adv, s)
    ensures ValuesFit(adv, Finish(s, now)) && Fits(adv, Finish(s, now).log)
  {
    FinishValues(s, now);
    SameValuesFit(adv, s, Finish(s, now));
    if s.armed && !Pending(s) { StreamFits(adv, s, Finish(s, now), now); }
  }

  lemma ClearFits(adv: bool, s: State, now: nat)
    ensures OutputsZero(Issue(s, now, CLEAR_OUTPUTS).log)
  {
  }

  lemma SameValuesFit(adv: bool, s: State, s': State)
    requires ValuesFit(adv, s)
    requires s'.newFrequencies == s.newFrequencies
    requires s'.altFrequency == s.altFrequency && s'.defaultFrequency == s.defaultFrequency
    requires forall i | 0 <= i < MAX_CHANNELS :: FinalValues(s')[i] == FinalValues(s)[i] || FinalValues(s')[i] == 0
    ensures ValuesFit(adv, s')
  {
  }

  lemma TickKeepsInv(env: Env, s: State, now: nat)
    requires env.Valid() && Inv(env.adv, s)
    ensures Inv(env.adv, Tick(env, s, now))
  {
    var s1 := s.(armed := Armed(env, s, now));
    TickKeepsAgreement(env, s, now);
    SameValuesFit(env.adv, s, s1);
    match KindOfTick(env, s, now)
    case Clears =>
      ClearFits(env.adv, s1, now);
      ZeroFits(env.adv, Tick(env, s, now).log);
      SameValuesFit(env.adv, s, Tick(env, s, now));
    case Programs(r) =>
      WaitingIsPending(env.adv, s);
      SameRates(env.adv, s, s1);
      SameTail(s, s1, 0);
      ServeFits(env.adv, s1, now, r);
    case Finishes =>
      SameRates(env.adv, s, s1);
      FinishFits(env.adv, s1, now);
  }

  lemma ForceZeroKeepsInv(env: Env, s: State, now: nat)
    requires env.Valid() && Inv(env.adv, s)
    ensures Inv(env.adv, ForceZero(env, s, now))
  {
    var s1 := s.(zeroCountdown := s.zeroCountdown + ZERO_SKIP_UPDATE_CYCLES);
    SameRates(env.adv, s, s1);
    SameValuesFit(env.adv, s, s1);
    TickKeepsInv(env, s1, now);
  }

  /** A channel's value after an accepted config of `ch`. */
  lemma ReconfiguredValue(adv: bool, s: State, ch: Channel, duty: int, f: u16, i: Channel)
    requires !Gated(s, ch, duty)
    ensures var s', r := Reconfigure(adv, s, ch, duty, f), Governs(adv, ch);
            var inForce := if RequestsRate(adv, s, ch, duty, f) && !adv then f else CachedRate(s, r);
            FinalValues(s')[i] == if i != ch then FinalValues(s)[i] else if inForce == f then DutyOf(duty) else 0
  {
    var s' := Reconfigure(adv, s, ch, duty, f);
    FinalValuesUpdate(s, s', ch, s'.values[ch]);
  }

  lemma FinalValuesUpdate(s: State, s': State, ch: Channel, v: u16)
    requires s'.values == s.values[ch := v] && s'.zeroCountdown == s.zeroCountdown
    requires s.zeroCountdown > 0 ==> ch >= MAX_ZEROED_CHANNELS
    ensures FinalValues(s') == FinalValues(s)[ch := v]
  {
  }

  /** A channel's wanted rate after it. */
  lemma ReconfiguredRate(adv: bool, s: State, ch: Channel, duty: int, f: u16, i: Channel)
    ensures var s', r := Reconfigure(adv, s, ch, duty, f), Governs(adv, ch);
            Requested(s', Governs(adv, i)) ==
            if RequestsRate(adv, s, ch, duty, f) && Governs(adv, i) == r then f else Requested(s, Governs(adv, i))
  {
  }

  /** The condition is exact: it holds if and only if the values still fit after the call. */
  lemma ConditionIsExact(adv: bool, s: State, ch: Channel, duty: int, period: Period)
    requires ValuesFit(adv, s) && !Gated(s, ch, duty)
    ensures ConfigFits(adv, s, ch, duty, period)
            <==> ValuesFit(adv, Reconfigure(adv, s, ch, duty, FrequencyOf(period)))
  {
    var f, r := FrequencyOf(period), Governs(adv, ch);
    var s' := Reconfigure(adv, s, ch, duty, f);
    forall i: Channel
      ensures Pulse(FinalValues(s')[i], Requested(s', Governs(adv, i))) <==> ChannelFits(adv, s, ch, duty, f, i)
    {
      ReconfiguredValue(adv, s, ch, duty, f, i);
      ReconfiguredRate(adv, s, ch, duty, f, i);
      assert Pulse(FinalValues(s)[i], Requested(s, Governs(adv, i)));
    }
    assert ConfigFits(adv, s, ch, duty, period) <==> forall i: Channel :: ChannelFits(adv, s, ch, duty, f, i) by {
      if forall i: Channel :: ChannelFits(adv, s, ch, duty, f, i) {
        assert ChannelFits(adv, s, ch, duty, f, ch);
        forall i: Channel | RequestsRate(adv, s, ch, duty, f) && i != ch && Governs(adv, i) == r
          ensures Pulse(FinalValues(s)[i], f)
        {
          assert ChannelFits(adv, s, ch, duty, f, i);
        }
      }
    }
  }

  /** The condition, channel by channel. */
  predicate ChannelFits(adv: bool, s: State, ch: Channel, duty: int, f: u16, i: Channel) {
    var r := Governs(adv, ch);
    var requests := RequestsRate(adv, s, ch, duty, f);
    var inForce := if requests && !adv then f else CachedRate(s, r);
    if i == ch then inForce == f ==> Pulse(DutyOf(duty), if requests then f else Requested(s, r))
    else requests && Governs(adv, i) == r ==> Pulse(FinalValues(s)[i], f)
  }

  lemma AcceptKeepsInv(env: Env, s: State, now: nat)
    requires env.Valid() && Inv(env.adv, s)
    ensures Inv(env.adv, Accept(env, s, now))
  {
  }

  lemma SameDevice(adv: bool, log: seq<Entry>, log': seq<Entry>)
    requires forall ch: Channel :: DeviceOutput(log', ch) == DeviceOutput(log, ch) || DeviceOutput(log', ch) == 0
    requires forall r: RateRegister :: DeviceRate(log', r) == DeviceRate(log, r)
    ensures Fits(adv, log) ==> Fits(adv, log')
    ensures OutputsZero(log) ==> OutputsZero(log')
  {
  }

  lemma GatedKeepsInv(adv: bool, s: State, ch: Channel)
    requires Inv(adv, s)
    ensures Inv(adv, s.(values := s.values[ch := 0]))
  {
    SameRates(adv, s, s.(values := s.values[ch := 0]));
    SameValuesFit(adv, s, s.(values := s.values[ch := 0]));
  }

  lemma ReconfigureKeepsInv(adv: bool, s: State, ch: Channel, duty: int, period: Period)
    requires Inv(adv, s) && !Gated(s, ch, duty) && ConfigFits(adv, s, ch, duty, period)
    ensures Inv(adv, Reconfigure(adv, s, ch, duty, FrequencyOf(period)))
  {
    ReconfigureKeepsAgreement(adv, s, ch, duty, FrequencyOf(period));
    ConditionIsExact(adv, s, ch, duty, period);
    ReconfigureKeepsLog(adv, s, ch, duty, FrequencyOf(period));
  }

  lemma ReconfigureKeepsLog(adv: bool, s: State, ch: Channel, duty: int, f: u16)
    ensures var t := Reconfigure(adv, s, ch, duty, f); t.log == s.log && t.noticed == s.noticed
  {
  }

  /** Accepting a call changes nothing the condition looks at. */
  lemma AcceptKeepsCondition(env: Env, s: State, now: nat, ch: Channel, duty: int, period: Period)
    requires env.Valid()
    ensures var s1 := Accept(env, s, now);
            && Gated(s1, ch, duty) == Gated(s, ch, duty)
            && ConfigFits(env.adv, s1, ch, duty, period) == ConfigFits(env.adv, s, ch, duty, period)
  {
    var s1 := Accept(env, s, now);
    assert FinalValues(s1) == FinalValues(s);
    assert forall i: Channel :: FinalValues(s1)[i] == FinalValues(s)[i];
  }

  lemma ConfigKeepsInv(env: Env, s: State, now: nat, ch: Channel, duty: int, period: Period)
    requires env.Valid() && Inv(env.adv, s)
    requires !Gated(s, ch, duty) ==> ConfigFits(env.adv, s, ch, duty, period)
    ensures Inv(env.adv, Config(env, s, now, ch, duty, period))
  {
    if Gated(s, ch, duty) {
      GatedKeepsInv(env.adv, s, ch);
    } else {
      AcceptKeepsInv(env, s, now);
      AcceptKeepsCondition(env, s, now, ch, duty, period);
      ReconfigureKeepsInv(env.adv, Accept(env, s, now), ch, duty, period);
    }
  }

  lemma DisableKeepsInv(adv: bool, s: State, now: nat, ch: Channel)
    requires Inv(adv, s)
    ensures Inv(adv, Disable(s, now, ch))
  {
    var s' := Disable(s, now, ch);
    var e := Wrote(now, RegWrite(PAGE_DIRECT_PWM, ch, [0]));
    OtherEntry(s.log, e);
    OutputAppend(s.log, e);
    SameRates(adv, s, s');
    SameValuesFit(adv, s, s');
    SameDevice(adv, s.log, s'.log);
  }

  lemma StepKeepsInv(env: Env, s: State, e: Timed)
    requires env.Valid() && Inv(env.adv, s) && EventFits(env, s, e)
    ensures Inv(env.adv, Step(env, s, e))
  {
    match e.event
    case ConfigCall(ch, duty, period) => ConfigKeepsInv(env, s, e.now, ch, duty, period);
    case DisableCall(ch) => DisableKeepsInv(env.adv, s, e.now, ch);
    case ForceZeroCall => ForceZeroKeepsInv(env, s, e.now);
    case WorkerTick => TickKeepsInv(env, s, e.now);
    case _ =>
      SameRates(env.adv, s, Step(env, s, e));
      SameValuesFit(env.adv, s, Step(env, s, e));
  }

  lemma ProbeFits(env: Env, start: nat)
    ensures Inv(env.adv, InitialState(env, start))
  {
    ProbeAgrees(env, start);
    forall ch: Channel ensures DeviceOutput(InitialState(env, start).log, ch) == 0 {
      ProbedDevice(env, start, ch);
    }
  }

  lemma {:induction false} RunKeepsInv(env: Env, s: State, h: seq<Timed>)
    requires env.Valid() && Inv(env.adv, s) && RunFits(env, s, h)
    ensures Inv(env.adv, Run(env, s, h))
    decreases |h|
  {
    if |h| > 0 {
      StepKeepsInv(env, s, h[0]);
      RunKeepsInv(env, Step(env, s, h[0]), h[1..]);
    }
  }

  /** Sufficient: as long as every config call meets the condition, every device state of every run
      from probe fits its frames. */
  lemma FittingCallsKeepFrames(env: Env, start: nat, h: seq<Timed>)
    requires env.Valid() && RunFits(env, InitialState(env, start), h)
    ensures Fits(env.adv, Run(env, InitialState(env, start), h).log)
  {
    ProbeFits(env, start);
    RunKeepsInv(env, InitialState(env, start), h);
  }

  // ---------------------------------------------------------------- and not otherwise

  lemma LastOutputs(log: seq<Entry>, log': seq<Entry>, times: seq<nat>, ws: seq<RegWrite>, values: seq<u16>, i: Channel)
    requires |times| == |ws| > 0 && |values| == MAX_CHANNELS && ws[|ws| - 1] == Outputs(values)
    requires log' == log + Stamped(times, ws)
    ensures DeviceOutput(log', i) == values[i]
  {
    assert log'[|log'| - 1] == Wrote(times[|ws| - 1], Outputs(values));
  }

  lemma StreamedOutputs(env: Env, s: State, times: seq<nat>, i: Channel)
    requires env.Valid() && Separated(env.adv, s) && AllArmed(env, s, times)
    requires |times| == Measure(env.adv, s) + 1
    ensures DeviceOutput(Ticks(env, s, times).log, i) == FinalValues(s)[i]
  {
    PendingRatesReachDevice(env, s, times);
    ScheduleStreams(env.adv, s, s.log, Ticks(env, s, times).log, times, i);
  }

  lemma ScheduleStreams(adv: bool, s: State, log: seq<Entry>, log': seq<Entry>, times: seq<nat>, i: Channel)
    requires |times| == Measure(adv, s) + 1 && log' == log + Stamped(times, Schedule(adv, s))
    ensures DeviceOutput(log', i) == FinalValues(s)[i]
  {
    ScheduleEnds(adv, s);
    LastOutputs(log, log', times, Schedule(adv, s), FinalValues(s), i);
  }

  /** Once the schedule has run, value and rate of every channel are on the device. */
  lemma SettledDevice(env: Env, s: State, times: seq<nat>, i: Channel)
    requires env.Valid() && Agrees(env.adv, s) && AllArmed(env, s, times)
    requires |times| == Measure(env.adv, s) + 1
    ensures var log := Ticks(env, s, times).log;
            && DeviceOutput(log, i) == FinalValues(s)[i]
            && DeviceRate(log, Governs(env.adv, i)) == Requested(s, Governs(env.adv, i))
  {
    AgreesSeparated(env.adv, s);
    StreamedOutputs(env, s, times, i);
    TicksKeepRequests(env, s, times);
    assert !Pending(Ticks(env, s, times)) by { PendingRatesReachDevice(env, s, times); }
    SettledRates(env, Ticks(env, s, times), i);
  }

  lemma UnfitChannel(env: Env, s: State, now: nat, ch: Channel, duty: int, period: Period) returns (i: Channel)
    requires env.Valid() && Inv(env.adv, s) && !Gated(s, ch, duty)
    requires !ConfigFits(env.adv, s, ch, duty, period)
    ensures var s' := Config(env, s, now, ch, duty, period);
            Agrees(env.adv, s') && !Pulse(FinalValues(s')[i], Requested(s', Governs(env.adv, i)))
  {
    var s1 := Accept(env, s, now);
    AcceptKeepsInv(env, s, now);
    ConditionIsExact(env.adv, s1, ch, duty, period);
    ReconfigureKeepsAgreement(env.adv, s1, ch, duty, FrequencyOf(period));
    var s' := Reconfigure(env.adv, s1, ch, duty, FrequencyOf(period));
    i :| !Pulse(FinalValues(s')[i], Requested(s', Governs(env.adv, i)));
  }

  /** Necessary: after a config call that fails the condition, the armed ticks that bring its rate to
      the device end with a pulse longer than its frame. */
  lemma UnfitCallBreaksFrames(env: Env, s: State, now: nat, ch: Channel, duty: int, period: Period,
                              s': State, times: seq<nat>)
    requires env.Valid() && Inv(env.adv, s) && !Gated(s, ch, duty)
    requires !ConfigFits(env.adv, s, ch, duty, period)
    requires s' == Config(env, s, now, ch, duty, period)
    requires AllArmed(env, s', times) && |times| == Measure(env.adv, s') + 1
    ensures !Fits(env.adv, Ticks(env, s', times).log)
  {
    var i := UnfitChannel(env, s, now, ch, duty, period);
    SettledDevice(env, s', times, i);
  }

  /** Times from an accepted call at `now` up to its deadline. */
  ghost predicate InTime(env: Env, now: nat, times: seq<nat>) {
    forall i | 0 <= i < |times| :: now <= times[i] < now + env.hz / 10
  }

  lemma InTimeIsArmed(env: Env, s: State, now: nat, times: seq<nat>)
    requires env.Valid() && InTime(env, now, times)
    requires s.armTimeout == (now + env.hz / 10) % (2 * env.half) && s.armTimeout != 0
    ensures AllArmed(env, s, times)
  {
    forall i | 0 <= i < |times| ensures Armed(env, s, times[i]) {
      TimeBeforeWindow(times[i], now + env.hz / 10, env.half);
    }
  }

  /** A deadline that wraps to zero disarms the worker: its ticks write nothing at all. */
  lemma {:induction false} NoDeadlineNoWrites(env: Env, s: State, times: seq<nat>)
    requires env.Valid() && s.armTimeout == 0
    ensures Ticks(env, s, times).log == s.log
    decreases |times|
  {
    if |times| > 0 {
      TickEffect(env, s, times[0]);
      assert KindOfTick(env, s, times[0]).Finishes?;
      NoDeadlineNoWrites(env, Tick(env, s, times[0]), times[1..]);
    }
  }

  lemma CallKeepsDevice(env: Env, s: State, now: nat, ch: Channel, duty: int, period: Period)
    requires env.Valid() && Fits(env.adv, s.log)
    ensures Fits(env.adv, Config(env, s, now, ch, duty, period).log)
  {
    ConfigLog(env, s, now, ch, duty, period);
    OtherEntry(s.log, Accepted(now));
    OutputAppend(s.log, Accepted(now));
    SameDevice(env.adv, s.log, s.log + [Accepted(now)]);
  }

  /** Exactly when a call that fails the condition does harm: if and only if its deadline does not happen
      to wrap to zero, ticks before that deadline can bring the device to a pulse longer than its frame. */
  lemma UnfitCallBreaksExactly(env: Env, s: State, now: nat, ch: Channel, duty: int, period: Period, s': State)
    requires env.Valid() && env.hz / 10 > 0 && Inv(env.adv, s) && !Gated(s, ch, duty)
    requires !ConfigFits(env.adv, s, ch, duty, period)
    requires s' == Config(env, s, now, ch, duty, period)
    ensures (exists times: seq<nat> :: InTime(env, now, times) && !Fits(env.adv, Ticks(env, s', times).log))
            <==> (now + env.hz / 10) % (2 * env.half) != 0
  {
    assert s'.armTimeout == (now + env.hz / 10) % (2 * env.half);
    if s'.armTimeout != 0 {
      var times := seq(Measure(env.adv, s') + 1, _ => now);
      InTimeIsArmed(env, s', now, times);
      UnfitCallBreaksFrames(env, s, now, ch, duty, period, s', times);
      assert InTime(env, now, times);
    } else {
      CallKeepsDevice(env, s, now, ch, duty, period);
      forall times: seq<nat> ensures Ticks(env, s', times).log == s'.log { NoDeadlineNoWrites(env, s', times); }
    }
  }

  lemma AgreesSeparated(adv: bool, s: State)
    requires Agrees(adv, s)
    ensures Separated(adv, s)
  {
  }

  lemma {:induction false} TicksKeepRequests(env: Env, s: State, times: seq<nat>)
    requires env.Valid() && Agrees(env.adv, s)
    ensures var t := Ticks(env, s, times);
            && Agrees(env.adv, t) && t.newFrequencies == s.newFrequencies
            && t.altFrequency == s.altFrequency && t.defaultFrequency == s.defaultFrequency
    decreases |times|
  {
    if |times| > 0 {
      TickKeepsAgreement(env, s, times[0]);
      TickEffect(env, s, times[0]);
      TicksKeepRequests(env, Tick(env, s, times[0]), times[1..]);
    }
  }

  lemma ScheduleEnds(adv: bool, s: State)
    ensures var ws := Schedule(adv, s); ws[|ws| - 1] == Outputs(FinalValues(s))
  {
    WaitingRange(adv, s);
    RatesEnd(s, Waiting(adv, s));
  }

  lemma {:induction false} RatesEnd(s: State, w: seq<RateRegister>)
    requires forall r | r in w :: r.Group? ==> r.g < TIMER_COUNT
    ensures RatesThenValues(s, w)[|w|] == Outputs(FinalValues(s))
    decreases |w|
  {
    if |w| > 0 { RatesEnd(s, w[1..]); }
  }
}
