/** Over a lossless transport the driver's cached rates are the device's, and values are streamed
    only while that is so: never under a rate the device does not run. */
module RateAgreement {
  import opened PwmModel
  import opened PwmProbe
  import opened ClearBeforeRate

  /** Each firmware variant uses only its own requests, a request is pending exactly when the wanted
      rate is not the cached one, and what is not pending is on the device. */
  ghost predicate Agrees(adv: bool, s: State) {
    if adv then
      && !s.altUpdated && !s.defaultUpdated
      && forall g: nat | g < TIMER_COUNT ::
           && (s.updateRequired[g] <==> s.newFrequencies[g] != s.frequencies[g])
           && DeviceRate(s.log, Group(g)) == s.frequencies[g]
    else
      && (forall g: nat | g < TIMER_COUNT :: !s.updateRequired[g])
      && (!s.altUpdated ==> DeviceRate(s.log, Alt) == s.altFrequency)
      && (!s.defaultUpdated ==> DeviceRate(s.log, Default) == s.defaultFrequency)
  }

  /** An entry that programs no rate leaves all device rates alone. */
  lemma OtherEntry(log: seq<Entry>, e: Entry)
    requires e.Wrote? ==> e.write.page != PAGE_SETUP
    ensures forall r: RateRegister :: DeviceRate(log + [e], r) == DeviceRate(log, r)
  {
  }

  lemma ServeKeepsAgreement(adv: bool, s: State, now: nat, r: RateRegister)
    requires Agrees(adv, s) && |Waiting(adv, s)| > 0 && r == Waiting(adv, s)[0]
    requires r.Group? ==> r.g < TIMER_COUNT
    ensures Agrees(adv, ServeRate(s, now, r))
  {
  }

  /** Agreement is about rates, requests and rate registers only. */
  lemma SameRates(adv: bool, s: State, s': State)
    requires Agrees(adv, s)
    requires s'.altUpdated == s.altUpdated && s'.altFrequency == s.altFrequency
    requires s'.defaultUpdated == s.defaultUpdated && s'.defaultFrequency == s.defaultFrequency
    requires s'.frequencies == s.frequencies && s'.newFrequencies == s.newFrequencies
    requires s'.updateRequired == s.updateRequired
    requires forall r: RateRegister :: DeviceRate(s'.log, r) == DeviceRate(s.log, r)
    ensures Agrees(adv, s')
  {
  }

  lemma ClearingTickAgrees(env: Env, s: State, now: nat)
    requires env.Valid() && Agrees(env.adv, s) && KindOfTick(env, s, now).Clears?
    ensures Agrees(env.adv, Tick(env, s, now))
  {
    OtherEntry(s.log, Wrote(now, CLEAR_OUTPUTS));
    SameRates(env.adv, s, Tick(env, s, now));
  }

  lemma FinishAgrees(adv: bool, s: State, now: nat)
    requires Agrees(adv, s)
    ensures Agrees(adv, Finish(s, now))
  {
    OtherEntry(s.log, Wrote(now, Outputs(Finish(s, now).values)));
    SameRates(adv, s, Finish(s, now));
  }

  lemma TickKeepsAgreement(env: Env, s: State, now: nat)
    requires env.Valid() && Agrees(env.adv, s)
    ensures Agrees(env.adv, Tick(env, s, now))
  {
    var s1 := s.(armed := Armed(env, s, now));
    SameRates(env.adv, s, s1);
    match KindOfTick(env, s, now)
    case Clears => ClearingTickAgrees(env, s, now);
    case Programs(r) => ServeKeepsAgreement(env.adv, s1, now, r);
    case Finishes => FinishAgrees(env.adv, s1, now);
  }

  lemma GroupRequestAgrees(s: State, g: nat, f: u16)
    requires Agrees(true, s) && g < TIMER_COUNT && s.frequencies[g] != f
    ensures Agrees(true, RequestRate(s, Group(g), f))
  {
  }

  lemma BankRequestAgrees(s: State, r: RateRegister, f: u16)
    requires Agrees(false, s) && !r.Group?
    ensures Agrees(false, RequestRate(s, r, f))
  {
  }

  lemma RequestKeepsAgreement(adv: bool, s: State, ch: Channel, duty: int, f: u16)
    requires Agrees(adv, s) && RequestsRate(adv, s, ch, duty, f)
    ensures Agrees(adv, RequestRate(s, Governs(adv, ch), f))
  {
    if adv {
      GroupRequestAgrees(s, ch / CHANNELS_PER_TIMER, f);
    } else {
      BankRequestAgrees(s, Governs(false, ch), f);
    }
  }

  lemma ReconfigureKeepsAgreement(adv: bool, s: State, ch: Channel, duty: int, f: u16)
    requires Agrees(adv, s)
    ensures Agrees(adv, Reconfigure(adv, s, ch, duty, f))
  {
    var r := Governs(adv, ch);
    if RequestsRate(adv, s, ch, duty, f) {
      RequestKeepsAgreement(adv, s, ch, duty, f);
      SameRates(adv, RequestRate(s, r, f), Reconfigure(adv, s, ch, duty, f));
    } else {
      SameRates(adv, s, Reconfigure(adv, s, ch, duty, f));
    }
  }

  lemma ConfigKeepsAgreement(env: Env, s: State, now: nat, ch: Channel, duty: int, period: Period)
    requires env.Valid() && Agrees(env.adv, s)
    ensures Agrees(env.adv, Config(env, s, now, ch, duty, period))
  {
    if Gated(s, ch, duty) {
      SameRates(env.adv, s, s.(values := s.values[ch := 0]));
    } else {
      OtherEntry(s.log, Accepted(now));
      SameRates(env.adv, s, Accept(env, s, now));
      ReconfigureKeepsAgreement(env.adv, Accept(env, s, now), ch, duty, FrequencyOf(period));
    }
  }

  lemma DisableKeepsAgreement(adv: bool, s: State, now: nat, ch: Channel)
    requires Agrees(adv, s)
    ensures Agrees(adv, Disable(s, now, ch))
  {
    OtherEntry(s.log, Wrote(now, RegWrite(PAGE_DIRECT_PWM, ch, [0])));
    SameRates(adv, s, Disable(s, now, ch));
  }

  lemma ForceZeroKeepsAgreement(env: Env, s: State, now: nat)
    requires env.Valid() && Agrees(env.adv, s)
    ensures Agrees(env.adv, ForceZero(env, s, now))
  {
    var s1 := s.(zeroCountdown := s.zeroCountdown + ZERO_SKIP_UPDATE_CYCLES);
    SameRates(env.adv, s, s1);
    TickKeepsAgreement(env, s1, now);
  }

  lemma StepKeepsAgreement(env: Env, s: State, e: Timed)
    requires env.Valid() && Agrees(env.adv, s)
    ensures Agrees(env.adv, Step(env, s, e))
  {
    match e.event
    case ConfigCall(ch, duty, period) => ConfigKeepsAgreement(env, s, e.now, ch, duty, period);
    case DisableCall(ch) => DisableKeepsAgreement(env.adv, s, e.now, ch);
    case ForceZeroCall => ForceZeroKeepsAgreement(env, s, e.now);
    case WorkerTick => TickKeepsAgreement(env, s, e.now);
    case _ => SameRates(env.adv, s, Step(env, s, e));
  }

  lemma ProbeAgrees(env: Env, now: nat)
    ensures Agrees(env.adv, InitialState(env, now))
  {
    if env.adv {
      forall g: nat | g < TIMER_COUNT ensures DeviceRate(InitialState(env, now).log, Group(g)) == 50 {
        ProbedDevice(env, now, 4 * g);
      }
    } else {
      ProbedDevice(env, now, 0);
      ProbedDevice(env, now, 8);
    }
  }

  lemma {:induction false} RunKeepsAgreement(env: Env, s: State, h: seq<Timed>)
    requires env.Valid() && Agrees(env.adv, s)
    ensures Agrees(env.adv, Run(env, s, h))
    decreases |h|
  {
    if |h| > 0 {
      StepKeepsAgreement(env, s, h[0]);
      RunKeepsAgreement(env, Step(env, s, h[0]), h[1..]);
    }
  }

  /** With nothing pending, cached, wanted and programmed rates coincide for every channel. */
  lemma SettledRates(env: Env, s: State, ch: Channel)
    requires Agrees(env.adv, s) && !Pending(s)
    ensures var r := Governs(env.adv, ch);
            DeviceRate(s.log, r) == CachedRate(s, r) == Requested(s, r)
  {
  }

  /** Take any run from probe and any further step. If that step sends anything but zeros to the
      outputs, no rate change is pending afterwards, and for every channel the device's rate is the one
      the driver has cached and the one last requested. A value may have been stored under another. */
  lemma StreamsOnlyUnderAgreedRates(env: Env, start: nat, h: seq<Timed>, e: Timed, w: Entry, ch: Channel)
    requires env.Valid()
    requires var s := Run(env, InitialState(env, start), h);
             Step(env, s, e).log == s.log + [w] && ToOutputs(w) && !AllZero(w.write.regs)
    ensures var s' := Step(env, Run(env, InitialState(env, start), h), e);
            var r := Governs(env.adv, ch);
            !Pending(s') && DeviceRate(s'.log, r) == CachedRate(s', r) == Requested(s', r)
  {
    var s := Run(env, InitialState(env, start), h);
    var s' := Step(env, s, e);
    ProbeAgrees(env, start);
    RunKeepsAgreement(env, InitialState(env, start), h);
    StepKeepsAgreement(env, s, e);
    NonzeroOnlyWhenSettled(env, s, e, w);
    SettledRates(env, s', ch);
  }

  lemma ConfigLog(env: Env, s: State, now: nat, ch: Channel, duty: int, period: Period)
    requires env.Valid()
    ensures var log := Config(env, s, now, ch, duty, period).log; log == s.log || log == s.log + [Accepted(now)]
  {
  }

  lemma ConfigStreamsNothing(env: Env, s: State, now: nat, ch: Channel, duty: int, period: Period, w: Entry)
    requires env.Valid() && Config(env, s, now, ch, duty, period).log == s.log + [w]
    ensures w == Accepted(now)
  {
    ConfigLog(env, s, now, ch, duty, period);
    SameLast(s.log, w, Accepted(now));
  }

  lemma SameLast(log: seq<Entry>, w: Entry, e: Entry)
    requires log + [w] == log || log + [w] == log + [e]
    ensures w == e
  {
    assert |log + [w]| == |log| + 1;
    assert (log + [w])[|log|] == w;
  }

  lemma DisableStreamsZero(s: State, now: nat, ch: Channel, w: Entry)
    requires Disable(s, now, ch).log == s.log + [w]
    ensures w == Wrote(now, RegWrite(PAGE_DIRECT_PWM, ch, [0]))
  {
    SameLast(s.log, w, Wrote(now, RegWrite(PAGE_DIRECT_PWM, ch, [0])));
  }

  lemma QuietCalls(env: Env, s: State, e: Timed)
    requires env.Valid() && (e.event.EnableCall? || e.event.FreeCall? || e.event.StoreIgnoreMask?)
    ensures Step(env, s, e).log == s.log
  {
  }

  lemma CallStreams(env: Env, s: State, now: nat, w: Entry)
    requires env.Valid() && ForceZero(env, s, now).log == s.log + [w]
    requires ToOutputs(w) && !AllZero(w.write.regs)
    ensures !Pending(ForceZero(env, s, now))
  {
    TickStreams(env, s.(zeroCountdown := s.zeroCountdown + ZERO_SKIP_UPDATE_CYCLES), now, w);
  }

  lemma NonzeroOnlyWhenSettled(env: Env, s: State, e: Timed, w: Entry)
    requires env.Valid() && Step(env, s, e).log == s.log + [w]
    requires ToOutputs(w) && !AllZero(w.write.regs)
    ensures (e.event.WorkerTick? || e.event.ForceZeroCall?) && !Pending(Step(env, s, e))
  {
    match e.event
    case WorkerTick => TickStreams(env, s, e.now, w);
    case ForceZeroCall => CallStreams(env, s, e.now, w);
    case ConfigCall(ch, duty, period) => ConfigStreamsNothing(env, s, e.now, ch, duty, period, w);
    case DisableCall(ch) => DisableStreamsZero(s, e.now, ch, w);
    case _ => QuietCalls(env, s, e);
  }

  lemma EarlyTickStreamsNothing(env: Env, s: State, now: nat, w: Entry)
    requires env.Valid() && Tick(env, s, now).log == s.log + [w] && !KindOfTick(env, s, now).Finishes?
    ensures ToOutputs(w) ==> AllZero(w.write.regs)
  {
    assert w == Tick(env, s, now).log[|s.log|];
  }

  lemma FinishStreams(s: State, now: nat, w: Entry)
    requires Finish(s, now).log == s.log + [w]
    ensures s.armed && !Pending(s) && !Pending(Finish(s, now)) && w == Wrote(now, Outputs(Finish(s, now).values))
  {
    assert w == Finish(s, now).log[|s.log|];
  }

  lemma TickStreams(env: Env, s: State, now: nat, w: Entry)
    requires env.Valid() && Tick(env, s, now).log == s.log + [w]
    requires ToOutputs(w) && !AllZero(w.write.regs)
    ensures KindOfTick(env, s, now).Finishes? && Armed(env, s, now) && !Pending(s) && !Pending(Tick(env, s, now))
    ensures w.write == Outputs(Tick(env, s, now).values)
  {
    if KindOfTick(env, s, now).Finishes? {
      FinishStreams(s.(armed := Armed(env, s, now)), now, w);
    } else {
      EarlyTickStreamsNothing(env, s, now, w);
    }
  }
}
