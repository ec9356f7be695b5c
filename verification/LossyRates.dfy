/** Rates on a transport that loses writes: which losses leave a channel's device rate different from the
    rate the driver has cached. The driver ignores the results of these writes. */
module LossyRates {
  import opened PwmModel
  import opened PwmProbe
  import opened ClearBeforeRate
  import opened RateAgreement

  predicate Sets(e: Entry, r: RateRegister) {
    Covers(e, PAGE_SETUP, RateOffset(r))
  }

  function ValueSet(e: Entry, r: RateRegister): u16
    requires Sets(e, r)
  {
    e.write.regs[RateOffset(r) - e.write.offset]
  }

  /** The device's rate register if it took exactly those entries of the log that `taken` says. */
  function LossyRate(log: seq<Entry>, taken: nat -> bool, r: RateRegister): u16
    decreases |log|
  {
    if |log| == 0 then 0
    else
      var n := |log| - 1;
      if Sets(log[n], r) && taken(n) then ValueSet(log[n], r) else LossyRate(log[..n], taken, r)
  }

  /** The last write the driver issued to the register is at `k`. */
  ghost predicate LastSet(log: seq<Entry>, r: RateRegister, k: nat) {
    k < |log| && Sets(log[k], r) && forall i | k < i < |log| :: !Sets(log[i], r)
  }

  lemma {:induction false} RatesAfterLast(log: seq<Entry>, taken: nat -> bool, r: RateRegister, k: nat)
    requires LastSet(log, r, k)
    ensures DeviceRate(log, r) == ValueSet(log[k], r)
    ensures LossyRate(log, taken, r) == if taken(k) then ValueSet(log[k], r) else LossyRate(log[..k], taken, r)
    decreases |log|
  {
    var n := |log| - 1;
    if k < n {
      assert log[..n][..k] == log[..k];
      RatesAfterLast(log[..n], taken, r, k);
    }
  }

  // ---------------------------------------------------------------- group mode never repeats a rate

  /** Every write to a group's register changes it. */
  ghost predicate Changing(log: seq<Entry>) {
    forall k: nat, g: nat | k < |log| && g < TIMER_COUNT && Sets(log[k], Group(g)) ::
      ValueSet(log[k], Group(g)) != DeviceRate(log[..k], Group(g))
  }

  lemma AppendChanging(log: seq<Entry>, e: Entry)
    requires Changing(log)
    requires forall g: nat | g < TIMER_COUNT && Sets(e, Group(g)) :: ValueSet(e, Group(g)) != DeviceRate(log, Group(g))
    ensures Changing(log + [e])
  {
    var log' := log + [e];
    forall k: nat, g: nat | k < |log'| && g < TIMER_COUNT && Sets(log'[k], Group(g))
      ensures ValueSet(log'[k], Group(g)) != DeviceRate(log'[..k], Group(g))
    {
      if k < |log| {
        assert log'[..k] == log[..k];
        assert Sets(log[k], Group(g));
      } else {
        assert log'[..k] == log;
      }
    }
  }

  ghost predicate Inv(s: State) {
    Agrees(true, s) && Changing(s.log)
  }

  lemma WaitingWantsChange(s: State, r: RateRegister)
    requires Agrees(true, s) && |Waiting(true, s)| > 0 && r == Waiting(true, s)[0]
    ensures r.Group? && r.g < TIMER_COUNT && s.newFrequencies[r.g] != DeviceRate(s.log, r)
  {
    WaitingInRange(true, s, 0);
    assert r in WaitingGroups(s, 0);
    assert s.updateRequired[r.g] <==> s.newFrequencies[r.g] != s.frequencies[r.g];
  }

  lemma TickKeepsChanging(env: Env, s: State, now: nat)
    requires env.Valid() && env.adv && Inv(s)
    ensures Changing(Tick(env, s, now).log)
  {
    match KindOfTick(env, s, now)
    case Clears => AppendChanging(s.log, Wrote(now, CLEAR_OUTPUTS));
    case Programs(r) =>
      WaitingWantsChange(s, r);
      AppendChanging(s.log, Wrote(now, RateWrite(r, Requested(s, r))));
    case Finishes => AppendChanging(s.log, Wrote(now, Outputs(FinalValues(s))));
  }

  lemma CallKeepsChanging(env: Env, s: State, e: Timed)
    requires env.Valid() && Changing(s.log) && (e.event.ConfigCall? || e.event.DisableCall?)
    ensures Changing(Step(env, s, e).log)
  {
    match e.event
    case ConfigCall(ch, duty, period) =>
      ConfigLog(env, s, e.now, ch, duty, period);
      AppendChanging(s.log, Accepted(e.now));
    case DisableCall(ch) => AppendChanging(s.log, Wrote(e.now, RegWrite(PAGE_DIRECT_PWM, ch, [0])));
  }

  lemma ForceZeroKeepsChanging(env: Env, s: State, now: nat)
    requires env.Valid() && env.adv && Inv(s)
    ensures Changing(ForceZero(env, s, now).log)
  {
    var s1 := s.(zeroCountdown := s.zeroCountdown + ZERO_SKIP_UPDATE_CYCLES);
    SameRates(true, s, s1);
    TickKeepsChanging(env, s1, now);
  }

  lemma StepKeepsChanging(env: Env, s: State, e: Timed)
    requires env.Valid() && env.adv && Inv(s)
    ensures Inv(Step(env, s, e))
  {
    StepKeepsAgreement(env, s, e);
    match e.event
    case WorkerTick => TickKeepsChanging(env, s, e.now);
    case ForceZeroCall => ForceZeroKeepsChanging(env, s, e.now);
    case ConfigCall(_, _, _) => CallKeepsChanging(env, s, e);
    case DisableCall(_) => CallKeepsChanging(env, s, e);
    case _ => QuietCalls(env, s, e);
  }

  lemma {:induction false} RunKeepsChanging(env: Env, s: State, h: seq<Timed>)
    requires env.Valid() && env.adv && Inv(s)
    ensures Inv(Run(env, s, h))
    decreases |h|
  {
    if |h| > 0 {
      StepKeepsChanging(env, s, h[0]);
      RunKeepsChanging(env, Step(env, s, h[0]), h[1..]);
    }
  }

  lemma {:induction false} Untouched(log: seq<Entry>, r: RateRegister)
    requires forall i | 0 <= i < |log| :: !Sets(log[i], r)
    ensures DeviceRate(log, r) == 0
    decreases |log|
  {
    if |log| > 0 { Untouched(log[..|log| - 1], r); }
  }

  lemma {:induction false} GroupLogSets(now: nat, n: nat)
    requires n <= TIMER_COUNT
    ensures |GroupLog(now, n)| == n
    ensures forall i | 0 <= i < n :: GroupLog(now, n)[i] == Wrote(now, RateWrite(Group(i), 50))
    decreases n
  {
    if n > 0 { GroupLogSets(now, n - 1); }
  }

  lemma SetupChangesNothing(now: nat)
    ensures Changing(SetupLog(now))
  {
    forall k: nat, g: nat | k < 2 && g < TIMER_COUNT ensures !Sets(SetupLog(now)[k], Group(g)) {
      assert SetupLog(now)[k].write.offset in {SETUP_FORCE_SAFETY_OFF, SETUP_ARMING};
    }
  }

  lemma {:induction false} GroupsChange(now: nat, n: nat)
    requires n <= TIMER_COUNT
    ensures Changing(SetupLog(now) + GroupLog(now, n))
    decreases n
  {
    if n == 0 {
      SetupChangesNothing(now);
      assert SetupLog(now) + GroupLog(now, n) == SetupLog(now);
    } else {
      var log, e := SetupLog(now) + GroupLog(now, n - 1), Wrote(now, RateWrite(Group(n - 1), 50));
      GroupsChange(now, n - 1);
      GroupLogSets(now, n - 1);
      Untouched(log, Group(n - 1));
      AppendChanging(log, e);
      assert SetupLog(now) + GroupLog(now, n) == log + [e];
    }
  }

  lemma {:induction false} RcChanges(log: seq<Entry>, now: nat, n: nat)
    requires Changing(log)
    ensures Changing(log + RcLog(now, n))
    decreases n
  {
    if n == 0 {
      assert log + RcLog(now, n) == log;
    } else {
      RcChanges(log, now, n - 1);
      AppendChanging(log + RcLog(now, n - 1), Wrote(now, RcWrite(InitialRc(n - 1))));
      assert log + RcLog(now, n) == log + RcLog(now, n - 1) + [Wrote(now, RcWrite(InitialRc(n - 1)))];
    }
  }

  lemma ProbeChanges(env: Env, start: nat)
    requires env.adv
    ensures Inv(InitialState(env, start))
  {
    ProbeAgrees(env, start);
    GroupsChange(start, TIMER_COUNT);
    RcChanges(SetupLog(start) + GroupLog(start, TIMER_COUNT), start, MAX_CHANNELS);
  }

  // ---------------------------------------------------------------- exactly which losses show

  /** Over every run from probe, for every set of lost writes and every channel with no change pending: the
      device runs the cached rate if and only if it took the last write to the channel's rate register, or
      was left by the earlier ones at that very rate. */
  lemma LossShowsExactly(env: Env, start: nat, h: seq<Timed>, taken: nat -> bool, ch: Channel, k: nat)
    requires env.Valid() && !Pending(Run(env, InitialState(env, start), h))
    requires LastSet(Run(env, InitialState(env, start), h).log, Governs(env.adv, ch), k)
    ensures var s, r := Run(env, InitialState(env, start), h), Governs(env.adv, ch);
            LossyRate(s.log, taken, r) == CachedRate(s, r)
            <==> taken(k) || LossyRate(s.log[..k], taken, r) == CachedRate(s, r)
  {
    var s := Run(env, InitialState(env, start), h);
    ProbeAgrees(env, start);
    RunKeepsAgreement(env, InitialState(env, start), h);
    SettledRates(env, s, ch);
    RatesAfterLast(s.log, taken, Governs(env.adv, ch), k);
  }

  /** With per-timer rates no write repeats the rate before it, so the first loss always shows: if the
      writes before the last one left the device as the driver wanted it, the device runs the cached rate
      if and only if it took the last one. */
  lemma FirstLossShows(env: Env, start: nat, h: seq<Timed>, taken: nat -> bool, ch: Channel, k: nat)
    requires env.Valid() && env.adv && !Pending(Run(env, InitialState(env, start), h))
    requires var s, r := Run(env, InitialState(env, start), h), Governs(env.adv, ch);
             LastSet(s.log, r, k) && LossyRate(s.log[..k], taken, r) == DeviceRate(s.log[..k], r)
    ensures var s, r := Run(env, InitialState(env, start), h), Governs(env.adv, ch);
            LossyRate(s.log, taken, r) == CachedRate(s, r) <==> taken(k)
  {
    var s, r := Run(env, InitialState(env, start), h), Governs(env.adv, ch);
    ProbeChanges(env, start);
    RunKeepsChanging(env, InitialState(env, start), h);
    LossShowsExactly(env, start, h, taken, ch, k);
    RatesAfterLast(s.log, taken, r, k);
    SettledRates(env, s, ch);
  }

  /** A register that was ever written has a last write; probe writes every rate register. */
  lemma {:induction false} LastSetExists(log: seq<Entry>, r: RateRegister, i: nat) returns (k: nat)
    requires i < |log| && Sets(log[i], r)
    ensures i <= k && LastSet(log, r, k)
    decreases |log|
  {
    var n := |log| - 1;
    if Sets(log[n], r) {
      k := n;
    } else {
      k := LastSetExists(log[..n], r, i);
      assert log[..n][k] == log[k];
    }
  }

  // ---------------------------------------------------------------- a loss that does not show

  /** Firmware with banks, a 32-bit jiffies counter at 100 Hz. */
  const BANKS: Env := Env(false, 0x8000_0000, 100)

  /** A bank's rate requested away and, before the worker gets to it, back again. */
  function Away(): State {
    Config(BANKS, InitialState(BANKS, 0), 0, 0, 1_000_000, 2_500_000)
  }

  function AwayAndBack(): State {
    Config(BANKS, Away(), 0, 0, 1_000_000, 20_000_000)
  }

  /** A request of `f` for the first bank by its control pin. */
  lemma BankRequested(s: State, period: Period, f: u16)
    requires f == FrequencyOf(period) != s.altFrequency && s.zeroCountdown == 0 && s.ignoreMask == 0
    ensures var t := Config(BANKS, s, 0, 0, 1_000_000, period);
            && t.altFrequency == f && t.altUpdated && t.defaultUpdated == s.defaultUpdated && t.armTimeout == 10
            && t.noticed == s.noticed && t.zeroCountdown == 0 && t.ignoreMask == 0
            && t.updateRequired == s.updateRequired && t.log == s.log + [Accepted(0)]
  {
    NeverIgnored(0);
  }

  lemma AwayAndBackState()
    ensures var s := AwayAndBack();
            && s.altFrequency == 50 && s.altUpdated && !s.defaultUpdated && s.armTimeout == 10 && !s.noticed
            && s.log == ProbeLog(false, 0) + [Accepted(0)] + [Accepted(0)]
            && s.updateRequired == [false, false, false, false]
  {
    assert FrequencyOf(2_500_000) == 400 && FrequencyOf(20_000_000) == 50;
    BankRequested(InitialState(BANKS, 0), 2_500_000, 400);
    BankRequested(Away(), 20_000_000, 50);
  }

  lemma NeverIgnored(ch: Channel)
    ensures !Ignored(0, ch)
  {
  }

  lemma ServesAlt(s: State)
    requires s.altFrequency == 50 && s.altUpdated && !s.defaultUpdated && s.armTimeout == 10 && !s.noticed
    requires s.updateRequired == [false, false, false, false]
    ensures var t := Tick(BANKS, Tick(BANKS, s, 0), 0);
            && t.log == s.log + [Wrote(0, CLEAR_OUTPUTS)] + [Wrote(0, RateWrite(Alt, 50))]
            && !Pending(t) && t.altFrequency == 50
  {
    assert (0 - 10) % (2 * 0x8000_0000) == 2 * 0x8000_0000 - 10;
    var s1 := Tick(BANKS, s, 0);
    assert KindOfTick(BANKS, s, 0).Clears?;
    assert s1.noticed && s1.altUpdated && Waiting(false, s1)[0] == Alt;
  }

  lemma {:induction false} AllTaken(log: seq<Entry>, taken: nat -> bool, r: RateRegister)
    requires forall i: nat | i < |log| :: taken(i)
    ensures LossyRate(log, taken, r) == DeviceRate(log, r)
    decreases |log|
  {
    if |log| > 0 { AllTaken(log[..|log| - 1], taken, r); }
  }

  lemma RateBeforeLoss(log: seq<Entry>)
    requires log == ProbeLog(false, 0) + [Accepted(0)] + [Accepted(0)] + [Wrote(0, CLEAR_OUTPUTS)]
    ensures DeviceRate(log, Alt) == 50
  {
    ProbedBankRate(0, Alt);
    OtherEntry(ProbeLog(false, 0), Accepted(0));
    OtherEntry(ProbeLog(false, 0) + [Accepted(0)], Accepted(0));
    OtherEntry(ProbeLog(false, 0) + [Accepted(0)] + [Accepted(0)], Wrote(0, CLEAR_OUTPUTS));
  }

  lemma LastLost(log: seq<Entry>, e: Entry, k: nat)
    requires k == |log| && Sets(e, Alt)
    ensures LastSet(log + [e], Alt, k)
    ensures LossyRate(log + [e], (i: nat) => i != k, Alt) == DeviceRate(log, Alt)
  {
    var taken := (i: nat) => i != k;
    assert (log + [e])[..k] == log;
    AllTaken(log, taken, Alt);
  }

  /** So with banks the first loss need not show: the rate is written again unchanged, that write is the
      only one lost, and the device runs the cached rate all the same. */
  lemma RepeatedBankRateHidesLoss() returns (t: State, k: nat)
    ensures t == Tick(BANKS, Tick(BANKS, AwayAndBack(), 0), 0) && !Pending(t) && LastSet(t.log, Alt, k)
    ensures LossyRate(t.log, (i: nat) => i != k, Alt) == CachedRate(t, Alt)
  {
    var log := AwayAndBack().log + [Wrote(0, CLEAR_OUTPUTS)];
    AwayAndBackState();
    ServesAlt(AwayAndBack());
    t := Tick(BANKS, Tick(BANKS, AwayAndBack(), 0), 0);
    k := |log|;
    RateBeforeLoss(log);
    LastLost(log, Wrote(0, RateWrite(Alt, 50)), k);
  }
}
