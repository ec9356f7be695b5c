/** A rate register is never programmed under running outputs: each rate write follows an all-zero
    page with nothing but zeros sent to the outputs in between. This needs nothing of the transport. */
module ClearBeforeRate {
  import opened PwmModel

  predicate IsRateWrite(e: Entry) {
    && e.Wrote? && e.write.page == PAGE_SETUP
    && (e.write.offset in {SETUP_DEFAULT_RATE, SETUP_ALT_RATE}
        || SETUP_GROUP1_RATE <= e.write.offset < SETUP_GROUP1_RATE + TIMER_COUNT)
  }

  predicate ToOutputs(e: Entry) {
    e.Wrote? && e.write.page == PAGE_DIRECT_PWM
  }

  predicate AllZero(regs: seq<u16>) {
    forall i | 0 <= i < |regs| :: regs[i] == 0
  }

  predicate IsClear(e: Entry) {
    e.Wrote? && e.write == CLEAR_OUTPUTS
  }

  /** At position `k` of the log the outputs stand cleared, by a write at `from` or later. */
  ghost predicate ClearedAt(log: seq<Entry>, from: nat, k: nat)
    requires k <= |log|
  {
    exists j :: from <= j < k && IsClear(log[j]) && ZerosSince(log, j, k)
  }

  predicate ZerosSince(log: seq<Entry>, j: nat, k: nat)
    requires k <= |log|
  {
    forall m | j < m < k && ToOutputs(log[m]) :: AllZero(log[m].write.regs)
  }

  ghost predicate RatesFollowClear(log: seq<Entry>, from: nat) {
    forall k | from <= k < |log| && IsRateWrite(log[k]) :: ClearedAt(log, from, k)
  }

  ghost predicate Inv(s: State, from: nat) {
    && from <= |s.log|
    && RatesFollowClear(s.log, from)
    && (s.noticed ==> ClearedAt(s.log, from, |s.log|))
  }

  /** One more log entry keeps the past, and the outputs stay cleared if it sends no more than zeros. */
  lemma Append(log: seq<Entry>, from: nat, e: Entry)
    requires from <= |log| && RatesFollowClear(log, from)
    requires IsRateWrite(e) ==> ClearedAt(log, from, |log|)
    ensures RatesFollowClear(log + [e], from)
    ensures ClearedAt(log, from, |log|) && (ToOutputs(e) ==> AllZero(e.write.regs)) ==>
              ClearedAt(log + [e], from, |log| + 1)
  {
    var log' := log + [e];
    forall k | from <= k < |log'| && IsRateWrite(log'[k]) ensures ClearedAt(log', from, k) {
      assert ClearedAt(log, from, k);
      var j :| from <= j < k && IsClear(log[j]) && ZerosSince(log, j, k);
      assert IsClear(log'[j]) && ZerosSince(log', j, k);
    }
    if ClearedAt(log, from, |log|) && (ToOutputs(e) ==> AllZero(e.write.regs)) {
      var j :| from <= j < |log| && IsClear(log[j]) && ZerosSince(log, j, |log|);
      assert IsClear(log'[j]) && ZerosSince(log', j, |log'|);
    }
  }

  lemma WaitingIsPending(adv: bool, s: State)
    ensures |Waiting(adv, s)| > 0 ==> Pending(s)
  {
  }

  lemma TickKeepsInv(env: Env, s: State, now: nat, from: nat)
    requires env.Valid() && Inv(s, from)
    ensures Inv(Tick(env, s, now), from)
  {
    match KindOfTick(env, s, now)
    case Clears =>
      var e := Wrote(now, CLEAR_OUTPUTS);
      Append(s.log, from, e);
      assert IsClear((s.log + [e])[|s.log|]) && ZerosSince(s.log + [e], |s.log|, |s.log| + 1);
    case Programs(r) =>
      WaitingIsPending(env.adv, s);
      Append(s.log, from, Wrote(now, RateWrite(r, Requested(s, r))));
    case Finishes =>
      var s' := Tick(env, s, now);
      Append(s.log, from, Wrote(now, Outputs(s'.values)));
  }

  lemma ConfigKeepsInv(env: Env, s: State, now: nat, ch: Channel, duty: int, period: Period, from: nat)
    requires env.Valid() && Inv(s, from)
    ensures Inv(Config(env, s, now, ch, duty, period), from)
  {
    Append(s.log, from, Accepted(now));
  }

  lemma DisableKeepsInv(s: State, now: nat, ch: Channel, from: nat)
    requires Inv(s, from)
    ensures Inv(Disable(s, now, ch), from)
  {
    Append(s.log, from, Wrote(now, RegWrite(PAGE_DIRECT_PWM, ch, [0])));
  }

  lemma StepKeepsInv(env: Env, s: State, e: Timed, from: nat)
    requires env.Valid() && Inv(s, from)
    ensures Inv(Step(env, s, e), from)
  {
    match e.event
    case ConfigCall(ch, duty, period) => ConfigKeepsInv(env, s, e.now, ch, duty, period, from);
    case DisableCall(ch) => DisableKeepsInv(s, e.now, ch, from);
    case ForceZeroCall => TickKeepsInv(env, s.(zeroCountdown := s.zeroCountdown + ZERO_SKIP_UPDATE_CYCLES), e.now, from);
    case WorkerTick => TickKeepsInv(env, s, e.now, from);
    case _ =>
  }

  /** Over every run after probe: interleave config, enable, disable, free, forced zeroing, mask
      changes and ticks in any order at any times. */
  lemma {:induction false} EveryRateWriteFollowsClear(env: Env, s: State, h: seq<Timed>, from: nat)
    requires env.Valid() && Inv(s, from)
    ensures Inv(Run(env, s, h), from)
    decreases |h|
  {
    if |h| > 0 {
      StepKeepsInv(env, s, h[0], from);
      EveryRateWriteFollowsClear(env, Step(env, s, h[0]), h[1..], from);
    }
  }

  lemma FromProbe(env: Env, s: State, h: seq<Timed>)
    requires env.Valid() && !s.noticed
    ensures RatesFollowClear(Run(env, s, h).log, |s.log|)
  {
    EveryRateWriteFollowsClear(env, s, h, |s.log|);
  }
}
