/** A channel that was disabled or freed stays at zero: its stored value, every write that reaches its output,
    and after a disable the device itself, until a config call of that channel with a duty passes again. */
module StoppedChannels {
  import opened PwmModel
  import opened ConfigEffect

  lemma DisableEffect(env: Env, s: State, now: nat, ch: Channel)
    requires env.Valid()
    ensures Step(env, s, Timed(now, DisableCall(ch))) ==
            s.(values := s.values[ch := 0], armed := false, log := s.log + [Wrote(now, RegWrite(54, ch, [0]))])
  {
  }

  lemma FreeEffect(env: Env, s: State, now: nat, ch: Channel)
    requires env.Valid()
    ensures Step(env, s, Timed(now, FreeCall(ch))) == s.(values := s.values[ch := 0])
  {
  }

  /** A config call that puts the channel to use again: one of its own, with a duty, that passes. */
  predicate Restarts(s: State, e: Event, ch: Channel) {
    e.ConfigCall? && e.ch == ch && e.duty != 0 && Passes(s, ch, e.duty)
  }

  ghost predicate NoRestart(env: Env, s: State, h: seq<Timed>, ch: Channel)
    requires env.Valid()
    decreases |h|
  {
    |h| > 0 ==> !Restarts(s, h[0].event, ch) && NoRestart(env, Step(env, s, h[0]), h[1..], ch)
  }

  predicate ZeroOn(e: Entry, ch: Channel) {
    Covers(e, 54, ch) ==> e.write.regs[ch - e.write.offset] == 0
  }

  /** The channel holds zero and from log position `from` on got nothing else. */
  ghost predicate Stopped(s: State, ch: Channel, from: nat) {
    s.values[ch] == 0 && from <= |s.log| && forall i | from <= i < |s.log| :: ZeroOn(s.log[i], ch)
  }

  /** Enough for a step to keep the channel stopped, and the log as it was. */
  lemma StepBy(s: State, t: State, ch: Channel, from: nat, e: Entry)
    requires Stopped(s, ch, from) && t.values[ch] == 0 && ZeroOn(e, ch)
    requires t.log == s.log || t.log == s.log + [e]
    ensures Stopped(t, ch, from) && s.log <= t.log
  {
  }

  lemma ConfigKeepsStopped(env: Env, s: State, now: nat, c: Channel, duty: int, period: Period, ch: Channel, from: nat)
    requires env.Valid() && Stopped(s, ch, from) && !Restarts(s, ConfigCall(c, duty, period), ch)
    ensures var t := Config(env, s, now, c, duty, period); Stopped(t, ch, from) && s.log <= t.log
  {
    var t := Config(env, s, now, c, duty, period);
    if !Passes(s, c, duty) {
      HeldBackCall(env, s, now, c, duty, period);
    } else if env.adv {
      GroupConfig(env, s, now, c, duty, period, c / 4, FrequencyOf(period));
    } else if c < 8 {
      LowBankConfig(env, s, now, c, duty, period, FrequencyOf(period));
    } else {
      HighBankConfig(env, s, now, c, duty, period, FrequencyOf(period));
    }
    StepBy(s, t, ch, from, Accepted(now));
  }

  lemma DisableKeepsStopped(s: State, now: nat, c: Channel, ch: Channel, from: nat)
    requires Stopped(s, ch, from)
    ensures var t := Disable(s, now, c); Stopped(t, ch, from) && s.log <= t.log
  {
    StepBy(s, Disable(s, now, c), ch, from, Wrote(now, RegWrite(54, c, [0])));
  }

  lemma TickKeepsStopped(env: Env, s: State, now: nat, ch: Channel, from: nat)
    requires env.Valid() && Stopped(s, ch, from)
    ensures var t := Tick(env, s, now); Stopped(t, ch, from) && s.log <= t.log
  {
    var t := Tick(env, s, now);
    TickEffect(env, s, now);
    match KindOfTick(env, s, now)
    case Clears => StepBy(s, t, ch, from, Wrote(now, CLEAR_OUTPUTS));
    case Programs(r) => StepBy(s, t, ch, from, Wrote(now, RateWrite(r, Requested(s, r))));
    case Finishes => StepBy(s, t, ch, from, Wrote(now, Outputs(t.values)));
  }

  lemma ForceZeroKeepsStopped(env: Env, s: State, now: nat, ch: Channel, from: nat)
    requires env.Valid() && Stopped(s, ch, from)
    ensures var t := ForceZero(env, s, now); Stopped(t, ch, from) && s.log <= t.log
  {
    var s1 := s.(zeroCountdown := s.zeroCountdown + ZERO_SKIP_UPDATE_CYCLES);
    TickKeepsStopped(env, s1, now, ch, from);
  }

  lemma StepKeepsStopped(env: Env, s: State, e: Timed, ch: Channel, from: nat)
    requires env.Valid() && Stopped(s, ch, from) && !Restarts(s, e.event, ch)
    ensures var t := Step(env, s, e); Stopped(t, ch, from) && s.log <= t.log
  {
    match e.event
    case ConfigCall(c, duty, period) => ConfigKeepsStopped(env, s, e.now, c, duty, period, ch, from);
    case DisableCall(c) => DisableKeepsStopped(s, e.now, c, ch, from);
    case ForceZeroCall => ForceZeroKeepsStopped(env, s, e.now, ch, from);
    case WorkerTick => TickKeepsStopped(env, s, e.now, ch, from);
    case _ =>
  }

  lemma {:induction false} RunKeepsStopped(env: Env, s: State, h: seq<Timed>, ch: Channel, from: nat)
    requires env.Valid() && Stopped(s, ch, from) && NoRestart(env, s, h, ch)
    ensures var t := Run(env, s, h); Stopped(t, ch, from) && s.log <= t.log
    decreases |h|
  {
    if |h| > 0 {
      StepKeepsStopped(env, s, h[0], ch, from);
      RunKeepsStopped(env, Step(env, s, h[0]), h[1..], ch, from);
    }
  }

  lemma {:induction false} LastIsZero(log: seq<Entry>, ch: Channel, from: nat)
    requires from < |log| && Covers(log[from], 54, ch)
    requires forall i | from <= i < |log| :: ZeroOn(log[i], ch)
    ensures DeviceOutput(log, ch) == 0
    decreases |log|
  {
    var n := |log| - 1;
    if !Covers(log[n], 54, ch) {
      assert log[..n][from] == log[from];
      LastIsZero(log[..n], ch, from);
    }
  }

  /** From a disable up to the next config call of the channel with a duty that passes: every write that covers its output,
      the disable's own included, carries zero there, its stored value is zero, every other channel kept its
      value through the call, and over a lossless transport the device's output is zero. */
  lemma DisabledStaysZero(env: Env, s: State, now: nat, ch: Channel, h: seq<Timed>)
    requires env.Valid() && NoRestart(env, Step(env, s, Timed(now, DisableCall(ch))), h, ch)
    ensures var s1 := Step(env, s, Timed(now, DisableCall(ch))); var t := Run(env, s1, h);
            && (forall i: Channel | i != ch :: s1.values[i] == s.values[i])
            && Stopped(t, ch, |s.log|) && DeviceOutput(t.log, ch) == 0
  {
    var s1 := Step(env, s, Timed(now, DisableCall(ch)));
    var t := Run(env, s1, h);
    DisableEffect(env, s, now, ch);
    RunKeepsStopped(env, s1, h, ch, |s.log|);
    assert t.log[|s.log|] == s1.log[|s.log|];
    LastIsZero(t.log, ch, |s.log|);
  }

  /** The same for a free, which itself sends nothing: from then on the channel gets zeros only. */
  lemma FreedStaysZero(env: Env, s: State, now: nat, ch: Channel, h: seq<Timed>)
    requires env.Valid() && NoRestart(env, Step(env, s, Timed(now, FreeCall(ch))), h, ch)
    ensures var s1 := Step(env, s, Timed(now, FreeCall(ch))); var t := Run(env, s1, h);
            && (forall i: Channel | i != ch :: s1.values[i] == s.values[i])
            && s1.log == s.log && Stopped(t, ch, |s.log|)
  {
    FreeEffect(env, s, now, ch);
    RunKeepsStopped(env, Step(env, s, Timed(now, FreeCall(ch))), h, ch, |s.log|);
  }
}
