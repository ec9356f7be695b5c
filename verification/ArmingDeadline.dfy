/** The arming deadline on the kernel's wrapping clock: a tenth of a second after the last config
    call that passed the gate the worker stops writing outputs and rates. */
module ArmingDeadline {
  import opened Clock
  import opened PwmModel
  import opened PwmProbe
  import opened ClearBeforeRate

  datatype Moment = Never | At(time: nat)

  /** When the last config call that passed the gate was made. */
  function LastAccepted(log: seq<Entry>): Moment
    decreases |log|
  {
    if |log| == 0 then Never
    else
      var e := log[|log| - 1];
      if e.Accepted? then At(e.time) else LastAccepted(log[..|log| - 1])
  }

  /** A write the worker tick makes: the whole output page, or a rate. */
  predicate FromUpdate(e: Entry) {
    e.Wrote? && (IsRateWrite(e) || (ToOutputs(e) && |e.write.regs| == MAX_CHANNELS))
  }

  ghost predicate Inv(env: Env, s: State)
    requires env.Valid()
  {
    match LastAccepted(s.log)
    case Never => s.armTimeout == 0
    case At(t) => s.armTimeout == (t + env.hz / 10) % (2 * env.half)
  }

  /** Fewer than 2^(w-1) jiffies have gone by since the deadline of the last accepted call. */
  ghost predicate InWindow(env: Env, log: seq<Entry>, now: nat) {
    match LastAccepted(log)
    case Never => true
    case At(t) => t <= now < t + env.hz / 10 + env.half
  }

  ghost predicate Timely(env: Env, s: State, h: seq<Timed>)
    requires env.Valid()
    decreases |h|
  {
    |h| > 0 ==>
      && (h[0].event.WorkerTick? || h[0].event.ForceZeroCall? ==> InWindow(env, s.log, h[0].now))
      && Timely(env, Step(env, s, h[0]), h[1..])
  }

  /** Every worker write from position `from` on was made before the deadline of the last accepted
      call before it, and there was such a call. */
  ghost predicate Punctual(env: Env, log: seq<Entry>, from: nat) {
    forall k | from <= k < |log| && FromUpdate(log[k]) ::
      LastAccepted(log[..k]).At? && log[k].time < LastAccepted(log[..k]).time + env.hz / 10
  }

  lemma LastAcceptedAppend(log: seq<Entry>, e: Entry)
    ensures LastAccepted(log + [e]) == if e.Accepted? then At(e.time) else LastAccepted(log)
  {
  }

  /** Exactly when a tick finds itself armed, for as long as the clock has gone round less than once
      since the deadline: before the deadline, or again for half a turn once the clock has run half its
      range past it, and never if the deadline happens to wrap to zero. */
  lemma ArmedExactly(env: Env, s: State, now: nat)
    requires env.Valid() && Inv(env, s)
    requires LastAccepted(s.log).At? ==>
               var t := LastAccepted(s.log).time; t <= now < t + env.hz / 10 + 2 * env.half
    ensures Armed(env, s, now) <==>
            && LastAccepted(s.log).At?
            && var d := LastAccepted(s.log).time + env.hz / 10;
               d % (2 * env.half) != 0 && (now < d || now >= d + env.half)
  {
    if LastAccepted(s.log).At? {
      TimeBeforeWindow(now, LastAccepted(s.log).time + env.hz / 10, env.half);
    }
  }

  lemma TickWrites(env: Env, s: State, now: nat) returns (w: Entry)
    requires env.Valid()
    ensures w.Wrote? && w.time == now
    ensures Tick(env, s, now).log != s.log ==> Armed(env, s, now) && Tick(env, s, now).log == s.log + [w]
  {
    var t := Tick(env, s, now);
    match KindOfTick(env, s, now)
    case Clears => w := Wrote(now, CLEAR_OUTPUTS);
    case Programs(r) => w := Wrote(now, RateWrite(r, Requested(s, r)));
    case Finishes => w := Wrote(now, Outputs(t.values));
  }

  lemma TickPunctual(env: Env, s: State, now: nat) returns (w: Entry)
    requires env.Valid() && Inv(env, s) && InWindow(env, s.log, now)
    ensures Tick(env, s, now).log != s.log ==>
              && Tick(env, s, now).log == s.log + [w] && w.Wrote? && w.time == now
              && LastAccepted(s.log).At? && now < LastAccepted(s.log).time + env.hz / 10
  {
    w := TickWrites(env, s, now);
    ArmedExactly(env, s, now);
  }

  lemma AppendPunctual(env: Env, log: seq<Entry>, from: nat, e: Entry)
    requires from <= |log| && Punctual(env, log, from)
    requires FromUpdate(e) ==> LastAccepted(log).At? && e.time < LastAccepted(log).time + env.hz / 10
    ensures Punctual(env, log + [e], from)
  {
    var log' := log + [e];
    forall k | from <= k < |log'| && FromUpdate(log'[k])
      ensures LastAccepted(log'[..k]).At? && log'[k].time < LastAccepted(log'[..k]).time + env.hz / 10
    {
      assert log'[..k] == log[..k];
      if k == |log| { assert log[..k] == log; }
    }
  }

  lemma TickKeepsPunctual(env: Env, s: State, now: nat, from: nat)
    requires env.Valid() && Inv(env, s) && InWindow(env, s.log, now)
    requires from <= |s.log| && Punctual(env, s.log, from)
    ensures var t := Tick(env, s, now); Inv(env, t) && from <= |t.log| && Punctual(env, t.log, from)
  {
    var t := Tick(env, s, now);
    var w := TickPunctual(env, s, now);
    TickEffect(env, s, now);
    if t.log != s.log {
      LastAcceptedAppend(s.log, w);
      AppendPunctual(env, s.log, from, w);
    }
  }

  lemma ConfigKeepsPunctual(env: Env, s: State, now: nat, ch: Channel, duty: int, period: Period, from: nat)
    requires env.Valid() && Inv(env, s) && from <= |s.log| && Punctual(env, s.log, from)
    ensures var t := Config(env, s, now, ch, duty, period);
            Inv(env, t) && from <= |t.log| && Punctual(env, t.log, from)
  {
    if !Gated(s, ch, duty) {
      var t := Config(env, s, now, ch, duty, period);
      assert t.log == s.log + [Accepted(now)] && t.armTimeout == (now + env.hz / 10) % (2 * env.half);
      LastAcceptedAppend(s.log, Accepted(now));
      AppendPunctual(env, s.log, from, Accepted(now));
    }
  }

  lemma DisableKeepsPunctual(env: Env, s: State, now: nat, ch: Channel, from: nat)
    requires env.Valid() && Inv(env, s) && from <= |s.log| && Punctual(env, s.log, from)
    ensures var t := Disable(s, now, ch); Inv(env, t) && from <= |t.log| && Punctual(env, t.log, from)
  {
    var w := Wrote(now, RegWrite(PAGE_DIRECT_PWM, ch, [0]));
    LastAcceptedAppend(s.log, w);
    AppendPunctual(env, s.log, from, w);
  }

  lemma ForceZeroKeepsPunctual(env: Env, s: State, now: nat, from: nat)
    requires env.Valid() && Inv(env, s) && InWindow(env, s.log, now)
    requires from <= |s.log| && Punctual(env, s.log, from)
    ensures var t := ForceZero(env, s, now); Inv(env, t) && from <= |t.log| && Punctual(env, t.log, from)
  {
    TickKeepsPunctual(env, s.(zeroCountdown := s.zeroCountdown + ZERO_SKIP_UPDATE_CYCLES), now, from);
  }

  lemma StepKeepsPunctual(env: Env, s: State, e: Timed, from: nat)
    requires env.Valid() && Inv(env, s) && from <= |s.log| && Punctual(env, s.log, from)
    requires e.event.WorkerTick? || e.event.ForceZeroCall? ==> InWindow(env, s.log, e.now)
    ensures var t := Step(env, s, e); Inv(env, t) && from <= |t.log| && Punctual(env, t.log, from)
  {
    match e.event
    case ConfigCall(ch, duty, period) => ConfigKeepsPunctual(env, s, e.now, ch, duty, period, from);
    case DisableCall(ch) => DisableKeepsPunctual(env, s, e.now, ch, from);
    case ForceZeroCall => ForceZeroKeepsPunctual(env, s, e.now, from);
    case WorkerTick => TickKeepsPunctual(env, s, e.now, from);
    case EnableCall | FreeCall(_) | StoreIgnoreMask(_) =>
      assert Step(env, s, e).log == s.log;
  }

  lemma {:induction false} RunKeepsPunctual(env: Env, s: State, h: seq<Timed>, from: nat)
    requires env.Valid() && Inv(env, s) && from <= |s.log| && Punctual(env, s.log, from) && Timely(env, s, h)
    ensures var t := Run(env, s, h); Inv(env, t) && from <= |t.log| && Punctual(env, t.log, from)
    decreases |h|
  {
    if |h| > 0 {
      StepKeepsPunctual(env, s, h[0], from);
      RunKeepsPunctual(env, Step(env, s, h[0]), h[1..], from);
    }
  }

  lemma {:induction false} NothingAccepted(log: seq<Entry>)
    requires forall i | 0 <= i < |log| :: log[i].Wrote?
    ensures LastAccepted(log) == Never
    decreases |log|
  {
    if |log| > 0 { NothingAccepted(log[..|log| - 1]); }
  }

  /** Over every run from probe whose ticks stay within half a clock turn of the last deadline, every
      output page and every rate the worker writes goes out less than HZ/10 jiffies after the last
      config call that passed the gate. */
  lemma WorkerMeetsDeadline(env: Env, start: nat, h: seq<Timed>)
    requires env.Valid() && Timely(env, InitialState(env, start), h)
    ensures Punctual(env, Run(env, InitialState(env, start), h).log, |ProbeLog(env.adv, start)|)
  {
    RcLogPage(start, MAX_CHANNELS);
    GroupLogPage(start, TIMER_COUNT);
    NothingAccepted(ProbeLog(env.adv, start));
    RunKeepsPunctual(env, InitialState(env, start), h, |ProbeLog(env.adv, start)|);
  }
}
