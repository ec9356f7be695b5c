/** A pin GPIO took from PWM stays out of PWM's hands: it enters the ignore mask, leaves it only by a release or
    a store of the mask, and while its bit is set nothing but zeros reach it. */
module TakenPins {
  import opened PinWords
  import opened PinModel
  import Pwm = PwmModel
  import opened ConfigEffect
  import opened StoppedChannels
  import TickOrder

  // ---------------------------------------------------------------- in and out of the mask

  /** A GPIO request that got as far as a PWM mask with its pin in it, whatever came back from the removal and
      from everything after it; or a store of a mask that has the pin's bit. */
  predicate Enters(e: Event, p: Pin) {
    || (e.GpioRequested? && e.pin == p && e.running >= 0 && e.pwmRead.ret >= 0 && p in e.pwmRead.mask)
    || (e.IgnoreStored? && e.parsed && 0 <= e.mask <= 0xFFFF && Pwm.Ignored(e.mask as bv16, p))
  }

  /** A release of the pin or a higher one that could read what it needs; or a store of a mask without it. */
  predicate Leaves(e: Event, p: Pin) {
    || (e.GpioFreed? && e.pin >= p && e.running >= 0 && e.gpioRead.ret >= 0)
    || (e.IgnoreStored? && e.parsed && 0 <= e.mask <= 0xFFFF && !Pwm.Ignored(e.mask as bv16, p))
  }

  lemma StoreIgnores(s: State, e: Event, mask: bv16, p: Pin)
    requires e.IgnoreStored? && e.parsed && 0 <= e.mask <= 0xFFFF && mask == e.mask as bv16
    ensures p in Step(s, e).ignored <==> Pwm.Ignored(mask, p)
  {
    IgnoredBit(mask, p);
    StoredBit(s, e, mask, p);
  }

  lemma IgnoredBit(mask: bv16, p: Pin)
    ensures Pwm.Ignored(mask, p) <==> p in Pins(mask)
  {
    ShiftedBit(mask, p);
  }

  lemma StoredBit(s: State, e: Event, mask: bv16, p: Pin)
    requires e.IgnoreStored? && e.parsed && 0 <= e.mask <= 0xFFFF && mask == e.mask as bv16
    ensures p in Step(s, e).ignored <==> p in Pins(mask)
  {
  }

  /** The exact effect of every step on one pin of the mask. */
  lemma StepIgnores(s: State, e: Event, p: Pin)
    ensures p in Step(s, e).ignored <==> Enters(e, p) || (p in s.ignored && !Leaves(e, p))
  {
    if e.IgnoreStored? && e.parsed && 0 <= e.mask <= 0xFFFF {
      StoreIgnores(s, e, e.mask as bv16, p);
    }
  }

  /** From position `i` of the history on the pin was not let go. */
  predicate HeldFrom(h: seq<Event>, p: Pin, i: nat) {
    forall j | i <= j < |h| :: !Leaves(h[j], p)
  }

  /** The pin was taken, or a mask with its bit stored, and it was not let go since. */
  predicate TakenIn(h: seq<Event>, p: Pin) {
    exists i | 0 <= i < |h| :: Enters(h[i], p) && HeldFrom(h, p, i + 1)
  }

  lemma HeldOneMore(h: seq<Event>, p: Pin, i: nat)
    requires 0 < |h| && i < |h|
    ensures HeldFrom(h, p, i) <==> HeldFrom(h[..|h| - 1], p, i) && !Leaves(h[|h| - 1], p)
  {
    var n := |h| - 1;
    if HeldFrom(h[..n], p, i) && !Leaves(h[n], p) {
      forall j | i <= j < |h| ensures !Leaves(h[j], p) { if j < n { assert h[j] == h[..n][j]; } }
    }
  }

  lemma TakenOneMore(h: seq<Event>, p: Pin)
    requires 0 < |h|
    ensures TakenIn(h, p) <==> Enters(h[|h| - 1], p) || (TakenIn(h[..|h| - 1], p) && !Leaves(h[|h| - 1], p))
  {
    var n := |h| - 1;
    if TakenIn(h, p) {
      var i: nat :| i < |h| && Enters(h[i], p) && HeldFrom(h, p, i + 1);
      if i < n { HeldOneMore(h, p, i + 1); assert h[..n][i] == h[i]; }
    }
    if Enters(h[n], p) {
      assert HeldFrom(h, p, n + 1);
    } else if TakenIn(h[..n], p) && !Leaves(h[n], p) {
      var i: nat :| i < n && Enters(h[..n][i], p) && HeldFrom(h[..n], p, i + 1);
      HeldOneMore(h, p, i + 1);
      assert h[i] == h[..n][i];
    }
  }

  /** Over every run a pin is ignored exactly if it was taken and not let go since, or was ignored at the start
      and never let go. */
  lemma {:induction false} IgnoredIffTaken(s: State, h: seq<Event>, p: Pin)
    ensures p in Run(s, h).ignored <==> TakenIn(h, p) || (p in s.ignored && HeldFrom(h, p, 0))
    decreases |h|
  {
    if |h| > 0 {
      var n := |h| - 1;
      IgnoredIffTaken(s, h[..n], p);
      StepIgnores(Run(s, h[..n]), h[n], p);
      TakenOneMore(h, p);
      HeldOneMore(h, p, 0);
    }
  }

  // ---------------------------------------------------------------- what the mask does for the pin

  /** The two sides keep one mask: the pins ignored are its bits. */
  predicate Shared(pins: State, pwm: Pwm.State) {
    pins.ignored == Pins(pwm.ignoreMask)
  }

  /** A config of an ignored pin with a duty stores a zero and changes nothing else, for all sixteen. */
  lemma TakenPinTakesNoDuty(env: Pwm.Env, pins: State, pwm: Pwm.State, p: Pin, now: nat, duty: int, period: Pwm.Period)
    requires env.Valid() && Shared(pins, pwm) && p in pins.ignored && duty != 0
    ensures Pwm.Step(env, pwm, Pwm.Timed(now, Pwm.ConfigCall(p, duty, period))) == pwm.(values := pwm.values[p := 0])
  {
    ShiftedBit(pwm.ignoreMask, p);
    HeldBackCall(env, pwm, now, p, duty, period);
  }

  /** A store replaces the whole mask and does nothing else to the PWM side. */
  lemma MaskStoreEffect(env: Pwm.Env, s: Pwm.State, now: nat, mask: bv16)
    requires env.Valid()
    ensures Pwm.Step(env, s, Pwm.Timed(now, Pwm.StoreIgnoreMask(mask))) == s.(ignoreMask := mask)
  {
  }

  /** No store of the mask in the history drops the pin. */
  predicate StoresKeep(h: seq<Pwm.Timed>, p: Pin) {
    forall i | 0 <= i < |h| :: h[i].event.StoreIgnoreMask? ==> Pwm.Ignored(h[i].event.mask, p)
  }

  lemma StepKeepsBit(env: Pwm.Env, s: Pwm.State, e: Pwm.Timed, p: Pin)
    requires env.Valid() && Pwm.Ignored(s.ignoreMask, p)
    requires e.event.StoreIgnoreMask? ==> Pwm.Ignored(e.event.mask, p)
    ensures Pwm.Ignored(Pwm.Step(env, s, e).ignoreMask, p)
  {
    match e.event
    case WorkerTick => Pwm.TickEffect(env, s, e.now);
    case ForceZeroCall =>
      Pwm.TickEffect(env, s.(zeroCountdown := s.zeroCountdown + Pwm.ZERO_SKIP_UPDATE_CYCLES), e.now);
    case _ =>
  }

  lemma {:induction false} IgnoredNeverRestarts(env: Pwm.Env, s: Pwm.State, h: seq<Pwm.Timed>, p: Pin)
    requires env.Valid() && Pwm.Ignored(s.ignoreMask, p) && StoresKeep(h, p)
    ensures NoRestart(env, s, h, p)
    decreases |h|
  {
    if |h| > 0 {
      StepKeepsBit(env, s, h[0], p);
      IgnoredNeverRestarts(env, Pwm.Step(env, s, h[0]), h[1..], p);
    }
  }

  /** A pin at zero when GPIO takes it stays at zero while it is ignored: over every run of the PWM side, whatever
      is configured, every write that covers its output carries zero there. */
  lemma TakenPinGetsNoPulse(env: Pwm.Env, pins: State, pwm: Pwm.State, h: seq<Pwm.Timed>, p: Pin)
    requires env.Valid() && Shared(pins, pwm) && p in pins.ignored && StoresKeep(h, p) && pwm.values[p] == 0
    ensures Stopped(Pwm.Run(env, pwm, h), p, |pwm.log|)
  {
    ShiftedBit(pwm.ignoreMask, p);
    IgnoredNeverRestarts(env, pwm, h, p);
    RunKeepsStopped(env, pwm, h, p, |pwm.log|);
  }

  /** From log position `from` on nothing but zeros were written to the output. */
  ghost predicate Silent(s: Pwm.State, p: Pin, from: nat) {
    forall i | from <= i < |s.log| :: ZeroOn(s.log[i], p)
  }

  lemma QuietTickSends(env: Pwm.Env, s: Pwm.State, now: nat, p: Pin)
    requires env.Valid() && Pwm.Armed(env, s, now) && !Pwm.Pending(s) && s.zeroCountdown == 0
    requires Silent(Pwm.Tick(env, s, now), p, |s.log|)
    ensures s.values[p] == 0
  {
    var t := Pwm.Tick(env, s, now);
    TickOrder.QuietTick(env, s, now);
    assert t.log[|s.log|] == Pwm.Wrote(now, Pwm.RegWrite(54, 0, t.values));
    assert ZeroOn(t.log[|s.log|], p);
  }

  /** Taking a pin does not clear what PWM stored for it. In a state that streams, an ignored pin gets nothing but
      zeros from then on, whatever run follows, if and only if its stored value is zero. */
  lemma SilentIffStoredZero(env: Pwm.Env, s: Pwm.State, now: nat, p: Pin)
    requires env.Valid() && Pwm.Ignored(s.ignoreMask, p)
    requires Pwm.Armed(env, s, now) && !Pwm.Pending(s) && s.zeroCountdown == 0
    ensures (forall h: seq<Pwm.Timed> | StoresKeep(h, p) :: Silent(Pwm.Run(env, s, h), p, |s.log|)) <==> s.values[p] == 0
  {
    if s.values[p] == 0 {
      forall h: seq<Pwm.Timed> | StoresKeep(h, p) ensures Silent(Pwm.Run(env, s, h), p, |s.log|) {
        IgnoredNeverRestarts(env, s, h, p);
        RunKeepsStopped(env, s, h, p, |s.log|);
      }
    } else {
      var h := [Pwm.Timed(now, Pwm.WorkerTick)];
      assert StoresKeep(h, p) && Pwm.Run(env, s, h) == Pwm.Tick(env, s, now) by {
        assert h[1..] == [];
      }
      if Silent(Pwm.Run(env, s, h), p, |s.log|) { QuietTickSends(env, s, now, p); }
    }
  }
}
