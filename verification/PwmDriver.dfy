/** The PWM driver as it is written: static arrays and flags updated in place. Every
    operation is proved to do to the state what PwmModel says it does. */
module PwmDriver {
  import opened Clock
  import opened Errno
  import opened PwmModel
  import opened PwmProbe

  class Driver {
    const env: Env
    const values: array<u16>
    const frequencies: array<u16>
    const newFrequencies: array<u16>
    const updateRequired: array<bool>
    var altFrequency: u16
    var altUpdated: bool
    var defaultFrequency: u16
    var defaultUpdated: bool
    var armed: bool
    var armTimeout: nat
    var zeroCountdown: int
    var noticed: bool
    /** Owned by the GPIO side, read here. */
    var ignoreMask: bv16
    ghost var log: seq<Entry>

    ghost predicate Valid()
      reads this
    {
      && env.Valid()
      && values.Length == MAX_CHANNELS
      && frequencies.Length == newFrequencies.Length == updateRequired.Length == TIMER_COUNT
      && values != frequencies && values != newFrequencies && frequencies != newFrequencies
    }

    ghost function View(): State
      requires Valid()
      reads this, values, frequencies, newFrequencies, updateRequired
    {
      Pwm(values[..], altFrequency, altUpdated, defaultFrequency, defaultUpdated,
          frequencies[..], newFrequencies[..], updateRequired[..],
          armed, armTimeout, zeroCountdown, noticed, ignoreMask, log)
    }

    constructor (env: Env)
      requires env.Valid()
      ensures Valid() && this.env == env && View() == POWER_ON
      ensures fresh(values) && fresh(frequencies) && fresh(newFrequencies) && fresh(updateRequired)
    {
      this.env := env;
      values := new u16[MAX_CHANNELS](_ => 0);
      frequencies := new u16[TIMER_COUNT](_ => 50);
      newFrequencies := new u16[TIMER_COUNT](_ => 50);
      updateRequired := new bool[TIMER_COUNT](_ => false);
      altFrequency, altUpdated := 50, false;
      defaultFrequency, defaultUpdated := 50, false;
      armed, armTimeout, zeroCountdown, noticed := false, 0, 0, false;
      ignoreMask, log := 0, [];
    }

    // ---------------------------------------------------------------- writes to the device

    /** register_set as this driver uses it: the result is ignored, so only the request counts. */
    ghost method RegisterSet(now: nat, w: RegWrite)
      modifies `log
      ensures log == old(log) + [Wrote(now, w)]
    {
      log := log + [Wrote(now, w)];
    }

    method ClearOutputs(now: nat)
      requires Valid()
      modifies `log
      ensures View() == Issue(old(View()), now, CLEAR_OUTPUTS)
    {
      var clearValues := new u16[MAX_CHANNELS];
      var i := 0;
      while i < MAX_CHANNELS
        invariant 0 <= i <= MAX_CHANNELS
        invariant forall k | 0 <= k < i :: clearValues[k] == 0
        invariant log == old(log)
      {
        clearValues[i] := 0;
        i := i + 1;
      }
      assert clearValues[..] == ZEROS;
      assert Outputs(clearValues[..]) == CLEAR_OUTPUTS;
      RegisterSet(now, CLEAR_OUTPUTS);
    }

    method UpdateRate(now: nat, r: RateRegister)
      requires Valid() && (r.Group? ==> r.g < TIMER_COUNT)
      modifies `log, `altUpdated, `defaultUpdated, frequencies, updateRequired
      ensures View() == ServeRate(old(View()), now, r)
    {
      match r
      case Group(g) =>
        RegisterSet(now, RateWrite(r, newFrequencies[g]));
        frequencies[g] := newFrequencies[g];
        updateRequired[g] := false;
      case Alt =>
        RegisterSet(now, RateWrite(r, altFrequency));
        altUpdated := false;
      case Default =>
        RegisterSet(now, RateWrite(r, defaultFrequency));
        defaultUpdated := false;
    }

    method SetZeroValues()
      requires Valid()
      modifies values
      ensures values[..] == ZeroMotors(old(values[..]))
    {
      var i := 0;
      while i < MAX_ZEROED_CHANNELS
        invariant 0 <= i <= MAX_ZEROED_CHANNELS
        invariant forall k | 0 <= k < i :: values[k] == 0
        invariant forall k | i <= k < MAX_CHANNELS :: values[k] == old(values[k])
      {
        values[i] := 0;
        i := i + 1;
      }
    }

    // ---------------------------------------------------------------- probe

    /** `result` is what the register write returns. */
    method SetInitialRcChannelConfig(now: nat, config: RcConfig, result: int) returns (ret: int)
      requires Valid()
      modifies `log
      ensures config.channel >= MAX_CHANNELS ==> ret == -E2BIG && log == old(log)
      ensures config.channel < MAX_CHANNELS ==> ret == result && log == old(log) + [Wrote(now, RcWrite(config))]
    {
      if config.channel >= MAX_CHANNELS {
        return -E2BIG;
      }
      var regs := new u16[RC_CONFIG_STRIDE](_ => 0);
      var offset := config.channel * RC_CONFIG_STRIDE;
      regs[0] := config.min;
      regs[1] := config.trim;
      regs[2] := config.max;
      regs[3] := config.deadZone;
      regs[4] := config.assignment;
      regs[5] := RC_ENABLED;
      if config.reverse {
        regs[5] := regs[5] + RC_REVERSE;
      }
      assert regs[..] == RcFields(config);
      RegisterSet(now, RegWrite(PAGE_RC_CONFIG, offset % 0x100, regs[..]));
      ret := result;
    }

    /** A channel that fails is only reported. */
    method SetInitialRcConfig(now: nat, results: seq<int>) returns (ret: int)
      requires Valid() && |results| == MAX_CHANNELS
      modifies `log
      ensures ret == 0 && log == old(log) + RcLog(now, MAX_CHANNELS)
    {
      var channel := 0;
      while channel < MAX_CHANNELS
        invariant 0 <= channel <= MAX_CHANNELS
        invariant log == old(log) + RcLog(now, channel)
      {
        var _ := SetInitialRcChannelConfig(now, InitialRc(channel), results[channel]);
        channel := channel + 1;
      }
      ret := 0;
    }

    method ProgramInitialGroups(now: nat)
      requires Valid() && View().(log := []) == POWER_ON
      modifies this, frequencies, updateRequired
      ensures Valid() && View() == old(View()).(log := old(log) + GroupLog(now, TIMER_COUNT))
    {
      var i := 0;
      while i < TIMER_COUNT
        invariant 0 <= i <= TIMER_COUNT
        invariant View() == old(View()).(log := old(log) + GroupLog(now, i))
      {
        UpdateRate(now, Group(i));
        i := i + 1;
        assert frequencies[..] == POWER_ON.frequencies && updateRequired[..] == POWER_ON.updateRequired;
      }
    }

    /** The three bank registers in turn, stopping at the first that fails. */
    method ProgramInitialBanks(now: nat, rates: int, alt: int, default': int) returns (ok: bool)
      requires Valid() && View().(log := []) == POWER_ON
      modifies `log
      ensures ok == (rates >= 0 && alt >= 0 && default' >= 0)
      ensures ok ==> log == old(log) + BankLog(now)
      ensures old(log) < log <= old(log) + BankLog(now)
    {
      RegisterSet(now, RegWrite(PAGE_SETUP, SETUP_PWM_RATES, [0xFF]));
      if rates < 0 {
        return false;
      }
      RegisterSet(now, RateWrite(Alt, altFrequency));
      if alt < 0 {
        return false;
      }
      RegisterSet(now, RateWrite(Default, defaultFrequency));
      ok := default' >= 0;
      assert log == old(log) + BankLog(now);
    }

    /** The parameters are what the register writes return. A successful call leaves the driver and the
        device in the state all runs start from; a failed one has changed nothing but the device. */
    method HardwareInit(now: nat, safety: int, arming: int, rates: int, alt: int, default': int, rc: seq<int>)
      returns (ret: int)
      requires Valid() && View() == POWER_ON && |rc| == MAX_CHANNELS
      modifies this, frequencies, updateRequired
      ensures Valid()
      ensures ret == 0 <==> safety >= 0 && arming >= 0 && (env.adv || (rates >= 0 && alt >= 0 && default' >= 0))
      ensures ret == 0 ==> View() == InitialState(env, now)
      ensures ret != 0 ==> ret == -ENOTCONN && View() == POWER_ON.(log := log) && log <= ProbeLog(env.adv, now)
    {
      RegisterSet(now, SetupLog(now)[0].write);
      if safety < 0 {
        return -ENOTCONN;
      }
      RegisterSet(now, SetupLog(now)[1].write);
      assert log == SetupLog(now);
      if arming < 0 {
        return -ENOTCONN;
      }
      if env.adv {
        ProgramInitialGroups(now);
      } else {
        var ok := ProgramInitialBanks(now, rates, alt, default');
        if !ok {
          return -ENOTCONN;
        }
      }
      var _ := SetInitialRcConfig(now, rc);
      ret := 0;
    }

    // ---------------------------------------------------------------- the worker tick

    method SomeRatePending() returns (some: bool)
      requires Valid()
      ensures some == Pending(View())
    {
      some := altUpdated || defaultUpdated;
      var i := 0;
      while i < TIMER_COUNT
        invariant 0 <= i <= TIMER_COUNT
        invariant some == (altUpdated || defaultUpdated || true in updateRequired[..i])
      {
        assert updateRequired[..i + 1] == updateRequired[..i] + [updateRequired[i]];
        some := some || updateRequired[i];
        i := i + 1;
      }
      assert updateRequired[..TIMER_COUNT] == updateRequired[..];
    }

    /** The rate the next tick programs, if any: the first pending group, or alt before default. */
    method NextRate() returns (found: bool, r: RateRegister)
      requires Valid()
      ensures found == (|Waiting(env.adv, View())| > 0)
      ensures found ==> r == Waiting(env.adv, View())[0] && (r.Group? ==> r.g < TIMER_COUNT)
    {
      found, r := false, Alt;
      if env.adv {
        var i := 0;
        while i < TIMER_COUNT
          invariant 0 <= i <= TIMER_COUNT
          invariant WaitingGroups(View(), 0) == WaitingGroups(View(), i)
        {
          if updateRequired[i] {
            return true, Group(i);
          }
          i := i + 1;
        }
      } else if altUpdated {
        return true, Alt;
      } else if defaultUpdated {
        return true, Default;
      }
    }

    /** `now` is the number of jiffies since boot; the kernel's counter wraps. */
    method Update(now: nat)
      requires Valid()
      modifies this, values, frequencies, updateRequired
      ensures Valid() && View() == Tick(env, old(View()), now)
    {
      var someFreqUpdated := SomeRatePending();
      var jiffies := now % (2 * env.half);
      armed := TimeBefore(jiffies, armTimeout, env.half) && armTimeout > 0;
      if armed {
        var done := DealWithRates(now, someFreqUpdated);
        if done {
          return;
        }
      }
      FinishTick(now, someFreqUpdated);
    }

    /** A tick that finds itself armed: the clear before the first change, then the changes. */
    method DealWithRates(now: nat, someFreqUpdated: bool) returns (done: bool)
      requires Valid() && someFreqUpdated == Pending(View())
      modifies `log, `altUpdated, `defaultUpdated, `noticed, frequencies, updateRequired
      ensures Valid()
      ensures var s := old(View());
              if Pending(s) && !s.noticed then done && View() == Issue(s, now, CLEAR_OUTPUTS).(noticed := true)
              else if |Waiting(env.adv, s)| > 0 then
                var r := Waiting(env.adv, s)[0];
                done && (r.Group? ==> r.g < TIMER_COUNT) && View() == ServeRate(s, now, r)
              else !done && View() == s
    {
      if someFreqUpdated && !noticed {
        ClearOutputs(now);
        noticed := true;
        return true;
      }
      done := ServeNext(now);
    }

    /** Program the rate that is next, if one is waiting. */
    method ServeNext(now: nat) returns (served: bool)
      requires Valid()
      modifies `log, `altUpdated, `defaultUpdated, frequencies, updateRequired
      ensures Valid() && served == (|Waiting(env.adv, old(View()))| > 0)
      ensures !served ==> View() == old(View())
      ensures served ==>
                var r := Waiting(env.adv, old(View()))[0];
                (r.Group? ==> r.g < TIMER_COUNT) && View() == ServeRate(old(View()), now, r)
    {
      var found, r := NextRate();
      if found {
        UpdateRate(now, r);
      }
      served := found;
    }

    method FinishTick(now: nat, someFreqUpdated: bool)
      requires Valid() && someFreqUpdated == Pending(View())
      modifies this, values
      ensures Valid() && View() == Finish(old(View()), now)
    {
      noticed := false;
      if zeroCountdown > 0 {
        zeroCountdown := zeroCountdown - 1;
        SetZeroValues();
      } else if zeroCountdown < 0 {
        zeroCountdown := 0;
      }
      if armed && !someFreqUpdated {
        RegisterSet(now, Outputs(values[..]));
      }
    }

    // ---------------------------------------------------------------- client calls

    method ForceZeroDuty(now: nat)
      requires Valid()
      modifies this, values, frequencies, updateRequired
      ensures Valid() && View() == ForceZero(env, old(View()), now)
    {
      zeroCountdown := zeroCountdown + ZERO_SKIP_UPDATE_CYCLES;
      Update(now);
    }

    method Enable()
      requires Valid()
      modifies `armed
      ensures View() == old(View()).(armed := true)
    {
      armed := true;
    }

    method DisableChannel(now: nat, ch: Channel)
      requires Valid()
      modifies this, values
      ensures Valid() && View() == Disable(old(View()), now, ch)
    {
      values[ch] := 0;
      RegisterSet(now, RegWrite(PAGE_DIRECT_PWM, ch, [values[ch]]));
      armed := false;
    }

    method FreeChannel(ch: Channel)
      requires Valid()
      modifies values
      ensures View() == Free(old(View()), ch)
    {
      values[ch] := 0;
    }

    /** Group mode: a rate change is safe from the control pin, or while the group stands still. */
    method ShouldChangeFreqNewWay(ch: Channel, g: nat, f: u16) returns (b: bool)
      requires Valid() && env.adv && g == ch / CHANNELS_PER_TIMER
      ensures b == GroupRequestsRate(View(), ch, f)
    {
      var controlPin := g * 4;
      if frequencies[g] == f {
        return false;
      }
      if ch == controlPin {
        return true;
      }
      var motorsAreStopped := true;
      var i := controlPin;
      while i < controlPin + CHANNELS_PER_TIMER
        invariant controlPin <= i <= controlPin + 4
        invariant motorsAreStopped == forall k | controlPin <= k < i :: values[k] == 0
      {
        if values[i] != 0 {
          motorsAreStopped := false;
        }
        i := i + 1;
      }
      return motorsAreStopped;
    }

    method ShouldChangeFreqOldWay(ch: Channel, f: u16, duty: int) returns (b: bool)
      requires Valid()
      ensures b == BankRequestsRate(View(), ch, duty, f)
    {
      if ch < 8 {
        b := f != altFrequency && duty != 0 && (ch == 0 || ch == 4);
      } else {
        b := f != defaultFrequency && duty != 0 && (ch == 8 || ch == 12);
      }
    }

    method ConfigNewWay(ch: Channel, duty: int, f: u16)
      requires Valid() && env.adv
      modifies values, newFrequencies, updateRequired
      ensures View() == Reconfigure(true, old(View()), ch, duty, f)
    {
      var g := if ch <= 3 then 0 else if ch <= 7 then 1 else if ch <= 11 then 2 else 3;
      var change := ShouldChangeFreqNewWay(ch, g, f);
      if change {
        newFrequencies[g] := f;
        updateRequired[g] := true;
      }
      if frequencies[g] == f {
        values[ch] := DutyOf(duty);
      } else {
        values[ch] := 0;
      }
    }

    method ConfigOldWay(ch: Channel, duty: int, f: u16)
      requires Valid()
      modifies this, values
      ensures Valid() && View() == Reconfigure(false, old(View()), ch, duty, f)
    {
      var change := ShouldChangeFreqOldWay(ch, f, duty);
      if change {
        if ch < 8 {
          altFrequency, altUpdated := f, true;
        } else {
          defaultFrequency, defaultUpdated := f, true;
        }
      }
      if (ch < 8 && f == altFrequency) || (ch >= 8 && f == defaultFrequency) {
        values[ch] := DutyOf(duty);
      } else {
        values[ch] := 0;
      }
    }

    /** A tenth of a second from now; `log` notes that the call passed the gate. */
    method SetDeadline(now: nat)
      requires Valid()
      modifies `armTimeout, `log
      ensures Valid() && View() == Accept(env, old(View()), now)
    {
      var jiffies := now % (2 * env.half);
      armTimeout := (jiffies + env.hz / 10) % (2 * env.half);
      WrappedSum(now, env.hz / 10, 2 * env.half);
      log := log + [Accepted(now)];
    }

    method ConfigChannel(now: nat, ch: Channel, duty: int, period: Period)
      requires Valid()
      modifies this, values, newFrequencies, updateRequired
      ensures Valid() && View() == Config(env, old(View()), now, ch, duty, period)
    {
      MaskOfIgnored(ignoreMask, ch);
      if (ignoreMask != 0 && Ignored(ignoreMask, ch) && duty != 0)
         || (zeroCountdown > 0 && ch < MAX_ZEROED_CHANNELS) {
        values[ch] := 0;
        return;
      }
      SetDeadline(now);
      var f := FrequencyOf(period);
      if env.adv {
        ConfigNewWay(ch, duty, f);
      } else {
        ConfigOldWay(ch, duty, f);
      }
    }
  }

  lemma MaskOfIgnored(mask: bv16, ch: Channel)
    ensures Ignored(mask, ch) ==> mask != 0
  {
  }
}
