/** Pin requests, releases and the GPIO calls as they are written: a static array of pin words, a counter
    of queued updates and an ignore mask shared with the PWM driver, updated in place. Every operation
    is proved to do to the state what PinModel says it does, and to the PWM driver only what it may. */
module PinDriver {
  import opened Errno
  import opened PinWords
  import opened PinModel
  import Pwm = PwmModel
  import opened PwmDriver

  /** A mask register as it arrived in the driver's variable, whether or not it is the device's. */
  datatype Reading = Reading(ret: int, value: bv16) {
    function Abstract(): Read {
      Read(ret, Pins(value))
    }
  }

  /** The output page as read back to see whether motors run. */
  datatype OutputReading = OutputReading(ret: int, values: seq<Pwm.u16>)

  function Spinning(values: seq<Pwm.u16>): nat {
    if |values| == 0 then 0
    else Spinning(values[..|values| - 1]) + if values[|values| - 1] != 0 then 1 else 0
  }

  /** The count is zero exactly when every output is. */
  lemma {:induction false} NoneSpinning(values: seq<Pwm.u16>)
    ensures Spinning(values) == 0 <==> forall i | 0 <= i < |values| :: values[i] == 0
    decreases |values|
  {
    if |values| > 0 {
      var n := |values| - 1;
      NoneSpinning(values[..n]);
      assert (forall i | 0 <= i < n :: values[i] == 0) <==> forall i | 0 <= i < n :: values[..n][i] == 0;
    }
  }

  function Running(r: OutputReading): int {
    if r.ret < 0 then r.ret else Spinning(r.values)
  }

  function SpinningAt(values: seq<Pwm.u16>): set<nat> {
    set i | 0 <= i < |values| && values[i] != 0
  }

  lemma {:induction false} SpinningCounts(values: seq<Pwm.u16>)
    ensures Spinning(values) == |SpinningAt(values)|
    decreases |values|
  {
    if |values| > 0 {
      var n := |values| - 1;
      SpinningCounts(values[..n]);
      assert SpinningAt(values) == SpinningAt(values[..n]) + if values[n] != 0 then {n} else {};
    }
  }

  /** An error is passed on; else it is the number of outputs that are not zero. */
  lemma RunningCounts(r: OutputReading)
    ensures Running(r) == if r.ret < 0 then r.ret else |SpinningAt(r.values)|
  {
    SpinningCounts(r.values);
  }

  lemma IgnoredPins(mask: bv16, p: Pin)
    ensures Pwm.Ignored(mask, p) <==> p in Pins(mask)
    ensures Pwm.Ignored(mask, p) ==> mask != 0
  {
    ShiftedBit(mask, p);
    MaskOfIgnored(mask, p);
  }

  method TestBit(mask: bv16, p: Pin) returns (b: bool)
    ensures b == (p in Pins(mask))
  {
    b := Bit(mask, p);
  }

  class GpioChip {
    const pwm: Driver
    var supported: bool
    const pinStates: array<bv16>
    var updated: int
    ghost var dev: Device

    ghost predicate Valid()
      reads this, pwm
    {
      && pwm.Valid() && pinStates.Length == PINS && |dev.page| == PINS
      && (pinStates as object) != pwm.values && (pinStates as object) != pwm.frequencies
      && (pinStates as object) != pwm.updateRequired && (pinStates as object) != pwm.newFrequencies
    }

    ghost function View(): State
      requires Valid()
      reads this, pwm, pinStates
    {
      PinState(supported, pinStates[..], updated, Pins(pwm.ignoreMask), dev)
    }

    ghost function PwmView(): Pwm.State
      requires Valid()
      reads this, pwm, pwm.values, pwm.frequencies, pwm.newFrequencies, pwm.updateRequired
    {
      pwm.View()
    }

    /** The statics' initial values; `device` is what the device holds. */
    constructor (pwm: Driver, ghost device: Device)
      requires pwm.Valid() && |device.page| == PINS
      ensures Valid() && this.pwm == pwm && fresh(pinStates)
      ensures View() == PinState(false, BLANK, 0, Pins(pwm.ignoreMask), device)
    {
      this.pwm := pwm;
      supported := false;
      pinStates := new bv16[PINS](_ => 0);
      updated := 0;
      dev := device;
      new;
      assert pinStates[..] == BLANK;
    }

    /** `feature` is the firmware's GPIO bit, `group` and `chip` what the kernel's registrations return.
        All failures but a missing feature are reported as 0. */
    method Probe(feature: bool, group: int, chip: int, update: Write, unexport: Write) returns (ret: int)
      requires Valid()
      modifies this, pinStates
      ensures Valid() && ret in {1, 0, -EOPNOTSUPP}
      ensures ret == 1 <==> feature && group >= 0 && chip >= 0 && unexport.ret >= 0
      ensures ret == 1 ==> View() == Probed(old(View()), update, unexport)
      ensures ret == -EOPNOTSUPP ==> !feature && View() == old(View()).(supported := false)
      ensures ret == 0 ==> View() == if group < 0 || chip < 0 then old(View()).(supported := true)
                                     else HalfProbed(old(View()), update, unexport)
    {
      if !feature {
        supported := false;
        return -EOPNOTSUPP;
      }
      supported := true;
      if group < 0 {
        return 0;
      }
      if chip < 0 {
        return 0;
      }
      BlankAll();
      var _ := ForceUpdate(update);
      dev := dev.(gpioExported := if unexport.applied then {} else dev.gpioExported);
      if unexport.ret < 0 {
        return 0;
      }
      updated := 1;
      ret := 1;
    }

    // ---------------------------------------------------------------- transfers

    method ForceUpdate(x: Write) returns (ok: bool)
      requires Valid()
      modifies this
      ensures Valid() && View() == PinModel.ForceUpdate(old(View()), x)
      ensures ok
    {
      dev := dev.(page := if x.applied then pinStates[..] else dev.page);
      var result: Pwm.u16 := Pwm.Wrap(x.ret);
      // The retry: a u16 is never negative, so nothing is queued and the update always counts as done.
      updated := updated + if result < 0 then 1 else 0;
      ok := result >= 0;
    }

    method MotorsRunningCount(r: OutputReading) returns (count: int)
      requires r.ret >= 0 ==> |r.values| == PINS
      ensures count == Running(r)
    {
      if r.ret < 0 {
        return r.ret;
      }
      count := 0;
      var i := 0;
      while i < PINS
        invariant 0 <= i <= PINS && count == Spinning(r.values[..i])
      {
        assert r.values[..i + 1][..i] == r.values[..i];
        if r.values[i] != 0 {
          count := count + 1;
        }
        i := i + 1;
      }
      assert r.values[..PINS] == r.values;
    }

    method UnexportPwmPin(pwmExported: bv16, p: Pin, x: Write) returns (ret: int)
      requires Valid()
      modifies `dev
      ensures Valid() && View() == SetPwmExported(old(View()), Pins(pwmExported) - {p}, x) && ret == x.ret
    {
      DropPins(pwmExported, p);
      var mask := DropBit(pwmExported, p);
      dev := dev.(pwmExported := if x.applied then Pins(mask) else dev.pwmExported);
      ret := x.ret;
    }

    method ExportGpioPin(p: Pin, gpioRead: Reading, x: Write) returns (ret: int)
      requires Valid()
      modifies `dev
      ensures Valid()
      ensures gpioRead.ret < 0 ==> ret == gpioRead.ret && View() == old(View())
      ensures gpioRead.ret >= 0 ==>
                && ret == (if x.ret < 0 then x.ret else 0)
                && View() == SetGpioExported(old(View()), Pins(gpioRead.value) + {p}, x)
    {
      if gpioRead.ret < 0 {
        return gpioRead.ret;
      }
      SetPins(gpioRead.value, p);
      var mask := SetBit(gpioRead.value, p);
      dev := dev.(gpioExported := if x.applied then Pins(mask) else dev.gpioExported);
      ret := if x.ret < 0 then x.ret else 0;
    }

    method UnexportGpioPin(gpioExported: bv16, p: Pin, x: Write) returns (ret: int)
      requires Valid()
      modifies `dev
      ensures Valid() && View() == SetGpioExported(old(View()), Higher(Pins(gpioExported), p), x)
      ensures ret == if x.ret < 0 then x.ret else 0
    {
      ClearPins(gpioExported, p);
      var mask := ClearBit(gpioExported, p);
      dev := dev.(gpioExported := if x.applied then Pins(mask) else dev.gpioExported);
      ret := if x.ret < 0 then x.ret else 0;
    }

    method IgnorePin(p: Pin)
      requires Valid()
      modifies pwm`ignoreMask
      ensures Valid() && View() == old(View()).(ignored := old(View()).ignored + {p})
    {
      SetPins(pwm.ignoreMask, p);
      pwm.ignoreMask := SetBit(pwm.ignoreMask, p);
    }

    method UnignorePin(p: Pin)
      requires Valid()
      modifies pwm`ignoreMask
      ensures Valid() && View() == old(View()).(ignored := Higher(old(View()).ignored, p))
    {
      ClearPins(pwm.ignoreMask, p);
      pwm.ignoreMask := ClearBit(pwm.ignoreMask, p);
    }

    // ---------------------------------------------------------------- the PWM side

    method PwmIgnored(p: Pin) returns (b: bool)
      requires Valid()
      ensures b == (p in View().ignored) == Pwm.Ignored(pwm.ignoreMask, p)
    {
      IgnoredPins(pwm.ignoreMask, p);
      b := pwm.ignoreMask != 0 && Pwm.Ignored(pwm.ignoreMask, p);
    }

    method PwmRequest(p: Pin, outputs: OutputReading, gpioRead: Reading, pwmRead: Reading, grant: Write)
      returns (ret: int)
      requires Valid() && (outputs.ret >= 0 ==> |outputs.values| == PINS)
      modifies `dev
      ensures Valid()
      ensures Outcome(View(), ret) == PinModel.PwmRequest(old(View()), p, Running(outputs), gpioRead.Abstract(),
                                                          pwmRead.Abstract(), grant)
    {
      var running := MotorsRunningCount(outputs);
      var ignored := PwmIgnored(p);
      if ignored {
        return 0;
      }
      if running < 0 {
        return running;
      } else if running > 0 {
        return -EPERM;
      }
      if !supported {
        return 0;
      }
      if gpioRead.ret < 0 {
        return gpioRead.ret;
      }
      var exported := TestBit(gpioRead.value, p);
      if exported {
        return -EPERM;
      }
      SetPins(pwmRead.value, p);
      var mask := SetBit(pwmRead.value, p);
      dev := dev.(pwmExported := if grant.applied then Pins(mask) else dev.pwmExported);
      ret := if grant.ret < 0 then grant.ret else 0;
    }

    method PwmFree(p: Pin, pwmRead: Reading, unexport: Write)
      requires Valid()
      modifies `dev, pwm.values
      ensures Valid() && View() == PinModel.PwmFree(old(View()), p, pwmRead.Abstract(), unexport)
      ensures PwmView() == Pwm.Free(old(PwmView()), p)
    {
      pwm.FreeChannel(p);
      var ignored := PwmIgnored(p);
      if ignored || !supported || pwmRead.ret < 0 {
        return;
      }
      var _ := UnexportPwmPin(pwmRead.value, p, unexport);
    }

    // ---------------------------------------------------------------- the GPIO side

    /** Where running motors have to stop for a pin change: what happens to the PWM driver. */
    ghost function PwmAfter(s: Pwm.State, running: int, now: nat): Pwm.State
      reads this, pwm
      requires Valid()
    {
      if running > 0 then Pwm.ForceZero(pwm.env, s, now) else s
    }

    method StopMotors(running: int, now: nat)
      requires Valid()
      modifies pwm, pwm.values, pwm.frequencies, pwm.updateRequired
      ensures Valid() && View() == old(View()) && PwmView() == PwmAfter(old(PwmView()), running, now)
    {
      if running > 0 {
        Pwm.TickEffect(pwm.env, pwm.View().(zeroCountdown := pwm.zeroCountdown + Pwm.ZERO_SKIP_UPDATE_CYCLES), now);
        pwm.ForceZeroDuty(now);
      }
    }

    method GpioRequest(now: nat, p: Pin, outputs: OutputReading, pwmRead: Reading, unexport: Write,
                       gpioRead: Reading, grant: Write, update1: Write, update2: Write)
      returns (ret: int)
      requires Valid() && (outputs.ret >= 0 ==> |outputs.values| == PINS)
      modifies this, pinStates, pwm, pwm.values, pwm.frequencies, pwm.updateRequired
      ensures Valid()
      ensures Outcome(View(), ret) ==
              PinModel.GpioRequest(old(View()), p, Running(outputs), pwmRead.Abstract(), unexport,
                                   gpioRead.Abstract(), grant, update1, update2)
      ensures PwmView() == PwmAfter(old(PwmView()), Running(outputs), now).(ignoreMask := pwm.ignoreMask)
    {
      var running := MotorsRunningCount(outputs);
      if running < 0 {
        return running;
      }
      StopMotors(running, now);
      ret := GrantPin(p, pwmRead, unexport, gpioRead, grant, update1, update2);
    }

    /** The request once motors stand still, or have been told to. */
    method GrantPin(p: Pin, pwmRead: Reading, unexport: Write,
                    gpioRead: Reading, grant: Write, update1: Write, update2: Write)
      returns (ret: int)
      requires Valid()
      modifies this, pinStates, pwm`ignoreMask
      ensures Valid()
      ensures Outcome(View(), ret) ==
              PinModel.GpioRequest(old(View()), p, 0, pwmRead.Abstract(), unexport,
                                   gpioRead.Abstract(), grant, update1, update2)
    {
      if pwmRead.ret < 0 {
        return pwmRead.ret;
      }
      ret := TakePin(p, pwmRead, unexport);
      if ret < 0 {
        return;
      }
      ret := ExportGpioPin(p, gpioRead, grant);
      if ret < 0 {
        return;
      }
      EnableAndLower(p, update1, update2);
      ret := 0;
    }

    /** Unexports a pin that PWM holds, and ignores it from then on whether or not that worked. */
    method TakePin(p: Pin, pwmRead: Reading, unexport: Write) returns (ret: int)
      requires Valid()
      modifies `dev, pwm`ignoreMask
      ensures Valid() && View() == TakeFromPwm(old(View()), p, pwmRead.Abstract(), unexport)
      ensures ret == if p in Pins(pwmRead.value) then unexport.ret else 0
    {
      ret := 0;
      var exported := TestBit(pwmRead.value, p);
      if exported {
        ret := UnexportPwmPin(pwmRead.value, p, unexport);
        IgnorePin(p);
      }
    }

    method EnableAndLower(p: Pin, update1: Write, update2: Write)
      requires Valid()
      modifies this, pinStates
      ensures Valid() && View() == StartPin(old(View()), p, update1, update2)
    {
      pinStates[p] := 0;
      pinStates[p] := SetBit(pinStates[p], ENABLE);
      var _ := ForceUpdate(update1);
      pinStates[p] := ClearBit(pinStates[p], DIRECTION);
      pinStates[p] := ClearBit(pinStates[p], VALUE);
      var _ := ForceUpdate(update2);
      updated := updated + 1;
    }

    method LowerAndBlank(p: Pin, update1: Write, update2: Write)
      requires Valid()
      modifies this, pinStates
      ensures Valid() && View() == StopPin(old(View()), p, update1, update2)
    {
      pinStates[p] := ClearBit(pinStates[p], VALUE);
      var _ := ForceUpdate(update1);
      pinStates[p] := 0;
      var _ := ForceUpdate(update2);
      updated := updated + 1;
    }

    method GpioFree(now: nat, p: Pin, outputs: OutputReading, gpioRead: Reading,
                    update1: Write, update2: Write, unexport: Write)
      requires Valid() && (outputs.ret >= 0 ==> |outputs.values| == PINS)
      modifies this, pinStates, pwm, pwm.values, pwm.frequencies, pwm.updateRequired
      ensures Valid()
      ensures View() == PinModel.GpioFree(old(View()), p, Running(outputs), gpioRead.Abstract(),
                                          update1, update2, unexport)
      ensures PwmView() == PwmAfter(old(PwmView()), Running(outputs), now).(ignoreMask := pwm.ignoreMask)
    {
      var running := MotorsRunningCount(outputs);
      if running < 0 {
        return;
      }
      StopMotors(running, now);
      ReleasePin(p, gpioRead, update1, update2, unexport);
    }

    /** The release once motors stand still, or have been told to. */
    method ReleasePin(p: Pin, gpioRead: Reading, update1: Write, update2: Write, unexport: Write)
      requires Valid()
      modifies this, pinStates, pwm`ignoreMask
      ensures Valid()
      ensures View() == PinModel.GpioFree(old(View()), p, 0, gpioRead.Abstract(), update1, update2, unexport)
    {
      if gpioRead.ret < 0 {
        return;
      }
      LowerAndBlank(p, update1, update2);
      var _ := UnexportGpioPin(gpioRead.value, p, unexport);
      UnignorePin(p);
    }

    method SetValue(p: Pin, value: int)
      requires Valid()
      modifies `updated, pinStates
      ensures Valid() && View() == GpioSet(old(View()), p, value)
    {
      pinStates[p] := SetBit(pinStates[p], ENABLE);
      if value == 0 {
        pinStates[p] := ClearBit(pinStates[p], VALUE);
      } else {
        pinStates[p] := SetBit(pinStates[p], VALUE);
      }
      updated := updated + 1;
    }

    method MakeInput(p: Pin, update: Write)
      requires Valid()
      modifies this, pinStates
      ensures Valid() && View() == DirectionInput(old(View()), p, update)
    {
      pinStates[p] := SetBit(pinStates[p], DIRECTION);
      var _ := ForceUpdate(update);
    }

    method MakeOutput(p: Pin, value: int, update: Write)
      requires Valid()
      modifies this, pinStates
      ensures Valid() && View() == DirectionOutput(old(View()), p, value, update)
    {
      pinStates[p] := ClearBit(pinStates[p], DIRECTION);
      var _ := ForceUpdate(update);
    }

    method LowerEnabled()
      requires Valid()
      modifies pinStates
      ensures forall k | 0 <= k < PINS :: pinStates[k] == Lowered(old(pinStates[k]))
    {
      var i := 0;
      while i < PINS
        invariant 0 <= i <= PINS
        invariant forall k | 0 <= k < i :: pinStates[k] == Lowered(old(pinStates[k]))
        invariant forall k | i <= k < PINS :: pinStates[k] == old(pinStates[k])
      {
        if (pinStates[i] >> ENABLE) & 1 != 0 {
          pinStates[i] := ClearBit(pinStates[i], VALUE);
        }
        i := i + 1;
      }
    }

    method BlankAll()
      requires Valid()
      modifies pinStates
      ensures pinStates[..] == BLANK
    {
      var i := 0;
      while i < PINS
        invariant 0 <= i <= PINS
        invariant forall k | 0 <= k < i :: pinStates[k] == 0
      {
        pinStates[i] := 0;
        i := i + 1;
      }
    }

    method ResetStore(page: Write, unexport: Write)
      requires Valid()
      modifies this, pinStates
      ensures Valid() && View() == Reset(old(View()), page, unexport)
    {
      ghost var words := pinStates[..];
      LowerEnabled();
      ghost var low := pinStates[..];
      assert low == seq(PINS, i requires 0 <= i < PINS => Lowered(words[i]));
      dev := dev.(page := if page.applied then low else dev.page);
      BlankAll();
      dev := dev.(gpioExported := if unexport.applied then {} else dev.gpioExported);
    }

    method StoreIgnoreMask(parsed: bool, mask: int) returns (ret: int)
      requires Valid()
      modifies pwm`ignoreMask
      ensures Valid() && Outcome(View(), ret) == StoreIgnore(old(View()), parsed, mask)
    {
      if parsed && 0 <= mask <= 0xFFFF {
        pwm.ignoreMask := mask as bv16;
        return 0;
      }
      return -EINVAL;
    }

    method Update(update: Write) returns (ok: bool)
      requires Valid()
      modifies this
      ensures Valid() && View() == Flush(old(View()), update)
      ensures ok
    {
      ok := true;
      if !supported {
        return;
      }
      if updated > 0 {
        updated := updated - 1;
        ok := ForceUpdate(update);
      }
    }
  }
}
