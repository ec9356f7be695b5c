/** Who owns a pin and what its word says: the driver's cached pin words and ignore mask, the device's
    export masks and GPIO page, and what each request, release, pin call and worker update does to
    them. Each call is one atomic step; the outcome of every transfer it makes is a parameter. */
module PinModel {
  import opened Errno
  import opened PinWords

  const PINS: nat := 16

  /** What came back from reading an export mask, and what the driver's variable holds after it. A failed
      read leaves there what was there before; a read reported as successful may be wrong. */
  datatype Read = Read(ret: int, mask: set<Pin>)

  /** What came back from a write, and whether the device took it. The two are independent. */
  datatype Write = Write(ret: int, applied: bool)

  /** If the read was reported as successful it brought `actual`. */
  predicate Brought(x: Read, actual: set<Pin>) {
    x.ret >= 0 ==> x.mask == actual
  }

  datatype Device = Device(page: seq<bv16>, gpioExported: set<Pin>, pwmExported: set<Pin>)

  datatype PinState = PinState(
    supported: bool,
    words: seq<bv16>,
    updated: int,
    ignored: set<Pin>,
    dev: Device)
  {
    predicate Shape() {
      |words| == PINS && |dev.page| == PINS
    }
  }

  const BLANK: seq<bv16> := [0, 0, 0, 0, 0, 0, 0, 0, 0, 0, 0, 0, 0, 0, 0, 0]

  /** The statics' initial values, and a device that holds nothing. */
  const FRESH: PinState := PinState(false, BLANK, 0, {}, Device(BLANK, {}, {}))

  type State = s: PinState | s.Shape() witness FRESH

  datatype Outcome = Outcome(state: State, ret: int)

  // ---------------------------------------------------------------- transfers

  function ForceUpdate(s: State, x: Write): State {
    s.(dev := s.dev.(page := if x.applied then s.words else s.dev.page))
  }

  function SetGpioExported(s: State, m: set<Pin>, x: Write): State {
    s.(dev := s.dev.(gpioExported := if x.applied then m else s.dev.gpioExported))
  }

  function SetPwmExported(s: State, m: set<Pin>, x: Write): State {
    s.(dev := s.dev.(pwmExported := if x.applied then m else s.dev.pwmExported))
  }

  function SetWord(s: State, p: Pin, w: bv16): State {
    s.(words := s.words[p := w])
  }

  function Enqueue(s: State): State {
    s.(updated := s.updated + 1)
  }

  // ---------------------------------------------------------------- the PWM side

  function PwmRequest(s: State, p: Pin, running: int, gpioRead: Read, pwmRead: Read, grant: Write): Outcome {
    if p in s.ignored then Outcome(s, 0)
    else if running < 0 then Outcome(s, running)
    else if running > 0 then Outcome(s, -EPERM)
    else if !s.supported then Outcome(s, 0)
    else if gpioRead.ret < 0 then Outcome(s, gpioRead.ret)
    else if p in gpioRead.mask then Outcome(s, -EPERM)
    else Outcome(SetPwmExported(s, pwmRead.mask + {p}, grant),
                 if grant.ret < 0 then grant.ret else 0)
  }

  function PwmFree(s: State, p: Pin, pwmRead: Read, unexport: Write): State {
    if p in s.ignored || !s.supported || pwmRead.ret < 0 then s
    else SetPwmExported(s, pwmRead.mask - {p}, unexport)
  }

  // ---------------------------------------------------------------- the GPIO side

  /** A requested pin is enabled, then an output driven low. */
  function StartPin(s: State, p: Pin, update1: Write, update2: Write): State {
    var s1 := ForceUpdate(SetWord(s, p, SetBit(0, ENABLE)), update1);
    Enqueue(ForceUpdate(SetWord(s1, p, ClearBit(ClearBit(s1.words[p], DIRECTION), VALUE)), update2))
  }

  function StopPin(s: State, p: Pin, update1: Write, update2: Write): State {
    var s1 := ForceUpdate(SetWord(s, p, ClearBit(s.words[p], VALUE)), update1);
    Enqueue(ForceUpdate(SetWord(s1, p, 0), update2))
  }

  /** A pin that the PWM mask as read has is first taken away from it and from then on ignored by PWM. */
  function TakeFromPwm(s: State, p: Pin, pwmRead: Read, unexport: Write): State {
    if p in pwmRead.mask then
      SetPwmExported(s, pwmRead.mask - {p}, unexport).(ignored := s.ignored + {p})
    else s
  }

  function GpioRequest(s: State, p: Pin, running: int, pwmRead: Read, unexport: Write,
                       gpioRead: Read, grant: Write, update1: Write, update2: Write): Outcome {
    if running < 0 then Outcome(s, running)
    else if pwmRead.ret < 0 then Outcome(s, pwmRead.ret)
    else
      var s1 := TakeFromPwm(s, p, pwmRead, unexport);
      if p in pwmRead.mask && unexport.ret < 0 then Outcome(s1, unexport.ret)
      else if gpioRead.ret < 0 then Outcome(s1, gpioRead.ret)
      else
        var s2 := SetGpioExported(s1, gpioRead.mask + {p}, grant);
        if grant.ret < 0 then Outcome(s2, grant.ret)
        else Outcome(StartPin(s2, p, update1, update2), 0)
  }

  /** The pins of a mask that clear_bit_m leaves when it is meant to clear `p`. */
  function Higher(m: set<Pin>, p: Pin): set<Pin> {
    set k | k in m && k > p
  }

  function GpioFree(s: State, p: Pin, running: int, gpioRead: Read,
                    update1: Write, update2: Write, unexport: Write): State {
    if running < 0 || gpioRead.ret < 0 then s
    else
      var s1 := StopPin(s, p, update1, update2);
      SetGpioExported(s1, Higher(gpioRead.mask, p), unexport).(ignored := Higher(s.ignored, p))
  }

  function GpioSet(s: State, p: Pin, value: int): State {
    var w := SetBit(s.words[p], ENABLE);
    Enqueue(SetWord(s, p, if value == 0 then ClearBit(w, VALUE) else SetBit(w, VALUE)))
  }

  function DirectionInput(s: State, p: Pin, update: Write): State {
    ForceUpdate(SetWord(s, p, SetBit(s.words[p], DIRECTION)), update)
  }

  /** The requested value is not used. */
  function DirectionOutput(s: State, p: Pin, value: int, update: Write): State {
    ForceUpdate(SetWord(s, p, ClearBit(s.words[p], DIRECTION)), update)
  }

  function Lowered(w: bv16): bv16 {
    if (w >> ENABLE) & 1 != 0 then ClearBit(w, VALUE) else w
  }

  /** Enabled pins low, page out, cache blank, nothing exported; no update is queued. */
  function Reset(s: State, page: Write, unexport: Write): State
  {
    var low := seq(PINS, i requires 0 <= i < PINS => Lowered(s.words[i]));
    SetGpioExported(ForceUpdate(s.(words := low), page), {}, unexport).(words := BLANK)
  }

  function StoreIgnore(s: State, parsed: bool, mask: int): Outcome {
    if parsed && 0 <= mask <= 0xFFFF then Outcome(s.(ignored := Pins(mask as bv16)), 0)
    else Outcome(s, -EINVAL)
  }

  /** The worker's turn. */
  function Flush(s: State, update: Write): State {
    if !s.supported || s.updated <= 0 then s
    else ForceUpdate(s.(updated := s.updated - 1), update)
  }

  // ---------------------------------------------------------------- runs

  datatype Event =
    | PwmRequested(pin: Pin, running: int, gpioRead: Read, pwmRead: Read, grant: Write)
    | PwmFreed(pin: Pin, pwmRead: Read, unexport: Write)
    | GpioRequested(pin: Pin, running: int, pwmRead: Read, unexport: Write,
                    gpioRead: Read, grant: Write, update1: Write, update2: Write)
    | GpioFreed(pin: Pin, running: int, gpioRead: Read, update1: Write, update2: Write, unexport: Write)
    | ValueSet(pin: Pin, value: int)
    | MadeInput(pin: Pin, update: Write)
    | MadeOutput(pin: Pin, value: int, update: Write)
    | ResetStored(page: Write, unexport: Write)
    | IgnoreStored(parsed: bool, mask: int)
    | WorkerTurn(update: Write)

  function Apply(s: State, e: Event): Outcome {
    match e
    case PwmRequested(p, n, g, r, x) => PwmRequest(s, p, n, g, r, x)
    case PwmFreed(p, r, x) => Outcome(PwmFree(s, p, r, x), 0)
    case GpioRequested(p, n, r, x, g, y, u1, u2) => GpioRequest(s, p, n, r, x, g, y, u1, u2)
    case GpioFreed(p, n, g, u1, u2, x) => Outcome(GpioFree(s, p, n, g, u1, u2, x), 0)
    case ValueSet(p, v) => Outcome(GpioSet(s, p, v), 0)
    case MadeInput(p, u) => Outcome(DirectionInput(s, p, u), 0)
    case MadeOutput(p, v, u) => Outcome(DirectionOutput(s, p, v, u), 0)
    case ResetStored(page, x) => Outcome(Reset(s, page, x), 0)
    case IgnoreStored(parsed, mask) => StoreIgnore(s, parsed, mask)
    case WorkerTurn(u) => Outcome(Flush(s, u), 0)
  }

  function Step(s: State, e: Event): State {
    Apply(s, e).state
  }

  function Run(s: State, h: seq<Event>): State
    decreases |h|
  {
    if |h| == 0 then s else Step(Run(s, h[..|h| - 1]), h[|h| - 1])
  }

  /** After a probe up to its last write, from whatever driver and device held before: blank words sent and
      the GPIO mask cleared. A probe whose last write fails stops here, and the driver runs on. */
  function HalfProbed(s: State, update: Write, unexport: Write): State {
    SetGpioExported(ForceUpdate(s.(supported := true, words := BLANK), update), {}, unexport)
  }

  /** A successful probe also queues one update. */
  function Probed(s: State, update: Write, unexport: Write): State {
    HalfProbed(s, update, unexport).(updated := 1)
  }
}
