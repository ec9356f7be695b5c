/** No pin is exported for PWM and for GPIO at once: exactly which step can break that, whatever
    transfers fail, succeed or lie, reads and writes alike. */
module PinOwnership {
  import opened PinWords
  import opened PinModel

  predicate Exclusive(s: State) {
    s.dev.pwmExported !! s.dev.gpioExported
  }

  /** A write reported as successful that the device did not take. */
  predicate Lost(x: Write) {
    x.ret >= 0 && !x.applied
  }

  // ---------------------------------------------------------------- one step

  /** A PWM request that passes its gates and whose export the device takes: the masks as read decide. */
  predicate PwmRequestBreaks(s: State, e: Event)
    requires e.PwmRequested?
  {
    && e.pin !in s.ignored && e.running == 0 && s.supported && e.gpioRead.ret >= 0
    && e.pin !in e.gpioRead.mask && e.grant.applied
    && !(e.pwmRead.mask + {e.pin} !! s.dev.gpioExported)
  }

  /** A release writes back what it read, less the pins it drops. */
  predicate PwmFreeBreaks(s: State, e: Event)
    requires e.PwmFreed?
  {
    && e.pin !in s.ignored && s.supported && e.pwmRead.ret >= 0 && e.unexport.applied
    && !(e.pwmRead.mask - {e.pin} !! s.dev.gpioExported)
  }

  predicate GpioFreeBreaks(s: State, e: Event)
    requires e.GpioFreed?
  {
    && e.running >= 0 && e.gpioRead.ret >= 0 && e.unexport.applied
    && !(Higher(e.gpioRead.mask, e.pin) !! s.dev.pwmExported)
  }

  /** A GPIO request takes the pin from PWM if the mask it read has it, then exports it for GPIO if that
      was not reported as failed. */
  predicate GpioRequestBreaks(s: State, e: Event)
    requires e.GpioRequested?
  {
    var takes := e.pin in e.pwmRead.mask;
    var grants := !(takes && e.unexport.ret < 0) && e.gpioRead.ret >= 0 && e.grant.applied;
    var pwm := if takes && e.unexport.applied then e.pwmRead.mask - {e.pin} else s.dev.pwmExported;
    var gpio := if grants then e.gpioRead.mask + {e.pin} else s.dev.gpioExported;
    e.running >= 0 && e.pwmRead.ret >= 0 && !(pwm !! gpio)
  }

  predicate Breaks(s: State, e: Event) {
    match e
    case PwmRequested(_, _, _, _, _) => PwmRequestBreaks(s, e)
    case PwmFreed(_, _, _) => PwmFreeBreaks(s, e)
    case GpioRequested(_, _, _, _, _, _, _, _) => GpioRequestBreaks(s, e)
    case GpioFreed(_, _, _, _, _, _) => GpioFreeBreaks(s, e)
    case _ => false
  }

  /** From exclusive masks a step leads to exclusive masks if and only if it is not one of those. */
  lemma StepBreaksExactly(s: State, e: Event)
    requires Exclusive(s)
    ensures Exclusive(Step(s, e)) <==> !Breaks(s, e)
  {
  }

  /** Every read reported as successful brought the device's mask. */
  predicate ReadsTrue(s: State, e: Event) {
    match e
    case PwmRequested(_, _, gpioRead, pwmRead, _) =>
      Brought(gpioRead, s.dev.gpioExported) && Brought(pwmRead, s.dev.pwmExported)
    case PwmFreed(_, pwmRead, _) => Brought(pwmRead, s.dev.pwmExported)
    case GpioRequested(_, _, pwmRead, _, gpioRead, _, _, _) =>
      Brought(gpioRead, s.dev.gpioExported) && Brought(pwmRead, s.dev.pwmExported)
    case GpioFreed(_, _, gpioRead, _, _, _) => Brought(gpioRead, s.dev.gpioExported)
    case _ => true
  }

  /** With true reads two ways are left. Either a GPIO request takes the pin from PWM by a write that is
      lost and then exports it; or a PWM request fails to read the PWM mask, writes back what its variable
      happened to hold, and that names a pin exported for GPIO. */
  lemma TrueReadsLeaveTwoWays(s: State, e: Event)
    requires Exclusive(s) && ReadsTrue(s, e)
    ensures Breaks(s, e) <==>
            || (e.GpioRequested? && e.running >= 0 && e.pwmRead.ret >= 0 && e.pin in s.dev.pwmExported
                && Lost(e.unexport) && e.gpioRead.ret >= 0 && e.grant.applied)
            || (e.PwmRequested? && e.pin !in s.ignored && e.running == 0 && s.supported && e.gpioRead.ret >= 0
                && e.pin !in s.dev.gpioExported && e.pwmRead.ret < 0 && e.grant.applied
                && !(e.pwmRead.mask !! s.dev.gpioExported))
  {
  }

  // ---------------------------------------------------------------- runs

  ghost predicate NeverBreaks(s: State, h: seq<Event>) {
    forall n | 0 <= n < |h| :: !Breaks(Run(s, h[..n]), h[n])
  }

  ghost predicate AlwaysExclusive(s: State, h: seq<Event>) {
    forall n | 0 <= n <= |h| :: Exclusive(Run(s, h[..n]))
  }

  lemma {:induction false} ExclusiveUpTo(s: State, h: seq<Event>, n: nat)
    requires Exclusive(s) && NeverBreaks(s, h) && n <= |h|
    ensures Exclusive(Run(s, h[..n]))
    decreases n
  {
    if n > 0 {
      ExclusiveUpTo(s, h, n - 1);
      assert h[..n][..n - 1] == h[..n - 1];
      StepBreaksExactly(Run(s, h[..n - 1]), h[n - 1]);
    }
  }

  /** Over any run from exclusive masks: they stay exclusive throughout if and only if no step breaks
      them in one of those ways, whatever else fails or lies, in any order. */
  lemma ExclusiveUnlessBroken(s: State, h: seq<Event>)
    requires Exclusive(s)
    ensures AlwaysExclusive(s, h) <==> NeverBreaks(s, h)
  {
    if AlwaysExclusive(s, h) {
      forall n | 0 <= n < |h| ensures !Breaks(Run(s, h[..n]), h[n]) {
        assert h[..n + 1][..n] == h[..n];
        assert Exclusive(Run(s, h[..n])) && Exclusive(Run(s, h[..n + 1]));
        StepBreaksExactly(Run(s, h[..n]), h[n]);
      }
    }
    if NeverBreaks(s, h) {
      forall n | 0 <= n <= |h| ensures Exclusive(Run(s, h[..n])) { ExclusiveUpTo(s, h, n); }
    }
  }

  /** What rules out both ways: true reads, no lost unexport, and success of the one unchecked read. */
  predicate Careful(s: State, e: Event) {
    && ReadsTrue(s, e)
    && (e.GpioRequested? ==> !Lost(e.unexport))
    && (e.PwmRequested? ==> e.pwmRead.ret >= 0)
  }

  ghost predicate CarefulRun(s: State, h: seq<Event>) {
    forall n | 0 <= n < |h| :: Careful(Run(s, h[..n]), h[n])
  }

  lemma {:induction false} CarefulUpTo(s: State, h: seq<Event>, n: nat)
    requires Exclusive(s) && CarefulRun(s, h) && n <= |h|
    ensures Exclusive(Run(s, h[..n]))
    decreases n
  {
    if n > 0 {
      CarefulUpTo(s, h, n - 1);
      assert h[..n][..n - 1] == h[..n - 1];
      assert Careful(Run(s, h[..n - 1]), h[n - 1]);
      TrueReadsLeaveTwoWays(Run(s, h[..n - 1]), h[n - 1]);
      StepBreaksExactly(Run(s, h[..n - 1]), h[n - 1]);
    }
  }

  /** From a successful probe, if successful reads are true, no unexport is lost and the one unchecked read
      succeeds, no pin is ever exported twice, whatever the device held before. Every other failure is
      harmless: reads and writes that fail, applied or not. */
  lemma CarefulRunsStayExclusive(s: State, update: Write, unexport: Write, h: seq<Event>)
    requires unexport.ret >= 0 && !Lost(unexport) && CarefulRun(Probed(s, update, unexport), h)
    ensures AlwaysExclusive(Probed(s, update, unexport), h)
  {
    forall n | 0 <= n <= |h| ensures Exclusive(Run(Probed(s, update, unexport), h[..n])) {
      CarefulUpTo(Probed(s, update, unexport), h, n);
    }
  }

  /** A probe starts exclusive if and only if its clearing of the GPIO mask reached the device or the old
      masks were exclusive. */
  lemma ProbeStartsExclusive(s: State, update: Write, unexport: Write)
    ensures Exclusive(Probed(s, update, unexport)) <==> unexport.applied || Exclusive(s)
  {
  }

  /** `p` exported for PWM, or for GPIO, by a request in which nothing fails, on a probed driver. */
  function PwmHolds(p: Pin): State {
    var ok, none := Write(1, true), Read(1, {});
    Step(Probed(FRESH, ok, ok), PwmRequested(p, 0, none, none, ok))
  }

  function GpioHolds(p: Pin): State {
    var ok, none := Write(1, true), Read(1, {});
    Step(Probed(FRESH, ok, ok), GpioRequested(p, 0, none, ok, none, ok, ok, ok))
  }

  /** Both ways that need no wrong read are open, for any two pins: `p` held for PWM, its removal lost, then
      exported for GPIO; and `p` held for GPIO, then a PWM request for `q` whose read of the PWM mask fails
      over a variable that holds bit `p`. */
  lemma BothWaysOccur(p: Pin, q: Pin)
    requires p != q
    ensures var ok, lost, none, held := Write(1, true), Write(1, false), Read(1, {}), Read(1, {p});
            var a, b := GpioRequested(p, 0, held, lost, none, ok, ok, ok), PwmRequested(q, 0, held, Read(-1, {p}), ok);
            && ReadsTrue(PwmHolds(p), a) && Exclusive(PwmHolds(p)) && !Exclusive(Step(PwmHolds(p), a))
            && ReadsTrue(GpioHolds(p), b) && Exclusive(GpioHolds(p)) && !Exclusive(Step(GpioHolds(p), b))
  {
    HoldersHold(p);
    var ok, lost, none, held := Write(1, true), Write(1, false), Read(1, {}), Read(1, {p});
    StepBreaksExactly(PwmHolds(p), GpioRequested(p, 0, held, lost, none, ok, ok, ok));
    StepBreaksExactly(GpioHolds(p), PwmRequested(q, 0, held, Read(-1, {p}), ok));
    assert p in held.mask;
  }

  /** With a single wrong read, all else going well, each of the four operations can: `wrong` is an empty
      mask, or one that names a pin the other side holds. `q` is above `p`. */
  lemma WrongReadsOccur(p: Pin, q: Pin)
    requires p < q
    ensures var ok, none, holdsP, holdsQ := Write(1, true), Read(1, {}), Read(1, {p}), Read(1, {q});
            && !Exclusive(Step(GpioHolds(p), PwmRequested(p, 0, none, none, ok)))
            && !Exclusive(Step(GpioHolds(p), PwmFreed(q, holdsP, ok)))
            && !Exclusive(Step(PwmHolds(p), GpioRequested(p, 0, none, ok, none, ok, ok, ok)))
            && !Exclusive(Step(PwmHolds(q), GpioFreed(p, 0, holdsQ, ok, ok, ok)))
  {
    HoldersHold(p);
    HoldersHold(q);
    var ok, none, holdsP, holdsQ := Write(1, true), Read(1, {}), Read(1, {p}), Read(1, {q});
    StepBreaksExactly(GpioHolds(p), PwmRequested(p, 0, none, none, ok));
    StepBreaksExactly(GpioHolds(p), PwmFreed(q, holdsP, ok));
    StepBreaksExactly(PwmHolds(p), GpioRequested(p, 0, none, ok, none, ok, ok, ok));
    StepBreaksExactly(PwmHolds(q), GpioFreed(p, 0, holdsQ, ok, ok, ok));
    assert p in holdsP.mask - {q} && q in Higher(holdsQ.mask, p);
  }

  lemma HoldersHold(p: Pin)
    ensures var s, t := PwmHolds(p), GpioHolds(p);
            && s.dev.pwmExported == {p} && s.dev.gpioExported == {} && s.ignored == {} && s.supported
            && t.dev.pwmExported == {} && t.dev.gpioExported == {p} && t.ignored == {} && t.supported
  {
  }
}
