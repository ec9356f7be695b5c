/** Which pins are exported for GPIO after a history of requests and releases. Releasing a pin clears
    its bit with a macro that clears every lower bit too. */
module ExportHistory {
  import opened PinWords
  import opened PinModel

  /** No transfer of a request or a release fails or reads a wrong mask, and nobody writes to the reset
      attribute. */
  predicate Clean(s: State, e: Event) {
    match e
    case GpioRequested(_, running, pwmRead, unexport, gpioRead, grant, _, _) =>
      && running >= 0 && pwmRead.ret >= 0 && unexport.ret >= 0 && grant.ret >= 0 && grant.applied
      && gpioRead.ret >= 0 && gpioRead.mask == s.dev.gpioExported
    case GpioFreed(_, running, gpioRead, _, _, unexport) =>
      running >= 0 && gpioRead.ret >= 0 && gpioRead.mask == s.dev.gpioExported && unexport.applied
    case ResetStored(_, _) => false
    case _ => true
  }

  ghost predicate CleanRun(s: State, h: seq<Event>) {
    forall n | 0 <= n < |h| :: Clean(Run(s, h[..n]), h[n])
  }

  lemma CleanPrefix(s: State, h: seq<Event>, k: nat)
    requires CleanRun(s, h) && k <= |h|
    ensures CleanRun(s, h[..k])
  {
    forall n | 0 <= n < k ensures Clean(Run(s, h[..k][..n]), h[..k][n]) {
      assert h[..k][..n] == h[..n];
      assert Clean(Run(s, h[..n]), h[n]);
    }
  }

  /** `p` was requested after the last release of any pin from `p` up. */
  function Held(h: seq<Event>, p: Pin): bool
    decreases |h|
  {
    if |h| == 0 then false
    else
      var e := h[|h| - 1];
      if e.GpioRequested? && e.pin == p then true
      else if e.GpioFreed? && e.pin >= p then false
      else Held(h[..|h| - 1], p)
  }

  /** What a client of `p` expects: requested after the last release of `p` itself. */
  function Claimed(h: seq<Event>, p: Pin): bool
    decreases |h|
  {
    if |h| == 0 then false
    else
      var e := h[|h| - 1];
      if e.GpioRequested? && e.pin == p then true
      else if e.GpioFreed? && e.pin == p then false
      else Claimed(h[..|h| - 1], p)
  }

  lemma StepExports(s: State, e: Event, p: Pin)
    requires Clean(s, e)
    ensures p in Step(s, e).dev.gpioExported <==>
            if e.GpioRequested? && e.pin == p then true
            else if e.GpioFreed? && e.pin >= p then false
            else p in s.dev.gpioExported
  {
  }

  /** The mask after any clean history. */
  lemma {:induction false} ExportedIffHeld(s: State, h: seq<Event>, p: Pin)
    requires s.dev.gpioExported == {} && CleanRun(s, h)
    ensures p in Run(s, h).dev.gpioExported <==> Held(h, p)
    decreases |h|
  {
    if |h| > 0 {
      var n := |h| - 1;
      CleanPrefix(s, h, n);
      ExportedIffHeld(s, h[..n], p);
      StepExports(Run(s, h[..n]), h[n], p);
    }
  }

  lemma {:induction false} HeldIsClaimed(h: seq<Event>, p: Pin)
    ensures Held(h, p) ==> Claimed(h, p)
    decreases |h|
  {
    if |h| > 0 { HeldIsClaimed(h[..|h| - 1], p); }
  }

  /** No pin is released while a lower one is claimed. */
  ghost predicate ReleasedFromBelow(h: seq<Event>) {
    forall n, p: Pin | 0 <= n < |h| && h[n].GpioFreed? && p < h[n].pin :: !Claimed(h[..n], p)
  }

  /** At every point of the history the mask is what clients expect. */
  ghost predicate MatchesClaims(s: State, h: seq<Event>) {
    forall n, p: Pin | 0 <= n <= |h| :: p in Run(s, h[..n]).dev.gpioExported <==> Claimed(h[..n], p)
  }

  lemma {:induction false} ClaimedIsHeld(h: seq<Event>, n: nat, p: Pin)
    requires ReleasedFromBelow(h) && n <= |h|
    ensures Claimed(h[..n], p) ==> Held(h[..n], p)
    decreases n
  {
    if n > 0 {
      assert h[..n][..n - 1] == h[..n - 1];
      ClaimedIsHeld(h, n - 1, p);
    }
  }

  lemma ReleaseAboveDropsClaim(s: State, h: seq<Event>, n: nat, p: Pin)
    requires s.dev.gpioExported == {} && CleanRun(s, h)
    requires n < |h| && h[n].GpioFreed? && p < h[n].pin && Claimed(h[..n], p)
    ensures Claimed(h[..n + 1], p) && p !in Run(s, h[..n + 1]).dev.gpioExported
  {
    assert h[..n + 1][..n] == h[..n];
    CleanPrefix(s, h, n + 1);
    ExportedIffHeld(s, h[..n + 1], p);
  }

  /** The device's mask is what clients expect throughout a clean history if and only if no pin is ever
      released while a lower one is claimed. */
  lemma MatchesExactly(s: State, h: seq<Event>)
    requires s.dev.gpioExported == {} && CleanRun(s, h)
    ensures MatchesClaims(s, h) <==> ReleasedFromBelow(h)
  {
    if MatchesClaims(s, h) {
      forall n, p: Pin | 0 <= n < |h| && h[n].GpioFreed? && p < h[n].pin ensures !Claimed(h[..n], p) {
        assert p in Run(s, h[..n + 1]).dev.gpioExported <==> Claimed(h[..n + 1], p);
        if Claimed(h[..n], p) { ReleaseAboveDropsClaim(s, h, n, p); }
      }
    }
    if ReleasedFromBelow(h) {
      forall n, p: Pin | 0 <= n <= |h| ensures p in Run(s, h[..n]).dev.gpioExported <==> Claimed(h[..n], p) {
        CleanPrefix(s, h, n);
        ExportedIffHeld(s, h[..n], p);
        HeldIsClaimed(h[..n], p);
        ClaimedIsHeld(h, n, p);
      }
    }
  }

  /** What follows for a lower pin that is in use: its word still drives it, but it is neither exported nor
      ignored any more, and the next PWM request for it succeeds. */
  lemma ReleaseHandsLowerPinsToPwm(s: State, q: Pin, free: Event, p: Pin, pwmRead: Read, gpioRead: Read, ok: Write)
    requires free.GpioFreed? && free.pin == q && Clean(s, free) && p < q && s.supported
    requires ok.ret >= 0 && ok.applied && gpioRead.ret >= 0 && gpioRead.mask == Step(s, free).dev.gpioExported
    ensures var s1 := Step(s, free);
            var o := Apply(s1, PwmRequested(p, 0, gpioRead, pwmRead, ok));
            && s1.words[p] == s.words[p] && p !in s1.dev.gpioExported && p !in s1.ignored
            && o.ret == 0 && p in o.state.dev.pwmExported
  {
  }
}
