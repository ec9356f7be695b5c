/** The cached pin words and the device's GPIO page: a counter of queued updates makes the worker write
    the cache back. Exactly which step can leave the two apart with nothing queued. */
module WriteBack {
  import opened PinWords
  import opened PinModel

  predicate Agree(s: State) {
    s.words == s.dev.page
  }

  /** The cache may run ahead of the device only while an update is queued. */
  predicate Covered(s: State) {
    s.updated >= 0 && (!Agree(s) ==> s.updated > 0)
  }

  predicate AllBlank(s: State) {
    forall i | 0 <= i < PINS :: s.words[i] == 0
  }

  /** The only steps that can leave the device behind for good, each with nothing (else) queued: an
      update of the worker that is lost, a change of direction whose update is lost, and a reset of a
      driver that holds any word. */
  predicate Strands(s: State, e: Event) {
    match e
    case WorkerTurn(u) => s.supported && s.updated == 1 && !u.applied && !Agree(s)
    case MadeInput(p, u) => s.updated == 0 && !u.applied && s.words[p] & 0x4000 == 0
    case MadeOutput(p, _, u) => s.updated == 0 && !u.applied && s.words[p] & 0x7FFF != 0
    case ResetStored(_, _) => s.updated == 0 && !AllBlank(s)
    case _ => false
  }

  lemma DirectionBits(w: bv16)
    ensures SetBit(w, DIRECTION) == w <==> w & 0x4000 != 0
    ensures ClearBit(w, DIRECTION) == w <==> w & 0x7FFF == 0
  {
  }

  lemma DirectionStrands(s: State, p: Pin, w: bv16, u: Write)
    requires Covered(s)
    ensures Covered(ForceUpdate(SetWord(s, p, w), u)) <==> !(s.updated == 0 && !u.applied && w != s.words[p])
  {
  }

  lemma LoweredBlank(w: bv16)
    ensures Lowered(w) == 0 <==> w == 0
  {
  }

  lemma ResetStrands(s: State, page: Write, x: Write)
    requires Covered(s)
    ensures Covered(Reset(s, page, x)) <==> !(s.updated == 0 && !AllBlank(s))
  {
    var t := Reset(s, page, x);
    if s.updated == 0 {
      forall i | 0 <= i < PINS ensures t.dev.page[i] == 0 <==> s.words[i] == 0 { LoweredBlank(s.words[i]); }
      assert forall i | 0 <= i < PINS :: t.words[i] == 0;
      if AllBlank(s) {
        assert forall i | 0 <= i < PINS :: t.dev.page[i] == t.words[i];
        assert t.words == t.dev.page;
      } else {
        var i: int :| 0 <= i < PINS && s.words[i] != 0;
        assert t.dev.page[i] != t.words[i];
      }
    }
  }

  lemma RequestQueues(s: State, e: Event)
    requires Covered(s) && (e.GpioRequested? || e.GpioFreed?)
    ensures Covered(Step(s, e))
  {
  }

  /** From a covered state a step leads to a covered state if and only if it is not one of those. */
  lemma StepStrandsExactly(s: State, e: Event)
    requires Covered(s)
    ensures Covered(Step(s, e)) <==> !Strands(s, e)
  {
    match e
    case MadeInput(p, u) =>
      DirectionBits(s.words[p]);
      DirectionStrands(s, p, SetBit(s.words[p], DIRECTION), u);
    case MadeOutput(p, _, u) =>
      DirectionBits(s.words[p]);
      DirectionStrands(s, p, ClearBit(s.words[p], DIRECTION), u);
    case ResetStored(page, x) => ResetStrands(s, page, x);
    case GpioRequested(_, _, _, _, _, _, _, _) => RequestQueues(s, e);
    case GpioFreed(_, _, _, _, _, _) => RequestQueues(s, e);
    case _ =>
  }

  ghost predicate NeverStrands(s: State, h: seq<Event>) {
    forall n | 0 <= n < |h| :: !Strands(Run(s, h[..n]), h[n])
  }

  ghost predicate AlwaysCovered(s: State, h: seq<Event>) {
    forall n | 0 <= n <= |h| :: Covered(Run(s, h[..n]))
  }

  lemma {:induction false} CoveredUpTo(s: State, h: seq<Event>, n: nat)
    requires Covered(s) && NeverStrands(s, h) && n <= |h|
    ensures Covered(Run(s, h[..n]))
    decreases n
  {
    if n > 0 {
      CoveredUpTo(s, h, n - 1);
      assert h[..n][..n - 1] == h[..n - 1];
      StepStrandsExactly(Run(s, h[..n - 1]), h[n - 1]);
    }
  }

  /** Over any run: a difference between cache and device is always queued for the worker if and only if
      no step strands one. */
  lemma CoveredUnlessStranded(s: State, h: seq<Event>)
    requires Covered(s)
    ensures AlwaysCovered(s, h) <==> NeverStrands(s, h)
  {
    if AlwaysCovered(s, h) {
      forall n | 0 <= n < |h| ensures !Strands(Run(s, h[..n]), h[n]) {
        assert h[..n + 1][..n] == h[..n];
        assert Covered(Run(s, h[..n])) && Covered(Run(s, h[..n + 1]));
        StepStrandsExactly(Run(s, h[..n]), h[n]);
      }
    }
    if NeverStrands(s, h) {
      forall n | 0 <= n <= |h| ensures Covered(Run(s, h[..n])) { CoveredUpTo(s, h, n); }
    }
  }

  /** Updates of the GPIO page arrive, and nobody writes to the reset attribute. */
  predicate Lossless(e: Event) {
    match e
    case WorkerTurn(u) => u.applied
    case MadeInput(_, u) => u.applied
    case MadeOutput(_, _, u) => u.applied
    case ResetStored(_, _) => false
    case _ => true
  }

  lemma {:induction false} StaysSupported(s: State, h: seq<Event>)
    ensures Run(s, h).supported == s.supported
    decreases |h|
  {
    if |h| > 0 { StaysSupported(s, h[..|h| - 1]); }
  }

  lemma LosslessRunsStayCovered(s: State, h: seq<Event>)
    requires Covered(s) && forall e | e in h :: Lossless(e)
    ensures Covered(Run(s, h))
  {
    forall n | 0 <= n < |h| ensures !Strands(Run(s, h[..n]), h[n]) {
      assert Lossless(h[n]);
    }
    CoveredUpTo(s, h, |h|);
    assert h[..|h|] == h;
  }

  lemma TurnRestores(s: State, u: Write)
    requires Covered(s) && s.supported && u.applied
    ensures Step(s, WorkerTurn(u)).dev.page == s.words == Step(s, WorkerTurn(u)).words
  {
  }

  /** Over every lossless reset-free run from probe, differences are queued, and one turn of the worker
      makes the device hold what the cache held. */
  lemma WorkerRestoresAgreement(before: State, update: Write, unexport: Write, h: seq<Event>, u: Write)
    requires u.applied && forall e | e in h :: Lossless(e)
    ensures var s := Run(Probed(before, update, unexport), h);
            Covered(s) && Step(s, WorkerTurn(u)).dev.page == s.words == Step(s, WorkerTurn(u)).words
  {
    var s := Probed(before, update, unexport);
    StaysSupported(s, h);
    LosslessRunsStayCovered(s, h);
    TurnRestores(Run(s, h), u);
  }

  /** A lost update is not tried again: the page write's negative result is stored in a u16 before the
      driver looks at its sign. Once a difference is stranded no number of turns of the worker, all of
      them with a perfect transport, brings it to the device. */
  lemma {:induction false} StrandedStaysBehind(s: State, e: Event, turns: seq<Event>)
    requires Covered(s) && Strands(s, e)
    requires forall t | t in turns :: t.WorkerTurn?
    ensures !Agree(Run(Step(s, e), turns)) && Run(Step(s, e), turns) == Step(s, e)
    decreases |turns|
  {
    StepStrandsExactly(s, e);
    StrandsEmptiesQueue(s, e);
    if |turns| > 0 {
      var t := turns[|turns| - 1];
      assert t in turns;
      StrandedStaysBehind(s, e, turns[..|turns| - 1]);
    }
  }

  lemma StrandsEmptiesQueue(s: State, e: Event)
    requires Covered(s) && Strands(s, e)
    ensures Step(s, e).updated == 0
  {
  }

  /** A probe whose last write fails leaves a driver that the worker serves but nothing queued: it starts
      covered if and only if the blank page reached the device or was there already. */
  lemma FailedProbeStrands(s: State, update: Write, unexport: Write)
    requires s.updated == 0
    ensures Covered(HalfProbed(s, update, unexport)) <==> update.applied || s.dev.page == BLANK
  {
  }

  // ---------------------------------------------------------------- all four happen

  /** A freshly probed driver, its one queued update served. */
  function Served(): State {
    var ok := Write(1, true);
    Step(Probed(FRESH, ok, ok), WorkerTurn(ok))
  }

  lemma ServedState()
    ensures Served() == PinState(true, BLANK, 0, {}, Device(BLANK, {}, {})) && Covered(Served())
  {
  }

  /** The four ways, for any pin: a lost change to input; after an applied one a reset, or a lost change
      to output; after a value was set a lost worker turn. Each leaves cache and device apart. */
  lemma StrandsOccur(p: Pin, value: int)
    ensures var ok, lost, s := Write(1, true), Write(-1, false), Served();
            var input, set' := Step(s, MadeInput(p, ok)), Step(s, ValueSet(p, value));
            && Strands(s, MadeInput(p, lost)) && !Covered(Step(s, MadeInput(p, lost)))
            && Strands(input, ResetStored(ok, ok)) && !Covered(Step(input, ResetStored(ok, ok)))
            && Strands(input, MadeOutput(p, value, lost)) && !Covered(Step(input, MadeOutput(p, value, lost)))
            && Strands(set', WorkerTurn(lost)) && !Covered(Step(set', WorkerTurn(lost)))
  {
    var ok, lost, s := Write(1, true), Write(-1, false), Served();
    var input, set' := Step(s, MadeInput(p, ok)), Step(s, ValueSet(p, value));
    ServedState();
    WordOfInput();
    assert input.words[p] == 0x4000;
    StepStrandsExactly(s, MadeInput(p, lost));
    StepStrandsExactly(input, ResetStored(ok, ok));
    StepStrandsExactly(input, MadeOutput(p, value, lost));
    EnabledWord(0);
    assert set'.words[p] != set'.dev.page[p];
    StepStrandsExactly(set', WorkerTurn(lost));
  }

  lemma WordOfInput()
    ensures SetBit(0, DIRECTION) == 0x4000
  {
  }

  lemma EnabledWord(w: bv16)
    ensures ClearBit(SetBit(w, ENABLE), VALUE) != 0 && SetBit(SetBit(w, ENABLE), VALUE) != 0
  {
  }
}
