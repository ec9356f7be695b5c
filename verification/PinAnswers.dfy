/** What each pin operation answers and does, said of the state and the outcomes of its transfers alone. */
module PinAnswers {
  import opened PinWords
  import opened PinModel

  // ---------------------------------------------------------------- PWM request and free

  /** Every case of the answer to a PWM request, in the order the driver decides it. */
  lemma PwmRequestAnswer(s: State, e: Event)
    requires e.PwmRequested?
    ensures var o := Apply(s, e);
            if e.pin in s.ignored then o == Outcome(s, 0)
            else if e.running < 0 then o == Outcome(s, e.running)
            else if e.running > 0 then o == Outcome(s, -1)
            else if !s.supported then o == Outcome(s, 0)
            else if e.gpioRead.ret < 0 then o == Outcome(s, e.gpioRead.ret)
            else if e.pin in e.gpioRead.mask then o == Outcome(s, -1)
            else
              && o.state == s.(dev := s.dev.(pwmExported := if e.grant.applied then e.pwmRead.mask + {e.pin}
                                                            else s.dev.pwmExported))
              && o.ret == if e.grant.ret < 0 then e.grant.ret else 0
  {
  }

  /** A supported pin that is not ignored is handed out to PWM if and only if no motor runs, the GPIO mask was
      read and does not hold it, and the export was not reported as failed. Any other answer is a negative
      error, and leaves everything as it was unless it is that of an export the device took all the same. */
  lemma PwmRequestGrantedIff(s: State, e: Event)
    requires e.PwmRequested? && s.supported && e.pin !in s.ignored
    ensures var o := Apply(s, e);
            && (o.ret == 0 <==>
                  e.running == 0 && e.gpioRead.ret >= 0 && e.pin !in e.gpioRead.mask && e.grant.ret >= 0)
            && (o.ret != 0 ==> o.ret < 0 && (o.state == s || (o.ret == e.grant.ret && e.grant.applied)))
  {
  }

  lemma PwmFreeEffect(s: State, e: Event)
    requires e.PwmFreed?
    ensures Apply(s, e) == Outcome(
              if e.pin !in s.ignored && s.supported && e.pwmRead.ret >= 0 && e.unexport.applied
              then s.(dev := s.dev.(pwmExported := e.pwmRead.mask - {e.pin})) else s, 0)
  {
  }

  // ---------------------------------------------------------------- GPIO request

  /** A pin is handed out to GPIO if and only if the motors could be read, the PWM mask was, any removal from it
      was reported done, and so were the GPIO read and the export. Any other answer is the first of these
      that failed, and touches neither words nor queue nor page. */
  lemma GpioRequestGrantedIff(s: State, e: Event)
    requires e.GpioRequested?
    ensures var o := Apply(s, e);
            var takes := e.pin in e.pwmRead.mask;
            && (o.ret == 0 <==>
                  && e.running >= 0 && e.pwmRead.ret >= 0 && (takes ==> e.unexport.ret >= 0)
                  && e.gpioRead.ret >= 0 && e.grant.ret >= 0)
            && (o.ret != 0 ==>
                  && o.ret == (if e.running < 0 then e.running else if e.pwmRead.ret < 0 then e.pwmRead.ret
                               else if takes && e.unexport.ret < 0 then e.unexport.ret
                               else if e.gpioRead.ret < 0 then e.gpioRead.ret else e.grant.ret)
                  && o.state.words == s.words && o.state.updated == s.updated && o.state.dev.page == s.dev.page)
  {
  }

  /** Both masks after a GPIO request, whatever it answered. */
  lemma GpioRequestMasks(s: State, e: Event)
    requires e.GpioRequested?
    ensures var t := Apply(s, e).state;
            var begins := e.running >= 0 && e.pwmRead.ret >= 0;
            var takes := begins && e.pin in e.pwmRead.mask;
            var exports := begins && !(takes && e.unexport.ret < 0) && e.gpioRead.ret >= 0;
            && t.supported == s.supported
            && t.dev.pwmExported == (if takes && e.unexport.applied then e.pwmRead.mask - {e.pin} else s.dev.pwmExported)
            && t.dev.gpioExported == (if exports && e.grant.applied then e.gpioRead.mask + {e.pin} else s.dev.gpioExported)
            && t.ignored == (if takes then s.ignored + {e.pin} else s.ignored)
  {
  }

  /** A granted pin is enabled, an output, and low, on the device as soon as either of two updates arrives, and
      exactly one more update is queued. */
  lemma GpioRequestStartsPin(s: State, e: Event)
    requires e.GpioRequested? && Apply(s, e).ret == 0
    ensures var t := Apply(s, e).state;
            && t.words == s.words[e.pin := 0x8000] && t.updated == s.updated + 1
            && t.dev.page == if e.update1.applied || e.update2.applied then t.words else s.dev.page
  {
  }

  // ---------------------------------------------------------------- the macros as masks

  lemma EnableMask(w: bv16)
    ensures SetBit(w, ENABLE) == w | 0x8000
  {
  }

  lemma DirectionMask(w: bv16)
    ensures SetBit(w, DIRECTION) == w | 0x4000
  {
  }

  lemma ValueMask(w: bv16)
    ensures SetBit(w, VALUE) == w | 1
  {
  }

  lemma OutputMask(w: bv16)
    ensures ClearBit(w, DIRECTION) == w & 0x8000
  {
  }

  lemma LowMask(w: bv16)
    ensures ClearBit(w, VALUE) == w & 0xFFFE
  {
  }

  lemma TopBit(w: bv16)
    ensures (w >> ENABLE) & 1 == 0 <==> w & 0x8000 == 0
  {
  }

  // ---------------------------------------------------------------- GPIO release

  /** A release first sends the pin low, then its word blank, and queues one update. */
  lemma GpioFreeStopsPin(s: State, e: Event)
    requires e.GpioFreed? && e.running >= 0 && e.gpioRead.ret >= 0
    ensures var o := Apply(s, e);
            && o.ret == 0 && o.state.words == s.words[e.pin := 0] && o.state.updated == s.updated + 1
            && (e.update2.applied ==> o.state.dev.page == o.state.words)
            && (!e.update1.applied && !e.update2.applied ==> o.state.dev.page == s.dev.page)
  {
  }

  lemma GpioFreeSendsLow(s: State, e: Event, low: bv16)
    requires e.GpioFreed? && e.running >= 0 && e.gpioRead.ret >= 0 && e.update1.applied && !e.update2.applied
    requires low == s.words[e.pin] & 0xFFFE
    ensures Apply(s, e).state.dev.page == s.words[e.pin := low]
  {
    LowMask(s.words[e.pin]);
  }

  /** It writes the GPIO mask back without the pin and all lower ones, and ignores neither it nor those any
      longer; the PWM mask is not touched. */
  lemma GpioFreeMasks(s: State, e: Event, k: Pin)
    requires e.GpioFreed? && e.running >= 0 && e.gpioRead.ret >= 0
    ensures var t := Apply(s, e).state;
            && t.dev.pwmExported == s.dev.pwmExported && t.supported == s.supported
            && (k in t.ignored <==> k in s.ignored && k > e.pin)
            && (k in t.dev.gpioExported <==>
                  if e.unexport.applied then k in e.gpioRead.mask && k > e.pin else k in s.dev.gpioExported)
  {
  }

  /** A release that cannot read does nothing, and the caller is not told. */
  lemma GpioFreeGivesUp(s: State, e: Event)
    requires e.GpioFreed? && (e.running < 0 || e.gpioRead.ret < 0)
    ensures Apply(s, e) == Outcome(s, 0)
  {
  }

  // ---------------------------------------------------------------- pin calls, reset, mask, worker

  /** A value enables the pin and is queued, not sent. */
  lemma LowValueEffect(s: State, e: Event, w: bv16)
    requires e.ValueSet? && e.value == 0 && w == s.words[e.pin]
    ensures Apply(s, e) == Outcome(s.(words := s.words[e.pin := (w | 0x8000) & 0xFFFE], updated := s.updated + 1), 0)
  {
    EnableMask(w);
    LowMask(w | 0x8000);
  }

  lemma HighValueEffect(s: State, e: Event, w: bv16)
    requires e.ValueSet? && e.value != 0 && w == s.words[e.pin]
    ensures Apply(s, e) == Outcome(s.(words := s.words[e.pin := (w | 0x8000) | 1], updated := s.updated + 1), 0)
  {
    EnableMask(w);
    ValueMask(w | 0x8000);
  }

  /** A direction is sent at once; an output starts low, whatever value was asked for. */
  lemma DirectionEffect(s: State, e: Event)
    requires e.MadeInput? || e.MadeOutput?
    ensures var w := s.words[e.pin];
            var words := s.words[e.pin := if e.MadeInput? then w | 0x4000 else w & 0x8000];
            Apply(s, e) == Outcome(s.(words := words,
                                      dev := s.dev.(page := if e.update.applied then words else s.dev.page)), 0)
  {
    DirectionMask(s.words[e.pin]);
    OutputMask(s.words[e.pin]);
  }

  /** A reset blanks the cache and clears the GPIO mask; it leaves the PWM mask, the ignore mask and the queue
      alone. */
  lemma ResetEffect(s: State, e: Event)
    requires e.ResetStored?
    ensures var o := Apply(s, e);
            && o.ret == 0 && o.state.words == BLANK
            && o.state.dev.gpioExported == (if e.unexport.applied then {} else s.dev.gpioExported)
            && o.state.dev.pwmExported == s.dev.pwmExported && o.state.supported == s.supported
            && o.state.ignored == s.ignored && o.state.updated == s.updated
            && (!e.page.applied ==> o.state.dev.page == s.dev.page)
  {
  }

  /** It sends every enabled pin low ... */
  lemma ResetLowersEnabled(s: State, e: Event, i: Pin, w: bv16)
    requires e.ResetStored? && e.page.applied && w == s.words[i] && w & 0x8000 != 0
    ensures Apply(s, e).state.dev.page[i] == w & 0xFFFE
  {
    LoweredEnabled(w);
  }

  /** ... and the others as they are. */
  lemma ResetKeepsOthers(s: State, e: Event, i: Pin, w: bv16)
    requires e.ResetStored? && e.page.applied && w == s.words[i] && w & 0x8000 == 0
    ensures Apply(s, e).state.dev.page[i] == w
  {
    LoweredDisabled(w);
  }

  lemma LoweredEnabled(w: bv16)
    ensures w & 0x8000 != 0 ==> Lowered(w) == w & 0xFFFE
  {
    TopBit(w);
    LowMask(w);
  }

  lemma LoweredDisabled(w: bv16)
    ensures w & 0x8000 == 0 ==> Lowered(w) == w
  {
    TopBit(w);
  }

  /** Only a parsed mask of sixteen bits is stored; nothing else changes. */
  lemma IgnoreStoreEffect(s: State, e: Event)
    requires e.IgnoreStored?
    ensures var o := Apply(s, e);
            if e.parsed && 0 <= e.mask <= 0xFFFF then o.ret == 0 && o.state == s.(ignored := o.state.ignored)
            else o == Outcome(s, -22)
  {
  }

  /** Bit k of the mask stands for pin k. */
  lemma IgnoreStoredBits(s: State, e: Event, mask: bv16, k: Pin)
    requires e.IgnoreStored? && e.parsed && 0 <= e.mask <= 0xFFFF && mask == e.mask as bv16
    ensures k in Apply(s, e).state.ignored <==> (mask >> k) & 1 == 1
  {
    ShiftedBit(mask, k);
  }

  /** A probe sends blank words, clears the GPIO mask and leaves the PWM mask and the ignore mask alone; a failure
      of the last write keeps it only from queueing the first update. */
  lemma ProbeEffect(s: State, update: Write, unexport: Write)
    ensures var dev := Device(if update.applied then BLANK else s.dev.page,
                              if unexport.applied then {} else s.dev.gpioExported, s.dev.pwmExported);
            && Probed(s, update, unexport) == PinState(true, BLANK, 1, s.ignored, dev)
            && HalfProbed(s, update, unexport) == PinState(true, BLANK, s.updated, s.ignored, dev)
  {
  }

  /** A worker turn spends one queued update, if there is one, and sends the cache. */
  lemma WorkerTurnEffect(s: State, e: Event)
    requires e.WorkerTurn?
    ensures Apply(s, e) == Outcome(
              if s.supported && s.updated > 0
              then s.(updated := s.updated - 1, dev := s.dev.(page := if e.update.applied then s.words else s.dev.page))
              else s, 0)
  {
  }
}
