/** What the pin words mean: each is the encoding of a setting that follows the calls on its pin, over
    every run and whatever the transport does. */
module PinMeaning {
  import opened PinWords
  import opened PinModel
  import opened WriteBack

  type Settings = ss: seq<Setting> | |ss| == PINS
    witness [OFF, OFF, OFF, OFF, OFF, OFF, OFF, OFF, OFF, OFF, OFF, OFF, OFF, OFF, OFF, OFF]

  function AllOff(): Settings {
    seq(PINS, _ => OFF)
  }

  /** The settings after one call, given the code it returned. */
  function Follow(ss: Settings, e: Event, ret: int): Settings {
    match e
    case GpioRequested(p, _, _, _, _, _, _, _) =>
      if ret == 0 then ss[p := Setting(true, false, false)] else ss
    case GpioFreed(p, running, gpioRead, _, _, _) =>
      if running < 0 || gpioRead.ret < 0 then ss else ss[p := OFF]
    case ValueSet(p, value) => ss[p := ss[p].(enabled := true, high := value != 0)]
    case MadeInput(p, _) => ss[p := ss[p].(input := true)]
    case MadeOutput(p, _, _) => ss[p := ss[p].(input := false, high := false)]
    case ResetStored(_, _) => AllOff()
    case _ => ss
  }

  function FollowRun(s: State, h: seq<Event>, ss: Settings): Settings
    decreases |h|
  {
    if |h| == 0 then ss
    else
      var n := |h| - 1;
      Follow(FollowRun(s, h[..n], ss), h[n], Apply(Run(s, h[..n]), h[n]).ret)
  }

  ghost predicate Encodes(words: seq<bv16>, ss: Settings) {
    |words| == PINS && forall i | 0 <= i < PINS :: words[i] == Encode(ss[i])
  }

  lemma EncodesUpdate(words: seq<bv16>, ss: Settings, p: Pin, w: bv16, t: Setting)
    requires Encodes(words, ss) && w == Encode(t)
    ensures Encodes(words[p := w], ss[p := t])
  {
  }

  lemma RequestEncodes(s: State, e: Event, ss: Settings)
    requires Encodes(s.words, ss) && e.GpioRequested?
    ensures Encodes(Step(s, e).words, Follow(ss, e, Apply(s, e).ret))
  {
    var s1 := TakeFromPwm(s, e.pin, e.pwmRead, e.unexport);
    var s2 := SetGpioExported(s1, e.gpioRead.mask + {e.pin}, e.grant);
    StartWords(s2, e.pin, e.update1, e.update2);
    if Apply(s, e).ret == 0 {
      EncodesUpdate(s.words, ss, e.pin, 0x8000, Setting(true, false, false));
    }
  }

  lemma StartWords(s: State, p: Pin, u1: Write, u2: Write)
    ensures StartPin(s, p, u1, u2).words == s.words[p := 0x8000]
  {
  }

  lemma StopWords(s: State, p: Pin, u1: Write, u2: Write)
    ensures StopPin(s, p, u1, u2).words == s.words[p := 0]
  {
  }

  lemma SetWordMeaning(w: bv16, t: Setting, value: int)
    requires w == Encode(t)
    ensures (if value == 0 then ClearBit(SetBit(w, ENABLE), VALUE) else SetBit(SetBit(w, ENABLE), VALUE))
            == Encode(t.(enabled := true, high := value != 0))
  {
  }

  lemma ValueEncodes(s: State, p: Pin, value: int, ss: Settings)
    requires Encodes(s.words, ss)
    ensures Encodes(GpioSet(s, p, value).words, ss[p := ss[p].(enabled := true, high := value != 0)])
  {
    SetWordMeaning(s.words[p], ss[p], value);
    EncodesUpdate(s.words, ss, p, GpioSet(s, p, value).words[p], ss[p].(enabled := true, high := value != 0));
  }

  lemma DirectionEncodes(s: State, p: Pin, value: int, u: Write, ss: Settings)
    requires Encodes(s.words, ss)
    ensures Encodes(DirectionInput(s, p, u).words, ss[p := ss[p].(input := true)])
    ensures Encodes(DirectionOutput(s, p, value, u).words, ss[p := ss[p].(input := false, high := false)])
  {
    MacroMeanings(ss[p]);
    EncodesUpdate(s.words, ss, p, SetBit(s.words[p], DIRECTION), ss[p].(input := true));
    EncodesUpdate(s.words, ss, p, ClearBit(s.words[p], DIRECTION), ss[p].(input := false, high := false));
  }

  lemma FreeEncodes(s: State, e: Event, ss: Settings)
    requires Encodes(s.words, ss) && e.GpioFreed?
    ensures Encodes(Step(s, e).words, Follow(ss, e, Apply(s, e).ret))
  {
    StopWords(s, e.pin, e.update1, e.update2);
    EncodesUpdate(s.words, ss, e.pin, 0, OFF);
  }

  lemma StepEncodes(s: State, e: Event, ss: Settings)
    requires Encodes(s.words, ss)
    ensures Encodes(Step(s, e).words, Follow(ss, e, Apply(s, e).ret))
  {
    match e
    case GpioRequested(_, _, _, _, _, _, _, _) => RequestEncodes(s, e, ss);
    case GpioFreed(_, _, _, _, _, _) => FreeEncodes(s, e, ss);
    case ValueSet(p, value) => ValueEncodes(s, p, value, ss);
    case MadeInput(p, u) => DirectionEncodes(s, p, 0, u, ss);
    case MadeOutput(p, value, u) => DirectionEncodes(s, p, value, u, ss);
    case _ =>
  }

  /** Over every run the words are the encodings of the settings, so bits 1 to 13 are never set. */
  lemma {:induction false} WordsFollowCalls(s: State, h: seq<Event>, ss: Settings)
    requires Encodes(s.words, ss)
    ensures Encodes(Run(s, h).words, FollowRun(s, h, ss))
    ensures forall i | 0 <= i < PINS :: Run(s, h).words[i] & 0x3FFE == 0
    decreases |h|
  {
    if |h| > 0 {
      var n := |h| - 1;
      WordsFollowCalls(s, h[..n], ss);
      StepEncodes(Run(s, h[..n]), h[n], FollowRun(s, h[..n], ss));
    }
    forall i | 0 <= i < PINS ensures Run(s, h).words[i] & 0x3FFE == 0 {
      EncodingRoundTrip(0, FollowRun(s, h, ss)[i]);
    }
  }

  /** With the write-back: after any lossless reset-free run from probe and one turn of the worker the
      device's page encodes the settings the calls ask for, pin by pin. */
  lemma DeviceFollowsCalls(before: State, update: Write, unexport: Write, h: seq<Event>, u: Write)
    requires u.applied && forall e | e in h :: Lossless(e)
    ensures var s := Probed(before, update, unexport);
            Encodes(Step(Run(s, h), WorkerTurn(u)).dev.page, FollowRun(s, h, AllOff()))
  {
    WorkerRestoresAgreement(before, update, unexport, h, u);
    WordsFollowCalls(Probed(before, update, unexport), h, AllOff());
  }

  /** A call that makes a pin an output with a value gets that value exactly if it asks for low. */
  lemma OutputIsAlwaysLow(s: State, p: Pin, value: int, u: Write, ss: Settings)
    requires Encodes(s.words, ss)
    ensures var t := Decode(Step(s, MadeOutput(p, value, u)).words[p]);
            !t.input && t.enabled == ss[p].enabled && (t.high == (value != 0) <==> value == 0)
  {
  }
}
