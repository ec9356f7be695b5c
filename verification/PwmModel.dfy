/** The state of the PWM driver, the register writes it issues, and what each client call
    and each worker tick does to them. Every call and every tick is one atomic step. */
module PwmModel {
  import opened Clock

  const MAX_CHANNELS: nat := 16
  const TIMER_COUNT: nat := 4
  const CHANNELS_PER_TIMER: nat := 4
  const MAX_ZEROED_CHANNELS: nat := 12
  const ZERO_SKIP_UPDATE_CYCLES: nat := 50
  const NS_PER_SECOND: int := 1_000_000_000

  const PAGE_SETUP: nat := 50
  const SETUP_ARMING: nat := 1
  const SETUP_PWM_RATES: nat := 2
  const SETUP_DEFAULT_RATE: nat := 3
  const SETUP_ALT_RATE: nat := 4
  const SETUP_FORCE_SAFETY_OFF: nat := 12
  const SETUP_GROUP1_RATE: nat := 26
  const PAGE_RC_CONFIG: nat := 53
  const PAGE_DIRECT_PWM: nat := 54

  type u16 = x: int | 0 <= x < 0x10000
  type Channel = c: nat | c < MAX_CHANNELS
  /** A division by zero is the one period the driver cannot take. */
  type Period = p: int | p != 0 witness 1

  /** Conversion of a C int to u16. */
  function Wrap(x: int): u16 {
    x % 0x10000
  }

  /** C division, which truncates toward zero. */
  function CDiv(a: int, b: int): int
    requires b != 0
  {
    var q := (if a < 0 then -a else a) / (if b < 0 then -b else b);
    if (a < 0) == (b < 0) then q else -q
  }

  // ---------------------------------------------------------------- the device

  datatype RegWrite = RegWrite(page: nat, offset: nat, regs: seq<u16>)

  /** What the driver did, in order: register writes issued, and config calls that passed the
      ignore and zeroing gate. */
  datatype Entry =
    | Accepted(time: nat)
    | Wrote(time: nat, write: RegWrite)

  predicate Covers(e: Entry, page: nat, offset: nat) {
    e.Wrote? && e.write.page == page && e.write.offset <= offset < e.write.offset + |e.write.regs|
  }

  /** A device register after the writes in `log` over a lossless transport: the last write to it,
      or zero from power-on. */
  function Reg(log: seq<Entry>, page: nat, offset: nat): u16
    decreases |log|
  {
    if |log| == 0 then 0
    else
      var e := log[|log| - 1];
      if Covers(e, page, offset) then e.write.regs[offset - e.write.offset]
      else Reg(log[..|log| - 1], page, offset)
  }

  const ZEROS: seq<u16> := [0, 0, 0, 0, 0, 0, 0, 0, 0, 0, 0, 0, 0, 0, 0, 0]

  function Outputs(values: seq<u16>): RegWrite {
    RegWrite(PAGE_DIRECT_PWM, 0, values)
  }

  const CLEAR_OUTPUTS: RegWrite := Outputs(ZEROS)

  /** The registers that hold a programmed rate. */
  datatype RateRegister = Group(g: nat) | Alt | Default

  function RateOffset(r: RateRegister): nat {
    match r
    case Group(g) => SETUP_GROUP1_RATE + g
    case Alt => SETUP_ALT_RATE
    case Default => SETUP_DEFAULT_RATE
  }

  function RateWrite(r: RateRegister, rate: u16): RegWrite {
    RegWrite(PAGE_SETUP, RateOffset(r), [rate])
  }

  /** The rate register that governs a channel: one per timer of four channels, or in the older
      firmware one per bank of eight. */
  function Governs(adv: bool, ch: Channel): RateRegister {
    if adv then Group(ch / CHANNELS_PER_TIMER) else if ch < 8 then Alt else Default
  }

  function DeviceRate(log: seq<Entry>, r: RateRegister): u16 {
    Reg(log, PAGE_SETUP, RateOffset(r))
  }

  function DeviceOutput(log: seq<Entry>, ch: nat): u16 {
    Reg(log, PAGE_DIRECT_PWM, ch)
  }

  // ---------------------------------------------------------------- driver state

  /** Which firmware, and the kernel clock: `half` is 2^(w-1) for a word of w bits, `hz` ticks a second. */
  datatype Env = Env(adv: bool, half: nat, hz: nat) {
    predicate Valid() {
      half > 0 && hz / 10 <= half
    }
  }

  datatype Pwm = Pwm(
    values: seq<u16>,
    altFrequency: u16,
    altUpdated: bool,
    defaultFrequency: u16,
    defaultUpdated: bool,
    frequencies: seq<u16>,
    newFrequencies: seq<u16>,
    updateRequired: seq<bool>,
    armed: bool,
    armTimeout: nat,
    zeroCountdown: int,
    noticed: bool,
    ignoreMask: bv16,
    log: seq<Entry>)
  {
    predicate Shape() {
      && |values| == MAX_CHANNELS
      && |frequencies| == |newFrequencies| == |updateRequired| == TIMER_COUNT
    }
  }

  const POWER_ON: Pwm := Pwm(
    ZEROS, 50, false, 50, false,
    [50, 50, 50, 50], [50, 50, 50, 50], [false, false, false, false],
    false, 0, 0, false, 0, [])

  type State = s: Pwm | s.Shape() witness POWER_ON

  function Issue(s: State, now: nat, w: RegWrite): State {
    s.(log := s.log + [Wrote(now, w)])
  }

  predicate Pending(s: State) {
    s.altUpdated || s.defaultUpdated || true in s.updateRequired
  }

  /** The rate clients asked for last, for the channels `r` governs. */
  function Requested(s: State, r: RateRegister): u16
    requires r.Group? ==> r.g < TIMER_COUNT
  {
    match r
    case Group(g) => s.newFrequencies[g]
    case Alt => s.altFrequency
    case Default => s.defaultFrequency
  }

  // ---------------------------------------------------------------- the worker tick

  predicate Armed(env: Env, s: State, now: nat)
    requires env.Valid()
  {
    TimeBefore(now % (2 * env.half), s.armTimeout, env.half) && s.armTimeout > 0
  }

  /** The rates waiting to be programmed, in the order the ticks will serve them. */
  function Waiting(adv: bool, s: State): seq<RateRegister> {
    if adv then WaitingGroups(s, 0)
    else (if s.altUpdated then [Alt] else []) + (if s.defaultUpdated then [Default] else [])
  }

  function WaitingGroups(s: State, g: nat): seq<RateRegister>
    requires g <= TIMER_COUNT
    decreases TIMER_COUNT - g
  {
    if g == TIMER_COUNT then []
    else (if s.updateRequired[g] then [Group(g)] else []) + WaitingGroups(s, g + 1)
  }

  /** Program one rate and drop its request. */
  function ServeRate(s: State, now: nat, r: RateRegister): State
    requires r.Group? ==> r.g < TIMER_COUNT
  {
    var s1 := Issue(s, now, RateWrite(r, Requested(s, r)));
    match r
    case Group(g) =>
      s1.(frequencies := s.frequencies[g := s.newFrequencies[g]], updateRequired := s.updateRequired[g := false])
    case Alt => s1.(altUpdated := false)
    case Default => s1.(defaultUpdated := false)
  }

  function ZeroMotors(values: seq<u16>): (r: seq<u16>)
    requires |values| == MAX_CHANNELS
    ensures |r| == MAX_CHANNELS
  {
    ZEROS[..MAX_ZEROED_CHANNELS] + values[MAX_ZEROED_CHANNELS..]
  }

  /** What the next stream of values carries. */
  function FinalValues(s: State): (values: seq<u16>)
    ensures |values| == MAX_CHANNELS
  {
    if s.zeroCountdown > 0 then ZeroMotors(s.values) else s.values
  }

  /** The end of a tick that had no rate to deal with. */
  function Finish(s: State, now: nat): State {
    var t := s.(noticed := false, values := FinalValues(s),
                zeroCountdown := if s.zeroCountdown > 0 then s.zeroCountdown - 1 else 0);
    if s.armed && !Pending(s) then Issue(t, now, Outputs(FinalValues(s))) else t
  }

  datatype TickKind = Clears | Programs(r: RateRegister) | Finishes

  function KindOfTick(env: Env, s: State, now: nat): (k: TickKind)
    requires env.Valid()
    ensures k.Programs? && k.r.Group? ==> k.r.g < TIMER_COUNT
  {
    if Armed(env, s, now) && Pending(s) && !s.noticed then Clears
    else if Armed(env, s, now) && |Waiting(env.adv, s)| > 0 then
      WaitingInRange(env.adv, s, 0);
      Programs(Waiting(env.adv, s)[0])
    else Finishes
  }

  lemma WaitingInRange(adv: bool, s: State, g: nat)
    requires g <= TIMER_COUNT
    ensures forall r | r in WaitingGroups(s, g) :: r.Group? && g <= r.g < TIMER_COUNT && s.updateRequired[r.g]
    ensures WaitingGroups(s, g) == [] <==> forall k | g <= k < TIMER_COUNT :: !s.updateRequired[k]
    decreases TIMER_COUNT - g
  {
  }

  function Tick(env: Env, s: State, now: nat): State
    requires env.Valid()
  {
    var s1 := s.(armed := Armed(env, s, now));
    match KindOfTick(env, s, now)
    case Clears => Issue(s1, now, CLEAR_OUTPUTS).(noticed := true)
    case Programs(r) => ServeRate(s1, now, r)
    case Finishes => Finish(s1, now)
  }

  lemma ServeEffect(s: State, now: nat, r: RateRegister)
    requires r.Group? ==> r.g < TIMER_COUNT
    ensures var t := ServeRate(s, now, r);
            && t == s.(frequencies := t.frequencies, updateRequired := t.updateRequired, altUpdated := t.altUpdated,
                       defaultUpdated := t.defaultUpdated, log := t.log)
            && forall g | 0 <= g < TIMER_COUNT ::
                 t.frequencies[g] == s.frequencies[g] || t.frequencies[g] == s.newFrequencies[g]
  {
  }

  lemma FinishEffect(s: State, now: nat)
    ensures var t := Finish(s, now);
            && t == s.(values := t.values, zeroCountdown := t.zeroCountdown, noticed := false, log := t.log)
            && forall i | 0 <= i < MAX_CHANNELS :: t.values[i] == s.values[i] || t.values[i] == 0
  {
  }

  /** What no tick does: change a request, the deadline or the mask, store a value, or cache a rate
      that was not asked for. */
  lemma TickEffect(env: Env, s: State, now: nat)
    requires env.Valid()
    ensures var t := Tick(env, s, now);
            && t.newFrequencies == s.newFrequencies && t.altFrequency == s.altFrequency
            && t.defaultFrequency == s.defaultFrequency
            && t.armTimeout == s.armTimeout && t.ignoreMask == s.ignoreMask
            && (forall i | 0 <= i < MAX_CHANNELS :: t.values[i] == s.values[i] || t.values[i] == 0)
            && (forall g | 0 <= g < TIMER_COUNT ::
                  t.frequencies[g] == s.frequencies[g] || t.frequencies[g] == s.newFrequencies[g])
  {
    var s1 := s.(armed := Armed(env, s, now));
    match KindOfTick(env, s, now)
    case Clears =>
    case Programs(r) => ServeEffect(s1, now, r);
    case Finishes => FinishEffect(s1, now);
  }

  // ---------------------------------------------------------------- client calls

  function ForceZero(env: Env, s: State, now: nat): State
    requires env.Valid()
  {
    Tick(env, s.(zeroCountdown := s.zeroCountdown + ZERO_SKIP_UPDATE_CYCLES), now)
  }

  function Disable(s: State, now: nat, ch: Channel): State {
    Issue(s, now, RegWrite(PAGE_DIRECT_PWM, ch, [0])).(values := s.values[ch := 0], armed := false)
  }

  function Free(s: State, ch: Channel): State {
    s.(values := s.values[ch := 0])
  }

  predicate Ignored(mask: bv16, ch: Channel) {
    (mask >> ch) & 1 == 1
  }

  /** The gate at the top of config: such a call only stores a zero. */
  predicate Gated(s: State, ch: Channel, duty: int) {
    || (Ignored(s.ignoreMask, ch) && duty != 0)
    || (s.zeroCountdown > 0 && ch < MAX_ZEROED_CHANNELS)
  }

  function FrequencyOf(period: Period): u16 {
    Wrap(CDiv(NS_PER_SECOND, period))
  }

  function DutyOf(duty: int): u16 {
    Wrap(CDiv(duty, 1000))
  }

  /** With per-timer rates the control pin may always request a new rate, another pin only while
      its whole group is at zero. */
  predicate GroupRequestsRate(s: State, ch: Channel, f: u16) {
    var g := ch / CHANNELS_PER_TIMER;
    && s.frequencies[g] != f
    && (ch % CHANNELS_PER_TIMER == 0 || forall i | 4 * g <= i < 4 * g + 4 :: s.values[i] == 0)
  }

  /** With banks the control pins may, unless the duty is zero. */
  predicate BankRequestsRate(s: State, ch: Channel, duty: int, f: u16) {
    Requested(s, Governs(false, ch)) != f && duty != 0 && ch % CHANNELS_PER_TIMER == 0
  }

  predicate RequestsRate(adv: bool, s: State, ch: Channel, duty: int, f: u16) {
    if adv then GroupRequestsRate(s, ch, f) else BankRequestsRate(s, ch, duty, f)
  }

  function RequestRate(s: State, r: RateRegister, f: u16): State
    requires r.Group? ==> r.g < TIMER_COUNT
  {
    match r
    case Group(g) =>
      s.(newFrequencies := s.newFrequencies[g := f], updateRequired := s.updateRequired[g := true])
    case Alt => s.(altFrequency := f, altUpdated := true)
    case Default => s.(defaultFrequency := f, defaultUpdated := true)
  }

  /** The rate a duty has to match to be stored. */
  function CachedRate(s: State, r: RateRegister): u16
    requires r.Group? ==> r.g < TIMER_COUNT
  {
    if r.Group? then s.frequencies[r.g] else Requested(s, r)
  }

  function Accept(env: Env, s: State, now: nat): State
    requires env.Valid()
  {
    s.(armTimeout := (now + env.hz / 10) % (2 * env.half), log := s.log + [Accepted(now)])
  }

  /** What an accepted config does to rate and duty: the duty is stored only if the call's own rate
      is the one in force, and else forced to zero. */
  function Reconfigure(adv: bool, s: State, ch: Channel, duty: int, f: u16): State {
    var r := Governs(adv, ch);
    var s1 := if RequestsRate(adv, s, ch, duty, f) then RequestRate(s, r, f) else s;
    s1.(values := s.values[ch := if CachedRate(s1, r) == f then DutyOf(duty) else 0])
  }

  function Config(env: Env, s: State, now: nat, ch: Channel, duty: int, period: Period): State
    requires env.Valid()
  {
    if Gated(s, ch, duty) then s.(values := s.values[ch := 0])
    else Reconfigure(env.adv, Accept(env, s, now), ch, duty, FrequencyOf(period))
  }

  // ---------------------------------------------------------------- runs

  datatype Event =
    | ConfigCall(ch: Channel, duty: int, period: Period)
    | EnableCall
    | DisableCall(ch: Channel)
    | FreeCall(ch: Channel)
    | ForceZeroCall
    | StoreIgnoreMask(mask: bv16)
    | WorkerTick

  datatype Timed = Timed(now: nat, event: Event)

  function Step(env: Env, s: State, e: Timed): State
    requires env.Valid()
  {
    match e.event
    case ConfigCall(ch, duty, period) => Config(env, s, e.now, ch, duty, period)
    case EnableCall => s.(armed := true)
    case DisableCall(ch) => Disable(s, e.now, ch)
    case FreeCall(ch) => Free(s, ch)
    case ForceZeroCall => ForceZero(env, s, e.now)
    case StoreIgnoreMask(mask) => s.(ignoreMask := mask)
    case WorkerTick => Tick(env, s, e.now)
  }

  function Run(env: Env, s: State, h: seq<Timed>): State
    requires env.Valid()
    decreases |h|
  {
    if |h| == 0 then s else Run(env, Step(env, s, h[0]), h[1..])
  }

  lemma RegAppend(log: seq<Entry>, e: Entry, page: nat, offset: nat)
    ensures Reg(log + [e], page, offset) ==
            if Covers(e, page, offset) then e.write.regs[offset - e.write.offset] else Reg(log, page, offset)
  {
  }
}
