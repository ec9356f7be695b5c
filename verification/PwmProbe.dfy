/** What probing leaves behind: rates, arming and the RC input configuration. */
module PwmProbe {
  import opened PwmModel

  const FORCE_SAFETY_MAGIC: u16 := 22027
  /** IO_ARM_OK | FMU_ARMED | ALWAYS_PWM_ENABLE */
  const ARMING_BITS: u16 := 0x23
  const RC_CONFIG_STRIDE: nat := 6

  const RC_ENABLED: u16 := 1
  const RC_REVERSE: u16 := 2

  /** How one channel of the RC input is to be read. */
  datatype RcConfig = RcConfig(channel: nat, min: u16, trim: u16, max: u16, deadZone: u16, assignment: u16, reverse: bool)

  /** The configuration every channel starts with. */
  function InitialRc(ch: nat): RcConfig {
    RcConfig(ch, 900, 1500, 2000, 10, 0, false)
  }

  function RcFields(c: RcConfig): (regs: seq<u16>)
    ensures |regs| == RC_CONFIG_STRIDE
  {
    [c.min, c.trim, c.max, c.deadZone, c.assignment, if c.reverse then RC_ENABLED + RC_REVERSE else RC_ENABLED]
  }

  /** The write for one channel; the offset passes through a u8 on its way to the packet. */
  function RcWrite(c: RcConfig): RegWrite {
    RegWrite(PAGE_RC_CONFIG, (c.channel * RC_CONFIG_STRIDE) % 0x100, RcFields(c))
  }

  /** Six registers a channel: minimum, centre, maximum, dead zone, assignment, and options with bit 0 for
      enabled and bit 1 for reversed. */
  lemma RcWriteLayout(c: RcConfig)
    requires c.channel < MAX_CHANNELS
    ensures RcWrite(c) == RegWrite(53, 6 * c.channel,
                                   [c.min, c.trim, c.max, c.deadZone, c.assignment, if c.reverse then 3 else 1])
  {
  }

  /** The writes for the channels below `n`. */
  function RcLog(now: nat, n: nat): seq<Entry> {
    if n == 0 then [] else RcLog(now, n - 1) + [Wrote(now, RcWrite(InitialRc(n - 1)))]
  }

  function GroupLog(now: nat, n: nat): seq<Entry> {
    if n == 0 then [] else GroupLog(now, n - 1) + [Wrote(now, RateWrite(Group(n - 1), 50))]
  }

  function SetupLog(now: nat): seq<Entry> {
    [Wrote(now, RegWrite(PAGE_SETUP, SETUP_FORCE_SAFETY_OFF, [FORCE_SAFETY_MAGIC])),
     Wrote(now, RegWrite(PAGE_SETUP, SETUP_ARMING, [ARMING_BITS]))]
  }

  function BankLog(now: nat): seq<Entry> {
    [Wrote(now, RegWrite(PAGE_SETUP, SETUP_PWM_RATES, [0xFF])),
     Wrote(now, RateWrite(Alt, 50)),
     Wrote(now, RateWrite(Default, 50))]
  }

  /** Everything a successful probe writes. */
  function ProbeLog(adv: bool, now: nat): seq<Entry> {
    SetupLog(now) + (if adv then GroupLog(now, TIMER_COUNT) else BankLog(now)) + RcLog(now, MAX_CHANNELS)
  }

  /** The driver when the worker starts; all outputs still at their power-on zero. */
  function InitialState(env: Env, now: nat): State {
    POWER_ON.(log := ProbeLog(env.adv, now))
  }

  /** A successful probe register by register: safety off, outputs armed, every rate 50, then six registers for
      each channel of the RC input. */
  lemma GroupProbeWrites(now: nat, ch: Channel)
    ensures var log := ProbeLog(true, now);
            && |log| == 22
            && log[0] == Wrote(now, RegWrite(50, 12, [22027])) && log[1] == Wrote(now, RegWrite(50, 1, [0x23]))
            && log[2] == Wrote(now, RegWrite(50, 26, [50])) && log[3] == Wrote(now, RegWrite(50, 27, [50]))
            && log[4] == Wrote(now, RegWrite(50, 28, [50])) && log[5] == Wrote(now, RegWrite(50, 29, [50]))
            && log[6 + ch] == Wrote(now, RegWrite(53, 6 * ch, [900, 1500, 2000, 10, 0, 1]))
  {
    FourGroups(now);
    RcLogAt(now, MAX_CHANNELS, ch);
    assert ProbeLog(true, now)[6 + ch] == RcLog(now, MAX_CHANNELS)[ch];
  }

  lemma FourGroups(now: nat)
    ensures GroupLog(now, 4) == [Wrote(now, RegWrite(50, 26, [50])), Wrote(now, RegWrite(50, 27, [50])),
                                 Wrote(now, RegWrite(50, 28, [50])), Wrote(now, RegWrite(50, 29, [50]))]
  {
    assert GroupLog(now, 1) == [Wrote(now, RegWrite(50, 26, [50]))];
    assert GroupLog(now, 2) == GroupLog(now, 1) + [Wrote(now, RegWrite(50, 27, [50]))];
    assert GroupLog(now, 3) == GroupLog(now, 2) + [Wrote(now, RegWrite(50, 28, [50]))];
  }

  lemma {:induction false} RcLogAt(now: nat, n: nat, ch: nat)
    requires ch < n <= MAX_CHANNELS
    ensures |RcLog(now, n)| == n
    ensures RcLog(now, n)[ch] == Wrote(now, RegWrite(53, 6 * ch, [900, 1500, 2000, 10, 0, 1]))
    decreases n
  {
    if ch < n - 1 { RcLogAt(now, n - 1, ch); }
    else if n > 1 { RcLogAt(now, n - 1, 0); }
  }

  lemma BankProbeWrites(now: nat, ch: Channel)
    ensures var log := ProbeLog(false, now);
            && |log| == 21
            && log[0] == Wrote(now, RegWrite(50, 12, [22027])) && log[1] == Wrote(now, RegWrite(50, 1, [0x23]))
            && log[2] == Wrote(now, RegWrite(50, 2, [0xFF]))
            && log[3] == Wrote(now, RegWrite(50, 4, [50])) && log[4] == Wrote(now, RegWrite(50, 3, [50]))
            && log[5 + ch] == Wrote(now, RegWrite(53, 6 * ch, [900, 1500, 2000, 10, 0, 1]))
  {
    RcLogAt(now, MAX_CHANNELS, ch);
    assert ProbeLog(false, now)[5 + ch] == RcLog(now, MAX_CHANNELS)[ch];
  }

  /** How often a register was written. */
  function TimesWritten(log: seq<Entry>, page: nat, offset: nat): nat {
    if |log| == 0 then 0
    else TimesWritten(log[..|log| - 1], page, offset) + if Covers(log[|log| - 1], page, offset) then 1 else 0
  }

  lemma TimesWrittenAppend(log: seq<Entry>, e: Entry, page: nat, offset: nat)
    ensures TimesWritten(log + [e], page, offset) ==
            TimesWritten(log, page, offset) + if Covers(e, page, offset) then 1 else 0
  {
  }

  lemma RcCovers(e: Entry, now: nat, c: nat, ch: nat, k: nat, r: nat)
    requires c < MAX_CHANNELS && k < RC_CONFIG_STRIDE && r == RC_CONFIG_STRIDE * ch + k
    requires e == Wrote(now, RcWrite(InitialRc(c)))
    ensures Covers(e, PAGE_RC_CONFIG, r) <==> ch == c
    ensures ch == c ==> e.write.offset + k == r && e.write.regs[k] == RcFields(InitialRc(ch))[k]
  {
  }

  /** The writes for the first `n` channels tile registers 0 .. 6n-1 of the page: each is written
      exactly once, and register 6ch + k ends up with field k of channel ch. */
  lemma {:induction false} RcConfigTiles(now: nat, n: nat, ch: nat, k: nat)
    requires n <= MAX_CHANNELS && k < RC_CONFIG_STRIDE
    ensures var r := RC_CONFIG_STRIDE * ch + k;
            && TimesWritten(RcLog(now, n), PAGE_RC_CONFIG, r) == (if ch < n then 1 else 0)
            && Reg(RcLog(now, n), PAGE_RC_CONFIG, r) == (if ch < n then RcFields(InitialRc(ch))[k] else 0)
    decreases n
  {
    if n > 0 {
      var r := RC_CONFIG_STRIDE * ch + k;
      var e := Wrote(now, RcWrite(InitialRc(n - 1)));
      RcConfigTiles(now, n - 1, ch, k);
      TimesWrittenAppend(RcLog(now, n - 1), e, PAGE_RC_CONFIG, r);
      RegAppend(RcLog(now, n - 1), e, PAGE_RC_CONFIG, r);
      RcCovers(e, now, n - 1, ch, k, r);
    }
  }

  lemma {:induction false} RegAppendLog(log: seq<Entry>, tail: seq<Entry>, page: nat, offset: nat)
    requires forall i | 0 <= i < |tail| :: !Covers(tail[i], page, offset)
    ensures Reg(log + tail, page, offset) == Reg(log, page, offset)
    decreases |tail|
  {
    if |tail| == 0 {
      assert log + tail == log;
    } else {
      var n := |tail| - 1;
      assert log + tail == (log + tail[..n]) + [tail[n]];
      RegAppend(log + tail[..n], tail[n], page, offset);
      RegAppendLog(log, tail[..n], page, offset);
    }
  }

  lemma {:induction false} RcLogPage(now: nat, n: nat)
    ensures forall i | 0 <= i < |RcLog(now, n)| ::
              RcLog(now, n)[i].Wrote? && RcLog(now, n)[i].write.page == PAGE_RC_CONFIG
    decreases n
  {
    if n > 0 { RcLogPage(now, n - 1); }
  }

  lemma {:induction false} GroupRates(log: seq<Entry>, now: nat, n: nat, g: nat)
    requires g < n <= TIMER_COUNT
    ensures DeviceRate(log + GroupLog(now, n), Group(g)) == 50
    decreases n
  {
    var e := Wrote(now, RateWrite(Group(n - 1), 50));
    assert log + GroupLog(now, n) == (log + GroupLog(now, n - 1)) + [e];
    RegAppend(log + GroupLog(now, n - 1), e, PAGE_SETUP, RateOffset(Group(g)));
    if g < n - 1 { GroupRates(log, now, n - 1, g); }
  }

  lemma {:induction false} GroupLogPage(now: nat, n: nat)
    ensures forall i | 0 <= i < |GroupLog(now, n)| ::
              GroupLog(now, n)[i].Wrote? && GroupLog(now, n)[i].write.page == PAGE_SETUP
    decreases n
  {
    if n > 0 { GroupLogPage(now, n - 1); }
  }

  lemma ProbedGroupRate(now: nat, g: nat)
    requires g < TIMER_COUNT
    ensures DeviceRate(ProbeLog(true, now), Group(g)) == 50
  {
    RcLogPage(now, MAX_CHANNELS);
    RegAppendLog(SetupLog(now) + GroupLog(now, TIMER_COUNT), RcLog(now, MAX_CHANNELS), PAGE_SETUP, RateOffset(Group(g)));
    GroupRates(SetupLog(now), now, TIMER_COUNT, g);
  }

  lemma ProbedBankRate(now: nat, r: RateRegister)
    requires !r.Group?
    ensures DeviceRate(ProbeLog(false, now), r) == 50
  {
    RcLogPage(now, MAX_CHANNELS);
    RegAppendLog(SetupLog(now) + BankLog(now), RcLog(now, MAX_CHANNELS), PAGE_SETUP, RateOffset(r));
    BankRates(SetupLog(now), now, r);
  }

  lemma BankRates(log: seq<Entry>, now: nat, r: RateRegister)
    requires !r.Group?
    ensures DeviceRate(log + BankLog(now), r) == 50
  {
    var b := BankLog(now);
    assert log + b == ((log + [b[0]]) + [b[1]]) + [b[2]];
    RegAppend(log + [b[0]], b[1], PAGE_SETUP, RateOffset(r));
    RegAppend(log + [b[0]] + [b[1]], b[2], PAGE_SETUP, RateOffset(r));
  }

  lemma ProbedOutput(adv: bool, now: nat, ch: Channel)
    ensures DeviceOutput(ProbeLog(adv, now), ch) == 0
  {
    RcLogPage(now, MAX_CHANNELS);
    GroupLogPage(now, TIMER_COUNT);
    RegAppendLog([], ProbeLog(adv, now), PAGE_DIRECT_PWM, ch);
    assert [] + ProbeLog(adv, now) == ProbeLog(adv, now);
  }

  /** After a probe the device runs every channel at the 50 Hz the driver has cached, outputs at zero. */
  lemma ProbedDevice(env: Env, now: nat, ch: Channel)
    ensures var log := InitialState(env, now).log;
            DeviceRate(log, Governs(env.adv, ch)) == 50 && DeviceOutput(log, ch) == 0
  {
    if env.adv {
      ProbedGroupRate(now, ch / CHANNELS_PER_TIMER);
    } else {
      ProbedBankRate(now, Governs(false, ch));
    }
    ProbedOutput(env.adv, now, ch);
  }
}
