# A verified model of the RCIO kernel driver

RCIO is the Linux driver that lets a Raspberry Pi talk to the I/O processor of a Navio autopilot
board: it drives motors and servos (PWM), shares the same sixteen pins with GPIO, and does all of it by
reading and writing 16-bit registers over SPI. This project models the three parts of the driver that keep
state and proves what they keep:

* **Transport** (`src/protocol.h`, `src/rcio_spi.c`, the accessors of `src/rcio_core.c`). Packets with a
  table-driven CRC-8, one shared packet buffer under a mutex, acceptance checks on replies, and register
  access on top.
* **PWM rates and duties** (`src/rcio_pwm.c`, with the worker of `src/rcio_core.c` as the source of ticks).
  Client calls cache duties and request rates; a periodic tick clears the outputs, programs one rate per
  tick and then streams values, as long as an arming deadline on a wrapping clock has not passed.
* **Pin ownership and GPIO write-back** (`src/rcio_gpio.c`, `rcio_pwm_request`, `rcio_pwm_free`). Two export
  masks on the device, an ignore mask, and a cache of pin words that a counter makes the worker write back.

The code is imperative, so `SpiBus.Bus`, `PwmDriver.Driver` and `PinDriver.GpioChip` are classes with the
driver's arrays, flags and counters, updated in place by methods with the driver's loops and branches.
Each method is proved against a function on values (`Packet`, `PwmModel`, `PinModel`), and the theorems
about whole runs are proved about those functions. A device is the log of the register writes it was sent
(PWM), a register file behind the packet protocol (transport), or its two masks and its page (GPIO).
Everything outside the driver is a parameter: the time, what an SPI exchange does, what a transfer returns
and whether the device took it.

`dafny verify dfyconfig.toml` checks the whole project. By part:

* transport: `Iteration`, `Crc8`, `CrcAlgebra`, `Gf2`, `PowersOfX`, `ErrorDetection`, `Packet`,
  `DamagedPackets`, `SpiBus`, `DamagedReads`, `Peer`, `RegisterAccess`, `ReportedSuccess`, `SharedBuffer`;
* PWM: `Clock`, `PwmModel`, `PwmProbe`, `PwmDriver`; what a tick and a call do, in register numbers, flags and
  values: `TickOrder`, `ConfigEffect`; then one file a theorem: `ClearBeforeRate`, `RateAgreement`,
  `LossyRates`, `RateProgress`, `FrameFit`, `AgreeingClients`, `ForcedZero`, `ArmingDeadline`, `StoppedChannels`;
* pins: `PinWords`, `PinModel`, `PinDriver`; what each operation answers and does: `PinAnswers`; then
  `PinOwnership`, `WriteBack`, `PinMeaning`, `ExportHistory`, `TakenPins`.

## Main results

1. *The CRC.* The table loop is the bit-by-bit shift register, which is the one and only remainder of
   message times x^8 modulo x^8 + x^2 + x + 1, for messages of every length. The polynomial is that of the
   packet error code in section 5.4 of the System Management Bus specification 2.0; the code names no
   standard. From it: damage with the count intact goes unnoticed if and only if its powers of x cancel, two
   flipped bits if and only if 127 divides the difference of their exponents, and an odd number of flips, a
   burst of eight bits or a single damaged byte never do.
2. *What success means.* A write whose answer arrives unharmed and that is reported as done was executed as
   it was sent if and only if its request arrived intact, whatever the damage. A read so reported asked the
   peer for what was sent if and only if its request passed the CRC with its header intact. Where the CRC
   shows the damage, both are: executed if and only if the request arrived intact.
3. *Sharing the buffer.* Any number of threads, interleaved between locking, filling the buffer, sending,
   receiving, checking, copying out and unlocking, with damaged requests and replies and a peer that may
   refuse: the operations are linearizable against a plain register file, a call is executed at most once,
   and a successful one exactly once if and only if its request arrived intact.
4. *Rates.* Over every run each rate write follows an all-zero output page with only zeros in between;
   nonzero outputs are sent only when every channel's device rate is the rate the driver has cached and the
   rate last requested; and k pending changes take exactly k + 2 armed ticks: a clear, the rates, groups from
   the least one up or the alt rate before the default one, and the values. A rate changes only by a call that
   is entitled to change it: that of a control pin or, with per-timer rates, of a pin of a group all of which
   stands still. A value may
   have been stored under another rate than it is streamed at, as `DisagreeingClientsBreakFrames` shows;
   among clients that agree it never is. On a transport that loses writes a channel with nothing pending runs
   the cached rate if and only if the device took the last write to its rate register or was left at that
   very rate; with per-timer rates the first loss always shows.
5. *Frames.* Whether every pulse fits in its frame depends on one condition on each config call. The
   condition is exact: it holds if and only if the stored values still fit after the call. Ticks in time for
   the deadline of a call that fails it can bring the device to a pulse longer than its frame if and only if
   that deadline does not wrap to zero. Clients that agree on a rate per timer always meet the condition; two
   that do not are given.
6. *Stopped channels.* From a disable or a free of a channel up to the next config call of it with a duty that
   passes the gate, every write that covers its output carries zero there, whatever else happens.
7. *The deadline.* Worker writes stop a tenth of a second after the last config call that passed the
   gate. `ArmedExactly` says when the wrapped comparison is right and when it claims a deadline long past is
   still ahead.
8. *Pins.* Which steps export a pin for PWM and GPIO at once is given exactly, for transfers that fail,
   succeed or lie: four operations can, by a wrong read, and with true reads two kinds of step are left. Exactly
   four kinds of step can leave the device's GPIO page behind the cache with nothing queued, and a probe whose
   last write fails can start that way. All of these are reachable. The GPIO export mask is what its clients
   expect if and only if no pin is released while a lower one is claimed. A pin is ignored by PWM if and only if
   GPIO took it from there, or its bit was stored, and neither it nor a higher pin was released since, nor a mask
   without it stored; and an ignored pin gets nothing but zeros, in a state that streams, if and only if its
   stored value is zero.

## Where the code and its comments disagree

The model follows the code.

* A reply with the code for a corrupted request (`src/protocol.h:390`) is accepted as a success: only the
  error code is tested, and a read with the right count hands its content to the caller
  (`CorruptReplyCountsAsSuccess`, `WriteReport`, `ReadReport`, `DamagedWriteReturnsAsDone`).
* `clear_bit_m` (`src/protocol.h:328`) complements before it shifts, so it clears bit n and every bit below.
  Making a pin an output also drives it low, and releasing a GPIO pin drops all lower pins from the
  export and the ignore mask (`ClearBitAt`, `MatchesExactly`, `ReleaseHandsLowerPinsToPwm`).
* The retry in `rcio_gpio_force_update` (`src/rcio_gpio.c:297-299`) tests a `uint16_t` for a negative value; a
  lost update is never queued again (`StrandedStaysBehind`).
* `gpio_direction_output` ignores the value it is asked for (`OutputIsAlwaysLow`).
* The read of the PWM mask at `src/rcio_pwm.c:550` is not checked (`BothWaysOccur`), and reads that are
  checked may be wrong, because the answer to a damaged request counts as a success (`WrongReadsOccur`).

## Model

| member | source | states |
|---|---|---|
| Crc8.StepSubtractsGenerator | src/protocol.h:402 | one clock shifts up and, exactly when a one falls out, subtracts the generator's tail 0x07 |
| Crc8.TableIsEightClocks | src/protocol.h:400-434 | every one of the 256 table entries is eight clocks of the shift register for x^8+x^2+x+1 |
| Crc8.TableIsShiftRegister | src/protocol.h:436-448 | for every message the table loop computes what clocking its bits in one by one, most significant first, computes |
| CrcAlgebra.CrcOfXor | src/protocol.h:436-448 | over messages of equal length the CRC of the exclusive or is the exclusive or of the CRCs |
| CrcAlgebra.CrcOfSealed | src/protocol.h:436-448 | a message followed by its own CRC has CRC zero |
| Gf2.CrcIsRemainder | src/protocol.h:436-448 | r is the remainder of message * x^8 modulo the generator if and only if r is the CRC, for every length |
| Crc8.StepsXor | src/protocol.h:400-434 | clocking is linear over exclusive or |
| PowersOfX.OrderOfX | src/protocol.h:400-434 | x^d is 1 modulo the generator if and only if 127 divides d |
| ErrorDetection.SyndromeOfDamage | src/protocol.h:436-448 | the syndromes of two messages of equal length differ by the sum of one power of x per flipped bit, whatever the messages |
| ErrorDetection.OddNeverVanishes | src/protocol.h:436-448 | an odd number of powers of x never cancels |
| ErrorDetection.BurstNeverVanishes | src/protocol.h:436-448 | flips within eight consecutive bits never cancel |
| Packet.CountByteParts | src/protocol.h:393-397 | count and code are recovered from the byte they share |
| Packet.SealIsValid | src/rcio_spi.c:14-15 | a packet whose CRC byte was zeroed and filled in passes the CRC check with all its other fields intact |
| Packet.WriteRequestCarries | src/rcio_spi.c:45-51 | the packet built for a write decodes to the same page, offset, count and registers |
| Packet.ReadRequestCarries | src/rcio_spi.c:90-92 | the packet built for a read decodes to the same page, offset and count |
| Packet.WriteRequestBytes | src/rcio_spi.c:45-51 | the write request byte by byte: header, registers low byte first, 0x55AA in the rest, nothing behind the struct touched |
| Packet.ReadRequestBytes | src/rcio_spi.c:90-92 | the read request byte by byte: header, and the old registers |
| Packet.ReadJudged | src/rcio_spi.c:97-124 | every reply to a read gives the count, -EINVAL or -EIO, and exactly which |
| Packet.WriteJudged | src/rcio_spi.c:57-70 | the same for a write, whose count is not looked at |
| DamagedPackets.UnnoticedIffSumVanishes | src/rcio_spi.c:57-65 | with the count intact damage passes the CRC check if and only if its powers of x cancel |
| DamagedPackets.OddDamageFailsRead | src/rcio_spi.c:97-124 | a well-formed reply with an odd number of flips under its CRC, count bits and CRC byte included, makes the read fail |
| DamagedPackets.TwoFlips | src/rcio_spi.c:57-65 | two flips outside the count bits, the CRC byte included, pass if and only if 127 divides the difference of their exponents; for message bits that is their distance |
| DamagedPackets.ShortPacketDistance | src/rcio_spi.c:57-65 | with at most five registers every error of one to three bits that spares the count is detected, CRC byte included |
| DamagedPackets.BurstDetected | src/rcio_spi.c:57-65 | a nonempty burst of at most eight bits after the CRC byte is detected |
| DamagedPackets.OneByteDetected | src/rcio_spi.c:57-65 | damage to exactly one covered byte that spares the count is detected |
| SpiBus.Bus.CrcPacket | src/protocol.h:437-448 | the pointer loop over count-dependent bytes returns the CRC of the bytes the count covers |
| SpiBus.Bus.WaitComplete | src/rcio_spi.c:10-31 | exactly one sealed packet goes out; a failed transfer leaves it in the buffer, a reply replaces the struct |
| SpiBus.Bus.BuildWrite | src/rcio_spi.c:45-51 | whatever was in the buffer, it becomes the write request with padding |
| SpiBus.Bus.Pad | src/rcio_spi.c:50-51 | registers from the count up hold the padding word, nothing else changes |
| SpiBus.Bus.Check | src/rcio_spi.c:58-65 | CRC first, then the error code; no other code is refused; the CRC byte stays zeroed |
| SpiBus.Bus.Write | src/rcio_spi.c:33-75 | more than 32 registers are refused with nothing sent; otherwise one packet is sent and the result is the transfer error, the check's error or the count; the reply's count is not looked at |
| SpiBus.Bus.Read | src/rcio_spi.c:77-130 | the same for reads, with the count check; the caller's buffer gets the reply's registers on success and is untouched on every failure |
| SpiBus.Bus.BuildRead | src/rcio_spi.c:90-92 | header only; the registers of the previous transaction stay in the buffer |
| SpiBus.Bus.CopyOut | src/rcio_spi.c:121 | the first count words of the reply and nothing beyond them |
| SpiBus.AddressRoundTrip | src/rcio_spi.c:38-39 | page and offset are recovered from the packed address |
| SpiBus.FailedExchange | src/rcio_spi.c:19-28 | a failed transfer leaves the sealed packet in the buffer and its error is the result |
| SpiBus.RepliedExchange | src/rcio_spi.c:23-30 | a reply replaces the 68 bytes of the struct and none behind them; its CRC byte ends up zero |
| DamagedReads.ReadUnderOddDamage | src/rcio_spi.c:77-130 | if a well-formed reply arrives with an odd number of bits flipped, the read returns a negative result and the caller's array is unchanged |
| RegisterAccess.RegisterSet | src/rcio_core.c:18-25 | the write packet carries page, offset and the values given |
| RegisterAccess.RegisterGet | src/rcio_core.c:27-34 | the read packet carries page, offset and count, and values change only on success |
| RegisterAccess.RegisterSetByte | src/rcio_core.c:36-39 | a write of one register |
| RegisterAccess.RegisterModify | src/rcio_core.c:50-64 | one read, and only if it succeeds one write of RegisterAccess.Modified, which ModifiedBits describes |
| Peer.HonestReplyExists | src/protocol.h:42-55 | every request within the packet size has an honest answer, so the round trips are not about nothing |
| RegisterAccess.WriteReachesPeer | src/rcio_spi.c:33-75 | against any honest peer a write returns the count and puts exactly the values at page and offset |
| RegisterAccess.ReadReturnsRegisters | src/rcio_spi.c:77-130 | against any honest peer a read returns the count and the registers, and changes none |
| RegisterAccess.SetThenGet | src/rcio_core.c:18-34 | set then get returns the same values on every page, offset and count up to 32; all other registers keep theirs |
| RegisterAccess.ModifiedBits | src/rcio_core.c:60-61 | bit k ends up set if and only if it is to be set, or was set and is not to be cleared |
| RegisterAccess.ModifyRefines | src/rcio_core.c:50-64 | on an honest peer register_modify changes one register, to (old & ~clear) with the set bits added |
| ReportedSuccess.CorruptReplyCountsAsSuccess | src/rcio_spi.c:57-70 | for every request that arrived damaged and any words there is an answer with the code for it that makes the write look done, and hands the words to the caller of the read |
| ReportedSuccess.WriteReport | src/rcio_spi.c:33-75 | a write is reported done if and only if the peer did not refuse it; reported done, it was executed as sent if and only if its request arrived intact, for any damage |
| ReportedSuccess.ReadReport | src/rcio_spi.c:77-130 | a read is reported done if and only if it was not refused and the answer has its count; reported done, the peer was asked for what was sent, and gave it, if and only if the request passed the CRC with its header intact |
| ReportedSuccess.ReadAskedIffHeadIntact | src/rcio_spi.c:90-92 | for any damage: the packet asks for this very read if and only if it passes the CRC with count, code, page and offset intact |
| ReportedSuccess.WriteCarriedOutIffIntact | src/rcio_spi.c:45-51 | for any damage, seen by the CRC or not: the peer carries out this very write if and only if the request arrived intact |
| SharedBuffer.NextKeepsInv | src/rcio_spi.c:43-72 | no step of one thread disturbs what another relies on between lock and unlock |
| SharedBuffer.Linearizable | src/rcio_spi.c:33-130 | in every run of any number of threads the executed operations form a sequential history of a register file; a returned call has at most one entry since it began; a successful one has one if and only if its request arrived intact, and returns exactly its data |
| SharedBuffer.HonestCallCompletes | src/rcio_spi.c:33-130 | from every state with the buffer free a call has a run that ends with the peer's registers changed as asked, exactly one new entry, its data returned and the buffer free; no other thread moves |
| SharedBuffer.RealTimeOrder | src/rcio_spi.c:33-130 | a call takes effect after everything executed before it began |
| SharedBuffer.MutualExclusion | src/rcio_spi.c:43-72 | at most one thread is between lock and unlock |
| SharedBuffer.DamagedWriteReturnsAsDone | src/rcio_spi.c:57-74 | a run in which a write whose request arrived damaged returns as done with nothing executed |
| Clock.TimeBeforeWindow | src/rcio_pwm.c:160 | time_before on the wrapped counter is true if and only if the time is before the deadline or half a turn or more past it |
| Clock.WrappedSum | src/rcio_pwm.c:462 | adding on the wrapped counter wraps the true sum |
| PwmDriver.Driver.constructor | src/rcio_pwm.c:79-102 | the statics' initial values |
| PwmDriver.Driver.ClearOutputs | src/rcio_pwm.c:104-109 | one write of sixteen zeros and nothing else |
| PwmDriver.Driver.UpdateRate | src/rcio_pwm.c:103-135 | programs the requested rate, caches it for a group, drops the request |
| PwmDriver.Driver.SetZeroValues | src/rcio_pwm.c:141-144 | channels 0 to 11 become zero, 12 to 15 keep their values |
| PwmDriver.Driver.SetInitialRcChannelConfig | src/rcio_pwm.c:588-612 | for any configuration: a channel out of range is refused with nothing written; otherwise one write of its six fields, the reverse flag in the options |
| PwmDriver.Driver.SetInitialRcConfig | src/rcio_pwm.c:634-654 | all sixteen channels are written in order whatever fails, and 0 is returned |
| PwmDriver.Driver.ProgramInitialGroups | src/rcio_pwm.c:240-244 | four group rates of 50 in order; the driver state does not change |
| PwmDriver.Driver.ProgramInitialBanks | src/rcio_pwm.c:246-262 | three bank registers in order, stopping at the first that fails |
| PwmDriver.Driver.HardwareInit | src/rcio_pwm.c:225-272 | succeeds if and only if every checked write does, and then leaves exactly the state all runs start from; else -ENOTCONN after a prefix of the writes |
| PwmDriver.Driver.SomeRatePending | src/rcio_pwm.c:155-158 | true if and only if some rate change is pending |
| PwmDriver.Driver.NextRate | src/rcio_pwm.c:177-199 | finds the rate to serve next, if one waits; which one that is, TickOrder states |
| PwmDriver.Driver.Update | src/rcio_pwm.c:153-218 | the whole tick refines PwmModel.Tick: clear, one rate, or the rest |
| PwmDriver.Driver.DealWithRates | src/rcio_pwm.c:167-200 | when armed: a clear if a change is pending and not yet noticed, else the next rate if one waits, else nothing |
| PwmDriver.Driver.FinishTick | src/rcio_pwm.c:204-217 | the end of a tick refines PwmModel.Finish |
| PwmDriver.Driver.ForceZeroDuty | src/rcio_pwm.c:146-151 | 50 more cycles of zeroing, and a tick at once |
| PwmDriver.Driver.Enable | src/rcio_pwm.c:334-339 | armed until the next tick, nothing else |
| PwmDriver.Driver.DisableChannel | src/rcio_pwm.c:341-346 | refines PwmModel.Disable: zero sent for this channel only, and disarmed; what is stored, and for how long, StoppedChannels states |
| PwmDriver.Driver.FreeChannel | src/rcio_pwm.c:562-567 | refines PwmModel.Free: nothing sent; StoppedChannels states what is stored |
| PwmDriver.Driver.ShouldChangeFreqNewWay | src/rcio_pwm.c:359-393 | decides PwmModel.GroupRequestsRate, with the loop over the group's stored values; ConfigEffect states what that comes to |
| PwmDriver.Driver.ShouldChangeFreqOldWay | src/rcio_pwm.c:395-420 | decides PwmModel.BankRequestsRate; ConfigEffect states what that comes to |
| PwmDriver.Driver.ConfigNewWay | src/rcio_pwm.c:465-486 | refines PwmModel.Reconfigure for per-timer rates |
| PwmDriver.Driver.ConfigOldWay | src/rcio_pwm.c:487-507 | refines PwmModel.Reconfigure for banks |
| PwmDriver.Driver.ConfigChannel | src/rcio_pwm.c:449-509 | the whole config call refines PwmModel.Config: gate, wrapped deadline, rate request, duty |
| ConfigEffect.HeldBackCall | src/rcio_pwm.c:455-460 | a call with a duty on an ignored pin, or on channels 0 to 11 during forced zeroing, stores a zero and does nothing else |
| ConfigEffect.DivisionTruncates | src/rcio_pwm.c:463 | the C divisions go toward zero, for every sign |
| ConfigEffect.GroupConfig | src/rcio_pwm.c:465-486 | the whole effect with per-timer rates: a rate is requested exactly if it differs from the cached one and the call is the control pin's or all four values are zero; the duty is stored exactly if its rate is the cached one |
| ConfigEffect.RunningGroupKeepsRate | src/rcio_pwm.c:368-392 | a call that is not the control pin's changes no request and no flag while any pin of its group holds a nonzero value |
| ConfigEffect.LowBankConfig | src/rcio_pwm.c:395-507 | the whole effect on channels 0 to 7: only channels 0 and 4, and only with a duty, request an alt rate |
| ConfigEffect.HighBankConfig | src/rcio_pwm.c:395-507 | the same on channels 8 to 15: only 8 and 12 request a default rate |
| ConfigEffect.OnlyEntitledCallsChangeRates | src/rcio_pwm.c:449-509 | a step changes the wanted rate of a group only if it is a config of channel 4g, or of a pin of it while all four stand still; a bank's only if it is one of its two control pins with a duty |
| ConfigEffect.RatesChangeOnlyByEntitledCalls | src/rcio_pwm.c:449-509 | the same over every run |
| PwmModel.TickEffect | src/rcio_pwm.c:153-218 | no tick changes a request, the deadline or the mask, stores a value other than zero, or caches a rate nobody asked for |
| TickOrder.BankTick | src/rcio_pwm.c:167-200 | an armed bank tick clears if a flag is up and unnoticed; then writes register 4 if the alt flag is up, and only else register 3; it drops that flag and touches nothing else |
| TickOrder.DefaultWaitsForAlt | src/rcio_pwm.c:189-199 | any tick that writes the default rate finds the alt flag down, the default flag up and the outputs cleared |
| TickOrder.GroupTick | src/rcio_pwm.c:111-131 | an armed group tick writes register 26+g for the least flagged group g, caches its rate, drops its flag and touches nothing else |
| TickOrder.QuietTick | src/rcio_pwm.c:202-217 | with no flag up channels 0 to 11 become zero while the countdown runs, 12 to 15 stay, the countdown loses one, and all sixteen values go out exactly if armed |
| TickOrder.UnarmedTick | src/rcio_pwm.c:160-165 | an unarmed tick writes nothing and keeps every request waiting; forced zeroing goes on |
| TickOrder.ForceZeroIsTick | src/rcio_pwm.c:146-151 | a call for forced zero is a tick after fifty more cycles were granted |
| TickOrder.EnableIsForgotten | src/rcio_pwm.c:334-339 | the next tick is the same whether or not a channel was enabled before it |
| TickOrder.BothBanksInOrder | src/rcio_pwm.c:167-217 | both bank rates waiting: four armed ticks send zeros, the alt rate, the default rate and the values |
| TickOrder.GroupsInOrder | src/rcio_pwm.c:167-217 | any groups waiting: the armed ticks send zeros, one rate for each flagged group in increasing order, and the values |
| PwmProbe.RcConfigTiles | src/rcio_pwm.c:634-654 | after n channels registers 0 to 6n-1 were each written exactly once and register 6ch+k holds field k of channel ch; the u8 offset never wraps |
| PwmProbe.RcWriteLayout | src/rcio_pwm.c:588-612 | one write of minimum, centre, maximum, dead zone, assignment and options to register 6ch of page 53; reversed is bit 1 |
| PwmProbe.GroupProbeWrites | src/rcio_pwm.c:225-272 | newer firmware: safety off, arming bits, 50 for groups 1 to 4 in order, then six registers a channel with 900, 1500, 2000, 10, 0, 1 |
| PwmProbe.BankProbeWrites | src/rcio_pwm.c:225-272 | older firmware: safety off, arming bits, the bank map, alt before default at 50, then the same sixteen writes |
| PwmProbe.ProbedDevice | src/rcio_pwm.c:225-272 | after probe every channel's device rate is 50 and every output zero |
| ClearBeforeRate.TickKeepsInv | src/rcio_pwm.c:167-204 | freq_update_noticed implies that the outputs stand cleared |
| ClearBeforeRate.EveryRateWriteFollowsClear | src/rcio_pwm.c:153-218 | over every run, disarm, re-arm, disable and forced zero included, each rate write follows an all-zero page with only zeros sent in between |
| ClearBeforeRate.FromProbe | src/rcio_pwm.c:153-218 | the same for the writes of any run from a state with no clear outstanding, such as the one probe leaves |
| RateAgreement.RunKeepsAgreement | src/rcio_pwm.c:473-497 | group flag set if and only if wanted and cached rate differ; bank flag clear implies device rate = cached rate; each mode leaves the other's flags alone; over every run |
| RateAgreement.SettledRates | src/rcio_pwm.c:111-131 | with nothing pending device, cached and wanted rate of every channel coincide |
| RateAgreement.StreamsOnlyUnderAgreedRates | src/rcio_pwm.c:213-215 | whenever anything but zeros is sent to the outputs, no change is pending and every channel's device rate is the cached and the last requested one |
| LossyRates.LossShowsExactly | src/rcio_pwm.c:111-130 | for every set of lost writes a settled channel runs the cached rate if and only if the device took the last write to its register or was left at that rate |
| LossyRates.FirstLossShows | src/rcio_pwm.c:359-366 | with per-timer rates no write repeats the rate before it: after writes that left the device right, it is right if and only if it took the last |
| LossyRates.RepeatedBankRateHidesLoss | src/rcio_pwm.c:490-498 | with banks it need not show: a rate requested away and back before a tick is written again unchanged, and losing that write changes nothing |
| RateProgress.TickFollowsSchedule | src/rcio_pwm.c:167-200 | an armed tick with work left issues the next write of the schedule and lowers the measure by exactly one |
| RateProgress.PendingRatesReachDevice | src/rcio_pwm.c:153-218 | with k rates pending and no clear yet, exactly k+2 armed ticks issue one clear, the k rates that wait and one stream of values; their order is that of TickOrder.BothBanksInOrder and GroupsInOrder |
| RateProgress.TicksAreARun | src/rcio_core.c:80-81 | ticks with no call between them are a run |
| FrameFit.ConditionIsExact | src/rcio_pwm.c:465-507 | the condition on a config call holds if and only if all stored values fit the wanted rates after it |
| FrameFit.FittingCallsKeepFrames | src/rcio_pwm.c:449-509 | if every config call meets the condition, value times device rate never exceeds a million in any device state of any run |
| FrameFit.SettledDevice | src/rcio_pwm.c:153-218 | once the schedule has run, each channel's value and wanted rate are on the device |
| FrameFit.UnfitCallBreaksFrames | src/rcio_pwm.c:449-509 | after a call that fails the condition, as many armed ticks as its schedule has writes end with a pulse longer than its frame |
| FrameFit.UnfitCallBreaksExactly | src/rcio_pwm.c:449-509 | ticks in time for the deadline of such a call can lead there if and only if the deadline does not wrap to zero; if it does, they write nothing |
| AgreeingClients.DutyWithinPeriod | src/rcio_pwm.c:480 | a duty within its period gives a pulse within its frame, u16 truncation included |
| AgreeingClients.AgreeingClientsKeepFrames | src/rcio_pwm.c:449-509 | if all clients of a timer or bank ask for the same rate and duties stay within periods, every pulse of every run fits, in both modes |
| AgreeingClients.AgreedValuesRunAtTheirRate | src/rcio_pwm.c:213-215 | with such clients every nonzero value streamed to a channel is streamed while the device runs the channel at the agreed rate |
| AgreeingClients.DisagreeingClientsBreakFrames | src/rcio_pwm.c:368-371 | a control pin at 400 Hz after a servo at 50 Hz on the same timer: the device outputs 20 ms at 400 Hz, a value stored for 50 Hz |
| ForcedZero.StepCountdown | src/rcio_pwm.c:204-211 | one step adds 50 for a call and takes one for a tick that does not return early, armed or not |
| ForcedZero.NeverNegative | src/rcio_pwm.c:206-211 | the countdown is never negative |
| ForcedZero.CountdownConserved | src/rcio_pwm.c:146-151 | inside the window the countdown is the start value plus 50 a call minus the ticks spent, the one inside the call included |
| ForcedZero.WindowHoldsMotorsAtZero | src/rcio_pwm.c:455-460 | inside the window a config of channels 0 to 11 stores zero and changes nothing else and every page sent is zero there; when the last tick is spent, config is let through again; the page of a call is zero there also when it opens the window |
| StoppedChannels.DisableEffect | src/rcio_pwm.c:341-346 | the channel's stored value becomes zero, one zero goes to its register, disarmed, nothing else |
| StoppedChannels.DisabledStaysZero | src/rcio_pwm.c:341-346 | from a disable up to the next config of the channel with a duty that passes, over every run: its value is zero, every write that covers its output carries zero there, the device outputs zero; the other channels kept their values |
| StoppedChannels.FreedStaysZero | src/rcio_pwm.c:562-567 | the same from a free, which sends nothing itself |
| ArmingDeadline.ArmedExactly | src/rcio_pwm.c:160-165 | for one turn of the clock after the deadline: armed if and only if the deadline has not wrapped to zero and it is ahead or half a turn behind |
| ArmingDeadline.WorkerMeetsDeadline | src/rcio_pwm.c:160-165 | every page and rate the worker writes goes out less than HZ/10 jiffies after the last config call that passed the gate |
| PinWords.SetBitAt | src/protocol.h:327 | set_bit_m sets bit n only |
| PinWords.ClearBitAt | src/protocol.h:328 | clear_bit_m as written leaves exactly the bits above n |
| PinWords.DropBitAt | src/rcio_gpio.c:134 | the PWM mask loses bit n only |
| PinWords.ShiftedBit | src/protocol.h:329 | reading by shift and by mask agree |
| PinWords.EncodingRoundTrip | src/protocol.h:311-325 | words with zero in bits 1 to 13 are exactly the encodings of settings |
| PinWords.MacroMeanings | src/protocol.h:331-344 | what each pin macro does to a setting; output direction also drives low |
| PinDriver.GpioChip.constructor | src/rcio_gpio.c:23-32 | the statics' initial values |
| PinDriver.GpioChip.Probe | src/rcio_gpio.c:315-362 | succeeds if and only if the feature is there, both registrations do and the clearing of the GPIO mask is reported done; the state is given for every result, 0 included, after which the driver runs on |
| PinDriver.GpioChip.ForceUpdate | src/rcio_gpio.c:296-301 | the page is the cache if the device took it; success is reported and nothing is queued whatever happened |
| PinDriver.GpioChip.MotorsRunningCount | src/rcio_pwm.c:614-632 | the read's error, or how many outputs are nonzero |
| PinDriver.NoneSpinning | src/rcio_pwm.c:626-631 | the count is zero if and only if every output is |
| PinDriver.RunningCounts | src/rcio_pwm.c:614-632 | the read's error, or the size of the set of nonzero outputs |
| PinDriver.GpioChip.PwmRequest | src/rcio_pwm.c:511-560 | refines PinModel.PwmRequest for any masks the reads may bring, the unchecked read at line 550 included, and the PWM driver does not change; PinAnswers states what it answers |
| PinDriver.GpioChip.PwmFree | src/rcio_pwm.c:562-586 | refines PinModel.PwmFree for any mask read; the stored value is zeroed in every case |
| PinDriver.GpioChip.GpioRequest | src/rcio_gpio.c:163-209 | refines PinModel.GpioRequest for any masks read; running motors get exactly one forced zero, else the PWM driver keeps all but its ignore mask |
| PinDriver.GpioChip.TakePin | src/rcio_gpio.c:182-192 | refines PinModel.TakeFromPwm: the PWM mask as read is written back without the pin; TakenPins states that the pin is ignored, whether or not the write succeeded |
| PinDriver.GpioChip.ExportGpioPin | src/rcio_gpio.c:138-150 | the GPIO mask as read is written back with the pin; a failed read writes nothing |
| PinDriver.GpioChip.UnexportGpioPin | src/rcio_gpio.c:152-161 | the mask given is written back without the pin and all lower ones |
| PinDriver.GpioChip.GpioFree | src/rcio_gpio.c:211-247 | refines PinModel.GpioFree for any mask read; a failed read or count leaves everything as it was |
| PinDriver.GpioChip.SetValue | src/rcio_gpio.c:249-259 | enables the pin, stores the value, queues an update |
| PinDriver.GpioChip.MakeInput | src/rcio_gpio.c:268-274 | direction bit set and sent, nothing queued |
| PinDriver.GpioChip.MakeOutput | src/rcio_gpio.c:275-281 | direction and value cleared and sent, the value asked for unused |
| PinDriver.GpioChip.ResetStore | src/rcio_gpio.c:59-80 | enabled pins low and sent, cache blank, GPIO mask empty, nothing queued, PWM mask untouched |
| PinDriver.GpioChip.StoreIgnoreMask | src/rcio_gpio.c:95-109 | masks from 0 to 0xffff are stored, everything else is refused |
| PinDriver.GpioChip.Update | src/rcio_gpio.c:303-313 | refines PinModel.Flush: one queued update, if any, is spent and sent |
| PinAnswers.PwmRequestAnswer | src/rcio_pwm.c:511-560 | answer and state in every case, in the order the driver decides |
| PinAnswers.PwmRequestGrantedIff | src/rcio_pwm.c:529-560 | a supported pin that is not ignored gets 0 if and only if no output runs, the GPIO mask was read and has no such pin, and the export was not reported as failed; else a negative error, and nothing changed unless by an export the device took |
| PinAnswers.GpioRequestGrantedIff | src/rcio_gpio.c:163-209 | 0 if and only if motors and PWM mask could be read, any removal was reported done, and so were the GPIO read and the export; else the first error of these, with words, queue and page as they were |
| PinAnswers.GpioRequestMasks | src/rcio_gpio.c:178-195 | both export masks and the ignore mask after a request, whatever it answered |
| PinAnswers.GpioRequestStartsPin | src/rcio_gpio.c:197-204 | a granted pin holds 0x8000, exactly one update is queued, and the page is the cache if either update arrived |
| PinAnswers.GpioFreeStopsPin | src/rcio_gpio.c:233-239 | a release blanks the word, queues one update, and sends |
| PinAnswers.GpioFreeMasks | src/rcio_gpio.c:241-246 | a release takes the pin and all lower ones from the GPIO mask and the ignore mask, and leaves the PWM mask alone |
| PinAnswers.ResetEffect | src/rcio_gpio.c:59-80 | a reset blanks the cache and clears the GPIO mask, and keeps the PWM mask, the ignore mask and the queue |
| PinAnswers.ResetLowersEnabled | src/rcio_gpio.c:64-69 | it sends a pin that is enabled with bit 0 cleared |
| PinAnswers.ResetKeepsOthers | src/rcio_gpio.c:64-69 | it sends every other pin as it was |
| PinAnswers.IgnoreStoreEffect | src/rcio_gpio.c:95-109 | only masks of sixteen bits are stored, everything else gets -EINVAL; nothing else changes |
| PinAnswers.IgnoreStoredBits | src/rcio_gpio.c:103 | bit k of a stored mask is pin k |
| PinAnswers.ProbeEffect | src/rcio_gpio.c:350-358 | blank words sent, GPIO mask cleared, PWM mask and ignore mask kept; a failed last write only keeps the first update from being queued |
| TakenPins.StepIgnores | src/rcio_gpio.c:82-109 | the exact effect of every step on each pin of the ignore mask |
| TakenPins.IgnoredIffTaken | src/rcio_gpio.c:182-192 | over every run a pin is ignored if and only if GPIO took it from PWM, whatever the removal returned, or its bit was stored, and neither it nor a higher pin was released, nor a mask without it stored, since; or it was from the start |
| TakenPins.TakenPinTakesNoDuty | src/rcio_pwm.c:455-459 | a config with a duty of any of the sixteen pins that is ignored stores a zero and changes nothing else |
| TakenPins.TakenPinGetsNoPulse | src/rcio_pwm.c:455-459 | a pin taken at zero stays at zero over every run of the PWM side while its bit is set: every write that covers its output carries zero there |
| TakenPins.SilentIffStoredZero | src/rcio_pwm.c:213-215 | in a state that streams, an ignored pin gets nothing but zeros in every run if and only if its stored value is zero |
| PinOwnership.StepBreaksExactly | src/rcio_gpio.c:163-247 | from exclusive masks a step exports a pin twice if and only if what it read, and which of its writes the device took, say so: the condition is given for each request and release |
| PinOwnership.TrueReadsLeaveTwoWays | src/rcio_gpio.c:182-195 | if successful reads are true the condition comes down to two: a GPIO request whose removal of the PWM bit was lost, or a PWM request whose unchecked read failed over a bit exported for GPIO |
| PinOwnership.ExclusiveUnlessBroken | src/rcio_pwm.c:511-586 | over every run the masks stay disjoint throughout if and only if no such step occurs, whatever else fails or lies |
| PinOwnership.CarefulRunsStayExclusive | src/rcio_gpio.c:133-247 | from probe, whatever the device held before, with true reads, no lost clearing or removal and no failed read at line 550, no pin is ever exported twice, even if any other read or write fails |
| PinOwnership.ProbeStartsExclusive | src/rcio_gpio.c:351-358 | probe leaves exclusive masks if and only if its clearing reached the device or they were exclusive before |
| PinOwnership.BothWaysOccur | src/rcio_pwm.c:550-552 | both ways with true reads are reachable from probe, for any two pins |
| PinOwnership.WrongReadsOccur | src/rcio_pwm.c:539-583 | for any two pins a single wrong read, all else going well, makes each of the four requests and releases export a pin twice |
| WriteBack.StepStrandsExactly | src/rcio_gpio.c:296-313 | a step leaves cache and device apart with nothing queued if and only if it is a lost last worker update, a lost change of direction, or a reset of a non-blank cache |
| WriteBack.CoveredUnlessStranded | src/rcio_gpio.c:234-281 | over every run a difference is always queued if and only if no such step occurs |
| WriteBack.WorkerRestoresAgreement | src/rcio_gpio.c:303-313 | over every lossless reset-free run from probe, the probe's own page write lost or not, differences are queued and one turn of the worker makes the device equal to the cache |
| WriteBack.FailedProbeStrands | src/rcio_gpio.c:351-356 | a probe whose last write fails starts with nothing stranded if and only if its blank page arrived or was there already |
| WriteBack.StrandsOccur | src/rcio_gpio.c:268-313 | all four ways are reachable from probe, for any pin, and leave cache and device apart |
| WriteBack.StrandedStaysBehind | src/rcio_gpio.c:296-301 | a stranded difference survives any number of worker turns |
| PinMeaning.WordsFollowCalls | src/rcio_gpio.c:194-206 | over every run each word encodes the setting its calls ask for, so bits 1 to 13 are never set |
| PinMeaning.DeviceFollowsCalls | src/rcio_gpio.c:303-313 | after a lossless reset-free run and a worker turn the device's page encodes those settings |
| PinMeaning.OutputIsAlwaysLow | src/rcio_gpio.c:275-281 | making a pin an output gives the value asked for if and only if that is low |
| ExportHistory.ExportedIffHeld | src/rcio_gpio.c:138-161 | after any clean history bit p is set if and only if p was requested after the last release of any pin from p up |
| ExportHistory.MatchesExactly | src/rcio_gpio.c:211-247 | the mask is requested-and-not-released throughout if and only if no pin is released while a lower one is claimed |
| ExportHistory.ReleaseHandsLowerPinsToPwm | src/rcio_gpio.c:241-246 | after a release every lower pin keeps its word but can be exported for PWM |

## Left out

- PwmDriver.Driver.Update: each tick and each client call is one atomic step. The driver takes no lock here;
  the flags summed up at `src/rcio_pwm.c:157` are read again at line 180, so a config call running between
  the two could have a rate programmed without a clear. Only the transport mutex is modelled concurrently.
- RateAgreement.RunKeepsAgreement: the device is the log of all writes, that is, the transport is lossless. The
  driver ignores the result of these writes, so a lost one is not noticed; LossyRates says which losses show.
  The same holds for RateProgress, FrameFit and AgreeingClients; ClearBeforeRate, ForcedZero and ArmingDeadline
  are about the writes the driver issues and need nothing of the transport.
- FrameFit.UnfitCallBreaksExactly: for clocks of at least ten ticks a second; with fewer the deadline is now.
- ArmingDeadline.WorkerMeetsDeadline: only while ticks stay within half a clock turn of the last deadline.
  Beyond it the claim is false, as ArmedExactly shows; the single-channel writes of disable are not subject
  to the deadline.
- ForcedZero.CountdownConserved: up to the moment the granted ticks are used up; a later call starts a
  new window from the state then.
- ExportHistory.ExportedIffHeld: histories without failed transfers, wrong reads and the reset attribute.
- WriteBack.WorkerRestoresAgreement: lossless runs without the reset attribute; CoveredUnlessStranded says
  what the others do.
- PinModel.Flush: the update counter and the zeroing countdown are unbounded integers; a C int would
  overflow after 2^31 unserved updates.
- SharedBuffer.Linearizable: requests and replies are damaged only in ways the CRC shows; what it misses is
  the subject of DamagedPackets. A step is one of those named in the main results, not a single memory
  access: the buffer is filled in one step, and sealing, CRC and transfer are one.
- SpiBus.Bus.WaitComplete: a receive that fails leaves the buffer as it was sent. Transfer timing is not
  modelled.
- SpiBus.Bus.CrcPacket: a received count of up to 63 makes the loop read past the 68-byte struct; the model
  gives those 62 bytes a place and any content.
- Peer.HonestReplyExists: the firmware is not part of this model. Its peer is any register file that
  answers as the comment at `src/protocol.h:42-55` describes, with offsets that do not wrap.
- Clients may pass any duty and any nonzero period; a period of zero divides by zero in the driver.
- Sysfs text, `kstrtol`, kernel log messages and their rate limit (`print_freqs_countdown`): no effect on the
  protocol state.
- Kernel registration, allocation and module lifetime; probe failures other than those of the register writes.
- `gpio_chip_get`, `gpio_get_direction`, the status attribute and `register_get_byte`: plain reads.
- `src/rcio_adc.c`, `src/rcio_rcin.c`, `src/rcio_status.c`, `src/rcio_safety.c`: timed polling that would only add
  one-function members.
- "An ignored pin's stored value is zero": the code does not establish it, because ignoring a pin does not
  clear a value already stored; `TakenPins.SilentIffStoredZero` says what follows.
- "The rate requested last wins": the code does not promise it; a control pin overrides the others.
