/** How pending rate changes reach the device: staying armed and with no new requests, one clear,
    then one rate a tick in a fixed order, then the values again, and nothing else. */
module RateProgress {
  import opened PwmModel

  /** Worker ticks at the given times, with no client call between them. */
  function Ticks(env: Env, s: State, times: seq<nat>): State
    requires env.Valid()
    decreases |times|
  {
    if |times| == 0 then s else Ticks(env, Tick(env, s, times[0]), times[1..])
  }

  lemma {:induction false} TicksAreARun(env: Env, s: State, times: seq<nat>)
    requires env.Valid()
    ensures Ticks(env, s, times) == Run(env, s, seq(|times|, i requires 0 <= i < |times| => Timed(times[i], WorkerTick)))
    decreases |times|
  {
    if |times| > 0 {
      var h := seq(|times|, i requires 0 <= i < |times| => Timed(times[i], WorkerTick));
      assert h[1..] == seq(|times| - 1, i requires 0 <= i < |times| - 1 => Timed(times[1..][i], WorkerTick));
      TicksAreARun(env, Tick(env, s, times[0]), times[1..]);
    }
  }

  ghost predicate AllArmed(env: Env, s: State, times: seq<nat>)
    requires env.Valid()
  {
    forall i | 0 <= i < |times| :: Armed(env, s, times[i])
  }

  /** Each firmware variant raises only its own requests. */
  ghost predicate Separated(adv: bool, s: State) {
    if adv then !s.altUpdated && !s.defaultUpdated else true !in s.updateRequired
  }

  /** Armed ticks until the values flow again. */
  function Measure(adv: bool, s: State): nat {
    |Waiting(adv, s)| + if |Waiting(adv, s)| > 0 && !s.noticed then 1 else 0
  }

  /** The rates in `w`, one by one, then the values. */
  function RatesThenValues(s: State, w: seq<RateRegister>): (ws: seq<RegWrite>)
    requires forall r | r in w :: r.Group? ==> r.g < TIMER_COUNT
    ensures |ws| == |w| + 1
  {
    if |w| == 0 then [Outputs(FinalValues(s))]
    else [RateWrite(w[0], Requested(s, w[0]))] + RatesThenValues(s, w[1..])
  }

  /** The writes the next Measure + 1 armed ticks issue, in order. */
  function Schedule(adv: bool, s: State): (ws: seq<RegWrite>)
    ensures |ws| == Measure(adv, s) + 1
  {
    WaitingRange(adv, s);
    var ws := RatesThenValues(s, Waiting(adv, s));
    if |Waiting(adv, s)| > 0 && !s.noticed then [CLEAR_OUTPUTS] + ws else ws
  }

  lemma WaitingRange(adv: bool, s: State)
    ensures forall r | r in Waiting(adv, s) :: r.Group? ==> r.g < TIMER_COUNT
  {
  }

  function Stamped(times: seq<nat>, ws: seq<RegWrite>): (log: seq<Entry>)
    requires |times| == |ws|
    ensures |log| == |ws|
  {
    seq(|ws|, i requires 0 <= i < |ws| => Wrote(times[i], ws[i]))
  }

  lemma WaitingIffPending(adv: bool, s: State)
    requires Separated(adv, s)
    ensures |Waiting(adv, s)| > 0 <==> Pending(s)
  {
  }

  lemma {:induction false} ServeGroups(s: State, s': State, k: nat, i: nat)
    requires k <= i < TIMER_COUNT && s.updateRequired[i]
    requires forall j | k <= j < i :: !s.updateRequired[j]
    requires s'.updateRequired == s.updateRequired[i := false]
    ensures WaitingGroups(s, k) == [Group(i)] + WaitingGroups(s, i + 1)
    ensures WaitingGroups(s', k) == WaitingGroups(s, i + 1)
    decreases i - k
  {
  }

  lemma {:induction false} SameTail(s: State, s': State, k: nat)
    requires k <= TIMER_COUNT
    requires forall j | k <= j < TIMER_COUNT :: s'.updateRequired[j] == s.updateRequired[j]
    ensures WaitingGroups(s', k) == WaitingGroups(s, k)
    decreases TIMER_COUNT - k
  {
    if k < TIMER_COUNT { SameTail(s, s', k + 1); }
  }

  lemma {:induction false} FirstGroup(s: State, k: nat) returns (i: nat)
    requires k <= TIMER_COUNT && |WaitingGroups(s, k)| > 0
    ensures k <= i < TIMER_COUNT && s.updateRequired[i] && forall j | k <= j < i :: !s.updateRequired[j]
    decreases TIMER_COUNT - k
  {
    if s.updateRequired[k] { i := k; } else { i := FirstGroup(s, k + 1); }
  }

  /** Programming the first waiting rate leaves exactly the others waiting. */
  lemma ServeTakesFirst(adv: bool, s: State, now: nat)
    requires Separated(adv, s) && |Waiting(adv, s)| > 0
    ensures var r := Waiting(adv, s)[0];
            && (r.Group? ==> r.g < TIMER_COUNT)
            && Waiting(adv, ServeRate(s, now, r)) == Waiting(adv, s)[1..]
            && Separated(adv, ServeRate(s, now, r))
  {
    if adv {
      var i := FirstGroup(s, 0);
      ServeGroups(s, ServeRate(s, now, Group(i)), 0, i);
    }
  }

  lemma {:induction false} SameRatesThenValues(s: State, s': State, w: seq<RateRegister>)
    requires forall r | r in w :: r.Group? ==> r.g < TIMER_COUNT
    requires forall r: RateRegister | r in w :: Requested(s', r) == Requested(s, r)
    requires FinalValues(s') == FinalValues(s)
    ensures RatesThenValues(s', w) == RatesThenValues(s, w)
    decreases |w|
  {
    if |w| > 0 { SameRatesThenValues(s, s', w[1..]); }
  }

  lemma ServeSchedule(adv: bool, s: State, now: nat)
    requires Separated(adv, s) && |Waiting(adv, s)| > 0 && s.noticed
    ensures var r := Waiting(adv, s)[0];
            && (r.Group? ==> r.g < TIMER_COUNT)
            && RateWrite(r, Requested(s, r)) == Schedule(adv, s)[0]
            && Schedule(adv, ServeRate(s, now, r)) == Schedule(adv, s)[1..]
  {
    var w := Waiting(adv, s);
    WaitingRange(adv, s);
    ServeTakesFirst(adv, s, now);
    ServeKeepsRequests(s, now, w[0]);
    SameRatesThenValues(s, ServeRate(s, now, w[0]), w[1..]);
    ScheduleOfNoticed(adv, s);
    ScheduleOfNoticed(adv, ServeRate(s, now, w[0]));
  }

  lemma ServeKeepsRequests(s: State, now: nat, r: RateRegister)
    requires r.Group? ==> r.g < TIMER_COUNT
    ensures var s' := ServeRate(s, now, r);
            && s'.noticed == s.noticed && FinalValues(s') == FinalValues(s)
            && forall q: RateRegister | q.Group? ==> q.g < TIMER_COUNT :: Requested(s', q) == Requested(s, q)
  {
  }

  lemma ScheduleOfNoticed(adv: bool, s: State)
    requires s.noticed
    ensures (forall r | r in Waiting(adv, s) :: r.Group? ==> r.g < TIMER_COUNT)
    ensures Schedule(adv, s) == RatesThenValues(s, Waiting(adv, s))
  {
    WaitingRange(adv, s);
  }

  /** The schedule depends on requests, flags and values only. */
  lemma SameSchedule(adv: bool, s: State, s': State)
    requires s' == s.(armed := s'.armed, log := s'.log, noticed := s'.noticed)
    ensures Waiting(adv, s') == Waiting(adv, s)
    ensures s'.noticed == s.noticed ==> Schedule(adv, s') == Schedule(adv, s)
    ensures |Waiting(adv, s)| > 0 && !s.noticed && s'.noticed ==>
              Schedule(adv, s)[0] == CLEAR_OUTPUTS && Schedule(adv, s') == Schedule(adv, s)[1..]
  {
    SameTail(s, s', 0);
    WaitingRange(adv, s);
    SameRatesThenValues(s, s', Waiting(adv, s));
  }

  /** One armed tick issues the next write of the schedule. */
  lemma TickFollowsSchedule(env: Env, s: State, now: nat)
    requires env.Valid() && Separated(env.adv, s) && Armed(env, s, now) && Measure(env.adv, s) > 0
    ensures var s' := Tick(env, s, now);
            && s'.log == s.log + [Wrote(now, Schedule(env.adv, s)[0])]
            && Measure(env.adv, s') == Measure(env.adv, s) - 1
            && Schedule(env.adv, s') == Schedule(env.adv, s)[1..]
            && Separated(env.adv, s') && s'.armTimeout == s.armTimeout
  {
    var s1 := s.(armed := true);
    WaitingIffPending(env.adv, s);
    if s.noticed {
      SameSchedule(env.adv, s, s1);
      ServeSchedule(env.adv, s1, now);
      ServeTakesFirst(env.adv, s1, now);
    } else {
      SameSchedule(env.adv, s, Tick(env, s, now));
    }
  }

  /** The tick that finds nothing waiting streams the values. */
  lemma SettledTickStreams(env: Env, s: State, now: nat)
    requires env.Valid() && Separated(env.adv, s) && Armed(env, s, now) && Measure(env.adv, s) == 0
    ensures var s' := Tick(env, s, now);
            && s'.log == s.log + [Wrote(now, Outputs(FinalValues(s)))]
            && Schedule(env.adv, s) == [Outputs(FinalValues(s))]
            && !Pending(s') && !s'.noticed && s'.values == FinalValues(s)
  {
  }

  /** Exactly Measure + 1 armed ticks issue exactly the schedule: with k > 0 rates pending and no clear
      yet that is k + 2 ticks, one clear, the k rates in index order (banks: alt before default) and one
      stream of values. Afterwards nothing is pending. */
  lemma {:induction false} PendingRatesReachDevice(env: Env, s: State, times: seq<nat>)
    requires env.Valid() && Separated(env.adv, s) && AllArmed(env, s, times)
    requires |times| == Measure(env.adv, s) + 1
    ensures Ticks(env, s, times).log == s.log + Stamped(times, Schedule(env.adv, s))
    ensures !Pending(Ticks(env, s, times)) && !Ticks(env, s, times).noticed
    ensures Ticks(env, s, times).values == FinalValues(s)
    decreases |times|
  {
    if Measure(env.adv, s) == 0 {
      SettledReach(env, s, times);
    } else {
      var s', ws := Tick(env, s, times[0]), Schedule(env.adv, s);
      assert Armed(env, s, times[0]);
      TickFollowsSchedule(env, s, times[0]);
      FinalValuesKept(env, s, times[0]);
      SameDeadline(env, s, s', times);
      PendingRatesReachDevice(env, s', times[1..]);
      StampedHead(s.log, times, ws);
    }
  }

  lemma SettledReach(env: Env, s: State, times: seq<nat>)
    requires env.Valid() && Separated(env.adv, s) && AllArmed(env, s, times)
    requires |times| == 1 && Measure(env.adv, s) == 0
    ensures Ticks(env, s, times).log == s.log + Stamped(times, Schedule(env.adv, s))
    ensures !Pending(Ticks(env, s, times)) && !Ticks(env, s, times).noticed
    ensures Ticks(env, s, times).values == FinalValues(s)
  {
    assert Armed(env, s, times[0]);
    OneTick(env, s, times);
    SettledTickStreams(env, s, times[0]);
    assert Stamped(times, Schedule(env.adv, s)) == [Wrote(times[0], Outputs(FinalValues(s)))];
  }

  lemma StampedHead(log: seq<Entry>, times: seq<nat>, ws: seq<RegWrite>)
    requires |times| == |ws| > 0
    ensures log + Stamped(times, ws) == log + [Wrote(times[0], ws[0])] + Stamped(times[1..], ws[1..])
  {
  }

  lemma OneTick(env: Env, s: State, times: seq<nat>)
    requires env.Valid() && |times| == 1
    ensures Ticks(env, s, times) == Tick(env, s, times[0])
  {
  }

  lemma SameDeadline(env: Env, s: State, s': State, times: seq<nat>)
    requires env.Valid() && AllArmed(env, s, times) && |times| > 0 && s'.armTimeout == s.armTimeout
    ensures AllArmed(env, s', times[1..])
  {
  }

  lemma FinalValuesKept(env: Env, s: State, now: nat)
    requires env.Valid() && Separated(env.adv, s) && Armed(env, s, now) && Measure(env.adv, s) > 0
    ensures FinalValues(Tick(env, s, now)) == FinalValues(s)
  {
  }
}
