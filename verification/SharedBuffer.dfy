/** Any number of threads share the one packet buffer under one mutex. A call's steps are: invoke, lock,
    fill the buffer, seal and send it, receive into it, check it, copy out, unlock, return; either
    transfer may fail. Between two steps of one thread any other may run. Requests and replies may be
    damaged and the peer may refuse. The operations linearize against a plain register file. */
module SharedBuffer {
  import opened Packet
  import opened Peer

  type Thread = nat

  /** Larger counts are refused before the lock is taken. */
  type RegCount = n: nat | n <= PKT_MAX_REGS
  type Payload = ws: seq<bv16> | |ws| <= PKT_MAX_REGS

  datatype Op =
    | Get(page: bv8, offset: bv8, count: RegCount)
    | Set(page: bv8, offset: bv8, values: Payload)

  /** The sequential meaning of an operation. */
  function Apply(f: RegFile, op: Op): RegFile {
    if op.Set? then Put(f, op.page, op.offset as nat, op.values) else f
  }

  function DataOf(f: RegFile, op: Op): seq<bv16> {
    if op.Get? then Fetch(f, op.page, op.offset as nat, op.count) else []
  }

  /** One operation as the peer executed it. */
  datatype Entry = Entry(thread: Thread, op: Op, data: seq<bv16>)

  function Replay(f: RegFile, h: seq<Entry>): RegFile {
    if |h| == 0 then f else Apply(Replay(f, h[..|h| - 1]), h[|h| - 1].op)
  }

  /** Every operation in `h` got the data a plain register file gives it at that point. */
  ghost predicate Sequential(f: RegFile, h: seq<Entry>) {
    forall i | 0 <= i < |h| :: h[i].data == DataOf(Replay(f, h[..i]), h[i].op)
  }

  /** What became of a call's request: whether it arrived intact, and its entry if it was executed. */
  datatype Fate = NotExecuted | Executed(at: nat)
  datatype Delivery = Delivery(intact: bool, fate: Fate)

  datatype Reply = Failed(err: int) | Done(data: seq<bv16>)

  /** Where a thread is. `since` is the length of the history when the call began. */
  datatype Phase =
    | Idle
    | Called(op: Op, since: nat)
    | Locked(op: Op, since: nat)
    | Built(op: Op, since: nat)
    | Sent(op: Op, since: nat, how: Delivery)
    | Received(op: Op, since: nat, how: Delivery)
    | Checked(op: Op, since: nat, how: Delivery, result: int)
    | Finished(op: Op, since: nat, how: Delivery, reply: Reply)
    | Returned(op: Op, since: nat, how: Delivery, reply: Reply)
  {
    predicate Critical() {
      !Idle? && !Called? && !Returned?
    }
  }

  datatype Mutex = Free | HeldBy(owner: Thread)

  datatype System = System(
    mutex: Mutex,
    buffer: Memory,
    regs: RegFile,
    wire: Memory,
    threads: Thread -> Phase,
    history: seq<Entry>)

  function At(threads: Thread -> Phase, t: Thread, p: Phase): Thread -> Phase {
    (u: Thread) => if u == t then p else threads(u)
  }

  function Request(m: Memory, op: Op): Memory {
    if op.Get? then ReadRequest(m, op.page, op.offset, op.count)
    else WriteRequest(m, op.page, op.offset, op.values)
  }

  function ResultOf(m: Memory, op: Op): int {
    if op.Get? then ReadResult(m, op.count) else WriteResult(m, |op.values|)
  }

  datatype Action =
    | Invoke(t: Thread, op: Op)
    | Lock(t: Thread)
    | Build(t: Thread)
    | Send(t: Thread, request: Memory, verdict: Verdict, answer: Memory)    // as it reached the peer
    | SendFails(t: Thread, err: int)         // before the peer had it; later, Send and ReceiveFails
    | Receive(t: Thread, arrived: Memory)    // the reply, or damage the CRC exposes
    | ReceiveFails(t: Thread, err: int)
    | Check(t: Thread)
    | CopyOut(t: Thread)
    | Unlock(t: Thread)
    | Return(t: Thread)

  ghost predicate Enabled(s: System, a: Action) {
    var p := s.threads(a.t);
    match a
    case Invoke(_, op) => p.Idle?
    case Lock(_) => p.Called? && s.mutex.Free?
    case Build(_) => p.Locked?
    case Send(_, request, verdict, answer) =>
      p.Built? && Arrives(Seal(s.buffer), request) && Reacts(s.regs, request, verdict, answer)
    case SendFails(_, err) => p.Built? && err < 0
    case Receive(_, arrived) => p.Sent? && (arrived == s.wire || !CrcOk(arrived))
    case ReceiveFails(_, err) => p.Sent? && err < 0
    case Check(_) => p.Received?
    case CopyOut(_) => p.Checked?
    case Unlock(_) => p.Finished?
    case Return(_) => p.Returned?
  }

  ghost function Next(s: System, a: Action): System
    requires Enabled(s, a)
  {
    var t, p := a.t, s.threads(a.t);
    match a
    case Invoke(_, op) =>
      s.(threads := At(s.threads, t, Called(op, |s.history|)))
    case Lock(_) =>
      s.(mutex := HeldBy(t), threads := At(s.threads, t, Locked(p.op, p.since)))
    case Build(_) =>
      s.(buffer := Request(s.buffer, p.op), threads := At(s.threads, t, Built(p.op, p.since)))
    case Send(_, request, verdict, answer) =>
      var fate := if verdict.Executes? then Executed(|s.history|) else NotExecuted;
      s.(buffer := Seal(s.buffer),
         regs := After(s.regs, request, verdict),
         wire := answer,
         threads := At(s.threads, t, Sent(p.op, p.since, Delivery(Intact(Seal(s.buffer), request), fate))),
         history := if verdict.Executes? then s.history + [Entry(t, p.op, DataOf(s.regs, p.op))] else s.history)
    case SendFails(_, err) =>
      s.(buffer := Seal(s.buffer),
         threads := At(s.threads, t, Finished(p.op, p.since, Delivery(false, NotExecuted), Failed(err))))
    case Receive(_, arrived) =>
      s.(buffer := arrived, threads := At(s.threads, t, Received(p.op, p.since, p.how)))
    case ReceiveFails(_, err) =>
      s.(threads := At(s.threads, t, Finished(p.op, p.since, p.how, Failed(err))))
    case Check(_) =>
      s.(buffer := s.buffer[1 := 0],
         threads := At(s.threads, t, Checked(p.op, p.since, p.how, ResultOf(s.buffer, p.op))))
    case CopyOut(_) =>
      var reply := if p.result < 0 then Failed(p.result)
                   else Done(if p.op.Get? then Words(s.buffer, p.op.count) else []);
      s.(threads := At(s.threads, t, Finished(p.op, p.since, p.how, reply)))
    case Unlock(_) =>
      s.(mutex := Free, threads := At(s.threads, t, Returned(p.op, p.since, p.how, p.reply)))
    case Return(_) =>
      s.(threads := At(s.threads, t, Idle))
  }

  ghost predicate Run(s: System, actions: seq<Action>, s': System)
    decreases |actions|
  {
    if |actions| == 0 then s' == s
    else Enabled(s, actions[0]) && Run(Next(s, actions[0]), actions[1..], s')
  }

  ghost predicate Initial(s: System) {
    s.mutex.Free? && s.history == [] && forall t :: s.threads(t) == Idle
  }

  // ---------------------------------------------------------------- the invariant

  /** The request of `op` is in `m`. */
  predicate Carries(m: Memory, op: Op) {
    && m[2] == op.page && m[3] == op.offset
    && match op
       case Get(_, _, count) => Code(m) == PKT_CODE_READ && Count(m) == count
       case Set(_, _, values) => Code(m) == PKT_CODE_WRITE && Count(m) == |values| && Words(m, |values|) == values
  }

  /** If `m` passes the checks it brings `data` for `op`. */
  predicate Brings(m: Memory, op: Op, data: seq<bv16>) {
    if op.Get? then CrcOk(m) ==> Words(m, op.count) == data else data == []
  }

  /** The thread has no entry from `since` on. */
  ghost predicate NoEntry(h: seq<Entry>, t: Thread, since: nat) {
    forall i | since <= i < |h| :: h[i].thread != t
  }

  /** `at` is an entry of the thread for `op`, and its only one from `since` on. */
  ghost predicate OnlyEntry(h: seq<Entry>, t: Thread, op: Op, since: nat, at: nat) {
    && since <= at < |h| && h[at].thread == t && h[at].op == op
    && forall i | since <= i < |h| && h[i].thread == t :: i == at
  }

  /** The history has what `how` says of the call, once. */
  ghost predicate Recorded(h: seq<Entry>, t: Thread, op: Op, since: nat, how: Delivery) {
    && (how.fate.Executed? ==> how.intact)
    && if how.fate.Executed? then OnlyEntry(h, t, op, since, how.fate.at) else NoEntry(h, t, since)
  }

  /** If `m` passes the checks as a success, it answers an executed request or a damaged one, and brings
      the data of the entry in the first case. */
  ghost predicate Answers(h: seq<Entry>, m: Memory, op: Op, how: Delivery) {
    && (how.fate.Executed? ==> how.fate.at < |h| && Brings(m, op, h[how.fate.at].data))
    && (how.intact && how.fate.NotExecuted? && CrcOk(m) ==> Code(m) == PKT_CODE_ERROR)
  }

  /** What a thread may rely on in each phase. */
  ghost predicate PhaseOk(s: System, t: Thread) {
    var p := s.threads(t);
    && (p.Critical() ==> s.mutex == HeldBy(t))
    && (!p.Idle? ==> p.since <= |s.history|)
    && match p
       case Idle => true
       case Called(_, since) => NoEntry(s.history, t, since)
       case Locked(_, since) => NoEntry(s.history, t, since)
       case Built(op, since) => NoEntry(s.history, t, since) && Carries(s.buffer, op)
       case Sent(op, since, how) => Recorded(s.history, t, op, since, how) && Answers(s.history, s.wire, op, how)
       case Received(op, since, how) => Recorded(s.history, t, op, since, how) && Answers(s.history, s.buffer, op, how)
       case Checked(op, since, how, result) =>
         && Recorded(s.history, t, op, since, how)
         && (result >= 0 ==> Honoured(s.history, op, how, if op.Get? then Words(s.buffer, op.count) else []))
       case Finished(op, since, how, reply) => ReplyOk(s, t, op, since, how, reply)
       case Returned(op, since, how, reply) => ReplyOk(s, t, op, since, how, reply)
  }

  /** A successful call was executed if its request arrived intact, and then has the data of its entry. */
  ghost predicate Honoured(h: seq<Entry>, op: Op, how: Delivery, data: seq<bv16>) {
    && (how.intact ==> how.fate.Executed?)
    && (how.fate.Executed? ==> how.fate.at < |h| && h[how.fate.at].data == data)
  }

  ghost predicate ReplyOk(s: System, t: Thread, op: Op, since: nat, how: Delivery, reply: Reply) {
    && Recorded(s.history, t, op, since, how)
    && (reply.Done? ==> Honoured(s.history, op, how, reply.data))
  }

  ghost predicate Inv(f: RegFile, s: System) {
    && Sequential(f, s.history)
    && s.regs == Replay(f, s.history)
    && forall t :: PhaseOk(s, t)
  }

  lemma RequestCarries(m: Memory, op: Op)
    ensures Carries(Request(m, op), op)
  {
    if op.Get? {
      ReadRequestCarries(m, op.page, op.offset, op.count);
    } else {
      WriteRequestCarries(m, op.page, op.offset, op.values);
    }
  }

  /** What passes the peer's CRC is executed as the operation the buffer carries. */
  lemma SendExecutes(f: RegFile, m: Memory, op: Op, request: Memory, verdict: Verdict, answer: Memory)
    requires Carries(m, op) && Arrives(Seal(m), request) && Reacts(f, request, verdict, answer)
    ensures verdict.Rejects? <==> !Intact(Seal(m), request)
    ensures verdict.Executes? ==> After(f, request, verdict) == Apply(f, op) && Brings(answer, op, DataOf(f, op))
  {
    SealIsValid(m);
    CrcShowsDamage(Seal(m), request);
    if op.Set? { assert Words(Seal(m), |op.values|) == Words(m, |op.values|); }
    if verdict.Executes? { IntactIsSame(f, Seal(m), request, answer); }
  }

  lemma SequentialExtends(f: RegFile, h: seq<Entry>, t: Thread, op: Op)
    requires Sequential(f, h)
    ensures var h' := h + [Entry(t, op, DataOf(Replay(f, h), op))];
            Sequential(f, h') && Replay(f, h') == Apply(Replay(f, h), op)
  {
    var h' := h + [Entry(t, op, DataOf(Replay(f, h), op))];
    assert h'[..|h|] == h;
    forall i | 0 <= i < |h'| ensures h'[i].data == DataOf(Replay(f, h'[..i]), h'[i].op) {
      if i < |h| { assert h'[..i] == h[..i]; }
    }
  }

  /** A step writes history for its own thread only. */
  lemma HistoryGrows(s: System, a: Action)
    requires Enabled(s, a)
    ensures var h := Next(s, a).history;
            h == s.history || exists e: Entry :: e.thread == a.t && h == s.history + [e]
  {
  }

  lemma OthersRecorded(h: seq<Entry>, e: Entry, u: Thread, op: Op, since: nat, how: Delivery)
    requires e.thread != u
    ensures NoEntry(h, u, since) ==> NoEntry(h + [e], u, since)
    ensures Recorded(h, u, op, since, how) ==> Recorded(h + [e], u, op, since, how)
  {
  }

  /** A step of `a.t` leaves what any other thread relies on alone. */
  lemma OthersUndisturbed(s: System, a: Action, u: Thread)
    requires Enabled(s, a) && u != a.t
    requires PhaseOk(s, a.t) && PhaseOk(s, u)
    ensures PhaseOk(Next(s, a), u)
  {
    var s', p := Next(s, a), s.threads(u);
    HistoryGrows(s, a);
    assert s'.threads(u) == p;
    if p.Critical() {
      assert s'.mutex == s.mutex && s'.buffer == s.buffer && s'.wire == s.wire && s'.history == s.history;
    } else if !p.Idle? && s'.history != s.history {
      var e: Entry :| e.thread == a.t && s'.history == s.history + [e];
      OthersRecorded(s.history, e, u, p.op, p.since, if p.Returned? then p.how else Delivery(false, NotExecuted));
    }
  }

  lemma OwnSend(s: System, a: Action)
    requires Enabled(s, a) && a.Send? && PhaseOk(s, a.t)
    ensures PhaseOk(Next(s, a), a.t)
  {
    SendExecutes(s.regs, s.buffer, s.threads(a.t).op, a.request, a.verdict, a.answer);
  }

  lemma OwnCheck(s: System, a: Action)
    requires Enabled(s, a) && a.Check? && PhaseOk(s, a.t)
    ensures PhaseOk(Next(s, a), a.t)
  {
    var op := s.threads(a.t).op;
    if op.Get? { assert Words(s.buffer[1 := 0], op.count) == Words(s.buffer, op.count); }
  }

  lemma OwnStepOk(s: System, a: Action)
    requires Enabled(s, a) && PhaseOk(s, a.t)
    ensures PhaseOk(Next(s, a), a.t)
  {
    if a.Build? {
      RequestCarries(s.buffer, s.threads(a.t).op);
    } else if a.Send? {
      OwnSend(s, a);
    } else if a.Check? {
      OwnCheck(s, a);
    }
  }

  lemma NextKeepsInv(f: RegFile, s: System, a: Action)
    requires Enabled(s, a) && Inv(f, s)
    ensures Inv(f, Next(s, a))
  {
    var s' := Next(s, a);
    forall u ensures PhaseOk(s', u) {
      assert PhaseOk(s, u) && PhaseOk(s, a.t);
      if u == a.t { OwnStepOk(s, a); } else { OthersUndisturbed(s, a, u); }
    }
    if a.Send? {
      assert PhaseOk(s, a.t);
      SendExecutes(s.regs, s.buffer, s.threads(a.t).op, a.request, a.verdict, a.answer);
      SequentialExtends(f, s.history, a.t, s.threads(a.t).op);
    }
  }

  lemma {:induction false} RunKeepsInv(f: RegFile, s: System, actions: seq<Action>, s': System)
    requires Inv(f, s) && Run(s, actions, s')
    ensures Inv(f, s') && s.history <= s'.history
    decreases |actions|
  {
    if |actions| > 0 {
      NextKeepsInv(f, s, actions[0]);
      RunKeepsInv(f, Next(s, actions[0]), actions[1..], s');
    }
  }

  /** Linearizability. In every run of any number of threads the operations the peer executed form a
      sequential history of a plain register file that ends in the peer's registers. A returned call
      has at most one entry of its own since it began. If it was reported as successful it has one if
      and only if its request arrived intact, and then brings home exactly the data of that entry. */
  lemma Linearizable(s: System, actions: seq<Action>, s': System, t: Thread)
    requires Initial(s) && Run(s, actions, s')
    ensures Sequential(s.regs, s'.history) && s'.regs == Replay(s.regs, s'.history)
    ensures var p := s'.threads(t);
            p.Returned? ==>
              && (p.how.fate.NotExecuted? ==> NoEntry(s'.history, t, p.since))
              && (p.how.fate.Executed? ==> OnlyEntry(s'.history, t, p.op, p.since, p.how.fate.at))
              && (p.reply.Done? ==>
                    && (p.how.fate.Executed? <==> p.how.intact)
                    && (p.how.intact ==> s'.history[p.how.fate.at] == Entry(t, p.op, p.reply.data)))
  {
    RunKeepsInv(s.regs, s, actions, s');
    assert PhaseOk(s', t);
  }

  /** A call that is left alone and whose peer executes it comes back with exactly what a plain register file
      gives, and frees the buffer; no other thread is touched. */
  lemma HonestCallCompletes(s: System, t: Thread, op: Op)
    returns (actions: seq<Action>, s': System)
    requires s.mutex.Free? && s.threads(t).Idle?
    ensures Run(s, actions, s') && s'.mutex.Free? && forall u | u != t :: s'.threads(u) == s.threads(u)
    ensures s'.regs == Apply(s.regs, op) && s'.history == s.history + [Entry(t, op, DataOf(s.regs, op))]
    ensures s'.threads(t) == Returned(op, |s.history|, Delivery(true, Executed(|s.history|)), Done(DataOf(s.regs, op)))
  {
    var s1 := Next(s, Invoke(t, op));
    var s2 := Next(s1, Lock(t));
    var s3 := Next(s2, Build(t));
    var r := Seal(s3.buffer);
    RequestCarries(s2.buffer, op);
    SealIsValid(s3.buffer);
    var a := HonestReplyExists(s.regs, r);
    var send := Send(t, r, Executes, a);
    SendExecutes(s.regs, s3.buffer, op, r, Executes, a);
    var s4 := Next(s3, send);
    var rest;
    rest, s' := HonestReplyComesHome(s4, t, DataOf(s.regs, op));
    RunStep(s3, send, rest, s');
    RunStep(s2, Build(t), [send] + rest, s');
    RunStep(s1, Lock(t), [Build(t)] + ([send] + rest), s');
    actions := [Lock(t)] + ([Build(t)] + ([send] + rest));
    RunStep(s, Invoke(t, op), actions, s');
    actions := [Invoke(t, op)] + actions;
  }

  /** From a good answer on the wire to the caller. */
  lemma HonestReplyComesHome(s: System, t: Thread, data: seq<bv16>)
    returns (actions: seq<Action>, s': System)
    requires s.threads(t).Sent? && CrcOk(s.wire) && Code(s.wire) != PKT_CODE_ERROR
    requires var op := s.threads(t).op; Brings(s.wire, op, data) && (op.Get? ==> Count(s.wire) == op.count)
    ensures Run(s, actions, s') && s'.mutex.Free? && forall u | u != t :: s'.threads(u) == s.threads(u)
    ensures s'.regs == s.regs && s'.history == s.history
    ensures var p := s.threads(t); s'.threads(t) == Returned(p.op, p.since, p.how, Done(data))
  {
    var op := s.threads(t).op;
    var s1 := Next(s, Receive(t, s.wire));
    var s2 := Next(s1, Check(t));
    if op.Get? { assert Words(s2.buffer, op.count) == Words(s.wire, op.count); }
    var s3 := Next(s2, CopyOut(t));
    s' := Next(s3, Unlock(t));
    assert Run(s', [], s');
    RunStep(s3, Unlock(t), [], s');
    RunStep(s2, CopyOut(t), [Unlock(t)], s');
    RunStep(s1, Check(t), [CopyOut(t)] + ([Unlock(t)] + []), s');
    actions := [Check(t)] + ([CopyOut(t)] + ([Unlock(t)] + []));
    RunStep(s, Receive(t, s.wire), actions, s');
    actions := [Receive(t, s.wire)] + actions;
  }

  /** Real-time order: a call that begins in `m` and is executed by `s'` linearizes after everything the
      peer had executed by `m`; no entry is ever dropped or changed. */
  lemma RealTimeOrder(s: System, before: seq<Action>, m: System, t: Thread, op: Op, after: seq<Action>, s': System)
    requires Initial(s) && Run(s, before, m) && Enabled(m, Invoke(t, op)) && Run(Next(m, Invoke(t, op)), after, s')
    requires forall a | a in after && a.t == t :: !a.Return?
    ensures m.history <= s'.history
    ensures var p := s'.threads(t); p.Returned? && p.how.fate.Executed? ==> p.how.fate.at >= |m.history|
  {
    var n := Next(m, Invoke(t, op));
    RunKeepsInv(s.regs, s, before, m);
    NextKeepsInv(s.regs, m, Invoke(t, op));
    RunKeepsInv(s.regs, n, after, s');
    SinceStays(n, after, s', t, |m.history|);
    assert PhaseOk(s', t);
  }

  lemma {:induction false} SinceStays(s: System, actions: seq<Action>, s': System, t: Thread, n: nat)
    requires Run(s, actions, s') && !s.threads(t).Idle? && s.threads(t).since == n
    requires forall a | a in actions && a.t == t :: !a.Return?
    ensures !s'.threads(t).Idle? && s'.threads(t).since == n
    decreases |actions|
  {
    if |actions| > 0 {
      SinceStays(Next(s, actions[0]), actions[1..], s', t, n);
    }
  }

  /** At most one thread is between lock and unlock. */
  lemma MutualExclusion(s: System, actions: seq<Action>, s': System, t: Thread, u: Thread)
    requires Initial(s) && Run(s, actions, s')
    requires s'.threads(t).Critical() && s'.threads(u).Critical()
    ensures t == u
  {
    RunKeepsInv(s.regs, s, actions, s');
    assert PhaseOk(s', t) && PhaseOk(s', u);
  }

  // ---------------------------------------------------------------- a success that executed nothing

  lemma RunStep(s: System, a: Action, actions: seq<Action>, s': System)
    requires Enabled(s, a) && Run(Next(s, a), actions, s')
    ensures Run(s, [a] + actions, s')
  {
    assert ([a] + actions)[1..] == actions;
  }

  lemma RejectionExists(f: RegFile, d: Memory) returns (a: Memory)
    requires !CrcOk(d)
    ensures Reacts(f, d, Rejects, a)
  {
    var b: Memory := d[0 := CountByte(0, PKT_CODE_CORRUPT)];
    CountByteParts(0, PKT_CODE_CORRUPT);
    SealIsValid(b);
    a := Seal(b);
  }

  lemma FinishCall(s: System, t: Thread)
    returns (actions: seq<Action>, s': System)
    requires s.threads(t).Checked? && s.threads(t).op.Set? && s.threads(t).result >= 0
    ensures Run(s, actions, s') && s'.history == s.history && s'.regs == s.regs
    ensures s'.threads(t) == Returned(s.threads(t).op, s.threads(t).since, s.threads(t).how, Done([]))
  {
    var s1 := Next(s, CopyOut(t));
    s' := Next(s1, Unlock(t));
    assert Run(s', [], s');
    RunStep(s1, Unlock(t), [], s');
    RunStep(s, CopyOut(t), [Unlock(t)], s');
    actions := [CopyOut(t)] + ([Unlock(t)] + []);
  }

  /** From any initial state: a write whose request reaches the peer as `d`, which fails the CRC, can
      return as done with nothing executed. */
  lemma DamagedWriteReturnsAsDone(s: System, t: Thread, op: Op, d: Memory)
    returns (actions: seq<Action>, s': System)
    requires Initial(s) && op.Set? && !CrcOk(d)
    ensures Run(s, actions, s') && s'.history == [] && s'.regs == s.regs
    ensures s'.threads(t) == Returned(op, 0, Delivery(false, NotExecuted), Done([]))
  {
    var a := RejectionExists(s.regs, d);
    var s1 := Next(s, Invoke(t, op));
    var s2 := Next(s1, Lock(t));
    var s3 := Next(s2, Build(t));
    var send := Send(t, d, Rejects, a);
    RequestCarries(s2.buffer, op);
    SealIsValid(s3.buffer);
    if Intact(Seal(s3.buffer), d) { CrcShowsDamage(Seal(s3.buffer), d); }
    var s4 := Next(s3, send);
    var s5 := Next(s4, Receive(t, a));
    var s6 := Next(s5, Check(t));
    var rest;
    rest, s' := FinishCall(s6, t);
    RunStep(s5, Check(t), rest, s');
    RunStep(s4, Receive(t, a), [Check(t)] + rest, s');
    actions := [Receive(t, a)] + ([Check(t)] + rest);
    RunStep(s3, send, actions, s');
    RunStep(s2, Build(t), [send] + actions, s');
    RunStep(s1, Lock(t), [Build(t)] + ([send] + actions), s');
    actions := [Lock(t)] + ([Build(t)] + ([send] + actions));
    RunStep(s, Invoke(t, op), actions, s');
    actions := [Invoke(t, op)] + actions;
  }
}
