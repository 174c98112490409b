/**
 What the per-job supervisor does, as functions of the system's answers: a loop that drains
 output, serves one control request, watches for exit, memory kills and the deadline, and ends
 the job once the payload is gone and its output is read to the end; and what holds over every
 run of it.
 */
module SupervisorRuns {
  import opened Jobs
  import opened Spool
  import opened Utf8

  const DEFAULT_CANCEL_GRACE_MS: nat := 5_000
  const MAX_CANCEL_GRACE_MS: nat := 60_000
  const DRAIN_LIMIT: nat := 64

  datatype StopReason = CancelRequested | DeadlinePassed | MemoryLimit

  datatype Stop = Stop(reason: StopReason, hardDeadline: nat)

  datatype Exit = Exit(success: bool)

  /** `terminal_result`. */
  function TerminalResult(stop: Option<StopReason>, success: bool): (JobState, string) {
    match stop
    case Some(CancelRequested) => (JobState.Cancelled, "cancelled")
    case Some(DeadlinePassed) => (TimedOut, "deadline")
    case Some(MemoryLimit) => (Failed, "memory_limit")
    case None => if success then (Succeeded, "exited") else (Failed, "nonzero_exit")
  }

  /** The channel as one `try_recv` finds it: how many chunks have been put in it in all, and
      whether every sender is gone. */
  datatype Channel = Channel(put: nat, closed: bool)

  /** A control request, with the answers the system gives while it is handled. */
  datatype Control =
    | Query
    | Unreadable
    | Cancel(graceMs: Option<nat>, payloadEmpty: Option<bool>, signalled: bool)

  datatype WaitAnswer = WaitFailed | StillRunning | Exited(exit: Exit)

  /** What the system answers during one iteration; `None` stands for a failed call. */
  datatype Tick = Tick(
    channel: seq<Channel>,
    written: seq<bool>,
    control: Option<Control>,
    controlAt: nat,
    wait: WaitAnswer,
    oomKilled: Option<bool>,
    oomAt: nat,
    oomKillOk: bool,
    deadlineAt: nat,
    deadlineSignalOk: bool,
    lateAt: nat,
    lateEmpty: Option<bool>,
    lateKillOk: bool,
    finalEmpty: Option<bool>)

  /** An iteration can happen: `sent` is everything the payload's pipes ever put in the channel. */
  ghost predicate Possible(t: Tick, sent: seq<Chunk>) {
    && |t.channel| == DRAIN_LIMIT && |t.written| == DRAIN_LIMIT
    && forall j :: 0 <= j < DRAIN_LIMIT ==>
         t.channel[j].put <= |sent| && (t.channel[j].closed ==> t.channel[j].put == |sent|)
  }

  datatype Signal = Term(at: nat) | Kill(at: nat)

  datatype Drained = Closed | Open | DrainFailed

  /** The supervisor's own variables. */
  datatype Sup = Sup(
    received: nat,            // chunks taken from the channel so far
    stop: Option<Stop>,
    exit: Option<Exit>,
    receipts: seq<bool>,      // `already_terminal` of every cancel receipt, oldest first
    signals: seq<Signal>)

  const START := Sup(0, None, None, [], [])

  datatype Config = Config(memoryLimited: bool, deadline: nat)

  /** `drain_output` from its `j`-th receive on. */
  function Drain(received: nat, t: Tick, j: nat): (nat, Drained)
    requires j <= DRAIN_LIMIT == |t.channel| == |t.written|
    decreases DRAIN_LIMIT - j
  {
    if j == DRAIN_LIMIT then (received, Open)
    else if received < t.channel[j].put then
      if t.written[j] then Drain(received + 1, t, j + 1) else (received, DrainFailed)
    else (received, if t.channel[j].closed then Closed else Open)
  }

  function Grace(c: Control): nat
    requires c.Cancel?
  {
    if c.graceMs.Some? then c.graceMs.value else DEFAULT_CANCEL_GRACE_MS
  }

  /** `handle_control`; `over` is whether the stored job state is terminal. */
  function Serve(s: Sup, c: Control, at: nat, over: bool): Sup {
    if !c.Cancel? then s
    else if over then s.(receipts := s.receipts + [true])
    else if c.payloadEmpty.None? then s
    else if c.payloadEmpty.value then s.(receipts := s.receipts + [true])
    else if s.stop.Some? then s.(receipts := s.receipts + [false])
    else if Grace(c) > MAX_CANCEL_GRACE_MS || !c.signalled then s
    else s.(stop := Some(Stop(CancelRequested, at + Grace(c))),
            signals := s.signals + [Term(at)],
            receipts := s.receipts + [false])
  }

  /** The result of a step that may fail on a system call, and the variables at that point. */
  datatype Checked = Continue(sup: Sup) | Fail(sup: Sup)

  function CheckExit(s: Sup, t: Tick): Checked {
    if s.exit.Some? then Continue(s)
    else match t.wait
      case WaitFailed => Fail(s)
      case StillRunning => Continue(s)
      case Exited(e) => Continue(s.(exit := Some(e)))
  }

  function CheckMemory(s: Sup, t: Tick, c: Config): Checked {
    if s.stop.Some? || !c.memoryLimited then Continue(s)
    else if t.oomKilled.None? then Fail(s)
    else if !t.oomKilled.value then Continue(s)
    else if !t.oomKillOk then Fail(s)
    else Continue(s.(stop := Some(Stop(MemoryLimit, t.oomAt)), signals := s.signals + [Kill(t.oomAt)]))
  }

  function CheckDeadline(s: Sup, t: Tick, c: Config): Checked {
    if s.stop.Some? || t.deadlineAt < c.deadline then Continue(s)
    else if !t.deadlineSignalOk then Fail(s)
    else Continue(s.(stop := Some(Stop(DeadlinePassed, t.deadlineAt + DEFAULT_CANCEL_GRACE_MS)),
                     signals := s.signals + [Term(t.deadlineAt)]))
  }

  function CheckGrace(s: Sup, t: Tick): Checked {
    if s.stop.None? || t.lateAt < s.stop.value.hardDeadline then Continue(s)
    else if t.lateEmpty.None? then Fail(s)
    else if t.lateEmpty.value then Continue(s)
    else if !t.lateKillOk then Fail(s)
    else Continue(s.(signals := s.signals + [Kill(t.lateAt)]))
  }

  function Watch(s: Sup, t: Tick, c: Config): Checked {
    var r1 := CheckExit(s, t);
    if r1.Fail? then r1
    else
      var r2 := CheckMemory(r1.sup, t, c);
      if r2.Fail? then r2
      else
        var r3 := CheckDeadline(r2.sup, t, c);
        if r3.Fail? then r3 else CheckGrace(r3.sup, t)
  }

  /** One iteration: go on, fail, or leave the loop. */
  datatype Iterated = Next(sup: Sup) | Failing(sup: Sup) | Leave(sup: Sup)

  function Iterate(s: Sup, t: Tick, c: Config): Iterated
    requires DRAIN_LIMIT == |t.channel| == |t.written|
  {
    var (received, drained) := Drain(s.received, t, 0);
    var s1 := s.(received := received);
    if drained == DrainFailed then Failing(s1)
    else
      var s2 := if t.control.Some? then Serve(s1, t.control.value, t.controlAt, false) else s1;
      var r := Watch(s2, t, c);
      if r.Fail? then Failing(r.sup)
      else if r.sup.exit.None? then Next(r.sup)
      else if t.finalEmpty.None? then Failing(r.sup)
      else if t.finalEmpty.value && drained == Closed then Leave(r.sup)
      else Next(r.sup)
  }

  /** The loop: how far it has come when the system has answered `ticks`. */
  datatype Loop = Ended(sup: Sup, last: nat) | LoopFailed(sup: Sup) | StillGoing(sup: Sup)

  ghost function RunLoop(s: Sup, ticks: seq<Tick>, i: nat, c: Config): Loop
    requires forall k :: 0 <= k < |ticks| ==> DRAIN_LIMIT == |ticks[k].channel| == |ticks[k].written|
    requires i <= |ticks|
    decreases |ticks| - i
  {
    if i == |ticks| then StillGoing(s)
    else match Iterate(s, ticks[i], c)
      case Failing(s') => LoopFailed(s')
      case Leave(s') => Ended(s', i)
      case Next(s') => RunLoop(s', ticks, i + 1, c)
  }

  function ReasonOf(s: Sup): Option<StopReason> {
    if s.stop.None? then None else Some(s.stop.value.reason)
  }

  /** A result that names a stop reason. */
  predicate IsStopResult(r: (JobState, string)) {
    r == (JobState.Cancelled, "cancelled") || r == (TimedOut, "deadline") || r == (Failed, "memory_limit")
  }

  /** Every result is a terminal state a running job may move to; a stopped job is reported with
      its stop reason whatever its exit status, and only a stopped job is. */
  lemma ResultIsTerminal(stop: Option<StopReason>, success: bool)
    ensures IsTerminal(TerminalResult(stop, success).0) && CanTransition(Running, TerminalResult(stop, success).0)
    ensures IsStopResult(TerminalResult(stop, success)) <==> stop.Some?
    ensures stop.Some? ==> TerminalResult(stop, true) == TerminalResult(stop, false)
    ensures TerminalResult(stop, success).0 == Succeeded <==> stop.None? && success
  {
    assert |"nonzero_exit"| == |"memory_limit"| == 12 && "memory_limit"[0] == 'm' && "nonzero_exit"[0] == 'n';
  }

  // ----- what every iteration keeps

  ghost predicate Inv(s: Sup, sent: seq<Chunk>) {
    && s.received <= |sent|
    && (false in s.receipts ==> s.stop.Some?)
    && (s.signals != [] ==> s.stop.Some?)
    && (forall i :: 0 <= i < |s.signals| && s.signals[i].Kill? ==>
          s.stop.Some? && (s.stop.value.reason == MemoryLimit || s.signals[i].at >= s.stop.value.hardDeadline))
  }

  /** What never changes back: the stop reason, the exit status, receipts and signals given. */
  predicate Extends(s: Sup, s': Sup) {
    && (s.stop.Some? ==> s'.stop == s.stop)
    && (s.exit.Some? ==> s'.exit == s.exit)
    && s.received <= s'.received && s.receipts <= s'.receipts && s.signals <= s'.signals
  }

  lemma {:induction false} DrainShape(received: nat, t: Tick, j: nat, sent: seq<Chunk>)
    requires Possible(t, sent) && received <= |sent| && j <= DRAIN_LIMIT
    ensures
      var (n, r) := Drain(received, t, j);
      received <= n <= |sent| && (r == Closed ==> n == |sent|)
    decreases DRAIN_LIMIT - j
  {
    if j < DRAIN_LIMIT && received < t.channel[j].put && t.written[j] {
      DrainShape(received + 1, t, j + 1, sent);
    }
  }

  lemma ServeKeeps(s: Sup, c: Control, at: nat, over: bool, sent: seq<Chunk>)
    requires Inv(s, sent)
    ensures Inv(Serve(s, c, at, over), sent) && Extends(s, Serve(s, c, at, over))
  {
  }

  lemma WatchKeeps(s: Sup, t: Tick, c: Config, sent: seq<Chunk>)
    requires Inv(s, sent)
    ensures Inv(Watch(s, t, c).sup, sent) && Extends(s, Watch(s, t, c).sup)
  {
    hide CheckMemory, CheckDeadline, CheckGrace;
    var s1 := CheckExit(s, t).sup;
    MemoryKeeps(s1, t, c, sent);
    var s2 := CheckMemory(s1, t, c).sup;
    DeadlineKeeps(s2, t, c, sent);
    GraceKeeps(CheckDeadline(s2, t, c).sup, t, sent);
  }

  lemma MemoryKeeps(s: Sup, t: Tick, c: Config, sent: seq<Chunk>)
    requires Inv(s, sent)
    ensures Inv(CheckMemory(s, t, c).sup, sent) && Extends(s, CheckMemory(s, t, c).sup)
  {
  }

  lemma DeadlineKeeps(s: Sup, t: Tick, c: Config, sent: seq<Chunk>)
    requires Inv(s, sent)
    ensures Inv(CheckDeadline(s, t, c).sup, sent) && Extends(s, CheckDeadline(s, t, c).sup)
  {
  }

  lemma GraceKeeps(s: Sup, t: Tick, sent: seq<Chunk>)
    requires Inv(s, sent)
    ensures Inv(CheckGrace(s, t).sup, sent) && Extends(s, CheckGrace(s, t).sup)
  {
  }

  lemma IterateKeeps(s: Sup, t: Tick, c: Config, sent: seq<Chunk>)
    requires Inv(s, sent) && Possible(t, sent)
    ensures Inv(Iterate(s, t, c).sup, sent) && Extends(s, Iterate(s, t, c).sup)
    ensures Iterate(s, t, c).Leave? ==>
              Iterate(s, t, c).sup.exit.Some? && t.finalEmpty == Some(true) && Iterate(s, t, c).sup.received == |sent|
  {
    hide Drain, Serve, Watch;
    DrainShape(s.received, t, 0, sent);
    var (received, drained) := Drain(s.received, t, 0);
    var s1 := s.(received := received);
    var s2 := s1;
    if t.control.Some? {
      ServeKeeps(s1, t.control.value, t.controlAt, false, sent);
      s2 := Serve(s1, t.control.value, t.controlAt, false);
      ServeReceived(s1, t.control.value, t.controlAt, false);
    }
    WatchKeeps(s2, t, c, sent);
    WatchReceived(s2, t, c);
  }

  lemma ServeReceived(s: Sup, c: Control, at: nat, over: bool)
    ensures Serve(s, c, at, over).received == s.received
  {
  }

  lemma WatchReceived(s: Sup, t: Tick, c: Config)
    ensures Watch(s, t, c).sup.received == s.received
  {
  }

  ghost predicate AllPossible(ticks: seq<Tick>, sent: seq<Chunk>) {
    forall k :: 0 <= k < |ticks| ==> Possible(ticks[k], sent)
  }

  /** Whatever the system answers, and whether the loop has ended, failed or is still going, the
      first stop reason, the exit status, the receipts and the signals given are kept. */
  lemma {:induction false} LoopKeeps(s: Sup, ticks: seq<Tick>, i: nat, c: Config, sent: seq<Chunk>)
    requires Inv(s, sent) && AllPossible(ticks, sent) && i <= |ticks|
    ensures Inv(RunLoop(s, ticks, i, c).sup, sent) && Extends(s, RunLoop(s, ticks, i, c).sup)
    decreases |ticks| - i
  {
    hide Iterate;
    if i < |ticks| {
      IterateKeeps(s, ticks[i], c, sent);
      if Iterate(s, ticks[i], c).Next? {
        LoopKeeps(Iterate(s, ticks[i], c).sup, ticks, i + 1, c, sent);
      }
    }
  }

  /** The loop ends only after the exit was observed, the payload was gone and every chunk ever
      put in the channel was taken. */
  lemma {:induction false} LoopEnds(s: Sup, ticks: seq<Tick>, i: nat, c: Config, sent: seq<Chunk>)
    requires Inv(s, sent) && AllPossible(ticks, sent) && i <= |ticks| && RunLoop(s, ticks, i, c).Ended?
    ensures
      var Ended(end, last) := RunLoop(s, ticks, i, c);
      && Inv(end, sent) && Extends(s, end)
      && i <= last < |ticks| && ticks[last].finalEmpty == Some(true)
      && end.exit.Some? && end.received == |sent|
    decreases |ticks| - i
  {
    hide Iterate;
    LoopKeeps(s, ticks, i, c, sent);
    IterateKeeps(s, ticks[i], c, sent);
    if Iterate(s, ticks[i], c).Next? {
      LoopEnds(Iterate(s, ticks[i], c).sup, ticks, i + 1, c, sent);
    }
  }

  /** A cancel receipt that does not say "already terminal" is kept: from then on, should the
      loop end, the job is never reported as having succeeded, or as having failed by its own
      exit, whatever its exit status. */
  lemma CancelReceiptDecides(ticks: seq<Tick>, c: Config, sent: seq<Chunk>)
    requires AllPossible(ticks, sent)
    ensures
      var end := RunLoop(START, ticks, 0, c).sup;
      false in end.receipts ==>
        && TerminalResult(ReasonOf(end), true) == TerminalResult(ReasonOf(end), false)
        && IsStopResult(TerminalResult(ReasonOf(end), true))
  {
    hide RunLoop;
    LoopKeeps(START, ticks, 0, c, sent);
  }

  /** At any point of any run, a job has been killed only for its memory or after the grace
      period of its stop reason, and has not been signalled at all while it has none. */
  lemma KillsAreDue(ticks: seq<Tick>, c: Config, sent: seq<Chunk>, i: nat)
    requires AllPossible(ticks, sent) && i < |RunLoop(START, ticks, 0, c).sup.signals|
    ensures
      var s := RunLoop(START, ticks, 0, c).sup;
      && s.stop.Some?
      && (s.signals[i].Kill? ==> s.stop.value.reason == MemoryLimit || s.signals[i].at >= s.stop.value.hardDeadline)
  {
    hide RunLoop;
    LoopKeeps(START, ticks, 0, c, sent);
  }
}
