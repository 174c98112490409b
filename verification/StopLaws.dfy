/**
 Why a job is stopped, when it is killed and how it is reported, over whole runs of the
 supervisor and with its times and limits as numbers.
 */
module StopLaws {
  import opened Jobs
  import opened SupervisorRuns
  import opened Utf8

  // ----- output

  /** Output is taken chunk by chunk while the channel has one more and the spool takes it, at
      most 64 times; the first receive that finds none says whether the channel is closed. */
  lemma {:induction false} DrainExactly(received: nat, t: Tick, j: nat)
    requires j <= 64 && |t.channel| == 64 && |t.written| == 64
    ensures
      var (end, r) := Drain(received, t, j);
      var n := j + (end - received);
      && j <= n <= 64
      && (forall k :: j <= k < n ==> received + (k - j) < t.channel[k].put && t.written[k])
      && (n == 64 ==> r == Open)
      && (n < 64 ==>
            && r == (if end < t.channel[n].put then DrainFailed else if t.channel[n].closed then Closed else Open)
            && (r == DrainFailed ==> !t.written[n]))
    decreases 64 - j
  {
    if j < 64 && received < t.channel[j].put && t.written[j] {
      DrainExactly(received + 1, t, j + 1);
    }
  }

  // ----- one iteration

  /** A cancel request that stops a running job: it names no grace period over a minute. */
  predicate Accepted(c: Control) {
    c.Cancel? && c.payloadEmpty == Some(false) && c.signalled && (c.graceMs.Some? ==> c.graceMs.value <= 60_000)
  }

  /** Why an iteration would stop a job, and when it would be killed for it: a cancel request
      comes first, then the memory limit, then the deadline.  Five seconds of grace unless the
      request names its own. */
  function StopAt(t: Tick, c: Config): Option<Stop> {
    if t.control.Some? && Accepted(t.control.value) then
      var grace := if t.control.value.graceMs.Some? then t.control.value.graceMs.value else 5_000;
      Some(Stop(CancelRequested, t.controlAt + grace))
    else if c.memoryLimited && t.oomKilled == Some(true) then Some(Stop(MemoryLimit, t.oomAt))
    else if t.deadlineAt >= c.deadline then Some(Stop(DeadlinePassed, t.deadlineAt + 5_000))
    else None
  }

  /** The stop reason after an iteration: the first one stays. */
  function StopAfter(stop: Option<Stop>, t: Tick, c: Config): Option<Stop> {
    if stop.Some? then stop else StopAt(t, c)
  }

  /** The signal a new stop reason brings: a job out of memory is killed, any other is asked. */
  function StopSignal(t: Tick, c: Config): seq<Signal> {
    match StopAt(t, c)
    case Some(Stop(CancelRequested, _)) => [Term(t.controlAt)]
    case Some(Stop(MemoryLimit, _)) => [Kill(t.oomAt)]
    case Some(Stop(DeadlinePassed, _)) => [Term(t.deadlineAt)]
    case None => []
  }

  /** Something is left of a stopped job after its grace period. */
  predicate Overrun(stop: Option<Stop>, t: Tick) {
    stop.Some? && t.lateAt >= stop.value.hardDeadline && t.lateEmpty == Some(false)
  }

  function Receipts(stop: Option<Stop>, control: Option<Control>): seq<bool> {
    if control.None? || !control.value.Cancel? || control.value.payloadEmpty.None? then []
    else if control.value.payloadEmpty.value then [true]
    else if stop.Some? || Accepted(control.value) then [false]
    else []
  }

  lemma ServeLeaves(s: Sup, control: Option<Control>, at: nat)
    ensures
      var s' := if control.Some? then Serve(s, control.value, at, false) else s;
      var taken := s.stop.None? && control.Some? && Accepted(control.value);
      var grace := if taken && control.value.graceMs.Some? then control.value.graceMs.value else 5_000;
      && s'.exit == s.exit
      && s'.stop == (if taken then Some(Stop(CancelRequested, at + grace)) else s.stop)
      && s'.signals == (if taken then s.signals + [Term(at)] else s.signals)
      && s'.receipts == s.receipts + Receipts(s.stop, control)
  {
  }

  lemma MemoryLeaves(s: Sup, t: Tick, c: Config)
    ensures
      var killed := c.memoryLimited && t.oomKilled == Some(true);
      && (CheckMemory(s, t, c).Fail? <==>
            s.stop.None? && c.memoryLimited && (t.oomKilled.None? || (killed && !t.oomKillOk)))
      && (CheckMemory(s, t, c).Continue? ==>
            CheckMemory(s, t, c).sup ==
            if s.stop.None? && killed then
              s.(stop := Some(Stop(MemoryLimit, t.oomAt)), signals := s.signals + [Kill(t.oomAt)])
            else s)
  {
  }

  lemma DeadlineLeaves(s: Sup, t: Tick, c: Config)
    ensures
      var passed := s.stop.None? && t.deadlineAt >= c.deadline;
      && (CheckDeadline(s, t, c).Fail? <==> passed && !t.deadlineSignalOk)
      && (CheckDeadline(s, t, c).Continue? ==>
            CheckDeadline(s, t, c).sup ==
            if passed then
              s.(stop := Some(Stop(DeadlinePassed, t.deadlineAt + 5_000)), signals := s.signals + [Term(t.deadlineAt)])
            else s)
  {
  }

  lemma GraceLeaves(s: Sup, t: Tick)
    ensures CheckGrace(s, t).Fail? <==>
              && s.stop.Some? && t.lateAt >= s.stop.value.hardDeadline
              && (t.lateEmpty.None? || (!t.lateEmpty.value && !t.lateKillOk))
    ensures CheckGrace(s, t).Continue? ==>
              CheckGrace(s, t).sup == if Overrun(s.stop, t) then s.(signals := s.signals + [Kill(t.lateAt)]) else s
  {
  }

  /** The variables before the four checks, and after the first two and three of them. */
  function Served(s: Sup, t: Tick): Sup
    requires |t.channel| == 64 && |t.written| == 64
  {
    var s1 := s.(received := Drain(s.received, t, 0).0);
    if t.control.Some? then Serve(s1, t.control.value, t.controlAt, false) else s1
  }

  lemma IterateUnfold(s: Sup, t: Tick, c: Config)
    requires |t.channel| == 64 && |t.written| == 64
    ensures
      var r := Watch(Served(s, t), t, c);
      var drained := Drain(s.received, t, 0).1;
      && (Iterate(s, t, c).Failing? <==>
            drained == DrainFailed || r.Fail? || (r.sup.exit.Some? && t.finalEmpty.None?))
      && (!Iterate(s, t, c).Failing? ==> Iterate(s, t, c).sup == r.sup)
      && (Iterate(s, t, c).Leave? ==> r.sup.exit.Some? && t.finalEmpty == Some(true) && drained == Closed)
      && (Iterate(s, t, c).Next? ==> !(r.sup.exit.Some? && t.finalEmpty == Some(true) && drained == Closed))
  {
    hide Drain, Serve, Watch;
  }

  /** What the four checks leave, of a job that may have been stopped before. */
  lemma WatchLeaves(s: Sup, t: Tick, c: Config)
    ensures
      var killed := c.memoryLimited && t.oomKilled == Some(true);
      var stop := if s.stop.Some? then s.stop
                  else if killed then Some(Stop(MemoryLimit, t.oomAt))
                  else if t.deadlineAt >= c.deadline then Some(Stop(DeadlinePassed, t.deadlineAt + 5_000))
                  else None;
      var signals := if s.stop.Some? || stop.None? then s.signals
                     else if killed then s.signals + [Kill(t.oomAt)] else s.signals + [Term(t.deadlineAt)];
      var exit := if s.exit.Some? then s.exit else if t.wait.Exited? then Some(t.wait.exit) else None;
      && (Watch(s, t, c).Fail? <==>
            || (s.exit.None? && t.wait.WaitFailed?)
            || (s.stop.None? && c.memoryLimited && (t.oomKilled.None? || (killed && !t.oomKillOk)))
            || (s.stop.None? && !killed && t.deadlineAt >= c.deadline && !t.deadlineSignalOk)
            || (stop.Some? && t.lateAt >= stop.value.hardDeadline
                && (t.lateEmpty.None? || (!t.lateEmpty.value && !t.lateKillOk))))
      && (Watch(s, t, c).Continue? ==>
            Watch(s, t, c).sup == s.(exit := exit, stop := stop,
                                     signals := if Overrun(stop, t) then signals + [Kill(t.lateAt)] else signals))
  {
    hide CheckMemory, CheckDeadline, CheckGrace;
    var s1 := CheckExit(s, t).sup;
    MemoryLeaves(s1, t, c);
    if CheckExit(s, t).Continue? && CheckMemory(s1, t, c).Continue? {
      var s2 := CheckMemory(s1, t, c).sup;
      DeadlineLeaves(s2, t, c);
      if CheckDeadline(s2, t, c).Continue? {
        GraceLeaves(CheckDeadline(s2, t, c).sup, t);
      }
    }
  }

  /** What an iteration that does not fail leaves. */
  lemma IterationExactly(s: Sup, t: Tick, c: Config)
    requires |t.channel| == 64 && |t.written| == 64 && !Iterate(s, t, c).Failing?
    ensures
      var s' := Iterate(s, t, c).sup;
      && s'.stop == StopAfter(s.stop, t, c)
      && s'.exit == (if s.exit.Some? then s.exit else if t.wait.Exited? then Some(t.wait.exit) else None)
      && s'.signals == s.signals + (if s.stop.None? then StopSignal(t, c) else [])
                       + (if Overrun(s'.stop, t) then [Kill(t.lateAt)] else [])
      && s'.receipts == s.receipts + Receipts(s.stop, t.control)
      && (Iterate(s, t, c).Leave? <==>
            s'.exit.Some? && t.finalEmpty == Some(true) && Drain(s.received, t, 0).1 == Closed)
  {
    hide Drain, Serve, Iterate, Watch, Accepted, Receipts, Overrun;
    IterateUnfold(s, t, c);
    ServeLeaves(s.(received := Drain(s.received, t, 0).0), t.control, t.controlAt);
    WatchLeaves(Served(s, t), t, c);
    assert forall x: seq<Signal> :: x + [] == x;
  }

  /** Which failed system call ends the loop: each is looked at only where it is made. */
  lemma FailsExactly(s: Sup, t: Tick, c: Config)
    requires |t.channel| == 64 && |t.written| == 64
    ensures
      var stopped := s.stop.Some? || (t.control.Some? && Accepted(t.control.value));
      var killed := c.memoryLimited && t.oomKilled == Some(true);
      var stop := StopAfter(s.stop, t, c);
      Iterate(s, t, c).Failing? <==>
        || Drain(s.received, t, 0).1 == DrainFailed
        || (s.exit.None? && t.wait.WaitFailed?)
        || (!stopped && c.memoryLimited && (t.oomKilled.None? || (killed && !t.oomKillOk)))
        || (!stopped && !killed && t.deadlineAt >= c.deadline && !t.deadlineSignalOk)
        || (stop.Some? && t.lateAt >= stop.value.hardDeadline
            && (t.lateEmpty.None? || (!t.lateEmpty.value && !t.lateKillOk)))
        || ((s.exit.Some? || t.wait.Exited?) && t.finalEmpty.None?)
  {
    hide Drain, Serve, Iterate, Watch, Accepted, Receipts, Overrun;
    IterateUnfold(s, t, c);
    ServeLeaves(s.(received := Drain(s.received, t, 0).0), t.control, t.controlAt);
    WatchLeaves(Served(s, t), t, c);
  }

  // ----- whole runs

  ghost predicate Sized(ticks: seq<Tick>) {
    forall k :: 0 <= k < |ticks| ==> |ticks[k].channel| == 64 && |ticks[k].written| == 64
  }

  /** How many iterations a loop that did not fail has completed. */
  function Completed(loop: Loop, ticks: seq<Tick>): nat {
    if loop.Ended? then loop.last + 1 else |ticks|
  }

  /** The loop ends at or after the iteration it is at. */
  lemma {:induction false} CompletedFrom(s: Sup, ticks: seq<Tick>, i: nat, c: Config)
    requires Sized(ticks) && i <= |ticks| && !RunLoop(s, ticks, i, c).LoopFailed?
    ensures i <= Completed(RunLoop(s, ticks, i, c), ticks) <= |ticks|
    ensures i < |ticks| ==> i < Completed(RunLoop(s, ticks, i, c), ticks)
    decreases |ticks| - i
  {
    hide Iterate;
    if i < |ticks| && Iterate(s, ticks[i], c).Next? {
      CompletedFrom(Iterate(s, ticks[i], c).sup, ticks, i + 1, c);
    }
  }

  /** Nothing in iterations `i` to `n` stops a job. */
  ghost predicate Undisturbed(ticks: seq<Tick>, i: nat, n: nat, c: Config)
    requires i <= n <= |ticks|
  {
    forall k :: i <= k < n ==> StopAt(ticks[k], c).None?
  }

  lemma {:induction false} LoopStop(s: Sup, ticks: seq<Tick>, i: nat, c: Config)
    requires Sized(ticks) && i <= |ticks| && !RunLoop(s, ticks, i, c).LoopFailed?
    ensures i <= Completed(RunLoop(s, ticks, i, c), ticks) <= |ticks|
    ensures
      var (n, end) := (Completed(RunLoop(s, ticks, i, c), ticks), RunLoop(s, ticks, i, c).sup);
      && (s.stop.Some? ==> end.stop == s.stop)
      && (s.stop.None? ==> (end.stop.None? <==> Undisturbed(ticks, i, n, c)))
      && (forall k :: s.stop.None? && i <= k < n && StopAt(ticks[k], c).Some? && Undisturbed(ticks, i, k, c) ==>
            end.stop == StopAt(ticks[k], c))
    decreases |ticks| - i
  {
    hide Iterate, StopAt;
    CompletedFrom(s, ticks, i, c);
    if i < |ticks| {
      IterationExactly(s, ticks[i], c);
      var s' := Iterate(s, ticks[i], c).sup;
      if Iterate(s, ticks[i], c).Next? {
        LoopStop(s', ticks, i + 1, c);
        assert RunLoop(s, ticks, i, c) == RunLoop(s', ticks, i + 1, c);
        var n := Completed(RunLoop(s, ticks, i, c), ticks);
        if s.stop.None? {
          forall k | i <= k <= n
            ensures Undisturbed(ticks, i, k, c) <==>
                      k == i || (StopAt(ticks[i], c).None? && Undisturbed(ticks, i + 1, k, c))
          {
          }
        }
      }
    }
  }

  /** A run that has not failed has a stop reason exactly when some iteration of it saw an
      accepted cancel, a memory kill or the deadline gone by; it is the first such iteration's. */
  lemma StoppedExactly(ticks: seq<Tick>, c: Config)
    requires Sized(ticks) && !RunLoop(START, ticks, 0, c).LoopFailed?
    ensures
      var (loop, n) := (RunLoop(START, ticks, 0, c), Completed(RunLoop(START, ticks, 0, c), ticks));
      && n <= |ticks|
      && (loop.sup.stop.None? <==> forall k :: 0 <= k < n ==> StopAt(ticks[k], c).None?)
      && (forall k :: 0 <= k < n && StopAt(ticks[k], c).Some?
                      && (forall j :: 0 <= j < k ==> StopAt(ticks[j], c).None?) ==>
            loop.sup.stop == StopAt(ticks[k], c))
  {
    hide RunLoop, StopAt;
    LoopStop(START, ticks, 0, c);
  }

  lemma {:induction false} SignalsStay(s: Sup, ticks: seq<Tick>, i: nat, c: Config)
    requires Sized(ticks) && i <= |ticks| && !RunLoop(s, ticks, i, c).LoopFailed?
    ensures s.signals <= RunLoop(s, ticks, i, c).sup.signals
    decreases |ticks| - i
  {
    hide Iterate;
    if i < |ticks| {
      IterationExactly(s, ticks[i], c);
      if Iterate(s, ticks[i], c).Next? {
        SignalsStay(Iterate(s, ticks[i], c).sup, ticks, i + 1, c);
      }
    }
  }

  lemma StopStays(s: Sup, ticks: seq<Tick>, i: nat, c: Config)
    requires Sized(ticks) && i <= |ticks| && !RunLoop(s, ticks, i, c).LoopFailed? && s.stop.Some?
    ensures RunLoop(s, ticks, i, c).sup.stop == s.stop
  {
    hide RunLoop;
    LoopStop(s, ticks, i, c);
  }

  lemma {:induction false} OverrunFrom(s: Sup, ticks: seq<Tick>, i: nat, c: Config, j: nat, k: nat)
    requires Sized(ticks) && i <= |ticks| && !RunLoop(s, ticks, i, c).LoopFailed?
    requires i <= k < Completed(RunLoop(s, ticks, i, c), ticks) <= |ticks|
    requires s.stop.Some? || (i <= j <= k && StopAt(ticks[j], c).Some?)
    requires Overrun(RunLoop(s, ticks, i, c).sup.stop, ticks[k])
    ensures Kill(ticks[k].lateAt) in RunLoop(s, ticks, i, c).sup.signals
    decreases |ticks| - i
  {
    hide Iterate, StopAt, Overrun;
    IterationExactly(s, ticks[i], c);
    var s' := Iterate(s, ticks[i], c).sup;
    if Overrun(s'.stop, ticks[i]) {
      assert s'.signals[|s'.signals| - 1] == Kill(ticks[i].lateAt);
    }
    if Iterate(s, ticks[i], c).Next? {
      if s'.stop.Some? {
        StopStays(s', ticks, i + 1, c);
      }
      if k == i {
        SignalsStay(s', ticks, i + 1, c);
      } else {
        OverrunFrom(s', ticks, i + 1, c, j, k);
      }
    }
  }

  /** A job that is still there after the grace period of its stop reason is killed: in every run
      that has not failed, at every iteration from the one that stopped it on. */
  lemma OverrunsAreKilled(ticks: seq<Tick>, c: Config, j: nat, k: nat)
    requires Sized(ticks) && !RunLoop(START, ticks, 0, c).LoopFailed?
    requires j <= k < Completed(RunLoop(START, ticks, 0, c), ticks) && k < |ticks|
    requires StopAt(ticks[j], c).Some? && ticks[k].lateEmpty == Some(false)
    ensures
      var end := RunLoop(START, ticks, 0, c).sup;
      end.stop.Some? && (ticks[k].lateAt >= end.stop.value.hardDeadline ==> Kill(ticks[k].lateAt) in end.signals)
  {
    hide RunLoop, StopAt;
    LoopStop(START, ticks, 0, c);
    var end := RunLoop(START, ticks, 0, c).sup;
    if Overrun(end.stop, ticks[k]) {
      OverrunFrom(START, ticks, 0, c, j, k);
    }
  }

  lemma {:induction false} LoopExit(s: Sup, ticks: seq<Tick>, i: nat, c: Config)
    requires Sized(ticks) && i <= |ticks| && !RunLoop(s, ticks, i, c).LoopFailed?
    ensures i <= Completed(RunLoop(s, ticks, i, c), ticks) <= |ticks|
    ensures
      var (n, end) := (Completed(RunLoop(s, ticks, i, c), ticks), RunLoop(s, ticks, i, c).sup);
      && (s.exit.Some? ==> end.exit == s.exit)
      && (forall k :: s.exit.None? && i <= k < n && ticks[k].wait.Exited? && NoExit(ticks, i, k) ==>
            end.exit == Some(ticks[k].wait.exit))
    decreases |ticks| - i
  {
    hide Iterate, StopAt;
    CompletedFrom(s, ticks, i, c);
    if i < |ticks| {
      IterationExactly(s, ticks[i], c);
      var s' := Iterate(s, ticks[i], c).sup;
      if Iterate(s, ticks[i], c).Next? {
        LoopExit(s', ticks, i + 1, c);
      }
    }
  }

  ghost predicate NoExit(ticks: seq<Tick>, i: nat, n: nat)
    requires i <= n <= |ticks|
  {
    forall k :: i <= k < n ==> !ticks[k].wait.Exited?
  }

  // ----- the report

  /** How a job is reported: by its stop reason if it has one, else by its exit status. */
  predicate Reports(stop: Option<Stop>, success: bool, state: JobState, reason: string) {
    && ((stop.None? && success) <==> (state == Succeeded && reason == "exited"))
    && ((stop.None? && !success) <==> (state == Failed && reason == "nonzero_exit"))
    && ((stop.Some? && stop.value.reason == CancelRequested) <==>
          (state == JobState.Cancelled && reason == "cancelled"))
    && ((stop.Some? && stop.value.reason == DeadlinePassed) <==> (state == TimedOut && reason == "deadline"))
    && ((stop.Some? && stop.value.reason == MemoryLimit) <==> (state == Failed && reason == "memory_limit"))
  }

  lemma ResultReports(stop: Option<Stop>, success: bool)
    ensures
      var reason := if stop.None? then None else Some(stop.value.reason);
      Reports(stop, success, TerminalResult(reason, success).0, TerminalResult(reason, success).1)
  {
    assert "memory_limit"[0] == 'm' && "nonzero_exit"[0] == 'n';
  }

  /** A run that ended is reported as a success exactly when no iteration of it stopped the job
      and the first exit status seen is a success. */
  lemma SucceedsExactly(ticks: seq<Tick>, c: Config, k: nat)
    requires Sized(ticks) && RunLoop(START, ticks, 0, c).Ended?
    requires k <= RunLoop(START, ticks, 0, c).last && k < |ticks| && ticks[k].wait.Exited?
    requires forall j :: 0 <= j < k ==> !ticks[j].wait.Exited?
    ensures
      var Ended(end, last) := RunLoop(START, ticks, 0, c);
      && last < |ticks| && end.exit.Some?
      && (TerminalResult(ReasonOf(end), end.exit.value.success).0 == Succeeded <==>
            ticks[k].wait.exit.success && forall j :: 0 <= j <= last ==> StopAt(ticks[j], c).None?)
  {
    hide RunLoop, StopAt;
    StoppedExactly(ticks, c);
    LoopExit(START, ticks, 0, c);
    assert NoExit(ticks, 0, k);
    var end := RunLoop(START, ticks, 0, c).sup;
    ResultReports(end.stop, end.exit.value.success);
  }
}
