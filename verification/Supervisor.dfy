/**
 The per-job supervisor, as the program runs it: its variables, the durable job store and the
 output spool, updated step by step.
 */
module Supervisor {
  import opened Jobs
  import opened Spool
  import opened StopLaws
  import opened SupervisorRuns
  import opened Utf8

  datatype RunResult = Finished(state: JobState, reason: string) | LaunchFailed | Broken | Unfinished

  class Supervisor {
    const store: JobStore
    const spool: Spool
    const sent: seq<Chunk>
    var received: nat
    var stop: Option<Stop>
    var exit: Option<Exit>
    var receipts: seq<bool>
    var signals: seq<Signal>

    function View(): Sup
      reads this
    {
      Sup(received, stop, exit, receipts, signals)
    }

    /** The spool has been given the chunks in channel order, each once, and the store's cursor
        and truncation mark are the spool's. */
    ghost predicate Valid()
      reads this`received, store, spool
    {
      && store.Valid() && spool.Valid()
      && received <= |sent| && spool.received == sent[..received]
      && store.outputCursor == |spool.frames| && store.outputTruncated == spool.truncated
    }

    constructor (store: JobStore, spool: Spool, sent: seq<Chunk>)
      requires store.Valid() && spool.Valid() && spool.received == [] && spool.frames == [] && !spool.truncated
      requires store.outputCursor == 0 && !store.outputTruncated
      ensures Valid() && this.store == store && this.spool == spool && this.sent == sent
      ensures View() == START
    {
      this.store, this.spool, this.sent := store, spool, sent;
      received, stop, exit, receipts, signals := 0, None, None, [], [];
    }

    /** `drain_output`: at most 64 chunks; says whether the channel was found closed and empty. */
    method DrainOutput(t: Tick) returns (r: Drained)
      requires Valid() && Possible(t, sent) && !IsTerminal(store.state)
      modifies this`received, store, spool
      ensures Valid() && store.state == old(store.state) && store.log == old(store.log)
      ensures (received, r) == Drain(old(received), t, 0)
    {
      for j := 0 to DRAIN_LIMIT
        invariant Valid() && store.state == old(store.state) && store.log == old(store.log)
        invariant Drain(received, t, j) == Drain(old(received), t, 0)
      {
        if received < t.channel[j].put {
          if !t.written[j] {
            return DrainFailed;
          }
          assert sent[..received] + [sent[received]] == sent[..received + 1];
          var next, cut := spool.Append(sent[received]);
          received := received + 1;
          var ok := store.AdvanceOutput(next, cut, true);
        } else if t.channel[j].closed {
          return Closed;
        } else {
          return Open;
        }
      }
      r := Open;
    }

    /** `handle_control`.  Only a cancel can set the stop reason, and only the first one. */
    method HandleControl(c: Control, at: nat)
      modifies this`stop, this`receipts, this`signals
      ensures View() == Serve(old(View()), c, at, IsTerminal(store.state))
      ensures IsTerminal(store.state) ==>
                && stop == old(stop) && signals == old(signals)
                && receipts == old(receipts) + if c.Cancel? then [true] else []
    {
      if !c.Cancel? || (!IsTerminal(store.state) && c.payloadEmpty.None?) {
        return;
      }
      var alreadyTerminal := IsTerminal(store.state) || c.payloadEmpty.value;
      if !alreadyTerminal && stop.None? {
        var grace := if c.graceMs.Some? then c.graceMs.value else DEFAULT_CANCEL_GRACE_MS;
        if grace > MAX_CANCEL_GRACE_MS || !c.signalled {
          return;
        }
        signals := signals + [Term(at)];
        stop := Some(Stop(CancelRequested, at + grace));
      }
      receipts := receipts + [alreadyTerminal];
    }

    /** The first look at the exit status. */
    method WatchExit(t: Tick) returns (ok: bool)
      modifies this`exit
      ensures ok == CheckExit(old(View()), t).Continue?
      ensures View() == CheckExit(old(View()), t).sup
    {
      if exit.None? {
        if t.wait.WaitFailed? {
          return false;
        }
        exit := if t.wait.Exited? then Some(t.wait.exit) else None;
      }
      ok := true;
    }

    /** A job whose cgroup ran out of memory is killed at once. */
    method WatchMemory(t: Tick, c: Config) returns (ok: bool)
      modifies this`stop, this`signals
      ensures ok == CheckMemory(old(View()), t, c).Continue?
      ensures View() == CheckMemory(old(View()), t, c).sup
    {
      if stop.None? && c.memoryLimited {
        if t.oomKilled.None? {
          return false;
        }
        if t.oomKilled.value {
          if !t.oomKillOk {
            return false;
          }
          signals := signals + [Kill(t.oomAt)];
          stop := Some(Stop(MemoryLimit, t.oomAt));
        }
      }
      ok := true;
    }

    method WatchDeadline(t: Tick, c: Config) returns (ok: bool)
      modifies this`stop, this`signals
      ensures ok == CheckDeadline(old(View()), t, c).Continue?
      ensures View() == CheckDeadline(old(View()), t, c).sup
    {
      if stop.None? && t.deadlineAt >= c.deadline {
        if !t.deadlineSignalOk {
          return false;
        }
        signals := signals + [Term(t.deadlineAt)];
        stop := Some(Stop(DeadlinePassed, t.deadlineAt + DEFAULT_CANCEL_GRACE_MS));
      }
      ok := true;
    }

    /** What is left of a stopped job after its grace period is killed. */
    method WatchGrace(t: Tick) returns (ok: bool)
      modifies this`signals
      ensures ok == CheckGrace(old(View()), t).Continue?
      ensures View() == CheckGrace(old(View()), t).sup
    {
      if stop.Some? && t.lateAt >= stop.value.hardDeadline {
        if t.lateEmpty.None? {
          return false;
        }
        if !t.lateEmpty.value {
          if !t.lateKillOk {
            return false;
          }
          signals := signals + [Kill(t.lateAt)];
        }
      }
      ok := true;
    }

    /** The four checks, in the order the loop makes them; false when a system call failed. */
    method WatchJob(t: Tick, c: Config) returns (ok: bool)
      modifies this`stop, this`exit, this`signals
      ensures ok == Watch(old(View()), t, c).Continue?
      ensures View() == Watch(old(View()), t, c).sup
    {
      hide CheckExit, CheckMemory, CheckDeadline, CheckGrace;
      ok := WatchExit(t);
      if ok {
        ok := WatchMemory(t, c);
      }
      if ok {
        ok := WatchDeadline(t, c);
      }
      if ok {
        ok := WatchGrace(t);
      }
    }

    /** The main loop of `run`. */
    method MainLoop(ticks: seq<Tick>, c: Config) returns (ended: bool, failed: bool)
      requires Valid() && AllPossible(ticks, sent) && store.state == Running
      modifies this, store, spool
      ensures Valid() && store.state == Running && store.log == old(store.log)
      ensures ended <==> RunLoop(old(View()), ticks, 0, c).Ended?
      ensures failed <==> RunLoop(old(View()), ticks, 0, c).LoopFailed?
      ensures View() == RunLoop(old(View()), ticks, 0, c).sup
    {
      hide Drain, Serve, Watch, Content, FrameContent, WellNumbered, IsPath;
      var i := 0;
      while i < |ticks|
        invariant i <= |ticks| && Valid() && store.state == Running && store.log == old(store.log)
        invariant RunLoop(View(), ticks, i, c) == RunLoop(old(View()), ticks, 0, c)
      {
        var t := ticks[i];
        var drained := DrainOutput(t);
        if drained == DrainFailed {
          return false, true;
        }
        if t.control.Some? {
          HandleControl(t.control.value, t.controlAt);
        }
        var ok := WatchJob(t, c);
        if !ok {
          return false, true;
        }
        if exit.Some? {
          if t.finalEmpty.None? {
            return false, true;
          }
          if t.finalEmpty.value && drained == Closed {
            return true, false;
          }
        }
        i := i + 1;
      }
      ended, failed := false, false;
    }

    /** `run`, from the accepted job to its terminal state: every completed run's states are a
        path of the state graph with one terminal state, last; and when the job finished, all
        its output was handed to the spool, in channel order.  The last three arguments say
        whether the store writes the starting, the running and the terminal state. */
    method Run(ticks: seq<Tick>, c: Config, launched: bool, starting: bool, running: bool, ending: bool)
      returns (r: RunResult)
      requires Valid() && View() == START && store.log == [Accepted] && AllPossible(ticks, sent)
      modifies this, store, spool
      ensures Valid()
      ensures r.Finished? <==> starting && launched && running && ending && RunLoop(START, ticks, 0, c).Ended?
      ensures View() == if starting && launched && running then RunLoop(START, ticks, 0, c).sup else START
      ensures r.Finished? ==>
                && exit.Some?
                && Reports(stop, exit.value.success, r.state, r.reason)
                && store.log == [Accepted, Starting, Running, r.state] && IsTerminal(r.state)
                && spool.received == sent
      ensures r.LaunchFailed? <==> starting && !launched && ending
      ensures r.LaunchFailed? ==> store.log == [Accepted, Starting, Failed]
      ensures r.Unfinished? <==> starting && launched && running && RunLoop(START, ticks, 0, c).StillGoing?
    {
      hide RunLoop, Reports;
      var ok := store.Transition(Starting, starting);
      if !ok {
        return Broken;
      }
      if !launched {
        ok := store.Transition(Failed, ending);
        return if ok then LaunchFailed else Broken;
      }
      ok := store.Transition(Running, running);
      if !ok {
        return Broken;
      }
      var ended, failed := MainLoop(ticks, c);
      if !ended {
        return if failed then Broken else Unfinished;
      }
      StartInv(sent);
      LoopEnds(START, ticks, 0, c, sent);
      var (state, reason) := TerminalResult(ReasonOf(View()), exit.value.success);
      ResultIsTerminal(ReasonOf(View()), exit.value.success);
      ResultReports(stop, exit.value.success);
      ok := store.Transition(state, ending);
      assert sent[..|sent|] == sent;
      r := if ok then Finished(state, reason) else Broken;
    }
  }

  lemma StartInv(sent: seq<Chunk>)
    ensures SupervisorRuns.Inv(START, sent)
  {
  }
}
