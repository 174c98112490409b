/**
 Job states and the durable store of one job's status.
 */
module Jobs {

  datatype JobState = Accepted | Starting | Running | Succeeded | Failed | Cancelled | TimedOut | Lost

  predicate IsTerminal(s: JobState) {
    s in {Succeeded, Failed, Cancelled, TimedOut, Lost}
  }

  predicate CanTransition(from: JobState, next: JobState) {
    || (from == Accepted && next in {Starting, Failed, Lost})
    || (from == Starting && next in {Running, Failed, Lost})
    || (from == Running && next in {Succeeded, Failed, Cancelled, TimedOut, Lost})
  }

  /** A sequence of states each of which may follow the one before. */
  ghost predicate IsPath(log: seq<JobState>) {
    forall i :: 0 <= i < |log| - 1 ==> CanTransition(log[i], log[i + 1])
  }

  function Level(s: JobState): nat {
    match s case Accepted => 0 case Starting => 1 case Running => 2 case _ => 3
  }

  /** A job that is not over moves one level on, or fails, or is lost. */
  lemma TransitionsExactly(from: JobState, next: JobState)
    ensures IsTerminal(from) <==> Level(from) == 3
    ensures CanTransition(from, next) <==>
              !IsTerminal(from) && (Level(next) == Level(from) + 1 || next == Failed || next == Lost)
  {
  }

  /** Along a path states only move forward, so it has no repetition, at most four states, and
      a terminal state only at its end. */
  lemma {:induction false} PathForward(log: seq<JobState>, i: nat, j: nat)
    requires IsPath(log) && i < j < |log|
    ensures Level(log[i]) + (j - i) <= Level(log[j]) && !IsTerminal(log[i])
    decreases j - i
  {
    assert CanTransition(log[i], log[i + 1]);
    if i + 1 < j {
      PathForward(log, i + 1, j);
    }
  }

  class JobStore {
    var state: JobState
    var outputCursor: nat
    var outputTruncated: bool
    /** Every state the job has been in, oldest first. */
    ghost var log: seq<JobState>

    ghost predicate Valid()
      reads this
    {
      log != [] && log[|log| - 1] == state && IsPath(log) && log[0] == Accepted
    }

    constructor ()
      ensures Valid() && state == Accepted && log == [Accepted] && outputCursor == 0 && !outputTruncated
    {
      state, outputCursor, outputTruncated, log := Accepted, 0, false, [Accepted];
    }

    /** `transition`: refused unless the state graph allows it; a failed write changes nothing. */
    method Transition(next: JobState, persists: bool) returns (ok: bool)
      requires Valid()
      modifies this
      ensures Valid() && outputCursor == old(outputCursor) && outputTruncated == old(outputTruncated)
      ensures ok <==> CanTransition(old(state), next) && persists
      ensures ok ==> state == next && log == old(log) + [next]
      ensures !ok ==> state == old(state) && log == old(log)
    {
      if !CanTransition(state, next) || !persists {
        return false;
      }
      state := next;
      log := log + [next];
      ok := true;
    }

    /** `advance_output`: the cursor never moves back and never moves once the job is over. */
    method AdvanceOutput(cursor: nat, truncated: bool, persists: bool) returns (ok: bool)
      requires Valid()
      modifies this`outputCursor, this`outputTruncated
      ensures ok <==> old(outputCursor) <= cursor && !IsTerminal(state) && persists
      ensures ok ==> outputCursor == cursor && outputTruncated == (old(outputTruncated) || truncated)
      ensures !ok ==> outputCursor == old(outputCursor) && outputTruncated == old(outputTruncated)
    {
      if cursor < outputCursor || IsTerminal(state) || !persists {
        return false;
      }
      outputCursor := cursor;
      outputTruncated := outputTruncated || truncated;
      ok := true;
    }
  }
}
