/**
 What the registry does with each message, and that no message is lost: every call read is a
 task or a refusal, every other request has its answer, and every task can come to its end.
 */
module McpLaws {
  import opened Mcp
  import opened Utf8

  // ----- every message is accounted for

  function Calls(script: seq<Message>): nat {
    if script == [] then 0 else Calls(script[..|script| - 1]) + if script[|script| - 1].Call? then 1 else 0
  }

  function Others(script: seq<Message>): nat {
    if script == [] then 0 else Others(script[..|script| - 1]) + if script[|script| - 1].Other? then 1 else 0
  }

  function Refusals(outbox: seq<Answer>): nat {
    if outbox == [] then 0 else Refusals(outbox[..|outbox| - 1]) + if outbox[|outbox| - 1].Refusal? then 1 else 0
  }

  function Directs(outbox: seq<Answer>): nat {
    if outbox == [] then 0 else Directs(outbox[..|outbox| - 1]) + if outbox[|outbox| - 1].Direct? then 1 else 0
  }

  predicate Accounted(s: State) {
    && s.pos <= |s.script|
    && Calls(s.script[..s.pos]) == |s.tasks| + Refusals(s.outbox)
    && Others(s.script[..s.pos]) == Directs(s.outbox)
  }

  lemma AppendAnswer(outbox: seq<Answer>, a: Answer)
    ensures Refusals(outbox + [a]) == Refusals(outbox) + if a.Refusal? then 1 else 0
    ensures Directs(outbox + [a]) == Directs(outbox) + if a.Direct? then 1 else 0
  {
    assert (outbox + [a])[..|outbox|] == outbox;
  }

  lemma MoveAccounted(s: State, m: Move)
    requires Accounted(s) && Enabled(s, m)
    ensures Accounted(Apply(s, m))
  {
    hide Refusals, Directs;
    match m {
      case Read =>
        assert s.script[..s.pos + 1][..s.pos] == s.script[..s.pos];
        match s.script[s.pos] {
          case Call(key) => AppendAnswer(s.outbox, Refusal(key));
          case Other => AppendAnswer(s.outbox, Direct);
          case Cancel(_) =>
        }
      case Send(i) => AppendAnswer(s.outbox, Response(i));
      case _ =>
    }
  }

  /** In every run, the calls read so far are the tasks started and the refusals sent, and the
      other requests read so far are the direct answers sent. */
  lemma {:induction false} EveryMessageCounts(s: State, moves: seq<Move>)
    requires Accounted(s) && Exec(s, moves).Some?
    ensures Accounted(Exec(s, moves).value)
    decreases |moves|
  {
    hide Accounted, Apply;
    if moves != [] {
      MoveAccounted(s, moves[0]);
      EveryMessageCounts(Apply(s, moves[0]), moves[1..]);
    }
  }

  lemma RunAccounted(script: seq<Message>, moves: seq<Move>)
    requires Exec(Init(script), moves).Some?
    ensures Accounted(Exec(Init(script), moves).value)
  {
    hide Exec;
    assert script[..0] == [];
    EveryMessageCounts(Init(script), moves);
  }

  // ----- one message

  /** A call under a free id starts a task and registers it; under a registered id it is refused. */
  lemma CallRead(s: State, key: string)
    requires Enabled(s, Read) && s.script[s.pos] == Call(key)
    ensures
      var s' := Apply(s, Read);
      && s'.pos == s.pos + 1 && s'.open && s'.script == s.script
      && (key in s.registry ==>
            s'.registry == s.registry && s'.tasks == s.tasks && s'.outbox == s.outbox + [Refusal(key)])
      && (key !in s.registry ==>
            && s'.tasks == s.tasks + [Task(key, s.pos, Running, Registered)]
            && s'.registry == s.registry[key := |s.tasks|] && s'.outbox == s.outbox)
  {
  }

  /** A cancellation takes its call out of the registry, so that its task can be aborted while it
      awaits its tool; nothing is answered, and an unknown id is passed over. */
  lemma CancelRead(s: State, key: string)
    requires Inv(s) && Enabled(s, Read) && s.script[s.pos] == Cancel(key)
    ensures
      var s' := Apply(s, Read);
      && s'.pos == s.pos + 1 && s'.outbox == s.outbox && key !in s'.registry && |s'.tasks| == |s.tasks|
      && (forall k :: k != key ==>
            (k in s'.registry <==> k in s.registry) && (k in s.registry ==> s'.registry[k] == s.registry[k]))
      && (forall i :: 0 <= i < |s.tasks| ==>
            if key in s.registry && s.registry[key] == i then
              s'.tasks[i] == Task(key, s.tasks[i].born, s.tasks[i].phase, Cancelled(s.pos))
              && (s.tasks[i].phase == Running ==> Enabled(s', Abort(i)))
            else s'.tasks[i] == s.tasks[i])
  {
    hide TaskInv;
  }

  /** At end of input exactly the calls still registered are taken out and may be aborted. */
  lemma InputEnds(s: State)
    requires Enabled(s, EndOfInput)
    ensures
      var s' := Apply(s, EndOfInput);
      && !s'.open && s'.registry == map[] && s'.outbox == s.outbox && |s'.tasks| == |s.tasks|
      && (forall i :: 0 <= i < |s.tasks| ==>
            && s'.tasks[i].key == s.tasks[i].key && s'.tasks[i].phase == s.tasks[i].phase
            && s'.tasks[i].fate == (if s.tasks[i].fate == Registered then Drained else s.tasks[i].fate)
            && (s.tasks[i].fate == Registered && s.tasks[i].phase == Running ==> Enabled(s', Abort(i))))
  {
  }

  // ----- every task can come to its end

  /** A registered call whose tool is done answers, and frees its id. */
  lemma CallAnswers(s: State, i: nat)
    requires Inv(s) && i < |s.tasks| && s.tasks[i].fate == Registered && s.tasks[i].phase == Running
    ensures Exec(s, [Finish(i), Lock(i), Send(i)]).Some?
    ensures
      var s' := Exec(s, [Finish(i), Lock(i), Send(i)]).value;
      && s'.outbox == s.outbox + [Response(i)] && s'.registry == s.registry - {s.tasks[i].key}
      && s'.tasks == s.tasks[i := Task(s.tasks[i].key, s.tasks[i].born, Done, Claimed)]
  {
    hide Inv;
    RegisteredHolds(s, i);
    var s1 := Apply(s, Finish(i));
    var s2 := Apply(s1, Lock(i));
    One(s2, Send(i));
    assert [Finish(i), Lock(i), Send(i)][1..] == [Lock(i), Send(i)] && [Lock(i), Send(i)][1..] == [Send(i)];
  }

  lemma RegisteredHolds(s: State, i: nat)
    requires Inv(s) && i < |s.tasks| && s.tasks[i].fate == Registered
    ensures s.tasks[i].key in s.registry && s.registry[s.tasks[i].key] == i
  {
    assert TaskInv(s, i);
  }

  /** Moves a task still has before it. */
  function Left(t: Task): nat {
    match t.phase case Running => 3 case Ready => 2 case Won => 1 case _ => 0
  }

  /** The next move of a task that has not ended is always possible and brings it nearer. */
  lemma TaskMoves(s: State, i: nat) returns (m: Move)
    requires i < |s.tasks| && s.tasks[i].phase !in {Done, Lost, Aborted}
    ensures Enabled(s, m) && |Apply(s, m).tasks| == |s.tasks| && Left(Apply(s, m).tasks[i]) < Left(s.tasks[i])
    ensures forall j :: 0 <= j < |s.tasks| && j != i ==> Apply(s, m).tasks[j].phase == s.tasks[j].phase
  {
    match s.tasks[i].phase {
      case Running => m := Finish(i);
      case Ready => m := Lock(i);
      case Won => m := Send(i);
    }
  }

  /** What all tasks together have before them. */
  function Work(tasks: seq<Task>): nat {
    if tasks == [] then 0 else Work(tasks[..|tasks| - 1]) + Left(tasks[|tasks| - 1])
  }

  predicate AtRest(s: State) {
    !s.open && forall i :: 0 <= i < |s.tasks| ==> s.tasks[i].phase in {Done, Lost, Aborted}
  }

  lemma {:induction false} WorkSmaller(a: seq<Task>, b: seq<Task>, i: nat)
    requires |a| == |b| && i < |a| && Left(b[i]) < Left(a[i])
    requires forall j :: 0 <= j < |a| && j != i ==> b[j].phase == a[j].phase
    ensures Work(b) < Work(a)
  {
    var n := |a| - 1;
    if i < n {
      WorkSmaller(a[..n], b[..n], i);
    } else {
      SameWork(a[..n], b[..n]);
    }
  }

  lemma {:induction false} SameWork(a: seq<Task>, b: seq<Task>)
    requires |a| == |b| && forall j :: 0 <= j < |a| ==> b[j].phase == a[j].phase
    ensures Work(b) == Work(a)
  {
    if a != [] {
      SameWork(a[..|a| - 1], b[..|b| - 1]);
    }
  }

  /** No state is stuck: from wherever a run has come, the tasks can be brought to rest once the
      input has ended. */
  lemma {:induction false} ComesToRest(s: State) returns (moves: seq<Move>)
    requires !s.open
    ensures Exec(s, moves).Some? && AtRest(Exec(s, moves).value)
    decreases Work(s.tasks)
  {
    hide Apply, Enabled, Left, Work;
    if i :| 0 <= i < |s.tasks| && s.tasks[i].phase !in {Done, Lost, Aborted} {
      var m := TaskMoves(s, i);
      var s' := Apply(s, m);
      StaysClosed(s, m);
      WorkSmaller(s.tasks, s'.tasks, i);
      var more := ComesToRest(s');
      moves := [m] + more;
      assert moves[0] == m && moves[1..] == more;
    } else {
      moves := [];
    }
  }

  lemma StaysClosed(s: State, m: Move)
    requires Enabled(s, m) && !s.open
    ensures !Apply(s, m).open
  {
  }
}
