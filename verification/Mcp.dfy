/**
 The MCP server's call registry: the reader, one task per call and cancellation race on a
 locked map.  A run is any interleaving of their steps.  Removing an entry and sending the
 answer are separate steps, and an abort does not stop a task past its last await.
 */
module Mcp {
  import opened Utf8

  /** Client messages, as far as the registry can tell them apart; a key is a request id's
      JSON text. */
  datatype Message = Call(key: string) | Cancel(key: string) | Other

  /** Where a task's code is. */
  datatype Phase =
    | Running   // awaiting the tool
    | Ready     // past its last await, before it takes the lock
    | Won       // its removal found an entry; the answer is still to be sent
    | Done      // answer sent
    | Lost      // its removal found nothing
    | Aborted   // the abort took effect while it was awaiting

  /** What became of a task's own registry entry. */
  datatype Fate =
    | Registered
    | Claimed             // removed by a finishing task
    | Cancelled(at: nat)  // removed by the cancellation at this input position
    | Drained             // removed at end of input

  datatype Task = Task(key: string, born: nat, phase: Phase, fate: Fate)

  datatype Answer = Response(task: nat) | Refusal(key: string) | Direct

  datatype State = State(
    script: seq<Message>,
    pos: nat,
    open: bool,
    registry: map<string, nat>,
    tasks: seq<Task>,
    outbox: seq<Answer>)

  datatype Move = Read | EndOfInput | Finish(task: nat) | Abort(task: nat) | Lock(task: nat) | Send(task: nat)

  function Init(script: seq<Message>): State {
    State(script, 0, true, map[], [], [])
  }

  predicate Enabled(s: State, m: Move) {
    match m
    case Read => s.open && s.pos < |s.script|
    case EndOfInput => s.open && s.pos == |s.script|
    case Finish(i) => i < |s.tasks| && s.tasks[i].phase == Running
    case Abort(i) =>
      i < |s.tasks| && s.tasks[i].phase == Running && (s.tasks[i].fate.Cancelled? || s.tasks[i].fate.Drained?)
    case Lock(i) => i < |s.tasks| && s.tasks[i].phase == Ready
    case Send(i) => i < |s.tasks| && s.tasks[i].phase == Won
  }

  function SetPhase(s: State, i: nat, p: Phase): State
    requires i < |s.tasks|
  {
    s.(tasks := s.tasks[i := s.tasks[i].(phase := p)])
  }

  /** Take the entry under `key` out of the registry and record why. */
  function RemoveEntry(s: State, key: string, fate: Fate): State {
    if key in s.registry && s.registry[key] < |s.tasks| then
      var i := s.registry[key];
      s.(registry := s.registry - {key}, tasks := s.tasks[i := s.tasks[i].(fate := fate)])
    else s
  }

  /** The reader handles one message; a call is checked and registered under the lock. */
  function ReadMessage(s: State): State
    requires s.pos < |s.script|
  {
    var s' := s.(pos := s.pos + 1);
    match s.script[s.pos]
    case Call(key) =>
      if key in s.registry then s'.(outbox := s.outbox + [Refusal(key)])
      else s'.(registry := s.registry[key := |s.tasks|], tasks := s.tasks + [Task(key, s.pos, Running, Registered)])
    case Cancel(key) => RemoveEntry(s', key, Cancelled(s.pos))
    case Other => s'.(outbox := s.outbox + [Direct])
  }

  function DrainTask(s: State, t: Task): Task {
    if t.fate == Registered then t.(fate := Drained) else t
  }

  /** End of input: every registered task is aborted and the registry emptied. */
  function Drain(s: State): State {
    s.(open := false, registry := map[],
       tasks := seq(|s.tasks|, i requires 0 <= i < |s.tasks| => DrainTask(s, s.tasks[i])))
  }

  function Apply(s: State, m: Move): State
    requires Enabled(s, m)
  {
    match m
    case Read => ReadMessage(s)
    case EndOfInput => Drain(s)
    case Finish(i) => SetPhase(s, i, Ready)
    case Abort(i) => SetPhase(s, i, Aborted)
    case Lock(i) =>
      var key := s.tasks[i].key;
      if key in s.registry then SetPhase(RemoveEntry(s, key, Claimed), i, Won) else SetPhase(s, i, Lost)
    case Send(i) => SetPhase(s, i, Done).(outbox := s.outbox + [Response(i)])
  }

  /** The state after a sequence of moves, if each is enabled when its turn comes. */
  function Exec(s: State, moves: seq<Move>): Option<State>
    decreases |moves|
  {
    if moves == [] then Some(s)
    else if Enabled(s, moves[0]) then Exec(Apply(s, moves[0]), moves[1..])
    else None
  }

  // ----- the property

  function Sent(outbox: seq<Answer>, i: nat): nat {
    if outbox == [] then 0
    else Sent(outbox[..|outbox| - 1], i) + if outbox[|outbox| - 1] == Response(i) then 1 else 0
  }

  /** Answers task `i` has sent or is about to send. */
  function Answers(s: State, i: nat): nat
    requires i < |s.tasks|
  {
    Sent(s.outbox, i) + if s.tasks[i].phase == Won then 1 else 0
  }

  predicate Holds(s: State, i: nat)
    requires i < |s.tasks|
  {
    s.tasks[i].key in s.registry && s.registry[s.tasks[i].key] == i
  }

  /** An accepted call is running under its own entry, answered once, cancelled and not
      answered, or aborted at end of input and not answered; its fate says which. */
  predicate TaskSafe(s: State, i: nat)
    requires i < |s.tasks|
  {
    var t := s.tasks[i];
    && (t.fate == Registered <==> Holds(s, i))
    && Answers(s, i) == (if t.fate == Claimed then 1 else 0)
  }

  predicate Safe(s: State) {
    forall i :: 0 <= i < |s.tasks| ==> TaskSafe(s, i)
  }

  /** Some id is called, then cancelled, then called again. */
  predicate ReusedAt(script: seq<Message>, a: nat, b: nat, c: nat) {
    && a < b < c < |script|
    && script[a].Call? && script[b] == Cancel(script[a].key) && script[c] == script[a]
  }

  ghost predicate NoReuse(script: seq<Message>) {
    forall a: nat, b: nat, c: nat :: !ReusedAt(script, a, b, c)
  }

  // ----- what every step keeps when ids are not reused after cancellation

  predicate TaskInv(s: State, i: nat)
    requires i < |s.tasks|
  {
    var t := s.tasks[i];
    && t.born < s.pos <= |s.script| && s.script[t.born] == Call(t.key)
    && (t.fate == Registered <==> Holds(s, i))
    && (t.fate == Claimed <==> t.phase == Won || t.phase == Done)
    && (t.fate.Cancelled? ==>
          t.born < t.fate.at < s.pos && s.script[t.fate.at] == Cancel(t.key) && t.key !in s.registry)
    && (t.fate == Drained ==> !s.open)
    && (t.fate == Registered ==> t.phase == Running || t.phase == Ready)
    && Sent(s.outbox, i) == (if t.phase == Done then 1 else 0)
  }

  ghost predicate Inv(s: State) {
    && (forall i :: 0 <= i < |s.tasks| ==> TaskInv(s, i))
    && (forall k :: k in s.registry ==> s.registry[k] < |s.tasks| && s.tasks[s.registry[k]].key == k)
    && (forall j: nat :: j >= |s.tasks| ==> Sent(s.outbox, j) == 0)
    && (!s.open ==> s.registry == map[])
  }

  lemma InvSafe(s: State)
    requires Inv(s)
    ensures Safe(s)
  {
    hide Sent;
    forall i | 0 <= i < |s.tasks| ensures TaskSafe(s, i) {
      assert TaskInv(s, i);
    }
  }

  lemma SentAppend(outbox: seq<Answer>, a: Answer, i: nat)
    ensures Sent(outbox + [a], i) == Sent(outbox, i) + if a == Response(i) then 1 else 0
  {
    assert (outbox + [a])[..|outbox|] == outbox;
  }

  lemma CallKeeps(s: State)
    requires Inv(s) && NoReuse(s.script) && s.open && s.pos < |s.script| && s.script[s.pos].Call?
    requires s.script[s.pos].key !in s.registry
    ensures Inv(ReadMessage(s))
  {
    hide Sent;
    var s', key, n := ReadMessage(s), s.script[s.pos].key, |s.tasks|;
    forall i | 0 <= i < |s'.tasks| ensures TaskInv(s', i) {
      if i < n {
        assert TaskInv(s, i);
        var t := s.tasks[i];
        if t.fate.Cancelled? {
          assert !ReusedAt(s.script, t.born, t.fate.at, s.pos);
        }
      }
    }
  }

  lemma AppendKeeps(s: State, a: Answer)
    requires Inv(s) && !a.Response? && s.pos < |s.script|
    ensures Inv(s.(pos := s.pos + 1, outbox := s.outbox + [a]))
  {
    hide Sent;
    var s' := s.(pos := s.pos + 1, outbox := s.outbox + [a]);
    forall i: nat ensures Sent(s'.outbox, i) == Sent(s.outbox, i) {
      SentAppend(s.outbox, a, i);
    }
    forall i | 0 <= i < |s'.tasks| ensures TaskInv(s', i) {
      assert TaskInv(s, i);
    }
  }

  lemma CancelKeeps(s: State)
    requires Inv(s) && s.pos < |s.script| && s.script[s.pos].Cancel?
    ensures Inv(ReadMessage(s))
  {
    hide Sent;
    var s', key := ReadMessage(s), s.script[s.pos].key;
    if key in s.registry {
      var n := s.registry[key];
      assert TaskInv(s, n);
      forall i | 0 <= i < |s'.tasks| ensures TaskInv(s', i) {
        assert TaskInv(s, i);
      }
    } else {
      forall i | 0 <= i < |s'.tasks| ensures TaskInv(s', i) {
        assert TaskInv(s, i);
      }
    }
  }

  lemma DrainKeeps(s: State)
    requires Inv(s)
    ensures Inv(Drain(s))
  {
    hide Sent;
    var s' := Drain(s);
    forall i | 0 <= i < |s'.tasks| ensures TaskInv(s', i) {
      assert TaskInv(s, i);
    }
  }

  /** A move that changes only where a task's code is. */
  lemma PhaseKeeps(s: State, i: nat, p: Phase)
    requires Inv(s) && i < |s.tasks|
    requires (s.tasks[i].phase == Running && (p == Ready || (p == Aborted && s.tasks[i].fate != Registered)))
          || (s.tasks[i].phase == Ready && p == Lost && s.tasks[i].key !in s.registry)
    ensures Inv(SetPhase(s, i, p))
  {
    hide Sent;
    var s' := SetPhase(s, i, p);
    assert TaskInv(s, i);
    forall j | 0 <= j < |s'.tasks| ensures TaskInv(s', j) {
      assert TaskInv(s, j);
    }
  }

  /** A finishing task finds an entry under its key only if the entry is its own. */
  lemma OwnEntry(s: State, i: nat)
    requires Inv(s) && i < |s.tasks| && s.tasks[i].phase == Ready && s.tasks[i].key in s.registry
    ensures s.registry[s.tasks[i].key] == i
  {
    hide Sent;
    assert TaskInv(s, i);
  }

  lemma WinKeeps(s: State, i: nat)
    requires Inv(s) && i < |s.tasks| && s.tasks[i].phase == Ready && s.tasks[i].key in s.registry
    ensures Inv(Apply(s, Lock(i)))
  {
    hide Sent;
    OwnEntry(s, i);
    var s' := Apply(s, Lock(i));
    assert TaskInv(s, i);
    forall j | 0 <= j < |s'.tasks| ensures TaskInv(s', j) {
      assert TaskInv(s, j);
    }
  }

  lemma SendKeeps(s: State, i: nat)
    requires Inv(s) && i < |s.tasks| && s.tasks[i].phase == Won
    ensures Inv(Apply(s, Send(i)))
  {
    hide Sent;
    var s' := Apply(s, Send(i));
    forall j: nat ensures Sent(s'.outbox, j) == Sent(s.outbox, j) + if j == i then 1 else 0 {
      SentAppend(s.outbox, Response(i), j);
    }
    forall j | 0 <= j < |s'.tasks| ensures TaskInv(s', j) {
      assert TaskInv(s, j);
    }
  }

  lemma MoveKeeps(s: State, m: Move)
    requires Inv(s) && NoReuse(s.script) && Enabled(s, m)
    ensures Inv(Apply(s, m)) && Apply(s, m).script == s.script
  {
    hide Inv, NoReuse, Sent;
    match m {
      case Read =>
        match s.script[s.pos] {
          case Call(key) => if key in s.registry { AppendKeeps(s, Refusal(key)); } else { CallKeeps(s); }
          case Cancel(_) => CancelKeeps(s);
          case Other => AppendKeeps(s, Direct);
        }
      case EndOfInput => DrainKeeps(s);
      case Finish(i) => PhaseKeeps(s, i, Ready);
      case Abort(i) => PhaseKeeps(s, i, Aborted);
      case Lock(i) => if s.tasks[i].key in s.registry { WinKeeps(s, i); } else { PhaseKeeps(s, i, Lost); }
      case Send(i) => SendKeeps(s, i);
    }
  }

  /** Whatever the interleaving, a script that does not reuse a cancelled id keeps every call
      in exactly one of the four states. */
  lemma {:induction false} SafeWithoutReuse(s: State, moves: seq<Move>)
    requires Inv(s) && NoReuse(s.script) && Exec(s, moves).Some?
    ensures Inv(Exec(s, moves).value) && Safe(Exec(s, moves).value)
    decreases |moves|
  {
    hide Inv, Safe, NoReuse, Apply;
    if moves == [] {
      InvSafe(s);
    } else {
      MoveKeeps(s, moves[0]);
      SafeWithoutReuse(Apply(s, moves[0]), moves[1..]);
    }
  }

  /** A second call under a running call's id is refused and disturbs nothing. */
  lemma DuplicateRefused(s: State, i: nat)
    requires Inv(s) && i < |s.tasks| && s.tasks[i].fate == Registered
    requires Enabled(s, Read) && s.script[s.pos] == Call(s.tasks[i].key)
    ensures
      var s' := Apply(s, Read);
      s'.tasks == s.tasks && s'.registry == s.registry && s'.outbox == s.outbox + [Refusal(s.tasks[i].key)]
  {
    hide Sent;
    assert TaskInv(s, i);
  }

  // ----- reuse after cancellation breaks the property in some interleaving

  predicate Linked(s: State) {
    forall k :: k in s.registry ==> s.registry[k] < |s.tasks| && s.tasks[s.registry[k]].key == k
  }

  function Reads(n: nat): seq<Move> {
    seq(n, _ => Read)
  }

  lemma {:induction false} ExecAppend(s: State, m1: seq<Move>, m2: seq<Move>)
    requires Exec(s, m1).Some?
    ensures Exec(s, m1 + m2) == Exec(Exec(s, m1).value, m2)
    decreases |m1|
  {
    hide Apply, Enabled;
    if m1 == [] {
      assert m1 + m2 == m2;
    } else {
      ExecAppend(Apply(s, m1[0]), m1[1..], m2);
      assert (m1 + m2)[1..] == m1[1..] + m2;
    }
  }

  /** How one message that does not concern `k` leaves `k`'s entry and tasks alone. */
  lemma ReadAside(s: State, k: string, i: nat)
    requires Linked(s) && s.pos < |s.script|
    requires s.script[s.pos] == Call(k) ==> k in s.registry
    requires s.script[s.pos] == Cancel(k) ==> k !in s.registry
    ensures
      var s' := ReadMessage(s);
      && Linked(s') && s'.script == s.script && s'.pos == s.pos + 1 && s'.open == s.open && |s'.tasks| >= |s.tasks|
      && (k in s'.registry <==> k in s.registry)
      && (k in s.registry ==> s'.registry[k] == s.registry[k])
      && (i < |s.tasks| && s.tasks[i].key == k ==> s'.tasks[i] == s.tasks[i])
  {
  }

  /** Reading on while `k` stays registered, or stays unregistered. */
  lemma {:induction false} ReadOn(s: State, n: nat, k: string, i: nat)
    requires Linked(s) && s.open && s.pos + n <= |s.script|
    requires i < |s.tasks| ==> s.tasks[i].key == k
    requires k in s.registry ==> forall p :: s.pos <= p < s.pos + n ==> s.script[p] != Cancel(k)
    requires k !in s.registry ==> forall p :: s.pos <= p < s.pos + n ==> s.script[p] != Call(k)
    ensures Exec(s, Reads(n)).Some?
    ensures
      var s' := Exec(s, Reads(n)).value;
      && Linked(s') && s'.script == s.script && s'.pos == s.pos + n && s'.open && |s'.tasks| >= |s.tasks|
      && (k in s'.registry <==> k in s.registry)
      && (k in s.registry ==> s'.registry[k] == s.registry[k])
      && (i < |s.tasks| ==> s'.tasks[i] == s.tasks[i])
    decreases n
  {
    hide Linked, ReadMessage;
    if n > 0 {
      ReadAside(s, k, i);
      var s1 := ReadMessage(s);
      assert Reads(n)[1..] == Reads(n - 1) && Reads(n)[0] == Read;
      ReadOn(s1, n - 1, k, if i < |s.tasks| then i else |s1.tasks|);
    }
  }

  lemma {:induction false} FirstAfter(script: seq<Message>, m: Message, lo: nat, hi: nat) returns (i: nat)
    requires lo <= hi < |script| && script[hi] == m
    ensures lo <= i <= hi && script[i] == m && forall p :: lo <= p < i ==> script[p] != m
    decreases hi - lo
  {
    if script[lo] == m {
      i := lo;
    } else {
      i := FirstAfter(script, m, lo + 1, hi);
    }
  }

  /** The first call under `k`, its completion past the last await, and its cancellation. */
  lemma RaceToCancel(script: seq<Message>, a: nat, b: nat) returns (moves: seq<Move>, i: nat)
    requires a < b < |script| && script[a].Call? && script[b] == Cancel(script[a].key)
    requires forall p :: 0 <= p < a ==> script[p] != script[a]
    requires forall p :: a < p < b ==> script[p] != script[b]
    ensures Exec(Init(script), moves).Some?
    ensures
      var s := Exec(Init(script), moves).value;
      && Linked(s) && s.script == script && s.open && s.pos == b + 1 && i < |s.tasks|
      && s.tasks[i] == Task(script[a].key, a, Ready, Cancelled(b)) && script[a].key !in s.registry
  {
    hide Linked, Exec, Apply, Reads;
    var k, s0 := script[a].key, Init(script);
    InitLinked(script);
    ReadOn(s0, a, k, 0);
    var s1 := Exec(s0, Reads(a)).value;
    i := |s1.tasks|;
    var s2 := CallAndFinish(s1, k);
    ExecAppend(s0, Reads(a), [Read, Finish(i)]);
    moves := Reads(a) + [Read, Finish(i)];
    ReadOn(s2, b - a - 1, k, i);
    var s3 := Exec(s2, Reads(b - a - 1)).value;
    ExecAppend(s0, moves, Reads(b - a - 1));
    moves := moves + Reads(b - a - 1);
    var s4 := CancelStep(s3, k, i);
    ExecAppend(s0, moves, [Read]);
    moves := moves + [Read];
  }

  /** And then the second call, registered while the first call's task still runs on. */
  lemma RaceToSecondCall(script: seq<Message>, a: nat, b: nat, c: nat) returns (moves: seq<Move>, i: nat)
    requires ReusedAt(script, a, b, c)
    requires forall p :: 0 <= p < a ==> script[p] != script[a]
    requires forall p :: a < p < b ==> script[p] != script[b]
    requires forall p :: b < p < c ==> script[p] != script[a]
    ensures Exec(Init(script), moves).Some?
    ensures
      var s := Exec(Init(script), moves).value;
      && Linked(s) && i < |s.tasks| && s.tasks[i].key == script[a].key && s.tasks[i].phase == Ready
      && s.tasks[i].fate == Cancelled(b) && script[a].key in s.registry && s.registry[script[a].key] != i
  {
    hide Linked, Exec, Apply, Reads;
    var k, s0 := script[a].key, Init(script);
    moves, i := RaceToCancel(script, a, b);
    var s4 := Exec(s0, moves).value;
    ReadOn(s4, c - b - 1, k, i);
    var s5 := Exec(s4, Reads(c - b - 1)).value;
    ExecAppend(s0, moves, Reads(c - b - 1));
    moves := moves + Reads(c - b - 1);
    var s6 := CallStep(s5, k, i);
    ExecAppend(s0, moves, [Read]);
    moves := moves + [Read];
  }

  lemma InitLinked(script: seq<Message>)
    ensures Linked(Init(script))
  {
  }

  lemma One(s: State, m: Move)
    requires Enabled(s, m)
    ensures Exec(s, [m]) == Some(Apply(s, m))
  {
    assert [m][1..] == [];
  }

  lemma CallAndFinish(s: State, k: string) returns (s': State)
    requires Linked(s) && s.open && s.pos < |s.script| && s.script[s.pos] == Call(k) && k !in s.registry
    ensures Exec(s, [Read, Finish(|s.tasks|)]) == Some(s')
    ensures Linked(s') && s'.script == s.script && s'.open && s'.pos == s.pos + 1 && |s'.tasks| == |s.tasks| + 1
    ensures k in s'.registry && s'.registry[k] == |s.tasks| && s'.tasks[|s.tasks|] == Task(k, s.pos, Ready, Registered)
  {
    var n := |s.tasks|;
    var s1 := Apply(s, Read);
    s' := Apply(s1, Finish(n));
    assert [Read, Finish(n)][1..] == [Finish(n)];
    One(s1, Finish(n));
  }

  lemma CancelStep(s: State, k: string, i: nat) returns (s': State)
    requires Linked(s) && s.open && s.pos < |s.script| && s.script[s.pos] == Cancel(k)
    requires k in s.registry && s.registry[k] == i && i < |s.tasks|
    ensures Exec(s, [Read]) == Some(s')
    ensures Linked(s') && s'.script == s.script && s'.open && s'.pos == s.pos + 1 && |s'.tasks| == |s.tasks|
    ensures k !in s'.registry && s'.tasks[i] == s.tasks[i].(fate := Cancelled(s.pos))
  {
    s' := Apply(s, Read);
    One(s, Read);
  }

  lemma CallStep(s: State, k: string, i: nat) returns (s': State)
    requires Linked(s) && s.open && s.pos < |s.script| && s.script[s.pos] == Call(k)
    requires k !in s.registry && i < |s.tasks|
    ensures Exec(s, [Read]) == Some(s')
    ensures Linked(s') && |s'.tasks| == |s.tasks| + 1 && s'.tasks[i] == s.tasks[i]
    ensures k in s'.registry && s'.registry[k] == |s.tasks|
  {
    s' := Apply(s, Read);
    One(s, Read);
  }

  /** Call `i` was cancelled and its answer was sent. */
  predicate AnsweredAfterCancel(s: State, i: nat) {
    i < |s.tasks| && s.tasks[i].fate.Cancelled? && Response(i) in s.outbox
  }

  lemma {:induction false} SentCounts(outbox: seq<Answer>, i: nat)
    ensures Sent(outbox, i) == 0 <==> Response(i) !in outbox
  {
    if outbox != [] {
      var n := |outbox| - 1;
      SentCounts(outbox[..n], i);
      assert outbox == outbox[..n] + [outbox[n]];
    }
  }

  lemma AnsweredIsUnsafe(s: State, i: nat)
    requires AnsweredAfterCancel(s, i)
    ensures !Safe(s)
  {
    hide Sent;
    SentCounts(s.outbox, i);
    assert !TaskSafe(s, i);
  }

  /** The stale task takes the second call's entry and answers although it was cancelled. */
  lemma StaleTaskAnswers(s: State, i: nat)
    requires Linked(s) && i < |s.tasks| && s.tasks[i].phase == Ready && s.tasks[i].fate.Cancelled?
    requires s.tasks[i].key in s.registry && s.registry[s.tasks[i].key] != i
    ensures Exec(s, [Lock(i), Send(i)]).Some? && AnsweredAfterCancel(Exec(s, [Lock(i), Send(i)]).value, i)
  {
    var s1 := Apply(s, Lock(i));
    assert s1.tasks[i].phase == Won && s1.tasks[i].fate.Cancelled?;
    One(s1, Send(i));
    assert [Lock(i), Send(i)][1..] == [Send(i)];
  }

  /** Every script that reuses a cancelled id has a run in which the answer of a cancelled call
      is sent. */
  lemma UnsafeWithReuse(script: seq<Message>, a0: nat, b0: nat, c0: nat) returns (moves: seq<Move>, i: nat)
    requires ReusedAt(script, a0, b0, c0)
    ensures Exec(Init(script), moves).Some? && AnsweredAfterCancel(Exec(Init(script), moves).value, i)
    ensures !Safe(Exec(Init(script), moves).value)
  {
    hide Exec, Safe, Linked;
    var a := FirstAfter(script, script[a0], 0, a0);
    var b := FirstAfter(script, script[b0], a + 1, b0);
    var c := FirstAfter(script, script[a0], b + 1, c0);
    var before;
    before, i := RaceToSecondCall(script, a, b, c);
    StaleTaskAnswers(Exec(Init(script), before).value, i);
    ExecAppend(Init(script), before, [Lock(i), Send(i)]);
    moves := before + [Lock(i), Send(i)];
    AnsweredIsUnsafe(Exec(Init(script), moves).value, i);
  }

  /** The shortest such script: call, cancel and call again. */
  lemma ReuseWitness(k: string) returns (moves: seq<Move>, i: nat)
    ensures
      var s := Init([Call(k), Cancel(k), Call(k)]);
      Exec(s, moves).Some? && AnsweredAfterCancel(Exec(s, moves).value, i)
  {
    hide Exec;
    moves, i := UnsafeWithReuse([Call(k), Cancel(k), Call(k)], 0, 1, 2);
  }

  ghost predicate AlwaysSafe(script: seq<Message>) {
    forall moves: seq<Move> :: Exec(Init(script), moves).Some? ==> Safe(Exec(Init(script), moves).value)
  }

  /** Every interleaving of a client script keeps every call in exactly one of the four states
      exactly when the script never calls an id again after cancelling it. */
  lemma SafeExactlyWithoutReuse(script: seq<Message>)
    ensures AlwaysSafe(script) <==> NoReuse(script)
  {
    hide Exec, Safe, Inv, ReusedAt;
    if NoReuse(script) {
      InitInv(script);
      forall moves: seq<Move> | Exec(Init(script), moves).Some? ensures Safe(Exec(Init(script), moves).value) {
        SafeWithoutReuse(Init(script), moves);
      }
    } else {
      var a: nat, b: nat, c: nat :| ReusedAt(script, a, b, c);
      var moves, i := UnsafeWithReuse(script, a, b, c);
    }
  }

  ghost predicate SomeAnsweredAfterCancel(script: seq<Message>) {
    exists moves: seq<Move>, i: nat ::
      Exec(Init(script), moves).Some? && AnsweredAfterCancel(Exec(Init(script), moves).value, i)
  }

  /** Some run sends the answer of a cancelled call exactly when the script calls an id again
      after cancelling it. */
  lemma AnsweredExactlyWithReuse(script: seq<Message>)
    ensures SomeAnsweredAfterCancel(script) <==> !NoReuse(script)
  {
    hide Exec, Safe, ReusedAt, AnsweredAfterCancel;
    SafeExactlyWithoutReuse(script);
    if moves: seq<Move>, i: nat :|
      Exec(Init(script), moves).Some? && AnsweredAfterCancel(Exec(Init(script), moves).value, i)
    {
      AnsweredIsUnsafe(Exec(Init(script), moves).value, i);
    }
    if !NoReuse(script) {
      var a: nat, b: nat, c: nat :| ReusedAt(script, a, b, c);
      var moves, i := UnsafeWithReuse(script, a, b, c);
    }
  }

  lemma InitInv(script: seq<Message>)
    ensures Inv(Init(script))
  {
  }

  /** Once the input has ended and every task has, each call was answered exactly once,
      cancelled, or aborted. */
  lemma EveryCallSettles(script: seq<Message>, moves: seq<Move>, i: nat)
    requires NoReuse(script) && Exec(Init(script), moves).Some?
    requires var s := Exec(Init(script), moves).value;
      && !s.open && i < |s.tasks|
      && forall j :: 0 <= j < |s.tasks| ==> s.tasks[j].phase in {Done, Lost, Aborted}
    ensures
      var s := Exec(Init(script), moves).value;
      var t := s.tasks[i];
      if t.phase == Done then Sent(s.outbox, i) == 1 && t.fate == Claimed
      else Sent(s.outbox, i) == 0 && (t.fate.Cancelled? || t.fate == Drained)
  {
    hide Exec, Sent;
    InitInv(script);
    SafeWithoutReuse(Init(script), moves);
    assert TaskInv(Exec(Init(script), moves).value, i);
  }
}
