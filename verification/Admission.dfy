/**
 Which requests the ledger takes in, which entries it drops and what each transition leaves,
 stated on the table alone with the limits as numbers.
 */
module Admission {
  import opened Ledger
  import opened Utf8

  /** A finished job whose end lies at least `age` milliseconds back. */
  predicate EndedFor(e: Reservation, now: u64, age: nat) {
    e.phase == Terminal && e.terminalAt.Some? && now >= e.terminalAt.value + age
  }

  /** The entries within seven days of their end, or not ended. */
  function Retained(t: Table, now: u64): Table {
    map k | k in t && !EndedFor(t[k], now, 604_800_000) :: t[k]
  }

  function Unfinished(t: Table): set<string> {
    set k | k in t && t[k].phase != Terminal
  }

  /** The output an entry still holds: its limit, until a day after its end. */
  function Held(now: u64): Reservation -> nat {
    (e: Reservation) => if EndedFor(e, now, 86_400_000) then 0 else e.outputLimit
  }

  /** Fewer than 32 unfinished jobs, fewer than 65536 entries, at most 256 MiB for the new one and
      at most 4 GiB together. */
  ghost predicate HasRoom(t: Table, now: u64, outputLimit: nat) {
    && |Unfinished(t)| < 32
    && |Retained(t, now)| < 65_536
    && outputLimit <= 268_435_456
    && Total(Retained(t, now), Held(now)) + outputLimit <= 4_294_967_296
  }

  lemma {:induction false} ActiveIsCount(t: Table)
    ensures Total(t, ActiveWeight) == |Unfinished(t)|
    decreases t.Keys
  {
    hide Total;
    if t.Keys == {} {
      assert t == map[] && Unfinished(t) == {};
      TotalEmpty(ActiveWeight);
    } else {
      var k :| k in t.Keys;
      assert (t - {k}).Keys == t.Keys - {k};
      TotalRemove(t, ActiveWeight, k);
      ActiveIsCount(t - {k});
      if t[k].phase != Terminal {
        assert Unfinished(t) == Unfinished(t - {k}) + {k};
      } else {
        assert Unfinished(t) == Unfinished(t - {k});
      }
    }
  }

  lemma SameWeights(t: Table, v: Reservation -> nat, w: Reservation -> nat)
    requires forall k :: k in t ==> v(t[k]) == w(t[k])
    ensures Total(t, v) == Total(t, w)
  {
    TotalMonotone(t, v, t, w);
    TotalMonotone(t, w, t, v);
  }

  lemma RetainedIsLive(t: Table, now: u64)
    ensures Live(t, now) == Retained(t, now)
    ensures Unfinished(Live(t, now)) == Unfinished(t)
  {
  }

  lemma HeldIsOutput(t: Table, now: u64)
    ensures Total(t, OutputWeight(now)) == Total(t, Held(now))
  {
    hide Total;
    SameWeights(t, OutputWeight(now), Held(now));
  }

  lemma RoomIsCapacity(t: Table, now: u64, outputLimit: u64)
    ensures HasCapacity(Live(t, now), now, outputLimit) <==> HasRoom(t, now, outputLimit)
  {
    hide Total, Live, Retained, Unfinished;
    RetainedIsLive(t, now);
    ActiveIsCount(Live(t, now));
    HeldIsOutput(Live(t, now), now);
  }

  /** A request is taken in exactly when there is room for it; the table then holds the retained
      entries and the new one, and is unchanged otherwise.  A known key changes nothing. */
  lemma AdmittedExactly(t: Table, key: string, digest: Digest, jobId: string, now: u64, outputLimit: u64)
    ensures
      Step(t, Reserve(key, digest, jobId, now, outputLimit)) ==
        if key in t then (t, if t[key].digest == digest then Reserved(t[key]) else Failed(Conflict))
        else
          var e := Reservation(jobId, digest, Preparing, now, None, outputLimit, None);
          if HasRoom(t, now, outputLimit) then (Retained(t, now)[key := e], Reserved(e)) else (t, Failed(Capacity))
  {
    hide HasCapacity, HasRoom, Live, Retained;
    RoomIsCapacity(t, now, outputLimit);
    RetainedIsLive(t, now);
  }

  function OutputLimit(e: Reservation): nat {
    e.outputLimit
  }

  /** Enough to be taken in, by the whole table: no entry need be looked at for its age. */
  lemma RoomSuffices(t: Table, key: string, digest: Digest, jobId: string, now: u64, outputLimit: u64)
    requires key !in t && |Unfinished(t)| < 32 && |t| < 65_536
    requires outputLimit <= 268_435_456 && Total(t, OutputLimit) + outputLimit <= 4_294_967_296
    ensures Step(t, Reserve(key, digest, jobId, now, outputLimit)).1.Reserved?
  {
    hide Total, Step;
    var kept := Retained(t, now);
    TotalMonotone(kept, Held(now), t, OutputLimit);
    SmallerMap(kept, t);
    AdmittedExactly(t, key, digest, jobId, now, outputLimit);
  }

  lemma SmallerMap(s: Table, t: Table)
    requires s.Keys <= t.Keys
    ensures |s| <= |t|
  {
    assert |s| == |s.Keys| && |t| == |t.Keys|;
    Smaller(s.Keys, t.Keys);
  }

  lemma Smaller<T>(a: set<T>, b: set<T>)
    requires a <= b
    ensures |a| <= |b|
  {
    assert b == a + (b - a);
  }

  /** An entry is dropped exactly by a pruning or an admission that comes at least seven days
      after its job ended. */
  lemma DroppedExactly(t: Table, op: Op, key: string)
    requires key in t
    ensures key !in Step(t, op).0 <==>
              && (op.Prune? || (op.Reserve? && op.key !in t && Step(t, op).1.Reserved?))
              && EndedFor(t[key], op.now, 604_800_000)
    ensures key in Step(t, op).0 && (op.Prune? || op.Reserve?) ==> Step(t, op).0[key] == t[key]
  {
    hide HasCapacity;
  }

  /** The number a pruning reports. */
  lemma PrunedCount(t: Table, now: u64)
    ensures Step(t, Prune(now)).0 == Retained(t, now)
    ensures Step(t, Prune(now)).1.Pruned? && Step(t, Prune(now)).1.count + |Retained(t, now)| == |t|
  {
    RetainedIsLive(t, now);
    var gone := ExpiredKeys(t, now);
    assert t.Keys == Live(t, now).Keys + gone && Live(t, now).Keys !! gone;
    assert |t| == |t.Keys| && |Live(t, now)| == |Live(t, now).Keys|;
  }

  /** The operations that move an entry: Preparing to Accepted to Terminal, and the two ways a
      job is given up. */
  predicate Moves(phase: Phase, op: Op, key: string) {
    match op
    case Advance(k, next, _) => k == key && (phase, next) in {(Preparing, Accepted), (Accepted, Terminal)}
    case FailPreparing(k, _, _) => k == key && phase == Preparing
    case AbandonAccepted(k, _, _) => k == key && phase == Accepted
    case _ => false
  }

  /** An entry that stays in the table changes exactly by those, one entry at a time.  The end of
      a job is stamped; a job given up holds no output and keeps its error. */
  lemma MovesExactly(t: Table, op: Op, key: string)
    requires key in t
    ensures (key in Step(t, op).0 && Step(t, op).0[key] != t[key]) <==> Moves(t[key].phase, op, key)
    ensures Moves(t[key].phase, op, key) ==>
              var (e, f) := (t[key], Step(t, op).0[key]);
              && Step(t, op) == (t[key := f], Changed(f))
              && f.jobId == e.jobId && f.digest == e.digest && f.acceptedAt == e.acceptedAt
              && f.phase == (if op.Advance? then op.next else Terminal)
              && f.terminalAt == (if f.phase == Terminal then Some(op.now) else e.terminalAt)
              && f.outputLimit == (if op.Advance? then e.outputLimit else 0)
              && f.admissionError == (if op.Advance? then e.admissionError else Some(op.error))
  {
    hide HasCapacity;
  }

  /** What a refused operation reports; it changes nothing. */
  lemma RefusedExactly(t: Table, op: Op)
    requires op.Advance? || op.FailPreparing? || op.AbandonAccepted?
    ensures Step(t, op) == (t, Failed(Missing)) <==> op.key !in t
    ensures Step(t, op) == (t, Failed(InvalidTransition)) <==> op.key in t && !Moves(t[op.key].phase, op, op.key)
  {
  }
}
