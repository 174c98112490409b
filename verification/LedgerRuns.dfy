/**
 The ledger over every run from an empty table: what is never exceeded, what never changes,
 and how far apart two jobs under one request key must be.
 */
module LedgerRuns {
  import opened Ledger
  import opened Utf8

  // ----- what every operation keeps

  predicate EntryOk(e: Reservation) {
    && (e.phase == Terminal <==> e.terminalAt.Some?)
    && (e.admissionError.Some? ==> e.phase == Terminal && e.outputLimit == 0)
    && e.outputLimit <= MAX_OUTPUT_BYTES
  }

  ghost predicate Inv(t: Table) {
    && (forall k :: k in t ==> EntryOk(t[k]))
    && Total(t, ActiveWeight) <= MAX_ACTIVE_JOBS
    && |t.Keys| <= MAX_RETAINED_REQUESTS
  }

  /** Output reserved and not yet expired stays within the budget, at `now` and ever after. */
  ghost predicate OutputBounded(t: Table, now: u64) {
    forall later: u64 :: later >= now ==> Total(t, OutputWeight(later)) <= MAX_RETAINED_OUTPUT_BYTES
  }

  lemma LiveSubset(t: Table, now: u64)
    ensures Live(t, now).Keys <= t.Keys
    ensures |Live(t, now).Keys| <= |t.Keys|
    ensures forall w: Reservation -> nat :: Total(Live(t, now), w) <= Total(t, w)
  {
    SubsetSize(Live(t, now).Keys, t.Keys);
    forall w: Reservation -> nat ensures Total(Live(t, now), w) <= Total(t, w) {
      TotalMonotone(Live(t, now), w, t, w);
    }
  }

  lemma {:induction false} SubsetSize<T>(a: set<T>, b: set<T>)
    requires a <= b
    ensures |a| <= |b|
  {
    assert b == a + (b - a);
  }

  /** Within the invariant the saturating sum is the exact sum. */
  lemma SumsAreExact(t: Table, now: u64)
    requires Inv(t)
    ensures Total(t, OutputWeight(now)) + MAX_OUTPUT_BYTES <= U64_MAX
    ensures Min(Total(t, OutputWeight(now)), U64_MAX) == Total(t, OutputWeight(now))
  {
    TotalBound(t, OutputWeight(now), MAX_OUTPUT_BYTES);
    Scale(MAX_OUTPUT_BYTES, |t.Keys|, MAX_RETAINED_REQUESTS);
  }

  lemma Scale(a: nat, m: nat, n: nat)
    requires m <= n
    ensures a * m <= a * n
  {
  }

  /** Output that has expired stays expired. */
  lemma OutputShrinks(t: Table, now: u64, later: u64)
    requires now <= later
    ensures Total(t, OutputWeight(later)) <= Total(t, OutputWeight(now))
  {
    TotalMonotone(t, OutputWeight(later), t, OutputWeight(now));
  }

  ghost predicate Admits(t: Table, op: Op) {
    op.Reserve? && op.key !in t && Step(t, op).1.Reserved?
  }

  lemma AdmitsUnfold(t: Table, op: Op)
    requires Admits(t, op)
    ensures
      var live := Live(t, op.now);
      && op.key !in live && HasCapacity(live, op.now, op.outputLimit)
      && Step(t, op).0 == live[op.key := Fresh(op.digest, op.jobId, op.now, op.outputLimit)]
  {
    hide HasCapacity;
  }

  lemma InsertKeeps(live: Table, key: string, e: Reservation, now: u64)
    requires Inv(live) && key !in live && EntryOk(e) && HasCapacity(live, now, e.outputLimit)
    ensures Inv(live[key := e])
  {
    hide OutputWeight, Total;
    TotalInsert(live, ActiveWeight, key, e);
    assert live[key := e].Keys == live.Keys + {key};
    assert |live.Keys| == |live|;
  }

  lemma InsertBounded(live: Table, key: string, e: Reservation, now: u64)
    requires Inv(live) && key !in live && e.phase == Preparing && HasCapacity(live, now, e.outputLimit)
    ensures OutputBounded(live[key := e], now)
  {
    hide Inv, OutputWeight;
    SumsAreExact(live, now);
    TotalInsert(live, OutputWeight(now), key, e);
    FreshOutput(e, now);
    forall later: u64 | later >= now
      ensures Total(live[key := e], OutputWeight(later)) <= MAX_RETAINED_OUTPUT_BYTES
    {
      OutputShrinks(live[key := e], now, later);
    }
  }

  lemma ReserveKeeps(t: Table, op: Op)
    requires Inv(t) && Admits(t, op)
    ensures Inv(Step(t, op).0) && OutputBounded(Step(t, op).0, op.now)
  {
    hide Inv, HasCapacity, OutputBounded, Step;
    var live, e := Live(t, op.now), Fresh(op.digest, op.jobId, op.now, op.outputLimit);
    AdmitsUnfold(t, op);
    LiveInv(t, op.now);
    CapacityLimit(live, op.now, op.outputLimit);
    InsertKeeps(live, op.key, e, op.now);
    InsertBounded(live, op.key, e, op.now);
  }

  lemma CapacityLimit(live: Table, now: u64, outputLimit: u64)
    requires HasCapacity(live, now, outputLimit)
    ensures outputLimit <= MAX_OUTPUT_BYTES
  {
  }

  lemma FreshOutput(e: Reservation, now: u64)
    requires e.phase == Preparing
    ensures OutputWeight(now)(e) == e.outputLimit
  {
  }

  lemma LiveInv(t: Table, now: u64)
    requires Inv(t)
    ensures Inv(Live(t, now))
    ensures forall past: u64 :: OutputBounded(t, past) ==> OutputBounded(Live(t, now), past)
  {
    hide Expired, OutputWeight;
    LiveSubset(t, now);
  }

  lemma UpdateKeeps(t: Table, key: string, e: Reservation)
    requires Inv(t) && key in t && EntryOk(e) && ActiveWeight(e) <= ActiveWeight(t[key])
    requires e.outputLimit <= t[key].outputLimit && t[key].phase != Terminal
    ensures Inv(t[key := e])
    ensures forall past: u64 :: OutputBounded(t, past) ==> OutputBounded(t[key := e], past)
  {
    TotalUpdate(t, ActiveWeight, key, e);
    assert t[key := e].Keys == t.Keys;
    forall past: u64 | OutputBounded(t, past) ensures OutputBounded(t[key := e], past) {
      forall later: u64 | later >= past ensures Total(t[key := e], OutputWeight(later)) <= MAX_RETAINED_OUTPUT_BYTES {
        TotalUpdate(t, OutputWeight(later), key, e);
      }
    }
  }

  /** Every operation keeps the invariant and, unless it admits a new request, every output
      bound already established. */
  lemma StepKeeps(t: Table, op: Op)
    requires Inv(t)
    ensures Inv(Step(t, op).0)
    ensures Admits(t, op) ==> OutputBounded(Step(t, op).0, op.now)
    ensures !Admits(t, op) ==> forall past: u64 :: OutputBounded(t, past) ==> OutputBounded(Step(t, op).0, past)
  {
    hide OutputBounded, Inv, HasCapacity;
    if Admits(t, op) {
      ReserveKeeps(t, op);
    } else {
      match op {
        case Reserve(_, _, _, _, _) =>
        case Advance(key, next, now) =>
          if key in t && LegalAdvance(t[key].phase, next) {
            EntriesOk(t, key);
            UpdateKeeps(t, key, Advanced(t[key], next, now));
          }
        case FailPreparing(key, error, now) =>
          if key in t && t[key].phase == Preparing {
            EntriesOk(t, key);
            UpdateKeeps(t, key, Tombstone(t[key], error, now));
          }
        case AbandonAccepted(key, error, now) =>
          if key in t && t[key].phase == Accepted {
            EntriesOk(t, key);
            UpdateKeeps(t, key, Tombstone(t[key], error, now));
          }
        case Prune(now) => LiveInv(t, now);
        case Lookup(_) =>
        case StorageFault =>
      }
    }
  }

  lemma EntriesOk(t: Table, key: string)
    requires Inv(t) && key in t
    ensures EntryOk(t[key])
  {
  }

  // ----- runs

  /** A run from the empty ledger: `states[i]` is the table before `ops[i]`. */
  ghost predicate Run(ops: seq<Op>, states: seq<Table>) {
    && |states| == |ops| + 1
    && states[0] == map[]
    && forall i :: 0 <= i < |ops| ==> states[i + 1] == Step(states[i], ops[i]).0
  }

  ghost function Out(ops: seq<Op>, states: seq<Table>, i: nat): Outcome
    requires Run(ops, states) && i < |ops|
  {
    Step(states[i], ops[i]).1
  }

  lemma EmptyInv()
    ensures Inv(map[]) && forall now: u64 :: OutputBounded(map[], now)
  {
    var t: Table := map[];
    assert t.Keys == {};
  }

  lemma RunStep(ops: seq<Op>, states: seq<Table>, i: nat)
    requires Run(ops, states) && i < |ops|
    ensures states[i + 1] == Step(states[i], ops[i]).0
  {
  }

  /** From an empty ledger, no run ever holds more than 32 jobs in progress or 65,536 requests,
      and every entry is well formed. */
  lemma {:induction false} RunInv(ops: seq<Op>, states: seq<Table>, i: nat)
    requires Run(ops, states) && i < |states|
    ensures Inv(states[i])
  {
    hide Inv, Step;
    if i == 0 {
      EmptyInv();
    } else {
      RunInv(ops, states, i - 1);
      RunStep(ops, states, i - 1);
      StepKeeps(states[i - 1], ops[i - 1]);
    }
  }

  /** No request was admitted between steps `lo` and `hi`. */
  ghost predicate NoAdmission(ops: seq<Op>, states: seq<Table>, lo: nat, hi: nat)
    requires Run(ops, states) && hi <= |ops|
  {
    forall j :: lo <= j < hi ==> !Admits(states[j], ops[j])
  }

  lemma {:induction false} BoundPersists(ops: seq<Op>, states: seq<Table>, lo: nat, i: nat, now: u64)
    requires Run(ops, states) && lo <= i < |states| && NoAdmission(ops, states, lo, i)
    requires OutputBounded(states[lo], now)
    ensures OutputBounded(states[i], now)
    decreases i
  {
    hide OutputBounded, Step, Admits;
    if i > lo {
      BoundPersists(ops, states, lo, i - 1, now);
      RunInv(ops, states, i - 1);
      RunStep(ops, states, i - 1);
      StepKeeps(states[i - 1], ops[i - 1]);
    }
  }

  /** Reserved, unexpired output never exceeds 4 GiB at any time from the last admission on,
      whatever the clocks of the other operations said. */
  lemma OutputBudget(ops: seq<Op>, states: seq<Table>, last: nat, i: nat, now: u64)
    requires Run(ops, states) && last < i < |states|
    requires Admits(states[last], ops[last]) && NoAdmission(ops, states, last + 1, i) && now >= ops[last].now
    ensures Total(states[i], OutputWeight(now)) <= MAX_RETAINED_OUTPUT_BYTES
  {
    hide Step, Admits, OutputWeight;
    RunInv(ops, states, last);
    RunStep(ops, states, last);
    StepKeeps(states[last], ops[last]);
    AdmitsTime(states[last], ops[last]);
    BoundPersists(ops, states, last + 1, i, ops[last].now);
  }

  lemma AdmitsTime(t: Table, op: Op)
    requires Admits(t, op)
    ensures op.Reserve?
  {
  }

  // ----- identity of a reservation

  function Rank(p: Phase): nat {
    match p case Preparing => 0 case Accepted => 1 case Terminal => 2
  }

  /** What a reservation never changes, and the only way its phase moves. */
  predicate Continues(e: Reservation, f: Reservation) {
    && f.jobId == e.jobId && f.digest == e.digest && f.acceptedAt == e.acceptedAt
    && Rank(e.phase) <= Rank(f.phase)
    && (e.phase == f.phase ==> f == e)
  }

  /** The operation turns the entry under `key` terminal at time `at`. */
  ghost predicate Terminates(t: Table, op: Op, key: string, at: u64) {
    && key in t && t[key].phase != Terminal
    && ((op.Advance? && op.key == key && op.now == at && op.next == Terminal)
        || (op.FailPreparing? && op.key == key && op.now == at)
        || (op.AbandonAccepted? && op.key == key && op.now == at))
    && key in Step(t, op).0 && Step(t, op).0[key].terminalAt == Some(at)
  }

  /** The operation may drop entries that were terminal at `at`: the retention window is over. */
  predicate Outlives(op: Op, at: u64) {
    (op.Reserve? || op.Prune?) && op.now >= at + REQUEST_RETENTION_MS
  }

  /** One operation leaves an entry as it is, advances it, or drops it after its retention. */
  lemma EntryStep(t: Table, op: Op, key: string)
    requires Inv(t) && key in t
    ensures
      var t' := Step(t, op).0;
      if key in t' then
        && Continues(t[key], t'[key])
        && (t[key].phase != Terminal && t'[key].phase == Terminal ==> Terminates(t, op, key, t'[key].terminalAt.value))
      else t[key].phase == Terminal && Outlives(op, t[key].terminalAt.value)
  {
    hide HasCapacity, Total;
  }

  /** The key is in every table from `lo` to `hi`. */
  ghost predicate Present(states: seq<Table>, key: string, lo: nat, hi: nat)
    requires hi < |states|
  {
    forall i :: lo <= i <= hi ==> key in states[i]
  }

  /** While a key stays in the ledger its job, digest and acceptance time stay the same and its
      phase only moves forward. */
  lemma {:induction false} IdentityKept(ops: seq<Op>, states: seq<Table>, key: string, lo: nat, hi: nat)
    requires Run(ops, states) && lo <= hi < |states| && Present(states, key, lo, hi)
    ensures Continues(states[lo][key], states[hi][key])
    decreases hi
  {
    hide Step, Terminates;
    if lo < hi {
      IdentityKept(ops, states, key, lo, hi - 1);
      RunInv(ops, states, hi - 1);
      RunStep(ops, states, hi - 1);
      EntryStep(states[hi - 1], ops[hi - 1], key);
    }
  }

  /** Until its key is dropped, a reservation is what every reserve under that key gets: the
      same job for the same digest, a conflict for any other; and it changes nothing. */
  lemma RetryIsIdempotent(ops: seq<Op>, states: seq<Table>, i: nat, j: nat)
    requires Run(ops, states) && i < j < |ops|
    requires ops[i].Reserve? && ops[j].Reserve? && ops[i].key == ops[j].key && Out(ops, states, i).Reserved?
    requires Present(states, ops[i].key, i + 1, j)
    ensures states[j + 1] == states[j]
    ensures ops[j].digest == ops[i].digest ==>
              Out(ops, states, j).Reserved? && Out(ops, states, j).entry.jobId == Out(ops, states, i).entry.jobId
    ensures ops[j].digest != ops[i].digest ==> Out(ops, states, j) == Failed(Conflict)
  {
    hide HasCapacity;
    RunStep(ops, states, i);
    RunStep(ops, states, j);
    IdentityKept(ops, states, ops[i].key, i + 1, j);
  }

  /** Until its key is dropped, a lookup finds the reservation: the job, digest and acceptance
      time it was made with, in a phase no earlier; and it changes nothing. */
  lemma LookupFindsReservation(ops: seq<Op>, states: seq<Table>, i: nat, j: nat)
    requires Run(ops, states) && i < j < |ops|
    requires ops[i].Reserve? && ops[j].Lookup? && ops[i].key == ops[j].key && Out(ops, states, i).Reserved?
    requires Present(states, ops[i].key, i + 1, j)
    ensures states[j + 1] == states[j]
    ensures Out(ops, states, j).Found? && Out(ops, states, j).found.Some?
    ensures Continues(Out(ops, states, i).entry, Out(ops, states, j).found.value)
  {
    hide HasCapacity, Continues;
    RunStep(ops, states, i);
    RunStep(ops, states, j);
    IdentityKept(ops, states, ops[i].key, i + 1, j);
  }

  /** A terminal entry became terminal at some earlier step, under this same job. */
  lemma {:induction false} TerminalOrigin(ops: seq<Op>, states: seq<Table>, key: string, lo: nat, n: nat)
    returns (m: nat)
    requires Run(ops, states) && lo <= n < |states| && Present(states, key, lo, n)
    requires states[n][key].phase == Terminal && states[lo][key].phase != Terminal
    ensures lo <= m < n && states[n][key].terminalAt.Some?
    ensures Terminates(states[m], ops[m], key, states[n][key].terminalAt.value)
    decreases n
  {
    hide Step, Terminates;
    RunInv(ops, states, n - 1);
    RunStep(ops, states, n - 1);
    EntryStep(states[n - 1], ops[n - 1], key);
    RunInv(ops, states, n);
    if states[n - 1][key].phase == Terminal {
      m := TerminalOrigin(ops, states, key, lo, n - 1);
    } else {
      m := n - 1;
    }
  }

  /** The step that first put the present entry in the ledger. */
  lemma {:induction false} EntryOrigin(ops: seq<Op>, states: seq<Table>, key: string, n: nat) returns (lo: nat)
    requires Run(ops, states) && n < |states| && key in states[n]
    ensures 0 < lo <= n && Present(states, key, lo, n) && states[lo][key].phase == Preparing
    decreases n
  {
    if key in states[n - 1] {
      lo := EntryOrigin(ops, states, key, n - 1);
    } else {
      RunStep(ops, states, n - 1);
      NewEntry(states[n - 1], ops[n - 1], key);
      lo := n;
    }
  }

  lemma NewEntry(t: Table, op: Op, key: string)
    requires key !in t && key in Step(t, op).0
    ensures Step(t, op).0[key].phase == Preparing && Admits(t, op) && op.key == key
  {
    hide HasCapacity;
  }

  /** The first table after `lo` that no longer has the key. */
  lemma {:induction false} FirstDrop(states: seq<Table>, key: string, lo: nat, hi: nat) returns (n: nat)
    requires lo <= hi < |states| && key in states[lo] && !Present(states, key, lo, hi)
    ensures lo <= n < hi && Present(states, key, lo, n) && key !in states[n + 1]
    decreases hi
  {
    if Present(states, key, lo, hi - 1) {
      n := hi - 1;
    } else {
      n := FirstDrop(states, key, lo, hi - 1);
    }
  }

  lemma JobKept(ops: seq<Op>, states: seq<Table>, key: string, lo: nat, hi: nat)
    requires Run(ops, states) && lo <= hi < |states| && Present(states, key, lo, hi)
    ensures states[lo][key].jobId == states[hi][key].jobId
  {
    IdentityKept(ops, states, key, lo, hi);
  }

  lemma ReservedEntry(ops: seq<Op>, states: seq<Table>, i: nat)
    requires Run(ops, states) && i < |ops| && ops[i].Reserve? && Out(ops, states, i).Reserved?
    ensures ops[i].key in states[i + 1] && states[i + 1][ops[i].key] == Out(ops, states, i).entry
    ensures ops[i].key in states[i] ==> states[i][ops[i].key] == Out(ops, states, i).entry
  {
    hide HasCapacity;
    RunStep(ops, states, i);
  }

  lemma TerminatesOp(t: Table, op: Op, key: string, at: u64)
    requires Terminates(t, op, key, at)
    ensures (op.Advance? || op.FailPreparing? || op.AbandonAccepted?) && op.now == at
  {
    hide Step;
  }

  /** Two successful reservations of one key that name different jobs are separated by the first
      job's terminal transition, at some step `m`, and by the drop of its entry, at a later step
      `n` whose clock is at least the retention window past that transition. */
  lemma DistinctJobsAreSeparated(ops: seq<Op>, states: seq<Table>, i: nat, j: nat) returns (m: nat, n: nat)
    requires Run(ops, states) && i < j < |ops|
    requires ops[i].Reserve? && ops[j].Reserve? && ops[i].key == ops[j].key
    requires Out(ops, states, i).Reserved? && Out(ops, states, j).Reserved?
    requires Out(ops, states, i).entry.jobId != Out(ops, states, j).entry.jobId
    ensures m < n < j && i < n && ops[i].key in states[m] && ops[i].key in states[n]
    ensures states[m][ops[i].key].jobId == Out(ops, states, i).entry.jobId
    ensures states[n][ops[i].key].jobId == Out(ops, states, i).entry.jobId
    ensures (ops[m].Advance? || ops[m].FailPreparing? || ops[m].AbandonAccepted?)
    ensures Terminates(states[m], ops[m], ops[i].key, ops[m].now)
    ensures ops[i].key !in states[n + 1] && Outlives(ops[n], ops[m].now)
    ensures Out(ops, states, i).entry.phase != Terminal ==> i < m
  {
    hide Step, Terminates, Outlives;
    var key := ops[i].key;
    ReservedEntry(ops, states, i);
    ReservedEntry(ops, states, j);
    assert !Present(states, key, i + 1, j) by {
      if Present(states, key, i + 1, j) {
        JobKept(ops, states, key, i + 1, j);
      }
    }
    n := FirstDrop(states, key, i + 1, j);
    RunInv(ops, states, n);
    RunStep(ops, states, n);
    EntryStep(states[n], ops[n], key);
    var lo := i + 1;
    if states[i + 1][key].phase == Terminal {
      lo := EntryOrigin(ops, states, key, n);
    }
    m := TerminalOrigin(ops, states, key, lo, n);
    TerminatesOp(states[m], ops[m], key, states[n][key].terminalAt.value);
    JobKept(ops, states, key, i + 1, n);
    JobKept(ops, states, key, lo, n);
    JobKept(ops, states, key, lo, m);
  }
}
