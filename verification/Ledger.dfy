/**
 The request ledger as a transition function on its durable table.  A transaction that
 returns an error is never committed, so its table is the one it started from.
 */
module Ledger {
  import opened Utf8

  const U64_MAX: nat := 0xFFFF_FFFF_FFFF_FFFF

  type u64 = n: nat | n <= U64_MAX

  type Digest = seq<byte>

  datatype Phase = Preparing | Accepted | Terminal

  datatype ExecError = ExecError(code: string, safeMessage: string)

  datatype Reservation = Reservation(
    jobId: string,
    digest: Digest,
    phase: Phase,
    acceptedAt: u64,
    terminalAt: Option<u64>,
    outputLimit: u64,
    admissionError: Option<ExecError>)

  type Table = map<string, Reservation>

  datatype LedgerError = Storage | Conflict | Missing | InvalidTransition | Capacity

  const MAX_ACTIVE_JOBS: nat := 32
  const MAX_RETAINED_REQUESTS: nat := 65_536
  const MAX_RETAINED_OUTPUT_BYTES: nat := 4 * 1024 * 1024 * 1024
  const MAX_OUTPUT_BYTES: nat := 256 * 1024 * 1024
  const OUTPUT_RETENTION_MS: nat := 24 * 60 * 60 * 1_000
  const REQUEST_RETENTION_MS: nat := 7 * 24 * 60 * 60 * 1_000

  function SaturatingSub(a: nat, b: nat): nat {
    if a < b then 0 else a - b
  }

  function Min(a: nat, b: nat): nat {
    if a < b then a else b
  }

  function SaturatingAdd(a: u64, b: u64): u64 {
    Min(a + b, U64_MAX)
  }

  predicate Expired(e: Reservation, now: u64, retention: nat) {
    e.phase == Terminal && e.terminalAt.Some? && SaturatingSub(now, e.terminalAt.value) >= retention
  }

  // ----- totals over a table

  ghost function Total(t: Table, w: Reservation -> nat): nat
    decreases t.Keys
  {
    if t.Keys == {} then 0
    else
      var k :| k in t.Keys;
      assert (t - {k}).Keys == t.Keys - {k};
      w(t[k]) + Total(t - {k}, w)
  }

  /** A total does not depend on the order the entries are visited in. */
  lemma {:induction false} TotalRemove(t: Table, w: Reservation -> nat, k: string)
    requires k in t
    ensures Total(t, w) == w(t[k]) + Total(t - {k}, w)
    decreases t.Keys
  {
    var j :| j in t.Keys && Total(t, w) == w(t[j]) + Total(t - {j}, w);
    if j != k {
      assert (t - {j}).Keys == t.Keys - {j} && (t - {k}).Keys == t.Keys - {k};
      TotalRemove(t - {j}, w, k);
      TotalRemove(t - {k}, w, j);
      assert t - {j} - {k} == t - {k} - {j};
    }
  }

  lemma TotalEmpty(w: Reservation -> nat)
    ensures Total(map[], w) == 0
  {
  }

  lemma TotalInsert(t: Table, w: Reservation -> nat, k: string, e: Reservation)
    requires k !in t
    ensures Total(t[k := e], w) == w(e) + Total(t, w)
  {
    TotalRemove(t[k := e], w, k);
    assert t[k := e] - {k} == t;
  }

  lemma TotalUpdate(t: Table, w: Reservation -> nat, k: string, e: Reservation)
    requires k in t
    ensures Total(t[k := e], w) + w(t[k]) == Total(t, w) + w(e)
  {
    TotalRemove(t, w, k);
    TotalRemove(t[k := e], w, k);
    assert t[k := e] - {k} == t - {k};
  }

  /** A smaller table under smaller weights has a smaller total. */
  lemma {:induction false} TotalMonotone(s: Table, v: Reservation -> nat, t: Table, w: Reservation -> nat)
    requires forall k :: k in s ==> k in t && s[k] == t[k] && v(s[k]) <= w(t[k])
    ensures Total(s, v) <= Total(t, w)
    decreases t.Keys
  {
    if t.Keys == {} {
      assert s.Keys == {};
    } else {
      var k :| k in t.Keys;
      assert (t - {k}).Keys == t.Keys - {k};
      TotalRemove(t, w, k);
      if k in s {
        TotalRemove(s, v, k);
        TotalMonotone(s - {k}, v, t - {k}, w);
      } else {
        TotalMonotone(s, v, t - {k}, w);
      }
    }
  }

  lemma {:induction false} TotalBound(t: Table, w: Reservation -> nat, bound: nat)
    requires forall k :: k in t ==> w(t[k]) <= bound
    ensures Total(t, w) <= bound * |t.Keys|
    decreases t.Keys
  {
    if t.Keys != {} {
      var k :| k in t.Keys;
      assert (t - {k}).Keys == t.Keys - {k};
      TotalRemove(t, w, k);
      TotalBound(t - {k}, w, bound);
      assert |(t - {k}).Keys| == |t.Keys| - 1;
      Distribute(bound, |t.Keys| - 1);
    }
  }

  lemma Distribute(a: nat, n: nat)
    ensures a * (n + 1) == a * n + a
  {
  }

  function ActiveWeight(e: Reservation): nat {
    if e.phase != Terminal then 1 else 0
  }

  /** Output reserved by an entry at a time: nothing once its output has expired. */
  function OutputWeight(now: u64): Reservation -> nat {
    (e: Reservation) => if Expired(e, now, OUTPUT_RETENTION_MS) then 0 else e.outputLimit
  }

  // ----- operations

  datatype Op =
    | Reserve(key: string, digest: Digest, jobId: string, now: u64, outputLimit: u64)
    | Advance(key: string, next: Phase, now: u64)
    | FailPreparing(key: string, error: ExecError, now: u64)
    | AbandonAccepted(key: string, error: ExecError, now: u64)
    | Prune(now: u64)
    | Lookup(key: string)
    | StorageFault

  datatype Outcome =
    | Reserved(entry: Reservation)
    | Changed(entry: Reservation)
    | Pruned(count: nat)
    | Found(found: Option<Reservation>)
    | Failed(error: LedgerError)

  /** The entries still within the request retention window. */
  function Live(t: Table, now: u64): Table {
    map k | k in t && !Expired(t[k], now, REQUEST_RETENTION_MS) :: t[k]
  }

  function ExpiredKeys(t: Table, now: u64): set<string> {
    set k | k in t && Expired(t[k], now, REQUEST_RETENTION_MS)
  }

  function Fresh(digest: Digest, jobId: string, now: u64, outputLimit: u64): Reservation {
    Reservation(jobId, digest, Preparing, now, None, outputLimit, None)
  }

  /** The admission check, with the sums the program keeps: two counters and one saturating sum. */
  ghost predicate HasCapacity(live: Table, now: u64, outputLimit: u64) {
    && Total(live, ActiveWeight) < MAX_ACTIVE_JOBS
    && |live| < MAX_RETAINED_REQUESTS
    && outputLimit <= MAX_OUTPUT_BYTES
    && SaturatingAdd(Min(Total(live, OutputWeight(now)), U64_MAX), outputLimit) <= MAX_RETAINED_OUTPUT_BYTES
  }

  function Advanced(e: Reservation, next: Phase, now: u64): Reservation {
    if next == Terminal then e.(phase := next, terminalAt := Some(now)) else e.(phase := next)
  }

  function Tombstone(e: Reservation, error: ExecError, now: u64): Reservation {
    e.(phase := Terminal, terminalAt := Some(now), outputLimit := 0, admissionError := Some(error))
  }

  predicate LegalAdvance(from: Phase, next: Phase) {
    (from == Preparing && next == Accepted) || (from == Accepted && next == Terminal)
  }

  ghost function ReserveStep(t: Table, key: string, digest: Digest, jobId: string, now: u64, outputLimit: u64)
    : (Table, Outcome)
  {
    if key in t then (t, if t[key].digest == digest then Reserved(t[key]) else Failed(Conflict))
    else
      var live := Live(t, now);
      if HasCapacity(live, now, outputLimit) then
        (live[key := Fresh(digest, jobId, now, outputLimit)], Reserved(Fresh(digest, jobId, now, outputLimit)))
      else (t, Failed(Capacity))
  }

  function TombstoneStep(t: Table, key: string, expected: Phase, error: ExecError, now: u64): (Table, Outcome) {
    if key !in t then (t, Failed(Missing))
    else if t[key].phase != expected then (t, Failed(InvalidTransition))
    else (t[key := Tombstone(t[key], error, now)], Changed(Tombstone(t[key], error, now)))
  }

  function AdvanceStep(t: Table, key: string, next: Phase, now: u64): (Table, Outcome) {
    if key !in t then (t, Failed(Missing))
    else if !LegalAdvance(t[key].phase, next) then (t, Failed(InvalidTransition))
    else (t[key := Advanced(t[key], next, now)], Changed(Advanced(t[key], next, now)))
  }

  /** One operation: the table it commits and what it returns. */
  ghost function Step(t: Table, op: Op): (Table, Outcome) {
    match op
    case Reserve(key, digest, jobId, now, outputLimit) => ReserveStep(t, key, digest, jobId, now, outputLimit)
    case Advance(key, next, now) => AdvanceStep(t, key, next, now)
    case FailPreparing(key, error, now) => TombstoneStep(t, key, Preparing, error, now)
    case AbandonAccepted(key, error, now) => TombstoneStep(t, key, Accepted, error, now)
    case Prune(now) => (Live(t, now), Pruned(|ExpiredKeys(t, now)|))
    case Lookup(key) => (t, Found(if key in t then Some(t[key]) else None))
    case StorageFault => (t, Failed(Storage))
  }
}
