/**
 The bounded retry of an observation call.  Times are in nanoseconds.
 */
module Retry {
  import opened Utf8

  const MS: nat := 1_000_000

  datatype Code =
    | InvalidArgument | Unauthenticated | PermissionDenied | PolicyUnavailable | TargetUnavailable
    | ProfileUnavailable | UnsupportedOperation | ExecutableNotFound | CwdInvalid | ResourceExhausted
    | DeadlineExceeded | RequestConflict | JobNotFound | OutputExpired | AuditUnavailable
    | SupervisorUnavailable | BackendFailure | Internal

  datatype ExecError = ExecError(code: Code, retryable: bool, retryAfterMs: Option<nat>)

  /** A failed call: whether its kind is `Unavailable`, and the typed error it carries, if any. */
  datatype Failure = Failure(unavailable: bool, exec: Option<ExecError>)

  const TRANSIENT_CODES: set<Code> := {
    SupervisorUnavailable, TargetUnavailable, PolicyUnavailable, ResourceExhausted, AuditUnavailable,
    BackendFailure, DeadlineExceeded, Unauthenticated}

  /** The codes that trying again cannot mend. */
  const PERMANENT_CODES: set<Code> := {
    InvalidArgument, PermissionDenied, ProfileUnavailable, UnsupportedOperation, ExecutableNotFound, CwdInvalid,
    RequestConflict, JobNotFound, OutputExpired, Internal}

  lemma CodesSplit(c: Code)
    ensures c in TRANSIENT_CODES <==> c !in PERMANENT_CODES
  {
    match c {
      case InvalidArgument => case Unauthenticated => case PermissionDenied => case PolicyUnavailable =>
      case TargetUnavailable => case ProfileUnavailable => case UnsupportedOperation => case ExecutableNotFound =>
      case CwdInvalid => case ResourceExhausted => case DeadlineExceeded => case RequestConflict =>
      case JobNotFound => case OutputExpired => case AuditUnavailable => case SupervisorUnavailable =>
      case BackendFailure => case Internal =>
    }
  }

  function Clamp(n: nat, low: nat, high: nat): nat
    requires low <= high
  {
    if n < low then low else if n > high then high else n
  }

  /** `retry_delay`: a failure is transient when it carries a retryable error with one of the
      transient codes, or no typed error and the kind `Unavailable`. */
  function RetryDelay(f: Failure): (r: Option<nat>)
    ensures r.Some? ==> 10 * MS <= r.value <= 1000 * MS
    ensures f.exec.Some? ==> (r.Some? <==> f.exec.value.retryable && f.exec.value.code !in PERMANENT_CODES)
    ensures f.exec.None? ==> (r.Some? <==> f.unavailable)
    ensures r.Some? && f.exec.None? ==> r.value == 250 * MS
    ensures r.Some? && f.exec.Some? && f.exec.value.retryAfterMs.None? ==> r.value == 100 * MS
    ensures r.Some? && f.exec.Some? && f.exec.value.retryAfterMs.Some? ==>
              var asked := f.exec.value.retryAfterMs.value;
              && (asked <= 10 ==> r.value == 10 * MS) && (asked >= 1000 ==> r.value == 1000 * MS)
              && (10 <= asked <= 1000 ==> r.value == asked * MS)
  {
    if f.exec.None? then
      if f.unavailable then Some(250 * MS) else None
    else
      CodesSplit(f.exec.value.code);
      if f.exec.value.retryable && f.exec.value.code in TRANSIENT_CODES then
        Some(Clamp(if f.exec.value.retryAfterMs.Some? then f.exec.value.retryAfterMs.value else 100, 10, 1000) * MS)
      else None
  }

  /** How an attempt ends: with a value, with a failure, or cut off at the deadline. */
  datatype Outcome<V> = Value(v: V) | Error(f: Failure) | CutOff

  /** An attempt's outcome and the time read after it. */
  datatype Attempt<V> = Attempt(outcome: Outcome<V>, at: nat)

  datatype Result<V> = Ok(v: V) | Err(f: Failure)

  /** The error of a deadline that passed before any transient failure. */
  const DEADLINE_EXCEEDED: Failure := Failure(true, None)

  /** The clock never runs back, and a sleep lasts at least as long as asked. */
  ghost predicate Possible<V(!new)>(calls: nat -> Attempt<V>, start: nat) {
    && calls(0).at >= start
    && forall k: nat :: Slept(calls, k)
  }

  ghost predicate Slept<V>(calls: nat -> Attempt<V>, k: nat) {
    var a := calls(k);
    a.outcome.Error? && RetryDelay(a.outcome.f).Some? ==>
      calls(k + 1).at >= a.at + RetryDelay(a.outcome.f).value
  }

  /** `retry_observation`: every attempt but the last failed transiently with time to spare; the
      last one decides the result, or the failure before it when it was cut off; and for every
      clock and every sequence of failures there are at most `budget` / 10 ms retries. */
  method RetryObservation<V(!new)>(calls: nat -> Attempt<V>, start: nat, budget: nat) returns (r: Result<V>, made: nat)
    requires Possible(calls, start)
    ensures made >= 1 && (made > 1 ==> (made - 1) * 10 * MS < budget)
    ensures forall k: nat :: k < made - 1 ==>
              var a := calls(k);
              && a.outcome.Error? && RetryDelay(a.outcome.f).Some?
              && a.at + RetryDelay(a.outcome.f).value < start + budget
    ensures calls(made - 1).outcome.Value? ==> r == Ok(calls(made - 1).outcome.v)
    ensures calls(made - 1).outcome.Error? ==>
              var (f, at) := (calls(made - 1).outcome.f, calls(made - 1).at);
              r == Err(f) && (RetryDelay(f).Some? ==> at + RetryDelay(f).value >= start + budget)
    ensures calls(made - 1).outcome.CutOff? ==>
              r == Err(if made == 1 then Failure(true, None) else calls(made - 2).outcome.f)
  {
    var deadline := start + budget;
    var lastError: Option<Failure> := None;
    made := 0;
    while true
      invariant calls(made).at >= start + made * 10 * MS
      invariant made > 0 ==> made * 10 * MS < budget
      invariant forall k: nat :: k < made ==>
                  var a := calls(k);
                  && a.outcome.Error? && RetryDelay(a.outcome.f).Some?
                  && a.at + RetryDelay(a.outcome.f).value < deadline
      invariant made > 0 ==> calls(made - 1).outcome.Error? && lastError == Some(calls(made - 1).outcome.f)
      invariant made == 0 ==> lastError == None
      decreases budget - made
    {
      var a := calls(made);
      made := made + 1;
      match a.outcome {
        case CutOff =>
          r := Err(if lastError.Some? then lastError.value else DEADLINE_EXCEEDED);
          return;
        case Value(v) =>
          r := Ok(v);
          return;
        case Error(f) =>
          var delay := RetryDelay(f);
          if delay.None? {
            r := Err(f);
            return;
          }
          if a.at + delay.value >= deadline {
            r := Err(f);
            return;
          }
          assert Slept(calls, made - 1);
          lastError := Some(f);
      }
    }
  }
}
