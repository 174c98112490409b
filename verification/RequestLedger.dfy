/**
 `RequestLedger`: the durable table and the transactions on it, as the program runs them.
 Each method commits exactly what the transition function says and returns what it says.
 */
module RequestLedger {
  import opened Admission
  import opened Bytes
  import opened Ledger
  import opened Utf8

  class RequestLedger {
    /** The committed table. */
    var table: Table

    constructor ()
      ensures table == map[]
    {
      table := map[];
    }

    /** The loop over the entries: drop what is past retention, count and add up the rest.  The
        write transaction works on its own copy until it commits. */
    method Tally(now: u64) returns (working: Table, active: nat, retained: nat, output: u64)
      ensures working == Live(table, now) && active == Total(working, ActiveWeight) && retained == |working|
      ensures output == Min(Total(working, OutputWeight(now)), U64_MAX)
    {
      hide Expired, OutputWeight, ActiveWeight, Total, Counted, Remaining, Live;
      working := table;
      active, retained := 0, 0;
      output := 0;
      var todo := table.Keys;
      TotalEmpty(ActiveWeight);
      TotalEmpty(OutputWeight(now));
      CountedEnds(table, now);
      while todo != {}
        invariant todo <= table.Keys
        invariant working == Remaining(table, todo, now)
        invariant active == Total(Counted(table, todo, now), ActiveWeight) && retained == |Counted(table, todo, now)|
        invariant output == Min(Total(Counted(table, todo, now), OutputWeight(now)), U64_MAX)
        decreases todo
      {
        var k :| k in todo;
        var e := table[k];
        CountedStep(table, todo, now, k);
        if Expired(e, now, REQUEST_RETENTION_MS) {
          working := working - {k};
        } else {
          Account(Counted(table, todo, now), k, e, now);
          retained := retained + 1;
          active := active + ActiveWeight(e);
          if !Expired(e, now, OUTPUT_RETENTION_MS) {
            output := SaturatingAdd(output, e.outputLimit);
          }
        }
        todo := todo - {k};
      }
    }

    /** Atomic first reservation, with opportunistic pruning inside the transaction. */
    method ReserveWithOutput(key: string, digest: Digest, jobId: string, now: u64, outputLimit: u64)
      returns (r: Outcome)
      modifies this
      ensures (table, r) == Step(old(table), Reserve(key, digest, jobId, now, outputLimit))
      ensures r.Failed? ==> table == old(table)
      ensures key !in old(table) && r.Reserved? ==>
                && table == Step(old(table), Prune(now)).0[key := r.entry]
                && r.entry == Reservation(jobId, digest, Preparing, now, None, outputLimit, None)
      ensures key !in old(table) ==> (r.Reserved? <==> HasRoom(old(table), now, outputLimit))
    {
      hide Expired, OutputWeight, ActiveWeight, Total, HasRoom;
      AdmittedExactly(table, key, digest, jobId, now, outputLimit);
      if key in table {
        return if table[key].digest == digest then Reserved(table[key]) else Failed(Conflict);
      }
      var working, active, retained, output := Tally(now);
      if active >= MAX_ACTIVE_JOBS || retained >= MAX_RETAINED_REQUESTS || outputLimit > MAX_OUTPUT_BYTES
         || SaturatingAdd(output, outputLimit) > MAX_RETAINED_OUTPUT_BYTES {
        return Failed(Capacity);
      }
      var entry := Fresh(digest, jobId, now, outputLimit);
      table := working[key := entry];
      r := Reserved(entry);
    }

    method AdvancePhase(key: string, next: Phase, now: u64) returns (r: Outcome)
      modifies this
      ensures (table, r) == Step(old(table), Advance(key, next, now))
      ensures r.Failed? ==> table == old(table)
    {
      if key !in table {
        return Failed(Missing);
      }
      var entry := table[key];
      if !LegalAdvance(entry.phase, next) {
        return Failed(InvalidTransition);
      }
      entry := entry.(phase := next);
      if next == Terminal {
        entry := entry.(terminalAt := Some(now));
      }
      table := table[key := entry];
      r := Changed(entry);
    }

    method Bury(key: string, expected: Phase, error: ExecError, now: u64) returns (r: Outcome)
      modifies this
      ensures (table, r) == TombstoneStep(old(table), key, expected, error, now)
      ensures r.Failed? ==> table == old(table)
    {
      if key !in table {
        return Failed(Missing);
      }
      var entry := table[key];
      if entry.phase != expected {
        return Failed(InvalidTransition);
      }
      entry := entry.(phase := Terminal);
      entry := entry.(terminalAt := Some(now));
      entry := entry.(outputLimit := 0);
      entry := entry.(admissionError := Some(error));
      table := table[key := entry];
      r := Changed(entry);
    }

    /** Drop terminal entries whose request retention is over; count them. */
    method PruneExpired(now: u64) returns (count: nat)
      modifies this
      ensures (table, Pruned(count)) == Step(old(table), Prune(now))
    {
      hide Expired;
      var expired := set k | k in table && Expired(table[k], now, REQUEST_RETENTION_MS);
      count := |expired|;
      var working := table;
      var todo := expired;
      while todo != {}
        invariant todo <= expired && table == old(table)
        invariant working == (map k | k in table && (k in todo || k !in expired) :: table[k])
        decreases todo
      {
        var k :| k in todo;
        working := working - {k};
        todo := todo - {k};
      }
      LiveIsRest(table, now, expired, working);
      table := working;
    }
  }

  lemma LiveIsRest(t: Table, now: u64, expired: set<string>, working: Table)
    requires forall k :: k in expired <==> k in t && Expired(t[k], now, REQUEST_RETENTION_MS)
    requires forall k :: k in working <==> k in t && k !in expired
    requires forall k :: k in working ==> working[k] == t[k]
    ensures working == Live(t, now)
  {
    hide Expired;
    assert working.Keys == Live(t, now).Keys;
  }

  /** The entries within retention among those already visited. */
  function Counted(t: Table, todo: set<string>, now: u64): Table {
    map k | k in t && k !in todo && !Expired(t[k], now, REQUEST_RETENTION_MS) :: t[k]
  }

  /** The table without the visited entries past retention. */
  function Remaining(t: Table, todo: set<string>, now: u64): Table {
    map k | k in t && (k in todo || !Expired(t[k], now, REQUEST_RETENTION_MS)) :: t[k]
  }

  lemma CountedEnds(t: Table, now: u64)
    ensures Counted(t, t.Keys, now) == map[] && Remaining(t, t.Keys, now) == t
    ensures Counted(t, {}, now) == Live(t, now) == Remaining(t, {}, now)
  {
    hide Expired;
  }

  lemma CountedStep(t: Table, todo: set<string>, now: u64, k: string)
    requires k in todo && k in t
    ensures k !in Counted(t, todo, now)
    ensures
      if Expired(t[k], now, REQUEST_RETENTION_MS) then
        && Counted(t, todo - {k}, now) == Counted(t, todo, now)
        && Remaining(t, todo - {k}, now) == Remaining(t, todo, now) - {k}
      else
        && Counted(t, todo - {k}, now) == Counted(t, todo, now)[k := t[k]]
        && Remaining(t, todo - {k}, now) == Remaining(t, todo, now)
  {
    hide Expired;
  }

  /** Counting one more entry. */
  lemma Account(kept: Table, k: string, e: Reservation, now: u64)
    requires k !in kept
    ensures |kept[k := e]| == |kept| + 1
    ensures Total(kept[k := e], ActiveWeight) == Total(kept, ActiveWeight) + ActiveWeight(e)
    ensures Min(Total(kept[k := e], OutputWeight(now)), U64_MAX)
         == if Expired(e, now, OUTPUT_RETENTION_MS) then Min(Total(kept, OutputWeight(now)), U64_MAX)
            else SaturatingAdd(Min(Total(kept, OutputWeight(now)), U64_MAX), e.outputLimit)
  {
    hide Expired, Total;
    TotalInsert(kept, ActiveWeight, k, e);
    TotalInsert(kept, OutputWeight(now), k, e);
    assert kept[k := e].Keys == kept.Keys + {k};
  }

  // ----- the key under which a request is reserved

  /** The bytes `request_key` hashes: each field after its length. */
  function KeyData(fields: seq<seq<byte>>): seq<byte> {
    if fields == [] then [] else LittleEndian(|fields[0]|, 8) + fields[0] + KeyData(fields[1..])
  }

  /** Different callers, targets or request IDs are hashed from different bytes, however their
      fields are cut: lengths are 64-bit, as the program stores them. */
  lemma {:induction false} KeyDataInjective(a: seq<seq<byte>>, b: seq<seq<byte>>)
    requires |a| == |b| && KeyData(a) == KeyData(b)
    requires forall i :: 0 <= i < |a| ==> |a[i]| <= U64_MAX && |b[i]| <= U64_MAX
    ensures a == b
  {
    if a != [] {
      var x, y := KeyData(a), KeyData(b);
      assert x[..8] == LittleEndian(|a[0]|, 8) && y[..8] == LittleEndian(|b[0]|, 8);
      EightBytes();
      LittleEndianInjective(|a[0]|, |b[0]|, 8);
      var n := |a[0]|;
      assert x[8..8 + n] == a[0] && y[8..8 + n] == b[0];
      assert x[8 + n..] == KeyData(a[1..]) && y[8 + n..] == KeyData(b[1..]);
      KeyDataInjective(a[1..], b[1..]);
      assert a == [a[0]] + a[1..] && b == [b[0]] + b[1..];
    }
  }
}
