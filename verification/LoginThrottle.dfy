/**
 The login throttle: fixed windows of failures and capped exponential blocks, on integer microseconds.

 Every attempt first enforces the blocks of its keys and then, at a later or equal instant, either records a
 failure on all of them or clears some of them. Rows untouched for longer than the retention period are
 deleted in the background.
 */
module LoginThrottle {
  import opened Wrappers

  const SECOND := 1_000_000
  const DAY := 86_400 * SECOND

  /** The limits of one scope. */
  datatype Policy = Policy(attempts: nat, window: nat, base: nat, max: nat)

  type Policies = map<string, Policy>

  datatype Key = Key(scope: string, hash: string)

  datatype Row = Row(failures: nat, windowStart: int, blockedUntil: Option<int>, updatedAt: int)

  type Rows = map<Key, Row>

  /** The ranges the settings accept. */
  ghost predicate InRange(p: Policy) {
    2 <= p.attempts <= 1000 && 30 <= p.window <= 86_400 && 1 <= p.base <= 3600 && 1 <= p.max <= 86_400
  }

  ghost predicate PoliciesInRange(policies: Policies) {
    forall scope :: scope in policies ==> InRange(policies[scope])
  }

  function Min(a: nat, b: nat): nat {
    if a <= b then a else b
  }

  function Max(a: nat, b: nat): nat {
    if a <= b then b else a
  }

  function Doubled(base: nat, times: nat): nat {
    if times == 0 then base else 2 * Doubled(base, times - 1)
  }

  /** Seconds blocked after the failure that brings the count to `failures`. */
  function Block(p: Policy, failures: nat): nat
    requires failures >= p.attempts
  {
    Min(Doubled(p.base, Min(failures - p.attempts, 4)), p.max)
  }

  /** The factor of the k-th block beyond the first: doubled four times at most. */
  function Multiplier(k: nat): nat {
    match k
    case 0 => 1
    case 1 => 2
    case 2 => 4
    case 3 => 8
    case _ => 16
  }

  /** What failure number `attempts + k` costs: the base times its factor, but never more than the maximum. */
  function Penalty(p: Policy, k: nat): nat {
    var uncapped := p.base * Multiplier(k);
    if uncapped <= p.max then uncapped else p.max
  }

  lemma BlockIsCappedDoubling(p: Policy, k: nat)
    ensures Block(p, p.attempts + k) == Penalty(p, k)
  {
    assert Doubled(p.base, 0) == p.base && Doubled(p.base, 1) == 2 * p.base && Doubled(p.base, 2) == 4 * p.base;
    assert Doubled(p.base, 3) == 8 * p.base && Doubled(p.base, 4) == 16 * p.base;
  }

  /** Whole seconds until `blockedUntil`, rounded up; 0 once it is reached. */
  function RetrySeconds(row: Row, now: int): nat {
    if row.blockedUntil.None? || row.blockedUntil.value <= now then 0
    else (row.blockedUntil.value - now + SECOND - 1) / SECOND
  }

  /** The announced seconds are the fewest whole ones after which the block is over. */
  lemma RetrySecondsAreTheFewest(row: Row, now: int, seconds: nat)
    ensures RetrySeconds(row, now) <= seconds
       <==> (row.blockedUntil.Some? ==> row.blockedUntil.value <= now + seconds * 1_000_000)
  {
  }

  /** What enforcement finds; each key's clock is read on its own. */
  function RetryAfter(rows: Rows, keys: seq<Key>, readings: seq<int>): nat
    requires |keys| == |readings|
  {
    if keys == [] then 0
    else
      var n := |keys| - 1;
      Max(RetryAfter(rows, keys[..n], readings[..n]),
          if keys[n] in rows then RetrySeconds(rows[keys[n]], readings[n]) else 0)
  }

  /** A row after one more failure; a missing row counts as a fresh one. */
  function Failed(p: Policy, row: Option<Row>, now: int): Row {
    var r := if row.Some? then row.value else Row(0, now, None, now);
    var w := if now - r.windowStart >= p.window * SECOND then Row(0, now, None, r.updatedAt) else r;
    var failures := w.failures + 1;
    Row(failures, w.windowStart,
        if failures >= p.attempts then Some(now + Block(p, failures) * SECOND) else w.blockedUntil, now)
  }

  function Find(rows: Rows, key: Key): Option<Row> {
    if key in rows then Some(rows[key]) else None
  }

  predicate Known(policies: Policies, keys: seq<Key>) {
    forall i :: 0 <= i < |keys| ==> keys[i].scope in policies
  }

  predicate Distinct(keys: seq<Key>) {
    forall i, j :: 0 <= i < j < |keys| ==> keys[i] != keys[j]
  }

  function RecordRows(policies: Policies, rows: Rows, keys: seq<Key>, now: int): Rows
    requires Known(policies, keys)
  {
    if keys == [] then rows
    else
      var n := |keys| - 1;
      var before := RecordRows(policies, rows, keys[..n], now);
      before[keys[n] := Failed(policies[keys[n].scope], Find(before, keys[n]), now)]
  }

  /** The seconds a row that just failed is blocked for. */
  function BlockedFor(p: Policy, row: Row): nat {
    if row.failures >= p.attempts then Block(p, row.failures) else 0
  }

  function RecordRetry(policies: Policies, rows: Rows, keys: seq<Key>, now: int): nat
    requires Known(policies, keys)
  {
    if keys == [] then 0
    else
      var n := |keys| - 1;
      var after := RecordRows(policies, rows, keys, now);
      Max(RecordRetry(policies, rows, keys[..n], now), BlockedFor(policies[keys[n].scope], after[keys[n]]))
  }

  // ---------------------------------------------------------------- What one failure means for its rows

  /** A missing row, or one whose window is over, starts a window of its own at this failure. */
  ghost predicate Restarts(p: Policy, row: Option<Row>, now: int) {
    row.None? || row.value.windowStart + p.window * 1_000_000 <= now
  }

  /** The row `after` the failure that found the row `before`. */
  ghost predicate FailsTo(p: Policy, before: Option<Row>, now: int, after: Row) {
    && after.updatedAt == now
    && (Restarts(p, before, now) ==> after.failures == 1 && after.windowStart == now)
    && (!Restarts(p, before, now) ==>
          after.failures == before.value.failures + 1 && after.windowStart == before.value.windowStart)
    && (after.failures >= p.attempts ==>
          after.blockedUntil == Some(now + Penalty(p, after.failures - p.attempts) * 1_000_000))
    && (after.failures < p.attempts && Restarts(p, before, now) ==> after.blockedUntil == None)
    && (after.failures < p.attempts && !Restarts(p, before, now) ==> after.blockedUntil == before.value.blockedUntil)
  }

  /** Each key's row has failed once more, and all other rows are as they were. */
  ghost predicate AllFail(policies: Policies, before: Rows, keys: seq<Key>, now: int, after: Rows) {
    && (forall i :: 0 <= i < |keys| ==>
          && keys[i].scope in policies && keys[i] in after
          && FailsTo(policies[keys[i].scope], Find(before, keys[i]), now, after[keys[i]]))
    && (forall key :: key !in keys ==> Find(after, key) == Find(before, key))
  }

  /** The answer is the longest of the blocks that the keys have just got, or zero. */
  ghost predicate Longest(policies: Policies, after: Rows, keys: seq<Key>, retryAfter: nat) {
    && (forall i, seconds :: 0 <= i < |keys| && Costs(policies, after, keys[i], seconds) ==> seconds <= retryAfter)
    && (retryAfter > 0 ==> exists i :: 0 <= i < |keys| && Costs(policies, after, keys[i], retryAfter))
  }

  ghost predicate Costs(policies: Policies, rows: Rows, key: Key, seconds: int) {
    && key in rows && key.scope in policies && rows[key].failures >= policies[key.scope].attempts
    && Penalty(policies[key.scope], rows[key].failures - policies[key.scope].attempts) == seconds
  }

  lemma FailedFails(p: Policy, row: Option<Row>, now: int)
    ensures FailsTo(p, row, now, Failed(p, row, now))
  {
    var failures := Failed(p, row, now).failures;
    if failures >= p.attempts {
      BlockIsCappedDoubling(p, failures - p.attempts);
    }
  }

  lemma {:induction false} RecordedRow(policies: Policies, rows: Rows, keys: seq<Key>, now: int, key: Key)
    requires Known(policies, keys) && Distinct(keys)
    ensures key !in keys ==> Find(RecordRows(policies, rows, keys, now), key) == Find(rows, key)
    ensures key in keys ==>
              Find(RecordRows(policies, rows, keys, now), key)
              == Some(Failed(policies[key.scope], Find(rows, key), now))
  {
    if keys != [] {
      var n := |keys| - 1;
      RecordedRow(policies, rows, keys[..n], now, key);
      assert keys == keys[..n] + [keys[n]];
    }
  }

  /** Recording a failure on different keys does to each of them what one failure does. */
  lemma RecordingFailsAll(policies: Policies, rows: Rows, keys: seq<Key>, now: int)
    requires Known(policies, keys) && Distinct(keys)
    ensures AllFail(policies, rows, keys, now, RecordRows(policies, rows, keys, now))
  {
    hide Failed, FailsTo, RecordRows;
    var after := RecordRows(policies, rows, keys, now);
    forall i | 0 <= i < |keys|
      ensures keys[i] in after && FailsTo(policies[keys[i].scope], Find(rows, keys[i]), now, after[keys[i]])
    {
      RecordedRow(policies, rows, keys, now, keys[i]);
      FailedFails(policies[keys[i].scope], Find(rows, keys[i]), now);
    }
    forall key | key !in keys ensures Find(after, key) == Find(rows, key) {
      RecordedRow(policies, rows, keys, now, key);
    }
  }

  /** The recorded answer is the longest block among the failed rows. */
  lemma {:induction false} RecordRetryIsLongest(policies: Policies, rows: Rows, keys: seq<Key>, now: int, i: nat)
    returns (longest: nat)
    requires Known(policies, keys) && Distinct(keys) && i < |keys|
    ensures longest < |keys|
    ensures var retry := RecordRetry(policies, rows, keys, now);
            && BlockedFor(policies[keys[i].scope], Failed(policies[keys[i].scope], Find(rows, keys[i]), now)) <= retry
            && BlockedFor(policies[keys[longest].scope],
                          Failed(policies[keys[longest].scope], Find(rows, keys[longest]), now)) == retry
  {
    hide Failed, Block, BlockedFor;
    var n := |keys| - 1;
    RecordedRow(policies, rows, keys, now, keys[n]);
    assert keys[n] in keys;
    longest := n;
    if n > 0 {
      var before := RecordRetryIsLongest(policies, rows, keys[..n], now, if i < n then i else 0);
      if RecordRetry(policies, rows, keys, now) == RecordRetry(policies, rows, keys[..n], now) {
        longest := before;
      }
    }
  }

  lemma TheLongestIsAnswered(policies: Policies, rows: Rows, keys: seq<Key>, now: int)
    requires Known(policies, keys) && Distinct(keys)
    ensures Longest(policies, RecordRows(policies, rows, keys, now), keys, RecordRetry(policies, rows, keys, now))
  {
    hide Failed, RecordRows, Penalty, RecordRetry, Block;
    var after, retry := RecordRows(policies, rows, keys, now), RecordRetry(policies, rows, keys, now);
    forall i, seconds | 0 <= i < |keys| && Costs(policies, after, keys[i], seconds) ensures seconds <= retry {
      var longest := RecordRetryIsLongest(policies, rows, keys, now, i);
      RecordedRow(policies, rows, keys, now, keys[i]);
      BlockIsCappedDoubling(policies[keys[i].scope], after[keys[i]].failures - policies[keys[i].scope].attempts);
    }
    if retry > 0 {
      AnEmptyListAnswersZero(policies, rows, keys, now);
      var i := RecordRetryIsLongest(policies, rows, keys, now, 0);
      RecordedRow(policies, rows, keys, now, keys[i]);
      BlockIsCappedDoubling(policies[keys[i].scope], after[keys[i]].failures - policies[keys[i].scope].attempts);
      assert Costs(policies, after, keys[i], retry);
    }
  }

  lemma AnEmptyListAnswersZero(policies: Policies, rows: Rows, keys: seq<Key>, now: int)
    requires Known(policies, keys)
    ensures keys == [] ==> RecordRetry(policies, rows, keys, now) == 0
  {
  }

  function Cleared(rows: Rows, keys: seq<Key>): Rows {
    map key | key in rows && key !in keys :: rows[key]
  }

  function CleanedUp(rows: Rows, retentionDays: nat, now: int): Rows {
    map key | key in rows && rows[key].updatedAt >= now - retentionDays * DAY :: rows[key]
  }

  // ---------------------------------------------------------------- The rows as a table

  class Throttle {
    const policies: Policies
    const retentionDays: nat
    var rows: Rows

    constructor (policies: Policies, retentionDays: nat)
      ensures this.policies == policies && this.retentionDays == retentionDays && rows == map[]
    {
      this.policies, this.retentionDays, rows := policies, retentionDays, map[];
    }

    method Enforce(keys: seq<Key>, readings: seq<int>) returns (retryAfter: nat)
      requires |keys| == |readings|
      ensures retryAfter == RetryAfter(rows, keys, readings)
    {
      retryAfter := 0;
      for i := 0 to |keys|
        invariant retryAfter == RetryAfter(rows, keys[..i], readings[..i])
      {
        assert keys[..i + 1][..i] == keys[..i] && readings[..i + 1][..i] == readings[..i];
        if keys[i] in rows {
          retryAfter := Max(retryAfter, RetrySeconds(rows[keys[i]], readings[i]));
        }
      }
      assert keys[..|keys|] == keys && readings[..|keys|] == readings;
    }

    /** The row of a key, inserted empty when there is none. */
    method RowForUpdate(key: Key, now: int) returns (row: Row)
      modifies this
      ensures key in rows && row == rows[key]
      ensures rows == old(rows)[key := row]
      ensures row == (if key in old(rows) then old(rows)[key] else Row(0, now, None, now))
    {
      if key !in rows {
        rows := rows[key := Row(0, now, None, now)];
      }
      row := rows[key];
    }

    method RecordFailure(keys: seq<Key>, now: int) returns (retryAfter: nat)
      requires Known(policies, keys)
      modifies this
      ensures rows == RecordRows(policies, old(rows), keys, now)
      ensures retryAfter == RecordRetry(policies, old(rows), keys, now)
      ensures Distinct(keys) ==> AllFail(policies, old(rows), keys, now, rows)
      ensures Distinct(keys) ==> Longest(policies, rows, keys, retryAfter)
    {
      hide AllFail, Longest, Block;
      retryAfter := 0;
      for i := 0 to |keys|
        invariant rows == RecordRows(policies, old(rows), keys[..i], now)
        invariant retryAfter == RecordRetry(policies, old(rows), keys[..i], now)
      {
        assert keys[..i + 1][..i] == keys[..i];
        ghost var before := rows;
        var key, policy := keys[i], policies[keys[i].scope];
        var row := RowForUpdate(key, now);
        if now - row.windowStart >= policy.window * SECOND {
          row := row.(failures := 0, windowStart := now, blockedUntil := None);
        }
        row := row.(failures := row.failures + 1, updatedAt := now);
        if row.failures >= policy.attempts {
          var seconds := Block(policy, row.failures);
          row := row.(blockedUntil := Some(now + seconds * SECOND));
          retryAfter := Max(retryAfter, seconds);
        }
        rows := rows[key := row];
        assert row == Failed(policy, Find(before, key), now);
        assert rows == before[key := row];
      }
      assert keys[..|keys|] == keys;
      if Distinct(keys) {
        RecordingFailsAll(policies, old(rows), keys, now);
        TheLongestIsAnswered(policies, old(rows), keys, now);
      }
    }

    method ClearFailures(keys: seq<Key>)
      modifies this
      ensures rows == Cleared(old(rows), keys)
      ensures forall key :: Find(rows, key) == if key in keys then None else Find(old(rows), key)
    {
      for i := 0 to |keys|
        invariant rows == Cleared(old(rows), keys[..i])
      {
        rows := rows - {keys[i]};
      }
      assert keys[..|keys|] == keys;
    }

    method Cleanup(now: int)
      modifies this
      ensures rows == CleanedUp(old(rows), retentionDays, now)
      ensures forall key ::
        key in rows <==> key in old(rows) && now - old(rows)[key].updatedAt <= retentionDays * 86_400_000_000
      ensures forall key :: key in rows ==> rows[key] == old(rows)[key]
    {
      var cutoff := now - retentionDays * DAY;
      rows := map key | key in rows && rows[key].updatedAt >= cutoff :: rows[key];
    }
  }
}
