/**
 What holds over every timed run of attempts and background cleanups.
 */
module LoginThrottleRuns {
  import opened Wrappers
  import opened LoginThrottle

  /** An attempt enforces all its keys, then fails on all of them or succeeds and clears some of them. */
  datatype Event =
    | Attempt(keys: seq<Key>, readings: seq<int>, now: int, success: bool, clears: seq<Key>)
    | Cleanup(now: int)

  datatype Outcome = Refused(retryAfter: nat) | Rejected(retryAfter: nat) | Accepted

  ghost predicate WellTimed(policies: Policies, event: Event, clock: int) {
    && clock <= event.now
    && (event.Attempt? ==>
          && Known(policies, event.keys) && Distinct(event.keys) && |event.keys| == |event.readings|
          && (forall i :: 0 <= i < |event.readings| ==> clock <= event.readings[i] <= event.now)
          && (forall key :: key in event.clears ==> key in event.keys))
  }

  function After(policies: Policies, retentionDays: nat, rows: Rows, event: Event): Rows
    requires event.Attempt? ==> Known(policies, event.keys) && |event.keys| == |event.readings|
  {
    match event
    case Attempt(keys, readings, now, success, clears) =>
      if RetryAfter(rows, keys, readings) != 0 then rows
      else if success then Cleared(rows, clears)
      else RecordRows(policies, rows, keys, now)
    case Cleanup(now) => CleanedUp(rows, retentionDays, now)
  }

  function Answer(policies: Policies, rows: Rows, event: Event): Outcome
    requires event.Attempt? && Known(policies, event.keys) && |event.keys| == |event.readings|
  {
    var retry := RetryAfter(rows, event.keys, event.readings);
    if retry != 0 then Refused(retry)
    else if event.success then Accepted
    else Rejected(RecordRetry(policies, rows, event.keys, event.now))
  }

  /** A run on a clock that never goes back. */
  ghost predicate Timeline(policies: Policies, events: seq<Event>, clock: int)
    decreases |events|
  {
    events != [] ==> WellTimed(policies, events[0], clock) && Timeline(policies, events[1..], events[0].now)
  }

  /** Every attempt names known keys, with one reading of the clock for each. */
  ghost predicate Callable(policies: Policies, events: seq<Event>) {
    forall i :: 0 <= i < |events| && events[i].Attempt? ==>
      Known(policies, events[i].keys) && |events[i].keys| == |events[i].readings|
  }

  function Run(policies: Policies, retentionDays: nat, rows: Rows, events: seq<Event>): Rows
    requires Callable(policies, events)
    decreases |events|
  {
    if events == [] then rows
    else Run(policies, retentionDays, After(policies, retentionDays, rows, events[0]), events[1..])
  }

  lemma {:induction false} TimelineIsCallable(policies: Policies, events: seq<Event>, clock: int)
    requires Timeline(policies, events, clock)
    ensures Callable(policies, events)
    decreases |events|
  {
    if events != [] {
      TimelineIsCallable(policies, events[1..], events[0].now);
      forall i | 0 <= i < |events| && events[i].Attempt?
        ensures Known(policies, events[i].keys) && |events[i].keys| == |events[i].readings|
      {
        assert i > 0 ==> events[i] == events[1..][i - 1];
      }
    }
  }

  function Clock(events: seq<Event>, clock: int): int {
    if events == [] then clock else events[|events| - 1].now
  }

  // ---------------------------------------------------------------- Enforcement and recording, key by key

  lemma {:induction false} RetryIsZeroIff(rows: Rows, keys: seq<Key>, readings: seq<int>)
    requires |keys| == |readings|
    ensures RetryAfter(rows, keys, readings) == 0 <==>
            forall i :: 0 <= i < |keys| && keys[i] in rows ==> RetrySeconds(rows[keys[i]], readings[i]) == 0
  {
    if keys != [] {
      RetryIsZeroIff(rows, keys[..|keys| - 1], readings[..|keys| - 1]);
    }
  }

  lemma RetrySecondsPositive(row: Row, now: int)
    ensures RetrySeconds(row, now) == 0 <==> row.blockedUntil.None? || row.blockedUntil.value <= now
  {
  }

  // ---------------------------------------------------------------- The row invariant

  /** The seconds of blocking served before failure number `attempts + k`. */
  function Ladder(p: Policy, k: nat): nat {
    if k == 0 then 0 else Ladder(p, k - 1) + Penalty(p, k - 1)
  }

  ghost predicate RowInv(p: Policy, row: Row, clock: int) {
    && row.failures >= 1
    && row.windowStart <= row.updatedAt <= clock && row.updatedAt - row.windowStart < p.window * SECOND
    && (row.failures < p.attempts ==> row.blockedUntil.None?)
    && (row.failures >= p.attempts ==>
          && row.blockedUntil == Some(row.updatedAt + Penalty(p, row.failures - p.attempts) * SECOND)
          && Ladder(p, row.failures - p.attempts) * SECOND <= row.updatedAt - row.windowStart)
  }

  ghost predicate RowsInv(policies: Policies, rows: Rows, clock: int) {
    forall key :: key in rows ==> key.scope in policies && RowInv(policies[key.scope], rows[key], clock)
  }

  lemma FailedKeeps(p: Policy, row: Option<Row>, clock: int, now: int)
    requires InRange(p) && clock <= now
    requires row.Some? ==> RowInv(p, row.value, clock) && RetrySeconds(row.value, now) == 0
    ensures RowInv(p, Failed(p, row, now), now)
  {
    hide Failed, Penalty;
    var after := Failed(p, row, now);
    FailedFails(p, row, now);
    if after.failures > p.attempts {
      RetrySecondsPositive(row.value, now);
      var k := after.failures - p.attempts;
      assert row.value.failures == p.attempts + k - 1;
      assert Ladder(p, k) == Ladder(p, k - 1) + Penalty(p, k - 1);
    }
  }

  lemma AfterKeeps(policies: Policies, retentionDays: nat, rows: Rows, event: Event, clock: int)
    requires PoliciesInRange(policies) && RowsInv(policies, rows, clock) && WellTimed(policies, event, clock)
    ensures RowsInv(policies, After(policies, retentionDays, rows, event), event.now)
  {
    if event.Attempt? && RetryAfter(rows, event.keys, event.readings) == 0 && !event.success {
      RetryIsZeroIff(rows, event.keys, event.readings);
      var after := RecordRows(policies, rows, event.keys, event.now);
      forall key | key in after ensures key.scope in policies && RowInv(policies[key.scope], after[key], event.now) {
        RecordedRow(policies, rows, event.keys, event.now, key);
        if key in event.keys {
          var i :| 0 <= i < |event.keys| && event.keys[i] == key;
          if key in rows {
            RetrySecondsPositive(rows[key], event.readings[i]);
            RetrySecondsPositive(rows[key], event.now);
          }
          FailedKeeps(policies[key.scope], Find(rows, key), clock, event.now);
        }
      }
    }
  }

  /** A success forgets the failures of the keys it clears: the next failure of such a key is its first. */
  lemma SuccessStartsAfresh(policies: Policies, retentionDays: nat, rows: Rows, success: Event, next: Event, clock: int,
                            key: Key)
    requires WellTimed(policies, success, clock) && WellTimed(policies, next, success.now)
    requires success.Attempt? && Answer(policies, rows, success).Accepted? && key in success.clears
    requires var after := After(policies, retentionDays, rows, success);
             next.Attempt? && key in next.keys && Answer(policies, after, next).Rejected?
    ensures var after := After(policies, retentionDays, rows, success);
            && key !in after && (forall other :: other !in success.clears ==> Find(after, other) == Find(rows, other))
            && var final := After(policies, retentionDays, after, next);
               key in final && final[key].failures == 1 && final[key].windowStart == next.now
  {
    hide Penalty, Block, RecordRows, RecordRetry;
    var after := After(policies, retentionDays, rows, success);
    RecordedRow(policies, after, next.keys, next.now, key);
    FailedFails(policies[key.scope], None, next.now);
  }

  lemma {:induction false} RunKeeps(policies: Policies, retentionDays: nat, rows: Rows, events: seq<Event>, clock: int)
    requires PoliciesInRange(policies) && RowsInv(policies, rows, clock) && Timeline(policies, events, clock)
    ensures Callable(policies, events)
    ensures RowsInv(policies, Run(policies, retentionDays, rows, events), Clock(events, clock))
    decreases |events|
  {
    TimelineIsCallable(policies, events, clock);
    if events != [] {
      AfterKeeps(policies, retentionDays, rows, events[0], clock);
      RunKeeps(policies, retentionDays, After(policies, retentionDays, rows, events[0]), events[1..], events[0].now);
    }
  }

  // ---------------------------------------------------------------- How many failures fit in a window

  lemma DoubledGrows(base: nat, times: nat)
    ensures Doubled(base, times) >= base
  {
  }

  lemma {:induction false} LadderAtLeast(p: Policy, k: nat)
    ensures k * Min(p.base, p.max) <= Ladder(p, k)
  {
    if k > 0 {
      LadderAtLeast(p, k - 1);
      DoubledGrows(p.base, Min(k - 1, 4));
      assert k * Min(p.base, p.max) == (k - 1) * Min(p.base, p.max) + Min(p.base, p.max);
    }
  }

  /**
   In every run, a row that has failed `attempts + k` times has served the whole ladder of its first k blocks
   inside one window, so k is bounded by the window over the smallest block.
   */
  lemma FailuresPerWindowAreBounded(policies: Policies, retentionDays: nat, events: seq<Event>, clock: int, key: Key,
                                    k: nat)
    requires PoliciesInRange(policies) && Timeline(policies, events, clock)
    requires Callable(policies, events)
    requires var rows := Run(policies, retentionDays, map[], events);
             key in rows && key.scope in policies && rows[key].failures == policies[key.scope].attempts + k
    ensures var row, p := Run(policies, retentionDays, map[], events)[key], policies[key.scope];
            && Ladder(p, k) * SECOND <= row.updatedAt - row.windowStart < p.window * SECOND
            && k * Min(p.base, p.max) < p.window
            && (p.base <= p.max ==> k * p.base < p.window)
  {
    RunKeeps(policies, retentionDays, map[], events, clock);
    LadderAtLeast(policies[key.scope], k);
  }

  // ---------------------------------------------------------------- When the base block bounds the failures

  /** In every run, the failures beyond the threshold, times the base block, stay under the window. */
  ghost predicate BaseBoundHolds(p: Policy, retentionDays: nat) {
    forall policies: Policies, events, clock, key, k: nat ::
      Reaches(policies, p, retentionDays, events, clock, key, k) ==> k * p.base < p.window
  }

  /** Some run brings a row of this policy to `attempts + k` failures in one window. */
  ghost predicate Reaches(policies: Policies, p: Policy, retentionDays: nat, events: seq<Event>, clock: int, key: Key,
                          k: nat) {
    && PoliciesInRange(policies) && Timeline(policies, events, clock)
    && Callable(policies, events)
    && key.scope in policies && policies[key.scope] == p
    && key in Run(policies, retentionDays, map[], events)
    && Run(policies, retentionDays, map[], events)[key].failures == p.attempts + k
  }

  const THE_KEY := Key("login_account", "hash")

  /** The table after `n` failures of one key, each as early as its block allows, when the cap is the smaller block. */
  function Climbed(p: Policy, n: nat): Rows {
    if n == 0 then map[]
    else if n < p.attempts then map[THE_KEY := Row(n, 0, None, 0)]
    else map[THE_KEY := Row(n, 0, Some((n - p.attempts + 1) * p.max * SECOND), (n - p.attempts) * p.max * SECOND)]
  }

  function TimeOf(p: Policy, n: nat): int {
    if n <= p.attempts then 0 else (n - p.attempts) * p.max * SECOND
  }

  function FailAt(now: int): Event {
    Attempt([THE_KEY], [now], now, false, [])
  }

  lemma CappedBlock(p: Policy, failures: nat)
    requires p.max < p.base && failures >= p.attempts
    ensures Block(p, failures) == p.max
  {
    DoubledGrows(p.base, Min(failures - p.attempts, 4));
  }

  /** One more failure of the key, as early as its block allows, in a window that is not over. */
  lemma FailureClimbs(p: Policy, n: nat)
    requires InRange(p) && p.max < p.base
    requires n >= p.attempts ==> (n + 1 - p.attempts) * p.max < p.window
    ensures Failed(p, Find(Climbed(p, n), THE_KEY), TimeOf(p, n + 1)) == Climbed(p, n + 1)[THE_KEY]
    ensures TimeOf(p, n) <= TimeOf(p, n + 1)
  {
    if n + 1 >= p.attempts {
      CappedBlock(p, n + 1);
      var k := n + 1 - p.attempts;
      assert k * p.max * SECOND + p.max * SECOND == (k + 1) * p.max * SECOND;
    }
    hide Block;
  }

  lemma ClimbOne(policies: Policies, p: Policy, retentionDays: nat, n: nat)
    requires InRange(p) && p.max < p.base && policies == map[THE_KEY.scope := p]
    requires n >= p.attempts ==> (n + 1 - p.attempts) * p.max < p.window
    ensures After(policies, retentionDays, Climbed(p, n), FailAt(TimeOf(p, n + 1))) == Climbed(p, n + 1)
    ensures TimeOf(p, n) <= TimeOf(p, n + 1)
  {
    FailureClimbs(p, n);
    hide Failed, Block, InRange;
    var now := TimeOf(p, n + 1);
    var rows := Climbed(p, n);
    assert [THE_KEY][..0] == [] && [now][..0] == [];
    assert RetryAfter(rows, [], []) == 0;
    assert RetryAfter(rows, [THE_KEY], [now]) == 0;
    assert RecordRows(policies, rows, [], now) == rows;
  }

  lemma FirstThenTheRest(policies: Policies, retentionDays: nat, rows: Rows, first: Event, rest: seq<Event>, clock: int)
    requires WellTimed(policies, first, clock) && Timeline(policies, rest, first.now) && Callable(policies, rest)
    ensures Timeline(policies, [first] + rest, clock) && Callable(policies, [first] + rest)
    ensures Run(policies, retentionDays, rows, [first] + rest)
         == Run(policies, retentionDays, After(policies, retentionDays, rows, first), rest)
  {
    hide After, RetryAfter;
    var events := [first] + rest;
    assert events[1..] == rest;
    forall i | 0 <= i < |events| && events[i].Attempt?
      ensures Known(policies, events[i].keys) && |events[i].keys| == |events[i].readings|
    {
      assert i > 0 ==> events[i] == rest[i - 1];
    }
  }

  lemma FailureIsTimely(policies: Policies, now: int, clock: int)
    requires THE_KEY.scope in policies && clock <= now
    ensures WellTimed(policies, FailAt(now), clock)
  {
  }

  lemma {:induction false} Climb(policies: Policies, p: Policy, retentionDays: nat, n: nat, target: nat)
    returns (events: seq<Event>)
    requires InRange(p) && p.max < p.base && policies == map[THE_KEY.scope := p]
    requires n <= target && (target > p.attempts ==> (target - p.attempts) * p.max < p.window)
    ensures Timeline(policies, events, TimeOf(p, n))
    ensures Callable(policies, events)
    ensures Run(policies, retentionDays, Climbed(p, n), events) == Climbed(p, target)
    decreases target - n
  {
    hide After, Climbed, TimeOf, Run, Timeline, Callable, WellTimed, InRange;
    if n == target {
      events := [];
      NothingHappens(policies, retentionDays, Climbed(p, n), TimeOf(p, n));
    } else {
      StillInTheWindow(p, n, target);
      ClimbOne(policies, p, retentionDays, n);
      var rest := Climb(policies, p, retentionDays, n + 1, target);
      var now := TimeOf(p, n + 1);
      FailureIsTimely(policies, now, TimeOf(p, n));
      FirstThenTheRest(policies, retentionDays, Climbed(p, n), FailAt(now), rest, TimeOf(p, n));
      events := [FailAt(now)] + rest;
    }
  }

  lemma NothingHappens(policies: Policies, retentionDays: nat, rows: Rows, clock: int)
    ensures Timeline(policies, [], clock) && Callable(policies, []) && Run(policies, retentionDays, rows, []) == rows
  {
  }

  lemma StillInTheWindow(p: Policy, n: nat, target: nat)
    requires n < target && (target > p.attempts ==> (target - p.attempts) * p.max < p.window)
    ensures n >= p.attempts ==> (n + 1 - p.attempts) * p.max < p.window
  {
    if n >= p.attempts {
      MultiplesGrow(n + 1 - p.attempts, target - p.attempts, p.max);
    }
  }

  lemma QuotientBounds(k: nat, m: nat, w: nat)
    requires m >= 1 && w >= 1 && k * m < w
    ensures k <= (w - 1) / m
  {
    if (w - 1) / m + 1 <= k {
      MultiplesGrow((w - 1) / m + 1, k, m);
      assert false;
    }
  }

  lemma MultiplesGrow(a: nat, b: nat, m: nat)
    requires a <= b
    ensures a * m <= b * m
  {
    assert b * m == a * m + (b - a) * m;
  }

  lemma CappedBound(p: Policy, k: nat)
    requires InRange(p) && p.base > p.max && (p.window - 1) / p.max * p.base < p.window && k * p.max < p.window
    ensures k * p.base < p.window
  {
    QuotientBounds(k, p.max, p.window);
    MultiplesGrow(k, (p.window - 1) / p.max, p.base);
  }

  lemma QuotientFits(m: nat, w: nat)
    requires m >= 1 && w >= 1
    ensures (w - 1) / m * m < w
  {
  }

  lemma TooManyCappedBlocks(p: Policy, retentionDays: nat)
    requires InRange(p) && p.base > p.max && (p.window - 1) / p.max * p.base >= p.window
    ensures !BaseBoundHolds(p, retentionDays)
  {
    var k := (p.window - 1) / p.max;
    QuotientFits(p.max, p.window);
    var policies := map[THE_KEY.scope := p];
    var events := Climb(policies, p, retentionDays, 0, p.attempts + k);
    hide Run, Timeline;
    assert Reaches(policies, p, retentionDays, events, 0, THE_KEY, k);
  }

  /**
   Whatever the retention, the bound by the base block holds unless the cap is smaller and enough capped blocks fit in
   a window.
   */
  lemma BaseBoundHoldsIff(p: Policy, retentionDays: nat)
    requires InRange(p)
    ensures BaseBoundHolds(p, retentionDays) <==> p.base <= p.max || (p.window - 1) / p.max * p.base < p.window
  {
    if p.base > p.max && (p.window - 1) / p.max * p.base >= p.window {
      TooManyCappedBlocks(p, retentionDays);
    } else {
      forall policies: Policies, events, clock, key, k: nat | Reaches(policies, p, retentionDays, events, clock, key, k)
        ensures k * p.base < p.window
      {
        FailuresPerWindowAreBounded(policies, retentionDays, events, clock, key, k);
        if p.base > p.max {
          CappedBound(p, k);
        }
      }
    }
  }

  // ---------------------------------------------------------------- Retry-After

  lemma {:induction false} RecordRetryIsEnforced(policies: Policies, rows: Rows, keys: seq<Key>, now: int,
                                        later: Rows, readings: seq<int>)
    requires Known(policies, keys) && Distinct(keys) && |readings| == |keys|
    requires forall i :: 0 <= i < |readings| ==> readings[i] == now
    requires forall i :: 0 <= i < |keys| ==>
      Find(later, keys[i]) == Find(RecordRows(policies, rows, keys, now), keys[i])
    requires forall key ::
      key in later && key.scope in policies && later[key].failures < policies[key.scope].attempts ==>
               later[key].blockedUntil.None?
    ensures RecordRetry(policies, rows, keys, now) == RetryAfter(later, keys, readings)
  {
    if keys != [] {
      var n := |keys| - 1;
      var shorter := keys[..n];
      forall i | 0 <= i < n
        ensures Find(later, shorter[i]) == Find(RecordRows(policies, rows, shorter, now), shorter[i])
      {
        assert shorter[i] == keys[i] && keys[i] != keys[n];
        assert Find(later, keys[i]) == Find(RecordRows(policies, rows, keys, now), keys[i]);
      }
      RecordRetryIsEnforced(policies, rows, shorter, now, later, readings[..n]);
      RecordedRow(policies, rows, keys, now, keys[n]);
      assert keys[n] in keys;
      assert Find(later, keys[n]) == Some(Failed(policies[keys[n].scope], Find(rows, keys[n]), now));
      assert BlockedFor(policies[keys[n].scope], later[keys[n]]) == RetrySeconds(later[keys[n]], readings[n]);
    }
  }

  function Repeat(now: int, n: nat): seq<int> {
    seq(n, i => now)
  }

  /** The Retry-After of a rejected attempt is what enforcement would answer for the same keys at that instant. */
  lemma RetryAfterIsExact(policies: Policies, retentionDays: nat, rows: Rows, event: Event, clock: int)
    requires PoliciesInRange(policies) && RowsInv(policies, rows, clock) && WellTimed(policies, event, clock)
    requires event.Attempt? && Answer(policies, rows, event).Rejected?
    ensures Answer(policies, rows, event).retryAfter
         == RetryAfter(After(policies, retentionDays, rows, event), event.keys, Repeat(event.now, |event.keys|))
  {
    var later := After(policies, retentionDays, rows, event);
    AfterKeeps(policies, retentionDays, rows, event, clock);
    RecordRetryIsEnforced(policies, rows, event.keys, event.now, later, Repeat(event.now, |event.keys|));
  }

  lemma {:induction false} RetryBoundsEach(rows: Rows, keys: seq<Key>, readings: seq<int>, i: nat)
    requires |keys| == |readings| && i < |keys| && keys[i] in rows
    ensures RetrySeconds(rows[keys[i]], readings[i]) <= RetryAfter(rows, keys, readings)
  {
    if i < |keys| - 1 {
      RetryBoundsEach(rows, keys[..|keys| - 1], readings[..|keys| - 1], i);
    }
  }

  /** Waiting the announced whole seconds, with the rows untouched, lets enforcement pass. */
  lemma WaitingPasses(rows: Rows, keys: seq<Key>, now: int, readings: seq<int>)
    requires |readings| == |keys|
    requires forall i :: 0 <= i < |readings| ==>
      readings[i] >= now + RetryAfter(rows, keys, Repeat(now, |keys|)) * SECOND
    ensures RetryAfter(rows, keys, readings) == 0
  {
    var announced := Repeat(now, |keys|);
    forall i | 0 <= i < |keys| && keys[i] in rows ensures RetrySeconds(rows[keys[i]], readings[i]) == 0 {
      RetryBoundsEach(rows, keys, announced, i);
    }
    RetryIsZeroIff(rows, keys, readings);
  }

  /** After a rejection the announced wait is also necessary: one microsecond less is still refused. */
  lemma WaitingLessIsRefused(policies: Policies, retentionDays: nat, rows: Rows, event: Event, clock: int, when: int)
    requires PoliciesInRange(policies) && RowsInv(policies, rows, clock) && WellTimed(policies, event, clock)
    requires event.Attempt? && Answer(policies, rows, event).Rejected?
    requires when < event.now + Answer(policies, rows, event).retryAfter * SECOND
    ensures Answer(policies, rows, event).retryAfter > 0 ==>
              RetryAfter(After(policies, retentionDays, rows, event), event.keys, Repeat(when, |event.keys|)) > 0
  {
    hide Failed, Penalty, Block, RecordRetry, RecordRows, RetryAfter, Ladder;
    var retry := Answer(policies, rows, event).retryAfter;
    if retry > 0 {
      var later := After(policies, retentionDays, rows, event);
      AfterKeeps(policies, retentionDays, rows, event, clock);
      RetryAfterIsExact(policies, retentionDays, rows, event, clock);
      var i := LongestBlock(later, event.keys, Repeat(event.now, |event.keys|));
      FailedRowIsUpdated(policies, rows, event, clock, i);
      var row := later[event.keys[i]];
      assert RowInv(policies[event.keys[i].scope], row, event.now);
      RetryIsZeroIff(later, event.keys, Repeat(when, |event.keys|));
    }
  }

  lemma FailedRowIsUpdated(policies: Policies, rows: Rows, event: Event, clock: int, i: nat)
    requires WellTimed(policies, event, clock) && event.Attempt? && i < |event.keys|
    ensures var after := RecordRows(policies, rows, event.keys, event.now);
            event.keys[i] in after && after[event.keys[i]].updatedAt == event.now
  {
    hide Failed, Penalty;
    RecordedRow(policies, rows, event.keys, event.now, event.keys[i]);
    FailedFails(policies[event.keys[i].scope], Find(rows, event.keys[i]), event.now);
  }

  lemma {:induction false} LongestBlock(rows: Rows, keys: seq<Key>, readings: seq<int>) returns (i: nat)
    requires |keys| == |readings| && RetryAfter(rows, keys, readings) > 0
    ensures i < |keys| && keys[i] in rows
    ensures RetrySeconds(rows[keys[i]], readings[i]) == RetryAfter(rows, keys, readings)
  {
    var n := |keys| - 1;
    if RetryAfter(rows, keys[..n], readings[..n]) == RetryAfter(rows, keys, readings) {
      i := LongestBlock(rows, keys[..n], readings[..n]);
    } else {
      i := n;
    }
  }

  // ---------------------------------------------------------------- Live blocks

  lemma PenaltyIsCapped(p: Policy, k: nat)
    requires InRange(p)
    ensures Penalty(p, k) * SECOND <= DAY
  {
  }

  /** An event leaves a live block alone: attempts are refused, and cleanup keeps the row. */
  lemma EventSparesBlock(policies: Policies, retentionDays: nat, rows: Rows, event: Event, clock: int, key: Key)
    requires PoliciesInRange(policies) && retentionDays >= 1
    requires RowsInv(policies, rows, clock) && WellTimed(policies, event, clock)
    requires key in rows && rows[key].blockedUntil.Some? && rows[key].blockedUntil.value > event.now
    ensures Find(After(policies, retentionDays, rows, event), key) == Some(rows[key])
  {
    hide Penalty, Ladder, Failed, RecordRows, RetryAfter, RetrySeconds;
    var p := policies[key.scope];
    assert rows[key].failures >= p.attempts;
    PenaltyIsCapped(p, rows[key].failures - p.attempts);
    if event.Attempt? && key in event.keys {
      var i :| 0 <= i < |event.keys| && event.keys[i] == key;
      RetrySecondsPositive(rows[key], event.readings[i]);
      RetryIsZeroIff(rows, event.keys, event.readings);
    } else if event.Attempt? {
      RecordedRow(policies, rows, event.keys, event.now, key);
    }
  }

  /** A block survives every run that ends before the block does. */
  lemma {:induction false} LiveBlocksSurvive(policies: Policies, retentionDays: nat, rows: Rows, events: seq<Event>,
                                        clock: int, key: Key)
    requires PoliciesInRange(policies) && retentionDays >= 1
    requires RowsInv(policies, rows, clock) && Timeline(policies, events, clock)
    requires key in rows && rows[key].blockedUntil.Some? && rows[key].blockedUntil.value > Clock(events, clock)
    ensures Callable(policies, events)
    ensures Find(Run(policies, retentionDays, rows, events), key) == Some(rows[key])
    decreases |events|
  {
    TimelineIsCallable(policies, events, clock);
    if events != [] {
      var after := After(policies, retentionDays, rows, events[0]);
      ClockAdvances(policies, events[1..], events[0].now);
      EventSparesBlock(policies, retentionDays, rows, events[0], clock, key);
      AfterKeeps(policies, retentionDays, rows, events[0], clock);
      LiveBlocksSurvive(policies, retentionDays, after, events[1..], events[0].now, key);
    }
  }

  lemma {:induction false} ClockAdvances(policies: Policies, events: seq<Event>, clock: int)
    requires Timeline(policies, events, clock)
    ensures clock <= Clock(events, clock)
    decreases |events|
  {
    if events != [] {
      ClockAdvances(policies, events[1..], events[0].now);
    }
  }

  /** Until the block ends, every attempt with the key is refused, whatever else has happened in between. */
  lemma BlockedKeysAreRefused(policies: Policies, retentionDays: nat, rows: Rows, events: seq<Event>, event: Event,
                              clock: int, key: Key)
    requires PoliciesInRange(policies) && retentionDays >= 1 && RowsInv(policies, rows, clock)
    requires Timeline(policies, events, clock) && WellTimed(policies, event, Clock(events, clock))
    requires event.Attempt? && key in event.keys
    requires key in rows && rows[key].blockedUntil.Some? && rows[key].blockedUntil.value > event.now
    ensures Callable(policies, events)
    ensures Answer(policies, Run(policies, retentionDays, rows, events), event).Refused?
  {
    LiveBlocksSurvive(policies, retentionDays, rows, events, clock, key);
    var there := Run(policies, retentionDays, rows, events);
    var i :| 0 <= i < |event.keys| && event.keys[i] == key;
    RetrySecondsPositive(there[key], event.readings[i]);
    RetryIsZeroIff(there, event.keys, event.readings);
  }

  // ---------------------------------------------------------------- Cleanup is invisible

  /** A row that no longer influences anything: its window is over and its block has ended. */
  ghost predicate Stale(p: Policy, row: Row, clock: int) {
    && clock - row.windowStart >= p.window * SECOND
    && (row.blockedUntil.None? || row.blockedUntil.value <= clock)
  }

  /** Two tables that differ at most by stale rows. */
  ghost predicate Alike(policies: Policies, a: Rows, b: Rows, clock: int) {
    && (forall key :: key in a ==>
          key.scope in policies && if key in b then a[key] == b[key] else Stale(policies[key.scope], a[key], clock))
    && (forall key :: key in b && key !in a ==> key.scope in policies && Stale(policies[key.scope], b[key], clock))
  }

  lemma {:induction false} SameRetry(policies: Policies, a: Rows, b: Rows, keys: seq<Key>, readings: seq<int>,
                                     clock: int)
    requires Alike(policies, a, b, clock) && |keys| == |readings|
    requires forall i :: 0 <= i < |readings| ==> clock <= readings[i]
    ensures RetryAfter(a, keys, readings) == RetryAfter(b, keys, readings)
  {
    if keys != [] {
      SameRetry(policies, a, b, keys[..|keys| - 1], readings[..|keys| - 1], clock);
    }
  }

  lemma SameFailure(policies: Policies, a: Rows, b: Rows, key: Key, clock: int, now: int)
    requires Alike(policies, a, b, clock) && clock <= now && key.scope in policies
    ensures Failed(policies[key.scope], Find(a, key), now) == Failed(policies[key.scope], Find(b, key), now)
  {
  }

  lemma {:induction false} SameRecordRetry(policies: Policies, a: Rows, b: Rows, keys: seq<Key>, clock: int, now: int)
    requires Alike(policies, a, b, clock) && clock <= now && Known(policies, keys) && Distinct(keys)
    ensures RecordRetry(policies, a, keys, now) == RecordRetry(policies, b, keys, now)
  {
    if keys != [] {
      var n := |keys| - 1;
      SameRecordRetry(policies, a, b, keys[..n], clock, now);
      SameFailure(policies, a, b, keys[n], clock, now);
      RecordedRow(policies, a, keys, now, keys[n]);
      RecordedRow(policies, b, keys, now, keys[n]);
      assert keys[n] in keys;
    }
  }

  /** An attempt answers alike tables alike and leaves them alike. */
  lemma AttemptKeepsAlike(policies: Policies, retentionDays: nat, a: Rows, b: Rows, event: Event, clock: int)
    requires event.Attempt? && WellTimed(policies, event, clock) && Alike(policies, a, b, clock)
    ensures Answer(policies, a, event) == Answer(policies, b, event)
    ensures Alike(policies, After(policies, retentionDays, a, event), After(policies, retentionDays, b, event),
            event.now)
  {
    SameRetry(policies, a, b, event.keys, event.readings, clock);
    SameRecordRetry(policies, a, b, event.keys, clock, event.now);
    if RetryAfter(a, event.keys, event.readings) == 0 && !event.success {
      var a', b' := RecordRows(policies, a, event.keys, event.now), RecordRows(policies, b, event.keys, event.now);
      forall key
        ensures key in a' ==>
          key.scope in policies && if key in b' then a'[key] == b'[key]
            else Stale(policies[key.scope], a'[key], event.now)
        ensures key in b' && key !in a' ==> key.scope in policies && Stale(policies[key.scope], b'[key], event.now)
      {
        RecordedRow(policies, a, event.keys, event.now, key);
        RecordedRow(policies, b, event.keys, event.now, key);
        if key in event.keys {
          SameFailure(policies, a, b, key, clock, event.now);
        }
      }
    }
  }

  /** Deleting rows older than the retention period leaves a table alike. */
  lemma CleanupKeepsAlike(policies: Policies, retentionDays: nat, a: Rows, b: Rows, now: int, clock: int)
    requires PoliciesInRange(policies) && retentionDays >= 1 && clock <= now
    requires RowsInv(policies, a, clock) && Alike(policies, a, b, clock)
    ensures Alike(policies, CleanedUp(a, retentionDays, now), b, now)
  {
    hide Penalty, Ladder;
    forall key | key in a && a[key].updatedAt < now - retentionDays * DAY
      ensures Stale(policies[key.scope], a[key], now)
    {
      var p := policies[key.scope];
      assert p.window * SECOND <= DAY;
      if a[key].failures >= p.attempts {
        PenaltyIsCapped(p, a[key].failures - p.attempts);
      }
    }
  }

  /** The answers of all attempts of a run, with or without its background cleanups. */
  function Answers(policies: Policies, retentionDays: nat, rows: Rows, events: seq<Event>, cleaning: bool): seq<Outcome>
    requires Callable(policies, events)
    decreases |events|
  {
    if events == [] then []
    else if events[0].Attempt? then
      var after := After(policies, retentionDays, rows, events[0]);
      [Answer(policies, rows, events[0])] + Answers(policies, retentionDays, after, events[1..], cleaning)
    else
      var after := if cleaning then After(policies, retentionDays, rows, events[0]) else rows;
      Answers(policies, retentionDays, after, events[1..], cleaning)
  }

  /** Retention cleanup is invisible: every attempt of every run is answered as if no row had ever been deleted. */
  lemma {:induction false} CleanupIsInvisible(policies: Policies, retentionDays: nat, a: Rows, b: Rows,
                                        events: seq<Event>, clock: int)
    requires PoliciesInRange(policies) && retentionDays >= 1 && Timeline(policies, events, clock)
    requires RowsInv(policies, a, clock) && Alike(policies, a, b, clock)
    requires Callable(policies, events)
    ensures Answers(policies, retentionDays, a, events, true) == Answers(policies, retentionDays, b, events, false)
    decreases |events|
  {
    if events != [] {
      var event := events[0];
      AfterKeeps(policies, retentionDays, a, event, clock);
      var a' := After(policies, retentionDays, a, event);
      if event.Attempt? {
        AttemptKeepsAlike(policies, retentionDays, a, b, event, clock);
        CleanupIsInvisible(policies, retentionDays, a', After(policies, retentionDays, b, event), events[1..],
          event.now);
      } else {
        CleanupKeepsAlike(policies, retentionDays, a, b, event.now, clock);
        CleanupIsInvisible(policies, retentionDays, a', b, events[1..], event.now);
      }
    }
  }
}
