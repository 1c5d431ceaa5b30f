/**
 The dashboard's per-client login backoff (dashboard/lib/login-throttle.ts).

 Times are milliseconds. `Fail`, `Ask` and `Prune` are the specification on
 values; class `Throttle` is the module with its mutable table, proved against
 them.
 */
module LoginThrottle {
  import opened Text

  const LOCK_AFTER: nat := 5
  const BASE_LOCK_MS: nat := 30_000
  const MAX_LOCK_MS: nat := 15 * 60_000
  const FORGET_AFTER_MS: nat := 2 * MAX_LOCK_MS
  const PRUNE_ABOVE: nat := 1_000

  datatype Attempts = Attempts(failures: nat, lastFailure: int, lockedUntil: int)

  type Table = map<string, Attempts>

  predicate IsStale(record: Attempts, now: int) {
    now >= record.lockedUntil && now - record.lastFailure > FORGET_AFTER_MS
  }

  function Pow2(n: nat): nat { if n == 0 then 1 else 2 * Pow2(n - 1) }

  /** How long the lock set by the `failures`-th failure lasts, 0 for none. */
  function LockMs(failures: nat): nat {
    if failures < LOCK_AFTER then 0
    else
      var ms := BASE_LOCK_MS * Pow2(failures - LOCK_AFTER);
      if ms < MAX_LOCK_MS then ms else MAX_LOCK_MS
  }

  function Failures(table: Table, key: string, now: int): nat {
    if key in table && !IsStale(table[key], now) then table[key].failures + 1 else 1
  }

  function Failed(failures: nat, now: int): Attempts {
    Attempts(failures, now, if failures >= LOCK_AFTER then now + LockMs(failures) else 0)
  }

  /** The table without the records that are stale at `now`. */
  function Prune(table: Table, now: int): Table {
    map key | key in table && !IsStale(table[key], now) :: table[key]
  }

  /** `recordFailure` on a table that is never pruned. */
  function FailUnpruned(table: Table, key: string, now: int): Table {
    table[key := Failed(Failures(table, key, now), now)]
  }

  /** `recordFailure`, which prunes a table of more than `PRUNE_ABOVE` records first. */
  function Fail(table: Table, key: string, now: int): Table {
    FailUnpruned(if |table| > PRUNE_ABOVE then Prune(table, now) else table, key, now)
  }

  function Ask(table: Table, key: string, now: int): int {
    if key in table && table[key].lockedUntil > now then table[key].lockedUntil - now else 0
  }

  // ---- The module ----

  class Throttle {
    var records: Table

    constructor ()
      ensures records == map[]
    {
      records := map[];
    }

    method PruneRecords(now: int)
      modifies this
      ensures records == if |old(records)| > PRUNE_ABOVE then Prune(old(records), now) else old(records)
    {
      if |records| <= PRUNE_ABOVE {
        return;
      }
      var left := records.Keys;
      while left != {}
        invariant left <= old(records).Keys
        invariant records == map key | key in old(records) && (key in left || !IsStale(old(records)[key], now))
                                  :: old(records)[key]
        decreases left
      {
        var key :| key in left;
        if IsStale(records[key], now) {
          records := records - {key};
        }
        left := left - {key};
      }
    }

    method LockRemaining(key: string, now: int) returns (ms: int)
      ensures ms == Ask(records, key, now) && ms >= 0
    {
      if key !in records {
        return 0;
      }
      var remaining := records[key].lockedUntil - now;
      return if remaining > 0 then remaining else 0;
    }

    method RecordFailure(key: string, now: int)
      modifies this
      ensures records == Fail(old(records), key, now)
    {
      PruneRecords(now);
      var failures := if key in records && !IsStale(records[key], now) then records[key].failures + 1 else 1;
      var lockedUntil := if failures >= LOCK_AFTER then now + LockMs(failures) else 0;
      records := records[key := Attempts(failures, now, lockedUntil)];
    }

    method RecordSuccess(key: string)
      modifies this
      ensures records == old(records) - {key}
    {
      records := records - {key};
    }
  }

  // ---- Lock lengths ----

  lemma {:induction false} PowGrows(n: nat, m: nat)
    requires n <= m
    ensures 1 <= Pow2(n) <= Pow2(m)
  {
    if m > 0 {
      if n == m {
        PowGrows(n - 1, m - 1);
      } else {
        PowGrows(n, m - 1);
      }
    }
  }

  lemma {:induction false} LocksGrow(f: nat, g: nat)
    requires f <= g
    ensures LockMs(f) <= LockMs(g) <= MAX_LOCK_MS
  {
    if f >= LOCK_AFTER {
      PowGrows(f - LOCK_AFTER, g - LOCK_AFTER);
    }
  }

  /** The fifth failure locks for 30 s and every later one doubles the lock, capped at 15 min; four are free. */
  lemma {:induction false} LocksDoubleUpToTheCap(f: nat)
    ensures f < LOCK_AFTER ==> LockMs(f) == 0
    ensures LockMs(LOCK_AFTER) == BASE_LOCK_MS
    ensures f >= LOCK_AFTER ==>
              LockMs(f + 1) == if 2 * LockMs(f) < MAX_LOCK_MS then 2 * LockMs(f) else MAX_LOCK_MS
  {
    assert Pow2(0) == 1;
    if f >= LOCK_AFTER {
      assert Pow2(f + 1 - LOCK_AFTER) == 2 * Pow2(f - LOCK_AFTER);
    }
  }

  // ---- Runs ----

  datatype Event = Attempt(key: string, now: int) | Success(key: string) | Query(key: string, now: int)

  function Apply(table: Table, event: Event): Table {
    match event
    case Attempt(key, now) => Fail(table, key, now)
    case Success(key) => table - {key}
    case Query(_, _) => table
  }

  function ApplyUnpruned(table: Table, event: Event): Table {
    match event
    case Attempt(key, now) => FailUnpruned(table, key, now)
    case Success(key) => table - {key}
    case Query(_, _) => table
  }

  /** The table after a run, as the module keeps it and as it would be without pruning. */
  function After(events: seq<Event>): Table {
    if events == [] then map[] else Apply(After(events[..|events| - 1]), events[|events| - 1])
  }

  function AfterUnpruned(events: seq<Event>): Table {
    if events == [] then map[] else ApplyUnpruned(AfterUnpruned(events[..|events| - 1]), events[|events| - 1])
  }

  /** No event is later than `now` and the clock never goes back. */
  ghost predicate Ordered(events: seq<Event>, now: int) {
    && (forall i | 0 <= i < |events| && !events[i].Success? :: events[i].now <= now)
    && (forall i, j | 0 <= i < j < |events| && !events[i].Success? && !events[j].Success? ::
          events[i].now <= events[j].now)
  }

  /** `pruned` differs from `full` only in records that are stale at `now`. */
  ghost predicate Simulates(pruned: Table, full: Table, now: int) {
    && (forall key | key in pruned :: key in full && pruned[key] == full[key])
    && (forall key | key in full && key !in pruned :: IsStale(full[key], now))
  }

  lemma {:induction false} FailKeepsSimulation(pruned: Table, full: Table, key: string, now: int)
    requires Simulates(pruned, full, now)
    ensures Simulates(Fail(pruned, key, now), FailUnpruned(full, key, now), now)
  {
    var swept := if |pruned| > PRUNE_ABOVE then Prune(pruned, now) else pruned;
    assert Simulates(swept, full, now);
    assert Failures(swept, key, now) == Failures(full, key, now);
  }

  lemma {:induction false} OrderedPrefix(events: seq<Event>, now: int, n: nat)
    requires Ordered(events, now) && n < |events|
    ensures Ordered(events[..n], now)
    ensures !events[n].Success? ==> Ordered(events[..n], events[n].now)
  {
  }

  lemma {:induction false} PruningSimulates(events: seq<Event>, now: int)
    requires Ordered(events, now)
    ensures Simulates(After(events), AfterUnpruned(events), now)
  {
    if events != [] {
      var n := |events| - 1;
      OrderedPrefix(events, now, n);
      if events[n].Attempt? {
        var t := events[n].now;
        PruningSimulates(events[..n], t);
        FailKeepsSimulation(After(events[..n]), AfterUnpruned(events[..n]), events[n].key, t);
      } else {
        PruningSimulates(events[..n], now);
      }
    }
  }

  /**
   Pruning is invisible: after any run on a clock that does not go back, the
   module answers every `lockRemaining` and counts every `recordFailure`
   exactly as a table that was never pruned.
   */
  lemma {:induction false} PruningIsInvisible(events: seq<Event>, key: string, now: int)
    requires Ordered(events, now)
    ensures Ask(After(events), key, now) == Ask(AfterUnpruned(events), key, now)
    ensures Fail(After(events), key, now)[key] == FailUnpruned(AfterUnpruned(events), key, now)[key]
  {
    PruningSimulates(events, now);
    FailKeepsSimulation(After(events), AfterUnpruned(events), key, now);
  }

  /** The answer for a key depends on that key's own events alone. */
  function Own(events: seq<Event>, key: string): seq<Event> {
    if events == [] then []
    else
      var rest, last := Own(events[..|events| - 1], key), events[|events| - 1];
      if last.key == key then rest + [last] else rest
  }

  lemma {:induction false} OwnEventsDecide(events: seq<Event>, key: string)
    ensures key in AfterUnpruned(events) <==> key in AfterUnpruned(Own(events, key))
    ensures key in AfterUnpruned(events) ==> AfterUnpruned(events)[key] == AfterUnpruned(Own(events, key))[key]
  {
    if events != [] {
      var n := |events| - 1;
      OwnEventsDecide(events[..n], key);
      var own := Own(events[..n], key);
      if events[n].key == key {
        assert (own + [events[n]])[..|own|] == own;
      }
    }
  }

  /** Clients do not affect each other: the module answers for a key as if only that key had ever been used. */
  lemma {:induction false} KeysAreIndependent(events: seq<Event>, key: string, now: int)
    requires Ordered(events, now)
    ensures Ask(After(events), key, now) == Ask(AfterUnpruned(Own(events, key)), key, now)
  {
    PruningIsInvisible(events, key, now);
    OwnEventsDecide(events, key);
  }

  // ---- Limits ----

  /** The `i`-th event is the last attempt of `key`. */
  ghost predicate LastAttempt(events: seq<Event>, i: nat, key: string) {
    && i < |events| && events[i].Attempt? && events[i].key == key
    && forall j | i < j < |events| :: !(events[j].Attempt? && events[j].key == key)
  }

  lemma {:induction false} OtherEventRecord(events: seq<Event>, key: string)
    requires events != [] && key in After(events)
    requires var last := events[|events| - 1]; !(last.Attempt? && last.key == key)
    ensures var before := After(events[..|events| - 1]); key in before && before[key] == After(events)[key]
  {
  }

  lemma {:induction false} LastStaysLast(events: seq<Event>, i: nat, key: string)
    requires events != [] && LastAttempt(events[..|events| - 1], i, key)
    requires var last := events[|events| - 1]; !(last.Attempt? && last.key == key)
    ensures LastAttempt(events, i, key) && events[i] == events[..|events| - 1][i]
  {
    var n := |events| - 1;
    forall j | i < j < |events|
      ensures !(events[j].Attempt? && events[j].key == key)
    {
      assert j < n ==> events[j] == events[..n][j];
    }
  }

  lemma {:induction false} RecordShape(events: seq<Event>, key: string) returns (i: nat)
    requires key in After(events)
    ensures var record := After(events)[key];
            && record == Failed(record.failures, record.lastFailure) && record.failures >= 1
            && LastAttempt(events, i, key) && events[i].now == record.lastFailure
  {
    var n := |events| - 1;
    if events[n].Attempt? && events[n].key == key {
      i := n;
    } else {
      OtherEventRecord(events, key);
      hide After;
      i := RecordShape(events[..n], key);
      LastStaysLast(events, i, key);
    }
  }

  /** Whatever the run and its clock, no lock lasts more than 15 minutes beyond the client's last failure. */
  lemma {:induction false} NoLockOutlastsTheCap(events: seq<Event>, key: string, now: int)
    requires now >= 0
    ensures Ask(After(events), key, now) > 0 ==>
              exists i: nat :: LastAttempt(events, i, key) &&
                               now + Ask(After(events), key, now) <= events[i].now + MAX_LOCK_MS
  {
    if Ask(After(events), key, now) > 0 {
      var i := RecordShape(events, key);
      var record := After(events)[key];
      LocksGrow(record.failures, record.failures);
      assert LastAttempt(events, i, key);
    }
  }

  // ---- What a run remembers ----

  /** A client whose last failure is more than half an hour ago is forgotten: the next one is its first and does not lock. */
  lemma {:induction false} ForgottenAfterHalfAnHour(events: seq<Event>, i: nat, key: string, now: int)
    requires LastAttempt(events, i, key) && now - events[i].now > 1_800_000 && now >= 0
    ensures Failures(After(events), key, now) == 1 && Ask(After(events), key, now) == 0
  {
    if key in After(events) {
      var last := RecordShape(events, key);
      assert last == i;
      var record := After(events)[key];
      LocksGrow(record.failures, record.failures);
    }
  }

  /** So is one that has not failed since it last succeeded, or has never failed, on any clock. */
  lemma {:induction false} ForgottenAfterSuccess(events: seq<Event>, i: nat, key: string, now: int)
    requires i <= |events| && (i > 0 ==> events[i - 1] == Success(key))
    requires forall j | i <= j < |events| :: !(events[j].Attempt? && events[j].key == key)
    ensures Failures(After(events), key, now) == 1 && Ask(After(events), key, now) == 0
  {
    NotOnRecord(events, i, key);
  }

  lemma {:induction false} NotOnRecord(events: seq<Event>, i: nat, key: string)
    requires i <= |events| && (i > 0 ==> events[i - 1] == Success(key))
    requires forall j | i <= j < |events| :: !(events[j].Attempt? && events[j].key == key)
    ensures key !in After(events)
  {
    var n := |events| - 1;
    if i <= n {
      NotOnRecord(events[..n], i, key);
    }
  }

  /** No success of `key` follows its `i`-th event. */
  ghost predicate NoSuccessAfter(events: seq<Event>, i: nat, key: string) {
    forall j | i < j < |events| :: events[j] != Success(key)
  }

  lemma {:induction false} RecordSince(events: seq<Event>, i: nat, key: string)
    requires LastAttempt(events, i, key) && NoSuccessAfter(events, i, key)
    ensures key in AfterUnpruned(events)
    ensures AfterUnpruned(events)[key] == Failed(Failures(AfterUnpruned(events[..i]), key, events[i].now), events[i].now)
  {
    var n := |events| - 1;
    if i < n {
      var earlier := events[..n];
      assert LastAttempt(earlier, i, key) && NoSuccessAfter(earlier, i, key);
      RecordSince(earlier, i, key);
      assert earlier[..i] == events[..i];
      assert !(events[n].Attempt? && events[n].key == key) && events[n] != Success(key);
    }
  }

  /**
   Within half an hour of its last failure, and without a success since, a client
   is remembered exactly: the next failure counts one more than that one did, and
   the lock is the rest of the one it set.
   */
  lemma {:induction false} RememberedForHalfAnHour(events: seq<Event>, i: nat, key: string, now: int)
    requires Ordered(events, now) && LastAttempt(events, i, key) && NoSuccessAfter(events, i, key)
    requires now - events[i].now <= 1_800_000 && now >= 0
    ensures var count := Failures(After(events[..i]), key, events[i].now);
            && Failures(After(events), key, now) == count + 1
            && Ask(After(events), key, now) ==
               if events[i].now + LockMs(count) > now then events[i].now + LockMs(count) - now else 0
  {
    RecordSince(events, i, key);
    OrderedPrefix(events, now, i);
    PruningIsInvisible(events[..i], key, events[i].now);
    PruningIsInvisible(events, key, now);
    var count := Failures(AfterUnpruned(events[..i]), key, events[i].now);
    CountIsInvisible(events[..i], key, events[i].now);
    CountIsInvisible(events, key, now);
  }

  lemma {:induction false} CountIsInvisible(events: seq<Event>, key: string, now: int)
    requires Ordered(events, now)
    ensures Failures(After(events), key, now) == Failures(AfterUnpruned(events), key, now)
  {
    PruningSimulates(events, now);
  }

  /** Attempts of `key` are only made while it is not locked out, as the login route makes them. */
  ghost predicate Gated(events: seq<Event>, key: string) {
    forall i | 0 <= i < |events| && events[i].Attempt? && events[i].key == key ::
      Ask(After(events[..i]), key, events[i].now) == 0
  }

  function Count(events: seq<Event>, key: string): nat {
    if events == [] then 0
    else
      var last := events[|events| - 1];
      Count(events[..|events| - 1], key) + if last.Attempt? && last.key == key then 1 else 0
  }

  /** The least time `k` attempts after one that counted as the `f`-th failure can take. */
  function MinSpan(f: nat, k: nat): nat {
    if k == 0 then 0 else MinSpan(f, k - 1) + LockMs(f + k - 1)
  }

  lemma {:induction false} SpansGrow(f: nat, g: nat, k: nat)
    requires f <= g
    ensures MinSpan(f, k) <= MinSpan(g, k)
  {
    if k > 0 {
      SpansGrow(f, g, k - 1);
      LocksGrow(f + k - 1, g + k - 1);
    }
  }

  lemma {:induction false} SpansGrowWithLength(f: nat, k: nat, m: nat)
    requires k <= m
    ensures MinSpan(f, k) <= MinSpan(f, m)
  {
    if k < m {
      SpansGrowWithLength(f, k, m - 1);
    }
  }

  /** Ten more attempts after a first failure take more than half an hour. */
  lemma {:induction false} ElevenAttemptsTakeTooLong()
    ensures MinSpan(1, 10) == 1_830_000 > FORGET_AFTER_MS
  {
    assert Pow2(0) == 1 && Pow2(1) == 2 && Pow2(2) == 4;
    assert Pow2(3) == 8 && Pow2(4) == 16 && Pow2(5) == 32;
    assert MinSpan(1, 4) == 0;
    assert MinSpan(1, 5) == LockMs(5) == 30_000;
    assert MinSpan(1, 6) == 90_000;
    assert MinSpan(1, 7) == 210_000;
    assert MinSpan(1, 8) == 450_000;
    assert MinSpan(1, 9) == 930_000;
  }

  /** Where a window of attempts has got to: `count` attempts since one that counted as the `f`-th failure at `first`. */
  ghost predicate Reached(table: Table, key: string, count: nat, f: nat, first: int) {
    count > 0 ==>
      && f >= 1 && key in table
      && table[key].failures == f + count - 1
      && table[key].lastFailure >= first + MinSpan(f, count - 1)
      && table[key] == Failed(table[key].failures, table[key].lastFailure)
  }

  /** The attempts of a window start at `start` or later and none of them clears the client. */
  ghost predicate Window(events: seq<Event>, a: nat, b: nat, key: string, start: int) {
    && a <= b <= |events|
    && forall i | a <= i < b && events[i].key == key ::
         && !events[i].Success?
         && (events[i].Attempt? ==> start <= events[i].now <= start + FORGET_AFTER_MS)
  }

  lemma {:induction false} AttemptReaches(table: Table, key: string, count: nat, f: nat, first: int, now: int, start: int)
    requires count > 0 && Reached(table, key, count, f, first)
    requires Ask(table, key, now) == 0 && now >= table[key].lastFailure
    requires start <= table[key].lastFailure && now <= start + FORGET_AFTER_MS && now >= 0
    ensures Reached(FailUnpruned(table, key, now), key, count + 1, f, first)
  {
    var record := table[key];
    assert !IsStale(record, now);
    assert now >= record.lastFailure + LockMs(record.failures);
    assert MinSpan(f, count) == MinSpan(f, count - 1) + LockMs(f + count - 1);
  }

  /** Where the window from `a` to `b` has got to, and that its last failure is one of its own attempts. */
  ghost predicate ReachedIn(events: seq<Event>, a: nat, b: nat, key: string, start: int, f: nat, first: int)
    requires a <= b <= |events|
  {
    var table, count := AfterUnpruned(events[..b]), Count(events[a..b], key);
    && Reached(table, key, count, f, first)
    && (count > 0 ==>
          && start <= first && start <= table[key].lastFailure <= start + FORGET_AFTER_MS
          && exists i | a <= i < b :: events[i] == Attempt(key, table[key].lastFailure))
  }

  lemma {:induction false} OtherReaches(events: seq<Event>, a: nat, n: nat, key: string, start: int, f: nat, first: int)
    requires a <= n < |events| && Window(events, a, n + 1, key, start)
    requires ReachedIn(events, a, n, key, start, f, first) && !(events[n].Attempt? && events[n].key == key)
    ensures ReachedIn(events, a, n + 1, key, start, f, first)
  {
    var b := n + 1;
    assert events[..b][..n] == events[..n];
    assert events[a..b][..|events[a..b]| - 1] == events[a..n];
    if Count(events[a..n], key) > 0 {
      var table := AfterUnpruned(events[..n]);
      assert AfterUnpruned(events[..b])[key] == table[key];
      var i :| a <= i < n && events[i] == Attempt(key, table[key].lastFailure);
      assert a <= i < b;
    }
  }

  lemma {:induction false} AttemptFindsNoLock(events: seq<Event>, n: nat, key: string, end: int)
    requires n < |events| && Ordered(events, end) && Gated(events, key)
    requires events[n].Attempt? && events[n].key == key
    ensures Ask(AfterUnpruned(events[..n]), key, events[n].now) == 0
  {
    OrderedPrefix(events, end, n);
    PruningIsInvisible(events[..n], key, events[n].now);
  }

  lemma {:induction false} AttemptCounts(events: seq<Event>, a: nat, n: nat, key: string)
    requires a <= n < |events| && events[n].Attempt? && events[n].key == key
    ensures Count(events[a..n + 1], key) == Count(events[a..n], key) + 1
    ensures AfterUnpruned(events[..n + 1]) == FailUnpruned(AfterUnpruned(events[..n]), key, events[n].now)
    ensures AfterUnpruned(events[..n + 1])[key].lastFailure == events[n].now
  {
    var b := n + 1;
    assert events[..b][..n] == events[..n];
    assert events[a..b][..|events[a..b]| - 1] == events[a..n];
  }

  lemma {:induction false} FirstAttemptReaches(table: Table, key: string, now: int)
    ensures Reached(FailUnpruned(table, key, now), key, 1, Failures(table, key, now), now)
  {
    assert MinSpan(Failures(table, key, now), 0) == 0;
  }

  lemma {:induction false} AttemptReachesIn(
      events: seq<Event>, a: nat, n: nat, key: string, start: int, end: int, f: nat, first: int)
      returns (f': nat, first': int)
    requires a <= n < |events| && Window(events, a, n + 1, key, start) && start >= 0
    requires Ordered(events, end) && Gated(events, key)
    requires ReachedIn(events, a, n, key, start, f, first) && events[n].Attempt? && events[n].key == key
    ensures ReachedIn(events, a, n + 1, key, start, f', first')
  {
    hide AfterUnpruned, Count, FailUnpruned, Ask, MinSpan, Failures, Gated;
    var b, now, table := n + 1, events[n].now, AfterUnpruned(events[..n]);
    var count := Count(events[a..n], key);
    AttemptCounts(events, a, n, key);
    AttemptFindsNoLock(events, n, key, end);
    f', first' := f, first;
    if count > 0 {
      var i :| a <= i < n && events[i] == Attempt(key, table[key].lastFailure);
      assert events[i].now <= now;
      AttemptReaches(table, key, count, f, first, now, start);
    } else {
      f', first' := Failures(table, key, now), now;
      FirstAttemptReaches(table, key, now);
    }
    assert events[n] == Attempt(key, AfterUnpruned(events[..b])[key].lastFailure);
  }

  lemma {:induction false} WindowReaches(events: seq<Event>, a: nat, b: nat, key: string, start: int, end: int)
      returns (f: nat, first: int)
    requires Ordered(events, end) && Gated(events, key) && Window(events, a, b, key, start) && start >= 0
    ensures ReachedIn(events, a, b, key, start, f, first)
    decreases b
  {
    f, first := 1, 0;
    if a < b {
      var n := b - 1;
      f, first := WindowReaches(events, a, n, key, start, end);
      hide ReachedIn;
      if events[n].Attempt? && events[n].key == key {
        f, first := AttemptReachesIn(events, a, n, key, start, end, f, first);
      } else {
        OtherReaches(events, a, n, key, start, f, first);
      }
    }
  }

  /**
   In every run whose attempts of a client are made only while it is not locked
   out, any half hour without a successful login of that client holds at most
   ten of its attempts.
   */
  lemma {:induction false} AtMostTenAttemptsInHalfAnHour(
      events: seq<Event>, a: nat, b: nat, key: string, start: int, end: int)
    requires Ordered(events, end) && Gated(events, key) && Window(events, a, b, key, start) && start >= 0
    ensures Count(events[a..b], key) <= 10
  {
    var count := Count(events[a..b], key);
    var f, first := WindowReaches(events, a, b, key, start, end);
    if count > 10 {
      SpansGrow(1, f, 10);
      SpansGrowWithLength(f, 10, count - 1);
      ElevenAttemptsTakeTooLong();
    }
  }

  // ---- A clock that goes back ----

  /**
   Without the clock's order pruning shows. A table pruned at `now` gives another
   lock at `later` if and only if it dropped a stale record whose lock runs past
   `later`, which takes a clock set back by more than 15 minutes. It counts the
   next failure at `later` differently if and only if it dropped a record with
   failures that is not stale at `later`, for which any set-back will do.
   */
  lemma {:induction false} PruningShowsIff(table: Table, key: string, now: int, later: int)
    requires key in table ==> table[key] == Failed(table[key].failures, table[key].lastFailure)
    requires later >= 0
    ensures Ask(Prune(table, now), key, later) != Ask(table, key, later) <==>
            key in table && IsStale(table[key], now) && later < table[key].lockedUntil
    ensures Ask(Prune(table, now), key, later) != Ask(table, key, later) ==> later < now - MAX_LOCK_MS
    ensures Failures(Prune(table, now), key, later) != Failures(table, key, later) <==>
            key in table && IsStale(table[key], now) && !IsStale(table[key], later) && table[key].failures > 0
    ensures Failures(Prune(table, now), key, later) != Failures(table, key, later) ==> later < now
  {
    if key in table {
      LocksGrow(table[key].failures, table[key].failures);
    }
  }

  /** Four failures of `key`, then one of each of `n` other clients, all at time 0. */
  function Crowd(key: string, n: nat): seq<Event> {
    if n == 0 then [Attempt(key, 0), Attempt(key, 0), Attempt(key, 0), Attempt(key, 0)]
    else Crowd(key, n - 1) + [Attempt(key + Decimal(n), 0)]
  }

  lemma {:induction false} FourFailures(key: string)
    ensures After(Crowd(key, 0)) == AfterUnpruned(Crowd(key, 0)) == map[key := Failed(4, 0)]
  {
    var events := Crowd(key, 0);
    assert events[..3][..2] == events[..2] && events[..2][..1] == events[..1] && events[..1][..0] == [];
    assert After(events[..1]) == AfterUnpruned(events[..1]) == map[key := Failed(1, 0)];
    assert After(events[..2]) == AfterUnpruned(events[..2]) == map[key := Failed(2, 0)];
    assert After(events[..3]) == AfterUnpruned(events[..3]) == map[key := Failed(3, 0)];
  }

  ghost predicate InCrowd(k: string, key: string, n: nat) {
    k == key || exists i | 1 <= i <= n :: k == key + Decimal(i)
  }

  lemma {:induction false} NextIsNew(key: string, n: nat)
    requires n >= 1
    ensures !InCrowd(key + Decimal(n), key, n - 1)
  {
    var next := key + Decimal(n);
    assert |next| > |key|;
    forall i | 1 <= i <= n - 1
      ensures next != key + Decimal(i)
    {
      if next == key + Decimal(i) {
        assert next[|key|..] == Decimal(n) && (key + Decimal(i))[|key|..] == Decimal(i);
        DecimalInjective(i, n);
      }
    }
  }

  lemma {:induction false} NewcomerJoins(events: seq<Event>, next: string)
    requires After(events) == AfterUnpruned(events) && |After(events)| <= PRUNE_ABOVE && next !in After(events)
    ensures After(events + [Attempt(next, 0)]) == AfterUnpruned(events + [Attempt(next, 0)])
    ensures After(events + [Attempt(next, 0)]) == After(events)[next := Failed(1, 0)]
    ensures |After(events + [Attempt(next, 0)])| == |After(events)| + 1
  {
    var longer := events + [Attempt(next, 0)];
    assert longer[..|longer| - 1] == events;
    assert After(longer) == After(events)[next := Failed(1, 0)];
    assert After(longer).Keys == After(events).Keys + {next};
    assert |After(longer)| == |After(longer).Keys| && |After(events)| == |After(events).Keys|;
  }

  /** The table of the crowd holds all of its clients, `key` with its four failures. */
  lemma {:induction false} CrowdTable(key: string, n: nat)
    requires n <= PRUNE_ABOVE
    ensures After(Crowd(key, n)) == AfterUnpruned(Crowd(key, n))
    ensures |After(Crowd(key, n))| == n + 1
    ensures key in After(Crowd(key, n)) && After(Crowd(key, n))[key] == Failed(4, 0)
    ensures forall k <- After(Crowd(key, n)) :: InCrowd(k, key, n)
  {
    if n == 0 {
      FourFailures(key);
    } else {
      hide After, AfterUnpruned, Failed;
      CrowdTable(key, n - 1);
      NextIsNew(key, n);
      NewcomerJoins(Crowd(key, n - 1), key + Decimal(n));
    }
  }

  /**
   A run that shows it: with more than `PRUNE_ABOVE` clients on record, a failure
   of one of them a millisecond past the half hour prunes the four failures of
   `key`. Set back by that millisecond, its next failure counts as the first and
   does not lock, where it would have been the fifth and locked for 30 s.
   */
  lemma {:induction false} ASetBackMillisecondLosesALock(key: string)
    ensures var events := Crowd(key, PRUNE_ABOVE) + [Attempt(key + Decimal(1), FORGET_AFTER_MS + 1)];
            && Failures(After(events), key, FORGET_AFTER_MS) == 1
            && Failures(AfterUnpruned(events), key, FORGET_AFTER_MS) == 5
            && Ask(After(events + [Attempt(key, FORGET_AFTER_MS)]), key, FORGET_AFTER_MS) == 0
            && Ask(AfterUnpruned(events + [Attempt(key, FORGET_AFTER_MS)]), key, FORGET_AFTER_MS) == BASE_LOCK_MS
  {
    var crowd, other := Crowd(key, PRUNE_ABOVE), key + Decimal(1);
    CrowdTable(key, PRUNE_ABOVE);
    LateFailurePrunes(crowd, key, other);
  }

  lemma {:induction false} LateFailurePrunes(crowd: seq<Event>, key: string, other: string)
    requires After(crowd) == AfterUnpruned(crowd) && |After(crowd)| == PRUNE_ABOVE + 1 && other != key
    requires key in After(crowd) && After(crowd)[key] == Failed(4, 0)
    ensures var events := crowd + [Attempt(other, FORGET_AFTER_MS + 1)];
            && Failures(After(events), key, FORGET_AFTER_MS) == 1
            && Failures(AfterUnpruned(events), key, FORGET_AFTER_MS) == 5
            && Ask(After(events + [Attempt(key, FORGET_AFTER_MS)]), key, FORGET_AFTER_MS) == 0
            && Ask(AfterUnpruned(events + [Attempt(key, FORGET_AFTER_MS)]), key, FORGET_AFTER_MS) == BASE_LOCK_MS
  {
    var events := crowd + [Attempt(other, FORGET_AFTER_MS + 1)];
    assert events[..|events| - 1] == crowd;
    assert key !in After(events);
    assert AfterUnpruned(events)[key] == Failed(4, 0);
    var more := events + [Attempt(key, FORGET_AFTER_MS)];
    assert more[..|more| - 1] == events;
    assert LockMs(5) == BASE_LOCK_MS;
    assert After(more)[key] == Failed(1, FORGET_AFTER_MS);
    assert AfterUnpruned(more)[key] == Failed(5, FORGET_AFTER_MS);
  }
}
