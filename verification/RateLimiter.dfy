/** The fixed-window rate limiter with its garbage collection.

    Times are nanoseconds; time 0 is the clock's zero value, which the limiter uses to
    recognise a key it has never seen. */
module RateLimiter {

  const MINUTE: int := 60_000_000_000
  const PRUNE_ABOVE: int := 10_000
  const PRUNE_AGE: int := 30 * MINUTE

  datatype Entry = Entry(count: int, windowStart: int)
  type Entries = map<string, Entry>
  datatype Call = Call(key: string, limit: int, window: int, now: int)
  datatype Outcome = Outcome(entries: Entries, allowed: bool)

  /** A call the limiter lets through without looking at its table. */
  predicate Unlimited(call: Call) {
    call.key == "" || call.limit <= 0 || call.window <= 0
  }

  function Lookup(entries: Entries, key: string): Entry {
    if key in entries then entries[key] else Entry(0, 0)
  }

  function Prune(entries: Entries, now: int): Entries {
    if |entries| > PRUNE_ABOVE then
      map key | key in entries && now - entries[key].windowStart < PRUNE_AGE :: entries[key]
    else
      entries
  }

  /** The limiter that never deletes: the simple reference. */
  function Simple(entries: Entries, call: Call): Outcome {
    if Unlimited(call) then
      Outcome(entries, true)
    else
      var entry := Lookup(entries, call.key);
      if entry.windowStart == 0 || call.now - entry.windowStart >= call.window then
        Outcome(entries[call.key := Entry(1, call.now)], true)
      else if entry.count >= call.limit then
        Outcome(entries, false)
      else
        Outcome(entries[call.key := Entry(entry.count + 1, entry.windowStart)], true)
  }

  /** The limiter as it runs: old entries go before the decision. */
  function Collected(entries: Entries, call: Call): Outcome {
    if Unlimited(call) then Outcome(entries, true) else Simple(Prune(entries, call.now), call)
  }

  class Limiter {
    var entries: Entries

    constructor ()
      ensures entries == map[]
    {
      entries := map[];
    }

    method Allow(key: string, limit: int, window: int, now: int) returns (allowed: bool)
      modifies this
      ensures Outcome(entries, allowed) == Collected(old(entries), Call(key, limit, window, now))
    {
      if key == "" || limit <= 0 || window <= 0 {
        return true;
      }
      if |entries| > 10_000 {
        var todo := entries.Keys;
        while todo != {}
          invariant todo <= old(entries).Keys
          invariant entries == map k | k in old(entries) && (k in todo || now - old(entries)[k].windowStart < PRUNE_AGE)
                                     :: old(entries)[k]
          decreases todo
        {
          var k :| k in todo;
          if now - entries[k].windowStart >= 30 * MINUTE {
            entries := entries - {k};
          }
          todo := todo - {k};
        }
      }
      var entry := Lookup(entries, key);
      if entry.windowStart == 0 || now - entry.windowStart >= window {
        entries := entries[key := Entry(1, now)];
        return true;
      }
      if entry.count >= limit {
        return false;
      }
      entries := entries[key := Entry(entry.count + 1, entry.windowStart)];
      return true;
    }
  }

  /** A call without a key, a limit or a window passes and leaves the table alone. */
  lemma UnlimitedCallsPass(entries: Entries, call: Call)
    requires call.key == "" || call.limit <= 0 || call.window <= 0
    ensures Collected(entries, call) == Outcome(entries, true)
  {}

  // ----- Collecting old entries is invisible -----

  function SimpleRun(entries: Entries, calls: seq<Call>): seq<bool>
    decreases calls
  {
    if calls == [] then []
    else
      var o := Simple(entries, calls[0]);
      [o.allowed] + SimpleRun(o.entries, calls[1..])
  }

  function CollectedRun(entries: Entries, calls: seq<Call>): seq<bool>
    decreases calls
  {
    if calls == [] then []
    else
      var o := Collected(entries, calls[0]);
      [o.allowed] + CollectedRun(o.entries, calls[1..])
  }

  /** The clock is past its zero value and never goes back. */
  ghost predicate Clocked(calls: seq<Call>) {
    && (forall i :: 0 <= i < |calls| ==> calls[i].now > 0)
    && (forall i, j :: 0 <= i < j < |calls| ==> calls[i].now <= calls[j].now)
  }

  ghost predicate ShortWindows(calls: seq<Call>) {
    forall i :: 0 <= i < |calls| ==> calls[i].window <= PRUNE_AGE
  }

  /** What is missing from `kept` is so old at time `now` that no window can still cover it. */
  ghost predicate MissesOnlyOld(full: Entries, kept: Entries, now: int) {
    && (forall k :: k in kept ==> k in full && kept[k] == full[k])
    && (forall k :: k in full && k !in kept ==> now - full[k].windowStart >= PRUNE_AGE)
  }

  lemma PruneMissesOnlyOld(full: Entries, kept: Entries, before: int, now: int)
    requires before <= now && MissesOnlyOld(full, kept, before)
    ensures MissesOnlyOld(full, Prune(kept, now), now)
  {}

  lemma {:induction false} PruningIsTransparentFrom(full: Entries, kept: Entries, before: int, calls: seq<Call>)
    requires Clocked(calls) && ShortWindows(calls)
    requires calls != [] ==> before <= calls[0].now
    requires MissesOnlyOld(full, kept, before)
    ensures CollectedRun(kept, calls) == SimpleRun(full, calls)
    decreases calls
  {
    if calls != [] {
      var call := calls[0];
      PruneMissesOnlyOld(full, kept, before, call.now);
      var s, c := Simple(full, call), Collected(kept, call);
      assert MissesOnlyOld(s.entries, c.entries, call.now);
      PruningIsTransparentFrom(s.entries, c.entries, call.now, calls[1..]);
    }
  }

  /** Over every run, the collecting limiter and the one that never deletes decide alike. */
  lemma PruningIsTransparent(calls: seq<Call>)
    requires Clocked(calls) && ShortWindows(calls)
    ensures CollectedRun(map[], calls) == SimpleRun(map[], calls)
  {
    PruningIsTransparentFrom(map[], map[], 0, calls);
  }

  /** For any table and any call, exactly when one collection changes the decision:
      the key is being refused inside a window longer than the collection age. */
  lemma PruningShowsExactly(entries: Entries, call: Call)
    ensures Collected(entries, call).allowed != Simple(entries, call).allowed <==>
            && !Unlimited(call)
            && |entries| > PRUNE_ABOVE
            && call.key in entries
            && entries[call.key].windowStart != 0
            && entries[call.key].count >= call.limit
            && PRUNE_AGE <= call.now - entries[call.key].windowStart < call.window
  {}

  // ----- How much gets through -----

  /** One admitted call: when it came and when the window that counted it was opened. */
  datatype Admission = Admission(time: int, start: int)

  /** The admissions of one key over a run of calls on all keys. */
  function Admissions(entries: Entries, calls: seq<Call>, key: string): seq<Admission>
    decreases calls
  {
    if calls == [] then []
    else
      var o := Collected(entries, calls[0]);
      (if calls[0].key == key && o.allowed then [Admission(calls[0].now, Lookup(o.entries, key).windowStart)] else [])
      + Admissions(o.entries, calls[1..], key)
  }

  /** Every call on `key` uses the same limit and window. */
  ghost predicate FixedPolicy(calls: seq<Call>, key: string, limit: int, window: int) {
    forall i :: 0 <= i < |calls| && calls[i].key == key ==> calls[i].limit == limit && calls[i].window == window
  }

  ghost predicate InsideWindows(log: seq<Admission>, window: int) {
    forall i :: 0 <= i < |log| ==> log[i].start <= log[i].time < log[i].start + window
  }

  ghost predicate TimesOrdered(log: seq<Admission>) {
    forall i, j :: 0 <= i < j < |log| ==> log[i].time <= log[j].time
  }

  /** Two admissions share a window or their windows open at least `window` apart. */
  ghost predicate StartsApart(log: seq<Admission>, window: int) {
    forall i, j :: 0 <= i < j < |log| ==> log[i].start == log[j].start || log[i].start + window <= log[j].start
  }

  /** Either admission i is the call that opened its window, or the one before shares the window. */
  ghost predicate Opened(log: seq<Admission>, i: nat)
    requires i < |log|
  {
    log[i].time == log[i].start || (i > 0 && log[i-1].start == log[i].start)
  }

  ghost predicate AllOpened(log: seq<Admission>) {
    forall i: nat :: i < |log| ==> Opened(log, i)
  }

  /** No window counts more than `limit` admissions. */
  ghost predicate Limited(log: seq<Admission>, limit: int) {
    forall i, j :: 0 <= i < j < |log| && j - i >= limit ==> log[i].start != log[j].start
  }

  ghost predicate WindowLaw(log: seq<Admission>, limit: int, window: int) {
    && InsideWindows(log, window)
    && TimesOrdered(log)
    && StartsApart(log, window)
    && AllOpened(log)
    && Limited(log, limit)
  }

  /** The last n admissions, and only they, belong to the window opened at `start`. */
  ghost predicate LastGroup(log: seq<Admission>, start: int, n: int) {
    && 1 <= n <= |log|
    && (forall i :: |log| - n <= i < |log| ==> log[i].start == start)
    && (forall i :: 0 <= i < |log| - n ==> log[i].start != start)
  }

  /** How the table's entry for the key relates to the log so far, at time `now`. */
  ghost predicate Tracks(entries: Entries, key: string, log: seq<Admission>, limit: int, now: int) {
    && (log != [] ==> log[|log|-1].time <= now && 0 < log[|log|-1].start)
    && (key in entries ==> entries[key].count <= limit && LastGroup(log, entries[key].windowStart, entries[key].count))
    && (key !in entries && log != [] ==> now - log[|log|-1].start >= PRUNE_AGE)
  }

  lemma NextStaysLimited(log: seq<Admission>, a: Admission, n: int, limit: int)
    requires Limited(log, limit) && LastGroup(log, a.start, n) && n < limit
    ensures Limited(log + [a], limit)
  {}

  /** After any admission that opens its window or shares the last one, every window is still opened by its first call. */
  lemma NextStaysOpened(log: seq<Admission>, a: Admission)
    requires AllOpened(log)
    requires a.time == a.start || (log != [] && log[|log|-1].start == a.start)
    ensures AllOpened(log + [a])
  {
    var log' := log + [a];
    forall i: nat | i < |log'| ensures Opened(log', i) {
      if i < |log| {
        assert Opened(log, i);
      }
    }
  }

  lemma NextInWindow(log: seq<Admission>, time: int, n: int, limit: int, window: int)
    requires WindowLaw(log, limit, window) && log != []
    requires LastGroup(log, log[|log|-1].start, n) && n < limit
    requires log[|log|-1].time <= time < log[|log|-1].start + window
    ensures var log' := log + [Admission(time, log[|log|-1].start)];
            WindowLaw(log', limit, window) && LastGroup(log', log[|log|-1].start, n + 1)
  {
    var a := Admission(time, log[|log|-1].start);
    NextStaysLimited(log, a, n, limit);
    NextStaysOpened(log, a);
  }

  lemma NewWindow(log: seq<Admission>, time: int, limit: int, window: int)
    requires 0 < limit && 0 < window && WindowLaw(log, limit, window)
    requires log != [] ==> log[|log|-1].start + window <= time && log[|log|-1].time <= time
    ensures var log' := log + [Admission(time, time)];
            WindowLaw(log', limit, window) && LastGroup(log', time, 1)
  {
    assert forall i :: 0 <= i < |log| ==> log[i].start + window <= time;
    NextStaysOpened(log, Admission(time, time));
  }

  /** The log of a key after one more call on it. */
  function Extend(log: seq<Admission>, o: Outcome, call: Call): seq<Admission> {
    if o.allowed then log + [Admission(call.now, Lookup(o.entries, call.key).windowStart)] else log
  }

  /** A call on the key keeps the law. */
  lemma CallKeepsLaw(entries: Entries, log: seq<Admission>, before: int, call: Call)
    requires !Unlimited(call) && call.window <= PRUNE_AGE && before <= call.now && 0 < call.now
    requires WindowLaw(log, call.limit, call.window) && Tracks(entries, call.key, log, call.limit, before)
    ensures var o := Collected(entries, call);
            WindowLaw(Extend(log, o, call), call.limit, call.window)
            && Tracks(o.entries, call.key, Extend(log, o, call), call.limit, call.now)
  {
    var kept := Prune(entries, call.now);
    assert Tracks(kept, call.key, log, call.limit, call.now);
    var entry := Lookup(kept, call.key);
    if entry.windowStart == 0 || call.now - entry.windowStart >= call.window {
      NewWindow(log, call.now, call.limit, call.window);
    } else if entry.count < call.limit {
      NextInWindow(log, call.now, entry.count, call.limit, call.window);
    }
  }

  /** Calls on other keys do not matter. */
  lemma OtherCallKeepsTrack(entries: Entries, key: string, log: seq<Admission>, limit: int, before: int, call: Call)
    requires call.key != key && before <= call.now
    requires Tracks(entries, key, log, limit, before)
    ensures Tracks(Collected(entries, call).entries, key, log, limit, call.now)
  {}

  /** The law at time `now`, for a table that tracks the log. */
  ghost predicate Lawful(entries: Entries, key: string, log: seq<Admission>, limit: int, window: int, now: int) {
    WindowLaw(log, limit, window) && Tracks(entries, key, log, limit, now)
  }

  function ExtendFor(log: seq<Admission>, key: string, o: Outcome, call: Call): seq<Admission> {
    if call.key == key then Extend(log, o, call) else log
  }

  lemma AnyCallKeepsLaw(entries: Entries, key: string, log: seq<Admission>, limit: int, window: int, before: int, call: Call)
    requires 0 < limit && 0 < window <= PRUNE_AGE && key != ""
    requires before <= call.now && 0 < call.now && (call.key == key ==> call.limit == limit && call.window == window)
    requires Lawful(entries, key, log, limit, window, before)
    ensures var o := Collected(entries, call);
            Lawful(o.entries, key, ExtendFor(log, key, o, call), limit, window, call.now)
  {
    if call.key == key {
      CallKeepsLaw(entries, log, before, call);
    } else {
      OtherCallKeepsTrack(entries, key, log, limit, before, call);
    }
  }

  lemma AdmissionsExtend(entries: Entries, key: string, log: seq<Admission>, calls: seq<Call>)
    requires calls != []
    ensures var o := Collected(entries, calls[0]);
            log + Admissions(entries, calls, key) == ExtendFor(log, key, o, calls[0]) + Admissions(o.entries, calls[1..], key)
  {}

  /** The table after a run, and the time of its last call. */
  function TableAfter(entries: Entries, calls: seq<Call>): Entries
    decreases calls
  {
    if calls == [] then entries else TableAfter(Collected(entries, calls[0]).entries, calls[1..])
  }

  function LastTime(before: int, calls: seq<Call>): int {
    if calls == [] then before else calls[|calls| - 1].now
  }

  lemma {:induction false} AdmissionsKeepLaw(entries: Entries, key: string, log: seq<Admission>, limit: int, window: int,
                                             before: int, calls: seq<Call>)
    requires 0 < limit && 0 < window <= PRUNE_AGE && key != ""
    requires Clocked(calls) && FixedPolicy(calls, key, limit, window)
    requires calls != [] ==> before <= calls[0].now
    requires Lawful(entries, key, log, limit, window, before)
    ensures Lawful(TableAfter(entries, calls), key, log + Admissions(entries, calls, key), limit, window, LastTime(before, calls))
    decreases calls
  {
    if calls == [] {
      assert log + [] == log;
    } else {
      var call := calls[0];
      var o := Collected(entries, call);
      AnyCallKeepsLaw(entries, key, log, limit, window, before, call);
      AdmissionsExtend(entries, key, log, calls);
      var log' := ExtendFor(log, key, o, call);
      assert calls[1..] != [] ==> call.now <= calls[1..][0].now;
      AdmissionsKeepLaw(o.entries, key, log', limit, window, call.now, calls[1..]);
    }
  }

  lemma RunsAreTracked(calls: seq<Call>, key: string, limit: int, window: int)
    requires 0 < limit && 0 < window <= PRUNE_AGE && key != ""
    requires Clocked(calls) && FixedPolicy(calls, key, limit, window)
    ensures Lawful(TableAfter(map[], calls), key, Admissions(map[], calls, key), limit, window, LastTime(0, calls))
  {
    AdmissionsKeepLaw(map[], key, [], limit, window, 0, calls);
    assert [] + Admissions(map[], calls, key) == Admissions(map[], calls, key);
  }

  /** Every run from an empty table obeys the law. */
  lemma RunsObeyLaw(calls: seq<Call>, key: string, limit: int, window: int)
    requires 0 < limit && 0 < window <= PRUNE_AGE && key != ""
    requires Clocked(calls) && FixedPolicy(calls, key, limit, window)
    ensures WindowLaw(Admissions(map[], calls, key), limit, window)
  {
    RunsAreTracked(calls, key, limit, window);
  }

  /** After any run a call is refused only if the last `limit` admissions of its key all came less than a window ago. */
  lemma RefusalsAreEarned(calls: seq<Call>, call: Call)
    requires 0 < call.limit && 0 < call.window <= PRUNE_AGE && call.key != ""
    requires Clocked(calls) && FixedPolicy(calls, call.key, call.limit, call.window) && LastTime(0, calls) <= call.now
    requires !Collected(TableAfter(map[], calls), call).allowed
    ensures var log := Admissions(map[], calls, call.key);
            |log| >= call.limit && forall i :: |log| - call.limit <= i < |log| ==> 0 <= call.now - log[i].time < call.window
  {
    RunsAreTracked(calls, call.key, call.limit, call.window);
    RefusedWhenFull(TableAfter(map[], calls), Admissions(map[], calls, call.key), LastTime(0, calls), call);
  }

  lemma RefusedWhenFull(entries: Entries, log: seq<Admission>, before: int, call: Call)
    requires !Unlimited(call) && before <= call.now && !Collected(entries, call).allowed
    requires Lawful(entries, call.key, log, call.limit, call.window, before)
    ensures |log| >= call.limit && forall i :: |log| - call.limit <= i < |log| ==> 0 <= call.now - log[i].time < call.window
  {
    var entry := entries[call.key];
    assert LastGroup(log, entry.windowStart, entry.count) && entry.count == call.limit;
  }

  /** Any 2*limit consecutive admissions of a key take at least one whole window. */
  lemma BurstTakesAWindow(log: seq<Admission>, limit: int, window: int, i: nat, j: nat)
    requires 0 < limit && 0 < window && WindowLaw(log, limit, window)
    requires i + 2 * limit - 1 <= j < |log|
    ensures log[j].time - log[i].time >= window
  {
    assert Opened(log, i);
    if log[i].time == log[i].start {
      assert log[i].start != log[j].start;
    } else {
      var mid := i + limit - 1;
      assert log[i-1].start != log[mid].start;
      assert log[mid].start != log[j].start;
    }
  }

  /** How many admissions fall in the half-open interval [from, to). */
  function CountBetween(log: seq<Admission>, from: int, to: int): nat {
    if log == [] then 0
    else (if from <= log[0].time < to then 1 else 0) + CountBetween(log[1..], from, to)
  }

  /** In a log ordered by time the admissions of an interval are consecutive. */
  lemma {:induction false} CountIsAStretch(log: seq<Admission>, from: int, to: int) returns (first: nat)
    requires forall i, j :: 0 <= i < j < |log| ==> log[i].time <= log[j].time
    ensures first + CountBetween(log, from, to) <= |log|
    ensures forall i :: first <= i < first + CountBetween(log, from, to) ==> from <= log[i].time < to
  {
    if log == [] || to <= log[0].time {
      first := 0;
      if log != [] {
        NoneLate(log, from, to);
      }
    } else {
      var f := CountIsAStretch(log[1..], from, to);
      var n := CountBetween(log[1..], from, to);
      if log[0].time < from {
        first := f + 1;
      } else {
        first := 0;
        if n > 0 {
          assert log[1..][f + n - 1] == log[f + n];
          assert forall i :: 0 <= i <= n ==> log[i].time <= log[f + n].time;
          assert forall i :: 0 < i <= n ==> log[0].time <= log[i].time;
        }
      }
      if first == f + 1 {
        forall i | first <= i < first + n ensures from <= log[i].time < to {
          assert log[i] == log[1..][i - 1];
        }
      }
    }
  }

  lemma {:induction false} NoneLate(log: seq<Admission>, from: int, to: int)
    requires forall i :: 0 <= i < |log| ==> to <= log[i].time
    ensures CountBetween(log, from, to) == 0
  {
    if log != [] {
      NoneLate(log[1..], from, to);
    }
  }

  /** In any interval no longer than the window at most 2*limit - 1 calls of a key get through: two windows can meet
      the interval, but the call that opened the earlier one lies before it. */
  lemma RateBound(calls: seq<Call>, key: string, limit: int, window: int, from: int, to: int)
    requires 0 < limit && 0 < window <= PRUNE_AGE && key != ""
    requires Clocked(calls) && FixedPolicy(calls, key, limit, window)
    requires to <= from + window
    ensures CountBetween(Admissions(map[], calls, key), from, to) <= 2 * limit - 1
  {
    var log := Admissions(map[], calls, key);
    RunsObeyLaw(calls, key, limit, window);
    var first := CountIsAStretch(log, from, to);
    var n := CountBetween(log, from, to);
    if n >= 2 * limit {
      assert from <= log[first].time && log[first + 2 * limit - 1].time < to;
      BurstTakesAWindow(log, limit, window, first, first + 2 * limit - 1);
    }
  }

  // The bound is reached: one call opens a window, the rest of its limit comes at the window's very end, and a
  // fresh window's whole limit follows one tick later.

  function Repeat(call: Call, n: nat): seq<Call> {
    if n == 0 then [] else [call] + Repeat(call, n - 1)
  }

  /** The table in which `key` alone has made n calls in the window opened at `start`. */
  function Only(key: string, n: int, start: int): Entries {
    map[key := Entry(n, start)]
  }

  lemma OneCallPasses(entries: Entries, call: Call, rest: seq<Call>, n: nat, start: int)
    requires !Unlimited(call) && Collected(entries, call) == Outcome(Only(call.key, n, start), true)
    ensures Admissions(entries, [call] + rest, call.key)
            == [Admission(call.now, start)] + Admissions(Only(call.key, n, start), rest, call.key)
  {}

  lemma CallInWindow(call: Call, k: nat, start: int)
    requires !Unlimited(call) && k < call.limit && 0 < start <= call.now < start + call.window
    ensures Collected(Only(call.key, k, start), call) == Outcome(Only(call.key, k + 1, start), true)
  {}

  function Copies(a: Admission, n: nat): seq<Admission> {
    if n == 0 then [] else [a] + Copies(a, n - 1)
  }

  lemma {:induction false} RepeatedCallsPass(call: Call, k: nat, start: int, n: nat, rest: seq<Call>)
    requires !Unlimited(call) && k + n <= call.limit && 0 < start <= call.now < start + call.window
    ensures Admissions(Only(call.key, k, start), Repeat(call, n) + rest, call.key)
            == Copies(Admission(call.now, start), n) + Admissions(Only(call.key, k + n, start), rest, call.key)
    decreases n
  {
    var tail := Admissions(Only(call.key, k + n, start), rest, call.key);
    if n == 0 {
      assert Repeat(call, 0) + rest == rest;
      assert Copies(Admission(call.now, start), 0) + tail == tail;
    } else {
      assert Repeat(call, n) + rest == [call] + (Repeat(call, n - 1) + rest);
      CallInWindow(call, k, start);
      OneCallPasses(Only(call.key, k, start), call, Repeat(call, n - 1) + rest, k + 1, start);
      RepeatedCallsPass(call, k + 1, start, n - 1, rest);
      var copies := Copies(Admission(call.now, start), n - 1);
      assert [Admission(call.now, start)] + (copies + tail) == [Admission(call.now, start)] + copies + tail;
    }
  }

  lemma {:induction false} CountCopies(a: Admission, n: nat, log: seq<Admission>, from: int, to: int)
    requires from <= a.time < to
    ensures CountBetween(Copies(a, n) + log, from, to) == n + CountBetween(log, from, to)
    decreases n
  {
    if n == 0 {
      assert Copies(a, 0) + log == log;
    } else {
      assert (Copies(a, n) + log)[1..] == Copies(a, n - 1) + log;
      CountCopies(a, n - 1, log, from, to);
    }
  }

  /** A run that gets 2*limit - 1 calls through in one interval of window length. */
  function WorstCase(key: string, limit: int, window: int): seq<Call>
    requires 0 < limit
  {
    [Call(key, limit, window, 1)] + Repeat(Call(key, limit, window, window), limit - 1)
    + [Call(key, limit, window, window + 1)] + Repeat(Call(key, limit, window, window + 1), limit - 1)
  }

  /** One call opens a window and the rest of the limit follows at `late`. */
  lemma WindowFills(entries: Entries, open: Call, late: int, rest: seq<Call>)
    requires !Unlimited(open) && 0 < open.now <= late < open.now + open.window
    requires Collected(entries, open) == Outcome(Only(open.key, 1, open.now), true)
    ensures Admissions(entries, [open] + (Repeat(open.(now := late), open.limit - 1) + rest), open.key)
            == [Admission(open.now, open.now)]
               + (Copies(Admission(late, open.now), open.limit - 1)
                  + Admissions(Only(open.key, open.limit, open.now), rest, open.key))
  {
    OneCallPasses(entries, open, Repeat(open.(now := late), open.limit - 1) + rest, 1, open.now);
    RepeatedCallsPass(open.(now := late), 1, open.now, open.limit - 1, rest);
  }

  /** The bound of RateBound is sharp for every limit and window. */
  lemma RateBoundIsReached(key: string, limit: int, window: int)
    requires key != "" && 0 < limit && 2 <= window
    ensures CountBetween(Admissions(map[], WorstCase(key, limit, window), key), window, window + window) == 2 * limit - 1
  {
    var open, again := Call(key, limit, window, 1), Call(key, limit, window, window + 1);
    var second := [again] + (Repeat(again, limit - 1) + []);
    assert WorstCase(key, limit, window) == [open] + (Repeat(Call(key, limit, window, window), limit - 1) + second);
    WindowFills(map[], open, window, second);
    WindowFills(Only(key, limit, 1), again, window + 1, []);
    var log := Admissions(Only(key, limit, 1), second, key);
    CountCopies(Admission(window, 1), limit - 1, log, window, window + window);
    CountCopies(Admission(window + 1, window + 1), limit - 1, [], window, window + window);
  }

  /** After k whole limits of admissions, k whole windows have passed. */
  lemma {:induction false} StartsAdvance(log: seq<Admission>, limit: int, window: int, k: nat, j: nat)
    requires 0 < limit && 0 < window && WindowLaw(log, limit, window)
    requires k * limit <= j < |log|
    ensures log[j].start >= log[0].start + k * window
    decreases k
  {
    if k > 0 {
      assert (k - 1) * limit == k * limit - limit;
      assert (k - 1) * window == k * window - window;
      assert 0 <= (k - 1) * limit;
      assert log[j - limit].start != log[j].start;
      StartsAdvance(log, limit, window, k - 1, j - limit);
    }
  }

  lemma MulMonotone(a: int, b: int, k: int)
    requires a <= b && 0 < k
    ensures a * k <= b * k
  {}

  /** If the limits that fit before position j take at most `span`, then j is early. */
  lemma EarlyPosition(j: nat, limit: int, window: int, span: int)
    requires 0 < limit && 0 < window && 0 <= span
    requires (j / limit) * window <= span
    ensures j < limit * (span / window + 1)
  {
    var k, q := j / limit, span / window;
    assert span < (q + 1) * window;
    if k > q {
      MulMonotone(q + 1, k, window);
    }
    MulMonotone(k, q, limit);
    assert j < k * limit + limit;
    assert q * limit + limit == limit * (q + 1);
  }

  /** Admission j of a lawful log comes at least j / limit windows after the first. */
  lemma Spread(log: seq<Admission>, limit: int, window: int, j: nat)
    requires 0 < limit && 0 < window && WindowLaw(log, limit, window) && j < |log|
    ensures log[j].time >= log[0].time + (j / limit) * window
  {
    assert Opened(log, 0);
    StartsAdvance(log, limit, window, j / limit, j);
  }

  lemma LawfulLogIsLimited(log: seq<Admission>, limit: int, window: int, span: int)
    requires 0 < limit && 0 < window && 0 <= span && WindowLaw(log, limit, window) && log != []
    ensures CountBetween(log, log[0].time, log[0].time + span + 1) <= limit * (span / window + 1)
  {
    var first := CountIsAStretch(log, log[0].time, log[0].time + span + 1);
    var n := CountBetween(log, log[0].time, log[0].time + span + 1);
    if n > 0 {
      var last := first + n - 1;
      Spread(log, limit, window, last);
      assert log[last].time <= log[0].time + span;
      EarlyPosition(last, limit, window, span);
    }
  }

  /** Within `span` of its first admitted call, a key gets at most limit * (span / window + 1) calls through. */
  lemma LongRunBound(calls: seq<Call>, key: string, limit: int, window: int, span: int)
    requires 0 < limit && 0 < window <= PRUNE_AGE && key != "" && 0 <= span
    requires Clocked(calls) && FixedPolicy(calls, key, limit, window)
    requires Admissions(map[], calls, key) != []
    ensures var log := Admissions(map[], calls, key);
            CountBetween(log, log[0].time, log[0].time + span + 1) <= limit * (span / window + 1)
  {
    RunsObeyLaw(calls, key, limit, window);
    LawfulLogIsLimited(Admissions(map[], calls, key), limit, window, span);
  }

  /** The policy of the verification endpoint: ten tries per address and email in fifteen minutes. */
  const VERIFY_LIMIT: int := 10
  const VERIFY_WINDOW: int := 15 * MINUTE
  const CODE_LIFETIME: int := 10 * MINUTE

  /** During the ten minutes a code lives, at most 19 tries from one address for its email reach the store. */
  lemma VerifyAttemptsPerCode(calls: seq<Call>, key: string, issued: int)
    requires key != "" && Clocked(calls) && FixedPolicy(calls, key, VERIFY_LIMIT, VERIFY_WINDOW)
    ensures CountBetween(Admissions(map[], calls, key), issued, issued + CODE_LIFETIME) <= 19
  {
    RateBound(calls, key, VERIFY_LIMIT, VERIFY_WINDOW, issued, issued + CODE_LIFETIME);
  }
}
