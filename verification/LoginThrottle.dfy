// The per-account failure throttle of the local login procedure.
module LoginThrottle {
  import opened Options
  import opened SlidingWindow

  const MAX_FAILURES_PER_WINDOW := 5
  const WINDOW_MS := 15 * 60 * 1000

  datatype ThrottleEntry = ThrottleEntry(count: nat, windowStartedAt: nat, blockedUntil: Option<nat>)

  datatype Throttle = Throttle(retryAfterMs: nat, failures: nat)

  /** The entry after a failure at time `at`. */
  function Recorded(entry: Option<ThrottleEntry>, at: nat): ThrottleEntry {
    match entry
    case None => ThrottleEntry(1, at, None)
    case Some(e) =>
      if at - e.windowStartedAt >= WINDOW_MS then ThrottleEntry(1, at, None)
      else if e.count + 1 >= MAX_FAILURES_PER_WINDOW then e.(count := e.count + 1, blockedUntil := Some(at + WINDOW_MS))
      else e.(count := e.count + 1)
  }

  predicate Blocked(entry: Option<ThrottleEntry>, at: nat) {
    entry.Some? && entry.value.blockedUntil.Some? && entry.value.blockedUntil.value > at
  }

  class LoginThrottleTable {
    var failuresByEmail: map<string, ThrottleEntry>

    constructor ()
      ensures failuresByEmail == map[]
    {
      failuresByEmail := map[];
    }

    method RecordLoginFailure(email: string, at: nat) returns (entry: ThrottleEntry)
      modifies this
      ensures entry == Recorded(EntryOf(old(failuresByEmail), email), at)
      ensures failuresByEmail == old(failuresByEmail)[email := entry]
    {
      if email !in failuresByEmail || at - failuresByEmail[email].windowStartedAt >= WINDOW_MS {
        entry := ThrottleEntry(1, at, None);
        failuresByEmail := failuresByEmail[email := entry];
        return;
      }
      entry := failuresByEmail[email];
      entry := entry.(count := entry.count + 1);
      if entry.count >= MAX_FAILURES_PER_WINDOW {
        entry := entry.(blockedUntil := Some(at + WINDOW_MS));
      }
      failuresByEmail := failuresByEmail[email := entry];
    }

    method IsLoginThrottled(email: string, at: nat) returns (throttle: Option<Throttle>)
      ensures throttle.Some? <==> Blocked(EntryOf(failuresByEmail, email), at)
      ensures throttle.Some? ==>
                && throttle.value.failures == failuresByEmail[email].count
                && at + throttle.value.retryAfterMs == failuresByEmail[email].blockedUntil.value
    {
      if email !in failuresByEmail {
        return None;
      }
      var entry := failuresByEmail[email];
      match entry.blockedUntil {
        case Some(until) =>
          if until > at { return Some(Throttle(until - at, entry.count)); }
        case None =>
      }
      return None;
    }

    method ClearLoginFailures(email: string)
      modifies this
      ensures failuresByEmail == old(failuresByEmail) - {email}
    {
      failuresByEmail := failuresByEmail - {email};
    }

    /** The order of auth.login: check, verify the password, then record or clear. */
    method Login(email: string, at: nat, passwordMatches: bool) returns (outcome: LoginOutcome)
      modifies this
      ensures (failuresByEmail, outcome) == Attempted(old(failuresByEmail), Attempt(email, at, passwordMatches))
      ensures outcome == TooManyRequests ==> failuresByEmail == old(failuresByEmail)
      ensures outcome == LoggedIn ==> passwordMatches && failuresByEmail == old(failuresByEmail) - {email}
      ensures outcome == Unauthorized ==>
                !passwordMatches && email in failuresByEmail
                    && failuresByEmail - {email} == old(failuresByEmail) - {email}
    {
      var throttle := IsLoginThrottled(email, at);
      if throttle.Some? {
        return TooManyRequests;
      }
      if !passwordMatches {
        var _ := RecordLoginFailure(email, at);
        return Unauthorized;
      }
      ClearLoginFailures(email);
      return LoggedIn;
    }
  }

  // ---------------------------------------------------------------- runs of login attempts

  datatype Attempt = Attempt(email: string, at: nat, passwordMatches: bool)

  datatype LoginOutcome = TooManyRequests | Unauthorized | LoggedIn

  type Table = map<string, ThrottleEntry>

  function EntryOf(table: Table, email: string): Option<ThrottleEntry> {
    if email in table then Some(table[email]) else None
  }

  function Attempted(table: Table, a: Attempt): (Table, LoginOutcome) {
    var entry := EntryOf(table, a.email);
    if Blocked(entry, a.at) then (table, TooManyRequests)
    else if !a.passwordMatches then (table[a.email := Recorded(entry, a.at)], Unauthorized)
    else (table - {a.email}, LoggedIn)
  }

  function TableAfter(attempts: seq<Attempt>): Table {
    if attempts == [] then map[]
    else Attempted(TableAfter(attempts[..|attempts| - 1]), attempts[|attempts| - 1]).0
  }

  /** The times at which a password for this account was tried and found wrong. */
  function Failures(attempts: seq<Attempt>, email: string): seq<nat> {
    if attempts == [] then []
    else
      var before, a := attempts[..|attempts| - 1], attempts[|attempts| - 1];
      if a.email == email && Attempted(TableAfter(before), a).1 == Unauthorized then Failures(before, email) + [a.at]
      else Failures(before, email)
  }

  /** The position of each of these failures in its window of the throttle: one less than the count recorded for it. */
  function Places(attempts: seq<Attempt>, email: string): seq<nat> {
    if attempts == [] then []
    else
      var before, a := attempts[..|attempts| - 1], attempts[|attempts| - 1];
      if a.email == email && Attempted(TableAfter(before), a).1 == Unauthorized
      then Places(before, email) + [PlaceOf(EntryOf(TableAfter(before), email), a.at)]
      else Places(before, email)
  }

  predicate InTimeOrder(attempts: seq<Attempt>) {
    forall i, j | 0 <= i < j < |attempts| :: attempts[i].at <= attempts[j].at
  }

  predicate NoSuccess(attempts: seq<Attempt>, email: string) {
    forall a | a in attempts && a.email == email :: !a.passwordMatches
  }

  /** After a window was filled with failure i - 1, failure i comes no earlier than the block for it ends. */
  predicate WaitsOutTheBlock(times: seq<nat>, place: seq<nat>, i: nat)
    requires |place| == |times| && 0 < i < |times|
  {
    place[i - 1] == MAX_FAILURES_PER_WINDOW - 1 ==> times[i] >= times[i - 1] + WINDOW_MS
  }

  /** Failures in windows of at most five, and a filled window blocks. */
  ghost predicate ThrottleWindows(times: seq<nat>, place: seq<nat>) {
    && Windows(times, place, WINDOW_MS, MAX_FAILURES_PER_WINDOW)
    && forall i | 0 < i < |times| :: WaitsOutTheBlock(times, place, i)
  }

  ghost predicate EntryTracks(entry: Option<ThrottleEntry>, times: seq<nat>, place: seq<nat>)
    requires |place| == |times|
  {
    if times == [] then entry == None
    else
      var last := |times| - 1;
      && place[last] <= last
      && entry.Some?
      && entry.value.count == place[last] + 1
      && entry.value.windowStartedAt == times[last - place[last]]
      && entry.value.blockedUntil ==
         if entry.value.count == MAX_FAILURES_PER_WINDOW then Some(times[last] + WINDOW_MS) else None
  }

  /** When a block is over, the window that caused it is over too, so the next failure opens a new one. */
  lemma BlockOutlivesItsWindow(entry: ThrottleEntry, times: seq<nat>, place: seq<nat>, at: nat)
    requires |place| == |times| && times != [] && EntryTracks(Some(entry), times, place) && Sorted(times)
    requires entry.count == MAX_FAILURES_PER_WINDOW && !Blocked(Some(entry), at)
    ensures at - entry.windowStartedAt >= WINDOW_MS && Recorded(Some(entry), at).count == 1
  {
    var last := |times| - 1;
    assert times[last - place[last]] <= times[last];
  }

  function PlaceOf(entry: Option<ThrottleEntry>, at: nat): (p: nat)
  {
    Recorded(entry, at).count - 1
  }

  lemma NewFailureKeepsWindows(entry: Option<ThrottleEntry>, times: seq<nat>, place: seq<nat>, at: nat)
    requires ThrottleWindows(times, place) && EntryTracks(entry, times, place) && Sorted(times)
    requires !Blocked(entry, at) && (times != [] ==> times[|times| - 1] <= at)
    ensures ThrottleWindows(times + [at], place + [PlaceOf(entry, at)])
    ensures EntryTracks(Some(Recorded(entry, at)), times + [at], place + [PlaceOf(entry, at)])
  {
    var n, next := |times|, PlaceOf(entry, at);
    if n > 0 {
      assert times[n - 1 - place[n - 1]] <= times[n - 1];
      if entry.value.count == MAX_FAILURES_PER_WINDOW {
        BlockOutlivesItsWindow(entry.value, times, place, at);
      }
      assert WaitsOutTheBlock(times + [at], place + [next], n);
    }
    WindowsExtend(times, place, WINDOW_MS, MAX_FAILURES_PER_WINDOW, at, next);
    forall i | 0 < i < n ensures WaitsOutTheBlock(times + [at], place + [next], i) {
      assert WaitsOutTheBlock(times, place, i);
    }
  }

  /** What the last attempt of a run without success does to one account. */
  lemma LastAttempt(before: seq<Attempt>, a: Attempt, email: string)
    requires a.email == email ==> !a.passwordMatches
    ensures var entry := EntryOf(TableAfter(before), email);
            var counted := a.email == email && !Blocked(entry, a.at);
            && Failures(before + [a], email) == Failures(before, email) + (if counted then [a.at] else [])
            && Places(before + [a], email) == Places(before, email) + (if counted then [PlaceOf(entry, a.at)] else [])
            && EntryOf(TableAfter(before + [a]), email) == if counted then Some(Recorded(entry, a.at)) else entry
  {
    assert (before + [a])[..|before|] == before;
  }

  /** The failures so far, with their places in their windows, explain the account's entry. */
  ghost predicate Tracked(attempts: seq<Attempt>, email: string, times: seq<nat>, place: seq<nat>) {
    && Failures(attempts, email) == times
    && Places(attempts, email) == place
    && ThrottleWindows(times, place)
    && EntryTracks(EntryOf(TableAfter(attempts), email), times, place)
    && Sorted(times)
    && (times != [] ==> attempts != [] && times[|times| - 1] <= attempts[|attempts| - 1].at)
  }

  lemma OneMoreAttempt(before: seq<Attempt>, a: Attempt, email: string, times: seq<nat>, place: seq<nat>)
    requires Tracked(before, email, times, place)
    requires before != [] ==> before[|before| - 1].at <= a.at
    requires a.email == email ==> !a.passwordMatches
    ensures Tracked(before + [a], email, Failures(before + [a], email), Places(before + [a], email))
  {
    var entry := EntryOf(TableAfter(before), email);
    LastAttempt(before, a, email);
    if a.email == email && !Blocked(entry, a.at) {
      NewFailureKeepsWindows(entry, times, place, a.at);
    } else {
      assert times + [] == times && place + [] == place;
    }
  }

  /** In every run without success each failure is in a window of at most five, or opens a new one in time. */
  lemma {:induction false} FailuresAreWindowed(attempts: seq<Attempt>, email: string)
    requires InTimeOrder(attempts) && NoSuccess(attempts, email)
    ensures Tracked(attempts, email, Failures(attempts, email), Places(attempts, email))
  {
    if attempts != [] {
      var before, a := attempts[..|attempts| - 1], attempts[|attempts| - 1];
      assert attempts == before + [a] && a in attempts;
      FailuresAreWindowed(before, email);
      OneMoreAttempt(before, a, email, Failures(before, email), Places(before, email));
    }
  }

  // ---------------------------------------------------------------- what an account's outcomes say

  /** The wrong passwords of an account since it last logged in. */
  function FailuresSinceLogin(attempts: seq<Attempt>, email: string): nat {
    if attempts == [] then 0
    else
      var before, a := attempts[..|attempts| - 1], attempts[|attempts| - 1];
      if a.email != email then FailuresSinceLogin(before, email)
      else
        match Attempted(TableAfter(before), a).1
        case LoggedIn => 0
        case Unauthorized => FailuresSinceLogin(before, email) + 1
        case TooManyRequests => FailuresSinceLogin(before, email)
  }

  /** An entry counts failures since the last login only, and a block stands for five of them. */
  predicate CountsSinceLogin(entry: Option<ThrottleEntry>, failures: nat) {
    && (entry.None? <==> failures == 0)
    && (entry.Some? ==>
          && entry.value.count <= failures
          && (entry.value.blockedUntil.Some? ==> entry.value.count >= MAX_FAILURES_PER_WINDOW))
  }

  lemma {:induction false} EntriesCountSinceLogin(attempts: seq<Attempt>, email: string)
    ensures CountsSinceLogin(EntryOf(TableAfter(attempts), email), FailuresSinceLogin(attempts, email))
  {
    if attempts != [] {
      EntriesCountSinceLogin(attempts[..|attempts| - 1], email);
    }
  }

  /**
   * In every run, successes included: an attempt is throttled only if at least five wrong passwords of this account
   * came since it last logged in; otherwise the password alone decides.
   */
  lemma ThrottledOnlyAfterFiveFailures(before: seq<Attempt>, a: Attempt)
    ensures var outcome := Attempted(TableAfter(before), a).1;
            && (outcome == TooManyRequests ==> FailuresSinceLogin(before, a.email) >= 5)
            && (outcome == LoggedIn <==> outcome != TooManyRequests && a.passwordMatches)
            && (outcome == Unauthorized <==> outcome != TooManyRequests && !a.passwordMatches)
  {
    EntriesCountSinceLogin(before, a.email);
  }

  /** After a login the account starts afresh: it takes five more wrong passwords before it is throttled again. */
  lemma LoginStartsAfresh(before: seq<Attempt>, a: Attempt)
    requires Attempted(TableAfter(before), a).1 == LoggedIn
    ensures EntryOf(TableAfter(before + [a]), a.email) == None && FailuresSinceLogin(before + [a], a.email) == 0
  {
    assert (before + [a])[..|before|] == before;
  }

  /**
   * Without a success an attempt is throttled exactly if the last failure was the fifth of its window and lies less
   * than fifteen minutes back.
   */
  lemma ThrottledExactly(before: seq<Attempt>, a: Attempt)
    requires InTimeOrder(before) && NoSuccess(before, a.email)
    ensures var times, place := Failures(before, a.email), Places(before, a.email);
            && |place| == |times|
            && (Attempted(TableAfter(before), a).1 == TooManyRequests <==>
                  times != [] && place[|times| - 1] == 4 && a.at < times[|times| - 1] + 900_000)
  {
    FailuresAreWindowed(before, a.email);
  }

  // ---------------------------------------------------------------- five per window, and per fifteen minutes

  predicate EntryInBounds(entry: Option<ThrottleEntry>) {
    entry.Some? ==>
      && entry.value.count <= MAX_FAILURES_PER_WINDOW
      && (entry.value.count == MAX_FAILURES_PER_WINDOW ==>
            entry.value.blockedUntil.Some? && entry.value.blockedUntil.value >= entry.value.windowStartedAt + WINDOW_MS)
  }

  /** In every run, with or without successes, a window of the throttle holds at most five failures. */
  lemma {:induction false} AtMostFivePerThrottleWindow(attempts: seq<Attempt>, email: string)
    requires InTimeOrder(attempts)
    ensures EntryInBounds(EntryOf(TableAfter(attempts), email))
    ensures var entry := EntryOf(TableAfter(attempts), email);
            entry.Some? ==> attempts != [] && entry.value.windowStartedAt <= attempts[|attempts| - 1].at
  {
    if attempts != [] {
      var before := attempts[..|attempts| - 1];
      AtMostFivePerThrottleWindow(before, email);
      assert before != [] ==> before[|before| - 1] == attempts[|before| - 1];
    }
  }

  /** The failures of the window before that of failure i. */
  function PrecedingWindow(times: seq<nat>, place: seq<nat>, i: nat): seq<nat>
    requires |place| == |times| && i < |times|
  {
    var start := i - place[i];
    if start <= 0 then []
    else
      var first := start - 1 - place[start - 1];
      if first < 0 then [] else times[first..start]
  }

  /** Those of them that are younger than fifteen minutes when failure i happens. */
  function YoungBefore(times: seq<nat>, place: seq<nat>, i: nat): nat
    requires |place| == |times| && i < |times|
  {
    CountWithin(PrecedingWindow(times, place, i), times[i] + 1 - WINDOW_MS, WINDOW_MS)
  }

  lemma OwnWindowIsYoung(times: seq<nat>, place: seq<nat>, i: nat)
    requires ThrottleWindows(times, place) && Sorted(times) && i < |times|
    ensures CountWithin(times[i - place[i]..i + 1], times[i] + 1 - WINDOW_MS, WINDOW_MS) == place[i] + 1
  {
    var start := i - place[i];
    var own, from := times[start..i + 1], times[i] + 1 - WINDOW_MS;
    if place[i] > 0 { assert Follows(times, place, i, WINDOW_MS); }
    forall t | t in own ensures from <= t < from + WINDOW_MS {
      var k :| start <= k < i + 1 && times[k] == t;
      assert k == start || times[start] <= times[k];
      assert k == i || times[k] <= times[i];
    }
    CountOfRun(own, from, WINDOW_MS);
  }

  lemma EarlierWindowsAreOld(times: seq<nat>, place: seq<nat>, i: nat, first: nat)
    requires ThrottleWindows(times, place) && Sorted(times) && i < |times|
    requires i - place[i] > 0 && first == i - place[i] - 1 - place[i - place[i] - 1]
    ensures times[first] + WINDOW_MS <= times[i]
    ensures CountWithin(times[..first], times[i] + 1 - WINDOW_MS, WINDOW_MS) == 0
  {
    var start := i - place[i];
    WindowOpens(times, place, WINDOW_MS, MAX_FAILURES_PER_WINDOW, i);
    assert Follows(times, place, start, WINDOW_MS);
    assert start == i || times[start] <= times[i];
    forall t | t in times[..first] ensures t < times[i] + 1 - WINDOW_MS {
      var k :| 0 <= k < first && times[k] == t;
      assert times[k] <= times[first];
    }
    CountOfNone(times[..first], times[i] + 1 - WINDOW_MS, WINDOW_MS);
  }

  lemma YoungAreInTheWindowBefore(times: seq<nat>, place: seq<nat>, i: nat, from: int)
    requires ThrottleWindows(times, place) && Sorted(times) && i < |times| && from == times[i] + 1 - WINDOW_MS
    ensures CountWithin(times[..i - place[i]], from, WINDOW_MS) ==
            CountWithin(PrecedingWindow(times, place, i), from, WINDOW_MS)
  {
    var start := i - place[i];
    if start > 0 {
      var first := start - 1 - place[start - 1];
      EarlierWindowsAreOld(times, place, i, first);
      SplitPrefix(times, first, start);
      CountOfJoin(times[..first], times[first..start], from, WINDOW_MS);
    }
  }

  /**
   * The fifteen minutes that end with a failure hold it, those before it in its window, and the young ones before that.
   */
  lemma FailuresOfTheLastFifteenMinutes(times: seq<nat>, place: seq<nat>, i: nat)
    requires ThrottleWindows(times, place) && Sorted(times) && i < |times|
    ensures CountUpTo(times, i, WINDOW_MS) == place[i] + 1 + YoungBefore(times, place, i)
  {
    var start, from := i - place[i], times[i] + 1 - WINDOW_MS;
    YoungAreInTheWindowBefore(times, place, i, from);
    OwnWindowIsYoung(times, place, i);
    SplitPrefix(times, start, i + 1);
    CountOfJoin(times[..start], times[start..i + 1], from, WINDOW_MS);
  }

  /** A window that was filled leaves no young failures behind, and the failure that opened a window is never young. */
  lemma FilledWindowLeavesNothingYoung(times: seq<nat>, place: seq<nat>, i: nat)
    requires ThrottleWindows(times, place) && Sorted(times) && i < |times|
    ensures var start := i - place[i];
            start > 0 && place[start - 1] == MAX_FAILURES_PER_WINDOW - 1 ==> YoungBefore(times, place, i) == 0
    ensures var start := i - place[i];
            start > 0 ==> YoungBefore(times, place, i) <= place[start - 1]
  {
    var start := i - place[i];
    if start > 0 {
      var first, from := start - 1 - place[start - 1], times[i] + 1 - WINDOW_MS;
      EarlierWindowsAreOld(times, place, i, first);
      var preceding := times[first..start];
      assert preceding == [times[first]] + times[first + 1..start];
      CountOfJoin([times[first]], times[first + 1..start], from, WINDOW_MS);
      CountAtMostAll(times[first + 1..start], from, WINDOW_MS);
      if place[start - 1] == MAX_FAILURES_PER_WINDOW - 1 {
        WindowOpens(times, place, WINDOW_MS, MAX_FAILURES_PER_WINDOW, i);
        assert Follows(times, place, start, WINDOW_MS) && WaitsOutTheBlock(times, place, start);
        assert start == i || times[start] <= times[i];
        forall t | t in preceding ensures t < from {
          var k :| first <= k < start && times[k] == t;
          assert k == start - 1 || times[k] <= times[start - 1];
        }
        CountOfNone(preceding, from, WINDOW_MS);
      }
    }
  }

  /**
   * Five failures per fifteen minutes, exactly: no half-open fifteen minutes hold more than five unthrottled failures
   * of an account if and only if, for each of them, its number in its window and the still young failures of the window
   * before together do not exceed five.
   */
  lemma FivePerFifteenMinutesExactly(attempts: seq<Attempt>, email: string)
    requires InTimeOrder(attempts) && NoSuccess(attempts, email)
    ensures var times, place := Failures(attempts, email), Places(attempts, email);
            && |place| == |times|
            && (HoldsAtMost(times, WINDOW_MS, MAX_FAILURES_PER_WINDOW) <==>
                forall i | 0 <= i < |times| :: place[i] + 1 + YoungBefore(times, place, i) <= MAX_FAILURES_PER_WINDOW)
  {
    var times, place := Failures(attempts, email), Places(attempts, email);
    FailuresAreWindowed(attempts, email);
    IntervalsEndingAtTimesSuffice(times, WINDOW_MS, MAX_FAILURES_PER_WINDOW);
    forall i | 0 <= i < |times|
      ensures CountUpTo(times, i, WINDOW_MS) == place[i] + 1 + YoungBefore(times, place, i)
    {
      FailuresOfTheLastFifteenMinutes(times, place, i);
    }
  }

  /** Nine consecutive wrong passwords take at least a window. */
  lemma NineFailuresSpanAWindow(times: seq<nat>, place: seq<nat>, i: nat)
    requires ThrottleWindows(times, place) && Sorted(times) && i + 8 < |times|
    ensures times[i + 8] >= times[i] + WINDOW_MS
  {
    WindowOpens(times, place, WINDOW_MS, MAX_FAILURES_PER_WINDOW, i + 8);
    var p := i + 8 - place[i + 8];
    assert Follows(times, place, p, WINDOW_MS) && WaitsOutTheBlock(times, place, p);
    var q := p - 1 - place[p - 1];
    assert p == i + 8 || times[p] <= times[i + 8];
    if q >= i {
      assert q == i || times[i] <= times[q];
    } else {
      assert times[i] <= times[p - 1];
    }
  }

  /** One attempt at a time, time not running backwards, no success: at most 8 wrong passwords in any 15 minutes. */
  lemma AtMostEightFailuresPerWindow(attempts: seq<Attempt>, email: string, from: int)
    requires InTimeOrder(attempts) && NoSuccess(attempts, email)
    ensures CountWithin(Failures(attempts, email), from, WINDOW_MS) <= 2 * MAX_FAILURES_PER_WINDOW - 2
  {
    var times, place := Failures(attempts, email), Places(attempts, email);
    FailuresAreWindowed(attempts, email);
    forall i: nat | i + 8 < |times| ensures times[i + 8] >= times[i] + WINDOW_MS {
      NineFailuresSpanAWindow(times, place, i);
    }
    SpanBoundsCount(times, from, WINDOW_MS, 8);
  }

  function WrongAt(email: string, times: seq<nat>): (r: seq<Attempt>)
    ensures |r| == |times| && forall i | 0 <= i < |r| :: r[i] == Attempt(email, times[i], false)
  {
    if times == [] then [] else [Attempt(email, times[0], false)] + WrongAt(email, times[1..])
  }

  /** None of these failures finds the account blocked. */
  predicate AllAdmitted(entry: Option<ThrottleEntry>, times: seq<nat>)
    decreases |times|
  {
    times == [] || (!Blocked(entry, times[0]) && AllAdmitted(Some(Recorded(entry, times[0])), times[1..]))
  }

  lemma Regroup<T>(before: seq<T>, a: T, rest: seq<T>)
    ensures before + [a] + rest == before + ([a] + rest)
  {
  }

  lemma EmptyFront<T>(s: seq<T>)
    ensures [] + s == s
  {
  }

  lemma {:induction false} AdmittedFailuresCount(before: seq<Attempt>, email: string, times: seq<nat>,
                                                 counted: seq<nat>)
    requires AllAdmitted(EntryOf(TableAfter(before), email), times)
    requires Failures(before, email) == counted
    ensures Failures(before + WrongAt(email, times), email) == counted + times
    decreases |times|
  {
    if times == [] {
      assert before + [] == before && counted + [] == counted;
    } else {
      var a, rest := Attempt(email, times[0], false), times[1..];
      LastAttempt(before, a, email);
      AdmittedFailuresCount(before + [a], email, rest, counted + [times[0]]);
      Regroup(before, a, WrongAt(email, rest));
      Regroup(counted, times[0], rest);
      assert times == [times[0]] + rest;
    }
  }

  lemma AdmittedStep(entry: Option<ThrottleEntry>, at: nat, rest: seq<nat>)
    requires !Blocked(entry, at) && AllAdmitted(Some(Recorded(entry, at)), rest)
    ensures AllAdmitted(entry, [at] + rest)
  {
    assert ([at] + rest)[1..] == rest;
  }

  /** Four failures at one moment fill an open window. */
  lemma FourMore(at: nat, start: nat)
    requires start <= at < start + WINDOW_MS
    ensures AllAdmitted(Some(ThrottleEntry(1, start, None)), [at, at, at, at])
  {
    AdmittedStep(Some(ThrottleEntry(4, start, None)), at, []);
    AdmittedStep(Some(ThrottleEntry(3, start, None)), at, [at]);
    AdmittedStep(Some(ThrottleEntry(2, start, None)), at, [at, at]);
    AdmittedStep(Some(ThrottleEntry(1, start, None)), at, [at, at, at]);
    assert [at] + [] == [at] && [at] + [at] == [at, at] && [at] + [at, at] == [at, at, at];
    assert [at] + [at, at, at] == [at, at, at, at];
  }

  /** Three late failures in a window, then the first of the next. */
  lemma ThreeThenNext(late: nat, next: nat, rest: seq<nat>)
    requires late < WINDOW_MS <= next
    requires AllAdmitted(Some(ThrottleEntry(1, next, None)), rest)
    ensures AllAdmitted(None, [0, late, late, late, next] + rest)
  {
    AdmittedStep(Some(ThrottleEntry(4, 0, None)), next, rest);
    AdmittedStep(Some(ThrottleEntry(3, 0, None)), late, [next] + rest);
    AdmittedStep(Some(ThrottleEntry(2, 0, None)), late, [late] + ([next] + rest));
    AdmittedStep(Some(ThrottleEntry(1, 0, None)), late, [late] + ([late] + ([next] + rest)));
    AdmittedStep(None, 0, [late] + ([late] + ([late] + ([next] + rest))));
    assert [0] + ([late] + ([late] + ([late] + ([next] + rest)))) == [0, late, late, late, next] + rest;
  }

  /** The bound is reached: two adjacent windows can share fifteen minutes. */
  lemma EightFailuresHappen(email: string)
    ensures exists attempts :: InTimeOrder(attempts) && NoSuccess(attempts, email)
                               && CountWithin(Failures(attempts, email), WINDOW_MS - 1, WINDOW_MS) ==
                                  2 * MAX_FAILURES_PER_WINDOW - 2
  {
    var w: nat := WINDOW_MS;
    var times := [0, w - 1, w - 1, w - 1, w] + [w, w, w, w];
    FourMore(w, w);
    ThreeThenNext(w - 1, w, [w, w, w, w]);
    EightWithin(w);
    RealizedAsAttempts(email, times);
  }

  lemma EightWithin(w: nat)
    requires w == WINDOW_MS
    ensures CountWithin([0, w - 1, w - 1, w - 1, w] + [w, w, w, w], w - 1, w) == 8
  {
    var times := [0, w - 1, w - 1, w - 1, w] + [w, w, w, w];
    CountStep(times, w - 1, w);
    CountOfRun(times[1..], w - 1, w);
  }

  lemma RealizedAsAttempts(email: string, times: seq<nat>)
    requires Sorted(times) && AllAdmitted(None, times)
    ensures var attempts := WrongAt(email, times);
            InTimeOrder(attempts) && NoSuccess(attempts, email) && Failures(attempts, email) == times
  {
    assert TableAfter([]) == map[] && Failures([], email) == [];
    AdmittedFailuresCount([], email, times, []);
    EmptyFront(WrongAt(email, times));
    EmptyFront(times);
  }
}
