// The memory-bounded request limiter: fixed windows per client, a periodic sweep of expired buckets,
// and eviction of the oldest entries at a hard cap.
module RateLimiter {
  import opened Options
  import opened SlidingWindow

  const RATE_LIMIT_MAX_KEYS := 10_000
  const RATE_LIMIT_SWEEP_INTERVAL_MS := 30_000

  type Key = string

  datatype Bucket = Bucket(count: nat, resetAt: nat)

  /** A map that remembers insertion order; re-setting a present key keeps its place. */
  type BucketMap = seq<(Key, Bucket)>

  function Find(m: BucketMap, key: Key): Option<Bucket> {
    if m == [] then None else if m[0].0 == key then Some(m[0].1) else Find(m[1..], key)
  }

  function Put(m: BucketMap, key: Key, b: Bucket): (r: BucketMap)
    ensures |r| == if Find(m, key).Some? then |m| else |m| + 1
  {
    if m == [] then [(key, b)]
    else if m[0].0 == key then [(key, b)] + m[1..]
    else [m[0]] + Put(m[1..], key, b)
  }

  function Unexpired(m: BucketMap, now: nat): (r: BucketMap)
    ensures |r| <= |m|
  {
    if m == [] then []
    else if m[0].1.resetAt <= now then Unexpired(m[1..], now)
    else [m[0]] + Unexpired(m[1..], now)
  }

  function Sweep(s: State, now: nat): State {
    if now - s.lastSweepAt < RATE_LIMIT_SWEEP_INTERVAL_MS then s
    else State(Unexpired(s.buckets, now), now)
  }

  /** At the cap the oldest entries go, so that one more fits. */
  function Evict(m: BucketMap): (r: BucketMap)
    ensures |r| < RATE_LIMIT_MAX_KEYS
  {
    if |m| >= RATE_LIMIT_MAX_KEYS then m[|m| - RATE_LIMIT_MAX_KEYS + 1..] else m
  }

  /** Below 10,000 entries nothing is evicted, and else exactly the oldest go until 9,999 are left. */
  lemma EvictsTheOldest(m: BucketMap)
    ensures |m| < 10_000 ==> Evict(m) == m
    ensures |m| >= 10_000 ==> |Evict(m)| == 9_999 && Evict(m) == m[|m| - 9_999..]
  {
  }

  datatype State = State(buckets: BucketMap, lastSweepAt: int)

  datatype Limits = Limits(windowMs: nat, maxRequests: nat)

  /** What one client's bucket becomes, and whether the request passes. */
  function Count(current: Option<Bucket>, now: nat, limits: Limits): (Bucket, bool) {
    if current.None? || current.value.resetAt <= now then (Bucket(1, now + limits.windowMs), true)
    else
      var b := current.value.(count := current.value.count + 1);
      (b, b.count <= limits.maxRequests)
  }

  function Retained(s: State, now: nat): BucketMap {
    Evict(Sweep(s, now).buckets)
  }

  function Handled(s: State, key: Key, now: nat, limits: Limits): (State, bool) {
    var kept := Retained(s, now);
    var (b, passes) := Count(Find(kept, key), now, limits);
    (State(Put(kept, key, b), Sweep(s, now).lastSweepAt), passes)
  }

  /** Expired buckets are swept when thirty seconds have passed since the last sweep, and then all of them. */
  lemma {:induction false} SweepsExactly(m: BucketMap, now: nat)
    ensures forall b | b in Unexpired(m, now) :: b in m && now < b.1.resetAt
    ensures forall b | b in m && now < b.1.resetAt :: b in Unexpired(m, now)
  {
    if m != [] {
      SweepsExactly(m[1..], now);
      assert m == [m[0]] + m[1..];
    }
  }

  lemma SweepIsDueExactly(s: State, now: nat)
    ensures Sweep(s, now) == if now - s.lastSweepAt >= 30_000 then State(Unexpired(s.buckets, now), now) else s
  {
  }

  /** A request opens a window, or counts in the open one, also when it is refused. */
  lemma RequestIsCounted(current: Option<Bucket>, now: nat, limits: Limits)
    ensures var open := current.Some? && now < current.value.resetAt;
            var (b, passes) := Count(current, now, limits);
            && (!open ==> passes && b.count == 1 && b.resetAt == now + limits.windowMs)
            && (open ==> b.count == current.value.count + 1 && b.resetAt == current.value.resetAt)
            && (open ==> (passes <==> current.value.count < limits.maxRequests))
  {
  }

  datatype Reply = Next | TooManyRequests(retryAfterSec: nat)

  class Limiter {
    var requestCounts: BucketMap
    var lastSweepAt: int
    const limits: Limits

    constructor (windowMs: nat := 60_000, maxRequests: nat := 120)
      ensures limits == Limits(windowMs, maxRequests) && requestCounts == [] && lastSweepAt == 0
    {
      limits := Limits(windowMs, maxRequests);
      requestCounts, lastSweepAt := [], 0;
    }

    method SweepExpiredBuckets(now: nat)
      modifies this
      ensures State(requestCounts, lastSweepAt) == Sweep(old(State(requestCounts, lastSweepAt)), now)
    {
      if now - lastSweepAt < RATE_LIMIT_SWEEP_INTERVAL_MS {
        return;
      }
      lastSweepAt := now;
      var kept: BucketMap := [];
      for i := 0 to |requestCounts|
        invariant requestCounts == old(requestCounts)
        invariant kept + Unexpired(requestCounts[i..], now) == Unexpired(requestCounts, now)
      {
        if requestCounts[i].1.resetAt > now {
          kept := kept + [requestCounts[i]];
        }
      }
      requestCounts := kept;
    }

    method EvictOldest()
      modifies this`requestCounts
      ensures requestCounts == Evict(old(requestCounts))
    {
      if |requestCounts| >= RATE_LIMIT_MAX_KEYS {
        var overflow := |requestCounts| - RATE_LIMIT_MAX_KEYS + 1;
        for i := 0 to overflow
          invariant requestCounts == old(requestCounts)[i..]
        {
          requestCounts := requestCounts[1..];
        }
      }
    }

    method Handle(key: Key, now: nat) returns (reply: Reply)
      modifies this
      ensures (State(requestCounts, lastSweepAt), reply.Next?) ==
              Handled(old(State(requestCounts, lastSweepAt)), key, now, limits)
      // the fewest whole seconds that outlast the window, at least one
      ensures reply.TooManyRequests? ==>
                var b := Find(requestCounts, key); var s := reply.retryAfterSec;
                && b.Some? && 1 <= s && b.value.resetAt - now <= 1000 * s
                && (s > 1 ==> 1000 * (s - 1) < b.value.resetAt - now)
    {
      SweepExpiredBuckets(now);
      EvictOldest();
      var current := Find(requestCounts, key);
      if current.None? || current.value.resetAt <= now {
        requestCounts := Put(requestCounts, key, Bucket(1, now + limits.windowMs));
        return Next;
      }
      var bucket := current.value.(count := current.value.count + 1);
      requestCounts := Put(requestCounts, key, bucket);
      if bucket.count > limits.maxRequests {
        FindAfterPut(Retained(old(State(requestCounts, lastSweepAt)), now), key, bucket, key);
        var seconds := (bucket.resetAt - now + 999) / 1000;
        return TooManyRequests(if seconds > 1 then seconds else 1);
      }
      return Next;
    }
  }

  // ---------------------------------------------------------------- runs

  datatype Request = Request(key: Key, now: nat)

  /** All requests handled so far, the latest on the outside. */
  datatype Run = Boot | Then(before: Run, request: Request)

  predicate InTimeOrder(run: Run) {
    match run
    case Boot => true
    case Then(before, r) => InTimeOrder(before) && (before.Then? ==> before.request.now <= r.now)
  }

  function StateAfter(run: Run, limits: Limits): State {
    match run
    case Boot => State([], 0)
    case Then(before, r) => Handled(StateAfter(before, limits), r.key, r.now, limits).0
  }

  /** Whether the latest request was passed on. */
  predicate Admitted(run: Run, limits: Limits)
    requires run.Then?
  {
    Handled(StateAfter(run.before, limits), run.request.key, run.request.now, limits).1
  }

  lemma MapNeverExceedsTheCap(run: Run, limits: Limits)
    ensures |StateAfter(run, limits).buckets| <= RATE_LIMIT_MAX_KEYS
  {
    if run.Then? {
      var before := StateAfter(run.before, limits);
      assert |Retained(before, run.request.now)| < RATE_LIMIT_MAX_KEYS;
    }
  }

  // ---------------------------------------------------------------- the unbounded limiter

  /** The same fixed windows with nothing ever swept or evicted. */
  function BucketsAfter(run: Run, limits: Limits): map<Key, Bucket> {
    match run
    case Boot => map[]
    case Then(before, r) =>
      var buckets := BucketsAfter(before, limits);
      buckets[r.key := Count(Lookup(buckets, r.key), r.now, limits).0]
  }

  function Lookup(buckets: map<Key, Bucket>, key: Key): Option<Bucket> {
    if key in buckets then Some(buckets[key]) else None
  }

  function BucketOf(run: Run, key: Key, limits: Limits): Option<Bucket> {
    Lookup(BucketsAfter(run, limits), key)
  }

  predicate AdmittedUnbounded(run: Run, limits: Limits)
    requires run.Then?
  {
    Count(BucketOf(run.before, run.request.key, limits), run.request.now, limits).1
  }

  /** No request of the run evicted this client's bucket. */
  predicate NeverEvicted(run: Run, key: Key, limits: Limits) {
    match run
    case Boot => true
    case Then(before, r) =>
      var swept := Sweep(StateAfter(before, limits), r.now).buckets;
      NeverEvicted(before, key, limits) && Find(Evict(swept), key) == Find(swept, key)
  }

  lemma {:induction false} FindAfterSweep(m: BucketMap, key: Key, now: nat)
    requires DistinctKeys(m)
    ensures Find(Unexpired(m, now), key) ==
            if Find(m, key).Some? && Find(m, key).value.resetAt <= now then None else Find(m, key)
  {
    if m != [] {
      FindAfterSweep(m[1..], key, now);
      if m[0].0 == key { NotInTail(m, key); }
    }
  }

  predicate DistinctKeys(m: BucketMap) {
    forall i, j | 0 <= i < j < |m| :: m[i].0 != m[j].0
  }

  lemma {:induction false} FindIsMembership(m: BucketMap, key: Key)
    ensures Find(m, key).Some? <==> exists i :: 0 <= i < |m| && m[i].0 == key
  {
    if m != [] {
      FindIsMembership(m[1..], key);
      if m[0].0 != key && exists i :: 0 <= i < |m| && m[i].0 == key {
        var i :| 0 <= i < |m| && m[i].0 == key;
        assert m[1..][i - 1].0 == key;
      }
    }
  }

  lemma NotInTail(m: BucketMap, key: Key)
    requires m != [] && DistinctKeys(m) && m[0].0 == key
    ensures Find(m[1..], key) == None
  {
    FindIsMembership(m[1..], key);
  }

  lemma {:induction false} FindAfterPut(m: BucketMap, key: Key, b: Bucket, other: Key)
    ensures Find(Put(m, key, b), other) == if other == key then Some(b) else Find(m, other)
  {
    if m != [] && m[0].0 != key {
      FindAfterPut(m[1..], key, b, other);
    }
  }

  lemma {:induction false} PutKeepsKeysDistinct(m: BucketMap, key: Key, b: Bucket)
    requires DistinctKeys(m)
    ensures DistinctKeys(Put(m, key, b))
    ensures forall i | 0 <= i < |Put(m, key, b)| ::
              Put(m, key, b)[i].0 == key || exists j :: 0 <= j < |m| && m[j].0 == Put(m, key, b)[i].0
  {
    if m != [] && m[0].0 != key {
      PutKeepsKeysDistinct(m[1..], key, b);
    }
  }

  lemma {:induction false} SweepKeepsKeysDistinct(m: BucketMap, now: nat)
    requires DistinctKeys(m)
    ensures DistinctKeys(Unexpired(m, now))
    ensures forall i | 0 <= i < |Unexpired(m, now)| :: exists j :: 0 <= j < |m| && m[j].0 == Unexpired(m, now)[i].0
  {
    if m != [] {
      var rest, kept := m[1..], Unexpired(m, now);
      SweepKeepsKeysDistinct(rest, now);
      forall i | 0 <= i < |kept| ensures exists j :: 0 <= j < |m| && m[j].0 == kept[i].0 {
        if kept != Unexpired(rest, now) && i == 0 {
          assert m[0].0 == kept[0].0;
        } else {
          var k := if kept == Unexpired(rest, now) then i else i - 1;
          var j :| 0 <= j < |rest| && rest[j].0 == Unexpired(rest, now)[k].0;
          assert m[j + 1].0 == kept[i].0;
        }
      }
    }
  }

  /** The bounded map holds the unbounded limiter's bucket, or nothing when that bucket has expired. */
  predicate Agrees(run: Run, key: Key, limits: Limits) {
    var held, full := Find(StateAfter(run, limits).buckets, key), BucketOf(run, key, limits);
    && DistinctKeys(StateAfter(run, limits).buckets)
    && (held.Some? ==> held == full)
    && (held.None? && full.Some? ==> run.Then? && full.value.resetAt <= run.request.now)
  }

  /** Sweeping loses no live bucket, so what is kept for the client counts the next request as the full map would. */
  lemma KeptBucketCountsAlike(run: Run, key: Key, now: nat, limits: Limits)
    requires Agrees(run, key, limits) && (run.Then? ==> run.request.now <= now)
    requires var swept := Sweep(StateAfter(run, limits), now).buckets; Find(Evict(swept), key) == Find(swept, key)
    ensures DistinctKeys(Retained(StateAfter(run, limits), now))
    ensures var kept, full := Find(Retained(StateAfter(run, limits), now), key), BucketOf(run, key, limits);
            && Count(kept, now, limits) == Count(full, now, limits)
            && (kept.Some? ==> kept == full)
            && (kept.None? && full.Some? ==> full.value.resetAt <= now)
  {
    var s := StateAfter(run, limits);
    FindAfterSweep(s.buckets, key, now);
    SweepKeepsKeysDistinct(s.buckets, now);
  }

  lemma {:induction false} BoundedAgreesWithUnbounded(run: Run, key: Key, limits: Limits)
    requires InTimeOrder(run) && NeverEvicted(run, key, limits)
    ensures Agrees(run, key, limits)
    ensures run.Then? && run.request.key == key ==> Admitted(run, limits) == AdmittedUnbounded(run, limits)
  {
    match run
    case Boot =>
    case Then(before, r) =>
      BoundedAgreesWithUnbounded(before, key, limits);
      KeptBucketCountsAlike(before, key, r.now, limits);
      var kept := Retained(StateAfter(before, limits), r.now);
      var b := Count(Find(kept, r.key), r.now, limits).0;
      FindAfterPut(kept, r.key, b, key);
      PutKeepsKeysDistinct(kept, r.key, b);
  }

  /** A client whose bucket was never evicted gets exactly the decisions of the unbounded limiter. */
  lemma DecisionsAreUnbounded(run: Run, limits: Limits)
    requires run.Then? && InTimeOrder(run) && NeverEvicted(run, run.request.key, limits)
    ensures Admitted(run, limits) == AdmittedUnbounded(run, limits)
  {
    BoundedAgreesWithUnbounded(run, run.request.key, limits);
  }

  // ---------------------------------------------------------------- the admission bound

  /** The times at which this client's requests were passed on. */
  function Passed(run: Run, key: Key, limits: Limits): seq<nat> {
    match run
    case Boot => []
    case Then(before, r) =>
      Passed(before, key, limits) + if r.key == key && Admitted(run, limits) then [r.now] else []
  }

  /** The first request of a window always passes, so a limit of zero admits like a limit of one. */
  function PerWindow(limits: Limits): (m: nat)
    ensures m >= 1
  {
    if limits.maxRequests == 0 then 1 else limits.maxRequests
  }

  ghost predicate BucketTracks(bucket: Option<Bucket>, times: seq<nat>, place: seq<nat>, limits: Limits)
    requires |place| == |times|
  {
    if times == [] then bucket == None
    else
      var last := |times| - 1;
      && place[last] <= last
      && bucket.Some?
      && bucket.value.resetAt == times[last - place[last]] + limits.windowMs
      && place[last] + 1 == if bucket.value.count < PerWindow(limits) then bucket.value.count else PerWindow(limits)
  }

  /** The place of a further admission: 0 in a new window, the next one in the current window. */
  function NextPlace(bucket: Option<Bucket>, now: nat, limits: Limits): nat {
    var b := Count(bucket, now, limits).0;
    if b.count == 0 then 0 else b.count - 1
  }

  lemma AdmissionKeepsWindows(bucket: Option<Bucket>, times: seq<nat>, place: seq<nat>, now: nat, limits: Limits)
    requires Windows(times, place, limits.windowMs, PerWindow(limits)) && BucketTracks(bucket, times, place, limits)
    requires Count(bucket, now, limits).1
    ensures Windows(times + [now], place + [NextPlace(bucket, now, limits)], limits.windowMs, PerWindow(limits))
    ensures BucketTracks(Some(Count(bucket, now, limits).0), times + [now], place + [NextPlace(bucket, now, limits)],
                         limits)
  {
    WindowsExtend(times, place, limits.windowMs, PerWindow(limits), now, NextPlace(bucket, now, limits));
  }

  lemma RejectionKeepsWindows(bucket: Option<Bucket>, times: seq<nat>, place: seq<nat>, now: nat, limits: Limits)
    requires Windows(times, place, limits.windowMs, PerWindow(limits)) && BucketTracks(bucket, times, place, limits)
    requires !Count(bucket, now, limits).1
    ensures BucketTracks(Some(Count(bucket, now, limits).0), times, place, limits)
  {
  }

  /** What the latest request does to the client's admissions and to its unbounded bucket. */
  lemma LatestRequest(run: Run, key: Key, limits: Limits)
    requires run.Then? && InTimeOrder(run) && NeverEvicted(run, key, limits)
    ensures var bucket, now := BucketOf(run.before, key, limits), run.request.now;
            if run.request.key != key then
              BucketOf(run, key, limits) == bucket && Passed(run, key, limits) == Passed(run.before, key, limits)
            else
              && BucketOf(run, key, limits) == Some(Count(bucket, now, limits).0)
              && Passed(run, key, limits) ==
                 if Count(bucket, now, limits).1 then Passed(run.before, key, limits) + [now]
                 else Passed(run.before, key, limits)
  {
    BoundedAgreesWithUnbounded(run, key, limits);
    assert Passed(run.before, key, limits) + [] == Passed(run.before, key, limits);
  }

  /** Admissions so far, in windows that end with the client's current bucket. */
  ghost predicate Windowed(bucket: Option<Bucket>, times: seq<nat>, place: seq<nat>, limits: Limits, now: nat) {
    && Windows(times, place, limits.windowMs, PerWindow(limits))
    && BucketTracks(bucket, times, place, limits)
    && Sorted(times)
    && (times != [] ==> times[|times| - 1] <= now)
  }

  lemma RequestKeepsWindows(bucket: Option<Bucket>, times: seq<nat>, place: seq<nat>, limits: Limits, before: nat,
                            now: nat)
    requires Windowed(bucket, times, place, limits, before) && before <= now
    ensures var (b, passes) := Count(bucket, now, limits);
            if passes then Windowed(Some(b), times + [now], place + [NextPlace(bucket, now, limits)], limits, now)
            else Windowed(Some(b), times, place, limits, now)
  {
    if Count(bucket, now, limits).1 {
      AdmissionKeepsWindows(bucket, times, place, now, limits);
    } else {
      RejectionKeepsWindows(bucket, times, place, now, limits);
    }
  }

  function LatestTime(run: Run): nat {
    match run case Boot => 0 case Then(_, r) => r.now
  }

  lemma {:induction false} AdmissionsAreWindowed(run: Run, key: Key, limits: Limits) returns (place: seq<nat>)
    requires InTimeOrder(run) && NeverEvicted(run, key, limits)
    ensures Windowed(BucketOf(run, key, limits), Passed(run, key, limits), place, limits, LatestTime(run))
  {
    match run
    case Boot => place := [];
    case Then(before, r) =>
      place := AdmissionsAreWindowed(before, key, limits);
      LatestRequest(run, key, limits);
      var bucket := BucketOf(before, key, limits);
      if r.key == key {
        RequestKeepsWindows(bucket, Passed(before, key, limits), place, limits, LatestTime(before), r.now);
        if Count(bucket, r.now, limits).1 {
          place := place + [NextPlace(bucket, r.now, limits)];
        }
      }
  }

  lemma AdmissionsSpanAWindow(times: seq<nat>, place: seq<nat>, limits: Limits, i: nat)
    requires Windows(times, place, limits.windowMs, PerWindow(limits)) && Sorted(times)
    requires i + 2 * PerWindow(limits) - 1 < |times|
    ensures times[i + 2 * PerWindow(limits) - 1] >= times[i] + limits.windowMs
  {
    var last := i + 2 * PerWindow(limits) - 1;
    WindowOpens(times, place, limits.windowMs, PerWindow(limits), last);
    var p := last - place[last];
    assert Follows(times, place, p, limits.windowMs);
    var q := p - 1 - place[p - 1];
    assert p == last || times[p] <= times[last];
    assert q == i || times[i] <= times[q];
  }

  /** Such a client is admitted at most 2 * maxRequests - 1 times in any half-open window. */
  lemma AdmissionBound(run: Run, key: Key, limits: Limits, from: int)
    requires InTimeOrder(run) && NeverEvicted(run, key, limits)
    ensures CountWithin(Passed(run, key, limits), from, limits.windowMs) <= 2 * PerWindow(limits) - 1
  {
    var place := AdmissionsAreWindowed(run, key, limits);
    var times := Passed(run, key, limits);
    var n := 2 * PerWindow(limits) - 1;
    forall i: nat | i + n < |times| ensures times[i + n] >= times[i] + limits.windowMs {
      AdmissionsSpanAWindow(times, place, limits, i);
    }
    SpanBoundsCount(times, from, limits.windowMs, n);
  }

  // ---------------------------------------------------------------- few clients

  function Clients(run: Run): set<Key> {
    match run
    case Boot => {}
    case Then(before, r) => Clients(before) + {r.key}
  }

  predicate HoldsOnly(m: BucketMap, keys: set<Key>) {
    DistinctKeys(m) && forall i | 0 <= i < |m| :: m[i].0 in keys
  }

  lemma {:induction false} DistinctKeysFit(m: BucketMap, keys: set<Key>)
    requires HoldsOnly(m, keys)
    ensures |m| <= |keys|
  {
    if m != [] {
      DistinctKeysFit(m[1..], keys - {m[0].0});
    }
  }

  lemma RequestAddsOneClient(run: Run, limits: Limits, r: Request)
    requires HoldsOnly(StateAfter(run, limits).buckets, Clients(run)) && |Clients(run)| < RATE_LIMIT_MAX_KEYS
    ensures HoldsOnly(StateAfter(Then(run, r), limits).buckets, Clients(run) + {r.key})
    ensures var swept := Sweep(StateAfter(run, limits), r.now).buckets; Evict(swept) == swept
  {
    var s := StateAfter(run, limits);
    var swept := Sweep(s, r.now).buckets;
    DistinctKeysFit(s.buckets, Clients(run));
    SweepKeepsKeysDistinct(s.buckets, r.now);
    assert Evict(swept) == swept && HoldsOnly(swept, Clients(run));
    PutKeepsKeysDistinct(swept, r.key, Count(Find(swept, r.key), r.now, limits).0);
  }

  /** As long as fewer than 10,000 clients have been seen, nobody is ever evicted. */
  lemma {:induction false} FewClientsAreNeverEvicted(run: Run, key: Key, limits: Limits)
    requires |Clients(run)| < RATE_LIMIT_MAX_KEYS
    ensures NeverEvicted(run, key, limits) && HoldsOnly(StateAfter(run, limits).buckets, Clients(run))
  {
    if run.Then? {
      var before := run.before;
      assert Clients(run) == Clients(before) + {run.request.key};
      FewerClientsBefore(Clients(before), run.request.key);
      FewClientsAreNeverEvicted(before, key, limits);
      RequestAddsOneClient(before, limits, run.request);
    }
  }

  lemma FewerClientsBefore(clients: set<Key>, key: Key)
    ensures |clients| <= |clients + {key}|
  {
    assert clients + {key} == clients + ({key} - clients);
  }

  /** So then the unbounded limiter's decisions and the admission bound hold for every client, unconditionally. */
  lemma FewClientsAreLimitedExactly(run: Run, key: Key, limits: Limits, from: int)
    requires InTimeOrder(run) && |Clients(run)| < RATE_LIMIT_MAX_KEYS
    ensures run.Then? ==> Admitted(run, limits) == AdmittedUnbounded(run, limits)
    ensures CountWithin(Passed(run, key, limits), from, limits.windowMs) <= 2 * PerWindow(limits) - 1
  {
    FewClientsAreNeverEvicted(run, key, limits);
    AdmissionBound(run, key, limits, from);
    if run.Then? {
      FewClientsAreNeverEvicted(run, run.request.key, limits);
      DecisionsAreUnbounded(run, limits);
    }
  }

  // ---------------------------------------------------------------- the bound is reached

  function Repeated(run: Run, r: Request, k: nat): Run {
    if k == 0 then run else Then(Repeated(run, r, k - 1), r)
  }

  function Times(at: nat, k: nat): (r: seq<nat>)
    ensures |r| == k && forall t | t in r :: t == at
  {
    if k == 0 then [] else Times(at, k - 1) + [at]
  }

  predicate OnlyKey(m: BucketMap, key: Key) {
    |m| <= 1 && (|m| == 1 ==> m[0].0 == key)
  }

  /** A run in which one client alone sends requests; its next `k` requests of one moment in an open window all pass. */
  ghost predicate Alone(run: Run, key: Key, limits: Limits, times: seq<nat>, bucket: Option<Bucket>) {
    && InTimeOrder(run) && NeverEvicted(run, key, limits)
    && OnlyKey(StateAfter(run, limits).buckets, key)
    && Passed(run, key, limits) == times
    && BucketOf(run, key, limits) == bucket
  }

  lemma OneMorePasses(run: Run, key: Key, limits: Limits, times: seq<nat>, bucket: Option<Bucket>, now: nat)
    requires Alone(run, key, limits, times, bucket) && LatestTime(run) <= now
    requires Count(bucket, now, limits).1
    ensures Alone(Then(run, Request(key, now)), key, limits, times + [now], Some(Count(bucket, now, limits).0))
  {
    var next := Then(run, Request(key, now));
    var swept := Sweep(StateAfter(run, limits), now).buckets;
    assert OnlyKey(swept, key) && Evict(swept) == swept;
    assert OnlyKey(StateAfter(next, limits).buckets, key);
    LatestRequest(next, key, limits);
  }

  /** One more request while the window is open and not full. */
  lemma FillOnce(run: Run, key: Key, limits: Limits, times: seq<nat>, b: Bucket, now: nat)
    requires Alone(run, key, limits, times, Some(b)) && LatestTime(run) <= now < b.resetAt
             && b.count < limits.maxRequests
    ensures Alone(Then(run, Request(key, now)), key, limits, times + [now], Some(b.(count := b.count + 1)))
    ensures LatestTime(Then(run, Request(key, now))) <= now
  {
    OneMorePasses(run, key, limits, times, Some(b), now);
  }

  lemma OneMoreTime(times: seq<nat>, now: nat, k: nat)
    requires k > 0
    ensures times + Times(now, k) == times + Times(now, k - 1) + [now]
  {
  }

  lemma {:induction false} FillWindow(run: Run, key: Key, limits: Limits, times: seq<nat>, b: Bucket, now: nat, k: nat)
    requires Alone(run, key, limits, times, Some(b)) && LatestTime(run) <= now < b.resetAt
    requires b.count + k <= limits.maxRequests
    ensures Alone(Repeated(run, Request(key, now), k), key, limits, times + Times(now, k),
                  Some(b.(count := b.count + k)))
    ensures LatestTime(Repeated(run, Request(key, now), k)) <= now
  {
    if k == 0 {
      assert times + Times(now, 0) == times;
    } else {
      FillWindow(run, key, limits, times, b, now, k - 1);
      var before := Repeated(run, Request(key, now), k - 1);
      var filled := b.(count := b.count + (k - 1));
      FillOnce(before, key, limits, times + Times(now, k - 1), filled, now);
      OneMoreTime(times, now, k);
      assert filled.(count := filled.count + 1) == b.(count := b.count + k);
      assert Repeated(run, Request(key, now), k) == Then(before, Request(key, now));
    }
  }

  /** One request when the client has no open window, and then, later in the window it opens, as many as fit. */
  lemma Burst(run: Run, key: Key, limits: Limits, times: seq<nat>, bucket: Option<Bucket>, at: nat, late: nat)
    returns (after: Run)
    requires Alone(run, key, limits, times, bucket) && LatestTime(run) <= at <= late < at + limits.windowMs
    requires (bucket.None? || bucket.value.resetAt <= at) && limits.maxRequests >= 1
    ensures Alone(after, key, limits, times + [at] + Times(late, limits.maxRequests - 1),
                  Some(Bucket(limits.maxRequests, at + limits.windowMs)))
    ensures LatestTime(after) <= late
  {
    OneMorePasses(run, key, limits, times, bucket, at);
    var first := Then(run, Request(key, at));
    FillWindow(first, key, limits, times + [at], Bucket(1, at + limits.windowMs), late, limits.maxRequests - 1);
    after := Repeated(first, Request(key, late), limits.maxRequests - 1);
    assert Bucket(1, at + limits.windowMs).(count := 1 + (limits.maxRequests - 1)) ==
           Bucket(limits.maxRequests, at + limits.windowMs);
  }

  /** One window opened early and filled late, the next one filled as it opens. */
  lemma TwoBursts(key: Key, limits: Limits) returns (run: Run)
    requires limits.windowMs >= 2 && limits.maxRequests >= 1
    ensures InTimeOrder(run) && NeverEvicted(run, key, limits)
    ensures Passed(run, key, limits) ==
            [0] + Times(limits.windowMs - 1, limits.maxRequests - 1) + [limits.windowMs] +
            Times(limits.windowMs, limits.maxRequests - 1)
  {
    var w, m := limits.windowMs, limits.maxRequests;
    run := Burst(Boot, key, limits, [], None, 0, w - 1);
    var times := [] + [0] + Times(w - 1, m - 1);
    run := Burst(run, key, limits, times, Some(Bucket(m, w)), w, w);
    assert [] + [0] == [0];
  }

  lemma CountOfTwoBursts(w: nat, m: nat)
    requires w >= 2 && m >= 1
    ensures CountWithin([0] + Times(w - 1, m - 1) + [w] + Times(w, m - 1), w - 1, w) == 2 * m - 1
  {
    var recent := Times(w - 1, m - 1) + [w] + Times(w, m - 1);
    assert [0] + Times(w - 1, m - 1) + [w] + Times(w, m - 1) == [0] + recent;
    CountStep([0] + recent, w - 1, w);
    assert ([0] + recent)[1..] == recent;
    CountOfRun(recent, w - 1, w);
  }

  /** 2 * maxRequests - 1 admissions in one half-open window do happen. */
  lemma AdmissionBoundIsReached(key: Key, limits: Limits)
    requires limits.windowMs >= 2 && limits.maxRequests >= 1
    ensures exists run :: InTimeOrder(run) && NeverEvicted(run, key, limits)
              && CountWithin(Passed(run, key, limits), limits.windowMs - 1, limits.windowMs) ==
                 2 * limits.maxRequests - 1
  {
    var run := TwoBursts(key, limits);
    CountOfTwoBursts(limits.windowMs, limits.maxRequests);
  }
}
