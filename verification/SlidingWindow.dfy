// Counting events in half-open time intervals.
module SlidingWindow {

  predicate Sorted(times: seq<nat>) {
    forall i, j | 0 <= i < j < |times| :: times[i] <= times[j]
  }

  /** How many of the times fall in [from, from + width). */
  function CountWithin(times: seq<nat>, from: int, width: nat): nat {
    if times == [] then 0
    else (if from <= times[0] < from + width then 1 else 0) + CountWithin(times[1..], from, width)
  }

  lemma CountStep(times: seq<nat>, from: int, width: nat)
    requires times != []
    ensures CountWithin(times, from, width) ==
            (if from <= times[0] < from + width then 1 else 0) + CountWithin(times[1..], from, width)
  {
  }

  lemma {:induction false} CountOfRun(times: seq<nat>, from: int, width: nat)
    requires forall t | t in times :: from <= t < from + width
    ensures CountWithin(times, from, width) == |times|
  {
    if times != [] {
      assert times[0] in times && forall t | t in times[1..] :: t in times;
      CountOfRun(times[1..], from, width);
    }
  }

  /** In sorted times, what falls in an interval is a block of consecutive entries. */
  lemma {:induction false} CountIsABlock(times: seq<nat>, from: int, width: nat) returns (i: nat)
    requires Sorted(times)
    ensures var n := CountWithin(times, from, width);
            && i + n <= |times|
            && (n > 0 ==> from <= times[i] && times[i + n - 1] < from + width)
            && (n > 0 && i > 0 ==> times[0] < from)
  {
    i := 0;
    if times != [] {
      var rest := times[1..];
      var j := CountIsABlock(rest, from, width);
      var n := CountWithin(rest, from, width);
      if from <= times[0] < from + width {
        if n > 0 {
          assert j == 0;
          assert times[n] == rest[n - 1];
        }
      } else if n > 0 {
        assert times[j + 1] == rest[j] && times[j + 1 + n - 1] == rest[j + n - 1];
        i := j + 1;
      }
    }
  }

  /** If any n + 1 consecutive times span the width, no interval of that width holds more than n. */
  lemma SpanBoundsCount(times: seq<nat>, from: int, width: nat, n: nat)
    requires Sorted(times)
    requires forall i: nat | i + n < |times| :: times[i + n] >= times[i] + width
    ensures CountWithin(times, from, width) <= n
  {
    var i := CountIsABlock(times, from, width);
    var count := CountWithin(times, from, width);
    if count > n {
      assert false;
    }
  }

  lemma {:induction false} CountOfNone(times: seq<nat>, from: int, width: nat)
    requires forall t | t in times :: t < from || from + width <= t
    ensures CountWithin(times, from, width) == 0
  {
    if times != [] {
      assert times[0] in times && forall t | t in times[1..] :: t in times;
      CountOfNone(times[1..], from, width);
    }
  }

  lemma {:induction false} CountAtMostAll(times: seq<nat>, from: int, width: nat)
    ensures CountWithin(times, from, width) <= |times|
  {
    if times != [] { CountAtMostAll(times[1..], from, width); }
  }

  lemma SplitPrefix<T>(s: seq<T>, i: nat, j: nat)
    requires i <= j <= |s|
    ensures s[..j] == s[..i] + s[i..j]
  {
  }

  lemma {:induction false} CountOfJoin(a: seq<nat>, b: seq<nat>, from: int, width: nat)
    ensures CountWithin(a + b, from, width) == CountWithin(a, from, width) + CountWithin(b, from, width)
  {
    if a == [] {
      assert a + b == b;
    } else {
      CountOfJoin(a[1..], b, from, width);
      assert (a + b)[1..] == a[1..] + b;
    }
  }

  /** How many of the times up to number i fall in the interval of this width that ends with it. */
  function CountUpTo(times: seq<nat>, i: nat, width: nat): nat
    requires i < |times|
  {
    CountWithin(times[..i + 1], times[i] + 1 - width, width)
  }

  ghost predicate HoldsAtMost(times: seq<nat>, width: nat, n: nat) {
    forall from: int :: CountWithin(times, from, width) <= n
  }

  ghost predicate HoldsAtMostUpToEach(times: seq<nat>, width: nat, n: nat) {
    forall i | 0 <= i < |times| :: CountUpTo(times, i, width) <= n
  }

  /** All intervals of a width hold at most n times exactly if those that end with one of the times do. */
  lemma IntervalsEndingAtTimesSuffice(times: seq<nat>, width: nat, n: nat)
    requires Sorted(times)
    ensures HoldsAtMost(times, width, n) <==> HoldsAtMostUpToEach(times, width, n)
  {
    if HoldsAtMost(times, width, n) {
      forall i | 0 <= i < |times| ensures CountUpTo(times, i, width) <= n {
        PrefixHoldsNoMore(times, i, width);
      }
    }
    if HoldsAtMostUpToEach(times, width, n) {
      forall from: int ensures CountWithin(times, from, width) <= n {
        if CountWithin(times, from, width) > 0 {
          var i := LastInInterval(times, from, width);
        }
      }
    }
  }

  lemma PrefixHoldsNoMore(times: seq<nat>, i: nat, width: nat)
    requires i < |times|
    ensures CountUpTo(times, i, width) <= CountWithin(times, times[i] + 1 - width, width)
  {
    CountOfJoin(times[..i + 1], times[i + 1..], times[i] + 1 - width, width);
    assert times == times[..i + 1] + times[i + 1..];
  }

  /** A run of times that fits an interval is counted in the interval ending with its last time. */
  lemma BlockIsCounted(times: seq<nat>, i: nat, last: nat, width: nat)
    requires Sorted(times) && i <= last < |times| && times[last] < times[i] + width
    ensures last + 1 - i <= CountUpTo(times, last, width)
  {
    var front, block, from := times[..i], times[i..last + 1], times[last] + 1 - width;
    assert times[..last + 1] == front + block;
    CountOfJoin(front, block, from, width);
    forall t | t in block ensures from <= t < from + width {
      var k :| 0 <= k < |block| && block[k] == t;
      assert block[k] == times[i + k];
      assert k == 0 || times[i] <= times[i + k];
      assert i + k == last || times[i + k] <= times[last];
    }
    CountOfRun(block, from, width);
  }

  /** A non-empty interval holds no more than the one that ends with its last time. */
  lemma LastInInterval(times: seq<nat>, from: int, width: nat) returns (last: nat)
    requires Sorted(times) && CountWithin(times, from, width) > 0
    ensures last < |times| && CountWithin(times, from, width) <= CountUpTo(times, last, width)
  {
    var i := CountIsABlock(times, from, width);
    last := i + CountWithin(times, from, width) - 1;
    BlockIsCounted(times, i, last, width);
  }

  // ---------------------------------------------------------------- fixed windows

  /** Event i comes in the window of the event before it, or opens a new one when that window is over. */
  predicate Follows(times: seq<nat>, place: seq<nat>, i: nat, width: nat)
    requires |place| == |times| && 0 < i < |times|
  {
    && place[i - 1] < i
    && var start := times[i - 1 - place[i - 1]];
       || (place[i] == place[i - 1] + 1 && times[i] < start + width)
       || (place[i] == 0 && times[i] >= start + width)
  }

  /** `place[i]` is the position of event i in its window; a window holds at most `cap` events. */
  ghost predicate Windows(times: seq<nat>, place: seq<nat>, width: nat, cap: nat) {
    && |place| == |times|
    && (times != [] ==> place[0] == 0)
    && (forall i | 0 <= i < |times| :: place[i] < cap && place[i] <= i)
    && forall i | 0 < i < |times| :: Follows(times, place, i, width)
  }

  lemma {:induction false} WindowOpens(times: seq<nat>, place: seq<nat>, width: nat, cap: nat, i: nat)
    requires Windows(times, place, width, cap) && i < |times|
    ensures place[i - place[i]] == 0
    decreases i
  {
    if place[i] > 0 {
      assert Follows(times, place, i, width);
      WindowOpens(times, place, width, cap, i - 1);
    }
  }

  /** One more event, in the window of the last one or in a new one. */
  lemma WindowsExtend(times: seq<nat>, place: seq<nat>, width: nat, cap: nat, at: nat, next: nat)
    requires Windows(times, place, width, cap) && next < cap && (times == [] ==> next == 0)
    requires times != [] ==>
               var last := |times| - 1;
               var start := times[last - place[last]];
               (next == place[last] + 1 && at < start + width) || (next == 0 && at >= start + width)
    ensures Windows(times + [at], place + [next], width, cap)
  {
    var n := |times|;
    if n > 0 { assert Follows(times + [at], place + [next], n, width); }
    forall i | 0 < i < n ensures Follows(times + [at], place + [next], i, width) {
      assert Follows(times, place, i, width);
    }
  }
}
