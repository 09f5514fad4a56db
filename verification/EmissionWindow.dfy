// The rolling window of emission timings kept by BaseHandler.recordEmissions and
// read by BaseHandler.InternalMetrics (src/fullerite/handler/handler.go).
module EmissionWindow {

  const SECOND := 1_000_000_000

  // Times and durations are nanoseconds.
  datatype Timing = Timing(timestamp: int, duration: int, metricsSent: nat)

  // A timing taken from the channel, and the clock reading that follows it.
  datatype Reception = Reception(timing: Timing, now: int)

  function Cutoff(now: int, interval: int): int {
    now + -1 * interval * SECOND
  }

  predicate Expired(t: Timing, minTime: int) {
    minTime > t.timestamp
  }

  // How many timings at the front of the list are older than the cut-off.
  function ExpiredPrefix(times: seq<Timing>, minTime: int): (k: nat)
    ensures k <= |times|
    ensures forall i :: 0 <= i < k ==> Expired(times[i], minTime)
    ensures k < |times| ==> !Expired(times[k], minTime)
  {
    if times == [] || !Expired(times[0], minTime) then 0
    else
      var k := ExpiredPrefix(times[1..], minTime);
      assert forall i :: 1 <= i < |times| ==> times[i] == times[1..][i - 1];
      k + 1
  }

  function DropExpired(times: seq<Timing>, minTime: int): seq<Timing> {
    times[ExpiredPrefix(times, minTime)..]
  }

  // What the list holds after each reception pruned what the one before left.
  function Window(received: seq<Reception>, interval: int): seq<Timing> {
    if received == [] then []
    else
      var r := received[|received| - 1];
      DropExpired(Window(received[..|received| - 1], interval) + [r.timing], Cutoff(r.now, interval))
  }

  // Everything ever received.
  function History(received: seq<Reception>): (h: seq<Timing>)
    ensures |h| == |received|
  {
    seq(|received|, i requires 0 <= i < |received| => received[i].timing)
  }

  function Young(times: seq<Timing>, minTime: int): seq<Timing> {
    if times == [] then []
    else
      var last := times[|times| - 1];
      Young(times[..|times| - 1], minTime) + (if Expired(last, minTime) then [] else [last])
  }

  ghost predicate ClockAdvances(received: seq<Reception>) {
    forall i, j :: 0 <= i < j < |received| ==> received[i].now <= received[j].now
  }

  ghost predicate NoneBehindALiveOne(times: seq<Timing>, minTime: int) {
    forall i, j :: 0 <= i < j < |times| && Expired(times[j], minTime) ==> Expired(times[i], minTime)
  }

  ghost predicate InTimestampOrder(times: seq<Timing>) {
    forall i, j :: 0 <= i < j < |times| ==> times[i].timestamp <= times[j].timestamp
  }

  lemma {:induction false} PrefixIsUnique(times: seq<Timing>, minTime: int, k: nat)
    requires k <= |times|
    requires forall i :: 0 <= i < k ==> Expired(times[i], minTime)
    requires k < |times| ==> !Expired(times[k], minTime)
    ensures ExpiredPrefix(times, minTime) == k
  {
    if k > 0 {
      PrefixIsUnique(times[1..], minTime, k - 1);
    }
  }

  lemma HistorySnoc(received: seq<Reception>)
    requires received != []
    ensures History(received) == History(received[..|received| - 1]) + [received[|received| - 1].timing]
  {
  }

  // How many timings have been removed so far.
  function Gone(received: seq<Reception>, interval: int): int {
    |received| - |Window(received, interval)|
  }

  // Whatever the clock does, pruning only ever removes from the front...
  lemma {:induction false} WindowIsSuffix(received: seq<Reception>, interval: int)
    ensures 0 <= Gone(received, interval)
    ensures Window(received, interval) == History(received)[Gone(received, interval)..]
  {
    if received != [] {
      var n := |received| - 1;
      var before, r := received[..n], received[n];
      WindowIsSuffix(before, interval);
      HistorySnoc(received);
      var gone := Gone(before, interval);
      var pushed := Window(before, interval) + [r.timing];
      assert pushed == History(received)[gone..];
      var k := ExpiredPrefix(pushed, Cutoff(r.now, interval));
      assert pushed[k..] == History(received)[gone + k..];
    }
  }

  // More than the interval, in nanoseconds, has passed since a timing.
  predicate Older(t: Timing, now: int, interval: int) {
    now - t.timestamp > interval * 1_000_000_000
  }

  lemma ExpiredMeansOlder(t: Timing, now: int, interval: int)
    ensures Expired(t, Cutoff(now, interval)) <==> Older(t, now, interval)
  {
  }

  ghost predicate ExpiredLater(received: seq<Reception>, interval: int, i: nat)
    requires i < |received|
  {
    exists j :: i <= j < |received| && Older(received[i].timing, received[j].now, interval)
  }

  // ... and removes a timing only if it had expired at or after its reception.
  lemma {:induction false} RemovedOnlyWhenExpired(received: seq<Reception>, interval: int, i: nat)
    requires i < Gone(received, interval)
    ensures i < |received| && ExpiredLater(received, interval, i)
  {
    var n := |received| - 1;
    var before, r := received[..n], received[n];
    WindowIsSuffix(before, interval);
    if i < Gone(before, interval) {
      RemovedOnlyWhenExpired(before, interval, i);
      var j :| i <= j < n && Older(before[i].timing, before[j].now, interval);
      assert Older(received[i].timing, received[j].now, interval);
    } else {
      HistorySnoc(received);
      var gone := Gone(before, interval);
      var pushed := Window(before, interval) + [r.timing];
      assert pushed == History(received)[gone..];
      assert pushed[i - gone] == received[i].timing;
      ExpiredMeansOlder(received[i].timing, received[n].now, interval);
    }
  }

  lemma {:induction false} DropTwice(h: seq<Timing>, gone: nat, cutoff: int)
    requires gone <= |h|
    ensures DropExpired(h[gone..], cutoff) == DropExpired(h, cutoff) <==> gone <= ExpiredPrefix(h, cutoff)
  {
    var k := ExpiredPrefix(h, cutoff);
    if gone <= k {
      assert forall i :: 0 <= i < k - gone ==> h[gone..][i] == h[gone + i];
      PrefixIsUnique(h[gone..], cutoff, k - gone);
      assert h[gone..][k - gone..] == h[k..];
    }
  }

  // How much of its own history reception j's cut-off would drop.
  function OwnPrefix(received: seq<Reception>, interval: int, j: nat): nat
    requires j < |received|
  {
    ExpiredPrefix(History(received)[..j + 1], Cutoff(received[j].now, interval))
  }

  // No earlier cut-off would drop more of its history than the latest one does.
  ghost predicate LatestDropsMost(received: seq<Reception>, interval: int)
    requires received != []
  {
    forall j :: 0 <= j < |received| - 1 ==>
        OwnPrefix(received, interval, j) <= OwnPrefix(received, interval, |received| - 1)
  }

  lemma LatestPruning(received: seq<Reception>, interval: int)
    requires received != []
    ensures var n := |received| - 1;
            var gone := Gone(received[..n], interval);
            && 0 <= gone <= n
            && Window(received, interval) == DropExpired(History(received)[gone..], Cutoff(received[n].now, interval))
  {
    var n := |received| - 1;
    WindowIsSuffix(received[..n], interval);
    HistorySnoc(received);
    var gone := Gone(received[..n], interval);
    assert Window(received[..n], interval) + [received[n].timing] == History(received)[gone..];
  }

  // What one reception makes of the number removed so far.
  lemma GoneStep(received: seq<Reception>, interval: int, j: nat)
    requires j < |received|
    ensures var h, gone := History(received)[..j + 1], Gone(received[..j], interval);
            && 0 <= gone <= j
            && Gone(received[..j + 1], interval) == gone + ExpiredPrefix(h[gone..], Cutoff(received[j].now, interval))
  {
    var before := received[..j + 1];
    assert before[..j] == received[..j];
    LatestPruning(before, interval);
    assert History(before) == History(received)[..j + 1];
  }

  lemma DropAtLeast(h: seq<Timing>, gone: nat, cutoff: int)
    requires gone <= |h|
    ensures ExpiredPrefix(h, cutoff) <= gone + ExpiredPrefix(h[gone..], cutoff)
  {
    if gone <= ExpiredPrefix(h, cutoff) {
      DropTwice(h, gone, cutoff);
    }
  }

  lemma {:induction false} GoneAtLeast(received: seq<Reception>, interval: int, j: nat, k: nat)
    requires j < k <= |received|
    ensures OwnPrefix(received, interval, j) <= Gone(received[..k], interval)
  {
    GoneStep(received, interval, k - 1);
    if j < k - 1 {
      GoneAtLeast(received, interval, j, k - 1);
    } else {
      DropAtLeast(History(received)[..k], Gone(received[..j], interval), Cutoff(received[j].now, interval));
    }
  }

  // One more pruning does not go past a later cut-off's prefix: else the timing
  // at that prefix would be older than a cut-off that is itself earlier.
  lemma GoneStaysWithin(h: seq<Timing>, k: nat, gone: nat, cutoff: int, later: int)
    requires gone <= k <= |h| && gone <= ExpiredPrefix(h, later)
    requires ExpiredPrefix(h[..k], cutoff) <= ExpiredPrefix(h, later)
    ensures gone + ExpiredPrefix(h[..k][gone..], cutoff) <= ExpiredPrefix(h, later)
  {
    var own, end := ExpiredPrefix(h[..k], cutoff), ExpiredPrefix(h, later);
    var more := ExpiredPrefix(h[..k][gone..], cutoff);
    if gone <= own {
      DropTwice(h[..k], gone, cutoff);
    } else {
      assert !Expired(h[..k][own], cutoff) && Expired(h[own], later);
      assert end < k ==> !Expired(h[end], cutoff) && h[..k][gone..][end - gone] == h[end];
    }
  }

  lemma {:induction false} GoneAtMost(received: seq<Reception>, interval: int, k: nat)
    requires received != [] && k < |received| && LatestDropsMost(received, interval)
    ensures Gone(received[..k], interval) <= OwnPrefix(received, interval, |received| - 1)
  {
    if k > 0 {
      var n := |received| - 1;
      GoneAtMost(received, interval, k - 1);
      GoneStep(received, interval, k - 1);
      assert OwnPrefix(received, interval, k - 1) <= OwnPrefix(received, interval, n);
      assert History(received)[..n + 1] == History(received);
      GoneStaysWithin(History(received), k, Gone(received[..k - 1], interval),
                      Cutoff(received[k - 1].now, interval), Cutoff(received[n].now, interval));
    }
  }

  // Pruning step by step equals one drop-while over the whole history with the
  // latest cut-off exactly when no earlier cut-off drops more than that.
  lemma WindowMeetsHistory(received: seq<Reception>, interval: int)
    requires received != []
    ensures Window(received, interval) ==
            DropExpired(History(received), Cutoff(received[|received| - 1].now, interval)) <==>
            LatestDropsMost(received, interval)
  {
    var n := |received| - 1;
    assert History(received)[..n + 1] == History(received);
    LatestPruning(received, interval);
    DropTwice(History(received), Gone(received[..n], interval), Cutoff(received[n].now, interval));
    if LatestDropsMost(received, interval) {
      GoneAtMost(received, interval, n);
    } else {
      var j :| 0 <= j < n && OwnPrefix(received, interval, j) > OwnPrefix(received, interval, n);
      GoneAtLeast(received, interval, j, n);
    }
  }

  // With a clock that does not go back the two always agree. Go's is one: what
  // time.Now returns carries a monotonic reading, and Add and After go by it.
  lemma WindowIsDropWhile(received: seq<Reception>, interval: int)
    requires received != [] && ClockAdvances(received)
    ensures Window(received, interval) ==
            DropExpired(History(received), Cutoff(received[|received| - 1].now, interval))
  {
    var n := |received| - 1;
    var h := History(received);
    assert h[..n + 1] == h;
    forall j | 0 <= j < n ensures OwnPrefix(received, interval, j) <= OwnPrefix(received, interval, n) {
      LaterDropsMore(h, j + 1, Cutoff(received[j].now, interval), Cutoff(received[n].now, interval));
    }
    WindowMeetsHistory(received, interval);
  }

  lemma LaterDropsMore(h: seq<Timing>, k: nat, cutoff: int, later: int)
    requires k <= |h| && cutoff <= later
    ensures ExpiredPrefix(h[..k], cutoff) <= ExpiredPrefix(h, later)
  {
    var own, end := ExpiredPrefix(h[..k], cutoff), ExpiredPrefix(h, later);
    assert end < k ==> h[..k][end] == h[end];
  }

  // Under such a clock: everything from the first timing on that is at most the
  // interval old.
  lemma WindowFromTheFirstYoungOne(received: seq<Reception>, interval: int) returns (k: nat)
    requires received != [] && ClockAdvances(received)
    ensures k <= |received| && |Window(received, interval)| == |received| - k
    ensures forall i :: k <= i < |received| ==> Window(received, interval)[i - k] == received[i].timing
    ensures var now := received[|received| - 1].now;
            && (forall i :: 0 <= i < k ==> now - received[i].timing.timestamp > interval * 1_000_000_000)
            && (k < |received| ==> now - received[k].timing.timestamp <= interval * 1_000_000_000)
  {
    WindowIsDropWhile(received, interval);
    var h, now := History(received), received[|received| - 1].now;
    k := ExpiredPrefix(h, Cutoff(now, interval));
    forall i | 0 <= i < |received| ensures h[i] == received[i].timing {
      ExpiredMeansOlder(h[i], now, interval);
    }
  }

  // So no timing inside the window is ever lost.
  lemma NothingYoungIsLost(received: seq<Reception>, interval: int, r: Reception)
    requires ClockAdvances(received) && r in received
    requires received[|received| - 1].now - r.timing.timestamp <= interval * 1_000_000_000
    ensures r.timing in Window(received, interval)
  {
    var k := WindowFromTheFirstYoungOne(received, interval);
    var i :| 0 <= i < |received| && received[i] == r;
    assert Window(received, interval)[i - k] == r.timing;
  }

  // The list after a pruning that took out the first k.
  predicate PrunedAt(k: nat, pushed: seq<Timing>, times: seq<Timing>, now: int, interval: int) {
    && k <= |pushed| && times == pushed[k..]
    && (forall i :: 0 <= i < k ==> Older(pushed[i], now, interval))
    && (k < |pushed| ==> !Older(pushed[k], now, interval))
  }

  lemma OldOnesDropped(pushed: seq<Timing>, now: int, interval: int, k: nat)
    requires k == ExpiredPrefix(pushed, Cutoff(now, interval))
    ensures PrunedAt(k, pushed, pushed[k..], now, interval)
  {
    forall i | 0 <= i < |pushed|
      ensures Expired(pushed[i], Cutoff(now, interval)) <==> Older(pushed[i], now, interval)
    {
      ExpiredMeansOlder(pushed[i], now, interval);
    }
  }

  // Under any clock: one pruning takes out the old timings at the front, up to the
  // first that is at most the interval old.
  lemma EachPruningDropsTheOldOnes(received: seq<Reception>, interval: int) returns (k: nat)
    requires received != []
    ensures var n := |received| - 1;
            PrunedAt(k, Window(received[..n], interval) + [received[n].timing], Window(received, interval),
                     received[n].now, interval)
  {
    var n := |received| - 1;
    var pushed := Window(received[..n], interval) + [received[n].timing];
    k := ExpiredPrefix(pushed, Cutoff(received[n].now, interval));
    OldOnesDropped(pushed, received[n].now, interval, k);
  }

  // That property of the clock is needed: were only the wall clock compared and
  // set back, a timing inside the window could already be gone.
  lemma WallClockWouldLoseTimings()
    ensures var t := Timing(0, 0, 1);
            var received := [Reception(t, 2 * SECOND), Reception(t, 0)];
            && Window(received, 1) == [t]
            && DropExpired(History(received), Cutoff(0, 1)) == [t, t]
  {
    var t := Timing(0, 0, 1);
    var received := [Reception(t, 2 * SECOND), Reception(t, 0)];
    assert received[..1] == [Reception(t, 2 * SECOND)];
    assert received[..1][..0] == [];
    assert Window(received[..1], 1) == [];
    assert History(received) == [t, t];
  }

  lemma YoungIsRestOfPrefix(times: seq<Timing>, minTime: int)
    ensures Young(times, minTime) == Young(DropExpired(times, minTime), minTime)
  {
    var k := ExpiredPrefix(times, minTime);
    YoungSplit(times[..k], times[k..], minTime);
    assert times == times[..k] + times[k..];
    AllExpired(times[..k], minTime);
  }

  lemma RestIsLive(times: seq<Timing>, minTime: int)
    ensures var rest := DropExpired(times, minTime);
            NoneBehindALiveOne(times, minTime) <==> forall i :: 0 <= i < |rest| ==> !Expired(rest[i], minTime)
  {
    var k := ExpiredPrefix(times, minTime);
    if NoneBehindALiveOne(times, minTime) {
      forall i | 0 <= i < |times[k..]| ensures !Expired(times[k..][i], minTime) {
        assert times[k..][i] == times[k + i];
      }
    } else {
      var i, j :| 0 <= i < j < |times| && Expired(times[j], minTime) && !Expired(times[i], minTime);
      var rest := DropExpired(times, minTime);
      assert rest[j - k] == times[j];
      assert Expired(rest[j - k], minTime);
    }
  }

  // Dropping from the front equals filtering by age exactly when no expired
  // timing sits behind a live one.
  lemma DropWhileMeetsFilter(times: seq<Timing>, minTime: int)
    ensures DropExpired(times, minTime) == Young(times, minTime) <==> NoneBehindALiveOne(times, minTime)
  {
    YoungIsRestOfPrefix(times, minTime);
    YoungLength(DropExpired(times, minTime), minTime);
    RestIsLive(times, minTime);
  }

  lemma {:induction false} YoungLength(times: seq<Timing>, minTime: int)
    ensures |Young(times, minTime)| <= |times|
    ensures Young(times, minTime) == times <==> forall i :: 0 <= i < |times| ==> !Expired(times[i], minTime)
  {
    if times != [] {
      YoungLength(times[..|times| - 1], minTime);
      assert times == times[..|times| - 1] + [times[|times| - 1]];
      assert forall i :: 0 <= i < |times| - 1 ==> times[..|times| - 1][i] == times[i];
    }
  }

  lemma {:induction false} YoungSplit(a: seq<Timing>, b: seq<Timing>, minTime: int)
    ensures Young(a + b, minTime) == Young(a, minTime) + Young(b, minTime)
  {
    if b == [] {
      assert a + b == a;
    } else {
      assert (a + b)[..|a + b| - 1] == a + b[..|b| - 1];
      YoungSplit(a, b[..|b| - 1], minTime);
    }
  }

  lemma {:induction false} AllExpired(times: seq<Timing>, minTime: int)
    requires forall i :: 0 <= i < |times| ==> Expired(times[i], minTime)
    ensures Young(times, minTime) == []
  {
    if times != [] {
      AllExpired(times[..|times| - 1], minTime);
    }
  }

  // Timings that arrive in timestamp order under an advancing clock: the list
  // is exactly the timings younger than the interval...
  lemma WindowIsFilter(received: seq<Reception>, interval: int)
    requires received != [] && ClockAdvances(received) && InTimestampOrder(History(received))
    ensures Window(received, interval) == Young(History(received), Cutoff(received[|received| - 1].now, interval))
  {
    WindowIsDropWhile(received, interval);
    DropWhileMeetsFilter(History(received), Cutoff(received[|received| - 1].now, interval));
  }

  // ... that is, those received since the first one at most the interval old, and
  // no other one is.
  lemma WindowIsTheYoungOnes(received: seq<Reception>, interval: int) returns (k: nat)
    requires received != [] && ClockAdvances(received) && InTimestampOrder(History(received))
    ensures k <= |received| && |Window(received, interval)| == |received| - k
    ensures forall i :: k <= i < |received| ==> Window(received, interval)[i - k] == received[i].timing
    ensures forall i :: 0 <= i < |received| ==>
              (k <= i <==>
               received[|received| - 1].now - received[i].timing.timestamp <= interval * 1_000_000_000)
  {
    k := WindowFromTheFirstYoungOne(received, interval);
    var h := History(received);
    forall i | k <= i < |received| ensures received[k].timing.timestamp <= received[i].timing.timestamp {
      assert h[k] == received[k].timing && h[i] == received[i].timing;
    }
  }

  // ---- The fields a handler updates ----

  function SumDurations(times: seq<Timing>): int {
    if times == [] then 0 else SumDurations(times[..|times| - 1]) + times[|times| - 1].duration
  }

  // The sum over a list, whichever way it is divided.
  lemma {:induction false} DurationsAddUp(a: seq<Timing>, b: seq<Timing>, t: Timing)
    ensures SumDurations(a + b) == SumDurations(a) + SumDurations(b) && SumDurations([t]) == t.duration
  {
    assert [t][..0] == [];
    if b == [] {
      assert a + b == a;
    } else {
      assert (a + b)[..|a + b| - 1] == a + b[..|b| - 1];
      DurationsAddUp(a, b[..|b| - 1], t);
    }
  }

  class BaseHandler {
    var interval: int
    var totalEmissions: nat
    var emissionTimes: seq<Timing>

    constructor (interval: int)
      ensures this.interval == interval && totalEmissions == 0 && emissionTimes == []
    {
      this.interval := interval;
      totalEmissions := 0;
      emissionTimes := [];
    }

    // One turn of the recorder's loop.
    method RecordEmission(timing: Timing, now: int)
      modifies this`totalEmissions, this`emissionTimes
      ensures totalEmissions == old(totalEmissions) + 1
      ensures emissionTimes == DropExpired(old(emissionTimes) + [timing], Cutoff(now, interval))
      ensures exists k: nat :: PrunedAt(k, old(emissionTimes) + [timing], emissionTimes, now, interval)
    {
      totalEmissions := totalEmissions + 1;
      emissionTimes := emissionTimes + [timing];
      var minTime := Cutoff(now, interval);
      var toRemove: nat := 0;
      while toRemove < |emissionTimes| && minTime > emissionTimes[toRemove].timestamp
        invariant toRemove <= |emissionTimes|
        invariant forall i :: 0 <= i < toRemove ==> Expired(emissionTimes[i], minTime)
      {
        toRemove := toRemove + 1;
      }
      PrefixIsUnique(emissionTimes, minTime, toRemove);
      ghost var pushed := emissionTimes;
      for i := 0 to toRemove
        invariant totalEmissions == old(totalEmissions) + 1
        invariant |emissionTimes| == |pushed| - i
        invariant emissionTimes == pushed[i..]
      {
        emissionTimes := emissionTimes[1..];
      }
      OldOnesDropped(pushed, now, interval, toRemove);
    }

    // Everything the channel delivers until it is closed.
    method RecordEmissions(received: seq<Reception>)
      requires emissionTimes == [] && totalEmissions == 0
      modifies this`totalEmissions, this`emissionTimes
      ensures totalEmissions == |received|
      ensures emissionTimes == Window(received, interval)
    {
      for i := 0 to |received|
        invariant totalEmissions == i
        invariant emissionTimes == Window(received[..i], interval)
      {
        assert received[..i + 1][..i] == received[..i];
        RecordEmission(received[i].timing, received[i].now);
      }
      assert received[..|received|] == received;
    }

    // The two derived gauges, reported only when the window is not empty.
    method EmissionGauges() returns (found: bool, average: real, max: int)
      ensures found == (|emissionTimes| > 0)
      ensures found ==> average == SumDurations(emissionTimes) as real / |emissionTimes| as real
      ensures max >= 0 && forall i :: 0 <= i < |emissionTimes| ==> emissionTimes[i].duration <= max
      ensures max > 0 ==> exists i :: 0 <= i < |emissionTimes| && emissionTimes[i].duration == max
    {
      found, average, max := |emissionTimes| > 0, 0.0, 0;
      var totalTime := 0;
      for i := 0 to |emissionTimes|
        invariant totalTime == SumDurations(emissionTimes[..i])
        invariant max >= 0 && forall j :: 0 <= j < i ==> emissionTimes[j].duration <= max
        invariant max > 0 ==> exists j :: 0 <= j < i && emissionTimes[j].duration == max
      {
        assert emissionTimes[..i + 1][..i] == emissionTimes[..i];
        var duration := emissionTimes[i].duration;
        totalTime := totalTime + duration;
        if duration > max { max := duration; }
      }
      assert emissionTimes[..|emissionTimes|] == emissionTimes;
      if found {
        average := totalTime as real / |emissionTimes| as real;
      }
    }
  }
}
