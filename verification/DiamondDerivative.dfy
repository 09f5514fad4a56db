// Counter derivatives with rollover: Collector.derivative
// (src/diamond/collector.py:417-454).
module DiamondDerivative {

  // max_value, whether the change is divided by the interval (time_delta), and
  // whether a negative result is kept.
  datatype Settings = Settings(maxValue: real, timeDelta: bool, interval: real, allowNegative: bool)

  // One call: the metric path and the new reading.
  datatype Reading = Reading(path: string, value: real)

  function Divisor(st: Settings): real {
    if st.timeDelta then st.interval else 1.0
  }

  // The change since the last stored value, with the rollover added back.
  function Change(st: Settings, lastValues: map<string, real>, r: Reading): real {
    if r.path !in lastValues then 0.0
    else
      var stored := lastValues[r.path];
      r.value - (if r.value < stored then stored - st.maxValue else stored)
  }

  function Rate(st: Settings, change: real): real
    requires Divisor(st) != 0.0
  {
    var result := change / Divisor(st);
    if result < 0.0 && !st.allowNegative then 0.0 else result
  }

  function Derivative(st: Settings, lastValues: map<string, real>, r: Reading): (map<string, real>, real)
    requires Divisor(st) != 0.0
  {
    (lastValues[r.path := r.value],
     if r.path in lastValues then Rate(st, Change(st, lastValues, r)) else 0.0)
  }

  // A run of calls on any mix of paths.
  function Run(st: Settings, readings: seq<Reading>): (map<string, real>, seq<real>)
    requires Divisor(st) != 0.0
  {
    if readings == [] then (map[], [])
    else
      var (lastValues, results) := Run(st, readings[..|readings| - 1]);
      var (lastValues', x) := Derivative(st, lastValues, readings[|readings| - 1]);
      (lastValues', results + [x])
  }

  // The readings of one path, and the results for it, added up.
  function Of(readings: seq<Reading>, path: string): seq<real> {
    if readings == [] then []
    else
      var last := readings[|readings| - 1];
      Of(readings[..|readings| - 1], path) + (if last.path == path then [last.value] else [])
  }

  function SumFor(readings: seq<Reading>, results: seq<real>, path: string): real
    requires |results| == |readings|
  {
    if readings == [] then 0.0
    else
      var n := |readings| - 1;
      SumFor(readings[..n], results[..n], path) + (if readings[n].path == path then results[n] else 0.0)
  }

  function Decreases(values: seq<real>): nat {
    if |values| < 2 then 0
    else
      var n := |values| - 1;
      Decreases(values[..n]) + (if values[n] < values[n - 1] then 1 else 0)
  }

  // The stored value of a path is its own latest reading: calls for other paths
  // never touch it.
  lemma {:induction false} StoredIsLatest(st: Settings, readings: seq<Reading>, path: string)
    requires Divisor(st) != 0.0
    ensures var (lastValues, results) := Run(st, readings);
            var mine := Of(readings, path);
            && |results| == |readings|
            && (path in lastValues <==> mine != [])
            && (mine != [] ==> lastValues[path] == mine[|mine| - 1])
  {
    if readings != [] {
      StoredIsLatest(st, readings[..|readings| - 1], path);
    }
  }

  ghost predicate InRange(readings: seq<Reading>, max: real) {
    forall r <- readings :: 0.0 <= r.value <= max
  }

  // k copies of x, added up.
  function Times(k: nat, x: real): real {
    if k == 0 then 0.0 else Times(k - 1, x) + x
  }

  lemma {:induction false} TimesIsProduct(k: nat, x: real)
    ensures Times(k, x) == k as real * x
  {
    if k > 0 {
      TimesIsProduct(k - 1, x);
      assert k as real * x == (k - 1) as real * x + x;
    }
  }

  // What a series of readings really amounts to, for a counter that restarts
  // after max_value.
  function NetChange(values: seq<real>, maxValue: real): real {
    if values == [] then 0.0
    else values[|values| - 1] - values[0] + Times(Decreases(values), maxValue)
  }

  lemma NetChangeGrows(values: seq<real>, value: real, maxValue: real)
    ensures NetChange(values + [value], maxValue) ==
            if values == [] then 0.0
            else
              var last := values[|values| - 1];
              NetChange(values, maxValue) + value - last + (if value < last then maxValue else 0.0)
  {
    assert (values + [value])[..|values|] == values;
  }

  // The change seen by the latest call, and by all calls for one path.
  function LatestChange(st: Settings, readings: seq<Reading>): real
    requires Divisor(st) != 0.0 && readings != []
  {
    Change(st, Run(st, readings[..|readings| - 1]).0, readings[|readings| - 1])
  }

  function Changes(st: Settings, readings: seq<Reading>): (r: seq<real>)
    requires Divisor(st) != 0.0
    ensures |r| == |readings|
  {
    if readings == [] then [] else Changes(st, readings[..|readings| - 1]) + [LatestChange(st, readings)]
  }

  lemma {:induction false} StoredInRange(st: Settings, readings: seq<Reading>, path: string)
    requires Divisor(st) != 0.0 && InRange(readings, st.maxValue)
    ensures path in Run(st, readings).0 ==> 0.0 <= Run(st, readings).0[path] <= st.maxValue
  {
    if readings != [] {
      StoredInRange(st, readings[..|readings| - 1], path);
    }
  }

  lemma LatestChangeNonNegative(st: Settings, readings: seq<Reading>)
    requires Divisor(st) != 0.0 && readings != [] && InRange(readings, st.maxValue)
    ensures LatestChange(st, readings) >= 0.0
  {
    StoredInRange(st, readings[..|readings| - 1], readings[|readings| - 1].path);
  }

  lemma {:induction false} ChangesAddUp(st: Settings, readings: seq<Reading>, path: string)
    requires Divisor(st) != 0.0
    ensures SumFor(readings, Changes(st, readings), path) == NetChange(Of(readings, path), st.maxValue)
  {
    if readings != [] {
      var before, r := readings[..|readings| - 1], readings[|readings| - 1];
      ChangesAddUp(st, before, path);
      assert Changes(st, readings)[..|before|] == Changes(st, before);
      if r.path == path {
        StoredIsLatest(st, before, path);
        NetChangeGrows(Of(before, path), r.value, st.maxValue);
      } else {
        assert Of(readings, path) == Of(before, path);
      }
    }
  }

  lemma RateScalesBack(st: Settings, change: real)
    requires Divisor(st) > 0.0 && change >= 0.0
    ensures Rate(st, change) >= 0.0 && Rate(st, change) * Divisor(st) == change
  {
  }

  lemma LatestResult(st: Settings, readings: seq<Reading>) returns (x: real)
    requires Divisor(st) > 0.0 && readings != [] && InRange(readings, st.maxValue)
    ensures Run(st, readings).1 == Run(st, readings[..|readings| - 1]).1 + [x]
    ensures x >= 0.0 && x * Divisor(st) == LatestChange(st, readings)
  {
    var before := Run(st, readings[..|readings| - 1]).0;
    var r := readings[|readings| - 1];
    x := Derivative(st, before, r).1;
    LatestChangeNonNegative(st, readings);
    RateScalesBack(st, Change(st, before, r));
  }

  // Each result is a change over the divisor, and none is negative.
  ghost predicate AreRates(results: seq<real>, changes: seq<real>, d: real) {
    |results| == |changes| && forall k :: 0 <= k < |results| ==> results[k] >= 0.0 && results[k] * d == changes[k]
  }

  // Readings within [0, max_value] never give a negative result.
  lemma {:induction false} DerivativesAreNonNegative(st: Settings, readings: seq<Reading>)
    requires Divisor(st) > 0.0 && InRange(readings, st.maxValue)
    ensures AreRates(Run(st, readings).1, Changes(st, readings), Divisor(st))
  {
    if readings != [] {
      DerivativesAreNonNegative(st, readings[..|readings| - 1]);
      var x := LatestResult(st, readings);
    }
  }

  lemma UnitRates(results: seq<real>, changes: seq<real>, d: real)
    requires d == 1.0 && AreRates(results, changes, d)
    ensures results == changes
  {
    forall k | 0 <= k < |results| ensures results[k] == changes[k] {
      TimesOne(results[k], d);
    }
  }

  lemma TimesOne(x: real, d: real)
    requires d == 1.0
    ensures x * d == x
  {
  }

  // With time_delta off and whatever other paths do in between, the results of
  // a path add up to its net change plus max_value for each decrease.
  lemma DerivativesAddUp(st: Settings, readings: seq<Reading>, path: string)
    requires Divisor(st) == 1.0 && InRange(readings, st.maxValue)
    ensures |Run(st, readings).1| == |readings|
    ensures SumFor(readings, Run(st, readings).1, path) == NetChange(Of(readings, path), st.maxValue)
  {
    DerivativesAreNonNegative(st, readings);
    UnitRates(Run(st, readings).1, Changes(st, readings), Divisor(st));
    ChangesAddUp(st, readings, path);
  }

  // ---- A counter that wraps around ----

  // total[k] is how far the counter has really counted at reading k; it never
  // advances by a whole turn between two readings.
  ghost predicate WrapsOnceAtMost(total: seq<nat>, size: nat) {
    size > 0 && forall k :: 0 < k < |total| ==> total[k - 1] <= total[k] < total[k - 1] + size
  }

  // What the readings show: the count modulo size.
  function Shown(total: seq<nat>, size: nat): seq<real>
    requires size > 0
  {
    seq(|total|, k requires 0 <= k < |total| => (total[k] % size) as real)
  }

  // The decreases among the readings are exactly the wraps of the counter.
  lemma {:induction false} DecreasesAreWraps(total: seq<nat>, size: nat)
    requires WrapsOnceAtMost(total, size) && total != []
    ensures Decreases(Shown(total, size)) == Rollovers(total, size)
  {
    var n := |total| - 1;
    if n > 0 {
      DecreasesAreWraps(total[..n], size);
      assert Shown(total, size)[..n] == Shown(total[..n], size);
      WrapStep(total[n - 1], total[n], size);
    }
  }

  lemma WrapStep(a: nat, b: nat, size: nat)
    requires size > 0 && a <= b < a + size
    ensures b / size == a / size + (if b % size < a % size then 1 else 0)
  {
    var q, r := a / size, a % size;
    assert a == size * q + r;
    if b < size * q + size {
      Quotient(b, q, b - size * q, size);
    } else {
      assert size * (q + 1) == size * q + size;
      Quotient(b, q + 1, b - size * q - size, size);
    }
  }

  lemma Quotient(x: nat, q: nat, r: int, size: nat)
    requires 0 <= r < size && x == size * q + r
    ensures x / size == q && x % size == r
  {
    var q' := x / size;
    var turns := q' - q;
    assert size * turns == r - x % size by {
      assert x == size * q' + x % size;
      assert size * turns == size * q' - size * q;
    }
    assert size * turns == -(size * -turns);
    if turns >= 1 {
      AtLeastOneTurn(size, turns);
    } else if turns <= -1 {
      AtLeastOneTurn(size, -turns);
    }
  }

  lemma AtLeastOneTurn(size: nat, k: int)
    requires k >= 1
    ensures size * k >= size
  {
    assert size * k == size + size * (k - 1);
  }

  // What the counter really gained over the readings, and how often it wrapped.
  function Gain(total: seq<nat>): int
    requires total != []
  {
    total[|total| - 1] as int - total[0]
  }

  function Rollovers(total: seq<nat>, size: nat): int
    requires total != [] && size > 0
  {
    (total[|total| - 1] / size) as int - total[0] / size
  }

  // With max_value = size - 1 the collector under-reports such a counter by
  // exactly one for every rollover.
  lemma UnderReportedByOnePerRollover(st: Settings, readings: seq<Reading>, path: string, total: seq<nat>, size: nat)
    requires WrapsOnceAtMost(total, size) && total != []
    requires Divisor(st) == 1.0 && st.maxValue == (size - 1) as real
    requires InRange(readings, st.maxValue) && Of(readings, path) == Shown(total, size)
    ensures |Run(st, readings).1| == |readings|
    ensures SumFor(readings, Run(st, readings).1, path) == (Gain(total) - Rollovers(total, size)) as real
  {
    DerivativesAddUp(st, readings, path);
    ShownAddsUp(total, size);
  }

  lemma {:induction false} TimesWhole(k: nat, n: int)
    ensures Times(k, n as real) == (k * n) as real
  {
    if k > 0 {
      TimesWhole(k - 1, n);
      assert k * n == (k - 1) * n + n;
    }
  }

  lemma ShownAddsUp(total: seq<nat>, size: nat)
    requires WrapsOnceAtMost(total, size) && total != []
    ensures NetChange(Shown(total, size), (size - 1) as real) == (Gain(total) - Rollovers(total, size)) as real
  {
    var wraps := Decreases(Shown(total, size));
    DecreasesAreWraps(total, size);
    TimesWhole(wraps, size - 1);
    WholeTurns(total[0], total[|total| - 1], size, wraps);
  }

  lemma WholeTurns(a: nat, b: nat, size: nat, wraps: nat)
    requires size > 0 && wraps == b / size - a / size
    ensures b % size - a % size + wraps * (size - 1) == b - a - wraps
  {
    assert a == size * (a / size) + a % size && b == size * (b / size) + b % size;
    assert size * (b / size) - size * (a / size) == size * wraps;
    assert wraps * (size - 1) == size * wraps - wraps;
  }

  // ---- One result in numbers ----

  // What the call for a path returns: nothing yet the first time; afterwards what its
  // reading gained on the one before, max_value added back if that was larger, divided
  // by the interval where asked for, and not below zero unless allowed.
  lemma ResultInNumbers(st: Settings, readings: seq<Reading>, r: Reading)
    requires Divisor(st) != 0.0
    ensures var mine, results := Of(readings, r.path), Run(st, readings + [r]).1;
            && |results| == |readings| + 1 && results[..|readings|] == Run(st, readings).1
            && (mine == [] ==> results[|readings|] == 0.0)
            && (mine != [] ==>
                  var was := mine[|mine| - 1];
                  var gain := if r.value < was then r.value - was + st.maxValue else r.value - was;
                  var rate := gain / (if st.timeDelta then st.interval else 1.0);
                  results[|readings|] == if rate < 0.0 && !st.allowNegative then 0.0 else rate)
  {
    assert (readings + [r])[..|readings|] == readings;
    StoredIsLatest(st, readings, r.path);
  }

  // The readings of one path, in their order.
  lemma {:induction false} OfInOrder(a: seq<Reading>, b: seq<Reading>, r: Reading, path: string)
    ensures Of(a + b, path) == Of(a, path) + Of(b, path)
    ensures Of([r], path) == if r.path == path then [r.value] else []
  {
    assert [r][..0] == [];
    if b == [] {
      assert a + b == a;
    } else {
      assert (a + b)[..|a + b| - 1] == a + b[..|b| - 1];
      OfInOrder(a, b[..|b| - 1], r, path);
    }
  }
}
