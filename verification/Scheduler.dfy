// The scheduler of one Diamond collector: a window grid, a stagger that shrinks
// when a run is killed, and the time each run is allowed
// (src/diamond/utils/scheduler.py:56-134).
module Scheduler {
  datatype Outcome = Success | Killed | Failed

  // One turn of the loop: the clock as it is read, how much longer than asked
  // the sleep lasts, and how the collector's run ends.
  datatype Turn = Turn(now: real, oversleep: real, outcome: Outcome)

  datatype Exit = InvalidInterval | CollectorFailed | OutOfTurns

  // A run of the collector: when it was due, when it began, what it was allowed.
  datatype Run = Run(due: real, began: real, allowed: int)

  // ---- Specification: the k-th run from the outcomes before it ----

  // random.uniform(0, interval - 1) for a draw from the unit interval.
  function FirstStagger(interval: real, draw: real): real {
    (interval - 1.0) * draw
  }

  function Staggers(stagger: real, turns: seq<Turn>): real {
    if turns == [] then stagger
    else if turns[|turns| - 1].outcome.Killed? then Staggers(stagger, turns[..|turns| - 1]) * 0.9
    else Staggers(stagger, turns[..|turns| - 1])
  }

  // int(max(interval - stagger, 1)); the truncated number is positive.
  function Allowed(interval: real, stagger: real): int {
    if interval - stagger >= 1.0 then (interval - stagger).Floor else 1
  }

  function WindowOf(interval: real, now: real): real
    requires interval > 0.0
  {
    (now / interval).Floor as real * interval
  }

  // The start of the k-th window from here.
  function Grid(window: real, interval: real, k: nat): real {
    if k == 0 then window else Grid(window, interval, k - 1) + interval
  }

  lemma {:induction false} GridIsEven(window: real, interval: real, k: nat)
    ensures Grid(window, interval, k) == window + k as real * interval
  {
    if k > 0 {
      GridIsEven(window, interval, k - 1);
      assert k as real * interval == (k - 1) as real * interval + interval;
    }
  }

  function Due(window: real, interval: real, stagger: real, turns: seq<Turn>): real {
    Grid(window, interval, |turns|) + Staggers(stagger, turns)
  }

  // A sleep never ends early.
  ghost predicate IsRun(r: Run, window: real, interval: real, stagger: real, turns: seq<Turn>, k: nat)
    requires k < |turns|
  {
    && r.due == Due(window, interval, stagger, turns[..k])
    && r.allowed == Allowed(interval, Staggers(stagger, turns[..k]))
    && r.began == if r.due > turns[k].now then r.due + turns[k].oversleep else turns[k].now
  }

  ghost predicate NoneFailed(turns: seq<Turn>) {
    forall i :: 0 <= i < |turns| ==> !turns[i].outcome.Failed?
  }

  method CollectorProcess(interval: real, startedAt: real, draw: real, turns: seq<Turn>)
    returns (exit: Exit, runs: seq<Run>)
    ensures interval <= 0.0 ==> exit == InvalidInterval && runs == []
    ensures interval > 0.0 ==>
              forall k :: 0 <= k < |runs| <= |turns| ==>
                IsRun(runs[k], WindowOf(interval, startedAt), interval, FirstStagger(interval, draw), turns, k)
    ensures interval > 0.0 && exit == OutOfTurns ==> |runs| == |turns| && NoneFailed(turns)
    ensures interval > 0.0 && exit != OutOfTurns ==>
              exit == CollectorFailed && 0 < |runs| <= |turns| && turns[|runs| - 1].outcome.Failed? &&
                NoneFailed(turns[..|runs| - 1])
  {
    runs := [];
    if interval <= 0.0 {
      return InvalidInterval, [];
    }
    var nextWindow := WindowOf(interval, startedAt);
    var staggerOffset := FirstStagger(interval, draw);
    var maxTime := Allowed(interval, staggerOffset);
    ghost var window, stagger := nextWindow, staggerOffset;
    for i := 0 to |turns|
      invariant |runs| == i && NoneFailed(turns[..i])
      invariant nextWindow == Grid(window, interval, i)
      invariant staggerOffset == Staggers(stagger, turns[..i]) && maxTime == Allowed(interval, staggerOffset)
      invariant forall k :: 0 <= k < i ==> IsRun(runs[k], window, interval, stagger, turns, k)
    {
      var due := nextWindow + staggerOffset;
      var timeToSleep := due - turns[i].now;
      var began := if timeToSleep > 0.0 then turns[i].now + timeToSleep + turns[i].oversleep else turns[i].now;
      nextWindow := nextWindow + interval;
      runs := runs + [Run(due, began, maxTime)];
      assert turns[..i + 1][..i] == turns[..i];
      match turns[i].outcome {
        case Success =>
        case Killed =>
          staggerOffset := staggerOffset * 0.9;
          maxTime := Allowed(interval, staggerOffset);
        case Failed =>
          return CollectorFailed, runs;
      }
    }
    assert turns[..|turns|] == turns;
    exit := OutOfTurns;
  }

  // ---- Whole runs ----

  lemma {:induction false} StaggerShrinks(interval: real, stagger: real, turns: seq<Turn>, k: nat)
    requires 0.0 <= stagger <= interval - 1.0 && k <= |turns|
    ensures 0.0 <= Staggers(stagger, turns) <= Staggers(stagger, turns[..k]) <= stagger
    decreases |turns|
  {
    if k == |turns| {
      assert turns[..k] == turns;
      if k > 0 {
        assert turns[..k - 1][..k - 1] == turns[..k - 1];
        StaggerShrinks(interval, stagger, turns[..k - 1], k - 1);
      }
    } else {
      assert turns[..|turns| - 1][..k] == turns[..k];
      StaggerShrinks(interval, stagger, turns[..|turns| - 1], k);
    }
  }

  // For intervals of a second or more: every run is allowed from one second to
  // the whole interval, and what is due plus what is allowed stays inside the
  // window.
  lemma RunFitsItsWindow(r: Run, window: real, interval: real, draw: real, turns: seq<Turn>, k: nat)
    requires interval >= 1.0 && 0.0 <= draw <= 1.0 && k < |turns|
    requires IsRun(r, window, interval, FirstStagger(interval, draw), turns, k)
    ensures Grid(window, interval, k) <= r.due <= Grid(window, interval, k + 1) - 1.0
    ensures 1 <= r.allowed && r.allowed as real <= interval
    ensures r.due + r.allowed as real <= Grid(window, interval, k + 1)
  {
    FirstStaggerInRange(interval, draw);
    StaggerShrinks(interval, FirstStagger(interval, draw), turns[..k], 0);
  }

  lemma FirstStaggerInRange(interval: real, draw: real)
    requires interval >= 1.0 && 0.0 <= draw <= 1.0
    ensures 0.0 <= FirstStagger(interval, draw) <= interval - 1.0
  {
    ProductNotNegative(interval - 1.0, draw);
    ProductNotNegative(interval - 1.0, 1.0 - draw);
    assert (interval - 1.0) * (1.0 - draw) == (interval - 1.0) - (interval - 1.0) * draw;
  }

  lemma ProductNotNegative(a: real, b: real)
    requires a >= 0.0 && b >= 0.0
    ensures a * b >= 0.0
  {
  }

  lemma ProductPositive(a: real, b: real, c: real)
    requires a > 0.0 && b > 0.0 && c == a * b
    ensures c > 0.0
  {
  }

  // The time allowed never gets shorter.
  lemma AllowedNeverFalls(a: Run, b: Run, window: real, interval: real, draw: real, turns: seq<Turn>, j: nat, k: nat)
    requires interval >= 1.0 && 0.0 <= draw <= 1.0 && j <= k < |turns|
    requires IsRun(a, window, interval, FirstStagger(interval, draw), turns, j)
    requires IsRun(b, window, interval, FirstStagger(interval, draw), turns, k)
    ensures a.allowed <= b.allowed
  {
    FirstStaggerInRange(interval, draw);
    assert turns[..k][..j] == turns[..j];
    StaggerShrinks(interval, FirstStagger(interval, draw), turns[..k], j);
  }

  // No run begins before its place on the grid, even one that catches up after
  // an overrun.
  lemma NeverEarly(r: Run, window: real, interval: real, draw: real, turns: seq<Turn>, k: nat)
    requires interval >= 1.0 && 0.0 <= draw <= 1.0 && k < |turns| && turns[k].oversleep >= 0.0
    requires IsRun(r, window, interval, FirstStagger(interval, draw), turns, k)
    ensures Grid(window, interval, k) <= r.due <= r.began
  {
    RunFitsItsWindow(r, window, interval, draw, turns, k);
  }

  // So by any time no more runs have begun than windows have.
  lemma NoMoreRunsThanWindows(r: Run, window: real, interval: real, draw: real, turns: seq<Turn>, k: nat, now: real)
    requires interval >= 1.0 && 0.0 <= draw <= 1.0 && k < |turns| && turns[k].oversleep >= 0.0
    requires IsRun(r, window, interval, FirstStagger(interval, draw), turns, k)
    requires r.began <= now
    ensures (k + 1) as real <= (now - window) / interval + 1.0
  {
    NeverEarly(r, window, interval, draw, turns, k);
    GridIsEven(window, interval, k);
    assert k as real * interval <= now - window;
    DivideBy(k as real, interval, now - window);
  }

  lemma DivideBy(a: real, interval: real, b: real)
    requires interval > 0.0 && a * interval <= b
    ensures a <= b / interval
  {
  }

  // The first window is the one the process starts in, not the next one.
  lemma FirstWindowIsTheCurrentOne(interval: real, now: real)
    requires interval > 0.0
    ensures WindowOf(interval, now) <= now < WindowOf(interval, now) + interval
  {
    var x := now / interval;
    assert x * interval == now;
    Scaled(x, x.Floor as real, interval, now, WindowOf(interval, now));
  }

  lemma Scaled(x: real, n: real, interval: real, now: real, window: real)
    requires n <= x < n + 1.0 && interval > 0.0
    requires now == x * interval && window == n * interval
    ensures window <= now < window + interval
  {
    ProductNotNegative(x - n, interval);
    var gap := (n + 1.0 - x) * interval;
    calc {
      gap;
      (n + 1.0) * interval - x * interval;
      n * interval + interval - x * interval;
      window + interval - now;
    }
    ProductPositive(n + 1.0 - x, interval, gap);
  }

  // ---- Exactly which intervals are safe ----

  // Due and allowed time of every run stay in its window, whatever is drawn and
  // however runs end.
  ghost predicate Fits(interval: real) {
    forall draw, turns :: 0.0 <= draw <= 1.0 ==> FitsFor(interval, FirstStagger(interval, draw), turns)
  }

  ghost predicate FitsFor(interval: real, stagger: real, turns: seq<Turn>) {
    var s := Staggers(stagger, turns);
    0.0 <= s && s + Allowed(interval, s) as real <= interval
  }

  lemma FitsExactlyFromOneSecond(interval: real)
    ensures Fits(interval) <==> interval >= 1.0
  {
    if interval >= 1.0 {
      forall draw, turns: seq<Turn> | 0.0 <= draw <= 1.0
        ensures FitsFor(interval, FirstStagger(interval, draw), turns)
      {
        FirstStaggerInRange(interval, draw);
        StaggerShrinks(interval, FirstStagger(interval, draw), turns, 0);
      }
    } else {
      assert FirstStagger(interval, 0.0) == 0.0 && Staggers(0.0, []) == 0.0;
      assert !FitsFor(interval, FirstStagger(interval, 0.0), []);
    }
  }

  // ---- What being killed buys ----

  function Kills(turns: seq<Turn>): nat {
    if turns == [] then 0
    else Kills(turns[..|turns| - 1]) + if turns[|turns| - 1].outcome.Killed? then 1 else 0
  }

  lemma {:induction false} KillsShrinkTheStagger(interval: real, stagger: real, turns: seq<Turn>)
    requires 0.0 <= stagger <= interval - 1.0
    ensures Staggers(stagger, turns) <= 1.0 || Staggers(stagger, turns) <= stagger - 0.1 * Kills(turns) as real
    decreases |turns|
  {
    if turns != [] {
      var before := turns[..|turns| - 1];
      KillsShrinkTheStagger(interval, stagger, before);
      StaggerShrinks(interval, stagger, before, 0);
    }
  }

  // After ten kills for each second of the interval beyond two, a run gets all
  // but the last second of its window; on a whole number of seconds it never
  // gets more, unless the stagger drawn was zero.
  lemma KillsWinTheWindow(r: Run, window: real, interval: real, draw: real, turns: seq<Turn>, k: nat)
    requires interval >= 1.0 && 0.0 <= draw <= 1.0 && k < |turns|
    requires IsRun(r, window, interval, FirstStagger(interval, draw), turns, k)
    requires Kills(turns[..k]) as real >= 10.0 * (interval - 2.0)
    ensures r.allowed >= (interval - 1.0).Floor
    ensures interval == interval.Floor as real && FirstStagger(interval, draw) > 0.0 ==>
              r.allowed == interval.Floor - 1 || r.allowed == 1
  {
    FirstStaggerInRange(interval, draw);
    KillsShrinkTheStagger(interval, FirstStagger(interval, draw), turns[..k]);
    if FirstStagger(interval, draw) > 0.0 {
      StaggerStaysPositive(FirstStagger(interval, draw), turns[..k]);
    }
  }

  lemma {:induction false} StaggerStaysPositive(stagger: real, turns: seq<Turn>)
    requires stagger > 0.0
    ensures Staggers(stagger, turns) > 0.0
    decreases |turns|
  {
    if turns != [] {
      StaggerStaysPositive(stagger, turns[..|turns| - 1]);
    }
  }

  // ---- A run in numbers ----

  // 0.9 to the n-th power.
  function Shrunk(n: nat): real {
    if n == 0 then 1.0 else Shrunk(n - 1) * 0.9
  }

  lemma {:induction false} KillsAddUp(a: seq<Turn>, b: seq<Turn>, t: Turn)
    ensures Kills(a + b) == Kills(a) + Kills(b) && Kills([t]) == if t.outcome == Killed then 1 else 0
  {
    assert [t][..0] == [];
    if b == [] {
      assert a + b == a;
    } else {
      assert (a + b)[..|a + b| - 1] == a + b[..|b| - 1];
      KillsAddUp(a, b[..|b| - 1], t);
    }
  }

  lemma {:induction false} StaggerIsShrunk(stagger: real, turns: seq<Turn>)
    ensures Staggers(stagger, turns) == stagger * Shrunk(Kills(turns))
    decreases |turns|
  {
    if turns != [] {
      var n := Kills(turns[..|turns| - 1]);
      StaggerIsShrunk(stagger, turns[..|turns| - 1]);
      assert (stagger * Shrunk(n)) * 0.9 == stagger * (Shrunk(n) * 0.9);
    }
  }

  // The k-th run is due k windows after the one the process started in, and later in
  // it by the stagger drawn, a tenth less for every kill so far; it is allowed the
  // whole seconds from then to the window's end, or one.
  lemma RunInNumbers(r: Run, interval: real, startedAt: real, draw: real, turns: seq<Turn>, k: nat)
    returns (n: int, stagger: real)
    requires interval > 0.0 && k < |turns|
    requires IsRun(r, WindowOf(interval, startedAt), interval, FirstStagger(interval, draw), turns, k)
    ensures n as real * interval <= startedAt < n as real * interval + interval
    ensures stagger == (interval - 1.0) * draw * Shrunk(Kills(turns[..k]))
    ensures r.due == n as real * interval + k as real * interval + stagger
    ensures if interval - stagger < 1.0 then r.allowed == 1
            else r.allowed as real <= interval - stagger < r.allowed as real + 1.0
    ensures r.began == if turns[k].now < r.due then r.due + turns[k].oversleep else turns[k].now
  {
    n, stagger := (startedAt / interval).Floor, Staggers(FirstStagger(interval, draw), turns[..k]);
    FirstWindowIsTheCurrentOne(interval, startedAt);
    StaggerIsShrunk(FirstStagger(interval, draw), turns[..k]);
    GridIsEven(WindowOf(interval, startedAt), interval, k);
  }
}
