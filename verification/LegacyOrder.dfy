// When the legacy parser's answer does not depend on how Go ranges over maps
// (src/fullerite/dropwizard/legacy_metric.go:80-135).
module LegacyOrder {
  import opened Metrics
  import opened Dropwizard
  import opened BaseParser
  import opened GoSlices
  import opened LegacyMetric
  import opened LegacyRun

  // A plain descent of the tree, with no order in it.
  function Descent(p: Parser, root: Fields, at: Place): Option<Metric> {
    if NodeAt(root, at.0).None? then None
    else
      var ms := NodeMetrics(p, NodeAt(root, at.0).value, at.0);
      if at.1 in ms then Some(ms[at.1]) else None
  }

  predicate IsNode(root: Fields, path: Path) {
    NodeAt(root, path).Some?
  }

  predicate HasFormat(p: Parser, root: Fields, path: Path) {
    IsNode(root, path) && Recognised(p, NodeAt(root, path).value)
  }

  predicate Crashes(root: Fields, path: Path) {
    IsNode(root, path) && NodePanics(NodeAt(root, path).value)
  }

  // A run that visits the map at d visits the map at x too: the way to x passes
  // through recognised maps only where the way to d does.
  ghost predicate Forced(p: Parser, root: Fields, x: Path, d: Path) {
    forall i :: 0 <= i < |x| && HasFormat(p, root, x[..i]) ==> i < |d| && x[..i + 1] == d[..i + 1]
  }

  // The way there passes through no recognised map.
  ghost predicate Exposed(p: Parser, root: Fields, path: Path) {
    Forced(p, root, path, [])
  }

  // No map below a recognised one has metrics of its own.
  ghost predicate NothingBelowAFormat(p: Parser, root: Fields) {
    forall at: Place :: Descent(p, root, at).Some? ==> Exposed(p, root, at.0)
  }

  lemma ForcedParent(p: Parser, root: Fields, x: Path, d: Path)
    requires x != []
    ensures var n := |x| - 1;
            Forced(p, root, x, d) <==>
            Forced(p, root, x[..n], d) && (HasFormat(p, root, x[..n]) ==> n < |d| && x == d[..n + 1])
  {
    var n := |x| - 1;
    assert x[..n + 1] == x;
    assert forall i :: 0 <= i <= n ==> x[..n][..i] == x[..i];
    if Forced(p, root, x[..n], d) && (HasFormat(p, root, x[..n]) ==> n < |d| && x == d[..n + 1]) {
      forall i | 0 <= i < |x| && HasFormat(p, root, x[..i]) ensures i < |d| && x[..i + 1] == d[..i + 1] {
        if i < n {
          assert x[..n][..i + 1] == x[..i + 1];
        }
      }
    }
  }

  lemma {:induction false} ForcedIsVisited(p: Parser, root: Fields, orders: Orders, d: Path, x: Path)
    requires AreOrders(root, orders) && Visited(p, root, orders, d) && IsNode(root, x) && Forced(p, root, x, d)
    ensures Visited(p, root, orders, x)
    decreases |x|
  {
    if x != [] {
      var n := |x| - 1;
      var parent := x[..n];
      NodeAtSnoc(root, parent, x[n]);
      assert x == parent + [x[n]];
      ForcedParent(p, root, x, d);
      ForcedIsVisited(p, root, orders, d, parent);
      if HasFormat(p, root, parent) {
        PrefixIsVisited(p, root, orders, d, n + 1);
      }
    }
  }

  // ---- Orders that lead to one map and no further than they must ----

  ghost function Listed(s: set<string>): (o: seq<string>)
    ensures NoRepeats(o) && forall k :: k in o <==> k in s
  {
    if s == {} then []
    else
      var k :| k in s;
      [k] + Listed(s - {k})
  }

  ghost function SubKeys(m: Fields): set<string> {
    set k | k in m && IsSub(m, k)
  }

  lemma ListedJoin(a: set<string>, b: set<string>)
    requires a !! b
    ensures NoRepeats(Listed(a) + Listed(b)) && forall k :: k in Listed(a) + Listed(b) <==> k in a || k in b
  {
    var x, y := Listed(a), Listed(b);
    forall i, j | 0 <= i < j < |x + y| ensures (x + y)[i] != (x + y)[j] {
      if i < |x| && j >= |x| {
        assert x[i] in a && y[j - |x|] in b;
      }
    }
  }

  ghost function SubsFirst(m: Fields): (o: seq<string>)
    ensures IsOrder(o, m)
  {
    ListedJoin(SubKeys(m), m.Keys - SubKeys(m));
    Listed(SubKeys(m)) + Listed(m.Keys - SubKeys(m))
  }

  ghost function SubsLast(m: Fields): (o: seq<string>)
    ensures IsOrder(o, m)
  {
    ListedJoin(m.Keys - SubKeys(m), SubKeys(m));
    Listed(m.Keys - SubKeys(m)) + Listed(SubKeys(m))
  }

  // k, then the scalars.
  ghost function OnlyFirst(m: Fields, k: string): (o: seq<string>)
    requires IsSub(m, k)
    ensures IsOrder(o, m) && o[0] == k
  {
    ListedJoin(m.Keys - SubKeys(m), SubKeys(m) - {k});
    [k] + (Listed(m.Keys - SubKeys(m)) + Listed(SubKeys(m) - {k}))
  }

  // Everything else, then k.
  ghost function AtTheEnd(m: Fields, k: string): (o: seq<string>)
    requires k in m
    ensures IsOrder(o, m) && |o| > 0 && o[|o| - 1] == k
  {
    Listed(m.Keys - {k}) + [k]
  }

  ghost function AllSubsFirst(root: Fields): (orders: Orders)
    ensures AreOrders(root, orders)
  {
    path => if IsNode(root, path) then SubsFirst(NodeAt(root, path).value) else []
  }

  ghost predicate Leads(m: Fields, path: Path, d: Path) {
    |path| < |d| && d[..|path|] == path && IsSub(m, d[|path|])
  }

  ghost function OrderToward(p: Parser, m: Fields, path: Path, d: Path): (o: seq<string>)
    ensures IsOrder(o, m)
  {
    if !Leads(m, path, d) then SubsLast(m)
    else if Recognised(p, m) then OnlyFirst(m, d[|path|])
    else AtTheEnd(m, d[|path|])
  }

  ghost function Toward(p: Parser, root: Fields, d: Path): (orders: Orders)
    ensures AreOrders(root, orders)
  {
    path => if IsNode(root, path) then OrderToward(p, NodeAt(root, path).value, path, d) else []
  }

  // A recognised map has a number in it.
  lemma FormatHasAScalar(p: Parser, m: Fields) returns (k: string)
    requires Recognised(p, m)
    ensures k in m.Keys - SubKeys(m)
  {
    FlatKeys(p, m, "");
    k :| k in Flat(p, m, "");
  }

  lemma SubsFirstDescends(p: Parser, m: Fields, k: string)
    requires IsSub(m, k)
    ensures Descends(p, m, SubsFirst(m), k)
  {
    var o, x := SubsFirst(m), Listed(SubKeys(m));
    assert forall i :: 0 <= i < |x| ==> x[i] in x;
    assert AllSubs(m, o[..|x|]);
    if Recognised(p, m) {
      var scalar := FormatHasAScalar(p, m);
      var y := Listed(m.Keys - SubKeys(m));
      assert scalar in y && y[0] in y && o[|x|] == y[0];
      ScalarIsFirst(m, o, |x|);
      assert o[..|x|] == x;
    }
  }

  lemma SubsLastStops(p: Parser, m: Fields, k: string)
    requires Recognised(p, m)
    ensures !Descends(p, m, SubsLast(m), k)
  {
    var scalar := FormatHasAScalar(p, m);
    var o, x := SubsLast(m), Listed(m.Keys - SubKeys(m));
    assert scalar in x && x[0] in x && o[0] == x[0];
    ScalarIsFirst(m, o, 0);
  }

  lemma OnlyFirstDescends(p: Parser, m: Fields, k: string, k': string)
    requires Recognised(p, m) && IsSub(m, k)
    ensures Descends(p, m, OnlyFirst(m, k), k') <==> k' == k
  {
    var scalar := FormatHasAScalar(p, m);
    var o, x := OnlyFirst(m, k), Listed(m.Keys - SubKeys(m));
    assert scalar in x && x[0] in x && o[1] == x[0];
    assert o[..1] == [k];
    ScalarIsFirst(m, o, 1);
  }

  lemma TowardDescends(p: Parser, root: Fields, d: Path, path: Path, k: string)
    requires IsNode(root, path) && IsSub(NodeAt(root, path).value, k)
    ensures Descends(p, NodeAt(root, path).value, Toward(p, root, d)(path), k) <==>
            (HasFormat(p, root, path) ==> |path| < |d| && path + [k] == d[..|path| + 1])
  {
    var m := NodeAt(root, path).value;
    if |path| < |d| {
      NextStep(path, d, k);
    }
    if Recognised(p, m) {
      if Leads(m, path, d) {
        OnlyFirstDescends(p, m, d[|path|], k);
      } else {
        SubsLastStops(p, m, k);
      }
    }
  }

  lemma NextStep(path: Path, d: Path, k: string)
    requires |path| < |d|
    ensures path + [k] == d[..|path| + 1] <==> d[..|path|] == path && d[|path|] == k
  {
    assert d[..|path| + 1] == d[..|path|] + [d[|path|]];
    assert (path + [k])[..|path|] == path && (path + [k])[|path|] == k;
    assert (d[..|path|] + [d[|path|]])[..|path|] == d[..|path|];
  }

  // Such a run visits the maps it is forced to and no others.
  lemma {:induction false} TowardVisits(p: Parser, root: Fields, d: Path, x: Path)
    ensures Visited(p, root, Toward(p, root, d), x) <==> IsNode(root, x) && Forced(p, root, x, d)
    decreases |x|
  {
    if x != [] {
      var n := |x| - 1;
      var parent := x[..n];
      TowardVisits(p, root, d, parent);
      NodeAtSnoc(root, parent, x[n]);
      assert x == parent + [x[n]];
      ForcedParent(p, root, x, d);
      if IsNode(root, parent) && IsSub(NodeAt(root, parent).value, x[n]) {
        TowardDescends(p, root, d, parent, x[n]);
      }
    }
  }

  lemma {:induction false} SubsFirstVisitsAll(p: Parser, root: Fields, path: Path)
    requires IsNode(root, path)
    ensures Visited(p, root, AllSubsFirst(root), path)
    decreases |path|
  {
    if path != [] {
      var parent, k := path[..|path| - 1], path[|path| - 1];
      NodeAtSnoc(root, parent, k);
      assert path == parent + [k];
      SubsFirstVisitsAll(p, root, parent);
      SubsFirstDescends(p, NodeAt(root, parent).value, k);
    }
  }

  // ---- Metrics before the service dimensions are added ----

  lemma ExposedIsVisited(p: Parser, root: Fields, orders: Orders, path: Path)
    requires AreOrders(root, orders) && IsNode(root, path) && Exposed(p, root, path)
    ensures Visited(p, root, orders, path)
  {
    ForcedIsVisited(p, root, orders, [], path);
  }

  // Every order gives the metrics of the plain descent, exactly when no metrics
  // lie below a recognised map.
  lemma EveryOrderIsADescentExactlyWhen(p: Parser, root: Fields)
    ensures (forall orders: Orders, at: Place :: AreOrders(root, orders) ==>
             Emission(p, root, orders, at) == Descent(p, root, at))
            <==> NothingBelowAFormat(p, root)
  {
    if NothingBelowAFormat(p, root) {
      forall orders: Orders, at: Place | AreOrders(root, orders)
        ensures Emission(p, root, orders, at) == Descent(p, root, at)
      {
        if Descent(p, root, at).Some? {
          ExposedIsVisited(p, root, orders, at.0);
        }
      }
    } else {
      var at: Place :| Descent(p, root, at).Some? && !Exposed(p, root, at.0);
      TowardVisits(p, root, [], at.0);
      assert Emission(p, root, Toward(p, root, []), at) != Descent(p, root, at);
    }
  }

  // ---- The whole answer: panicking, and metrics with the service dimensions ----

  // A "service_dims" that can be the last one pushed, or none if none need be
  // visited: whoever visits it visits no deeper one.
  ghost predicate CanWin(p: Parser, root: Fields, w: Option<Path>) {
    match w
    case None => forall x :: IsNode(root, x) && NamesService(x) ==> !Forced(p, root, x, [])
    case Some(d) =>
      && IsNode(root, d) && NamesService(d)
      && forall x :: IsNode(root, x) && NamesService(x) && |x| > |d| ==> !Forced(p, root, x, d)
  }

  function Base(w: Option<Path>): Path {
    if w.None? then [] else w.value
  }

  function ServiceAt(root: Fields, w: Option<Path>): Option<Fields> {
    if w.None? then None else NodeAt(root, w.value)
  }

  // It can be so without a crash.
  ghost predicate CanFinish(p: Parser, root: Fields, w: Option<Path>) {
    && CanWin(p, root, w) && ServiceOk(ServiceAt(root, w))
    && forall x :: Forced(p, root, x, Base(w)) ==> !Crashes(root, x)
  }

  function DescentWith(p: Parser, root: Fields, w: Option<Path>, at: Place): Option<Metric> {
    WithDimsIfAny(Descent(p, root, at), Added(ServiceAt(root, w)))
  }

  // Nothing can crash, no metrics lie below a recognised map, and it makes no
  // difference to any metric which "service_dims" is the last.
  ghost predicate Settled(p: Parser, root: Fields) {
    && (forall x :: !Crashes(root, x))
    && (forall w :: CanWin(p, root, w) ==> ServiceOk(ServiceAt(root, w)))
    && NothingBelowAFormat(p, root)
    && forall v, w, at: Place :: CanWin(p, root, v) && CanWin(p, root, w) ==>
         DescentWith(p, root, v, at) == DescentWith(p, root, w, at)
  }

  // Everything crashes.
  ghost predicate Doomed(p: Parser, root: Fields) {
    forall w :: !CanFinish(p, root, w)
  }

  // Two runs give the same, under the right names: both panic, or neither does and
  // they emit the same.
  ghost predicate Agree(p: Parser, root: Fields, a: Orders, b: Orders) {
    && (Panics(p, root, a) <==> Panics(p, root, b))
    && (!Panics(p, root, a) ==> forall at: Place :: FinalEmission(p, root, a, at) == FinalEmission(p, root, b, at))
  }

  lemma TheLastCanWin(p: Parser, root: Fields, orders: Orders, best: Path)
    requires AreOrders(root, orders) && Wins(p, root, orders, best)
    ensures CanWin(p, root, Some(best))
  {
    VisitedIsNode(p, root, orders, best);
    forall x | IsNode(root, x) && NamesService(x) && |x| > |best| ensures !Forced(p, root, x, best) {
      assert VisitedService(p, root, orders, x) && x != best ==> Before(orders, x, best);
      if Forced(p, root, x, best) {
        ForcedIsVisited(p, root, orders, best, x);
      }
    }
  }

  lemma NoneCanWin(p: Parser, root: Fields, orders: Orders)
    requires AreOrders(root, orders) && forall x :: !VisitedService(p, root, orders, x)
    ensures CanWin(p, root, None) && ServiceOf(p, root, orders) == None
  {
    forall x | IsNode(root, x) && NamesService(x) ensures !Forced(p, root, x, []) {
      assert !VisitedService(p, root, orders, x);
      if Forced(p, root, x, []) {
        ForcedIsVisited(p, root, orders, [], x);
      }
    }
    forall x ensures !Wins(p, root, orders, x) {
      assert !VisitedService(p, root, orders, x);
    }
  }

  // Every run has such a winner.
  lemma RunHasAWinner(p: Parser, root: Fields, orders: Orders) returns (w: Option<Path>)
    requires AreOrders(root, orders)
    ensures CanWin(p, root, w) && ServiceOf(p, root, orders) == ServiceAt(root, w)
    ensures Visited(p, root, orders, Base(w))
  {
    if d :| VisitedService(p, root, orders, d) {
      SomeServiceWins(p, root, orders, d);
      var best :| Wins(p, root, orders, best);
      ServiceIsTheWinner(p, root, orders, best);
      TheLastCanWin(p, root, orders, best);
      w := Some(best);
    } else {
      NoneCanWin(p, root, orders);
      w := None;
    }
  }

  // And every such winner has a run: the one toward it.
  lemma PartBelowNoFormat(p: Parser, root: Fields, d: Path, x: Path, i: nat)
    requires i < |x| && i < |d| && x[..i] == d[..i] && x[i] != d[i] && Forced(p, root, x, d)
    ensures !HasFormat(p, root, d[..i])
  {
    assert x[..i + 1][i] != d[..i + 1][i];
  }

  lemma StepsDown(root: Fields, d: Path, i: nat)
    requires i < |d| && IsNode(root, d)
    ensures IsNode(root, d[..i]) && IsSub(NodeAt(root, d[..i]).value, d[i])
  {
    PrefixIsNode(root, d, i);
    PrefixIsNode(root, d, i + 1);
    NodeAtSnoc(root, d[..i], d[i]);
    assert d[..i + 1] == d[..i] + [d[i]];
  }

  lemma TowardEndsIn(p: Parser, root: Fields, d: Path, i: nat)
    requires i < |d| && !HasFormat(p, root, d[..i])
    requires IsNode(root, d[..i]) && IsSub(NodeAt(root, d[..i]).value, d[i])
    ensures Toward(p, root, d)(d[..i]) == AtTheEnd(NodeAt(root, d[..i]).value, d[i])
  {
    assert Leads(NodeAt(root, d[..i]).value, d[..i], d);
  }

  lemma TowardWins(p: Parser, root: Fields, d: Path, x: Path)
    requires CanWin(p, root, Some(d)) && VisitedService(p, root, Toward(p, root, d), x) && x != d
    ensures Before(Toward(p, root, d), x, d)
  {
    TowardVisits(p, root, d, x);
    if |x| == |d| {
      var i := FirstDifference(x, d);
      PartBelowNoFormat(p, root, d, x, i);
      StepsDown(root, d, i);
      TowardEndsIn(p, root, d, i);
      PrefixIsVisited(p, root, Toward(p, root, d), x, i);
      ComesBeforeTheEnd(NodeAt(root, d[..i]).value, d[i], x[i]);
      assert PartsFirst(Toward(p, root, d), x, d, i);
    }
  }

  lemma ComesBeforeTheEnd(m: Fields, last: string, k: string)
    requires last in m && k in m && k != last
    ensures Precedes(AtTheEnd(m, last), k, last)
  {
    var o := AtTheEnd(m, last);
    var i :| 0 <= i < |o| && o[i] == k;
    assert i < |o| - 1;
  }

  lemma TowardService(p: Parser, root: Fields, w: Option<Path>)
    requires CanWin(p, root, w)
    ensures ServiceOf(p, root, Toward(p, root, Base(w))) == ServiceAt(root, w)
  {
    var d, orders := Base(w), Toward(p, root, Base(w));
    if w.None? {
      forall x ensures !Wins(p, root, orders, x) {
        TowardVisits(p, root, d, x);
      }
    } else {
      assert Forced(p, root, d, d);
      TowardVisits(p, root, d, d);
      forall x | VisitedService(p, root, orders, x) && x != d ensures Before(orders, x, d) {
        TowardWins(p, root, d, x);
      }
      ServiceIsTheWinner(p, root, orders, d);
    }
  }

  lemma TowardPanicsExactlyWhen(p: Parser, root: Fields, w: Option<Path>)
    requires CanWin(p, root, w)
    ensures Panics(p, root, Toward(p, root, Base(w))) <==> !CanFinish(p, root, w)
  {
    var d, orders := Base(w), Toward(p, root, Base(w));
    TowardService(p, root, w);
    forall x ensures Visited(p, root, orders, x) <==> IsNode(root, x) && Forced(p, root, x, d) {
      TowardVisits(p, root, d, x);
    }
  }

  lemma WinnersOwnRun(p: Parser, root: Fields, w: Option<Path>, at: Place)
    requires CanWin(p, root, w) && NothingBelowAFormat(p, root)
    ensures FinalEmission(p, root, Toward(p, root, Base(w)), at) == DescentWith(p, root, w, at)
  {
    TowardService(p, root, w);
    EveryOrderIsADescentExactlyWhen(p, root);
  }

  lemma SettledAgree(p: Parser, root: Fields, a: Orders, b: Orders)
    requires Settled(p, root) && AreOrders(root, a) && AreOrders(root, b)
    ensures Agree(p, root, a, b)
  {
    var v := RunHasAWinner(p, root, a);
    var w := RunHasAWinner(p, root, b);
    NoCrashNoPanic(p, root, a, v);
    NoCrashNoPanic(p, root, b, w);
    EveryOrderIsADescentExactlyWhen(p, root);
    forall at: Place ensures FinalEmission(p, root, a, at) == FinalEmission(p, root, b, at) {
      assert DescentWith(p, root, v, at) == DescentWith(p, root, w, at);
    }
  }

  lemma NoCrashNoPanic(p: Parser, root: Fields, orders: Orders, w: Option<Path>)
    requires (forall x :: !Crashes(root, x)) && (forall v :: CanWin(p, root, v) ==> ServiceOk(ServiceAt(root, v)))
    requires CanWin(p, root, w) && ServiceOf(p, root, orders) == ServiceAt(root, w)
    ensures !Panics(p, root, orders)
  {
    if x :| Visited(p, root, orders, x) && IsNode(root, x) && NodePanics(NodeAt(root, x).value) {
      assert Crashes(root, x);
    }
  }

  lemma DoomedPanic(p: Parser, root: Fields, orders: Orders)
    requires Doomed(p, root) && AreOrders(root, orders)
    ensures Panics(p, root, orders)
  {
    var w := RunHasAWinner(p, root, orders);
    assert !CanFinish(p, root, w);
    if ServiceOk(ServiceAt(root, w)) {
      var x :| Forced(p, root, x, Base(w)) && Crashes(root, x);
      ForcedIsVisited(p, root, orders, Base(w), x);
    }
  }

  // Two orders that differ, when neither holds and w can finish.
  lemma Disagreement(p: Parser, root: Fields, w: Option<Path>) returns (a: Orders, b: Orders)
    requires !Settled(p, root) && CanFinish(p, root, w)
    ensures AreOrders(root, a) && AreOrders(root, b) && !Agree(p, root, a, b)
  {
    a, b := Toward(p, root, Base(w)), AllSubsFirst(root);
    TowardPanicsExactlyWhen(p, root, w);
    if x :| Crashes(root, x) {
      SubsFirstVisitsAll(p, root, x);
      assert RunPanics(p, root, b);
    } else if v :| CanWin(p, root, v) && !ServiceOk(ServiceAt(root, v)) {
      b := Toward(p, root, Base(v));
      TowardPanicsExactlyWhen(p, root, v);
    } else if !NothingBelowAFormat(p, root) {
      a, b := LostBelowAFormat(p, root);
    } else {
      a, b := TwoServices(p, root);
    }
  }

  lemma LostBelowAFormat(p: Parser, root: Fields) returns (a: Orders, b: Orders)
    requires (forall x :: !Crashes(root, x)) && (forall v :: CanWin(p, root, v) ==> ServiceOk(ServiceAt(root, v)))
    requires !NothingBelowAFormat(p, root)
    ensures AreOrders(root, a) && AreOrders(root, b) && !Agree(p, root, a, b)
  {
    a, b := AllSubsFirst(root), Toward(p, root, []);
    var v := RunHasAWinner(p, root, a);
    var w := RunHasAWinner(p, root, b);
    NoCrashNoPanic(p, root, a, v);
    NoCrashNoPanic(p, root, b, w);
    var at: Place :| Descent(p, root, at).Some? && !Exposed(p, root, at.0);
    SubsFirstVisitsAll(p, root, at.0);
    TowardVisits(p, root, [], at.0);
    assert FinalEmission(p, root, a, at) != FinalEmission(p, root, b, at);
  }

  lemma TwoServices(p: Parser, root: Fields) returns (a: Orders, b: Orders)
    requires (forall x :: !Crashes(root, x)) && (forall v :: CanWin(p, root, v) ==> ServiceOk(ServiceAt(root, v)))
    requires NothingBelowAFormat(p, root) && !Settled(p, root)
    ensures AreOrders(root, a) && AreOrders(root, b) && !Agree(p, root, a, b)
  {
    var v, w, at: Place :| CanWin(p, root, v) && CanWin(p, root, w) &&
      DescentWith(p, root, v, at) != DescentWith(p, root, w, at);
    a, b := Toward(p, root, Base(v)), Toward(p, root, Base(w));
    TowardPanicsExactlyWhen(p, root, v);
    WinnersOwnRun(p, root, v, at);
    WinnersOwnRun(p, root, w, at);
    TowardService(p, root, v);
    NoCrashNoPanic(p, root, a, v);
    assert FinalEmission(p, root, a, at) != FinalEmission(p, root, b, at);
  }

  // All orders give the same answer, names aside, exactly for documents on which
  // nothing but a name hangs on the order, or which no order gets through.
  lemma OrdersAgreeExactlyWhen(p: Parser, root: Fields)
    ensures (forall a: Orders, b: Orders :: AreOrders(root, a) && AreOrders(root, b) ==> Agree(p, root, a, b))
            <==> Settled(p, root) || Doomed(p, root)
  {
    if Settled(p, root) {
      forall a: Orders, b: Orders | AreOrders(root, a) && AreOrders(root, b) ensures Agree(p, root, a, b) {
        SettledAgree(p, root, a, b);
      }
    } else if Doomed(p, root) {
      forall a: Orders, b: Orders | AreOrders(root, a) && AreOrders(root, b) ensures Agree(p, root, a, b) {
        DoomedPanic(p, root, a);
        DoomedPanic(p, root, b);
      }
    } else {
      var w :| CanFinish(p, root, w);
      var a, b := Disagreement(p, root, w);
    }
  }

  // ---- A plain condition that is enough ----

  ghost predicate Deepest(root: Fields, d: Path) {
    && IsNode(root, d) && NamesService(d)
    && forall x :: IsNode(root, x) && NamesService(x) ==> |x| <= |d|
  }

  lemma UnmixedForces(p: Parser, root: Fields, x: Path, d: Path)
    requires forall q :: HasFormat(p, root, q) ==> SubKeys(NodeAt(root, q).value) == {}
    requires IsNode(root, x)
    ensures Forced(p, root, x, d)
  {
    forall i | 0 <= i < |x| ensures !HasFormat(p, root, x[..i]) {
      StepsDown(root, x, i);
      assert x[i] in SubKeys(NodeAt(root, x[..i]).value);
    }
  }

  // When no map has both a format and sub-maps, no map can crash, and the deepest
  // "service_dims" all say the same, in strings, the order makes no difference but
  // to names.
  lemma UnmixedIsEnough(p: Parser, root: Fields, service: Fields)
    requires forall q :: HasFormat(p, root, q) ==> SubKeys(NodeAt(root, q).value) == {}
    requires forall x :: !Crashes(root, x)
    requires ServiceDimsOk(service) && forall d :: Deepest(root, d) ==> NodeAt(root, d) == Some(service)
    ensures Settled(p, root)
  {
    forall at: Place | Descent(p, root, at).Some? ensures Exposed(p, root, at.0) {
      UnmixedForces(p, root, at.0, []);
    }
    forall w | CanWin(p, root, w) ensures WinsPlainly(root, service, w) && ServiceOk(ServiceAt(root, w)) {
      UnmixedWinner(p, root, service, w);
    }
    forall v, w, at: Place | CanWin(p, root, v) && CanWin(p, root, w)
      ensures DescentWith(p, root, v, at) == DescentWith(p, root, w, at)
    {
      SameService(root, service, v, w);
    }
  }

  lemma SameService(root: Fields, service: Fields, v: Option<Path>, w: Option<Path>)
    requires WinsPlainly(root, service, v) && WinsPlainly(root, service, w)
    ensures ServiceAt(root, v) == ServiceAt(root, w)
  {
  }

  ghost predicate WinsPlainly(root: Fields, service: Fields, w: Option<Path>) {
    if w.None? then forall x :: IsNode(root, x) ==> !NamesService(x)
    else IsNode(root, w.value) && NamesService(w.value) && NodeAt(root, w.value) == Some(service)
  }

  lemma UnmixedWinner(p: Parser, root: Fields, service: Fields, w: Option<Path>)
    requires forall q :: HasFormat(p, root, q) ==> SubKeys(NodeAt(root, q).value) == {}
    requires forall d :: Deepest(root, d) ==> NodeAt(root, d) == Some(service)
    requires CanWin(p, root, w)
    ensures WinsPlainly(root, service, w)
  {
    forall x | IsNode(root, x) ensures Forced(p, root, x, Base(w)) {
      UnmixedForces(p, root, x, Base(w));
    }
    if w.Some? {
      assert Deepest(root, w.value);
    }
  }
}
