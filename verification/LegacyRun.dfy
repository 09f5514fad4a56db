// What a whole run of the legacy parser returns, for one iteration order of
// every map (src/fullerite/dropwizard/legacy_metric.go:80-135).
module LegacyRun {
  import opened Metrics
  import opened Dropwizard
  import opened BaseParser
  import opened GoSlices
  import opened LegacyMetric

  predicate NamesService(path: Path) {
    path != [] && path[|path| - 1] == "service_dims"
  }

  // ---- The order in which maps are pushed: by depth, then as ranged over ----

  ghost predicate Precedes(o: seq<string>, a: string, b: string) {
    exists i, j :: 0 <= i < j < |o| && o[i] == a && o[j] == b
  }

  // The two paths part below their common i keys, a first.
  ghost predicate PartsFirst(orders: Orders, a: Path, b: Path, i: nat) {
    i < |a| && i < |b| && a[..i] == b[..i] && Precedes(orders(a[..i]), a[i], b[i])
  }

  ghost predicate Before(orders: Orders, a: Path, b: Path) {
    |a| < |b| || (|a| == |b| && exists i: nat :: PartsFirst(orders, a, b, i))
  }

  lemma {:induction false} PrefixIsNode(root: Fields, path: Path, i: nat)
    requires NodeAt(root, path).Some? && i <= |path|
    ensures NodeAt(root, path[..i]).Some?
    decreases |path|
  {
    if i < |path| {
      NodeAtSnoc(root, path[..|path| - 1], path[|path| - 1]);
      assert path == path[..|path| - 1] + [path[|path| - 1]];
      assert path[..|path| - 1][..i] == path[..i];
      PrefixIsNode(root, path[..|path| - 1], i);
    } else {
      assert path[..i] == path;
    }
  }

  lemma {:induction false} PrefixIsVisited(p: Parser, root: Fields, orders: Orders, path: Path, i: nat)
    requires Visited(p, root, orders, path) && i <= |path|
    ensures Visited(p, root, orders, path[..i]) && NodeAt(root, path[..i]).Some?
    ensures i < |path| ==> Descends(p, NodeAt(root, path[..i]).value, orders(path[..i]), path[i])
    decreases |path|
  {
    if i == |path| {
      assert path[..i] == path;
      if path != [] {
        LastStepIsANode(p, root, orders, path);
      }
    } else {
      var parent := path[..|path| - 1];
      assert parent[..i] == path[..i];
      if i < |path| - 1 {
        PrefixIsVisited(p, root, orders, parent, i);
      }
    }
  }

  lemma LastStepIsANode(p: Parser, root: Fields, orders: Orders, path: Path)
    requires path != [] && Visited(p, root, orders, path)
    ensures NodeAt(root, path).Some?
  {
    NodeAtSnoc(root, path[..|path| - 1], path[|path| - 1]);
    assert path == path[..|path| - 1] + [path[|path| - 1]];
  }

  lemma PrecedesOneWay(o: seq<string>, a: string, b: string)
    requires NoRepeats(o) && Precedes(o, a, b)
    ensures a != b && !Precedes(o, b, a)
  {
  }

  lemma BeforeOneWay(root: Fields, orders: Orders, a: Path, b: Path)
    requires AreOrders(root, orders) && NodeAt(root, a).Some? && NodeAt(root, b).Some?
    requires Before(orders, a, b)
    ensures a != b && !Before(orders, b, a)
  {
    if |a| == |b| {
      var i: nat :| PartsFirst(orders, a, b, i);
      PrefixIsNode(root, a, i);
      PrecedesOneWay(orders(a[..i]), a[i], b[i]);
      forall j: nat ensures !PartsFirst(orders, b, a, j) {
        OneParting(root, orders, a, b, i, j);
      }
    }
  }

  lemma OneParting(root: Fields, orders: Orders, a: Path, b: Path, i: nat, j: nat)
    requires AreOrders(root, orders) && NodeAt(root, a).Some? && NodeAt(root, b).Some? && |a| == |b|
    requires PartsFirst(orders, a, b, i)
    ensures !PartsFirst(orders, b, a, j)
  {
    PrefixIsNode(root, a, i);
    PrecedesOneWay(orders(a[..i]), a[i], b[i]);
    if j < i {
      assert a[..i][j] == b[..i][j];
      PrefixIsNode(root, b, j);
      NotBeforeItself(orders(b[..j]), b[j]);
    } else if i < j < |a| {
      assert a[..j][i] == a[i] && b[..j][i] == b[i];
    }
  }

  lemma NotBeforeItself(o: seq<string>, a: string)
    requires NoRepeats(o)
    ensures !Precedes(o, a, a)
  {
  }

  lemma BeforeTransitive(root: Fields, orders: Orders, a: Path, b: Path, c: Path)
    requires AreOrders(root, orders) && NodeAt(root, a).Some?
    requires Before(orders, a, b) && Before(orders, b, c)
    ensures Before(orders, a, c)
  {
    if |a| == |b| == |c| {
      var i: nat :| PartsFirst(orders, a, b, i);
      var j: nat :| PartsFirst(orders, b, c, j);
      if i < j {
        assert b[..j][..i] == b[..i] && c[..j][..i] == c[..i] && b[..j][i] == c[..j][i];
        assert PartsFirst(orders, a, c, i);
      } else if j < i {
        assert a[..i][..j] == a[..j] && b[..i][..j] == b[..j] && a[..i][j] == b[..i][j];
        assert PartsFirst(orders, a, c, j);
      } else {
        PrefixIsNode(root, a, i);
        PrecedesChain(orders(a[..i]), a[i], b[i], c[i]);
        assert PartsFirst(orders, a, c, i);
      }
    }
  }

  lemma PrecedesChain(o: seq<string>, a: string, b: string, c: string)
    requires NoRepeats(o) && Precedes(o, a, b) && Precedes(o, b, c)
    ensures Precedes(o, a, c)
  {
    var i, j :| 0 <= i < j < |o| && o[i] == a && o[j] == b;
    var k, l :| 0 <= k < l < |o| && o[k] == b && o[l] == c;
    assert j == k;
  }

  lemma {:induction false} FirstDifference(a: Path, b: Path) returns (i: nat)
    requires |a| == |b| && a != b
    ensures i < |a| && a[..i] == b[..i] && a[i] != b[i]
  {
    var n := |a| - 1;
    if a[..n] == b[..n] {
      assert a == a[..n] + [a[n]] && b == b[..n] + [b[n]];
      i := n;
    } else {
      i := FirstDifference(a[..n], b[..n]);
      assert a[..n][..i] == a[..i] && b[..n][..i] == b[..i];
    }
  }

  lemma BothPlaced(o: seq<string>, a: string, b: string)
    requires a in o && b in o && a != b
    ensures Precedes(o, a, b) || Precedes(o, b, a)
  {
    var i :| 0 <= i < |o| && o[i] == a;
    var j :| 0 <= j < |o| && o[j] == b;
    assert i < j || j < i;
  }

  lemma BeforeIsTotal(p: Parser, root: Fields, orders: Orders, a: Path, b: Path)
    requires Visited(p, root, orders, a) && Visited(p, root, orders, b) && a != b
    ensures Before(orders, a, b) || Before(orders, b, a)
  {
    if |a| == |b| {
      var i := FirstDifference(a, b);
      PrefixIsVisited(p, root, orders, a, i);
      PrefixIsVisited(p, root, orders, b, i);
      BothPlaced(orders(a[..i]), a[i], b[i]);
      assert PartsFirst(orders, a, b, i) || PartsFirst(orders, b, a, i);
    }
  }

  // ---- Which "service_dims" counts ----

  // Every map of a document; there are finitely many.
  ghost function AllPaths(j: Json): set<Path>
    decreases j
  {
    if !j.Object? then {}
    else {[]} + set k, q | k in j.fields && q in AllPaths(j.fields[k]) :: [k] + q
  }

  lemma {:induction false} NodesAreInAllPaths(root: Fields, path: Path)
    requires NodeAt(root, path).Some?
    ensures path in AllPaths(Object(root))
    decreases |path|
  {
    if path != [] {
      NodesAreInAllPaths(root[path[0]].fields, path[1..]);
      assert path == [path[0]] + path[1..];
      assert root[path[0]] == Object(root[path[0]].fields);
    }
  }

  ghost predicate VisitedService(p: Parser, root: Fields, orders: Orders, path: Path) {
    Visited(p, root, orders, path) && NamesService(path)
  }

  // Each one pushed replaces the one before, so the last counts.
  ghost predicate Wins(p: Parser, root: Fields, orders: Orders, path: Path) {
    && VisitedService(p, root, orders, path)
    && forall x :: VisitedService(p, root, orders, x) && x != path ==> Before(orders, x, path)
  }

  lemma {:induction false} LastOf(p: Parser, root: Fields, orders: Orders, s: set<Path>) returns (last: Path)
    requires AreOrders(root, orders) && s != {} && forall x <- s :: Visited(p, root, orders, x)
    ensures last in s && forall x <- s :: x != last ==> Before(orders, x, last)
    decreases |s|
  {
    var a :| a in s;
    last := a;
    if s != {a} {
      var b := LastOf(p, root, orders, s - {a});
      assert s == (s - {a}) + {a};
      BeforeIsTotal(p, root, orders, a, b);
      if Before(orders, a, b) {
        last := b;
      } else {
        forall x | x in s && x != a ensures Before(orders, x, a) {
          if x != b {
            VisitedIsNode(p, root, orders, x);
            BeforeTransitive(root, orders, x, b, a);
          }
        }
      }
    }
  }

  lemma VisitedIsNode(p: Parser, root: Fields, orders: Orders, path: Path)
    requires Visited(p, root, orders, path)
    ensures NodeAt(root, path).Some? && path in AllPaths(Object(root))
  {
    PrefixIsVisited(p, root, orders, path, |path|);
    assert path[..|path|] == path;
    NodesAreInAllPaths(root, path);
  }

  // If any is visited there is one that counts, and only one.
  lemma SomeServiceWins(p: Parser, root: Fields, orders: Orders, path: Path)
    requires AreOrders(root, orders) && VisitedService(p, root, orders, path)
    ensures exists w :: Wins(p, root, orders, w)
  {
    var s := set x | x in AllPaths(Object(root)) && VisitedService(p, root, orders, x);
    forall x | VisitedService(p, root, orders, x) ensures x in s {
      VisitedIsNode(p, root, orders, x);
    }
    assert path in s;
    var w := LastOf(p, root, orders, s);
    assert Wins(p, root, orders, w);
  }

  lemma OneServiceWins(p: Parser, root: Fields, orders: Orders, a: Path, b: Path)
    requires AreOrders(root, orders) && Wins(p, root, orders, a) && Wins(p, root, orders, b)
    ensures a == b
  {
    if a != b {
      VisitedIsNode(p, root, orders, a);
      VisitedIsNode(p, root, orders, b);
      BeforeOneWay(root, orders, a, b);
    }
  }

  // serviceDims when the worklist has run dry.
  ghost function ServiceOf(p: Parser, root: Fields, orders: Orders): Option<Fields> {
    if exists w :: Wins(p, root, orders, w) then
      var w :| Wins(p, root, orders, w);
      NodeAt(root, w)
    else None
  }

  lemma ServiceIsTheWinner(p: Parser, root: Fields, orders: Orders, w: Path)
    requires AreOrders(root, orders) && Wins(p, root, orders, w)
    ensures ServiceOf(p, root, orders) == NodeAt(root, w) && NodeAt(root, w).Some?
  {
    VisitedIsNode(p, root, orders, w);
    var w' :| Wins(p, root, orders, w') && ServiceOf(p, root, orders) == NodeAt(root, w');
    OneServiceWins(p, root, orders, w, w');
  }

  // ---- The answer of a run ----

  // Dimensions a run adds at the end.
  function Added(service: Option<Fields>): Dimensions {
    if service.None? then map[] else ServiceDims(service.value)
  }

  predicate ServiceOk(service: Option<Fields>) {
    service.Some? ==> ServiceDimsOk(service.value)
  }

  ghost predicate Panics(p: Parser, root: Fields, orders: Orders) {
    RunPanics(p, root, orders) || !ServiceOk(ServiceOf(p, root, orders))
  }

  ghost function FinalEmission(p: Parser, root: Fields, orders: Orders, at: Place): Option<Metric> {
    WithDimsIfAny(Emission(p, root, orders, at), Added(ServiceOf(p, root, orders)))
  }
}
