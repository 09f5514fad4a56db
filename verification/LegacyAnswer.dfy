// When two runs of the legacy parser return the same metrics, names included, however
// they range over maps (src/fullerite/dropwizard/legacy_metric.go:80-135, 192-195).
module LegacyAnswer {
  import opened Text
  import opened Metrics
  import opened Dropwizard
  import opened BaseParser
  import opened GoSlices
  import opened LegacyMetric
  import opened LegacyRun
  import opened LegacyPaths
  import opened LegacyOrder
  import opened LegacyNames

  // Two runs return the same: both panic, or neither does and every place gives the
  // same metric, name included, or none.
  ghost predicate ReturnsAgree(p: Parser, root: Fields, a: Orders, b: Orders) {
    && (Panics(p, root, a) <==> Panics(p, root, b))
    && (!Panics(p, root, a) ==> forall at: Place :: FinalRead(p, root, a, at) == FinalRead(p, root, b, at))
  }

  // Both read the same path for a map that emits in both.
  ghost predicate PathsAlike(p: Parser, root: Fields, a: Orders, b: Orders) {
    forall q :: Emits(p, root, q) && Visited(p, root, a, q) && Visited(p, root, b, q) ==>
      NameOf(p, root, a, q) == NameOf(p, root, b, q)
  }

  // The same, with names told apart segment by segment.
  ghost predicate PathsAgree(p: Parser, root: Fields, a: Orders, b: Orders) {
    Agree(p, root, a, b) && (!Panics(p, root, a) ==> PathsAlike(p, root, a, b))
  }

  ghost predicate AllReturnsAgree(p: Parser, root: Fields) {
    forall a: Orders, b: Orders :: AreOrders(root, a) && AreOrders(root, b) ==> ReturnsAgree(p, root, a, b)
  }

  ghost predicate AllPathsAgree(p: Parser, root: Fields) {
    forall a: Orders, b: Orders :: AreOrders(root, a) && AreOrders(root, b) ==> PathsAgree(p, root, a, b)
  }

  // ---- A metric but for its name ----

  // Metrics under the same keys that differ in their names only.
  ghost predicate SameButNames(x: map<string, Metric>, y: map<string, Metric>) {
    x.Keys == y.Keys && forall k <- x :: x[k] == y[k].(name := x[k].name)
  }

  lemma RenamedFromMap(p: Parser, m: Fields, s: string, t: string, metricType: string)
    ensures SameButNames(FromMap(p, m, s, metricType), FromMap(p, m, t, metricType))
  {
  }

  lemma RenamedDatums(m: Fields, s: string, t: string, skip: set<string>)
    ensures SameButNames(Datums(m, s, skip), Datums(m, t, skip))
  {
  }

  lemma RenamedRate(m: Fields, s: string, t: string)
    ensures SameButNames(Rate(m, s), Rate(m, t))
  {
    RenamedDatums(m, s, t, {"unit"});
  }

  lemma RenamedFlat(p: Parser, m: Fields, s: string, t: string)
    ensures SameButNames(Flat(p, m, s), Flat(p, m, t))
  {
    RenamedRate(m, s, t);
    if "type" in m && m["type"].Str? {
      var kind := m["type"].s;
      if kind == "gauge" {
        RenamedFromMap(p, m, s, t, "gauge");
      } else if kind == "histogram" {
        RenamedDatums(m, s, t, {"type"});
      } else if kind == "counter" {
        RenamedFromMap(p, m, s, t, "counter");
      } else if kind == "meter" {
        RenamedDatums(m, s, t, {"unit", "event_type", "type"});
      }
    }
  }

  lemma OnlyTheNameDiffers(p: Parser, m: Fields, x: Path, y: Path)
    ensures SameButNames(NodeMetrics(p, m, x), NodeMetrics(p, m, y))
  {
    RenamedFlat(p, m, Join(x, '.'), Join(y, '.'));
  }

  // The name that the metric at a place has when its path is read as path.
  function NameUnder(p: Parser, root: Fields, at: Place, path: Path): string {
    if IsNode(root, at.0) && at.1 in NodeMetrics(p, NodeAt(root, at.0).value, path)
    then NodeMetrics(p, NodeAt(root, at.0).value, path)[at.1].name
    else ""
  }

  function Named(m: Option<Metric>, name: string): Option<Metric> {
    if m.None? then None else Some(m.value.(name := name))
  }

  lemma ReadIsRenamed(p: Parser, root: Fields, orders: Orders, at: Place)
    ensures FinalRead(p, root, orders, at) ==
            Named(FinalEmission(p, root, orders, at), NameUnder(p, root, at, NameOf(p, root, orders, at.0)))
    ensures FinalEmission(p, root, orders, at) == Named(FinalRead(p, root, orders, at), NameUnder(p, root, at, at.0))
    ensures FinalRead(p, root, orders, at).Some? ==> Visited(p, root, orders, at.0) && Emits(p, root, at.0)
  {
    if IsNode(root, at.0) {
      OnlyTheNameDiffers(p, NodeAt(root, at.0).value, at.0, NameOf(p, root, orders, at.0));
    }
  }

  lemma ReturnsAgreeMeansAgree(p: Parser, root: Fields, a: Orders, b: Orders)
    requires ReturnsAgree(p, root, a, b)
    ensures Agree(p, root, a, b)
  {
    if !Panics(p, root, a) {
      forall at: Place ensures FinalEmission(p, root, a, at) == FinalEmission(p, root, b, at) {
        ReadIsRenamed(p, root, a, at);
        ReadIsRenamed(p, root, b, at);
      }
    }
  }

  lemma PathsAgreeMeansReturnsAgree(p: Parser, root: Fields, a: Orders, b: Orders)
    requires PathsAgree(p, root, a, b)
    ensures ReturnsAgree(p, root, a, b)
  {
    if !Panics(p, root, a) {
      forall at: Place ensures FinalRead(p, root, a, at) == FinalRead(p, root, b, at) {
        ReadIsRenamed(p, root, a, at);
        ReadIsRenamed(p, root, b, at);
      }
    }
  }

  // ---- When nothing hangs on the order ----

  // A document that no order gets through, or on which nothing that comes back
  // hangs on it.
  ghost predicate Certain(p: Parser, root: Fields) {
    (Settled(p, root) && NothingOverwritten(p, root)) || Doomed(p, root)
  }

  lemma CertainPathsAgree(p: Parser, root: Fields, a: Orders, b: Orders)
    requires Certain(p, root) && AreOrders(root, a) && AreOrders(root, b)
    ensures PathsAgree(p, root, a, b)
  {
    if Doomed(p, root) {
      DoomedPanic(p, root, a);
      DoomedPanic(p, root, b);
    } else {
      SettledAgree(p, root, a, b);
      MetricsReadRightExactlyWhen(p, root);
    }
  }

  // Every order of a settled document returns.
  lemma SettledReturns(p: Parser, root: Fields, orders: Orders)
    requires Settled(p, root) && AreOrders(root, orders)
    ensures !Panics(p, root, orders)
  {
    var w := RunHasAWinner(p, root, orders);
    NoCrashNoPanic(p, root, orders, w);
  }

  // When some metrics lie below a map that may overwrite a child's path, one order
  // reads their path right and another does not.
  lemma OverwrittenInOne(p: Parser, root: Fields, q: Path, j: nat) returns (a: Orders, b: Orders)
    requires Settled(p, root) && Emits(p, root, q) && j < |q| && MayOverwrite(p, root, q[..j])
    ensures AreOrders(root, a) && AreOrders(root, b) && !Panics(p, root, a) && !Panics(p, root, b)
    ensures Visited(p, root, a, q) && Visited(p, root, b, q)
    ensures NameOf(p, root, a, q) == q && NameOf(p, root, b, q) != q && NameOf(p, root, b, q)[..j] == q[..j]
  {
    a := Toward(p, root, q);
    TowardReadsRight(p, root, q);
    b := StrayingReadsWrong(p, root, q, j);
    SettledReturns(p, root, a);
    SettledReturns(p, root, b);
  }

  lemma NotCertain(p: Parser, root: Fields) returns (a: Orders, b: Orders)
    requires Settled(p, root) && !NothingOverwritten(p, root)
    ensures AreOrders(root, a) && AreOrders(root, b) && !PathsAgree(p, root, a, b)
  {
    var q, j :| Emits(p, root, q) && 0 <= j < |q| && MayOverwrite(p, root, q[..j]);
    a, b := OverwrittenInOne(p, root, q, j);
    assert !PathsAlike(p, root, a, b);
  }

  lemma NotSettled(p: Parser, root: Fields) returns (a: Orders, b: Orders)
    requires !Settled(p, root) && !Doomed(p, root)
    ensures AreOrders(root, a) && AreOrders(root, b) && !Agree(p, root, a, b)
  {
    var w :| CanFinish(p, root, w);
    a, b := Disagreement(p, root, w);
  }

  // Any two orders agree on every metric and on the segments of its name, exactly
  // when the document is certain.
  lemma PathsAgreeExactlyWhen(p: Parser, root: Fields)
    ensures AllPathsAgree(p, root) <==> Certain(p, root)
  {
    if Certain(p, root) {
      forall a: Orders, b: Orders | AreOrders(root, a) && AreOrders(root, b) ensures PathsAgree(p, root, a, b) {
        CertainPathsAgree(p, root, a, b);
      }
    } else if Settled(p, root) {
      var a, b := NotCertain(p, root);
    } else {
      var a, b := NotSettled(p, root);
      assert !PathsAgree(p, root, a, b);
    }
  }

  // Then any two orders return the same metrics.
  lemma CertainReturnsTheSame(p: Parser, root: Fields, a: Orders, b: Orders,
                              ra: seq<Metric>, ia: seq<Place>, rb: seq<Metric>, ib: seq<Place>)
    requires Certain(p, root) && AreOrders(root, a) && AreOrders(root, b) && !Panics(p, root, a)
    requires Holds(ra, ia, at => FinalRead(p, root, a, at)) && Holds(rb, ib, at => FinalRead(p, root, b, at))
    ensures !Panics(p, root, b) && multiset(ra) == multiset(rb)
  {
    CertainPathsAgree(p, root, a, b);
    PathsAgreeMeansReturnsAgree(p, root, a, b);
    HoldsSame(rb, ib, at => FinalRead(p, root, b, at), at => FinalRead(p, root, a, at));
    HoldsTheSame(ra, ia, rb, ib, at => FinalRead(p, root, a, at));
  }

  // ---- Names as text: segments joined with dots ----

  lemma FlatNameTells(p: Parser, m: Fields, s: string, t: string, k: string)
    requires k in Flat(p, m, s) && k in Flat(p, m, t) && Flat(p, m, s)[k].name == Flat(p, m, t)[k].name
    ensures s == t
  {
    TailsCut(s, t, "." + k);
    assert s + "." + k == s + ("." + k) && t + "." + k == t + ("." + k);
  }

  lemma TailsCut(s: string, t: string, tail: string)
    ensures s + tail == t + tail ==> s == t
  {
    assert (s + tail)[..|s + tail| - |tail|] == s && (t + tail)[..|t + tail| - |tail|] == t;
  }

  lemma GaugeNameTells(x: Path, y: Path, k: string)
    requires |x| == |y| && Join(x + [k], '.') == Join(y + [k], '.')
    ensures Join(x, '.') == Join(y, '.')
  {
    if x != [] {
      JoinSnoc(x, '.', k);
      JoinSnoc(y, '.', k);
      CutEnds(Join(x, '.'), Join(y, '.'), '.', k);
    }
  }

  lemma NameTellsPath(p: Parser, m: Fields, x: Path, y: Path, k: string)
    requires |x| == |y| && k in NodeMetrics(p, m, x) && k in NodeMetrics(p, m, y)
    requires NodeMetrics(p, m, x)[k].name == NodeMetrics(p, m, y)[k].name
    ensures Join(x, '.') == Join(y, '.')
  {
    if Recognised(p, m) {
      FlatNameTells(p, m, Join(x, '.'), Join(y, '.'), k);
    } else {
      GaugeNameTells(x, y, k);
    }
  }

  // No dots in the keys from such a map on down to the metrics.
  ghost predicate Undotted(p: Parser, root: Fields) {
    forall q, j :: Emits(p, root, q) && 0 <= j < |q| && MayOverwrite(p, root, q[..j]) ==> Free(q[j..], '.')
  }

  lemma OverwrittenShows(p: Parser, root: Fields, q: Path, j: nat) returns (a: Orders, b: Orders)
    requires Settled(p, root) && Emits(p, root, q) && j < |q| && MayOverwrite(p, root, q[..j]) && Free(q[j..], '.')
    ensures AreOrders(root, a) && AreOrders(root, b) && !ReturnsAgree(p, root, a, b)
  {
    a, b := OverwrittenInOne(p, root, q, j);
    var m, name := NodeAt(root, q).value, NameOf(p, root, b, q);
    var k :| k in NodeMetrics(p, m, q);
    OnlyTheNameDiffers(p, m, name, q);
    if NodeMetrics(p, m, name)[k].name == NodeMetrics(p, m, q)[k].name {
      NameTellsPath(p, m, name, q, k);
      RootHasNoRoom();
      JoinTellsApart(name, q, '.', j);
    }
    DifferentAt(p, root, a, b, (q, k));
  }

  lemma RootHasNoRoom()
    ensures NoRoom(0)
  {
  }

  lemma DifferentAt(p: Parser, root: Fields, a: Orders, b: Orders, at: Place)
    requires !Panics(p, root, a) && IsNode(root, at.0) && at.1 in NodeMetrics(p, NodeAt(root, at.0).value, at.0)
    requires Visited(p, root, a, at.0) && Visited(p, root, b, at.0)
    requires NameUnder(p, root, at, NameOf(p, root, a, at.0)) != NameUnder(p, root, at, NameOf(p, root, b, at.0))
    ensures !ReturnsAgree(p, root, a, b)
  {
    ReadIsRenamed(p, root, a, at);
    ReadIsRenamed(p, root, b, at);
    assert FinalRead(p, root, a, at) != FinalRead(p, root, b, at);
  }

  // Any two orders return the same on every certain document, and on no other one
  // whose keys have no dots where it matters.
  lemma ReturnsAgreeExactlyWhen(p: Parser, root: Fields)
    ensures Certain(p, root) ==> AllReturnsAgree(p, root)
    ensures AllReturnsAgree(p, root) ==> Settled(p, root) || Doomed(p, root)
    ensures Undotted(p, root) ==> (AllReturnsAgree(p, root) <==> Certain(p, root))
  {
    if Certain(p, root) {
      forall a: Orders, b: Orders | AreOrders(root, a) && AreOrders(root, b) ensures ReturnsAgree(p, root, a, b) {
        CertainPathsAgree(p, root, a, b);
        PathsAgreeMeansReturnsAgree(p, root, a, b);
      }
    } else if !Settled(p, root) {
      var a, b := NotSettled(p, root);
      if ReturnsAgree(p, root, a, b) {
        ReturnsAgreeMeansAgree(p, root, a, b);
      }
    } else if Undotted(p, root) {
      var q, j :| Emits(p, root, q) && 0 <= j < |q| && MayOverwrite(p, root, q[..j]);
      var a, b := OverwrittenShows(p, root, q, j);
    }
  }

  // ---- A plain condition that is enough ----

  // A path of at most three segments was appended to three times at most, each time
  // to a full array.
  lemma ShallowIsKept(p: Parser, root: Fields)
    requires forall q :: Emits(p, root, q) ==> |q| <= 3
    ensures NothingOverwritten(p, root)
  {
    FirstRoom();
  }

  lemma FirstRoom()
    ensures NoRoom(0) && NoRoom(1) && NoRoom(2) && !NoRoom(3)
  {
    assert Capacity(1) == 1 && Capacity(2) == 2;
    NoRoomExactlyAtPowers(1);
    NoRoomExactlyAtPowers(2);
    NoRoomExactlyAtPowers(3);
  }

  // No map with both a format and sub-maps, no malformed one, one "service_dims" that
  // counts, in strings, and no metrics more than three maps down.
  lemma PlainReturnsAgree(p: Parser, root: Fields, service: Fields)
    requires forall q :: HasFormat(p, root, q) ==> SubKeys(NodeAt(root, q).value) == {}
    requires forall x :: !Crashes(root, x)
    requires ServiceDimsOk(service) && forall d :: Deepest(root, d) ==> NodeAt(root, d) == Some(service)
    requires forall q :: Emits(p, root, q) ==> |q| <= 3
    ensures AllReturnsAgree(p, root)
  {
    UnmixedIsEnough(p, root, service);
    ShallowIsKept(p, root);
    ReturnsAgreeExactlyWhen(p, root);
  }
}
