// Documents on which the legacy parser's answer hangs on map order
// (src/fullerite/dropwizard/legacy_metric.go:98-134).
module LegacyExamples {
  import opened Metrics
  import opened Dropwizard
  import opened BaseParser
  import opened GoSlices
  import opened LegacyMetric
  import opened LegacyRun
  import opened LegacyOrder

  ghost predicate AllAgree(p: Parser, root: Fields) {
    forall a: Orders, b: Orders :: AreOrders(root, a) && AreOrders(root, b) ==> Agree(p, root, a, b)
  }

  // Two winners under which some metric differs.
  lemma WinnersDisagree(p: Parser, root: Fields, v: Option<Path>, w: Option<Path>, at: Place)
    requires CanFinish(p, root, v) && CanWin(p, root, w) && DescentWith(p, root, v, at) != DescentWith(p, root, w, at)
    ensures !AllAgree(p, root)
  {
    assert !Settled(p, root) && !Doomed(p, root);
    OrdersAgreeExactlyWhen(p, root);
  }

  // A map with one sub-map, which has no sub-maps itself: its two paths.
  lemma TwoNodes(root: Fields, k: string, path: Path)
    requires IsSub(root, k) && (forall j :: IsSub(root, j) ==> j == k)
    requires forall j :: !IsSub(root[k].fields, j)
    ensures NodeAt(root, path).Some? <==> path == [] || path == [k]
    ensures NodeAt(root, [k]) == Some(root[k].fields)
  {
    assert [k][1..] == [];
    if path != [] {
      var rest := path[1..];
      assert IsSub(root, path[0]) ==> path[0] == k;
      if rest == [] {
        assert path == [path[0]];
      } else {
        assert !IsSub(root[k].fields, rest[0]);
      }
    }
  }

  const SERVICE_BELOW_COUNTER: Fields :=
    map["type" := Str("counter"), "count" := Number(1.0), "service_dims" := Object(map["a" := Str("b")])]

  // {"type": "counter", "count": 1, "service_dims": {"a": "b"}}: no metrics below a
  // format, but whether the counter carries a=b depends on which key comes first.
  lemma ServiceBelowACounter(p: Parser)
    requires !(p.ccEnabled && p.isRate("count"))
    ensures NothingBelowAFormat(p, SERVICE_BELOW_COUNTER) && !AllAgree(p, SERVICE_BELOW_COUNTER)
  {
    CounterIsRecognised(p, SERVICE_BELOW_COUNTER);
    OnlySubIsTheService(SERVICE_BELOW_COUNTER);
    OneServiceBelow(p, SERVICE_BELOW_COUNTER, "count");
  }

  lemma OnlySubIsTheService(m: Fields)
    requires m == SERVICE_BELOW_COUNTER
    ensures IsSub(m, "service_dims") && m["service_dims"].fields == map["a" := Str("b")]
    ensures forall j :: IsSub(m, j) ==> j == "service_dims"
  {
  }

  // The nodes of a recognised map with one sub-map, its "service_dims", in strings.
  ghost predicate HasOneService(p: Parser, root: Fields) {
    && Recognised(p, root) && !FlatPanics(root)
    && IsSub(root, "service_dims") && (forall j :: IsSub(root, j) ==> j == "service_dims")
    && (forall j <- root["service_dims"].fields :: root["service_dims"].fields[j].Str? && j != "type" && j != "unit")
  }

  lemma ServiceIsTheOtherNode(p: Parser, root: Fields, x: Path)
    requires HasOneService(p, root)
    ensures IsNode(root, x) <==> x == [] || x == ["service_dims"]
    ensures NodeAt(root, ["service_dims"]) == Some(root["service_dims"].fields)
    ensures !Crashes(root, x) && (x != [] ==> !Forced(p, root, x, []))
  {
    TwoNodes(root, "service_dims", x);
    if x != [] {
      assert x[..0] == [] && HasFormat(p, root, x[..0]);
    }
  }

  lemma BothCanWin(p: Parser, root: Fields)
    requires HasOneService(p, root)
    ensures CanFinish(p, root, None) && CanWin(p, root, Some(["service_dims"]))
  {
    forall x ensures IsNode(root, x) <==> x == [] || x == ["service_dims"] {
      ServiceIsTheOtherNode(p, root, x);
    }
    forall x ensures !Crashes(root, x) && (x != [] ==> !Forced(p, root, x, [])) {
      ServiceIsTheOtherNode(p, root, x);
    }
  }

  lemma NothingInAService(p: Parser, root: Fields)
    requires HasOneService(p, root)
    ensures NothingBelowAFormat(p, root)
  {
    forall at: Place | Descent(p, root, at).Some? ensures Exposed(p, root, at.0) {
      ServiceIsTheOtherNode(p, root, at.0);
      NoMetricsInStrings(p, root["service_dims"].fields, at.0);
    }
  }

  lemma NoMetricsInStrings(p: Parser, m: Fields, path: Path)
    requires forall j <- m :: m[j].Str? && j != "type" && j != "unit"
    ensures NodeMetrics(p, m, path) == map[]
  {
  }

  lemma OneServiceBelow(p: Parser, root: Fields, k: string)
    requires HasOneService(p, root) && k in Flat(p, root, "")
    requires root["service_dims"].fields == map["a" := Str("b")] && "a" !in Flat(p, root, "")[k].dimensions
    ensures NothingBelowAFormat(p, root) && !AllAgree(p, root)
  {
    NothingInAService(p, root);
    BothCanWin(p, root);
    ServiceIsTheOtherNode(p, root, []);
    var at: Place, w := ([], k), Some(["service_dims"]);
    assert Descent(p, root, at) == Some(Flat(p, root, "")[k]);
    assert "a" in ServiceDims(map["a" := Str("b")]);
    assert "a" in DescentWith(p, root, w, at).value.dimensions;
    WinnersDisagree(p, root, None, w, at);
  }

  lemma CounterIsRecognised(p: Parser, m: Fields)
    requires !(p.ccEnabled && p.isRate("count"))
    requires "type" in m && m["type"] == Str("counter") && "count" in m && m["count"].Number?
    ensures "count" in Flat(p, m, "") && Recognised(p, m)
    ensures "dimensions" !in m ==> Flat(p, m, "")["count"].dimensions == map["rollup" := "count"] && !FlatPanics(m)
  {
  }

  const CRASH_BELOW_COUNTER: Fields :=
    map["type" := Str("counter"), "count" := Number(1.0), "x" := Object(map["type" := Other])]

  // {"type": "counter", "count": 1, "x": {"type": null}}: no metrics below a format
  // either, but the run panics if "x" comes first.
  lemma CrashBelowACounter(p: Parser)
    requires !(p.ccEnabled && p.isRate("count"))
    ensures NothingBelowAFormat(p, CRASH_BELOW_COUNTER) && !AllAgree(p, CRASH_BELOW_COUNTER)
  {
    var root := CRASH_BELOW_COUNTER;
    CounterIsRecognised(p, root);
    assert IsSub(root, "x") && forall j :: IsSub(root, j) ==> j == "x";
    OneCrashBelow(p, root, "x");
  }

  ghost predicate HasOneCrash(p: Parser, root: Fields, k: string) {
    && Recognised(p, root) && !FlatPanics(root) && k != "service_dims"
    && IsSub(root, k) && (forall j :: IsSub(root, j) ==> j == k) && root[k].fields == map["type" := Other]
  }

  lemma CrashIsTheOtherNode(p: Parser, root: Fields, k: string, x: Path)
    requires HasOneCrash(p, root, k)
    ensures IsNode(root, x) <==> x == [] || x == [k]
    ensures NodeAt(root, [k]) == Some(map["type" := Other]) && (x == [k] ==> !Forced(p, root, x, []))
  {
    TwoNodes(root, k, x);
    if x != [] {
      assert x[..0] == [] && HasFormat(p, root, x[..0]);
    }
  }

  lemma NullTypeCrashes(p: Parser, path: Path)
    ensures NodePanics(map["type" := Other]) && NodeMetrics(p, map["type" := Other], path) == map[]
  {
    assert "type" in map["type" := Other];
  }

  lemma CrashCanBeMissed(p: Parser, root: Fields, k: string)
    requires HasOneCrash(p, root, k)
    ensures NothingBelowAFormat(p, root) && CanFinish(p, root, None) && Crashes(root, [k])
  {
    forall x ensures (IsNode(root, x) <==> x == [] || x == [k]) && (x == [k] ==> !Forced(p, root, x, [])) {
      CrashIsTheOtherNode(p, root, k, x);
    }
    CrashIsTheOtherNode(p, root, k, []);
    forall at: Place | Descent(p, root, at).Some? ensures at.0 == [] {
      CrashIsTheOtherNode(p, root, k, at.0);
      NullTypeCrashes(p, at.0);
    }
    NullTypeCrashes(p, [k]);
  }

  lemma OneCrashBelow(p: Parser, root: Fields, k: string)
    requires HasOneCrash(p, root, k)
    ensures NothingBelowAFormat(p, root) && !AllAgree(p, root)
  {
    CrashCanBeMissed(p, root, k);
    OrdersAgreeExactlyWhen(p, root);
  }

  // ---- Two "service_dims" at one depth ----

  function Service(a: string): Json {
    Object(map["service_dims" := Object(map["a" := Str(a)])])
  }

  const TIED_SERVICES: Fields := map["n" := Number(1.0), "x" := Service("1"), "y" := Service("2")]

  lemma TiedNodes(path: Path)
    ensures IsNode(TIED_SERVICES, path) <==>
            path in [[], ["x"], ["y"], ["x", "service_dims"], ["y", "service_dims"]]
    ensures NodeAt(TIED_SERVICES, ["x", "service_dims"]) == Some(map["a" := Str("1")])
    ensures NodeAt(TIED_SERVICES, ["y", "service_dims"]) == Some(map["a" := Str("2")])
    ensures !Crashes(TIED_SERVICES, path)
  {
    var x, y := Service("1").fields, Service("2").fields;
    assert ["x", "service_dims"][1..] == ["service_dims"] && ["y", "service_dims"][1..] == ["service_dims"];
    TwoNodes(x, "service_dims", ["service_dims"]);
    TwoNodes(y, "service_dims", ["service_dims"]);
    if path != [] {
      var rest := path[1..];
      assert path == [path[0]] + rest;
      TwoNodes(x, "service_dims", rest);
      TwoNodes(y, "service_dims", rest);
      assert rest == [] ==> path == [path[0]];
      assert rest == ["service_dims"] ==> path == [path[0], "service_dims"];
      assert path in [["x"], ["y"]] ==> rest == [];
    }
  }

  // {"n": 1, "x": {"service_dims": {"a": "1"}}, "y": {"service_dims": {"a": "2"}}}:
  // no map has a format, and yet n carries a=1 or a=2.
  lemma TiedServicesDisagree(p: Parser)
    ensures NothingBelowAFormat(p, TIED_SERVICES) && !AllAgree(p, TIED_SERVICES)
  {
    TiedWinners(p);
    TiedDiffer(p);
    WinnersDisagree(p, TIED_SERVICES, Some(["x", "service_dims"]), Some(["y", "service_dims"]), ([], "n"));
  }

  lemma TiedWinners(p: Parser)
    ensures CanFinish(p, TIED_SERVICES, Some(["x", "service_dims"])) &&
            CanWin(p, TIED_SERVICES, Some(["y", "service_dims"]))
    ensures NothingBelowAFormat(p, TIED_SERVICES)
  {
    forall x, d ensures IsNode(TIED_SERVICES, x) ==> Forced(p, TIED_SERVICES, x, d) {
      if IsNode(TIED_SERVICES, x) {
        TiedForces(p, x, d);
      }
    }
    forall x ensures !Crashes(TIED_SERVICES, x) && (IsNode(TIED_SERVICES, x) ==> |x| <= 2) {
      TiedNodes(x);
    }
    TiedNodes(["x", "service_dims"]);
    TiedNodes(["y", "service_dims"]);
  }

  lemma TiedDiffer(p: Parser)
    ensures DescentWith(p, TIED_SERVICES, Some(["x", "service_dims"]), ([], "n")) !=
            DescentWith(p, TIED_SERVICES, Some(["y", "service_dims"]), ([], "n"))
  {
    TiedNodes([]);
    TiedGauge(p);
    var m := Descent(p, TIED_SERVICES, ([], "n")).value;
    assert WithDims(m, map["a" := "1"]).dimensions["a"] == "1";
    assert WithDims(m, map["a" := "2"]).dimensions["a"] == "2";
  }

  lemma TiedGauge(p: Parser)
    ensures Descent(p, TIED_SERVICES, ([], "n")).Some?
    ensures forall a :: ServiceDims(map["a" := Str(a)]) == map["a" := a]
  {
    forall a ensures ServiceDims(map["a" := Str(a)]) == map["a" := a] {
    }
  }

  lemma TiedForces(p: Parser, x: Path, d: Path)
    requires IsNode(TIED_SERVICES, x)
    ensures Forced(p, TIED_SERVICES, x, d)
  {
    forall q ensures !HasFormat(p, TIED_SERVICES, q) {
      TiedNodes(q);
      TiedHasNoFormat(p, q);
    }
  }

  lemma TiedHasNoFormat(p: Parser, q: Path)
    requires IsNode(TIED_SERVICES, q) ==> q in [[], ["x"], ["y"], ["x", "service_dims"], ["y", "service_dims"]]
    ensures !HasFormat(p, TIED_SERVICES, q)
  {
    if IsNode(TIED_SERVICES, q) {
      assert "type" !in NodeAt(TIED_SERVICES, q).value && "unit" !in NodeAt(TIED_SERVICES, q).value by {
        TiedNodes(q);
        assert ["x"][1..] == [] && ["y"][1..] == [];
      }
    }
  }
}
