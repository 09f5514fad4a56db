// What the metrics of the legacy parser say, map by map and key by key, written out
// with the texts of the format (src/fullerite/dropwizard/legacy_metric.go:48-345,
// base_parser.go:99-169).
module LegacyMeaning {
  import opened Metrics
  import opened Dropwizard
  import opened BaseParser
  import opened ParserMeaning
  import opened GoSlices
  import opened LegacyMetric
  import opened LegacyRun
  import opened LegacyPaths
  import opened LegacyOrder
  import opened Text

  // ---- Formats ----

  predicate Says(m: Fields, key: string, text: string) {
    key in m && m[key] == Str(text)
  }

  predicate GaugeMap(m: Fields) {
    Says(m, "type", "gauge") && "value" in m
  }

  predicate CounterMap(m: Fields) {
    Says(m, "type", "counter") && "count" in m
  }

  predicate HistogramMap(m: Fields) {
    Says(m, "type", "histogram") && "count" in m
  }

  predicate MeterMap(m: Fields) {
    && Says(m, "type", "meter") && "event_type" in m
    && (Says(m, "unit", "seconds") || Says(m, "unit", "milliseconds") || Says(m, "unit", "minutes"))
  }

  predicate RateMap(m: Fields) {
    && !Says(m, "type", "gauge") && !Says(m, "type", "counter")
    && !Says(m, "type", "histogram") && !Says(m, "type", "meter")
    && (Says(m, "unit", "seconds") || Says(m, "unit", "milliseconds"))
  }

  // The keys that become metrics of a format.
  predicate Reports(p: Parser, m: Fields, k: string) {
    && k in m && m[k].Number?
    && if GaugeMap(m) || CounterMap(m) then k != "dimensions" && !(p.ccEnabled && p.isRate(k))
       else if MeterMap(m) then k != "event_type"
       else HistogramMap(m) || RateMap(m)
  }

  ghost predicate Formatted(p: Parser, m: Fields) {
    exists k :: Reports(p, m, k)
  }

  // The metric type of key k in a formatted map.
  function TypeText(p: Parser, m: Fields, k: string): string {
    if GaugeMap(m) || CounterMap(m) then
      if p.ccEnabled && k == "count" then "cumcounter" else if GaugeMap(m) then "gauge" else "counter"
    else if k == "count" then "COUNTER"
    else "GAUGE"
  }

  function NameText(p: Parser, m: Fields, name: string, k: string): string {
    if (GaugeMap(m) || CounterMap(m)) && p.ccEnabled && k != "value" then name + "." + k else name
  }

  function DimensionText(m: Fields, k: string, d: string): Option<string> {
    if (GaugeMap(m) || CounterMap(m)) && OwnDimension(m, d).Some? then OwnDimension(m, d)
    else if d == "rollup" then Some(k)
    else None
  }

  // x is the metric of key k in a formatted map.
  ghost predicate IsReport(p: Parser, m: Fields, name: string, k: string, x: Metric) {
    && k in m && m[k] == Number(x.value)
    && x.name == NameText(p, m, name, k) && x.metricType == TypeText(p, m, k)
    && HasDimensions(x, d => DimensionText(m, k, d))
  }

  // x is the metric of a lone number.
  ghost predicate IsLoneNumber(m: Fields, path: Path, k: string, x: Metric) {
    && k in m && m[k] == Number(x.value)
    && x.name == Join(path + [k], '.') && x.metricType == "GAUGE"
    && x.dimensions == map["rollup" := "value"]
  }

  // ---- One map ----

  lemma FromMapMeans(p: Parser, m: Fields, name: string, k: string)
    requires GaugeMap(m) || CounterMap(m)
    ensures k in FromMap(p, m, name, if GaugeMap(m) then "gauge" else "counter") <==> Reports(p, m, k)
    ensures Reports(p, m, k) ==>
              IsReport(p, m, name, k, FromMap(p, m, name, if GaugeMap(m) then "gauge" else "counter")[k])
  {
    if Reports(p, m, k) {
      var x := FromMap(p, m, name, if GaugeMap(m) then "gauge" else "counter")[k];
      forall d ensures if d in x.dimensions then DimensionText(m, k, d) == Some(x.dimensions[d])
                       else DimensionText(m, k, d) == None
      {
        assert d in OwnDimensions(m) <==> OwnDimension(m, d).Some?;
      }
    }
  }

  lemma DatumsMean(p: Parser, m: Fields, name: string, skip: set<string>, k: string)
    requires !GaugeMap(m) && !CounterMap(m)
    requires forall j :: j in m && m[j].Number? ==> (j in skip <==> !Reports(p, m, j))
    ensures k in Datums(m, name, skip) <==> Reports(p, m, k)
    ensures Reports(p, m, k) ==> IsReport(p, m, name, k, Datums(m, name, skip)[k])
  {
  }

  lemma FlatMeans(p: Parser, m: Fields, name: string, k: string)
    ensures k in Flat(p, m, name) <==> Reports(p, m, k)
    ensures Reports(p, m, k) ==> IsReport(p, m, name, k, Flat(p, m, name)[k])
  {
    if GaugeMap(m) || CounterMap(m) {
      FromMapMeans(p, m, name, k);
    } else if HistogramMap(m) {
      DatumsMean(p, m, name, {"type"}, k);
    } else if MeterMap(m) {
      DatumsMean(p, m, name, {"unit", "event_type", "type"}, k);
    } else if RateMap(m) {
      DatumsMean(p, m, name, {"unit"}, k);
    }
  }

  lemma RecognisedMeansFormatted(p: Parser, m: Fields)
    ensures Recognised(p, m) <==> Formatted(p, m)
  {
    if k :| k in Flat(p, m, "") {
      FlatMeans(p, m, "", k);
    }
    if k :| Reports(p, m, k) {
      FlatMeans(p, m, "", k);
    }
  }

  lemma NodeMetricsMean(p: Parser, m: Fields, path: Path, k: string)
    ensures k in NodeMetrics(p, m, path) <==> if Formatted(p, m) then Reports(p, m, k) else k in m && m[k].Number?
    ensures k in NodeMetrics(p, m, path) ==>
              var x := NodeMetrics(p, m, path)[k];
              if Formatted(p, m) then IsReport(p, m, Join(path, '.'), k, x) else IsLoneNumber(m, path, k, x)
  {
    RecognisedMeansFormatted(p, m);
    FlatMeans(p, m, Join(path, '.'), k);
  }

  // What crashes the parser in a map: a type that is no text, or dimensions of a gauge
  // or counter that are no map, once it meets something other than a sub-map.
  lemma PanicsMean(m: Fields)
    ensures NodePanics(m) <==>
            && (exists k <- m :: !m[k].Object?)
            && (("type" in m && !m["type"].Str?) ||
                ((GaugeMap(m) || CounterMap(m)) && "dimensions" in m && !m["dimensions"].Object?))
  {
  }

  // ---- A whole run ----

  // x is base with the dimensions of the service laid over it.
  ghost predicate Tagged(base: Metric, service: Option<Fields>, x: Metric) {
    && x.name == base.name && x.metricType == base.metricType && x.value == base.value
    && HasDimensions(x, d =>
         if ServiceText(service, d).Some? then ServiceText(service, d)
         else if d in base.dimensions then Some(base.dimensions[d])
         else None)
  }

  lemma AddedMeans(base: Metric, service: Option<Fields>)
    ensures Tagged(base, service, WithDims(base, Added(service)))
  {
    var x := WithDims(base, Added(service));
    forall d ensures d in Added(service) <==> ServiceText(service, d).Some? {
    }
  }

  // The metric that map m gives for key k, under the path read for it.
  ghost predicate IsMetricOf(p: Parser, m: Fields, path: Path, k: string, x: Metric) {
    if Formatted(p, m) then IsReport(p, m, Join(path, '.'), k, x) else IsLoneNumber(m, path, k, x)
  }

  ghost predicate Gives(p: Parser, m: Fields, k: string) {
    if Formatted(p, m) then Reports(p, m, k) else k in m && m[k].Number?
  }

  ghost predicate IsReturned(p: Parser, m: Fields, path: Path, k: string, service: Option<Fields>, x: Metric) {
    exists base :: IsMetricOf(p, m, path, k, base) && Tagged(base, service, x)
  }

  // Every visited map gives what its keys say, and nothing else is returned.
  lemma RunMeans(p: Parser, root: Fields, orders: Orders, at: Place)
    ensures var x := FinalRead(p, root, orders, at);
            && (x.Some? <==>
                Visited(p, root, orders, at.0) && IsNode(root, at.0) && Gives(p, NodeAt(root, at.0).value, at.1))
            && (x.Some? ==>
                  IsReturned(p, NodeAt(root, at.0).value, NameOf(p, root, orders, at.0), at.1,
                             ServiceOf(p, root, orders), x.value))
  {
    if IsNode(root, at.0) {
      var m, name, service := NodeAt(root, at.0).value, NameOf(p, root, orders, at.0), ServiceOf(p, root, orders);
      NodeMetricsMean(p, m, name, at.1);
      if at.1 in NodeMetrics(p, m, name) {
        var base := NodeMetrics(p, m, name)[at.1];
        AddedMeans(base, service);
        assert IsMetricOf(p, m, name, at.1, base);
      }
    }
  }

  // What the method returns, metric by metric.
  lemma ResultsMean(p: Parser, root: Fields, orders: Orders, results: seq<Metric>, ids: seq<Place>)
    requires Holds(results, ids, at => FinalRead(p, root, orders, at))
    ensures |results| == |ids| && NoRepeats(ids)
    ensures forall i :: 0 <= i < |ids| ==>
              && IsNode(root, ids[i].0)
              && IsReturned(p, NodeAt(root, ids[i].0).value, NameOf(p, root, orders, ids[i].0), ids[i].1,
                            ServiceOf(p, root, orders), results[i])
    ensures forall at: Place ::
              at in ids <==>
              Visited(p, root, orders, at.0) && IsNode(root, at.0) && Gives(p, NodeAt(root, at.0).value, at.1)
  {
    forall at: Place
      ensures at in ids <==>
              Visited(p, root, orders, at.0) && IsNode(root, at.0) && Gives(p, NodeAt(root, at.0).value, at.1)
    {
      RunMeans(p, root, orders, at);
    }
    forall i | 0 <= i < |ids|
      ensures && IsNode(root, ids[i].0)
              && IsReturned(p, NodeAt(root, ids[i].0).value, NameOf(p, root, orders, ids[i].0), ids[i].1,
                            ServiceOf(p, root, orders), results[i])
    {
      RunMeans(p, root, orders, ids[i]);
    }
  }

  // {"count": 0, "type": "counter"} at a is a counter named a.
  lemma CounterOfTheSource(p: Parser, m: Fields)
    requires !p.ccEnabled && m == map["count" := Number(0.0), "type" := Str("counter")]
    ensures NodeMetrics(p, m, ["a"]) == map["count" := Metric("a", "counter", 0.0, map["rollup" := "count"])]
  {
    assert Reports(p, m, "count");
    NodeMetricsMean(p, m, ["a"], "count");
    forall k ensures k in NodeMetrics(p, m, ["a"]) <==> k == "count" {
      NodeMetricsMean(p, m, ["a"], k);
    }
    OnlyTheRollup(NodeMetrics(p, m, ["a"])["count"], m);
  }

  lemma OnlyTheRollup(x: Metric, m: Fields)
    requires "dimensions" !in m && HasDimensions(x, d => DimensionText(m, "count", d))
    ensures x.dimensions == map["rollup" := "count"]
  {
    assert DimensionText(m, "count", "rollup") == Some("count");
    assert forall d :: d in x.dimensions <==> d == "rollup";
  }
}
