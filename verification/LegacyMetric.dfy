// The worklist of the legacy parser: arbitrarily nested maps, walked breadth
// first in whatever order Go happens to range over each map
// (src/fullerite/dropwizard/legacy_metric.go:80-154, 192-345).
module LegacyMetric {
  import opened Metrics
  import opened Dropwizard
  import opened BaseParser
  import opened GoSlices
  import opened Text

  // One iteration order for every map a run ranges over; a map is visited at
  // most once, so its path identifies the visit.
  type Orders = Path -> seq<string>

  function NodeAt(root: Fields, path: Path): Option<Fields>
    decreases |path|
  {
    if path == [] then Some(root)
    else if path[0] in root && root[path[0]].Object? then NodeAt(root[path[0]].fields, path[1..])
    else None
  }

  ghost predicate IsOrder(o: seq<string>, m: Fields) {
    NoRepeats(o) && forall k :: k in o <==> k in m
  }

  ghost predicate AreOrders(root: Fields, orders: Orders) {
    forall path :: NodeAt(root, path).Some? ==> IsOrder(orders(path), NodeAt(root, path).value)
  }

  predicate IsSub(m: Fields, k: string) {
    k in m && m[k].Object?
  }

  ghost predicate AllSubs(m: Fields, keys: seq<string>) {
    forall j :: 0 <= j < |keys| ==> IsSub(m, keys[j])
  }

  // ---- The reference: a descent of the tree ----

  // The metrics of one map: its recognised format if it has one, and otherwise
  // a gauge for each number in it.
  function NodeMetrics(p: Parser, m: Fields, path: Path): map<string, Metric> {
    if Recognised(p, m) then Flat(p, m, Join(path, '.'))
    else Gauges(m, path)
  }

  function Gauges(m: Fields, path: Path): map<string, Metric> {
    map k | k in m && m[k].Number? :: Metric(Join(path + [k], '.'), GAUGE, m[k].n, map["rollup" := "value"])
  }

  // Where the first key that is not a sub-map stands.
  function FirstScalar(m: Fields, o: seq<string>): (i: nat)
    ensures i <= |o| && AllSubs(m, o[..i]) && (i < |o| ==> !IsSub(m, o[i]))
  {
    if o == [] || !IsSub(m, o[0]) then 0
    else
      var i := FirstScalar(m, o[1..]);
      assert forall j :: 0 <= j < i ==> o[1..][..i][j] == o[..i + 1][j + 1];
      i + 1
  }

  // The keys a visit ranges over before it breaks off: it does so at the first
  // scalar of a recognised map.
  function Handled(p: Parser, m: Fields, o: seq<string>): seq<string> {
    if Recognised(p, m) then o[..FirstScalar(m, o)] else o
  }

  // A sub-map is descended into, unless its map is recognised first.
  predicate Descends(p: Parser, m: Fields, o: seq<string>, k: string) {
    IsSub(m, k) && k in Handled(p, m, o)
  }

  ghost predicate Visited(p: Parser, root: Fields, orders: Orders, path: Path)
    decreases |path|
  {
    path == [] ||
    (var parent := path[..|path| - 1];
     && Visited(p, root, orders, parent)
     && NodeAt(root, parent).Some?
     && Descends(p, NodeAt(root, parent).value, orders(parent), path[|path| - 1]))
  }

  // Where a metric comes from: a map, and a key in it.
  type Place = (Path, string)

  ghost function Emission(p: Parser, root: Fields, orders: Orders, at: Place): Option<Metric> {
    if Visited(p, root, orders, at.0) && NodeAt(root, at.0).Some? then
      var ms := NodeMetrics(p, NodeAt(root, at.0).value, at.0);
      if at.1 in ms then Some(ms[at.1]) else None
    else None
  }

  // A visited map crashes the parser when it has something to parse and a
  // malformed type or dimensions.
  predicate NodePanics(m: Fields) {
    (exists k <- m :: !m[k].Object?) && FlatPanics(m)
  }

  ghost predicate RunPanics(p: Parser, root: Fields, orders: Orders) {
    exists path :: Visited(p, root, orders, path) && NodeAt(root, path).Some? && NodePanics(NodeAt(root, path).value)
  }

  lemma {:induction false} NodeAtSnoc(root: Fields, path: Path, k: string)
    ensures NodeAt(root, path + [k]) ==
            if NodeAt(root, path).Some? && IsSub(NodeAt(root, path).value, k)
            then Some(NodeAt(root, path).value[k].fields) else None
    decreases |path|
  {
    if path == [] {
      assert [] + [k] == [k] && [k][1..] == [];
    } else {
      assert (path + [k])[1..] == path[1..] + [k];
      if path[0] in root && root[path[0]].Object? {
        NodeAtSnoc(root[path[0]].fields, path[1..], k);
      }
    }
  }

  // ---- One map ----

  // The loop shared by collectHistogram, collectMeter and collectRate.
  method CollectDatums(m: Fields, name: string, skip: set<string>)
    returns (results: seq<GoMetric>, ghost ids: seq<string>)
    ensures forall x <- results :: x.dims != null && fresh(x.dims)
    ensures Lists(View(results), ids, Datums(m, name, skip))
  {
    results, ids := [], [];
    var rest := m.Keys;
    while rest != {}
      invariant rest <= m.Keys
      invariant forall x <- results :: x.dims != null && fresh(x.dims)
      invariant Lists(View(results), ids, Datums(m - rest, name, skip))
      decreases |rest|
    {
      var key :| key in rest;
      DatumsStep(m, name, skip, rest, key);
      if key !in skip {
        var x, ok := CreateMetric(key, m[key], name, if key == "count" then COUNTER else GAUGE);
        if ok {
          ListsAdd(View(results), ids, Datums(m - rest, name, skip), key, ViewOne(x));
          ViewAppend(results, [x]);
          results, ids := results + [x], ids + [key];
        }
      }
      rest := rest - {key};
    }
    assert m - {} == m;
  }

  lemma DatumsStep(m: Fields, name: string, skip: set<string>, rest: set<string>, k: string)
    requires k in rest && rest <= m.Keys
    ensures Datums(m - (rest - {k}), name, skip) ==
            if k !in skip && m[k].Number? then
              Datums(m - rest, name, skip)[
                k := Metric(name, if k == "count" then COUNTER else GAUGE, m[k].n, map["rollup" := k])]
            else Datums(m - rest, name, skip)
    ensures k !in Datums(m - rest, name, skip)
  {
  }

  method CollectRate(m: Fields, name: string) returns (results: seq<GoMetric>, ghost ids: seq<string>)
    ensures forall x <- results :: x.dims != null && fresh(x.dims)
    ensures Lists(View(results), ids, Rate(m, name))
  {
    results, ids := [], [];
    if "unit" in m && (m["unit"] == Str("seconds") || m["unit"] == Str("milliseconds")) {
      results, ids := CollectDatums(m, name, {"unit"});
    }
  }

  method CheckForMeterUnits(m: Fields) returns (ok: bool)
    ensures ok == ("event_type" in m && UnitIn(m, {"seconds", "milliseconds", "minutes"}))
  {
    ok := false;
    if "event_type" in m {
      var unit := if "unit" in m then m["unit"] else Other;
      if unit == Str("seconds") || unit == Str("milliseconds") || unit == Str("minutes") {
        ok := true;
      }
    }
  }

  method ParseFlattenedMetricMap(p: Parser, m: Fields, name: string)
    returns (panicked: bool, results: seq<GoMetric>, ghost ids: seq<string>)
    ensures panicked == FlatPanics(m)
    ensures forall x <- results :: x.dims != null && fresh(x.dims)
    ensures !panicked ==> Lists(View(results), ids, Flat(p, m, name))
  {
    panicked, results, ids := false, [], [];
    if "type" in m {
      if !m["type"].Str? {
        return true, [], [];
      }
      var t := m["type"].s;
      if t == "gauge" {
        if "value" in m {
          panicked, results, ids := MetricFromMap(p, m, name, "gauge");
        }
        return;
      } else if t == "histogram" {
        if "count" in m {
          results, ids := CollectDatums(m, name, {"type"});
        }
        return;
      } else if t == "counter" {
        if "count" in m {
          panicked, results, ids := MetricFromMap(p, m, name, "counter");
        }
        return;
      } else if t == "meter" {
        var ok := CheckForMeterUnits(m);
        if ok {
          results, ids := CollectDatums(m, name, {"unit", "event_type", "type"});
        }
        return;
      }
    }
    results, ids := CollectRate(m, name);
  }

  // The sub-maps among some keys, in their order.
  function Subs(m: Fields, keys: seq<string>): seq<string> {
    if keys == [] then []
    else
      var k := keys[|keys| - 1];
      Subs(m, keys[..|keys| - 1]) + (if IsSub(m, k) then [k] else [])
  }

  lemma {:induction false} SubsAreSubs(m: Fields, keys: seq<string>)
    requires NoRepeats(keys)
    ensures forall k :: k in Subs(m, keys) <==> k in keys && IsSub(m, k)
    ensures NoRepeats(Subs(m, keys))
  {
    if keys != [] {
      var before, k := keys[..|keys| - 1], keys[|keys| - 1];
      assert keys == before + [k];
      SubsAreSubs(m, before);
      assert k !in before;
      assert forall i :: 0 <= i < |Subs(m, before)| ==> Subs(m, before)[i] in Subs(m, before);
    }
  }

  // The gauges among some keys.
  function GaugesOf(m: Fields, path: Path, keys: seq<string>): map<string, Metric> {
    map k | k in keys && k in m && m[k].Number? ::
      Metric(Join(path + [k], '.'), GAUGE, m[k].n, map["rollup" := "value"])
  }

  method ExtractGaugeValue(key: string, value: Json, cur: Slice, ghost path: Path, ghost slot: string,
                           ghost keys: seq<string>, ghost subs: seq<string>, ghost children: seq<Slice>)
    returns (x: GoMetric, ok: bool)
    requires Pushed(cur, path, slot, keys, subs, children)
    modifies cur.data
    ensures Pushed(cur, path, slot, keys + [key], subs, children)
    ensures x.dims != null && fresh(x.dims) && ok == value.Number?
    ensures ok ==> ViewOne(x) == Metric(Join(path + [key], '.'), GAUGE, value.n, map["rollup" := "value"])
  {
    var segments := AppendRead(cur, path, slot, keys, subs, children, key);
    var compositeMetricName := Join(segments.data[..segments.len], '.');
    x, ok := CreateMetric("value", value, compositeMetricName, GAUGE);
  }

  lemma GaugesGrow(m: Fields, path: Path, keys: seq<string>, k: string)
    requires k in m && k !in keys
    ensures GaugesOf(m, path, keys + [k]) ==
            if m[k].Number? then
              GaugesOf(m, path, keys)[k := Metric(Join(path + [k], '.'), GAUGE, m[k].n, map["rollup" := "value"])]
            else GaugesOf(m, path, keys)
    ensures k !in GaugesOf(m, path, keys)
  {
  }

  // The turn of nodeVisitorLoop on one scalar of a map that has no format: the
  // scalar becomes a gauge if it is a number.
  method AddGauge(m: Fields, cur: Slice, ghost path: Path, ghost slot: string, ghost keys: seq<string>, k: string,
                  results: seq<GoMetric>, ghost ids: seq<string>, ghost subs: seq<string>, ghost children: seq<Slice>)
    returns (results': seq<GoMetric>, ghost ids': seq<string>)
    requires k in m && !m[k].Object? && k !in keys
    requires Pushed(cur, path, slot, keys, subs, children)
    requires OwnMaps(results) && Lists(View(results), ids, GaugesOf(m, path, keys))
    modifies cur.data
    ensures Pushed(cur, path, slot, keys + [k], subs, children)
    ensures forall x <- results' :: x in results || (x.dims != null && fresh(x.dims))
    ensures Lists(View(results'), ids', GaugesOf(m, path, keys + [k]))
  {
    ghost var was := View(results);
    var x, ok := ExtractGaugeValue(k, m[k], cur, path, slot, keys, subs, children);
    assert View(results) == was;
    results', ids' := results, ids;
    GaugesGrow(m, path, keys, k);
    if ok {
      ListsAdd(was, ids, GaugesOf(m, path, keys), k, ViewOne(x));
      ViewAppend(results, [x]);
      results', ids' := results + [x], ids + [k];
    }
  }

  // How far the loop over one map has come, if it has neither broken off nor
  // crashed: a scalar among the keys means the map has no format.
  ghost predicate Walked(p: Parser, m: Fields, path: Path, keys: seq<string>, results: seq<Metric>, ids: seq<string>) {
    && (AllSubs(m, keys) || (!Recognised(p, m) && !FlatPanics(m)))
    && Lists(results, ids, GaugesOf(m, path, keys))
  }

  lemma NoGaugesYet(m: Fields, path: Path, keys: seq<string>)
    requires AllSubs(m, keys)
    ensures GaugesOf(m, path, keys) == map[]
  {
    forall k | k in keys ensures IsSub(m, k) {
      var j :| 0 <= j < |keys| && keys[j] == k;
    }
  }

  lemma WalkedSub(p: Parser, m: Fields, path: Path, keys: seq<string>, k: string, results: seq<Metric>,
                  ids: seq<string>)
    requires Walked(p, m, path, keys, results, ids) && IsSub(m, k)
    ensures Walked(p, m, path, keys + [k], results, ids)
    ensures Subs(m, keys + [k]) == Subs(m, keys) + [k]
  {
    assert (keys + [k])[..|keys|] == keys;
    assert GaugesOf(m, path, keys + [k]) == GaugesOf(m, path, keys);
  }

  // What the visit of a map leaves behind.
  ghost predicate VisitDone(p: Parser, m: Fields, path: Path, o: seq<string>, results: seq<Metric>, ids: seq<string>,
                            handled: seq<string>) {
    Lists(results, ids, NodeMetrics(p, m, path)) && handled == Handled(p, m, o)
  }

  lemma ScalarIsFirst(m: Fields, o: seq<string>, i: nat)
    requires i < |o| && AllSubs(m, o[..i]) && !IsSub(m, o[i])
    ensures FirstScalar(m, o) == i
  {
    assert forall j :: 0 <= j < i ==> o[..i][j] == o[j];
    assert forall j :: 0 <= j < FirstScalar(m, o) ==> o[..FirstScalar(m, o)][j] == o[j];
  }

  lemma WalkedAll(p: Parser, m: Fields, path: Path, o: seq<string>, results: seq<Metric>, ids: seq<string>)
    requires IsOrder(o, m) && Walked(p, m, path, o, results, ids)
    ensures VisitDone(p, m, path, o, results, ids, o) && !NodePanics(m)
  {
    if AllSubs(m, o) {
      OnlySubs(p, m, o);
    }
    assert GaugesOf(m, path, o) == Gauges(m, path);
  }

  // Without a scalar there is nothing to recognise and nothing to crash on.
  lemma OnlySubs(p: Parser, m: Fields, o: seq<string>)
    requires IsOrder(o, m) && AllSubs(m, o)
    ensures !Recognised(p, m) && !NodePanics(m)
  {
    forall k | k in m ensures m[k].Object? {
      assert k in o;
      var j :| 0 <= j < |o| && o[j] == k;
    }
    FlatKeys(p, m, "");
  }

  lemma ListsNothing(results: seq<Metric>, ids: seq<string>, m: map<string, Metric>)
    requires Lists(results, ids, m)
    ensures results == [] <==> m == map[]
  {
    if ids != [] {
      assert ids[0] in ids;
    }
  }

  // The first scalar of a recognised map: nothing was emitted before it.
  lemma RecognisedFirst(p: Parser, m: Fields, path: Path, o: seq<string>, i: nat,
                        results: seq<Metric>, ids: seq<string>, temp: seq<Metric>, tempIds: seq<string>)
    requires i < |o| && !IsSub(m, o[i])
    requires Walked(p, m, path, o[..i], results, ids)
    requires temp != [] && Lists(temp, tempIds, Flat(p, m, Join(path, '.')))
    ensures results == [] && VisitDone(p, m, path, o, temp, tempIds, o[..i])
  {
    ListsNothing(temp, tempIds, Flat(p, m, Join(path, '.')));
    FlatKeys(p, m, Join(path, '.'));
    NoGaugesYet(m, path, o[..i]);
    ListsNothing(results, ids, GaugesOf(m, path, o[..i]));
    ScalarIsFirst(m, o, i);
  }

  lemma FlatlessScalar(p: Parser, m: Fields, path: Path, temp: seq<Metric>, tempIds: seq<string>)
    requires temp == [] && Lists(temp, tempIds, Flat(p, m, Join(path, '.')))
    ensures !Recognised(p, m)
  {
    ListsNothing(temp, tempIds, Flat(p, m, Join(path, '.')));
    FlatKeys(p, m, Join(path, '.'));
  }

  lemma SubsSkip(m: Fields, keys: seq<string>, k: string)
    requires !IsSub(m, k)
    ensures Subs(m, keys + [k]) == Subs(m, keys)
  {
    assert (keys + [k])[..|keys|] == keys;
  }

  // The turn of nodeVisitorLoop on a scalar: it crashes, breaks off with the
  // metrics of a format, or goes on.
  method VisitScalar(p: Parser, m: Fields, cur: Slice, ghost path: Path, ghost slot: string, o: seq<string>, i: nat,
                     results: seq<GoMetric>, ghost ids: seq<string>, ghost pushed: seq<string>,
                     ghost children: seq<Slice>)
    returns (panicked: bool, broke: bool, results': seq<GoMetric>, ghost ids': seq<string>)
    requires IsOrder(o, m) && i < |o| && !m[o[i]].Object? && OwnMaps(results)
    requires Walked(p, m, path, o[..i], View(results), ids)
    requires pushed == Subs(m, o[..i]) && Pushed(cur, path, slot, o[..i], pushed, children)
    modifies cur.data
    ensures panicked == FlatPanics(m)
    ensures forall x <- results' :: x in results || (x.dims != null && fresh(x.dims))
    ensures !panicked && broke ==> VisitDone(p, m, path, o, View(results'), ids', o[..i])
    ensures !panicked && broke ==> Pushed(cur, path, slot, o[..i], pushed, children)
    ensures !panicked && !broke ==> Walked(p, m, path, o[..i + 1], View(results'), ids')
    ensures !panicked && !broke ==>
              pushed == Subs(m, o[..i + 1]) && Pushed(cur, path, slot, o[..i + 1], pushed, children)
  {
    broke, results', ids' := false, results, ids;
    assert o[..i + 1] == o[..i] + [o[i]];
    var temp;
    ghost var tempIds;
    panicked, temp, tempIds := ParseFlattenedMetricMap(p, m, Join(cur.data[..cur.len], '.'));
    if panicked {
      return;
    }
    if |temp| > 0 {
      RecognisedFirst(p, m, path, o, i, View(results), ids, View(temp), tempIds);
      broke, results', ids' := true, results + temp, tempIds;
      return;
    }
    FlatlessScalar(p, m, path, View(temp), tempIds);
    results', ids' := AddGauge(m, cur, path, slot, o[..i], o[i], results, ids, pushed, children);
    SubsSkip(m, o[..i], o[i]);
  }

  // The turn of nodeVisitorLoop on a sub-map.
  method VisitSub(p: Parser, m: Fields, cur: Slice, ghost path: Path, ghost slot: string, ghost keys: seq<string>,
                  k: string, ghost results: seq<GoMetric>, ghost ids: seq<string>, pushed: seq<string>,
                  children: seq<Slice>)
    returns (pushed': seq<string>, children': seq<Slice>)
    requires IsSub(m, k) && OwnMaps(results)
    requires Walked(p, m, path, keys, View(results), ids)
    requires pushed == Subs(m, keys) && Pushed(cur, path, slot, keys, pushed, children)
    modifies cur.data
    ensures Walked(p, m, path, keys + [k], View(results), ids)
    ensures pushed' == Subs(m, keys + [k]) && Pushed(cur, path, slot, keys + [k], pushed', children')
    ensures forall c <- children' :: c in children || c.data == cur.data || fresh(c.data)
  {
    WalkedSub(p, m, path, keys, k, View(results), ids);
    ghost var was := View(results);
    children' := AppendKept(cur, path, slot, keys, pushed, children, k);
    pushed' := pushed + [k];
    assert View(results) == was;
  }

  // nodeVisitorLoop over one map, whose path is read from a slice and whose
  // sub-maps' paths are appended to it.
  method VisitNode(p: Parser, m: Fields, cur: Slice, o: seq<string>)
    returns (panicked: bool, results: seq<GoMetric>, ghost ids: seq<string>,
             pushed: seq<string>, children: seq<Slice>, ghost handled: seq<string>)
    requires IsOrder(o, m) && Valid(cur)
    modifies cur.data
    ensures panicked == NodePanics(m)
    ensures forall x <- results :: x.dims != null && fresh(x.dims)
    ensures forall c <- children :: c.data == cur.data || fresh(c.data)
    ensures !panicked ==> VisitDone(p, m, old(Read(cur)), o, View(results), ids, handled)
    ensures !panicked ==>
              pushed == Subs(m, handled) && Pushed(cur, old(Read(cur)), old(SlotOf(cur)), handled, pushed, children)
  {
    panicked, results, ids, pushed, children, handled := false, [], [], [], [], [];
    ghost var path, slot := Read(cur), SlotOf(cur);
    for i := 0 to |o|
      invariant !panicked && forall x <- results :: x.dims != null && fresh(x.dims)
      invariant forall c <- children :: c.data == cur.data || fresh(c.data)
      invariant Walked(p, m, path, o[..i], View(results), ids)
      invariant pushed == Subs(m, o[..i]) && Pushed(cur, path, slot, o[..i], pushed, children)
    {
      var k := o[i];
      assert k in o;
      assert o[..i + 1] == o[..i] + [k];
      if m[k].Object? {
        pushed, children := VisitSub(p, m, cur, path, slot, o[..i], k, results, ids, pushed, children);
      } else {
        var broke;
        panicked, broke, results, ids := VisitScalar(p, m, cur, path, slot, o, i, results, ids, pushed, children);
        if panicked || broke {
          handled := o[..i];
          return;
        }
      }
    }
    assert o[..|o|] == o;
    handled := o;
    WalkedAll(p, m, path, o, View(results), ids);
  }
}
