// Decoded JSON, and what one flat map of it means as metrics
// (src/fullerite/dropwizard/base_parser.go:99-169, legacy_metric.go:137-345).
module Dropwizard {
  import opened Metrics

  // Other stands for null, booleans and arrays.
  datatype Json = Number(n: real) | Str(s: string) | Other | Object(fields: Fields)

  type Fields = map<string, Json>

  // ccEnabled, and the regular expression m[0-9]+_rate tried on a rollup.
  datatype Parser = Parser(ccEnabled: bool, isRate: string -> bool)

  const COUNTER := "COUNTER"
  const GAUGE := "GAUGE"
  const CUMULATIVE_COUNTER := "cumcounter"

  // ---- metricFromMap ----

  // A map's own "dimensions": anything but a string becomes "null".
  function OwnDimensions(m: Fields): Dimensions {
    if "dimensions" in m && m["dimensions"].Object? then
      map d <- m["dimensions"].fields :: if m["dimensions"].fields[d].Str? then m["dimensions"].fields[d].s else "null"
    else map[]
  }

  // The rollups of a flat map that become metrics.
  predicate IsDatum(p: Parser, m: Fields, k: string) {
    k in m && m[k].Number? && k != "dimensions" && !(p.ccEnabled && p.isRate(k))
  }

  // With cumulative counters on, the rollup becomes part of the name.
  function NameFor(p: Parser, k: string, name: string): string {
    if p.ccEnabled && k != "value" then name + "." + k else name
  }

  function TypeFor(p: Parser, k: string, metricType: string): string {
    if p.ccEnabled && k == "count" then CUMULATIVE_COUNTER else metricType
  }

  // metricFromMap, as a map from rollups to metrics.
  function FromMap(p: Parser, m: Fields, name: string, metricType: string): map<string, Metric> {
    map k | k in m && IsDatum(p, m, k) ::
      Metric(NameFor(p, k, name), TypeFor(p, k, metricType), m[k].n, map["rollup" := k] + OwnDimensions(m))
  }

  // It panics on "dimensions" that are not a map.
  predicate FromMapPanics(m: Fields) {
    "dimensions" in m && !m["dimensions"].Object?
  }

  // ---- The flat formats of the legacy parser ----

  // Every number outside skip, "count" being the only counter.
  function Datums(m: Fields, name: string, skip: set<string>): map<string, Metric> {
    map k | k in m && k !in skip && m[k].Number? ::
      Metric(name, if k == "count" then COUNTER else GAUGE, m[k].n, map["rollup" := k])
  }

  predicate UnitIn(m: Fields, units: set<string>) {
    "unit" in m && m["unit"].Str? && m["unit"].s in units
  }

  function Rate(m: Fields, name: string): map<string, Metric> {
    if UnitIn(m, {"seconds", "milliseconds"}) then Datums(m, name, {"unit"}) else map[]
  }

  // parseFlattenedMetricMap, where it does not panic.
  function Flat(p: Parser, m: Fields, name: string): map<string, Metric> {
    if "type" !in m || !m["type"].Str? then Rate(m, name)
    else
      var t := m["type"].s;
      if t == "gauge" then (if "value" in m then FromMap(p, m, name, "gauge") else map[])
      else if t == "histogram" then (if "count" in m then Datums(m, name, {"type"}) else map[])
      else if t == "counter" then (if "count" in m then FromMap(p, m, name, "counter") else map[])
      else if t == "meter" then
        (if "event_type" in m && UnitIn(m, {"seconds", "milliseconds", "minutes"})
         then Datums(m, name, {"unit", "event_type", "type"}) else map[])
      else Rate(m, name)
  }

  // It panics on a "type" that is not a string, and where metricFromMap does.
  predicate FlatPanics(m: Fields) {
    "type" in m &&
    (!m["type"].Str? ||
     (((m["type"].s == "gauge" && "value" in m) || (m["type"].s == "counter" && "count" in m)) && FromMapPanics(m)))
  }

  // Which rollups come out does not depend on the name.
  predicate Recognised(p: Parser, m: Fields) {
    Flat(p, m, "") != map[]
  }

  lemma FlatKeys(p: Parser, m: Fields, name: string)
    ensures Flat(p, m, name).Keys == Flat(p, m, "").Keys
    ensures Flat(p, m, name) != map[] <==> Recognised(p, m)
    ensures forall k <- Flat(p, m, name) :: k in m && m[k].Number?
  {
  }

  // ---- Maps as lists ----

  // results holds the metrics of a map once each, ids naming their keys.
  ghost predicate Lists<Id(!new)>(results: seq<Metric>, ids: seq<Id>, m: map<Id, Metric>) {
    && |results| == |ids| && NoRepeats(ids)
    && (forall k :: k in ids <==> k in m)
    && forall i :: 0 <= i < |ids| ==> results[i] == m[ids[i]]
  }

  lemma ListsAdd<Id(!new)>(results: seq<Metric>, ids: seq<Id>, m: map<Id, Metric>, k: Id, x: Metric)
    requires Lists(results, ids, m) && k !in m
    ensures Lists(results + [x], ids + [k], m[k := x])
  {
    forall i, j | 0 <= i < j < |ids + [k]| ensures (ids + [k])[i] != (ids + [k])[j] {
      assert ids[i] in ids;
    }
    forall i | 0 <= i < |ids| ensures results[i] == m[k := x][ids[i]] {
      assert ids[i] in ids;
    }
  }

  // results holds exactly the metrics that at gives, once each.
  ghost predicate Holds<K(!new)>(results: seq<Metric>, ids: seq<K>, at: K -> Option<Metric>) {
    && |results| == |ids| && NoRepeats(ids)
    && (forall i :: 0 <= i < |ids| ==> at(ids[i]) == Some(results[i]))
    && forall id :: at(id).Some? ==> id in ids
  }

  // Appending the metrics of one more source of ids.
  lemma HoldsJoin<K(!new)>(a: seq<Metric>, ia: seq<K>, fa: K -> Option<Metric>,
                           b: seq<Metric>, ib: seq<K>, fb: K -> Option<Metric>, f: K -> Option<Metric>)
    requires Holds(a, ia, fa) && Holds(b, ib, fb)
    requires forall id :: fa(id) == None || fb(id) == None
    requires forall id :: f(id) == if fa(id).Some? then fa(id) else fb(id)
    ensures Holds(a + b, ia + ib, f)
  {
    forall i, j | 0 <= i < j < |ia + ib| ensures (ia + ib)[i] != (ia + ib)[j] {
      assert i < |ia| ==> fa(ia[i]).Some?;
      assert j >= |ia| ==> fb(ib[j - |ia|]).Some?;
    }
    forall i | 0 <= i < |ia + ib| ensures f((ia + ib)[i]) == Some((a + b)[i]) {
      if i < |ia| {
        assert fa(ia[i]) == Some(a[i]);
      } else {
        assert fb(ib[i - |ia|]) == Some(b[i - |ia|]);
      }
    }
  }

  lemma HoldsSame<K(!new)>(results: seq<Metric>, ids: seq<K>, f: K -> Option<Metric>, g: K -> Option<Metric>)
    requires Holds(results, ids, f) && forall k :: f(k) == g(k)
    ensures Holds(results, ids, g)
  {
  }

  function Without<T>(s: seq<T>, j: nat): (r: seq<T>)
    requires j < |s|
    ensures |r| == |s| - 1
    ensures forall i :: 0 <= i < |r| ==> r[i] == if i < j then s[i] else s[i + 1]
  {
    s[..j] + s[j + 1..]
  }

  lemma WithoutCounts(s: seq<Metric>, j: nat)
    requires j < |s|
    ensures multiset(s) == multiset(Without(s, j)) + multiset{s[j]}
  {
    assert s == s[..j] + [s[j]] + s[j + 1..];
  }

  lemma StillIn<K(!new)>(s: seq<K>, j: nat, k: K)
    requires j < |s| && k in s && k != s[j]
    ensures k in Without(s, j)
  {
    var i :| 0 <= i < |s| && s[i] == k;
    assert Without(s, j)[if i < j then i else i - 1] == k;
  }

  lemma HoldsWithout<K(!new)>(a: seq<Metric>, ia: seq<K>, f: K -> Option<Metric>, j: nat)
    requires Holds(a, ia, f) && j < |ia|
    ensures Holds(Without(a, j), Without(ia, j), id => if id == ia[j] then None else f(id))
  {
    forall id | id != ia[j] && f(id).Some? ensures id in Without(ia, j) {
      StillIn(ia, j, id);
    }
  }

  // Two lists that hold the same metrics differ in their order only.
  lemma {:induction false} HoldsTheSame<K(!new)>(a: seq<Metric>, ia: seq<K>, b: seq<Metric>, ib: seq<K>,
                                                 f: K -> Option<Metric>)
    requires Holds(a, ia, f) && Holds(b, ib, f)
    ensures multiset(a) == multiset(b)
    decreases |ia|
  {
    var first := if ib == [] then None else f(ib[0]);
    if ia != [] {
      var k := ia[0];
      assert f(k) == Some(a[0]);
      var j :| 0 <= j < |ib| && ib[j] == k;
      HoldsWithout(a, ia, f, 0);
      HoldsWithout(b, ib, f, j);
      WithoutCounts(a, 0);
      WithoutCounts(b, j);
      HoldsTheSame(Without(a, 0), Without(ia, 0), Without(b, j), Without(ib, j), id => if id == k then None else f(id));
    }
  }

  // Adding dimensions to metrics; the added ones win.
  function WithDims(m: Metric, dims: Dimensions): Metric {
    m.(dimensions := m.dimensions + dims)
  }

  function WithDimsIfAny(m: Option<Metric>, dims: Dimensions): Option<Metric> {
    if m.None? then None else Some(WithDims(m.value, dims))
  }

  ghost predicate Overlaid(was: seq<Metric>, now: seq<Metric>, dims: Dimensions) {
    |now| == |was| && forall i :: 0 <= i < |was| ==> now[i] == WithDims(was[i], dims)
  }

  lemma HoldsOverlay<K(!new)>(was: seq<Metric>, now: seq<Metric>, ids: seq<K>, dims: Dimensions,
                              f: K -> Option<Metric>, g: K -> Option<Metric>)
    requires Holds(was, ids, f) && Overlaid(was, now, dims)
    requires forall id :: g(id) == WithDimsIfAny(f(id), dims)
    ensures Holds(now, ids, g)
  {
  }
}
