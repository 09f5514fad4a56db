// Metrics that own a dimension map, and the overlays the uwsgi and dropwizard
// parsers write through those maps (src/fullerite/metric/metric.go:44-102,
// src/fullerite/dropwizard/base_parser.go:99-187, uwsgi_metric.go:75-149).
module BaseParser {
  import opened Metrics
  import opened Dropwizard

  // A Go map value: a reference to shared storage.
  class DimensionMap {
    var m: Dimensions

    constructor ()
      ensures m == map[]
    {
      m := map[];
    }
  }

  // The Metric struct; dims may be nil.
  datatype GoMetric = GoMetric(name: string, metricType: string, value: real, dims: DimensionMap?)

  ghost function Maps(metrics: seq<GoMetric>): set<object> {
    set x <- metrics | x.dims != null :: x.dims as object
  }

  ghost predicate OwnMaps(metrics: seq<GoMetric>) {
    forall x <- metrics :: x.dims != null
  }

  ghost function ViewOne(x: GoMetric): Metric
    reads x.dims
  {
    Metric(x.name, x.metricType, x.value, if x.dims == null then map[] else x.dims.m)
  }

  // What a list of metrics says at the moment.
  ghost function View(metrics: seq<GoMetric>): (v: seq<Metric>)
    reads Maps(metrics)
    ensures |v| == |metrics|
  {
    seq(|metrics|, i requires 0 <= i < |metrics| reads Maps(metrics) => ViewOne(metrics[i]))
  }

  function Overlay(m: map<string, Metric>, dims: Dimensions): map<string, Metric> {
    map k <- m :: WithDims(m[k], dims)
  }

  // AddToAll ranges over copies of the structs, so it reaches a metric only
  // through the map it shares with the copy: one without a map stays bare.
  method AddToAll(metrics: seq<GoMetric>, dims: Dimensions)
    modifies Maps(metrics)
    ensures forall x <- metrics :: x.dims != null ==> x.dims.m == old(x.dims.m) + dims
  {
    ghost var done: set<object> := {};
    for i := 0 to |metrics|
      invariant forall j :: 0 <= j < i ==> metrics[j].dims != null ==> metrics[j].dims as object in done
      invariant forall x <- metrics :: x.dims != null ==>
                  x.dims.m == if x.dims as object in done then old(x.dims.m) + dims else old(x.dims.m)
    {
      var m := metrics[i];
      assert m in metrics;
      if m.dims != null {
        done := done + {m.dims};
      }
      m := AddDimensions(m, dims);
    }
  }

  // The loop over dims, in any order. On a struct without a map (here the
  // range copy) the map is created in the struct at hand.
  method AddDimensions(m: GoMetric, dims: Dimensions) returns (m': GoMetric)
    modifies m.dims
    ensures m.dims != null ==> m' == m && m.dims.m == old(m.dims.m) + dims
    ensures m.dims == null && m'.dims != null ==> fresh(m'.dims)
  {
    m' := m;
    var rest := dims.Keys;
    while rest != {}
      invariant rest <= dims.Keys
      invariant m.dims != null ==> m' == m && m.dims.m == old(m.dims.m) + (dims - rest)
      invariant m.dims == null ==> m'.dims == null || fresh(m'.dims)
      decreases |rest|
    {
      var key :| key in rest;
      if m.dims != null {
        OverlayOneMore(old(m.dims.m), dims, rest, key);
      }
      rest := rest - {key};
      m' := AddDimension(m', key, dims[key]);
    }
    assert dims - {} == dims;
  }

  lemma OverlayOneMore(base: Dimensions, dims: Dimensions, rest: set<string>, key: string)
    requires key in rest && rest <= dims.Keys
    ensures base + (dims - (rest - {key})) == (base + (dims - rest))[key := dims[key]]
  {
  }

  method AddDimension(m: GoMetric, name: string, value: string) returns (m': GoMetric)
    modifies m.dims
    ensures m.dims != null ==> m' == m && m.dims.m == old(m.dims.m)[name := value]
    ensures m.dims == null ==>
              fresh(m'.dims) && m'.dims != null && m' == m.(dims := m'.dims) && m'.dims.m == map[name := value]
  {
    m' := m;
    if m'.dims == null {
      var created := new DimensionMap();
      m' := m'.(dims := created);
    }
    m'.dims.m := m'.dims.m[name := value];
  }

  lemma ViewAppend(a: seq<GoMetric>, b: seq<GoMetric>)
    ensures View(a + b) == View(a) + View(b)
  {
  }

  lemma ListsOverlay(was: seq<Metric>, now: seq<Metric>, ids: seq<string>, m: map<string, Metric>, dims: Dimensions)
    requires Lists(was, ids, m) && Overlaid(was, now, dims)
    ensures Lists(now, ids, Overlay(m, dims))
  {
    forall i | 0 <= i < |ids| ensures now[i] == Overlay(m, dims)[ids[i]] {
      assert ids[i] in ids;
    }
  }

  // AddToAll on metrics that own their maps is exactly an overlay.
  method OverlayAll(metrics: seq<GoMetric>, dims: Dimensions)
    requires OwnMaps(metrics)
    modifies Maps(metrics)
    ensures Overlaid(old(View(metrics)), View(metrics), dims)
  {
    AddToAll(metrics, dims);
    forall i | 0 <= i < |metrics| ensures View(metrics)[i] == WithDims(old(View(metrics))[i], dims) {
      assert metrics[i] in metrics;
    }
  }

  // ---- metricFromMap ----

  // The inner loop over a map's own dimensions, in any order.
  method ReadDimensions(fields: Fields) returns (dims: Dimensions)
    ensures dims == map d <- fields :: if fields[d].Str? then fields[d].s else "null"
  {
    dims := map[];
    var rest := fields.Keys;
    while rest != {}
      invariant rest <= fields.Keys
      invariant dims == map d | d in fields && d !in rest :: if fields[d].Str? then fields[d].s else "null"
      decreases |rest|
    {
      var d :| d in rest;
      rest := rest - {d};
      dims := dims[d := if fields[d].Str? then fields[d].s else "null"];
    }
  }

  // The metrics before their own dimensions are laid over them.
  function Bare(p: Parser, m: Fields, name: string, metricType: string, rest: set<string>): map<string, Metric> {
    map k | k in m && k !in rest && IsDatum(p, m, k) ::
      Metric(NameFor(p, k, name), TypeFor(p, k, metricType), m[k].n, map["rollup" := k])
  }

  lemma BareStep(p: Parser, m: Fields, name: string, metricType: string, rest: set<string>, k: string)
    requires k in rest && k in m
    ensures Bare(p, m, name, metricType, rest - {k}) ==
            if IsDatum(p, m, k) then
              Bare(p, m, name, metricType, rest)
                [k := Metric(NameFor(p, k, name), TypeFor(p, k, metricType), m[k].n, map["rollup" := k])]
            else Bare(p, m, name, metricType, rest)
    ensures k !in Bare(p, m, name, metricType, rest)
  {
  }

  // createMetricFromDatam: the new metric owns a new map.
  method CreateMetric(rollup: string, value: Json, name: string, metricType: string) returns (x: GoMetric, ok: bool)
    ensures x.dims != null && fresh(x.dims) && ok == value.Number?
    ensures ok ==> ViewOne(x) == Metric(name, metricType, value.n, map["rollup" := rollup])
  {
    var owned := new DimensionMap();
    x := AddDimension(GoMetric(name, metricType, 0.0, owned), "rollup", rollup);
    ok := value.Number?;
    if ok {
      x := x.(value := value.n);
    }
  }

  // One turn of metricFromMap's loop on a rollup that is not "dimensions".
  method AddDatum(p: Parser, m: Fields, name: string, metricType: string, ghost rest: set<string>, rollup: string,
                  results: seq<GoMetric>, ghost ids: seq<string>)
    returns (results': seq<GoMetric>, ghost ids': seq<string>)
    requires rollup in rest && rollup in m && rollup != "dimensions"
    requires OwnMaps(results) && Lists(View(results), ids, Bare(p, m, name, metricType, rest))
    ensures forall x <- results' :: x in results || (x.dims != null && fresh(x.dims))
    ensures Lists(View(results'), ids', Bare(p, m, name, metricType, rest - {rollup}))
  {
    results', ids' := results, ids;
    BareStep(p, m, name, metricType, rest, rollup);
    if p.ccEnabled && p.isRate(rollup) {
      return;
    }
    var mName, mType := name, metricType;
    if p.ccEnabled && rollup != "value" {
      mName := name + "." + rollup;
      if rollup == "count" {
        mType := CUMULATIVE_COUNTER;
      }
    }
    var x, ok := CreateMetric(rollup, m[rollup], mName, mType);
    if ok {
      ListsAdd(View(results), ids, Bare(p, m, name, metricType, rest), rollup, ViewOne(x));
      ViewAppend(results, [x]);
      results', ids' := results + [x], ids + [rollup];
    }
  }

  // For every order of the map: one metric for each numeric rollup, whose own
  // dimensions win over the rollup.
  method MetricFromMap(p: Parser, m: Fields, name: string, metricType: string)
    returns (panicked: bool, results: seq<GoMetric>, ghost ids: seq<string>)
    ensures panicked == FromMapPanics(m)
    ensures forall x <- results :: x.dims != null && fresh(x.dims)
    ensures !panicked ==> Lists(View(results), ids, FromMap(p, m, name, metricType))
  {
    panicked, results, ids := false, [], [];
    var dims: Dimensions := map[];
    var rest := m.Keys;
    while rest != {}
      invariant rest <= m.Keys
      invariant forall x <- results :: x.dims != null && fresh(x.dims)
      invariant Lists(View(results), ids, Bare(p, m, name, metricType, rest))
      invariant if "dimensions" in rest then dims == map[] else dims == OwnDimensions(m) && !FromMapPanics(m)
      decreases |rest|
    {
      var rollup :| rollup in rest;
      if rollup == "dimensions" {
        if !m[rollup].Object? {
          return true, [], [];
        }
        BareStep(p, m, name, metricType, rest, rollup);
        dims := ReadDimensions(m[rollup].fields);
      } else {
        results, ids := AddDatum(p, m, name, metricType, rest, rollup, results, ids);
      }
      rest := rest - {rollup};
    }
    ghost var was := View(results);
    OverlayAll(results, dims);
    ListsOverlay(was, View(results), ids, Bare(p, m, name, metricType, {}), dims);
    BareOverlay(p, m, name, metricType);
  }

  lemma BareOverlay(p: Parser, m: Fields, name: string, metricType: string)
    ensures Overlay(Bare(p, m, name, metricType, {}), OwnDimensions(m)) == FromMap(p, m, name, metricType)
    ensures "dimensions" !in m ==> OwnDimensions(m) == map[]
  {
  }

  // ---- The sections of a parsed document ----

  // Where a metric of a document comes from. A section's entries are found by
  // name or, in the newer format, by position.
  datatype Item = ByName(name: string) | ByIndex(i: nat)
  datatype Id = Id(section: string, item: Item, rollup: string)

  datatype Entry = Entry(name: string, fields: Fields)
  type Entries = map<Item, Entry>

  // The metric a section's entries give for an id, before the overlays.
  function MetricAt(p: Parser, section: string, entries: Entries, metricType: string, id: Id): Option<Metric> {
    if id.section != section || id.item !in entries then None
    else
      var e := entries[id.item];
      var m := FromMap(p, e.fields, e.name, metricType);
      if id.rollup in m then Some(m[id.rollup]) else None
  }

  function Tagged(section: string, item: Item, rollups: seq<string>): seq<Id> {
    seq(|rollups|, i requires 0 <= i < |rollups| => Id(section, item, rollups[i]))
  }

  lemma HoldsOneEntry(p: Parser, section: string, it: Item, e: Entry, metricType: string,
                      results: seq<Metric>, rollups: seq<string>)
    requires Lists(results, rollups, FromMap(p, e.fields, e.name, metricType))
    ensures Holds(results, Tagged(section, it, rollups), id => MetricAt(p, section, map[it := e], metricType, id))
  {
    var ids := Tagged(section, it, rollups);
    forall i | 0 <= i < |ids| ensures MetricAt(p, section, map[it := e], metricType, ids[i]) == Some(results[i]) {
      assert rollups[i] in rollups;
    }
    forall id | MetricAt(p, section, map[it := e], metricType, id).Some? ensures id in ids {
      assert id.rollup in rollups;
      var i :| 0 <= i < |rollups| && rollups[i] == id.rollup;
      assert ids[i] == id;
    }
  }

  // The loop bodies of parseMapOfMap and parseArrOfMap.
  method AppendEntry(p: Parser, section: string, it: Item, e: Entry, metricType: string,
                     results: seq<GoMetric>, ghost ids: seq<Id>, ghost done: Entries)
    returns (panicked: bool, results': seq<GoMetric>, ghost ids': seq<Id>)
    requires OwnMaps(results) && it !in done
    requires Holds(View(results), ids, id => MetricAt(p, section, done, metricType, id))
    ensures panicked == FromMapPanics(e.fields)
    ensures forall x <- results' :: x in results || (x.dims != null && fresh(x.dims))
    ensures !panicked ==> Holds(View(results'), ids', id => MetricAt(p, section, done[it := e], metricType, id))
  {
    var temp;
    ghost var rollups;
    panicked, temp, rollups := MetricFromMap(p, e.fields, e.name, metricType);
    results', ids' := results, ids;
    if !panicked {
      HoldsOneEntry(p, section, it, e, metricType, View(temp), rollups);
      HoldsJoin(View(results), ids, id => MetricAt(p, section, done, metricType, id),
                View(temp), Tagged(section, it, rollups), id => MetricAt(p, section, map[it := e], metricType, id),
                id => MetricAt(p, section, done[it := e], metricType, id));
      ViewAppend(results, temp);
      results', ids' := results + temp, ids + Tagged(section, it, rollups);
    }
  }

  function NamedEntries(mm: map<string, Fields>): Entries {
    map n <- mm :: ByName(n) := Entry(n, mm[n])
  }

  lemma NamedEntriesGrow(mm: map<string, Fields>, rest: set<string>, n: string)
    requires n in rest && rest <= mm.Keys
    ensures NamedEntries(mm - (rest - {n})) == NamedEntries(mm - rest)[ByName(n) := Entry(n, mm[n])]
    ensures ByName(n) !in NamedEntries(mm - rest)
  {
  }

  method ParseMapOfMap(p: Parser, section: string, mm: map<string, Fields>, metricType: string)
    returns (panicked: bool, results: seq<GoMetric>, ghost ids: seq<Id>)
    ensures panicked <==> exists n <- mm :: FromMapPanics(mm[n])
    ensures forall x <- results :: x.dims != null && fresh(x.dims)
    ensures !panicked ==> Holds(View(results), ids, id => MetricAt(p, section, NamedEntries(mm), metricType, id))
  {
    panicked, results, ids := false, [], [];
    var rest := mm.Keys;
    while rest != {}
      invariant rest <= mm.Keys && !panicked
      invariant forall n <- mm :: n !in rest ==> !FromMapPanics(mm[n])
      invariant forall x <- results :: x.dims != null && fresh(x.dims)
      invariant Holds(View(results), ids, id => MetricAt(p, section, NamedEntries(mm - rest), metricType, id))
      decreases |rest|
    {
      var n :| n in rest;
      NamedEntriesGrow(mm, rest, n);
      panicked, results, ids :=
        AppendEntry(p, section, ByName(n), Entry(n, mm[n]), metricType, results, ids, NamedEntries(mm - rest));
      rest := rest - {n};
      if panicked {
        return;
      }
    }
    assert mm - {} == mm;
  }

  // An element without a "name" is skipped; the name itself is taken out.
  function IndexedEntries(arr: seq<Fields>): Entries {
    map i: nat | i < |arr| && "name" in arr[i] && arr[i]["name"].Str? ::
      ByIndex(i) := Entry(arr[i]["name"].s, arr[i] - {"name"})
  }

  lemma IndexedEntriesGrow(arr: seq<Fields>, m: Fields)
    ensures IndexedEntries(arr + [m]) ==
            if "name" in m && m["name"].Str? then
              IndexedEntries(arr)[ByIndex(|arr|) := Entry(m["name"].s, m - {"name"})]
            else IndexedEntries(arr)
    ensures ByIndex(|arr|) !in IndexedEntries(arr)
  {
  }

  predicate ElementPanics(m: Fields) {
    "name" in m && (!m["name"].Str? || FromMapPanics(m - {"name"}))
  }

  method ParseArrOfMap(p: Parser, section: string, arr: seq<Fields>, metricType: string)
    returns (panicked: bool, results: seq<GoMetric>, ghost ids: seq<Id>)
    ensures panicked <==> exists i :: 0 <= i < |arr| && ElementPanics(arr[i])
    ensures forall x <- results :: x.dims != null && fresh(x.dims)
    ensures !panicked ==> Holds(View(results), ids, id => MetricAt(p, section, IndexedEntries(arr), metricType, id))
  {
    panicked, results, ids := false, [], [];
    for i := 0 to |arr|
      invariant !panicked && forall j :: 0 <= j < i ==> !ElementPanics(arr[j])
      invariant forall x <- results :: x.dims != null && fresh(x.dims)
      invariant Holds(View(results), ids, id => MetricAt(p, section, IndexedEntries(arr[..i]), metricType, id))
    {
      assert arr[..i + 1] == arr[..i] + [arr[i]];
      IndexedEntriesGrow(arr[..i], arr[i]);
      if "name" in arr[i] {
        if !arr[i]["name"].Str? {
          return true, [], [];
        }
        panicked, results, ids := AppendEntry(p, section, ByIndex(i), Entry(arr[i]["name"].s, arr[i] - {"name"}),
                                              metricType, results, ids, IndexedEntries(arr[..i]));
        if panicked {
          return;
        }
      }
    }
    assert arr[..|arr|] == arr;
  }

  // ---- Whole documents ----

  datatype Section = Named(mm: map<string, Fields>) | Listed(arr: seq<Fields>)

  datatype Document = Document(
    gauges: Section, counters: Section, histograms: Section, meters: Section, timers: Section,
    serviceDims: Fields)

  const SECTIONS: seq<string> := ["gauge", "counter", "histogram", "meter", "timer"]

  function SectionOf(d: Document, name: string): Section {
    if name == "gauge" then d.gauges
    else if name == "counter" then d.counters
    else if name == "histogram" then d.histograms
    else if name == "meter" then d.meters
    else d.timers
  }

  function TypeOf(name: string): string {
    if name == "counter" then "counter" else "gauge"
  }

  function EntriesOf(s: Section): Entries {
    match s
    case Named(mm) => NamedEntries(mm)
    case Listed(arr) => IndexedEntries(arr)
  }

  predicate SectionPanics(s: Section) {
    match s
    case Named(mm) => exists n <- mm :: FromMapPanics(mm[n])
    case Listed(arr) => exists i :: 0 <= i < |arr| && ElementPanics(arr[i])
  }

  // The "type" dimension is left out under cumulative counters.
  function TypeDims(p: Parser, section: string): Dimensions {
    if p.ccEnabled then map[] else map["type" := section]
  }

  // The metrics of the sections in names, with their "type" dimension.
  function DocumentAt(p: Parser, d: Document, names: seq<string>, id: Id): Option<Metric> {
    if id.section !in names then None
    else
      var name := id.section;
      WithDimsIfAny(MetricAt(p, name, EntriesOf(SectionOf(d, name)), TypeOf(name), id), TypeDims(p, name))
  }

  lemma NoDimsChangesNothing(m: Option<Metric>)
    ensures WithDimsIfAny(m, map[]) == m
  {
    if m.Some? {
      assert m.value.dimensions + map[] == m.value.dimensions;
    }
  }

  // One section, parsed and given its "type" dimension.
  method ParseSection(p: Parser, d: Document, name: string)
    returns (panicked: bool, results: seq<GoMetric>, ghost ids: seq<Id>)
    ensures panicked == SectionPanics(SectionOf(d, name))
    ensures forall x <- results :: x.dims != null && fresh(x.dims)
    ensures !panicked ==> Holds(View(results), ids, id => DocumentAt(p, d, [name], id))
  {
    match SectionOf(d, name) {
      case Named(mm) => panicked, results, ids := ParseMapOfMap(p, name, mm, TypeOf(name));
      case Listed(arr) => panicked, results, ids := ParseArrOfMap(p, name, arr, TypeOf(name));
    }
    if panicked {
      return;
    }
    ghost var plain := (id: Id) => MetricAt(p, name, EntriesOf(SectionOf(d, name)), TypeOf(name), id);
    ghost var typed := (id: Id) => DocumentAt(p, d, [name], id);
    if !p.ccEnabled {
      ghost var was := View(results);
      OverlayAll(results, map["type" := name]);
      HoldsOverlay(was, View(results), ids, map["type" := name], plain, typed);
    } else {
      forall id ensures typed(id) == plain(id) {
        NoDimsChangesNothing(plain(id));
      }
    }
  }

  // appendIt applied to one section.
  method AppendIt(p: Parser, d: Document, name: string, results: seq<GoMetric>, ghost ids: seq<Id>,
                  ghost done: seq<string>)
    returns (panicked: bool, results': seq<GoMetric>, ghost ids': seq<Id>)
    requires OwnMaps(results) && name !in done
    requires Holds(View(results), ids, id => DocumentAt(p, d, done, id))
    ensures panicked == SectionPanics(SectionOf(d, name))
    ensures forall x <- results' :: x in results || (x.dims != null && fresh(x.dims))
    ensures !panicked ==> Holds(View(results'), ids', id => DocumentAt(p, d, done + [name], id))
  {
    var temp;
    ghost var tempIds;
    panicked, temp, tempIds := ParseSection(p, d, name);
    results', ids' := results, ids;
    if !panicked {
      HoldsJoin(View(results), ids, id => DocumentAt(p, d, done, id),
                View(temp), tempIds, id => DocumentAt(p, d, [name], id),
                id => DocumentAt(p, d, done + [name], id));
      ViewAppend(results, temp);
      results', ids' := results + temp, ids + tempIds;
    }
  }

  predicate DocumentPanics(d: Document) {
    exists name <- SECTIONS :: SectionPanics(SectionOf(d, name))
  }

  method ExtractParsedMetric(p: Parser, d: Document)
    returns (panicked: bool, results: seq<GoMetric>, ghost ids: seq<Id>)
    ensures panicked == DocumentPanics(d)
    ensures forall x <- results :: x.dims != null && fresh(x.dims)
    ensures !panicked ==> Holds(View(results), ids, id => DocumentAt(p, d, SECTIONS, id))
  {
    panicked, results, ids := false, [], [];
    for i := 0 to |SECTIONS|
      invariant !panicked && forall j :: 0 <= j < i ==> !SectionPanics(SectionOf(d, SECTIONS[j]))
      invariant forall x <- results :: x.dims != null && fresh(x.dims)
      invariant Holds(View(results), ids, id => DocumentAt(p, d, SECTIONS[..i], id))
    {
      panicked, results, ids := AppendIt(p, d, SECTIONS[i], results, ids, SECTIONS[..i]);
      if panicked {
        assert SECTIONS[i] in SECTIONS;
        return;
      }
      assert SECTIONS[..i + 1] == SECTIONS[..i] + [SECTIONS[i]];
    }
    assert SECTIONS[..|SECTIONS|] == SECTIONS;
  }

  predicate ServiceDimsOk(fields: Fields) {
    forall k <- fields :: fields[k].Str?
  }

  function ServiceDims(fields: Fields): Dimensions {
    map k | k in fields && fields[k].Str? :: fields[k].s
  }

  // The metric a document gives for an id, every overlay applied.
  function FinalAt(p: Parser, d: Document, id: Id): Option<Metric> {
    WithDimsIfAny(DocumentAt(p, d, SECTIONS, id), ServiceDims(d.serviceDims))
  }

  // One AddToAll for each service dimension, in any order.
  method AddServiceDims(results: seq<GoMetric>, fields: Fields) returns (panicked: bool)
    requires OwnMaps(results)
    modifies Maps(results)
    ensures panicked == !ServiceDimsOk(fields)
    ensures !panicked ==> Overlaid(old(View(results)), View(results), ServiceDims(fields))
  {
    ghost var was := View(results);
    var rest := fields.Keys;
    OverlaidNothing(was, fields);
    while rest != {}
      invariant rest <= fields.Keys && ServiceDimsOk(fields - rest)
      invariant Overlaid(was, View(results), ServiceDims(fields - rest))
      decreases |rest|
    {
      var k :| k in rest;
      if !fields[k].Str? {
        return true;
      }
      ghost var before := View(results);
      OverlayAll(results, map[k := fields[k].s]);
      OverlaidOneMore(was, before, View(results), fields, rest, k);
      rest := rest - {k};
    }
    panicked := false;
    assert fields - {} == fields;
  }

  lemma OverlaidNothing(v: seq<Metric>, fields: Fields)
    ensures ServiceDimsOk(fields - fields.Keys) && Overlaid(v, v, ServiceDims(fields - fields.Keys))
  {
    assert fields - fields.Keys == map[];
    assert ServiceDims(map[]) == map[];
    forall i | 0 <= i < |v| ensures v[i] == WithDims(v[i], map[]) {
      assert v[i].dimensions + map[] == v[i].dimensions;
    }
  }

  lemma OverlaidOneMore(was: seq<Metric>, before: seq<Metric>, now: seq<Metric>, fields: Fields, rest: set<string>,
                        k: string)
    requires k in rest && rest <= fields.Keys && fields[k].Str? && ServiceDimsOk(fields - rest)
    requires Overlaid(was, before, ServiceDims(fields - rest)) && Overlaid(before, now, map[k := fields[k].s])
    ensures ServiceDimsOk(fields - (rest - {k}))
    ensures Overlaid(was, now, ServiceDims(fields - (rest - {k})))
  {
    ServiceDimsGrow(fields, rest, k);
    OverlaidTwice(was, before, now, ServiceDims(fields - rest), map[k := fields[k].s]);
  }

  lemma ServiceDimsGrow(fields: Fields, rest: set<string>, k: string)
    requires k in rest && rest <= fields.Keys && fields[k].Str? && ServiceDimsOk(fields - rest)
    ensures ServiceDimsOk(fields - (rest - {k}))
    ensures ServiceDims(fields - (rest - {k})) == ServiceDims(fields - rest) + map[k := fields[k].s]
  {
    var more := fields - (rest - {k});
    forall j | j in more ensures more[j].Str? {
      assert j == k || j in fields - rest;
    }
  }

  // Parse, from the decoded document on.
  method Parse(p: Parser, d: Document) returns (panicked: bool, results: seq<GoMetric>, ghost ids: seq<Id>)
    ensures panicked <==> DocumentPanics(d) || !ServiceDimsOk(d.serviceDims)
    ensures forall x <- results :: x.dims != null && fresh(x.dims)
    ensures !panicked ==> Holds(View(results), ids, id => FinalAt(p, d, id))
  {
    panicked, results, ids := ExtractParsedMetric(p, d);
    if panicked {
      return;
    }
    ghost var was := View(results);
    panicked := AddServiceDims(results, d.serviceDims);
    if !panicked {
      HoldsOverlay(was, View(results), ids, ServiceDims(d.serviceDims),
                   id => DocumentAt(p, d, SECTIONS, id), id => FinalAt(p, d, id));
    }
  }

  lemma PlusAssociates(a: Dimensions, b: Dimensions, c: Dimensions)
    ensures (a + b) + c == a + (b + c)
  {
  }

  lemma OverlaidTwice(a: seq<Metric>, b: seq<Metric>, c: seq<Metric>, x: Dimensions, y: Dimensions)
    requires Overlaid(a, b, x) && Overlaid(b, c, y)
    ensures Overlaid(a, c, x + y)
  {
    forall i | 0 <= i < |a| ensures c[i] == WithDims(a[i], x + y) {
      PlusAssociates(a[i].dimensions, x, y);
    }
  }

  // So a metric's dimensions are its rollup, overridden by its own
  // "dimensions", then by its section's type, then by the service dimensions.
  lemma DimensionPrecedence(p: Parser, d: Document, id: Id)
    requires FinalAt(p, d, id).Some?
    ensures var e := EntriesOf(SectionOf(d, id.section))[id.item];
            FinalAt(p, d, id).value.dimensions ==
            map["rollup" := id.rollup] + OwnDimensions(e.fields) + TypeDims(p, id.section) + ServiceDims(d.serviceDims)
  {
  }
}
