// What the metrics of a parsed document say, entry by entry and key by key, written
// out with the texts of the format (src/fullerite/dropwizard/base_parser.go:99-187,
// uwsgi_metric.go:75-149).
module ParserMeaning {
  import opened Metrics
  import opened Dropwizard
  import opened BaseParser

  // ---- Dimensions ----

  // A dimension that a map gives its own metrics, null for what is no text.
  function OwnDimension(m: Fields, d: string): Option<string> {
    if "dimensions" in m && m["dimensions"].Object? && d in m["dimensions"].fields then
      Some(if m["dimensions"].fields[d].Str? then m["dimensions"].fields[d].s else "null")
    else None
  }

  // A dimension that the document gives its service.
  function ServiceText(service: Option<Fields>, d: string): Option<string> {
    if service.Some? && d in service.value && service.value[d].Str? then Some(service.value[d].s) else None
  }

  ghost predicate HasDimensions(x: Metric, dims: string -> Option<string>) {
    forall d :: if d in x.dimensions then dims(d) == Some(x.dimensions[d]) else dims(d) == None
  }

  // ---- Entries ----

  // The name and the fields of an entry in one of the five sections.
  function EntryIn(s: Section, it: Item): Option<(string, Fields)> {
    match (s, it)
    case (Named(mm), ByName(n)) => if n in mm then Some((n, mm[n])) else None
    case (Listed(arr), ByIndex(i)) =>
      if i < |arr| && "name" in arr[i] && arr[i]["name"].Str? then Some((arr[i]["name"].s, arr[i] - {"name"})) else None
    case _ => None
  }

  function EntryAt(d: Document, section: string, it: Item): Option<(string, Fields)> {
    if section == "gauge" then EntryIn(d.gauges, it)
    else if section == "counter" then EntryIn(d.counters, it)
    else if section == "histogram" then EntryIn(d.histograms, it)
    else if section == "meter" then EntryIn(d.meters, it)
    else if section == "timer" then EntryIn(d.timers, it)
    else None
  }

  // What a key of an entry becomes: with cumulative counters rates are left out, the
  // key becomes part of the name, and counts get a type of their own.
  predicate Reported(p: Parser, m: Fields, k: string) {
    k in m && m[k].Number? && k != "dimensions" && !(p.ccEnabled && p.isRate(k))
  }

  // The service's dimensions win over the section's type, that over the entry's own
  // dimensions, and those over the rollup.
  function DimensionIn(p: Parser, d: Document, section: string, m: Fields, k: string, dim: string): Option<string> {
    if ServiceText(Some(d.serviceDims), dim).Some? then ServiceText(Some(d.serviceDims), dim)
    else if !p.ccEnabled && dim == "type" then Some(section)
    else if OwnDimension(m, dim).Some? then OwnDimension(m, dim)
    else if dim == "rollup" then Some(k)
    else None
  }

  ghost predicate IsParsed(p: Parser, d: Document, section: string, name: string, m: Fields, k: string, x: Metric) {
    && k in m && m[k] == Number(x.value)
    && x.name == (if p.ccEnabled && k != "value" then name + "." + k else name)
    && x.metricType == (if p.ccEnabled && k == "count" then "cumcounter"
                        else if section == "counter" then "counter" else "gauge")
    && HasDimensions(x, dim => DimensionIn(p, d, section, m, k, dim))
  }

  // ---- Parsing ----

  lemma EntryMeans(d: Document, section: string, it: Item)
    requires section in SECTIONS
    ensures var es := EntriesOf(SectionOf(d, section));
            && (it in es <==> EntryAt(d, section, it).Some?)
            && (it in es ==> EntryAt(d, section, it) == Some((es[it].name, es[it].fields)))
  {
  }

  lemma OwnMeans(m: Fields, dim: string)
    ensures if dim in OwnDimensions(m) then OwnDimension(m, dim) == Some(OwnDimensions(m)[dim])
            else OwnDimension(m, dim) == None
  {
  }

  lemma ServiceMeans(service: Fields, dim: string)
    ensures if dim in ServiceDims(service) then ServiceText(Some(service), dim) == Some(ServiceDims(service)[dim])
            else ServiceText(Some(service), dim) == None
  {
  }

  lemma DimensionsMean(p: Parser, d: Document, section: string, m: Fields, k: string, x: Metric)
    requires x.dimensions == map["rollup" := k] + OwnDimensions(m) + TypeDims(p, section) + ServiceDims(d.serviceDims)
    ensures HasDimensions(x, dim => DimensionIn(p, d, section, m, k, dim))
  {
    forall dim
      ensures if dim in x.dimensions then DimensionIn(p, d, section, m, k, dim) == Some(x.dimensions[dim])
              else DimensionIn(p, d, section, m, k, dim) == None
    {
      OwnMeans(m, dim);
      ServiceMeans(d.serviceDims, dim);
    }
  }

  // The document gives a metric for just the reported keys of its entries, and that
  // metric says what they say.
  lemma ParseMeans(p: Parser, d: Document, id: Id)
    ensures var e, x := EntryAt(d, id.section, id.item), FinalAt(p, d, id);
            && (x.Some? <==> e.Some? && Reported(p, e.value.1, id.rollup))
            && (x.Some? ==> IsParsed(p, d, id.section, e.value.0, e.value.1, id.rollup, x.value))
  {
    if id.section in SECTIONS {
      EntryMeans(d, id.section, id.item);
      if FinalAt(p, d, id).Some? {
        var e := EntriesOf(SectionOf(d, id.section))[id.item];
        DimensionPrecedence(p, d, id);
        DimensionsMean(p, d, id.section, e.fields, id.rollup, FinalAt(p, d, id).value);
      }
    }
  }

  // What Parse returns, metric by metric.
  lemma ParsedResultsMean(p: Parser, d: Document, results: seq<Metric>, ids: seq<Id>)
    requires Holds(results, ids, id => FinalAt(p, d, id))
    ensures |results| == |ids| && NoRepeats(ids)
    ensures forall id ::
              id in ids <==>
              var e := EntryAt(d, id.section, id.item); e.Some? && Reported(p, e.value.1, id.rollup)
    ensures forall i :: 0 <= i < |ids| ==>
              var e := EntryAt(d, ids[i].section, ids[i].item);
              e.Some? && IsParsed(p, d, ids[i].section, e.value.0, e.value.1, ids[i].rollup, results[i])
  {
    forall id
      ensures id in ids <==> var e := EntryAt(d, id.section, id.item); e.Some? && Reported(p, e.value.1, id.rollup)
    {
      ParseMeans(p, d, id);
    }
    forall i | 0 <= i < |ids|
      ensures var e := EntryAt(d, ids[i].section, ids[i].item);
              e.Some? && IsParsed(p, d, ids[i].section, e.value.0, e.value.1, ids[i].rollup, results[i])
    {
      ParseMeans(p, d, ids[i]);
    }
  }

  // Dimensions that are no map, or a name that is no text.
  predicate Malformed(m: Fields) {
    "dimensions" in m && !m["dimensions"].Object?
  }

  predicate BadSection(s: Section) {
    match s
    case Named(mm) => exists n <- mm :: Malformed(mm[n])
    case Listed(arr) => exists i :: 0 <= i < |arr| && "name" in arr[i] && (!arr[i]["name"].Str? || Malformed(arr[i]))
  }

  lemma BadSectionPanics(s: Section)
    ensures SectionPanics(s) <==> BadSection(s)
  {
    if s.Named? {
      assert forall n <- s.mm :: FromMapPanics(s.mm[n]) <==> Malformed(s.mm[n]);
    } else {
      forall i | 0 <= i < |s.arr|
        ensures ElementPanics(s.arr[i]) <==>
                "name" in s.arr[i] && (!s.arr[i]["name"].Str? || Malformed(s.arr[i]))
      {
      }
    }
  }

  // What crashes Parse: a malformed entry, or a service dimension that is no text.
  lemma ParsePanicsMean(d: Document)
    ensures DocumentPanics(d) <==>
            BadSection(d.gauges) || BadSection(d.counters) || BadSection(d.histograms) ||
            BadSection(d.meters) || BadSection(d.timers)
    ensures !ServiceDimsOk(d.serviceDims) <==> exists k :: k in d.serviceDims && !d.serviceDims[k].Str?
  {
    BadSectionPanics(d.gauges);
    BadSectionPanics(d.counters);
    BadSectionPanics(d.histograms);
    BadSectionPanics(d.meters);
    BadSectionPanics(d.timers);
    assert SECTIONS == ["gauge", "counter", "histogram", "meter", "timer"];
    assert SECTIONS[0] in SECTIONS && SECTIONS[1] in SECTIONS && SECTIONS[2] in SECTIONS &&
           SECTIONS[3] in SECTIONS && SECTIONS[4] in SECTIONS;
  }
}
