// Splitting a flushed batch by a dimension before emitting it: SignalFx.makeBatches
// (src/fullerite/handler/signalfx.go:177-192).
module Batching {
  import opened Metrics

  // A missing dimension reads as the empty string.
  function DimensionValue(m: Metric, dimension: string): string {
    if dimension in m.dimensions then m.dimensions[dimension] else ""
  }

  // The metrics whose dimension has one of some values, in their original order.
  function Select(metrics: seq<Metric>, dimension: string, values: set<string>): seq<Metric> {
    if metrics == [] then []
    else
      var last := metrics[|metrics| - 1];
      Select(metrics[..|metrics| - 1], dimension, values) +
      (if DimensionValue(last, dimension) in values then [last] else [])
  }

  ghost function ValuesOf(metrics: seq<Metric>, dimension: string): set<string> {
    set m <- metrics :: DimensionValue(m, dimension)
  }

  method MakeBatches(batchByDimension: string, metrics: seq<Metric>) returns (batches: map<string, seq<Metric>>)
    ensures batchByDimension == "" ==> batches == map["" := metrics]
    ensures batchByDimension != "" ==>
              && batches.Keys == ValuesOf(metrics, batchByDimension)
              && forall v <- batches :: batches[v] == Select(metrics, batchByDimension, {v}) && batches[v] != []
  {
    batches := map[];
    if batchByDimension == "" {
      return map["" := metrics];
    }
    for i := 0 to |metrics|
      invariant batches.Keys == ValuesOf(metrics[..i], batchByDimension)
      invariant forall v <- batches :: batches[v] == Select(metrics[..i], batchByDimension, {v}) && batches[v] != []
    {
      var m := metrics[i];
      assert metrics[..i + 1][..i] == metrics[..i];
      assert metrics[..i + 1] == metrics[..i] + [m];
      var dimValue := DimensionValue(m, batchByDimension);
      AbsentSelectsNothing(metrics[..i], batchByDimension, dimValue);
      batches := batches[dimValue := (if dimValue in batches then batches[dimValue] else []) + [m]];
    }
    assert metrics[..|metrics|] == metrics;
  }

  lemma {:induction false} AbsentSelectsNothing(metrics: seq<Metric>, dimension: string, v: string)
    ensures v !in ValuesOf(metrics, dimension) <==> Select(metrics, dimension, {v}) == []
  {
    if metrics != [] {
      var before, last := metrics[..|metrics| - 1], metrics[|metrics| - 1];
      assert metrics == before + [last];
      AbsentSelectsNothing(before, dimension, v);
    }
  }

  // The batches in some order of their names.
  function Parts(metrics: seq<Metric>, dimension: string, names: seq<string>): seq<seq<Metric>> {
    if names == [] then []
    else Parts(metrics, dimension, names[..|names| - 1]) + [Select(metrics, dimension, {names[|names| - 1]})]
  }

  ghost function NameSet(names: seq<string>): set<string> {
    set n <- names
  }

  // names lists the keys of the batch map once each: one possible map order.
  ghost predicate Enumerates(names: seq<string>, metrics: seq<Metric>, dimension: string) {
    NoRepeats(names) && NameSet(names) == ValuesOf(metrics, dimension)
  }

  lemma {:induction false} SelectSplits(metrics: seq<Metric>, dimension: string, values: set<string>, v: string)
    requires v !in values
    ensures multiset(Select(metrics, dimension, values + {v})) ==
            multiset(Select(metrics, dimension, values)) + multiset(Select(metrics, dimension, {v}))
  {
    if metrics != [] {
      SelectSplits(metrics[..|metrics| - 1], dimension, values, v);
    }
  }

  lemma {:induction false} SelectEverything(metrics: seq<Metric>, dimension: string, values: set<string>)
    requires ValuesOf(metrics, dimension) <= values
    ensures Select(metrics, dimension, values) == metrics
  {
    if metrics != [] {
      var before, last := metrics[..|metrics| - 1], metrics[|metrics| - 1];
      assert metrics == before + [last];
      assert ValuesOf(before, dimension) <= values;
      assert DimensionValue(last, dimension) in ValuesOf(metrics, dimension);
      SelectEverything(before, dimension, values);
    }
  }

  lemma {:induction false} SelectNone(metrics: seq<Metric>, dimension: string)
    ensures Select(metrics, dimension, {}) == []
  {
    if metrics != [] {
      SelectNone(metrics[..|metrics| - 1], dimension);
    }
  }

  lemma {:induction false} PartsSelect(metrics: seq<Metric>, dimension: string, names: seq<string>)
    requires NoRepeats(names)
    ensures multiset(Concat(Parts(metrics, dimension, names))) ==
            multiset(Select(metrics, dimension, NameSet(names)))
    ensures |Parts(metrics, dimension, names)| == |names|
  {
    if names == [] {
      SelectNone(metrics, dimension);
      assert NameSet(names) == {};
    } else {
      var before, last := names[..|names| - 1], names[|names| - 1];
      assert names == before + [last];
      PartsSelect(metrics, dimension, before);
      ConcatSnoc(Parts(metrics, dimension, before), Select(metrics, dimension, {last}));
      SelectSplits(metrics, dimension, NameSet(before), last);
      assert NameSet(names) == NameSet(before) + {last};
    }
  }

  // Whatever order the map is walked in, the batches hold every metric of the
  // flushed batch exactly once, so their reported sizes add up to its size.
  lemma PartsPartition(metrics: seq<Metric>, dimension: string, names: seq<string>)
    requires Enumerates(names, metrics, dimension)
    ensures multiset(Concat(Parts(metrics, dimension, names))) == multiset(metrics)
    ensures |Concat(Parts(metrics, dimension, names))| == |metrics|
  {
    PartsSelect(metrics, dimension, names);
    SelectEverything(metrics, dimension, NameSet(names));
    var all := Concat(Parts(metrics, dimension, names));
    assert |multiset(all)| == |all| && |multiset(metrics)| == |metrics|;
  }

  // There are never more batches than metrics.
  lemma FewParts(metrics: seq<Metric>, dimension: string, names: seq<string>)
    requires Enumerates(names, metrics, dimension)
    ensures |names| <= |metrics|
  {
    NamesAreASet(names);
    ValuesBound(metrics, dimension);
  }

  lemma {:induction false} NamesAreASet(names: seq<string>)
    requires NoRepeats(names)
    ensures |NameSet(names)| == |names|
  {
    if names != [] {
      var before, last := names[..|names| - 1], names[|names| - 1];
      assert names == before + [last];
      NamesAreASet(before);
      assert NameSet(names) == NameSet(before) + {last};
    }
  }

  lemma {:induction false} ValuesBound(metrics: seq<Metric>, dimension: string)
    ensures |ValuesOf(metrics, dimension)| <= |metrics|
  {
    if metrics != [] {
      var before, last := metrics[..|metrics| - 1], metrics[|metrics| - 1];
      assert metrics == before + [last];
      ValuesBound(before, dimension);
      assert ValuesOf(metrics, dimension) == ValuesOf(before, dimension) + {DimensionValue(last, dimension)};
    }
  }

  // ---- What is selected, metric by metric ----

  // Each metric has one value of a dimension: its own, or the empty text.
  predicate HasValue(m: Metric, dimension: string, v: string) {
    if dimension in m.dimensions then m.dimensions[dimension] == v else v == ""
  }

  // The batch of a value is the metrics that have it, in their order.
  lemma {:induction false} SelectIsInOrder(a: seq<Metric>, b: seq<Metric>, m: Metric, dimension: string, v: string)
    ensures Select(a + b, dimension, {v}) == Select(a, dimension, {v}) + Select(b, dimension, {v})
    ensures Select([m], dimension, {v}) == if HasValue(m, dimension, v) then [m] else []
  {
    assert [m][..0] == [];
    if b == [] {
      assert a + b == a;
    } else {
      assert (a + b)[..|a + b| - 1] == a + b[..|b| - 1];
      SelectIsInOrder(a, b[..|b| - 1], m, dimension, v);
    }
  }

  lemma {:induction false} SelectedHave(metrics: seq<Metric>, dimension: string, v: string)
    ensures IsPart(metrics, dimension, v, Select(metrics, dimension, {v}))
  {
    if metrics != [] {
      SelectedHave(metrics[..|metrics| - 1], dimension, v);
      assert metrics == metrics[..|metrics| - 1] + [metrics[|metrics| - 1]];
    }
  }

  // The metrics of one value.
  ghost predicate IsPart(metrics: seq<Metric>, dimension: string, v: string, part: seq<Metric>) {
    forall m :: m in part <==> m in metrics && HasValue(m, dimension, v)
  }

  // Every part is one value's metrics.
  lemma {:induction false} PartsAre(metrics: seq<Metric>, dimension: string, names: seq<string>)
    ensures |Parts(metrics, dimension, names)| == |names|
    ensures forall k :: 0 <= k < |names| ==>
              IsPart(metrics, dimension, names[k], Parts(metrics, dimension, names)[k])
  {
    if names != [] {
      PartsAre(metrics, dimension, names[..|names| - 1]);
      SelectedHave(metrics, dimension, names[|names| - 1]);
    }
  }
}
