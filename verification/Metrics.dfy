// The metric value that travels from collectors to handlers, and the multiset
// bookkeeping every delivery argument needs (src/fullerite/metric/metric.go).
module Metrics {

  datatype Option<+T> = None | Some(value: T)

  type Dimensions = map<string, string>

  datatype Metric = Metric(name: string, metricType: string, value: real, dimensions: Dimensions)

  // A closed Go channel yields this value, so a listener reads it as "stop".
  predicate ZeroValue(m: Metric) {
    m == Metric("", "", 0.0, map[])
  }

  // Forces a listener to flush whatever it has buffered.
  predicate Sentinel(m: Metric) {
    m.name == "fullerite.emit_now"
  }

  ghost predicate NoRepeats<T(!new)>(s: seq<T>) {
    forall i, j :: 0 <= i < j < |s| ==> s[i] != s[j]
  }

  function Concat<T>(batches: seq<seq<T>>): seq<T> {
    if batches == [] then [] else Concat(batches[..|batches| - 1]) + batches[|batches| - 1]
  }

  lemma {:induction false} ConcatAppend<T>(a: seq<seq<T>>, b: seq<seq<T>>)
    ensures Concat(a + b) == Concat(a) + Concat(b)
  {
    if b == [] {
      assert a + b == a;
    } else {
      var n := |b| - 1;
      var all := a + b;
      assert all[..|all| - 1] == a + b[..n] && all[|all| - 1] == b[n];
      ConcatAppend(a, b[..n]);
      Regroup(Concat(a), Concat(b[..n]), b[n]);
    }
  }

  lemma Regroup<T>(a: seq<T>, b: seq<T>, c: seq<T>)
    ensures (a + b) + c == a + (b + c)
  {
  }

  lemma ConcatOne<T>(batch: seq<T>)
    ensures Concat([batch]) == batch
  {
    assert [batch][..0] == [];
  }

  lemma ConcatSnoc<T>(batches: seq<seq<T>>, batch: seq<T>)
    ensures Concat(batches + [batch]) == Concat(batches) + batch
  {
    assert (batches + [batch])[..|batches|] == batches;
  }

  lemma ConcatCons<T>(batch: seq<T>, batches: seq<seq<T>>)
    ensures Concat([batch] + batches) == batch + Concat(batches)
  {
    ConcatAppend([batch], batches);
    ConcatOne(batch);
  }
}
