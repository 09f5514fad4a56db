// From a collector's channel to the handlers' endpoints: readFromCollector
// (src/fullerite/collectors.go:83-138) and BaseHandler.InitListeners
// (src/fullerite/handler/handler.go:301-330).
module Routing {
  import opened Metrics

  // What one reading goroutine knows about its collector. blacklisted stands
  // for the regular expressions tried by stringInSlice.
  datatype Collector = Collector(name: string, canonicalName: string, prefix: string, blacklisted: string -> bool)

  // ---- Which endpoints a handler opens ----

  // Admission by the two lists, as the handler's documentation puts it: a
  // non-empty whitelist admits only its members, and the blacklist always wins.
  predicate Admitted(name: string, whiteList: set<string>, blackList: set<string>) {
    name !in blackList && (whiteList == {} || name in whiteList)
  }

  method InitListeners(
    collectors: seq<string>, diamondCollectors: seq<string>,
    whiteList: map<string, bool>, blackList: map<string, bool>,
    batchSize: map<string, int>, maxBufferSize: int)
    returns (endpoints: map<string, int>)
    requires forall c <- whiteList :: whiteList[c]
    requires forall c <- blackList :: blackList[c]
    ensures endpoints.Keys == set c | c in collectors + diamondCollectors && Admitted(c, whiteList.Keys, blackList.Keys)
    ensures forall c :: c in endpoints <==>
              (c in collectors || c in diamondCollectors) && c !in blackList && (|whiteList| == 0 || c in whiteList)
    ensures forall c <- endpoints :: endpoints[c] == if c in batchSize then batchSize[c] else maxBufferSize
  {
    endpoints := map[];
    var all := collectors + diamondCollectors;
    KeysOf(whiteList);
    for i := 0 to |all|
      invariant forall c :: c in endpoints <==> c in all[..i] && Admitted(c, whiteList.Keys, blackList.Keys)
      invariant forall c <- endpoints :: endpoints[c] == if c in batchSize then batchSize[c] else maxBufferSize
    {
      var c := all[i];
      OneMore(all, i);
      var isWhiteListed := c in whiteList && whiteList[c];
      var isBlackListed := c in blackList && blackList[c];
      if |whiteList| > 0 {
        if !isWhiteListed || isBlackListed {
          continue;
        }
      } else {
        if isBlackListed {
          continue;
        }
      }
      endpoints := endpoints[c := if c in batchSize then batchSize[c] else maxBufferSize];
    }
    assert all[..|all|] == all;
  }

  lemma KeysOf(list: map<string, bool>)
    ensures |list| == 0 <==> list.Keys == {}
  {
  }

  lemma OneMore(all: seq<string>, i: nat)
    requires i < |all|
    ensures forall c :: c in all[..i + 1] <==> c in all[..i] || c == all[i]
  {
    assert all[..i + 1] == all[..i] + [all[i]];
  }

  // ---- What reaches an endpoint ----

  // The collector a metric counts for: a metric may name it itself.
  function Canonical(c: Collector, m: Metric): string {
    if "collectorCanonicalName" in m.dimensions then m.dimensions["collectorCanonicalName"] else c.canonicalName
  }

  // What a handler receives for a metric: prefixed, tagged with its collector,
  // and without the routing dimension.
  ghost predicate IsForwarded(c: Collector, m: Metric, out: Metric) {
    && out.name == c.prefix + m.name
    && out.metricType == m.metricType && out.value == m.value
    && out.dimensions.Keys == m.dimensions.Keys + {"collector"} - {"collectorCanonicalName"}
    && out.dimensions["collector"] == (if "collector" in m.dimensions then m.dimensions["collector"] else c.name)
    && forall k <- m.dimensions ::
         k != "collector" && k != "collectorCanonicalName" ==> out.dimensions[k] == m.dimensions[k]
  }

  predicate Meant(c: Collector, m: Metric, name: string) {
    !c.blacklisted(m.name) && Canonical(c, m) == name
  }

  // A metric that is not blacklisted counts for the collector it names itself in its
  // dimensions, or else for the one it came from.
  predicate CountsFor(c: Collector, m: Metric, name: string) {
    && !c.blacklisted(m.name)
    && if "collectorCanonicalName" in m.dimensions then m.dimensions["collectorCanonicalName"] == name
       else name == c.canonicalName
  }

  // The positions of the metrics meant for an endpoint, in order.
  function MeantFor(c: Collector, metrics: seq<Metric>, name: string): (r: seq<nat>)
    ensures forall k :: 0 <= k < |r| ==> r[k] < |metrics| && Meant(c, metrics[r[k]], name)
  {
    if metrics == [] then []
    else
      var n := |metrics| - 1;
      MeantFor(c, metrics[..n], name) + (if Meant(c, metrics[n], name) then [n] else [])
  }

  // Those positions are all of them, once each, in increasing order.
  lemma {:induction false} MeantForIsComplete(c: Collector, metrics: seq<Metric>, name: string)
    ensures var r := MeantFor(c, metrics, name);
            && (forall i :: 0 <= i < |metrics| ==> (CountsFor(c, metrics[i], name) <==> i in r))
            && (forall i <- r :: i < |metrics|)
            && forall a, b :: 0 <= a < b < |r| ==> r[a] < r[b]
  {
    if metrics != [] {
      var n := |metrics| - 1;
      MeantForIsComplete(c, metrics[..n], name);
      var before, more := MeantFor(c, metrics[..n], name), if Meant(c, metrics[n], name) then [n] else [];
      assert MeantFor(c, metrics, name) == before + more;
      InEither(before, more);
      assert n !in before;
      forall i | 0 <= i < |metrics| ensures CountsFor(c, metrics[i], name) <==> i in before + more {
        assert i < n ==> metrics[..n][i] == metrics[i];
      }
      forall a, b | 0 <= a < b < |before + more| ensures (before + more)[a] < (before + more)[b] {
        assert before[a] in before;
      }
    }
  }

  lemma InEither(a: seq<nat>, b: seq<nat>)
    ensures forall i :: i in a + b <==> i in a || i in b
  {
  }

  // An endpoint's queue holds exactly the metrics meant for it, in order.
  ghost predicate Queued(c: Collector, metrics: seq<Metric>, name: string, queue: seq<Metric>) {
    var wanted := MeantFor(c, metrics, name);
    |queue| == |wanted| && forall k :: 0 <= k < |queue| ==> IsForwarded(c, metrics[wanted[k]], queue[k])
  }

  // queues[h] is what has been sent on the channels of handler h, whose
  // endpoints are handlers[h].
  ghost predicate AllQueued(c: Collector, metrics: seq<Metric>, handlers: seq<set<string>>,
                            queues: seq<map<string, seq<Metric>>>) {
    && |queues| == |handlers|
    && forall h :: 0 <= h < |handlers| ==>
         && queues[h].Keys == handlers[h]
         && forall name <- handlers[h] :: Queued(c, metrics, name, queues[h][name])
  }

  // The counter of a collector is the number of its metrics that got through.
  ghost predicate Counted(c: Collector, metrics: seq<Metric>, emissionCounter: map<string, nat>) {
    && (forall name :: name in emissionCounter <==> MeantFor(c, metrics, name) != [])
    && forall name <- emissionCounter :: emissionCounter[name] == |MeantFor(c, metrics, name)|
  }

  method ReadFromCollector(c: Collector, metrics: seq<Metric>, handlers: seq<set<string>>)
    returns (queues: seq<map<string, seq<Metric>>>, emissionCounter: map<string, nat>)
    ensures AllQueued(c, metrics, handlers, queues)
    ensures Counted(c, metrics, emissionCounter)
  {
    queues := Open(c, handlers);
    emissionCounter := map[];
    for i := 0 to |metrics|
      invariant AllQueued(c, metrics[..i], handlers, queues)
      invariant Counted(c, metrics[..i], emissionCounter)
    {
      assert metrics[..i + 1] == metrics[..i] + [metrics[i]];
      var canonical, m := Tag(c, metrics[i]);
      if c.blacklisted(m.name) {
        BlockedChangesNothing(c, metrics[..i], metrics[i], handlers, queues, emissionCounter);
        continue;
      }
      CountedOneMore(c, metrics[..i], metrics[i], emissionCounter);
      emissionCounter := emissionCounter[canonical :=
        (if canonical in emissionCounter then emissionCounter[canonical] else 0) + 1];
      if |c.prefix| > 0 {
        m := m.(name := c.prefix + m.name);
      }
      queues := Send(c, metrics[..i], metrics[i], handlers, queues, canonical, m);
    }
    assert metrics[..|metrics|] == metrics;
  }

  // Before the first metric every endpoint's queue is empty.
  method Open(ghost c: Collector, handlers: seq<set<string>>) returns (queues: seq<map<string, seq<Metric>>>)
    ensures AllQueued(c, [], handlers, queues)
  {
    queues := seq(|handlers|, h requires 0 <= h < |handlers| => map name <- handlers[h] :: []);
  }

  // The head of the loop body: default the "collector" dimension, and let the
  // metric override the canonical name.
  method Tag(c: Collector, incoming: Metric) returns (canonical: string, m: Metric)
    ensures canonical == Canonical(c, incoming)
    ensures IsForwarded(c, incoming, m.(name := c.prefix + m.name)) && m.name == incoming.name
    ensures |c.prefix| == 0 ==> c.prefix + m.name == m.name
  {
    m := incoming;
    canonical := c.canonicalName;
    if "collector" !in m.dimensions {
      m := m.(dimensions := m.dimensions["collector" := c.name]);
    }
    if "collectorCanonicalName" in m.dimensions {
      canonical := m.dimensions["collectorCanonicalName"];
      m := m.(dimensions := m.dimensions - {"collectorCanonicalName"});
    }
  }

  // The loop over the handlers.
  method Send(c: Collector, ghost before: seq<Metric>, ghost incoming: Metric, handlers: seq<set<string>>,
              queues: seq<map<string, seq<Metric>>>, canonical: string, m: Metric)
    returns (queues': seq<map<string, seq<Metric>>>)
    requires AllQueued(c, before, handlers, queues)
    requires !c.blacklisted(incoming.name) && canonical == Canonical(c, incoming) && IsForwarded(c, incoming, m)
    ensures AllQueued(c, before + [incoming], handlers, queues')
  {
    queues' := queues;
    for h := 0 to |handlers|
      invariant |queues'| == |handlers|
      invariant forall k :: h <= k < |handlers| ==> queues'[k] == queues[k]
      invariant forall k :: 0 <= k < h ==>
                  && queues'[k].Keys == handlers[k]
                  && forall name <- handlers[k] :: Queued(c, before + [incoming], name, queues'[k][name])
    {
      forall name | name in handlers[h]
        ensures Queued(c, before + [incoming], name,
                  queues[h][name] + if name == canonical then [m] else [])
      {
        QueueGrows(c, before, incoming, name, queues[h][name], m);
      }
      if canonical in handlers[h] {
        queues' := queues'[h := queues'[h][canonical := queues'[h][canonical] + [m]]];
      }
      assert forall name <- handlers[h] :: queues[h][name] + [] == queues[h][name];
    }
  }

  lemma MeantForSnoc(c: Collector, before: seq<Metric>, m: Metric, name: string)
    ensures MeantFor(c, before + [m], name) ==
            MeantFor(c, before, name) + if Meant(c, m, name) then [|before|] else []
  {
    assert (before + [m])[..|before|] == before;
  }

  lemma QueueGrows(c: Collector, before: seq<Metric>, incoming: Metric, name: string, queue: seq<Metric>, m: Metric)
    requires Queued(c, before, name, queue)
    requires Meant(c, incoming, name) ==> IsForwarded(c, incoming, m)
    ensures Queued(c, before + [incoming], name, queue + if Meant(c, incoming, name) then [m] else [])
  {
    MeantForSnoc(c, before, incoming, name);
    var wanted := MeantFor(c, before, name);
    assert forall k :: 0 <= k < |wanted| ==> (before + [incoming])[wanted[k]] == before[wanted[k]];
  }

  lemma BlockedChangesNothing(c: Collector, before: seq<Metric>, incoming: Metric, handlers: seq<set<string>>,
                              queues: seq<map<string, seq<Metric>>>, emissionCounter: map<string, nat>)
    requires AllQueued(c, before, handlers, queues) && Counted(c, before, emissionCounter)
    requires c.blacklisted(incoming.name)
    ensures AllQueued(c, before + [incoming], handlers, queues)
    ensures Counted(c, before + [incoming], emissionCounter)
  {
    forall h, name | 0 <= h < |handlers| && name in handlers[h]
      ensures Queued(c, before + [incoming], name, queues[h][name])
    {
      QueueGrows(c, before, incoming, name, queues[h][name], incoming);
      assert queues[h][name] + [] == queues[h][name];
    }
    forall name ensures MeantFor(c, before + [incoming], name) == MeantFor(c, before, name) {
      MeantForSnoc(c, before, incoming, name);
    }
  }

  lemma CountedOneMore(c: Collector, before: seq<Metric>, incoming: Metric, was: map<string, nat>)
    requires !c.blacklisted(incoming.name) && Counted(c, before, was)
    ensures var name := Canonical(c, incoming);
            Counted(c, before + [incoming], was[name := (if name in was then was[name] else 0) + 1])
  {
    forall name
      ensures |MeantFor(c, before + [incoming], name)| ==
              |MeantFor(c, before, name)| + (if name == Canonical(c, incoming) then 1 else 0)
    {
      MeantForSnoc(c, before, incoming, name);
    }
  }

  // ---- The counters account for every metric that got through ----

  function Passing(c: Collector, metrics: seq<Metric>): nat {
    if metrics == [] then 0
    else Passing(c, metrics[..|metrics| - 1]) + (if c.blacklisted(metrics[|metrics| - 1].name) then 0 else 1)
  }

  // All but the blacklisted ones.
  lemma {:induction false} PassingAddsUp(c: Collector, a: seq<Metric>, b: seq<Metric>, m: Metric)
    ensures Passing(c, a + b) == Passing(c, a) + Passing(c, b)
    ensures Passing(c, [m]) == if c.blacklisted(m.name) then 0 else 1
  {
    assert [m][..0] == [];
    if b == [] {
      assert a + b == a;
    } else {
      assert (a + b)[..|a + b| - 1] == a + b[..|b| - 1];
      PassingAddsUp(c, a, b[..|b| - 1], m);
    }
  }

  function SumCounts(c: Collector, metrics: seq<Metric>, names: seq<string>): nat {
    if names == [] then 0
    else SumCounts(c, metrics, names[..|names| - 1]) + |MeantFor(c, metrics, names[|names| - 1])|
  }

  lemma {:induction false} SumCountsSnoc(c: Collector, before: seq<Metric>, m: Metric, names: seq<string>)
    requires NoRepeats(names)
    ensures SumCounts(c, before + [m], names) ==
            SumCounts(c, before, names) + (if !c.blacklisted(m.name) && Canonical(c, m) in names then 1 else 0)
  {
    if names != [] {
      var names', last := names[..|names| - 1], names[|names| - 1];
      SumCountsSnoc(c, before, m, names');
      MeantForSnoc(c, before, m, last);
      LastOfNames(names, Canonical(c, m));
    }
  }

  lemma LastOfNames(names: seq<string>, name: string)
    requires NoRepeats(names) && names != []
    ensures name in names <==> name in names[..|names| - 1] || name == names[|names| - 1]
    ensures names[|names| - 1] !in names[..|names| - 1]
  {
    assert names == names[..|names| - 1] + [names[|names| - 1]];
  }

  // Listing the counters in any order, they add up to the number of metrics
  // that were not blacklisted.
  lemma {:induction false} CountersAddUp(c: Collector, metrics: seq<Metric>, names: seq<string>)
    requires NoRepeats(names)
    requires forall m <- metrics :: !c.blacklisted(m.name) ==> Canonical(c, m) in names
    ensures SumCounts(c, metrics, names) == Passing(c, metrics)
  {
    if metrics == [] {
      NoCounts(c, names);
    } else {
      var before, last := metrics[..|metrics| - 1], metrics[|metrics| - 1];
      assert metrics == before + [last];
      CountersAddUp(c, before, names);
      SumCountsSnoc(c, before, last, names);
    }
  }

  lemma {:induction false} NoCounts(c: Collector, names: seq<string>)
    ensures SumCounts(c, [], names) == 0
  {
    if names != [] {
      NoCounts(c, names[..|names| - 1]);
    }
  }
}
