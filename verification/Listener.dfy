// One listener goroutine: BaseHandler.listenForMetrics
// (src/fullerite/handler/handler.go:459-512).
module Listener {
  import opened Metrics

  // What the select statement can wake up with.
  datatype Event = Incoming(m: Metric) | Tick

  // The locals of the loop. reading turns false when the loop breaks.
  datatype Listener = Listener(bufferSize: nat, metrics: seq<Metric>, currentBufferSize: nat, reading: bool)

  function Start(bufferSize: nat): Listener {
    Listener(bufferSize, [], 0, true)
  }

  // The largest batch a listener can cut: a size of 0 still admits one metric.
  function Limit(bufferSize: nat): (limit: nat)
    ensures limit > 0
  {
    if bufferSize == 0 then 1 else bufferSize
  }

  function Flush(l: Listener): (Listener, seq<seq<Metric>>) {
    (l.(metrics := [], currentBufferSize := 0), [l.metrics])
  }

  // One turn of the select loop: the new locals and the batches handed to
  // fresh goroutines (none or one).
  function Turn(l: Listener, e: Event): (Listener, seq<seq<Metric>>) {
    if !l.reading then (l, [])
    else match e
      case Tick => if l.currentBufferSize > 0 then Flush(l) else (l, [])
      case Incoming(m) =>
        if ZeroValue(m) then (l.(reading := false), [])
        else if Sentinel(m) then (if l.currentBufferSize > 0 then Flush(l) else (l, []))
        else
          var l' := l.(metrics := l.metrics + [m], currentBufferSize := l.currentBufferSize + 1);
          if l'.currentBufferSize >= l'.bufferSize then Flush(l') else (l', [])
  }

  // The whole loop over an event sequence.
  function Listen(bufferSize: nat, events: seq<Event>): (Listener, seq<seq<Metric>>) {
    if events == [] then (Start(bufferSize), [])
    else
      var (l, batches) := Listen(bufferSize, events[..|events| - 1]);
      var (l', cut) := Turn(l, events[|events| - 1]);
      (l', batches + cut)
  }

  // ---- What a listener must deliver, said without a buffer ----

  predicate IsStop(e: Event) { e.Incoming? && ZeroValue(e.m) }

  predicate IsMark(e: Event) { e.Tick? || (!ZeroValue(e.m) && Sentinel(e.m)) }

  predicate IsOrdinary(e: Event) { !IsStop(e) && !IsMark(e) }

  predicate Stopped(events: seq<Event>) { exists k :: 0 <= k < |events| && IsStop(events[k]) }

  // The events before the first zero-valued metric.
  function UntilStop(events: seq<Event>): (live: seq<Event>)
    ensures live <= events && !Stopped(live)
    ensures live == events || IsStop(events[|live|])
  {
    if events == [] || IsStop(events[0]) then []
    else
      var rest := UntilStop(events[1..]);
      assert [events[0]] + events[1..] == events;
      [events[0]] + rest
  }

  // The ordinary metrics among some events, in order.
  function Ordinary(events: seq<Event>): seq<Metric> {
    if events == [] then []
    else
      var last := events[|events| - 1];
      Ordinary(events[..|events| - 1]) + (if IsOrdinary(last) then [last.m] else [])
  }

  // The metrics a listener takes responsibility for.
  function Accepted(events: seq<Event>): seq<Metric> {
    Ordinary(UntilStop(events))
  }

  // The accepted metrics cut at every mark: the last stretch is still open.
  function Stretches(live: seq<Event>): (r: seq<seq<Metric>>)
    ensures |r| > 0
  {
    if live == [] then [[]]
    else
      var r := Stretches(live[..|live| - 1]);
      var last := live[|live| - 1];
      if IsMark(last) then r + [[]]
      else if IsOrdinary(last) then r[|r| - 1 := r[|r| - 1] + [last.m]]
      else r
  }

  // ms cut into pieces of n metrics, from the left, without an incomplete last piece...
  function FullPieces(ms: seq<Metric>, n: nat): seq<seq<Metric>>
    requires n > 0
  {
    if |ms| < n then [] else [ms[..n]] + FullPieces(ms[n..], n)
  }

  // ... and that incomplete piece.
  function Leftover(ms: seq<Metric>, n: nat): (r: seq<Metric>)
    requires n > 0
    ensures |r| < n
  {
    if |ms| < n then ms else Leftover(ms[n..], n)
  }

  // A closed stretch leaves nothing behind.
  function Pieces(ms: seq<Metric>, n: nat): seq<seq<Metric>>
    requires n > 0
  {
    FullPieces(ms, n) + (if Leftover(ms, n) == [] then [] else [Leftover(ms, n)])
  }

  function ClosedPieces(stretches: seq<seq<Metric>>, n: nat): seq<seq<Metric>>
    requires n > 0
  {
    if stretches == [] then []
    else ClosedPieces(stretches[..|stretches| - 1], n) + Pieces(stretches[|stretches| - 1], n)
  }

  // The reference: every closed stretch in pieces, the open one in full pieces only.
  function ReferenceBatches(live: seq<Event>, n: nat): seq<seq<Metric>>
    requires n > 0
  {
    var s := Stretches(live);
    ClosedPieces(s[..|s| - 1], n) + FullPieces(s[|s| - 1], n)
  }

  function ReferenceBuffer(live: seq<Event>, n: nat): seq<Metric>
    requires n > 0
  {
    var s := Stretches(live);
    Leftover(s[|s| - 1], n)
  }

  // ---- Proofs ----

  lemma {:induction false} PieceGrows(ms: seq<Metric>, m: Metric, n: nat)
    requires n > 0
    ensures var r := Leftover(ms, n) + [m];
            if |r| < n then FullPieces(ms + [m], n) == FullPieces(ms, n) && Leftover(ms + [m], n) == r
            else FullPieces(ms + [m], n) == FullPieces(ms, n) + [r] && Leftover(ms + [m], n) == []
  {
    if |ms| >= n {
      assert (ms + [m])[..n] == ms[..n];
      assert (ms + [m])[n..] == ms[n..] + [m];
      PieceGrows(ms[n..], m, n);
    } else if |ms| + 1 == n {
      assert (ms + [m])[..n] == ms + [m];
      assert (ms + [m])[n..] == [];
      assert FullPieces([], n) == [];
    }
  }

  lemma {:induction false} UntilStopAppend(events: seq<Event>, e: Event)
    ensures UntilStop(events + [e]) ==
            if Stopped(events) || IsStop(e) then UntilStop(events) else UntilStop(events) + [e]
    ensures Stopped(events) <==> UntilStop(events) != events
    ensures Stopped(events + [e]) <==> Stopped(events) || IsStop(e)
  {
    if events == [] {
      assert [] + [e] == [e];
      assert [e][1..] == [];
      assert UntilStop([]) == [];
      if IsStop(e) { assert IsStop(([] + [e])[0]); }
    } else {
      assert (events + [e])[1..] == events[1..] + [e];
      UntilStopAppend(events[1..], e);
      assert Stopped(events) <==> IsStop(events[0]) || Stopped(events[1..]) by {
        if Stopped(events) && !IsStop(events[0]) {
          var k :| 0 <= k < |events| && IsStop(events[k]);
          assert IsStop(events[1..][k - 1]);
        }
      }
      assert Stopped(events + [e]) <==> Stopped(events) || IsStop(e) by {
        if IsStop(e) { assert IsStop((events + [e])[|events|]); }
        if Stopped(events) {
          var k :| 0 <= k < |events| && IsStop(events[k]);
          assert IsStop((events + [e])[k]);
        }
      }
    }
  }

  lemma ListenSnoc(bufferSize: nat, events: seq<Event>, e: Event)
    ensures var (l, batches) := Listen(bufferSize, events);
            Listen(bufferSize, events + [e]) == (Turn(l, e).0, batches + Turn(l, e).1)
  {
    assert (events + [e])[..|events|] == events;
  }

  // What one more live event does to the reference.
  lemma ReferenceStep(live: seq<Event>, e: Event, n: nat)
    requires n > 0 && !IsStop(e)
    ensures var (was, now) := (ReferenceBatches(live, n), ReferenceBatches(live + [e], n));
            var buffer := ReferenceBuffer(live, n);
            if IsMark(e) then
              now == was + (if buffer == [] then [] else [buffer]) && ReferenceBuffer(live + [e], n) == []
            else if |buffer| + 1 < n then
              now == was && ReferenceBuffer(live + [e], n) == buffer + [e.m]
            else
              now == was + [buffer + [e.m]] && ReferenceBuffer(live + [e], n) == []
  {
    assert (live + [e])[..|live|] == live;
    var s := Stretches(live);
    if IsMark(e) {
      assert (s + [[]])[..|s|] == s;
      assert FullPieces([], n) == [];
    } else {
      PieceGrows(s[|s| - 1], e.m, n);
      assert Stretches(live + [e])[..|s| - 1] == s[..|s| - 1];
    }
  }

  ghost predicate Matches(l: Listener, batches: seq<seq<Metric>>, bufferSize: nat, events: seq<Event>) {
    && batches == ReferenceBatches(UntilStop(events), Limit(bufferSize))
    && l.metrics == ReferenceBuffer(UntilStop(events), Limit(bufferSize))
    && l.currentBufferSize == |l.metrics|
    && l.bufferSize == bufferSize
    && l.reading == !Stopped(events)
  }

  lemma TurnKeepsMatch(l: Listener, batches: seq<seq<Metric>>, bufferSize: nat, events: seq<Event>, e: Event)
    requires Matches(l, batches, bufferSize, events)
    ensures Matches(Turn(l, e).0, batches + Turn(l, e).1, bufferSize, events + [e])
  {
    UntilStopAppend(events, e);
    if !Stopped(events) && !IsStop(e) {
      ReferenceStep(events, e, Limit(bufferSize));
    }
  }

  // The state of a listener is a function of the events it has read: its
  // batches and its buffer are exactly the reference ones, and the counter
  // always equals the buffer's length.
  lemma {:induction false} ListenMeetsReference(bufferSize: nat, events: seq<Event>)
    ensures Matches(Listen(bufferSize, events).0, Listen(bufferSize, events).1, bufferSize, events)
  {
    if events == [] {
      assert Stretches([])[..0] == [];
    } else {
      var before, e := events[..|events| - 1], events[|events| - 1];
      ListenMeetsReference(bufferSize, before);
      TurnKeepsMatch(Listen(bufferSize, before).0, Listen(bufferSize, before).1, bufferSize, before, e);
      assert events == before + [e];
    }
  }

  // Cutting neither loses nor reorders, and no piece is empty or too long.
  lemma {:induction false} FullPiecesPartition(ms: seq<Metric>, n: nat)
    requires n > 0
    ensures Concat(FullPieces(ms, n)) + Leftover(ms, n) == ms
  {
    if |ms| >= n {
      FullPiecesPartition(ms[n..], n);
      ConcatCons(ms[..n], FullPieces(ms[n..], n));
      assert ms == ms[..n] + ms[n..];
    }
  }

  lemma {:induction false} FullPiecesSize(ms: seq<Metric>, n: nat)
    requires n > 0
    ensures forall b <- FullPieces(ms, n) :: |b| == n
  {
    if |ms| >= n {
      FullPiecesSize(ms[n..], n);
    }
  }

  lemma PiecesPartition(ms: seq<Metric>, n: nat)
    requires n > 0
    ensures Concat(Pieces(ms, n)) == ms
    ensures forall b <- Pieces(ms, n) :: 0 < |b| <= n
  {
    FullPiecesPartition(ms, n);
    FullPiecesSize(ms, n);
    ConcatSnoc(FullPieces(ms, n), Leftover(ms, n));
    assert FullPieces(ms, n) + [] == FullPieces(ms, n);
  }

  lemma {:induction false} ClosedPiecesPartition(stretches: seq<seq<Metric>>, n: nat)
    requires n > 0
    ensures Concat(ClosedPieces(stretches, n)) == Concat(stretches)
  {
    if stretches != [] {
      ClosedPiecesPartition(stretches[..|stretches| - 1], n);
      PiecesPartition(stretches[|stretches| - 1], n);
      ConcatAppend(ClosedPieces(stretches[..|stretches| - 1], n), Pieces(stretches[|stretches| - 1], n));
    }
  }

  lemma {:induction false} ClosedPiecesSize(stretches: seq<seq<Metric>>, n: nat)
    requires n > 0
    ensures forall b <- ClosedPieces(stretches, n) :: 0 < |b| <= n
  {
    if stretches != [] {
      ClosedPiecesSize(stretches[..|stretches| - 1], n);
      PiecesPartition(stretches[|stretches| - 1], n);
    }
  }

  lemma {:induction false} StretchesPartition(live: seq<Event>)
    ensures Concat(Stretches(live)) == Ordinary(live)
  {
    if live != [] {
      StretchesPartition(live[..|live| - 1]);
      var r, last := Stretches(live[..|live| - 1]), live[|live| - 1];
      if IsMark(last) {
        assert (r + [[]])[..|r|] == r;
      } else if IsOrdinary(last) {
        assert Stretches(live)[..|r| - 1] == r[..|r| - 1];
      }
    } else {
      var empty: seq<seq<Metric>> := [[]];
      assert empty[..0] == [];
    }
  }

  lemma ReferencePartition(live: seq<Event>, n: nat)
    requires n > 0
    ensures Concat(ReferenceBatches(live, n)) + ReferenceBuffer(live, n) == Ordinary(live)
  {
    var s := Stretches(live);
    StretchesPartition(live);
    JoinPartition(s[..|s| - 1], s[|s| - 1], n);
  }

  lemma JoinPartition(closed: seq<seq<Metric>>, open: seq<Metric>, n: nat)
    requires n > 0
    ensures Concat(ClosedPieces(closed, n) + FullPieces(open, n)) + Leftover(open, n) == Concat(closed) + open
  {
    var pieces, full, left := ClosedPieces(closed, n), FullPieces(open, n), Leftover(open, n);
    ClosedPiecesPartition(closed, n);
    FullPiecesPartition(open, n);
    ConcatAppend(pieces, full);
    Regroup(Concat(pieces), Concat(full), left);
  }

  lemma ReferenceSizes(live: seq<Event>, n: nat)
    requires n > 0
    ensures forall b <- ReferenceBatches(live, n) :: 0 < |b| <= n
  {
    var s := Stretches(live);
    ClosedPiecesSize(s[..|s| - 1], n);
    FullPiecesSize(s[|s| - 1], n);
  }

  // Batches in spawn order followed by the buffer are the ordinary metrics
  // received before the first zero-valued one; a batch is never empty and never
  // longer than the configured size; the buffer never holds a full batch.
  lemma BatchesPartitionAccepted(bufferSize: nat, events: seq<Event>)
    ensures var (l, batches) := Listen(bufferSize, events);
            && Concat(batches) + l.metrics == Accepted(events)
            && (forall b <- batches :: 0 < |b| <= Limit(bufferSize))
            && l.currentBufferSize == |l.metrics| < Limit(bufferSize)
    ensures var (l, batches) := Listen(bufferSize, events);
            && (forall b <- batches :: |b| == 1 || 1 < |b| <= bufferSize)
            && (l.metrics == [] || |l.metrics| < bufferSize)
  {
    ListenMeetsReference(bufferSize, events);
    ReferencePartition(UntilStop(events), Limit(bufferSize));
    ReferenceSizes(UntilStop(events), Limit(bufferSize));
  }

  // Whatever follows the first zero-valued metric is never looked at.
  lemma {:induction false} StopIsFinal(events: seq<Event>, k: nat)
    requires 0 < k <= |events| && IsStop(events[k - 1]) && !Stopped(events[..k - 1])
    ensures UntilStop(events) == events[..k - 1] && Stopped(events)
  {
    if k > 1 {
      assert !IsStop(events[..k - 1][0]);
      assert events[1..][..k - 2] == events[..k - 1][1..];
      StopIsFinal(events[1..], k - 1);
      assert events[..k - 1] == [events[0]] + events[1..][..k - 2];
    }
  }

  // ---- The same, one event at a time and without names ----

  ghost predicate ZeroSeen(events: seq<Event>) {
    exists k :: 0 <= k < |events| && events[k] == Incoming(Metric("", "", 0.0, map[]))
  }

  lemma ZeroSeenMeansStopped(events: seq<Event>)
    ensures ZeroSeen(events) <==> Stopped(events)
  {
    forall k | 0 <= k < |events|
      ensures events[k] == Incoming(Metric("", "", 0.0, map[])) <==> IsStop(events[k])
    {
    }
  }

  // An event is for the metrics or for the flushing, until a metric without name,
  // type, value and dimensions ends both.
  predicate AsksToFlush(e: Event) {
    e == Tick || (e.Incoming? && e.m.name == "fullerite.emit_now")
  }

  // What is accepted: every other metric before that one.
  lemma AcceptedGrows(events: seq<Event>, e: Event)
    ensures Accepted([]) == []
    ensures Accepted(events + [e]) ==
            if ZeroSeen(events + [e]) || AsksToFlush(e) then Accepted(events) else Accepted(events) + [e.m]
  {
    ZeroSeenMeansStopped(events + [e]);
    StoppedGrows(events, e);
    if !Stopped(events + [e]) {
      OrdinarySnoc(UntilStop(events), e);
    }
  }

  lemma StoppedGrows(events: seq<Event>, e: Event)
    ensures UntilStop(events + [e]) == if Stopped(events + [e]) then UntilStop(events) else UntilStop(events) + [e]
    ensures !Stopped(events + [e]) ==> !IsStop(e)
  {
    UntilStopAppend(events, e);
  }

  lemma OrdinarySnoc(live: seq<Event>, e: Event)
    requires !IsStop(e)
    ensures Ordinary(live + [e]) == if AsksToFlush(e) then Ordinary(live) else Ordinary(live) + [e.m]
  {
    assert (live + [e])[..|live|] == live;
  }

  // What is spawned: all that is buffered when a flush is asked for, and the buffer
  // with the new metric as soon as that is bufferSize metrics, or one if it is 0.
  lemma ListenGrows(bufferSize: nat, events: seq<Event>, e: Event)
    ensures Listen(bufferSize, []).0.metrics == [] && Listen(bufferSize, []).1 == []
    ensures var ((l, batches), (l', batches')) := (Listen(bufferSize, events), Listen(bufferSize, events + [e]));
            if ZeroSeen(events + [e]) then l'.metrics == l.metrics && batches' == batches
            else if AsksToFlush(e) then
              l'.metrics == [] && batches' == batches + if l.metrics == [] then [] else [l.metrics]
            else if |l.metrics| + 1 >= bufferSize then
              l'.metrics == [] && batches' == batches + [l.metrics + [e.m]]
            else l'.metrics == l.metrics + [e.m] && batches' == batches
  {
    ListenMeetsReference(bufferSize, events);
    ListenSnoc(bufferSize, events, e);
    UntilStopAppend(events, e);
    ZeroSeenMeansStopped(events);
    ZeroSeenMeansStopped(events + [e]);
  }

  // Where the loop leaves off: at the end of the events, or behind the first
  // zero-valued metric.
  ghost predicate LeavesOff(events: seq<Event>, consumed: nat) {
    && consumed <= |events|
    && if Stopped(events) then consumed > 0 && UntilStop(events) == events[..consumed - 1] else consumed == |events|
  }

  lemma LeftOff(bufferSize: nat, events: seq<Event>, consumed: nat)
    requires LeavesOff(events, consumed)
    ensures var (l, batches) := Listen(bufferSize, events[..consumed]);
            && batches == ReferenceBatches(UntilStop(events), Limit(bufferSize))
            && l.metrics == ReferenceBuffer(UntilStop(events), Limit(bufferSize))
            && l.currentBufferSize == |l.metrics|
            && Concat(batches) + l.metrics == Accepted(events)
  {
    if Stopped(events) {
      var k := consumed - 1;
      assert events[..consumed][..k] == events[..k];
      StopIsFinal(events[..consumed], consumed);
    } else {
      assert events[..consumed] == events;
    }
    ListenMeetsReference(bufferSize, events[..consumed]);
    ReferencePartition(UntilStop(events), Limit(bufferSize));
  }

  lemma ListenOn(bufferSize: nat, events: seq<Event>, k: nat, l: Listener, spawned: seq<seq<Metric>>)
    requires k < |events| && Listen(bufferSize, events[..k]) == (l, spawned)
    ensures Listen(bufferSize, events[..k + 1]) == (Turn(l, events[k]).0, spawned + Turn(l, events[k]).1)
    ensures Stopped(events[..k + 1]) <==> Stopped(events[..k]) || IsStop(events[k])
    ensures spawned + [] == spawned
  {
    UntilStopAppend(events[..k], events[k]);
    ListenSnoc(bufferSize, events[..k], events[k]);
    assert events[..k + 1] == events[..k] + [events[k]];
  }

  // The loop itself: events is what the select statement delivers, in order.
  method ListenForMetrics(bufferSize: nat, events: seq<Event>)
    returns (spawned: seq<seq<Metric>>, metrics: seq<Metric>, currentBufferSize: nat, consumed: nat)
    ensures LeavesOff(events, consumed)
    ensures spawned == ReferenceBatches(UntilStop(events), Limit(bufferSize))
    ensures metrics == ReferenceBuffer(UntilStop(events), Limit(bufferSize))
    ensures Concat(spawned) + metrics == Accepted(events)
    ensures currentBufferSize == |metrics|
  {
    spawned, metrics, currentBufferSize, consumed := [], [], 0, 0;
    while consumed < |events|
      invariant consumed <= |events|
      invariant !Stopped(events[..consumed])
      invariant Listen(bufferSize, events[..consumed]) == (Listener(bufferSize, metrics, currentBufferSize, true),
                                                           spawned)
    {
      var e := events[consumed];
      ListenOn(bufferSize, events, consumed, Listener(bufferSize, metrics, currentBufferSize, true), spawned);
      consumed := consumed + 1;
      match e
      case Incoming(m) =>
        if ZeroValue(m) {
          StopIsFinal(events, consumed);
          break;
        }
        if Sentinel(m) {
          if currentBufferSize > 0 {
            spawned := spawned + [metrics];
            metrics, currentBufferSize := [], 0;
          }
          continue;
        }
        metrics := metrics + [m];
        currentBufferSize := currentBufferSize + 1;
        if currentBufferSize >= bufferSize {
          spawned := spawned + [metrics];
          metrics, currentBufferSize := [], 0;
        }
      case Tick =>
        if currentBufferSize > 0 {
          spawned := spawned + [metrics];
          metrics, currentBufferSize := [], 0;
        }
    }
    assert events[..|events|] == events;
    LeftOff(bufferSize, events, consumed);
  }
}
