// A handler at work: any number of listener goroutines, the emit goroutines they
// spawn, and the single recorder, interleaved one atomic step at a time
// (src/fullerite/handler/handler.go:445-570, src/fullerite/handler/signalfx.go:249-287).
module Delivery {
  import opened Metrics
  import opened Listener
  import opened Batching
  import EmissionWindow

  type Timing = EmissionWindow.Timing
  type Reception = EmissionWindow.Reception

  // customReporter is useCustomEmissionMetricsReporter; sizes has one entry for
  // each collector endpoint and one for the handler's own channel.
  datatype Config = Config(sizes: seq<nat>, interval: int, customReporter: bool, batchByDimension: string)

  // A listener with what it has read and what it has spawned so far.
  datatype Slot = Slot(listener: Listener, log: seq<Event>, spawned: seq<seq<Metric>>)

  datatype Routine =
    | Emitting(batch: seq<Metric>, whole: bool)   // the emit function has not returned
    | Splitting(parts: seq<seq<Metric>>)          // spawning one goroutine for each part
    | Reporting(batch: seq<Metric>, ok: bool, timing: Timing)   // blocked on the timing channel
    | Counting(batch: seq<Metric>, ok: bool)      // timing taken, counter not yet moved
    | Counted(batch: seq<Metric>, ok: bool)

  datatype Recorder =
    | Idle
    | Taken(timing: Timing)       // received, totalEmissions not yet moved
    | Numbered(timing: Timing)    // totalEmissions moved, list not yet updated

  datatype State = State(
    slots: seq<Slot>,
    routines: seq<Routine>,
    recorder: Recorder,
    totalEmissions: nat,
    metricsSent: nat,
    metricsDropped: nat,
    emissionTimes: seq<Timing>,
    receptions: seq<Reception>,
    clock: int)

  datatype Action =
    | Turns(i: nat, e: Event)                             // a listener's select wakes up
    | EmitReturns(j: nat, ok: bool, duration: int, now: int)
    | Divide(j: nat, names: seq<string>)                  // SignalFx starts ranging over its batches
    | SpawnPart(j: nat)
    | HandOver(j: nat)                                    // rendezvous on the unbuffered channel
    | Number
    | Prune(now: int)
    | Count(j: nat)

  function Init(cfg: Config): State {
    State(seq(|cfg.sizes|, i requires 0 <= i < |cfg.sizes| => Slot(Start(cfg.sizes[i]), [], [])),
          [], Idle, 0, 0, 0, [], [], 0)
  }

  // Only a whole batch is divided, and only under custom reporting by dimension.
  predicate Divides(cfg: Config, r: Routine) {
    r.Emitting? && r.whole && cfg.customReporter && cfg.batchByDimension != ""
  }

  ghost predicate Enabled(cfg: Config, s: State, a: Action) {
    match a
    case Turns(i, _) => i < |s.slots| && s.slots[i].listener.reading
    case EmitReturns(j, _, _, now) =>
      j < |s.routines| && s.routines[j].Emitting? && !Divides(cfg, s.routines[j]) && s.clock <= now
    case Divide(j, names) =>
      j < |s.routines| && Divides(cfg, s.routines[j]) && Enumerates(names, s.routines[j].batch, cfg.batchByDimension)
    case SpawnPart(j) => j < |s.routines| && s.routines[j].Splitting? && s.routines[j].parts != []
    case HandOver(j) => j < |s.routines| && s.routines[j].Reporting? && s.recorder.Idle?
    case Number => s.recorder.Taken?
    case Prune(now) => s.recorder.Numbered? && s.clock <= now
    case Count(j) => j < |s.routines| && s.routines[j].Counting?
  }

  function Spawn(batches: seq<seq<Metric>>): seq<Routine> {
    seq(|batches|, k requires 0 <= k < |batches| => Emitting(batches[k], true))
  }

  ghost function Next(cfg: Config, s: State, a: Action): State
    requires Enabled(cfg, s, a)
  {
    match a
    case Turns(i, e) =>
      var slot := s.slots[i];
      var (l, cut) := Turn(slot.listener, e);
      s.(slots := s.slots[i := Slot(l, slot.log + [e], slot.spawned + cut)],
         routines := s.routines + Spawn(cut))
    case EmitReturns(j, ok, duration, now) =>
      var b := s.routines[j].batch;
      s.(routines := s.routines[j := Reporting(b, ok, EmissionWindow.Timing(now, duration, |b|))], clock := now)
    case Divide(j, names) =>
      s.(routines := s.routines[j := Splitting(Parts(s.routines[j].batch, cfg.batchByDimension, names))])
    case SpawnPart(j) =>
      var parts := s.routines[j].parts;
      s.(routines := s.routines[j := Splitting(parts[1..])] + [Emitting(parts[0], false)])
    case HandOver(j) =>
      var r := s.routines[j];
      s.(routines := s.routines[j := Counting(r.batch, r.ok)], recorder := Taken(r.timing))
    case Number =>
      s.(recorder := Numbered(s.recorder.timing), totalEmissions := s.totalEmissions + 1)
    case Prune(now) =>
      var t := s.recorder.timing;
      s.(recorder := Idle,
         emissionTimes := EmissionWindow.DropExpired(s.emissionTimes + [t], EmissionWindow.Cutoff(now, cfg.interval)),
         receptions := s.receptions + [EmissionWindow.Reception(t, now)],
         clock := now)
    case Count(j) =>
      var r := s.routines[j];
      var s' := s.(routines := s.routines[j := Counted(r.batch, r.ok)]);
      if r.ok then s'.(metricsSent := s.metricsSent + |r.batch|)
      else s'.(metricsDropped := s.metricsDropped + |r.batch|)
  }

  // Any interleaving: an action that is not enabled changes nothing.
  ghost function After(cfg: Config, run: seq<Action>): State {
    if run == [] then Init(cfg)
    else
      var s, a := After(cfg, run[..|run| - 1]), run[|run| - 1];
      if Enabled(cfg, s, a) then Next(cfg, s, a) else s
  }

  // ---- Where the metrics are ----

  function Sum<T, V>(xs: seq<T>, f: T -> multiset<V>): multiset<V> {
    if xs == [] then multiset{} else Sum(xs[..|xs| - 1], f) + f(xs[|xs| - 1])
  }

  lemma {:induction false} SumAppend<T, V>(xs: seq<T>, ys: seq<T>, f: T -> multiset<V>)
    ensures Sum(xs + ys, f) == Sum(xs, f) + Sum(ys, f)
  {
    if ys == [] {
      assert xs + ys == xs;
    } else {
      assert (xs + ys)[..|xs + ys| - 1] == xs + ys[..|ys| - 1];
      SumAppend(xs, ys[..|ys| - 1], f);
    }
  }

  lemma {:induction false} SumUpdate<T, V>(xs: seq<T>, j: nat, x: T, f: T -> multiset<V>)
    requires j < |xs|
    ensures Sum(xs[j := x], f) + f(xs[j]) == Sum(xs, f) + f(x)
  {
    if j == |xs| - 1 {
      assert xs[j := x][..j] == xs[..j];
    } else {
      assert xs[j := x][..|xs| - 1] == xs[..|xs| - 1][j := x];
      assert xs[..|xs| - 1][j] == xs[j] && xs[j := x][|xs| - 1] == xs[|xs| - 1];
      SumUpdate(xs[..|xs| - 1], j, x, f);
      assert Sum(xs[j := x], f) == Sum(xs[..|xs| - 1][j := x], f) + f(xs[|xs| - 1]);
      assert Sum(xs[j := x], f) + f(xs[j]) ==
             (Sum(xs[..|xs| - 1][j := x], f) + f(xs[..|xs| - 1][j])) + f(xs[|xs| - 1]);
    }
  }

  function Pending(r: Routine): multiset<Metric> {
    match r
    case Emitting(b, _) => multiset(b)
    case Splitting(parts) => multiset(Concat(parts))
    case Reporting(b, _, _) => multiset(b)
    case Counting(b, _) => multiset(b)
    case Counted(_, _) => multiset{}
  }

  function Delivered(r: Routine): multiset<Metric> {
    if r.Counted? && r.ok then multiset(r.batch) else multiset{}
  }

  function Dropped(r: Routine): multiset<Metric> {
    if r.Counted? && !r.ok then multiset(r.batch) else multiset{}
  }

  function SlotSpawned(slot: Slot): multiset<Metric> { multiset(Concat(slot.spawned)) }
  function SlotBuffered(slot: Slot): multiset<Metric> { multiset(slot.listener.metrics) }
  function SlotAccepted(slot: Slot): multiset<Metric> { multiset(Accepted(slot.log)) }

  // A goroutine whose timing the recorder has taken.
  predicate HandedOver(r: Routine) { r.Counting? || r.Counted? }

  function NumHandedOver(rs: seq<Routine>): nat {
    if rs == [] then 0 else NumHandedOver(rs[..|rs| - 1]) + (if HandedOver(rs[|rs| - 1]) then 1 else 0)
  }

  function NumCounted(rs: seq<Routine>): nat {
    if rs == [] then 0 else NumCounted(rs[..|rs| - 1]) + (if rs[|rs| - 1].Counted? then 1 else 0)
  }

  lemma {:induction false} NumAppend(rs: seq<Routine>, more: seq<Routine>)
    requires forall r <- more :: r.Emitting?
    ensures NumHandedOver(rs + more) == NumHandedOver(rs)
  {
    if more == [] {
      assert rs + more == rs;
    } else {
      assert (rs + more)[..|rs + more| - 1] == rs + more[..|more| - 1];
      NumAppend(rs, more[..|more| - 1]);
      assert more[|more| - 1] in more && !HandedOver((rs + more)[|rs + more| - 1]);
    }
  }

  lemma {:induction false} NumUpdate(rs: seq<Routine>, j: nat, r: Routine)
    requires j < |rs|
    ensures NumHandedOver(rs[j := r]) + (if HandedOver(rs[j]) then 1 else 0) ==
            NumHandedOver(rs) + (if HandedOver(r) then 1 else 0)
  {
    if j == |rs| - 1 {
      assert rs[j := r][..j] == rs[..j];
    } else {
      assert rs[j := r][..|rs| - 1] == rs[..|rs| - 1][j := r];
      NumUpdate(rs[..|rs| - 1], j, r);
    }
  }

  lemma {:induction false} CountedAreHandedOver(rs: seq<Routine>)
    ensures NumCounted(rs) <= NumHandedOver(rs)
  {
    if rs != [] {
      CountedAreHandedOver(rs[..|rs| - 1]);
    }
  }

  // ---- What every step keeps ----

  ghost predicate SlotOk(cfg: Config, i: nat, slot: Slot)
    requires i < |cfg.sizes|
  {
    (slot.listener, slot.spawned) == Listen(cfg.sizes[i], slot.log)
  }

  ghost predicate SlotsOk(cfg: Config, s: State) {
    |s.slots| == |cfg.sizes| && forall i :: 0 <= i < |s.slots| ==> SlotOk(cfg, i, s.slots[i])
  }

  ghost predicate MetricsOk(s: State) {
    && Sum(s.slots, SlotSpawned) ==
       Sum(s.routines, Pending) + Sum(s.routines, Delivered) + Sum(s.routines, Dropped)
    && s.metricsSent == |Sum(s.routines, Delivered)|
    && s.metricsDropped == |Sum(s.routines, Dropped)|
  }

  ghost predicate RecorderOk(s: State) {
    && NumHandedOver(s.routines) == s.totalEmissions + (if s.recorder.Taken? then 1 else 0)
    && s.totalEmissions == |s.receptions| + (if s.recorder.Numbered? then 1 else 0)
  }

  ghost predicate WindowOk(cfg: Config, s: State) {
    && s.emissionTimes == EmissionWindow.Window(s.receptions, cfg.interval)
    && EmissionWindow.ClockAdvances(s.receptions)
    && forall r <- s.receptions :: r.now <= s.clock
  }

  ghost predicate BatchesOk(s: State) {
    && (forall r <- s.routines :: r.Reporting? ==> r.timing.metricsSent == |r.batch|)
  }

  ghost predicate Inv(cfg: Config, s: State) {
    SlotsOk(cfg, s) && MetricsOk(s) && RecorderOk(s) && WindowOk(cfg, s) && BatchesOk(s)
  }

  lemma InitInv(cfg: Config)
    ensures Inv(cfg, Init(cfg))
  {
    NothingYet(Init(cfg).slots);
  }

  lemma {:induction false} NothingYet(slots: seq<Slot>)
    requires forall slot <- slots :: slot.spawned == []
    ensures Sum(slots, SlotSpawned) == multiset{}
  {
    if slots != [] {
      NothingYet(slots[..|slots| - 1]);
    }
  }

  lemma Cancel(p': multiset<Metric>, p: multiset<Metric>, a: multiset<Metric>, b: multiset<Metric>)
    requires p' + (a + b) == p + a
    ensures p' + b == p
  {
    forall m: Metric ensures (p' + b)[m] == p[m] {
      assert (p' + (a + b))[m] == (p + a)[m];
    }
  }

  // The bookkeeping of one replacement, on plain multisets.
  lemma Rebalance(
    p: multiset<Metric>, d: multiset<Metric>, x: multiset<Metric>,
    p': multiset<Metric>, d': multiset<Metric>, x': multiset<Metric>,
    was: multiset<Metric>, rp: multiset<Metric>, rd: multiset<Metric>, rx: multiset<Metric>)
    requires p' + was == p + rp && d' == d + rd && x' == x + rx && was == rp + rd + rx
    ensures p' + d' + x' == p + d + x
  {
    forall m: Metric ensures (p' + d' + x')[m] == (p + d + x)[m] {
      assert (p' + was)[m] == (p + rp)[m];
    }
  }

  lemma ReplaceSums(rs: seq<Routine>, j: nat, r: Routine, rs': seq<Routine>)
    requires j < |rs| && rs' == rs[j := r] && !rs[j].Counted?
    ensures Sum(rs', Pending) + Pending(rs[j]) == Sum(rs, Pending) + Pending(r)
    ensures Sum(rs', Delivered) == Sum(rs, Delivered) + Delivered(r)
    ensures Sum(rs', Dropped) == Sum(rs, Dropped) + Dropped(r)
  {
    SumUpdate(rs, j, r, Pending);
    SumUpdate(rs, j, r, Delivered);
    SumUpdate(rs, j, r, Dropped);
    NothingCounted(rs[j]);
    Cancel(Sum(rs', Delivered), Sum(rs, Delivered) + Delivered(r), multiset{}, multiset{});
    Cancel(Sum(rs', Dropped), Sum(rs, Dropped) + Dropped(r), multiset{}, multiset{});
  }

  lemma NothingCounted(r: Routine)
    requires !r.Counted?
    ensures Delivered(r) == multiset{} == Dropped(r)
  {
  }

  // A routine that is not counted yet is replaced by one that accounts for the
  // same metrics, and the counters move with them.
  lemma ReplaceKeepsMetrics(s: State, s': State, j: nat, r: Routine)
    requires MetricsOk(s) && s'.slots == s.slots
    requires j < |s.routines| && !s.routines[j].Counted? && s'.routines == s.routines[j := r]
    requires Pending(s.routines[j]) == Pending(r) + Delivered(r) + Dropped(r)
    requires s'.metricsSent == s.metricsSent + |Delivered(r)|
    requires s'.metricsDropped == s.metricsDropped + |Dropped(r)|
    ensures MetricsOk(s')
  {
    ReplaceSums(s.routines, j, r, s'.routines);
    Rebalance(Sum(s.routines, Pending), Sum(s.routines, Delivered), Sum(s.routines, Dropped),
              Sum(s'.routines, Pending), Sum(s'.routines, Delivered), Sum(s'.routines, Dropped),
              Pending(s.routines[j]), Pending(r), Delivered(r), Dropped(r));
  }

  // A new goroutine with metrics that were just counted as spawned.
  lemma SpawnKeepsSums(rs: seq<Routine>, r: Routine)
    requires r.Emitting?
    ensures Sum(rs + [r], Pending) == Sum(rs, Pending) + multiset(r.batch)
    ensures Sum(rs + [r], Delivered) == Sum(rs, Delivered)
    ensures Sum(rs + [r], Dropped) == Sum(rs, Dropped)
    ensures NumHandedOver(rs + [r]) == NumHandedOver(rs)
  {
    assert (rs + [r])[..|rs|] == rs;
  }

  lemma SpawnKeepsMetrics(s: State, s': State, i: nat, slot': Slot, batch: seq<Metric>)
    requires MetricsOk(s) && i < |s.slots|
    requires s'.slots == s.slots[i := slot'] && slot'.spawned == s.slots[i].spawned + [batch]
    requires s'.routines == s.routines + [Emitting(batch, true)]
    requires s'.metricsSent == s.metricsSent && s'.metricsDropped == s.metricsDropped
    ensures MetricsOk(s')
  {
    SumUpdate(s.slots, i, slot', SlotSpawned);
    ConcatSnoc(s.slots[i].spawned, batch);
    SpawnKeepsSums(s.routines, Emitting(batch, true));
    var was := SlotSpawned(s.slots[i]);
    assert SlotSpawned(slot') == was + multiset(batch);
    Cancel(Sum(s.slots, SlotSpawned) + multiset(batch), Sum(s'.slots, SlotSpawned), was, multiset{});
  }

  lemma QuietTurnKeepsMetrics(s: State, s': State, i: nat, slot': Slot)
    requires MetricsOk(s) && i < |s.slots|
    requires s'.slots == s.slots[i := slot'] && slot'.spawned == s.slots[i].spawned
    requires s'.routines == s.routines
    requires s'.metricsSent == s.metricsSent && s'.metricsDropped == s.metricsDropped
    ensures MetricsOk(s')
  {
    SumUpdate(s.slots, i, slot', SlotSpawned);
    Cancel(Sum(s'.slots, SlotSpawned), Sum(s.slots, SlotSpawned), SlotSpawned(slot'), multiset{});
  }

  lemma TurnsKeepsSlots(cfg: Config, s: State, i: nat, e: Event)
    requires SlotsOk(cfg, s) && Enabled(cfg, s, Turns(i, e))
    ensures SlotsOk(cfg, Next(cfg, s, Turns(i, e)))
  {
    assert SlotOk(cfg, i, s.slots[i]);
    ListenSnoc(cfg.sizes[i], s.slots[i].log, e);
  }

  // A turn cuts at most one batch.
  lemma TurnCuts(l: Listener, e: Event)
    ensures var cut := Turn(l, e).1; cut == [] || (|cut| == 1 && Spawn(cut) == [Emitting(cut[0], true)])
  {
  }

  lemma TurnsKeepsMetrics(cfg: Config, s: State, i: nat, e: Event)
    requires MetricsOk(s) && Enabled(cfg, s, Turns(i, e))
    ensures MetricsOk(Next(cfg, s, Turns(i, e)))
  {
    var s' := Next(cfg, s, Turns(i, e));
    var cut := Turn(s.slots[i].listener, e).1;
    TurnCuts(s.slots[i].listener, e);
    if cut == [] {
      assert s'.routines == s.routines && s'.slots[i].spawned == s.slots[i].spawned;
      QuietTurnKeepsMetrics(s, s', i, s'.slots[i]);
    } else {
      assert cut == [cut[0]];
      SpawnKeepsMetrics(s, s', i, s'.slots[i], cut[0]);
    }
  }

  lemma TurnsKeepsRoutines(cfg: Config, s: State, i: nat, e: Event)
    requires RecorderOk(s) && BatchesOk(s) && Enabled(cfg, s, Turns(i, e))
    ensures RecorderOk(Next(cfg, s, Turns(i, e))) && BatchesOk(Next(cfg, s, Turns(i, e)))
  {
    var cut := Turn(s.slots[i].listener, e).1;
    TurnCuts(s.slots[i].listener, e);
    if cut == [] {
      assert s.routines + Spawn(cut) == s.routines;
    } else {
      SpawnKeepsSums(s.routines, Emitting(cut[0], true));
    }
  }

  lemma TurnsKeeps(cfg: Config, s: State, i: nat, e: Event)
    requires Inv(cfg, s) && Enabled(cfg, s, Turns(i, e))
    ensures Inv(cfg, Next(cfg, s, Turns(i, e)))
  {
    TurnsKeepsSlots(cfg, s, i, e);
    TurnsKeepsMetrics(cfg, s, i, e);
    TurnsKeepsRoutines(cfg, s, i, e);
  }

  lemma ReplaceKeepsOthers(cfg: Config, s: State, s': State, j: nat, r: Routine)
    requires j < |s.routines| && s'.routines == s.routines[j := r]
    requires SlotsOk(cfg, s) && BatchesOk(s) && s'.slots == s.slots
    requires r.Reporting? ==> r.timing.metricsSent == |r.batch|
    ensures SlotsOk(cfg, s') && BatchesOk(s')
    ensures NumHandedOver(s'.routines) + (if HandedOver(s.routines[j]) then 1 else 0) ==
            NumHandedOver(s.routines) + (if HandedOver(r) then 1 else 0)
  {
    NumUpdate(s.routines, j, r);
    forall q | q in s'.routines && q.Reporting? ensures q.timing.metricsSent == |q.batch| {
      var k :| 0 <= k < |s'.routines| && s'.routines[k] == q;
      assert k == j || s.routines[k] in s.routines;
    }
  }

  lemma EmitReturnsKeeps(cfg: Config, s: State, a: Action)
    requires a.EmitReturns? && Inv(cfg, s) && Enabled(cfg, s, a)
    ensures Inv(cfg, Next(cfg, s, a))
  {
    var s' := Next(cfg, s, a);
    ReplaceKeepsMetrics(s, s', a.j, s'.routines[a.j]);
    ReplaceKeepsOthers(cfg, s, s', a.j, s'.routines[a.j]);
    assert WindowOk(cfg, s');
  }

  lemma DivideKeeps(cfg: Config, s: State, a: Action)
    requires a.Divide? && Inv(cfg, s) && Enabled(cfg, s, a)
    ensures Inv(cfg, Next(cfg, s, a))
  {
    var s' := Next(cfg, s, a);
    PartsPartition(s.routines[a.j].batch, cfg.batchByDimension, a.names);
    ReplaceKeepsMetrics(s, s', a.j, s'.routines[a.j]);
    ReplaceKeepsOthers(cfg, s, s', a.j, s'.routines[a.j]);
    assert WindowOk(cfg, s');
  }

  lemma PartHead(parts: seq<seq<Metric>>)
    requires parts != []
    ensures multiset(Concat(parts)) == multiset(Concat(parts[1..])) + multiset(parts[0])
  {
    ConcatCons(parts[0], parts[1..]);
    assert parts == [parts[0]] + parts[1..];
  }

  lemma SpawnPartSums(rs: seq<Routine>, j: nat, mid: seq<Routine>)
    requires j < |rs| && rs[j].Splitting? && rs[j].parts != []
    requires mid == rs[j := Splitting(rs[j].parts[1..])]
    ensures Sum(mid, Pending) + multiset(rs[j].parts[0]) == Sum(rs, Pending)
    ensures Sum(mid, Delivered) == Sum(rs, Delivered)
    ensures Sum(mid, Dropped) == Sum(rs, Dropped)
  {
    var rest := Splitting(rs[j].parts[1..]);
    ReplaceSums(rs, j, rest, mid);
    NothingCounted(rest);
    PartHead(rs[j].parts);
    Cancel(Sum(mid, Pending), Sum(rs, Pending), Pending(rest), multiset(rs[j].parts[0]));
  }

  lemma SpawnPartKeepsMetrics(s: State, s': State, j: nat, mid: seq<Routine>)
    requires MetricsOk(s) && j < |s.routines| && s.routines[j].Splitting? && s.routines[j].parts != []
    requires s'.slots == s.slots && s'.metricsSent == s.metricsSent && s'.metricsDropped == s.metricsDropped
    requires mid == s.routines[j := Splitting(s.routines[j].parts[1..])]
    requires s'.routines == mid + [Emitting(s.routines[j].parts[0], false)]
    ensures MetricsOk(s')
  {
    SpawnPartSums(s.routines, j, mid);
    SpawnKeepsSums(mid, Emitting(s.routines[j].parts[0], false));
  }

  lemma SpawnPartKeeps(cfg: Config, s: State, a: Action)
    requires a.SpawnPart? && Inv(cfg, s) && Enabled(cfg, s, a)
    ensures Inv(cfg, Next(cfg, s, a))
  {
    var rest := Splitting(s.routines[a.j].parts[1..]);
    var mid, s' := s.(routines := s.routines[a.j := rest]), Next(cfg, s, a);
    SpawnPartKeepsMetrics(s, s', a.j, mid.routines);
    ReplaceKeepsOthers(cfg, s, mid, a.j, rest);
    SpawnKeepsOthers(cfg, mid, s', s.routines[a.j].parts[0]);
    assert WindowOk(cfg, s');
  }

  lemma SpawnKeepsOthers(cfg: Config, s: State, s': State, part: seq<Metric>)
    requires s' == s.(routines := s.routines + [Emitting(part, false)])
    requires SlotsOk(cfg, s) && BatchesOk(s)
    ensures SlotsOk(cfg, s') && BatchesOk(s') && NumHandedOver(s'.routines) == NumHandedOver(s.routines)
  {
    SpawnKeepsSums(s.routines, Emitting(part, false));
  }

  lemma HandOverKeeps(cfg: Config, s: State, a: Action)
    requires a.HandOver? && Inv(cfg, s) && Enabled(cfg, s, a)
    ensures Inv(cfg, Next(cfg, s, a))
  {
    var s' := Next(cfg, s, a);
    ReplaceKeepsMetrics(s, s', a.j, s'.routines[a.j]);
    ReplaceKeepsOthers(cfg, s, s', a.j, s'.routines[a.j]);
    assert WindowOk(cfg, s');
  }

  // Counting moves a batch from pending to one of the two counters.
  lemma CountMoves(cfg: Config, s: State, j: nat)
    requires Enabled(cfg, s, Count(j))
    ensures var r, s' := s.routines[j], Next(cfg, s, Count(j));
            var r' := Counted(r.batch, r.ok);
            && s'.routines == s.routines[j := r'] && s'.slots == s.slots
            && Pending(r) == Pending(r') + Delivered(r') + Dropped(r')
            && s'.metricsSent == s.metricsSent + |Delivered(r')|
            && s'.metricsDropped == s.metricsDropped + |Dropped(r')|
  {
  }

  lemma CountKeeps(cfg: Config, s: State, a: Action)
    requires a.Count? && Inv(cfg, s) && Enabled(cfg, s, a)
    ensures Inv(cfg, Next(cfg, s, a))
  {
    var s', r' := Next(cfg, s, a), Counted(s.routines[a.j].batch, s.routines[a.j].ok);
    CountMoves(cfg, s, a.j);
    ReplaceKeepsMetrics(s, s', a.j, r');
    ReplaceKeepsOthers(cfg, s, s', a.j, r');
    assert WindowOk(cfg, s');
  }

  lemma PruneKeeps(cfg: Config, s: State, a: Action)
    requires a.Prune? && Inv(cfg, s) && Enabled(cfg, s, a)
    ensures Inv(cfg, Next(cfg, s, a))
  {
    var s' := Next(cfg, s, a);
    assert s'.receptions[..|s.receptions|] == s.receptions;
    forall i, j | 0 <= i < j < |s'.receptions|
      ensures s'.receptions[i].now <= s'.receptions[j].now
    {
      assert s'.receptions[i] == s.receptions[i];
    }
  }

  lemma StepKeeps(cfg: Config, s: State, a: Action)
    requires Inv(cfg, s) && Enabled(cfg, s, a)
    ensures Inv(cfg, Next(cfg, s, a))
  {
    match a
    case Turns(i, e) => TurnsKeeps(cfg, s, i, e);
    case EmitReturns(_, _, _, _) => EmitReturnsKeeps(cfg, s, a);
    case Divide(_, _) => DivideKeeps(cfg, s, a);
    case SpawnPart(_) => SpawnPartKeeps(cfg, s, a);
    case HandOver(_) => HandOverKeeps(cfg, s, a);
    case Number =>
    case Prune(_) => PruneKeeps(cfg, s, a);
    case Count(_) => CountKeeps(cfg, s, a);
  }

  lemma {:induction false} RunKeeps(cfg: Config, run: seq<Action>)
    ensures Inv(cfg, After(cfg, run))
  {
    if run == [] {
      InitInv(cfg);
    } else {
      RunKeeps(cfg, run[..|run| - 1]);
      var s, a := After(cfg, run[..|run| - 1]), run[|run| - 1];
      if Enabled(cfg, s, a) {
        StepKeeps(cfg, s, a);
      }
    }
  }

  // ---- Main results, for every configuration and every interleaving ----

  lemma {:induction false} AcceptedIsSpawnedOrBuffered(slots: seq<Slot>)
    requires forall slot <- slots :: SlotAccepted(slot) == SlotSpawned(slot) + SlotBuffered(slot)
    ensures Sum(slots, SlotAccepted) == Sum(slots, SlotSpawned) + Sum(slots, SlotBuffered)
  {
    if slots != [] {
      AcceptedIsSpawnedOrBuffered(slots[..|slots| - 1]);
      var last := slots[|slots| - 1];
      assert last in slots;
    }
  }

  // Each listener delivers its own metrics in order: what it spawned, followed
  // by what it still buffers, is what it has read, and it cuts no batch that is
  // empty or longer than its endpoint allows.
  lemma ListenersKeepOrder(cfg: Config, run: seq<Action>, i: nat)
    requires i < |cfg.sizes|
    ensures var s := After(cfg, run);
            && i < |s.slots|
            && Concat(s.slots[i].spawned) + s.slots[i].listener.metrics == Accepted(s.slots[i].log)
            && s.slots[i].listener.currentBufferSize == |s.slots[i].listener.metrics|
            && forall b <- s.slots[i].spawned :: |b| == 1 || 1 < |b| <= cfg.sizes[i]
  {
    RunKeeps(cfg, run);
    var slot := After(cfg, run).slots[i];
    assert SlotOk(cfg, i, slot);
    BatchesPartitionAccepted(cfg.sizes[i], slot.log);
  }

  // Every metric a listener has accepted is buffered, on its way, counted as
  // sent or counted as dropped, and never in two of these at once.
  lemma NoMetricIsLostOrCountedTwice(cfg: Config, run: seq<Action>)
    ensures var s := After(cfg, run);
            && Sum(s.slots, SlotAccepted) ==
               Sum(s.slots, SlotBuffered) + Sum(s.routines, Pending) +
               Sum(s.routines, Delivered) + Sum(s.routines, Dropped)
            && |Sum(s.slots, SlotAccepted)| ==
               |Sum(s.slots, SlotBuffered)| + |Sum(s.routines, Pending)| + s.metricsSent + s.metricsDropped
  {
    RunKeeps(cfg, run);
    var s := After(cfg, run);
    forall slot | slot in s.slots ensures SlotAccepted(slot) == SlotSpawned(slot) + SlotBuffered(slot) {
      var i :| 0 <= i < |s.slots| && s.slots[i] == slot;
      ListenersKeepOrder(cfg, run, i);
    }
    AcceptedIsSpawnedOrBuffered(s.slots);
  }

  // A batch is counted only once its timing has been received, and there is one
  // recorder, so the batches counted are at most one ahead of totalEmissions.
  lemma CountedBatchesWereRecorded(cfg: Config, run: seq<Action>)
    ensures var s := After(cfg, run);
            && NumCounted(s.routines) <= NumHandedOver(s.routines) <= s.totalEmissions + 1
            && (!s.recorder.Taken? ==> NumHandedOver(s.routines) == s.totalEmissions)
            && |s.receptions| <= s.totalEmissions <= |s.receptions| + 1
  {
    RunKeeps(cfg, run);
    CountedAreHandedOver(After(cfg, run).routines);
  }

  lemma WindowIsKept(cfg: Config, run: seq<Action>)
    ensures var s := After(cfg, run);
            && s.emissionTimes == EmissionWindow.Window(s.receptions, cfg.interval)
            && EmissionWindow.ClockAdvances(s.receptions)
  {
    RunKeeps(cfg, run);
  }

  lemma WindowFromTheFirstYoungOne(cfg: Config, run: seq<Action>) returns (k: nat)
    ensures var s := After(cfg, run);
            && k <= |s.receptions| && |s.emissionTimes| == |s.receptions| - k
            && (forall i :: k <= i < |s.receptions| ==> s.emissionTimes[i - k] == s.receptions[i].timing)
            && (forall i :: 0 <= i < k ==>
                  s.receptions[|s.receptions| - 1].now - s.receptions[i].timing.timestamp >
                  cfg.interval * 1_000_000_000)
            && (k < |s.receptions| ==>
                  s.receptions[|s.receptions| - 1].now - s.receptions[k].timing.timestamp <=
                  cfg.interval * 1_000_000_000)
  {
    WindowIsKept(cfg, run);
    k := 0;
    if After(cfg, run).receptions != [] {
      k := EmissionWindow.WindowFromTheFirstYoungOne(After(cfg, run).receptions, cfg.interval);
    }
  }

  // The emission list is one drop-while over everything recorded so far: it holds
  // the timings received since the first one that is, at the last reception, at
  // most the interval old.
  lemma WindowFollowsHistory(cfg: Config, run: seq<Action>) returns (k: nat)
    ensures var s := After(cfg, run);
            && (s.receptions == [] ==> s.emissionTimes == [])
            && (s.receptions != [] ==>
                  s.emissionTimes ==
                  EmissionWindow.DropExpired(EmissionWindow.History(s.receptions),
                    EmissionWindow.Cutoff(s.receptions[|s.receptions| - 1].now, cfg.interval)))
    ensures var s := After(cfg, run);
            && k <= |s.receptions| && |s.emissionTimes| == |s.receptions| - k
            && (forall i :: k <= i < |s.receptions| ==> s.emissionTimes[i - k] == s.receptions[i].timing)
            && (forall i :: 0 <= i < k ==>
                  s.receptions[|s.receptions| - 1].now - s.receptions[i].timing.timestamp >
                  cfg.interval * 1_000_000_000)
            && (k < |s.receptions| ==>
                  s.receptions[|s.receptions| - 1].now - s.receptions[k].timing.timestamp <=
                  cfg.interval * 1_000_000_000)
  {
    k := WindowFromTheFirstYoungOne(cfg, run);
    WindowIsKept(cfg, run);
    if After(cfg, run).receptions != [] {
      EmissionWindow.WindowIsDropWhile(After(cfg, run).receptions, cfg.interval);
    }
  }

  // ---- What the emit functions returned ----

  // The batches whose emit function has returned ok, in the order they did.
  ghost function EmittedAs(cfg: Config, run: seq<Action>, ok: bool): seq<seq<Metric>> {
    if run == [] then []
    else
      var before, a := run[..|run| - 1], run[|run| - 1];
      var s := After(cfg, before);
      EmittedAs(cfg, before, ok) +
      if Enabled(cfg, s, a) && a.EmitReturns? && a.ok == ok then [s.routines[a.j].batch] else []
  }

  // When, for how long and with how many metrics each returned.
  ghost function TimedEmits(cfg: Config, run: seq<Action>): seq<Timing> {
    if run == [] then []
    else
      var before, a := run[..|run| - 1], run[|run| - 1];
      var s := After(cfg, before);
      TimedEmits(cfg, before) +
      if Enabled(cfg, s, a) && a.EmitReturns? then
        [EmissionWindow.Timing(a.now, a.duration, |s.routines[a.j].batch|)]
      else []
  }

  // What a goroutine knows of it from then on.
  function Returned(ok: bool): Routine -> multiset<Metric> {
    (r: Routine) =>
      if (r.Reporting? || r.Counting? || r.Counted?) && r.ok == ok then multiset(r.batch) else multiset{}
  }

  function Uncounted(ok: bool): Routine -> multiset<Metric> {
    (r: Routine) => if (r.Reporting? || r.Counting?) && r.ok == ok then multiset(r.batch) else multiset{}
  }

  function InChannel(r: Routine): multiset<Timing> {
    if r.Reporting? then multiset{r.timing} else multiset{}
  }

  function InHand(r: Recorder): multiset<Timing> {
    if r.Idle? then multiset{} else multiset{r.timing}
  }

  ghost predicate OutcomesOk(cfg: Config, run: seq<Action>, ok: bool) {
    Sum(After(cfg, run).routines, Returned(ok)) == multiset(Concat(EmittedAs(cfg, run, ok)))
  }

  lemma {:induction false} SumNothing<T, V>(xs: seq<T>, f: T -> multiset<V>)
    requires forall x <- xs :: f(x) == multiset{}
    ensures Sum(xs, f) == multiset{}
  {
    if xs != [] {
      SumNothing(xs[..|xs| - 1], f);
    }
  }

  lemma SpawnedSumsStay<V>(rs: seq<Routine>, more: seq<Routine>, f: Routine -> multiset<V>)
    requires forall r <- more :: f(r) == multiset{}
    ensures Sum(rs + more, f) == Sum(rs, f)
  {
    SumAppend(rs, more, f);
    SumNothing(more, f);
  }

  lemma CancelSame<V>(p': multiset<V>, p: multiset<V>, x: multiset<V>)
    requires p' + x == p + x
    ensures p' == p
  {
    forall m ensures p'[m] == p[m] {
      assert (p' + x)[m] == (p + x)[m];
    }
  }

  lemma ReplacedSums<V>(rs: seq<Routine>, j: nat, r: Routine, f: Routine -> multiset<V>)
    requires j < |rs| && f(rs[j]) == multiset{}
    ensures Sum(rs[j := r], f) == Sum(rs, f) + f(r)
  {
    SumUpdate(rs, j, r, f);
    CancelSame(Sum(rs[j := r], f), Sum(rs, f) + f(r), multiset{});
  }

  // What a goroutine that has not returned yet adds to a sum.
  ghost predicate NothingReturned<V>(f: Routine -> multiset<V>) {
    && (forall b, whole :: f(Emitting(b, whole)) == multiset{})
    && forall parts :: f(Splitting(parts)) == multiset{}
  }

  lemma NotReturned<V>(r: Routine, f: Routine -> multiset<V>)
    requires NothingReturned(f) && (r.Emitting? || r.Splitting?)
    ensures f(r) == multiset{}
  {
    if r.Emitting? {
      assert r == Emitting(r.batch, r.whole);
    } else {
      assert r == Splitting(r.parts);
    }
  }

  // Steps that change no sum over what has returned.
  predicate Quiet(a: Action) {
    a.Turns? || a.Divide? || a.SpawnPart? || a.Number? || a.Prune?
  }

  lemma QuietSums<V>(cfg: Config, s: State, a: Action, f: Routine -> multiset<V>)
    requires Enabled(cfg, s, a) && Quiet(a) && NothingReturned(f)
    ensures Sum(Next(cfg, s, a).routines, f) == Sum(s.routines, f)
  {
    match a
    case Turns(i, e) => SpawnedSumsStay(s.routines, Spawn(Turn(s.slots[i].listener, e).1), f);
    case Divide(j, _) =>
      NotReturned(s.routines[j], f);
      ReplacedSums(s.routines, j, Next(cfg, s, a).routines[j], f);
    case SpawnPart(j) =>
      var rest := Splitting(s.routines[j].parts[1..]);
      NotReturned(s.routines[j], f);
      ReplacedSums(s.routines, j, rest, f);
      SpawnedSumsStay(s.routines[j := rest], [Emitting(s.routines[j].parts[0], false)], f);
    case Number =>
    case Prune(_) =>
  }

  lemma EmittedSnoc(cfg: Config, before: seq<Action>, a: Action, ok: bool)
    ensures var s := After(cfg, before);
            EmittedAs(cfg, before + [a], ok) ==
            if Enabled(cfg, s, a) && a.EmitReturns? && a.ok == ok then
              EmittedAs(cfg, before, ok) + [s.routines[a.j].batch]
            else EmittedAs(cfg, before, ok)
  {
    assert (before + [a])[..|before|] == before;
  }

  lemma AfterSnoc(cfg: Config, before: seq<Action>, a: Action)
    ensures var s := After(cfg, before);
            After(cfg, before + [a]) == if Enabled(cfg, s, a) then Next(cfg, s, a) else s
  {
    assert (before + [a])[..|before|] == before;
  }

  lemma NothingReturnedYet(ok: bool)
    ensures NothingReturned(Returned(ok))
  {
  }

  // What a step's return adds.
  ghost function ReturnedBy(cfg: Config, s: State, a: Action, ok: bool): multiset<Metric>
    requires Enabled(cfg, s, a)
  {
    if a.EmitReturns? && a.ok == ok then multiset(s.routines[a.j].batch) else multiset{}
  }

  lemma EmitReturnsSums(cfg: Config, s: State, a: Action, ok: bool)
    requires Enabled(cfg, s, a) && a.EmitReturns?
    ensures Sum(Next(cfg, s, a).routines, Returned(ok)) == Sum(s.routines, Returned(ok)) + ReturnedBy(cfg, s, a, ok)
  {
    ReplacedSums(s.routines, a.j, Next(cfg, s, a).routines[a.j], Returned(ok));
  }

  lemma MovedSums(cfg: Config, s: State, a: Action, ok: bool)
    requires Enabled(cfg, s, a) && (a.HandOver? || a.Count?)
    ensures Sum(Next(cfg, s, a).routines, Returned(ok)) == Sum(s.routines, Returned(ok))
  {
    SameSums(s.routines, a.j, Next(cfg, s, a).routines[a.j], Returned(ok));
  }

  lemma ReturnedSums(cfg: Config, s: State, a: Action, ok: bool)
    requires Enabled(cfg, s, a)
    ensures Sum(Next(cfg, s, a).routines, Returned(ok)) == Sum(s.routines, Returned(ok)) + ReturnedBy(cfg, s, a, ok)
  {
    if a.EmitReturns? {
      EmitReturnsSums(cfg, s, a, ok);
    } else if Quiet(a) {
      NothingReturnedYet(ok);
      QuietSums(cfg, s, a, Returned(ok));
    } else {
      MovedSums(cfg, s, a, ok);
    }
  }

  lemma SameSums<V>(rs: seq<Routine>, j: nat, r: Routine, f: Routine -> multiset<V>)
    requires j < |rs| && f(rs[j]) == f(r)
    ensures Sum(rs[j := r], f) == Sum(rs, f)
  {
    SumUpdate(rs, j, r, f);
    CancelSame(Sum(rs[j := r], f), Sum(rs, f), f(r));
  }

  lemma OutcomesStep(cfg: Config, before: seq<Action>, a: Action, ok: bool)
    requires OutcomesOk(cfg, before, ok)
    ensures OutcomesOk(cfg, before + [a], ok)
  {
    var s := After(cfg, before);
    AfterSnoc(cfg, before, a);
    EmittedSnoc(cfg, before, a, ok);
    if Enabled(cfg, s, a) {
      ReturnedSums(cfg, s, a, ok);
      if a.EmitReturns? && a.ok == ok {
        ConcatSnoc(EmittedAs(cfg, before, ok), s.routines[a.j].batch);
      }
    }
  }

  lemma {:induction false} OutcomesFollow(cfg: Config, run: seq<Action>, ok: bool)
    ensures OutcomesOk(cfg, run, ok)
  {
    if run != [] {
      assert run == run[..|run| - 1] + [run[|run| - 1]];
      OutcomesFollow(cfg, run[..|run| - 1], ok);
      OutcomesStep(cfg, run[..|run| - 1], run[|run| - 1], ok);
    }
  }

  lemma TimedSnoc(cfg: Config, before: seq<Action>, a: Action)
    ensures var s := After(cfg, before);
            TimedEmits(cfg, before + [a]) ==
            if Enabled(cfg, s, a) && a.EmitReturns? then
              TimedEmits(cfg, before) + [EmissionWindow.Timing(a.now, a.duration, |s.routines[a.j].batch|)]
            else TimedEmits(cfg, before)
  {
    assert (before + [a])[..|before|] == before;
  }

  // Where the timings are.
  ghost function Timings(s: State): multiset<Timing> {
    Sum(s.routines, InChannel) + InHand(s.recorder) + multiset(EmissionWindow.History(s.receptions))
  }

  ghost function TimedBy(cfg: Config, s: State, a: Action): multiset<Timing>
    requires Enabled(cfg, s, a)
  {
    if a.EmitReturns? then multiset{EmissionWindow.Timing(a.now, a.duration, |s.routines[a.j].batch|)} else multiset{}
  }

  // The three places, on plain multisets.
  lemma OneMoves(c: multiset<Timing>, h: multiset<Timing>, r: multiset<Timing>,
                 c': multiset<Timing>, h': multiset<Timing>, r': multiset<Timing>, t: multiset<Timing>)
    requires (c' == c + t && h' == h && r' == r) || (c' + h' == c + h && t == multiset{} && r' == r) ||
             (c' == c && h' + r' == h + r && t == multiset{})
    ensures c' + h' + r' == c + h + r + t
  {
    assert h + r == r + h && h' + r' == r' + h';
    assert c + h + r == c + (h + r) && c' + h' + r' == c' + (h' + r');
  }

  lemma PruneRecords(cfg: Config, s: State, a: Action)
    requires Enabled(cfg, s, a) && a.Prune?
    ensures var s' := Next(cfg, s, a);
            && s'.routines == s.routines && InHand(s'.recorder) == multiset{}
            && multiset(EmissionWindow.History(s'.receptions)) ==
               InHand(s.recorder) + multiset(EmissionWindow.History(s.receptions))
  {
    assert EmissionWindow.History(Next(cfg, s, a).receptions) ==
           EmissionWindow.History(s.receptions) + [s.recorder.timing];
  }

  lemma HandOverTakes(cfg: Config, s: State, a: Action)
    requires Enabled(cfg, s, a) && a.HandOver?
    ensures var s' := Next(cfg, s, a);
            Sum(s'.routines, InChannel) + InHand(s'.recorder) == Sum(s.routines, InChannel) + InHand(s.recorder)
  {
    var was, r := s.routines[a.j], Next(cfg, s, a).routines[a.j];
    SumUpdate(s.routines, a.j, r, InChannel);
    assert InChannel(r) == multiset{} == InHand(s.recorder);
    assert InChannel(was) == multiset{was.timing} == InHand(Next(cfg, s, a).recorder);
  }

  lemma ChannelSums(cfg: Config, s: State, a: Action)
    requires Enabled(cfg, s, a) && !a.HandOver?
    ensures Sum(Next(cfg, s, a).routines, InChannel) == Sum(s.routines, InChannel) + TimedBy(cfg, s, a)
  {
    if a.EmitReturns? {
      ReplacedSums(s.routines, a.j, Next(cfg, s, a).routines[a.j], InChannel);
    } else if a.Count? {
      SameSums(s.routines, a.j, Next(cfg, s, a).routines[a.j], InChannel);
    } else {
      QuietSums(cfg, s, a, InChannel);
    }
  }

  lemma HandStays(cfg: Config, s: State, a: Action)
    requires Enabled(cfg, s, a) && !a.HandOver? && !a.Prune?
    ensures InHand(Next(cfg, s, a).recorder) == InHand(s.recorder)
  {
  }

  lemma TimingsMove(cfg: Config, s: State, a: Action)
    requires Enabled(cfg, s, a)
    ensures Timings(Next(cfg, s, a)) == Timings(s) + TimedBy(cfg, s, a)
  {
    var s' := Next(cfg, s, a);
    if a.Prune? {
      PruneRecords(cfg, s, a);
    } else if a.HandOver? {
      HandOverTakes(cfg, s, a);
    } else {
      ChannelSums(cfg, s, a);
      HandStays(cfg, s, a);
    }
    OneMoves(Sum(s.routines, InChannel), InHand(s.recorder), multiset(EmissionWindow.History(s.receptions)),
             Sum(s'.routines, InChannel), InHand(s'.recorder), multiset(EmissionWindow.History(s'.receptions)),
             TimedBy(cfg, s, a));
  }

  lemma {:induction false} TimingsFollow(cfg: Config, run: seq<Action>)
    ensures Timings(After(cfg, run)) == multiset(TimedEmits(cfg, run))
  {
    if run != [] {
      var before, a := run[..|run| - 1], run[|run| - 1];
      assert run == before + [a];
      TimingsFollow(cfg, before);
      AfterSnoc(cfg, before, a);
      TimedSnoc(cfg, before, a);
      if Enabled(cfg, After(cfg, before), a) {
        TimingsMove(cfg, After(cfg, before), a);
      }
    }
  }

  lemma {:induction false} SumSplits<T, V>(xs: seq<T>, f: T -> multiset<V>, g: T -> multiset<V>, h: T -> multiset<V>)
    requires forall x: T :: f(x) == g(x) + h(x)
    ensures Sum(xs, f) == Sum(xs, g) + Sum(xs, h)
  {
    if xs != [] {
      SumSplits(xs[..|xs| - 1], f, g, h);
      assert f(xs[|xs| - 1]) == g(xs[|xs| - 1]) + h(xs[|xs| - 1]);
    }
  }

  lemma ReturnedIsCountedOrNot(rs: seq<Routine>)
    ensures Sum(rs, Returned(true)) == Sum(rs, Delivered) + Sum(rs, Uncounted(true))
    ensures Sum(rs, Returned(false)) == Sum(rs, Dropped) + Sum(rs, Uncounted(false))
  {
    SumSplits(rs, Returned(true), Delivered, Uncounted(true));
    SumSplits(rs, Returned(false), Dropped, Uncounted(false));
  }

  lemma CountedFollowTheEmitFunctions(cfg: Config, run: seq<Action>)
    ensures var s := After(cfg, run);
            && Sum(s.routines, Delivered) + Sum(s.routines, Uncounted(true)) ==
               multiset(Concat(EmittedAs(cfg, run, true)))
            && Sum(s.routines, Dropped) + Sum(s.routines, Uncounted(false)) ==
               multiset(Concat(EmittedAs(cfg, run, false)))
  {
    OutcomesFollow(cfg, run, true);
    OutcomesFollow(cfg, run, false);
    ReturnedIsCountedOrNot(After(cfg, run).routines);
  }

  lemma SumSize(a: multiset<Metric>, b: multiset<Metric>, c: seq<Metric>)
    requires a + b == multiset(c)
    ensures |a| + |b| == |c|
  {
    assert |a + b| == |multiset(c)|;
  }

  // What is counted as sent, with what is still to be counted so, is what the emit
  // functions that returned true were given; and so for dropped and false.
  lemma CountersFollowTheEmitFunctions(cfg: Config, run: seq<Action>)
    ensures var s := After(cfg, run);
            && s.metricsSent + |Sum(s.routines, Uncounted(true))| == |Concat(EmittedAs(cfg, run, true))|
            && s.metricsDropped + |Sum(s.routines, Uncounted(false))| == |Concat(EmittedAs(cfg, run, false))|
  {
    var rs := After(cfg, run).routines;
    CountedFollowTheEmitFunctions(cfg, run);
    SumSize(Sum(rs, Delivered), Sum(rs, Uncounted(true)), Concat(EmittedAs(cfg, run, true)));
    SumSize(Sum(rs, Dropped), Sum(rs, Uncounted(false)), Concat(EmittedAs(cfg, run, false)));
    CountersAreSizes(cfg, run);
  }

  lemma CountersAreSizes(cfg: Config, run: seq<Action>)
    ensures var s := After(cfg, run);
            s.metricsSent == |Sum(s.routines, Delivered)| && s.metricsDropped == |Sum(s.routines, Dropped)|
  {
    RunKeeps(cfg, run);
  }

  // Every emit function that has returned left one timing, which waits at the
  // channel, is in the recorder's hand or has been recorded.
  lemma TimingsAreRecordedOnce(cfg: Config, run: seq<Action>)
    ensures var s := After(cfg, run);
            multiset(TimedEmits(cfg, run)) ==
            Sum(s.routines, InChannel) + InHand(s.recorder) + multiset(EmissionWindow.History(s.receptions))
  {
    TimingsFollow(cfg, run);
  }

  // ---- Which batches are emitted ----

  // A batch that a listener has cut.
  ghost predicate WasCut(s: State, b: seq<Metric>) {
    exists i :: 0 <= i < |s.slots| && b in s.slots[i].spawned
  }

  // All its metrics have one value of the dimension.
  ghost predicate Uniform(b: seq<Metric>, dimension: string) {
    exists v :: AllHave(b, dimension, v)
  }

  ghost predicate AllHave(b: seq<Metric>, dimension: string, v: string) {
    forall m :: m in b ==> HasValue(m, dimension, v)
  }

  // What a goroutine may hold: under custom reporting by dimension it emits uniform
  // batches, and otherwise those that were cut.
  ghost predicate HoldsItsKind(cfg: Config, s: State, r: Routine) {
    if cfg.customReporter && cfg.batchByDimension != "" then
      match r
      case Emitting(b, whole) => whole || Uniform(b, cfg.batchByDimension)
      case Splitting(parts) => forall k :: 0 <= k < |parts| ==> Uniform(parts[k], cfg.batchByDimension)
      case Reporting(b, _, _) => Uniform(b, cfg.batchByDimension)
      case Counting(b, _) => Uniform(b, cfg.batchByDimension)
      case Counted(b, _) => Uniform(b, cfg.batchByDimension)
    else !r.Splitting? && WasCut(s, r.batch)
  }

  ghost predicate KindsOk(cfg: Config, s: State) {
    forall j :: 0 <= j < |s.routines| ==> HoldsItsKind(cfg, s, s.routines[j])
  }

  lemma CutStays(cfg: Config, s: State, a: Action, r: Routine)
    requires Enabled(cfg, s, a) && HoldsItsKind(cfg, s, r)
    ensures HoldsItsKind(cfg, Next(cfg, s, a), r)
  {
    if !(cfg.customReporter && cfg.batchByDimension != "") {
      var i :| 0 <= i < |s.slots| && r.batch in s.slots[i].spawned;
      assert r.batch in Next(cfg, s, a).slots[i].spawned;
    }
  }

  lemma PartsAreUniform(cfg: Config, s: State, a: Action)
    requires a.Divide? && Enabled(cfg, s, a)
    ensures HoldsItsKind(cfg, Next(cfg, s, a), Next(cfg, s, a).routines[a.j])
  {
    var b := s.routines[a.j].batch;
    var parts := Parts(b, cfg.batchByDimension, a.names);
    PartsAre(b, cfg.batchByDimension, a.names);
    forall k | 0 <= k < |parts| ensures Uniform(parts[k], cfg.batchByDimension) {
      assert IsPart(b, cfg.batchByDimension, a.names[k], parts[k]);
      assert AllHave(parts[k], cfg.batchByDimension, a.names[k]);
    }
  }

  lemma CutIsWhole(cfg: Config, s: State, a: Action, k: nat)
    requires a.Turns? && Enabled(cfg, s, a) && k < |Turn(s.slots[a.i].listener, a.e).1|
    ensures HoldsItsKind(cfg, Next(cfg, s, a), Spawn(Turn(s.slots[a.i].listener, a.e).1)[k])
  {
    var cut, s' := Turn(s.slots[a.i].listener, a.e).1, Next(cfg, s, a);
    assert s'.slots[a.i].spawned == s.slots[a.i].spawned + cut;
    assert cut[k] in s'.slots[a.i].spawned;
  }

  // A goroutine that steps by itself.
  lemma MovedKeepsItsKind(cfg: Config, s: State, a: Action)
    requires Enabled(cfg, s, a) && (a.EmitReturns? || a.SpawnPart? || a.HandOver? || a.Count?)
    requires HoldsItsKind(cfg, s, s.routines[a.j])
    ensures HoldsItsKind(cfg, s, Next(cfg, s, a).routines[a.j])
  {
    var r := s.routines[a.j];
    if a.SpawnPart? {
      assert forall k :: 0 <= k < |r.parts| - 1 ==> r.parts[1..][k] == r.parts[k + 1];
    }
  }

  lemma PartKeepsItsKind(cfg: Config, s: State, a: Action)
    requires Enabled(cfg, s, a) && a.SpawnPart? && HoldsItsKind(cfg, s, s.routines[a.j])
    ensures HoldsItsKind(cfg, s, Emitting(s.routines[a.j].parts[0], false))
  {
  }

  lemma OldKindsKept(cfg: Config, s: State, a: Action, j: nat)
    requires Enabled(cfg, s, a) && j < |s.routines| && HoldsItsKind(cfg, s, s.routines[j])
    ensures HoldsItsKind(cfg, Next(cfg, s, a), Next(cfg, s, a).routines[j])
  {
    if a.Divide? && j == a.j {
      PartsAreUniform(cfg, s, a);
    } else {
      if (a.EmitReturns? || a.SpawnPart? || a.HandOver? || a.Count?) && j == a.j {
        MovedKeepsItsKind(cfg, s, a);
      }
      CutStays(cfg, s, a, Next(cfg, s, a).routines[j]);
    }
  }

  lemma KindsKept(cfg: Config, s: State, a: Action, j: nat)
    requires Enabled(cfg, s, a) && KindsOk(cfg, s) && j < |Next(cfg, s, a).routines|
    ensures HoldsItsKind(cfg, Next(cfg, s, a), Next(cfg, s, a).routines[j])
  {
    if j < |s.routines| {
      OldKindsKept(cfg, s, a, j);
    } else if a.Turns? {
      CutIsWhole(cfg, s, a, j - |s.routines|);
    } else {
      PartKeepsItsKind(cfg, s, a);
      CutStays(cfg, s, a, Emitting(s.routines[a.j].parts[0], false));
    }
  }

  lemma {:induction false} KindsFollow(cfg: Config, run: seq<Action>)
    ensures KindsOk(cfg, After(cfg, run))
  {
    if run != [] {
      var before, a := run[..|run| - 1], run[|run| - 1];
      KindsFollow(cfg, before);
      var s := After(cfg, before);
      if Enabled(cfg, s, a) {
        forall j | 0 <= j < |Next(cfg, s, a).routines|
          ensures HoldsItsKind(cfg, Next(cfg, s, a), Next(cfg, s, a).routines[j])
        {
          KindsKept(cfg, s, a, j);
        }
      }
    }
  }

  // A handler that reports by itself and divides by a dimension emits only batches
  // with one value of it; any other emits exactly what its listeners cut.
  lemma EmittedBatchesAreOfOneKind(cfg: Config, run: seq<Action>, j: nat)
    requires j < |After(cfg, run).routines|
    ensures HoldsItsKind(cfg, After(cfg, run), After(cfg, run).routines[j])
  {
    KindsFollow(cfg, run);
  }

  // ---- Draining ----

  function Weight(r: Routine): nat {
    match r
    case Emitting(b, whole) => if whole then 6 * |b| + 6 else 5
    case Splitting(parts) => 6 * |parts|
    case Reporting(_, _, _) => 4
    case Counting(_, _) => 1
    case Counted(_, _) => 0
  }

  function TotalWeight(rs: seq<Routine>): nat {
    if rs == [] then 0 else TotalWeight(rs[..|rs| - 1]) + Weight(rs[|rs| - 1])
  }

  // How much the emit goroutines and the recorder still have to do.
  function Work(s: State): nat {
    TotalWeight(s.routines) + (match s.recorder case Idle => 0 case Taken(_) => 2 case Numbered(_) => 1)
  }

  lemma {:induction false} WeightUpdate(rs: seq<Routine>, j: nat, r: Routine)
    requires j < |rs|
    ensures TotalWeight(rs[j := r]) + Weight(rs[j]) == TotalWeight(rs) + Weight(r)
  {
    if j == |rs| - 1 {
      assert rs[j := r][..j] == rs[..j];
    } else {
      assert rs[j := r][..|rs| - 1] == rs[..|rs| - 1][j := r];
      WeightUpdate(rs[..|rs| - 1], j, r);
    }
  }

  // Whatever order they run in, every step except reading more input uses up work.
  lemma InternalStepsUseUpWork(cfg: Config, s: State, a: Action)
    requires Enabled(cfg, s, a) && !a.Turns?
    ensures Work(Next(cfg, s, a)) < Work(s)
  {
    var s' := Next(cfg, s, a);
    match a
    case EmitReturns(j, _, _, _) => WeightUpdate(s.routines, j, s'.routines[j]);
    case Divide(j, names) =>
      FewParts(s.routines[j].batch, cfg.batchByDimension, names);
      PartsSelect(s.routines[j].batch, cfg.batchByDimension, names);
      WeightUpdate(s.routines, j, s'.routines[j]);
    case SpawnPart(j) =>
      var mid := s.routines[j := Splitting(s.routines[j].parts[1..])];
      WeightUpdate(s.routines, j, mid[j]);
      assert s'.routines[..|mid|] == mid;
    case HandOver(j) => WeightUpdate(s.routines, j, s'.routines[j]);
    case Number =>
    case Prune(_) =>
    case Count(j) => WeightUpdate(s.routines, j, s'.routines[j]);
  }

  lemma {:induction false} BusyRoutine(rs: seq<Routine>) returns (j: nat)
    requires TotalWeight(rs) > 0
    ensures j < |rs| && Weight(rs[j]) > 0
  {
    j := |rs| - 1;
    if Weight(rs[j]) == 0 {
      j := BusyRoutine(rs[..|rs| - 1]);
    }
  }

  lemma {:induction false} ListNames(values: set<string>) returns (names: seq<string>)
    ensures NoRepeats(names) && NameSet(names) == values
  {
    if values == {} {
      names := [];
    } else {
      var v :| v in values;
      var rest := ListNames(values - {v});
      names := rest + [v];
      assert NameSet(names) == NameSet(rest) + {v};
      assert forall i :: 0 <= i < |rest| ==> rest[i] in NameSet(rest);
    }
  }

  // Nothing deadlocks: while work is left, some goroutine can step. In
  // particular a sender on the unbuffered channel never waits for ever.
  lemma NeverStuck(cfg: Config, s: State) returns (a: Action)
    requires Work(s) > 0
    ensures !a.Turns? && Enabled(cfg, s, a)
  {
    match s.recorder {
      case Taken(_) => a := Number;
      case Numbered(_) => a := Prune(s.clock);
      case Idle =>
        var j := BusyRoutine(s.routines);
        match s.routines[j] {
          case Emitting(b, _) =>
            if Divides(cfg, s.routines[j]) {
              var names := ListNames(ValuesOf(b, cfg.batchByDimension));
              a := Divide(j, names);
            } else {
              a := EmitReturns(j, true, 0, s.clock);
            }
          case Splitting(_) => a := SpawnPart(j);
          case Reporting(_, _, _) => a := HandOver(j);
          case Counting(_, _) => a := Count(j);
        }
    }
  }

  // Steps taken one after the other without reading more input.
  ghost predicate Drains(cfg: Config, s: State, steps: seq<Action>)
    decreases |steps|
  {
    steps != [] ==>
      !steps[0].Turns? && Enabled(cfg, s, steps[0]) && Drains(cfg, Next(cfg, s, steps[0]), steps[1..])
  }

  lemma {:induction false} DrainingIsBounded(cfg: Config, s: State, steps: seq<Action>)
    requires Drains(cfg, s, steps)
    ensures |steps| <= Work(s)
    decreases |steps|
  {
    if steps != [] {
      InternalStepsUseUpWork(cfg, s, steps[0]);
      DrainingIsBounded(cfg, Next(cfg, s, steps[0]), steps[1..]);
    }
  }

  lemma {:induction false} IdleMeansCounted(rs: seq<Routine>)
    requires TotalWeight(rs) == 0
    ensures Sum(rs, Pending) == multiset{}
    ensures Sum(rs, Uncounted(true)) == multiset{} == Sum(rs, Uncounted(false))
    ensures Sum(rs, InChannel) == multiset{}
    ensures NumHandedOver(rs) == NumCounted(rs)
  {
    if rs != [] {
      IdleMeansCounted(rs[..|rs| - 1]);
      var last := rs[|rs| - 1];
      if last.Splitting? {
        assert last.parts == [];
      }
    }
  }

  // Once drained, every metric that left a buffer is counted exactly once, and
  // totalEmissions is exactly the number of batches counted...
  lemma DrainedStateIsSettled(cfg: Config, run: seq<Action>)
    requires Work(After(cfg, run)) == 0
    ensures var s := After(cfg, run);
            && |Sum(s.slots, SlotAccepted)| == |Sum(s.slots, SlotBuffered)| + s.metricsSent + s.metricsDropped
            && s.totalEmissions == NumCounted(s.routines) == |s.receptions|
            && s.metricsSent == |Concat(EmittedAs(cfg, run, true))|
            && s.metricsDropped == |Concat(EmittedAs(cfg, run, false))|
  {
    NoMetricIsLostOrCountedTwice(cfg, run);
    RunKeeps(cfg, run);
    IdleMeansCounted(After(cfg, run).routines);
    CountersFollowTheEmitFunctions(cfg, run);
  }

  // ... and every timing has been recorded.
  lemma DrainedMeansRecorded(cfg: Config, run: seq<Action>)
    requires Work(After(cfg, run)) == 0
    ensures multiset(EmissionWindow.History(After(cfg, run).receptions)) == multiset(TimedEmits(cfg, run))
  {
    IdleMeansCounted(After(cfg, run).routines);
    TimingsAreRecordedOnce(cfg, run);
  }
}
