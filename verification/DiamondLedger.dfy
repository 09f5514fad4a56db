// Which batches the network carried: every flush traced send by send, with the
// flushes that its error reports start (src/diamond/collector.py:50-69, 299-395).
module DiamondLedger {
  import opened Metrics
  import opened DiamondFlush

  // A batch taken out of the buffer, and the sends made for it, by number.
  datatype Fate = Fate(batch: seq<Point>, sends: seq<nat>)

  // ---- The trace ----

  ghost function PublishFates(cfg: Config, net: Network, s: State, p: Point, depth: nat): seq<Fate>
    decreases depth, 5
  {
    var s' := s.(payload := s.payload + [p], appended := s.appended + [p]);
    if |s'.payload| >= cfg.maxBufferSize then FlushFates(cfg, net, s', depth) else []
  }

  ghost function ReportFates(cfg: Config, net: Network, s: State, depth: nat): seq<Fate>
    decreases depth, 7
  {
    if s.socket && !s.reconnect && cfg.admits("fullerite.collector_errors") then
      PublishFates(cfg, net, s, ERROR_POINT, depth)
    else []
  }

  ghost function FlushFates(cfg: Config, net: Network, s: State, depth: nat): seq<Fate>
    decreases depth, 4
  {
    if depth == 0 then []
    else if forall p <- s.payload :: p.dumps then
      SendFates(cfg, net, s.(payload := []), s.payload, [], depth)
    else [Fate(s.payload, [])]
  }

  // own is the sends made for the batch so far, one for each attempt.
  ghost function SendFates(cfg: Config, net: Network, s: State, batch: seq<Point>, own: seq<nat>, depth: nat): seq<Fate>
    requires depth > 0 && |own| <= 3
    decreases depth, 1, 3 - |own|
  {
    if |own| == 3 || ((!s.socket || s.reconnect) && !net.connect(s.connects)) then [Fate(batch, own)]
    else if net.send(s.sends) then [Fate(batch, own + [s.sends])]
    else
      var s2 := Connected(s).(sends := s.sends + 1);
      var nested := ReportFates(cfg, net, s2, depth - 1);
      match Attempt(cfg, net, s, batch, depth)
      case (s', None) => nested + SendFates(cfg, net, s', batch, own + [s.sends], depth)
      case (_, Some(_)) => nested + [Fate(batch, own + [s.sends])]
  }

  // ---- What a trace says was delivered ----

  ghost predicate Carried(net: Network, f: Fate) {
    exists n :: n in f.sends && net.send(n)
  }

  // The points of the batches that were carried, or of those that were not.
  ghost function PointsOf(net: Network, fates: seq<Fate>, carried: bool): seq<Point> {
    if fates == [] then []
    else
      var f := fates[|fates| - 1];
      PointsOf(net, fates[..|fates| - 1], carried) + (if Carried(net, f) == carried then f.batch else [])
  }

  lemma {:induction false} PointsAppend(net: Network, a: seq<Fate>, b: seq<Fate>, carried: bool)
    ensures PointsOf(net, a + b, carried) == PointsOf(net, a, carried) + PointsOf(net, b, carried)
  {
    if b == [] {
      assert a + b == a;
    } else {
      assert (a + b)[..|a + b| - 1] == a + b[..|b| - 1];
      PointsAppend(net, a, b[..|b| - 1], carried);
    }
  }

  lemma PointsOfOne(net: Network, f: Fate, carried: bool)
    ensures PointsOf(net, [f], carried) == if Carried(net, f) == carried then f.batch else []
  {
    assert [f][..0] == [];
  }

  // s' is s with the batches of a trace settled.
  ghost predicate Settles(net: Network, s: State, fates: seq<Fate>, s': State) {
    && s'.delivered == s.delivered + PointsOf(net, fates, true)
    && s'.givenUp == s.givenUp + PointsOf(net, fates, false)
  }

  lemma SettlesOne(net: Network, s: State, f: Fate, s': State)
    requires if Carried(net, f) then s'.delivered == s.delivered + f.batch && s'.givenUp == s.givenUp
             else s'.delivered == s.delivered && s'.givenUp == s.givenUp + f.batch
    ensures Settles(net, s, [f], s')
  {
    PointsOfOne(net, f, true);
    PointsOfOne(net, f, false);
  }

  lemma SettlesMore(net: Network, s: State, a: seq<Fate>, mid: State, b: seq<Fate>, s': State)
    requires Settles(net, s, a, mid) && Settles(net, mid, b, s')
    ensures Settles(net, s, a + b, s')
  {
    PointsAppend(net, a, b, true);
    PointsAppend(net, a, b, false);
  }

  // ---- The ledgers follow the trace ----

  lemma PublishSettles(cfg: Config, net: Network, s: State, p: Point, depth: nat)
    ensures Settles(net, s, PublishFates(cfg, net, s, p, depth), PublishMetric(cfg, net, s, p, depth).0)
    decreases depth, 5
  {
    var s' := s.(payload := s.payload + [p], appended := s.appended + [p]);
    if |s'.payload| >= cfg.maxBufferSize {
      FlushSettles(cfg, net, s', depth);
    }
  }

  lemma ReportSettles(cfg: Config, net: Network, s: State, depth: nat)
    ensures Settles(net, s, ReportFates(cfg, net, s, depth), ReportError(cfg, net, s, depth).0)
    decreases depth, 7
  {
    if CanPublish(s) && cfg.admits(ERROR_POINT.name) {
      assert ReportError(cfg, net, s, depth) == Publish(cfg, net, s, ERROR_POINT, depth);
      assert Publish(cfg, net, s, ERROR_POINT, depth) == PublishMetric(cfg, net, s, ERROR_POINT, depth);
      PublishSettles(cfg, net, s, ERROR_POINT, depth);
    }
  }

  lemma FlushSettles(cfg: Config, net: Network, s: State, depth: nat)
    ensures Settles(net, s, FlushFates(cfg, net, s, depth), Flush(cfg, net, s, depth).0)
    decreases depth, 4
  {
    if depth > 0 {
      if forall p <- s.payload :: p.dumps {
        SendsSettle(cfg, net, s.(payload := []), s.payload, [], depth);
      } else {
        SettlesOne(net, s, Fate(s.payload, []), Flush(cfg, net, s, depth).0);
      }
    }
  }

  lemma AttemptsUnfold(cfg: Config, net: Network, s: State, batch: seq<Point>, i: nat, depth: nat)
    requires i < 3 && depth > 0
    ensures Attempts(cfg, net, s, batch, i, depth) ==
            match Attempt(cfg, net, s, batch, depth)
            case (s', Some(o)) => (s', o)
            case (s', None) => Attempts(cfg, net, s', batch, i + 1, depth)
  {
  }

  // An attempt that ends the flush: it cannot connect, or its send goes through.
  lemma AttemptEnds(cfg: Config, net: Network, s: State, batch: seq<Point>, depth: nat)
    requires depth > 0
    ensures NeedsConnect(s) && !net.connect(s.connects) ==>
              Attempt(cfg, net, s, batch, depth) ==
              (s.(connects := s.connects + 1, givenUp := s.givenUp + batch), Some(Exited))
    ensures !(NeedsConnect(s) && !net.connect(s.connects)) && net.send(s.sends) ==>
              Attempt(cfg, net, s, batch, depth) ==
              (Connected(s).(sends := s.sends + 1, delivered := s.delivered + batch), Some(Returned))
  {
  }

  lemma AttemptReports(cfg: Config, net: Network, s: State, batch: seq<Point>, depth: nat)
    requires depth > 0 && !(NeedsConnect(s) && !net.connect(s.connects)) && !net.send(s.sends)
    ensures var (s3, o) := ReportError(cfg, net, Connected(s).(sends := s.sends + 1), depth - 1);
            Attempt(cfg, net, s, batch, depth) ==
            if o == Returned then (s3.(reconnect := true), None) else (s3.(givenUp := s3.givenUp + batch), Some(o))
  {
  }

  lemma NotCarried(net: Network, batch: seq<Point>, own: seq<nat>)
    requires forall n <- own :: !net.send(n)
    ensures !Carried(net, Fate(batch, own))
  {
  }

  lemma SendsSettle(cfg: Config, net: Network, s: State, batch: seq<Point>, own: seq<nat>, depth: nat)
    requires depth > 0 && |own| <= 3 && forall n <- own :: !net.send(n)
    ensures Settles(net, s, SendFates(cfg, net, s, batch, own, depth), Attempts(cfg, net, s, batch, |own|, depth).0)
    decreases depth, 1, 3 - |own|, 1
  {
    var end := Attempts(cfg, net, s, batch, |own|, depth).0;
    NotCarried(net, batch, own);
    if |own| == 3 {
      SettlesOne(net, s, Fate(batch, own), end);
      return;
    }
    AttemptsUnfold(cfg, net, s, batch, |own|, depth);
    AttemptEnds(cfg, net, s, batch, depth);
    var own' := own + [s.sends];
    if NeedsConnect(s) && !net.connect(s.connects) {
      SettlesOne(net, s, Fate(batch, own), end);
    } else if net.send(s.sends) {
      assert s.sends in own';
      SettlesOne(net, s, Fate(batch, own'), end);
    } else {
      NotCarried(net, batch, own');
      FailedSendSettles(cfg, net, s, batch, own, depth);
    }
  }

  lemma FailedSendSettles(cfg: Config, net: Network, s: State, batch: seq<Point>, own: seq<nat>, depth: nat)
    requires depth > 0 && |own| < 3 && forall n <- own + [s.sends] :: !net.send(n)
    requires !(NeedsConnect(s) && !net.connect(s.connects)) && !net.send(s.sends)
    ensures Settles(net, s, SendFates(cfg, net, s, batch, own, depth), Attempts(cfg, net, s, batch, |own|, depth).0)
    decreases depth, 1, 3 - |own|, 0
  {
    var s2, own' := Connected(s).(sends := s.sends + 1), own + [s.sends];
    var nested := ReportFates(cfg, net, s2, depth - 1);
    var (s3, o) := ReportError(cfg, net, s2, depth - 1);
    AfterFailure(cfg, net, s, batch, own, depth);
    ReportSettles(cfg, net, s2, depth - 1);
    SameLedger(net, s, s2, nested, s3);
    if o == Returned {
      var s' := s3.(reconnect := true);
      SendsSettle(cfg, net, s', batch, own', depth);
      SettlesMore(net, s, nested, s', SendFates(cfg, net, s', batch, own', depth),
                  Attempts(cfg, net, s', batch, |own'|, depth).0);
    } else {
      NotCarried(net, batch, own');
      SettlesOne(net, s3, Fate(batch, own'), s3.(givenUp := s3.givenUp + batch));
      SettlesMore(net, s, nested, s3, [Fate(batch, own')], s3.(givenUp := s3.givenUp + batch));
    }
  }

  lemma SameLedger(net: Network, s: State, s2: State, fates: seq<Fate>, s': State)
    requires s2.delivered == s.delivered && s2.givenUp == s.givenUp && Settles(net, s2, fates, s')
    ensures Settles(net, s, fates, s') && Settles(net, s, fates, s'.(reconnect := true))
  {
  }

  // What follows a send that fails, and its trace.
  lemma AfterFailure(cfg: Config, net: Network, s: State, batch: seq<Point>, own: seq<nat>, depth: nat)
    requires depth > 0 && |own| < 3
    requires !(NeedsConnect(s) && !net.connect(s.connects)) && !net.send(s.sends)
    ensures var s2, own' := Connected(s).(sends := s.sends + 1), own + [s.sends];
            var (s3, o) := ReportError(cfg, net, s2, depth - 1);
            && SendFates(cfg, net, s, batch, own, depth) ==
               ReportFates(cfg, net, s2, depth - 1) +
               (if o == Returned then SendFates(cfg, net, s3.(reconnect := true), batch, own', depth)
                else [Fate(batch, own')])
            && Attempts(cfg, net, s, batch, |own|, depth).0 ==
               if o == Returned then Attempts(cfg, net, s3.(reconnect := true), batch, |own| + 1, depth).0
               else s3.(givenUp := s3.givenUp + batch)
  {
    AttemptsUnfold(cfg, net, s, batch, |own|, depth);
    AttemptReports(cfg, net, s, batch, depth);
  }

  // ---- The sends of a trace ----

  function SendsIn(fates: seq<Fate>): multiset<nat> {
    if fates == [] then multiset{} else SendsIn(fates[..|fates| - 1]) + multiset(fates[|fates| - 1].sends)
  }

  // The numbers from a up to b, once each.
  function Numbers(a: nat, b: nat): (r: multiset<nat>)
    ensures forall n: nat :: r[n] == if a <= n < b then 1 else 0
  {
    if b <= a then multiset{} else Numbers(a, b - 1) + multiset{b - 1}
  }

  lemma NumbersJoin(a: nat, b: nat, c: nat)
    requires a <= b <= c
    ensures Numbers(a, c) == Numbers(a, b) + Numbers(b, c)
  {
  }

  lemma {:induction false} SendsAppend(a: seq<Fate>, b: seq<Fate>)
    ensures SendsIn(a + b) == SendsIn(a) + SendsIn(b)
  {
    if b == [] {
      assert a + b == a;
    } else {
      assert (a + b)[..|a + b| - 1] == a + b[..|b| - 1];
      SendsAppend(a, b[..|b| - 1]);
    }
  }

  lemma SendsOfOne(f: Fate)
    ensures SendsIn([f]) == multiset(f.sends)
  {
    assert [f][..0] == [];
  }

  // A trace numbers the sends between two states, given those before it.
  ghost predicate Numbered(s: State, own: seq<nat>, fates: seq<Fate>, s': State) {
    && s.sends <= s'.sends
    && forall n: nat :: SendsIn(fates)[n] == multiset(own)[n] + if s.sends <= n < s'.sends then 1 else 0
  }

  lemma NumberedAre(s: State, fates: seq<Fate>, s': State)
    requires Numbered(s, [], fates, s')
    ensures SendsIn(fates) == Numbers(s.sends, s'.sends)
  {
  }

  lemma PublishNumbers(cfg: Config, net: Network, s: State, p: Point, depth: nat)
    ensures Numbered(s, [], PublishFates(cfg, net, s, p, depth), PublishMetric(cfg, net, s, p, depth).0)
    decreases depth, 5
  {
    var s' := s.(payload := s.payload + [p], appended := s.appended + [p]);
    if |s'.payload| >= cfg.maxBufferSize {
      FlushNumbers(cfg, net, s', depth);
    }
  }

  lemma ReportNumbers(cfg: Config, net: Network, s: State, depth: nat)
    ensures Numbered(s, [], ReportFates(cfg, net, s, depth), ReportError(cfg, net, s, depth).0)
    decreases depth, 7
  {
    if CanPublish(s) && cfg.admits(ERROR_POINT.name) {
      assert ReportError(cfg, net, s, depth) == Publish(cfg, net, s, ERROR_POINT, depth);
      assert Publish(cfg, net, s, ERROR_POINT, depth) == PublishMetric(cfg, net, s, ERROR_POINT, depth);
      PublishNumbers(cfg, net, s, ERROR_POINT, depth);
    }
  }

  // Every send of a flush, its nested ones included, is made for one batch.
  lemma FlushNumbers(cfg: Config, net: Network, s: State, depth: nat)
    ensures Numbered(s, [], FlushFates(cfg, net, s, depth), Flush(cfg, net, s, depth).0)
    decreases depth, 4
  {
    if depth > 0 {
      if forall p <- s.payload :: p.dumps {
        SendsNumbered(cfg, net, s.(payload := []), s.payload, [], depth);
      } else {
        NumberedOne(s, [], Fate(s.payload, []), Flush(cfg, net, s, depth).0);
      }
    }
  }

  lemma SendsNumbered(cfg: Config, net: Network, s: State, batch: seq<Point>, own: seq<nat>, depth: nat)
    requires depth > 0 && |own| <= 3
    ensures Numbered(s, own, SendFates(cfg, net, s, batch, own, depth), Attempts(cfg, net, s, batch, |own|, depth).0)
    decreases depth, 1, 3 - |own|, 1
  {
    SendsOfOne(Fate(batch, own));
    if |own| < 3 {
      AttemptsUnfold(cfg, net, s, batch, |own|, depth);
      AttemptEnds(cfg, net, s, batch, depth);
      if !(NeedsConnect(s) && !net.connect(s.connects)) {
        SendsOfOne(Fate(batch, own + [s.sends]));
        if !net.send(s.sends) {
          FailedSendNumbered(cfg, net, s, batch, own, depth);
        }
      }
    }
  }

  lemma FailedSendNumbered(cfg: Config, net: Network, s: State, batch: seq<Point>, own: seq<nat>, depth: nat)
    requires depth > 0 && |own| < 3
    requires !(NeedsConnect(s) && !net.connect(s.connects)) && !net.send(s.sends)
    ensures Numbered(s, own, SendFates(cfg, net, s, batch, own, depth), Attempts(cfg, net, s, batch, |own|, depth).0)
    decreases depth, 1, 3 - |own|, 0
  {
    var s2, own' := Connected(s).(sends := s.sends + 1), own + [s.sends];
    var nested := ReportFates(cfg, net, s2, depth - 1);
    var (s3, o) := ReportError(cfg, net, s2, depth - 1);
    AfterFailure(cfg, net, s, batch, own, depth);
    ReportNumbers(cfg, net, s2, depth - 1);
    var fates, end := SendFates(cfg, net, s, batch, own, depth), Attempts(cfg, net, s, batch, |own|, depth).0;
    if o == Returned {
      var s' := s3.(reconnect := true);
      SendsNumbered(cfg, net, s', batch, own', depth);
      NumberedMore(s, own, s2, nested, s3, s', SendFates(cfg, net, s', batch, own', depth), fates, end);
    } else {
      NumberedOne(s3, own', Fate(batch, own'), end);
      NumberedMore(s, own, s2, nested, s3, s3, [Fate(batch, own')], fates, end);
    }
  }

  lemma NumberedOne(s: State, own: seq<nat>, f: Fate, s': State)
    requires f.sends == own && s'.sends == s.sends
    ensures Numbered(s, own, [f], s')
  {
    SendsOfOne(f);
  }

  // A send of s, the nested flushes it starts, and what follows them.
  lemma NumberedMore(s: State, own: seq<nat>, s2: State, nested: seq<Fate>, s3: State, s4: State, rest: seq<Fate>,
                     fates: seq<Fate>, end: State)
    requires fates == nested + rest && s2.sends == s.sends + 1 && Numbered(s2, [], nested, s3) && s4.sends == s3.sends
    requires Numbered(s4, own + [s.sends], rest, end)
    ensures Numbered(s, own, fates, end)
  {
    SendsAppend(nested, rest);
    forall n: nat ensures multiset(own + [s.sends])[n] == multiset(own)[n] + if n == s.sends then 1 else 0 {
      assert multiset(own + [s.sends]) == multiset(own) + multiset{s.sends};
    }
  }

  // At most three sends are made for a batch, and none after one that goes through.
  ghost predicate StopsInTime(net: Network, f: Fate) {
    |f.sends| <= 3 && forall i :: 0 <= i < |f.sends| - 1 ==> !net.send(f.sends[i])
  }

  ghost predicate AllStop(net: Network, fates: seq<Fate>) {
    forall i :: 0 <= i < |fates| ==> StopsInTime(net, fates[i])
  }

  lemma AllStopAppend(net: Network, a: seq<Fate>, b: seq<Fate>)
    requires AllStop(net, a) && AllStop(net, b)
    ensures AllStop(net, a + b)
  {
  }

  lemma PublishStops(cfg: Config, net: Network, s: State, p: Point, depth: nat)
    ensures AllStop(net, PublishFates(cfg, net, s, p, depth))
    decreases depth, 5
  {
    var s' := s.(payload := s.payload + [p], appended := s.appended + [p]);
    if |s'.payload| >= cfg.maxBufferSize {
      FlushStops(cfg, net, s', depth);
    }
  }

  lemma ReportStops(cfg: Config, net: Network, s: State, depth: nat)
    ensures AllStop(net, ReportFates(cfg, net, s, depth))
    decreases depth, 7
  {
    PublishStops(cfg, net, s, ERROR_POINT, depth);
  }

  lemma FlushStops(cfg: Config, net: Network, s: State, depth: nat)
    ensures AllStop(net, FlushFates(cfg, net, s, depth))
    decreases depth, 4
  {
    if depth > 0 && forall p <- s.payload :: p.dumps {
      SendsStop(cfg, net, s.(payload := []), s.payload, [], depth);
    }
  }

  lemma SendsStop(cfg: Config, net: Network, s: State, batch: seq<Point>, own: seq<nat>, depth: nat)
    requires depth > 0 && |own| <= 3 && forall i :: 0 <= i < |own| ==> !net.send(own[i])
    ensures AllStop(net, SendFates(cfg, net, s, batch, own, depth))
    decreases depth, 1, 3 - |own|
  {
    var own' := own + [s.sends];
    assert StopsInTime(net, Fate(batch, own));
    if |own| < 3 && !((!s.socket || s.reconnect) && !net.connect(s.connects)) {
      assert StopsInTime(net, Fate(batch, own'));
      if !net.send(s.sends) {
        var nested := ReportFates(cfg, net, Connected(s).(sends := s.sends + 1), depth - 1);
        ReportStops(cfg, net, Connected(s).(sends := s.sends + 1), depth - 1);
        match Attempt(cfg, net, s, batch, depth)
        case (s', None) =>
          SendsStop(cfg, net, s', batch, own', depth);
          AllStopAppend(net, nested, SendFates(cfg, net, s', batch, own', depth));
        case (_, Some(_)) =>
          AllStopAppend(net, nested, [Fate(batch, own')]);
      }
    }
  }

  // ---- Flushes and runs ----

  // The last batch settled is the flush's own, the buffer as it was.
  lemma OwnBatchIsLast(cfg: Config, net: Network, s: State, depth: nat)
    requires depth > 0
    ensures var fates := FlushFates(cfg, net, s, depth);
            fates != [] && fates[|fates| - 1].batch == s.payload
  {
    if forall p <- s.payload :: p.dumps {
      LastIsOwn(cfg, net, s.(payload := []), s.payload, [], depth);
    }
  }

  lemma LastIsOwn(cfg: Config, net: Network, s: State, batch: seq<Point>, own: seq<nat>, depth: nat)
    requires depth > 0 && |own| <= 3
    ensures var fates := SendFates(cfg, net, s, batch, own, depth);
            fates != [] && fates[|fates| - 1].batch == batch
    decreases 3 - |own|
  {
    if |own| < 3 && !((!s.socket || s.reconnect) && !net.connect(s.connects)) && !net.send(s.sends) {
      match Attempt(cfg, net, s, batch, depth)
      case (s', None) => LastIsOwn(cfg, net, s', batch, own + [s.sends], depth);
      case (_, Some(_)) =>
    }
  }

  // Whatever nests in it: a flush takes out its buffer and those its error reports
  // fill, makes at most three sends for each, all of different numbers, delivers
  // exactly the batches one of whose sends went through, and gives up all others.
  lemma FlushDeliversWhatWasSent(cfg: Config, net: Network, s: State, depth: nat)
    requires depth > 0
    ensures var (s', o) := Flush(cfg, net, s, depth);
            var fates := FlushFates(cfg, net, s, depth);
            && fates != [] && fates[|fates| - 1].batch == s.payload
            && s'.delivered == s.delivered + PointsOf(net, fates, true)
            && s'.givenUp == s.givenUp + PointsOf(net, fates, false)
            && s.sends <= s'.sends && SendsIn(fates) == Numbers(s.sends, s'.sends)
            && AllStop(net, fates)
  {
    OwnBatchIsLast(cfg, net, s, depth);
    FlushSettles(cfg, net, s, depth);
    FlushNumbers(cfg, net, s, depth);
    NumberedAre(s, FlushFates(cfg, net, s, depth), Flush(cfg, net, s, depth).0);
    FlushStops(cfg, net, s, depth);
  }

  ghost function OpFates(cfg: Config, net: Network, s: State, op: Op, depth: nat): seq<Fate> {
    match op
    case DoPublish(p) => if cfg.admits(p.name) then PublishFates(cfg, net, s, p, depth) else []
    case DoPublishInvalid(name) => if cfg.admits(name) then ReportFates(cfg, net, s, depth) else []
    case DoFlush => FlushFates(cfg, net, s, depth)
  }

  ghost function RunFates(cfg: Config, net: Network, ops: seq<Op>, depth: nat): seq<Fate> {
    if ops == [] then []
    else
      var before, op := ops[..|ops| - 1], ops[|ops| - 1];
      RunFates(cfg, net, before, depth) + OpFates(cfg, net, Run(cfg, net, before, depth).0, op, depth)
  }

  lemma OpSettles(cfg: Config, net: Network, s: State, op: Op, depth: nat)
    ensures var s', fates := Perform(cfg, net, s, op, depth).0, OpFates(cfg, net, s, op, depth);
            Settles(net, s, fates, s') && Numbered(s, [], fates, s') && AllStop(net, fates)
  {
    match op
    case DoPublish(p) =>
      PublishSettles(cfg, net, s, p, depth);
      PublishNumbers(cfg, net, s, p, depth);
      PublishStops(cfg, net, s, p, depth);
    case DoPublishInvalid(name) =>
      ReportSettles(cfg, net, s, depth);
      ReportNumbers(cfg, net, s, depth);
      ReportStops(cfg, net, s, depth);
    case DoFlush =>
      FlushSettles(cfg, net, s, depth);
      FlushNumbers(cfg, net, s, depth);
      FlushStops(cfg, net, s, depth);
  }

  // Over any run: the points delivered are those of the batches one of whose sends
  // went through, in the order they did, and the points given up those of all other
  // batches; every send is made for one batch.
  lemma {:induction false} RunDeliversWhatWasSent(cfg: Config, net: Network, ops: seq<Op>, depth: nat)
    ensures var s, fates := Run(cfg, net, ops, depth).0, RunFates(cfg, net, ops, depth);
            && s.delivered == PointsOf(net, fates, true) && s.givenUp == PointsOf(net, fates, false)
            && SendsIn(fates) == Numbers(0, s.sends) && AllStop(net, fates)
  {
    if ops != [] {
      var before, op := ops[..|ops| - 1], ops[|ops| - 1];
      var was, more := RunFates(cfg, net, before, depth), OpFates(cfg, net, Run(cfg, net, before, depth).0, op, depth);
      RunDeliversWhatWasSent(cfg, net, before, depth);
      OpSettles(cfg, net, Run(cfg, net, before, depth).0, op, depth);
      NumberedAre(Run(cfg, net, before, depth).0, more, Run(cfg, net, ops, depth).0);
      PointsAppend(net, was, more, true);
      PointsAppend(net, was, more, false);
      SendsAppend(was, more);
      AllStopAppend(net, was, more);
      NumbersJoin(0, Run(cfg, net, before, depth).0.sends, Run(cfg, net, ops, depth).0.sends);
    }
  }

  // ---- Without nesting ----

  lemma NoNestedFates(cfg: Config, net: Network, s: State, i: nat, depth: nat)
    requires NeverNests(cfg) && i < RETRY_COUNT && OnlyErrors(s.payload, i)
    ensures ReportFates(cfg, net, s, depth) == []
  {
  }

  ghost function Consecutive(a: nat, b: nat): seq<nat> {
    if b <= a then [] else Consecutive(a, b - 1) + [b - 1]
  }

  lemma {:induction false} InConsecutive(a: nat, b: nat, n: nat)
    ensures n in Consecutive(a, b) <==> a <= n < b
  {
    if a < b {
      InConsecutive(a, b - 1, n);
    }
  }

  lemma {:induction false} SendsAlone(cfg: Config, net: Network, s: State, batch: seq<Point>, from: nat, own: seq<nat>,
                                      depth: nat)
    requires NeverNests(cfg) && depth > 0 && |own| <= 3 && OnlyErrors(s.payload, |own|)
    requires from <= s.sends && own == Consecutive(from, s.sends)
    ensures var s' := Attempts(cfg, net, s, batch, |own|, depth).0;
            s.sends <= s'.sends &&
            SendFates(cfg, net, s, batch, own, depth) == [Fate(batch, Consecutive(from, s'.sends))]
    decreases 3 - |own|
  {
    if |own| < 3 {
      AttemptsUnfold(cfg, net, s, batch, |own|, depth);
      AttemptEnds(cfg, net, s, batch, depth);
      if !(NeedsConnect(s) && !net.connect(s.connects)) && !net.send(s.sends) {
        var s2 := Connected(s).(sends := s.sends + 1);
        AttemptReports(cfg, net, s, batch, depth);
        ReportAddsOne(cfg, net, s2, |own|, depth - 1);
        NoNestedFates(cfg, net, s2, |own|, depth - 1);
        var s' := ReportError(cfg, net, s2, depth - 1).0.(reconnect := true);
        SendsAlone(cfg, net, s', batch, from, own + [s.sends], depth);
      }
    }
  }

  lemma FlushAlone(cfg: Config, net: Network, s: State, depth: nat)
    requires NeverNests(cfg) && depth > 0 && forall p <- s.payload :: p.dumps
    ensures FlushFates(cfg, net, s, depth) ==
            [Fate(s.payload, Consecutive(s.sends, Flush(cfg, net, s, depth).0.sends))]
  {
    SendsAlone(cfg, net, s.(payload := []), s.payload, s.sends, [], depth);
  }

  lemma SettledAlone(net: Network, s: State, batch: seq<Point>, s': State)
    requires Settles(net, s, [Fate(batch, Consecutive(s.sends, s'.sends))], s')
    ensures if exists n :: s.sends <= n < s'.sends && net.send(n) then
              s'.delivered == s.delivered + batch && s'.givenUp == s.givenUp
            else
              s'.delivered == s.delivered && s'.givenUp == s.givenUp + batch
  {
    var f := Fate(batch, Consecutive(s.sends, s'.sends));
    PointsOfOne(net, f, true);
    PointsOfOne(net, f, false);
    forall n: nat ensures n in f.sends <==> s.sends <= n < s'.sends {
      InConsecutive(s.sends, s'.sends, n);
    }
  }

  // When error reports cannot fill the buffer: a flush of points that can all be
  // written delivers them exactly when one of its sends went through, and gives them
  // up otherwise.
  lemma FlushDeliversExactlyWhenSent(cfg: Config, net: Network, s: State, depth: nat)
    requires NeverNests(cfg) && depth > 0 && forall p <- s.payload :: p.dumps
    ensures var s' := Flush(cfg, net, s, depth).0;
            if exists n :: s.sends <= n < s'.sends && net.send(n) then
              s'.delivered == s.delivered + s.payload && s'.givenUp == s.givenUp
            else
              s'.delivered == s.delivered && s'.givenUp == s.givenUp + s.payload
  {
    FlushAlone(cfg, net, s, depth);
    FlushSettles(cfg, net, s, depth);
    SettledAlone(net, s, s.payload, Flush(cfg, net, s, depth).0);
  }

  lemma {:induction false} AttemptsReconnect(cfg: Config, net: Network, s: State, batch: seq<Point>, i: nat, depth: nat)
    requires NeverNests(cfg) && depth > 0 && i <= RETRY_COUNT && OnlyErrors(s.payload, i)
    requires i > 0 ==> s.reconnect
    ensures var (s', o) := Attempts(cfg, net, s, batch, i, depth);
            s'.connects - s.connects ==
            (s'.sends - s.sends) + (if o == Exited then 1 else 0) - (if s.socket && !s.reconnect then 1 else 0)
    decreases RETRY_COUNT - i
  {
    if i < RETRY_COUNT {
      AttemptsUnfold(cfg, net, s, batch, i, depth);
      AttemptEnds(cfg, net, s, batch, depth);
      if !(NeedsConnect(s) && !net.connect(s.connects)) && !net.send(s.sends) {
        var s2 := Connected(s).(sends := s.sends + 1);
        AttemptReports(cfg, net, s, batch, depth);
        ReportAddsOne(cfg, net, s2, i, depth - 1);
        AttemptsReconnect(cfg, net, ReportError(cfg, net, s2, depth - 1).0.(reconnect := true), batch, i + 1, depth);
      }
    }
  }

  // And each of its sends is made on a connection of its own, but for a first one on
  // a connection that is open already; one more is tried if the flush ends by it.
  lemma FlushReconnects(cfg: Config, net: Network, s: State, depth: nat)
    requires NeverNests(cfg) && depth > 0 && forall p <- s.payload :: p.dumps
    ensures var (s', o) := Flush(cfg, net, s, depth);
            s'.connects - s.connects ==
            (s'.sends - s.sends) + (if o == Exited then 1 else 0) - (if s.socket && !s.reconnect then 1 else 0)
  {
    AttemptsReconnect(cfg, net, s.(payload := []), s.payload, 0, depth);
  }
}
