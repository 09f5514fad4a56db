// The Diamond collector's buffered, retrying flush, whose error logging publishes
// a metric and can therefore call flush again
// (src/diamond/collector.py:50-69, 147-148, 299-395).
module DiamondFlush {
  import opened Metrics

  const RETRY_COUNT := 3

  // One published metric. dumps says whether json.dumps accepts its value.
  datatype Point = Point(name: string, value: real, dumps: bool)

  const ERROR_POINT := Point("fullerite.collector_errors", 1.0, true)

  // max_buffer_size, and what the white- and blacklists let through.
  datatype Config = Config(maxBufferSize: int, admits: string -> bool)

  // The network: whether the n-th connect and the n-th sendall succeed.
  datatype Network = Network(connect: nat -> bool, send: nat -> bool)

  // The collector's fields, how much of the network has been used up, and where
  // every appended point has gone.
  datatype State = State(
    payload: seq<Point>, socket: bool, reconnect: bool,
    connects: nat, sends: nat,
    appended: seq<Point>, delivered: seq<Point>, givenUp: seq<Point>)

  // Exited is sys.exit in _connect, Raised any other exception, Overflow the
  // interpreter's recursion limit.
  datatype Outcome = Returned | Exited | Raised | Overflow

  predicate CanPublish(s: State) {
    s.socket && !s.reconnect
  }

  // depth is the number of nested flush calls the interpreter still has room for.
  function PublishMetric(cfg: Config, net: Network, s: State, p: Point, depth: nat): (State, Outcome)
    decreases depth, 5
  {
    var s' := s.(payload := s.payload + [p], appended := s.appended + [p]);
    if |s'.payload| >= cfg.maxBufferSize then Flush(cfg, net, s', depth) else (s', Returned)
  }

  function Publish(cfg: Config, net: Network, s: State, p: Point, depth: nat): (State, Outcome)
    decreases depth, 6
  {
    if cfg.admits(p.name) then PublishMetric(cfg, net, s, p, depth) else (s, Returned)
  }

  // The logging handler behind every log.error and log.exception.
  function ReportError(cfg: Config, net: Network, s: State, depth: nat): (State, Outcome)
    decreases depth, 7
  {
    if CanPublish(s) then Publish(cfg, net, s, ERROR_POINT, depth) else (s, Returned)
  }

  function Flush(cfg: Config, net: Network, s: State, depth: nat): (State, Outcome)
    decreases depth, 4
  {
    if depth == 0 then (s, Overflow)
    else
      var s' := s.(payload := []);
      if forall p <- s.payload :: p.dumps then Attempts(cfg, net, s', s.payload, 0, depth)
      else (s'.(givenUp := s.givenUp + s.payload), Raised)
  }

  // One turn of the retry loop: None when the next turn is to be taken.
  function Attempt(cfg: Config, net: Network, s: State, batch: seq<Point>, depth: nat): (State, Option<Outcome>)
    requires depth > 0
    decreases depth, 0
  {
    if NeedsConnect(s) && !net.connect(s.connects) then
      (s.(connects := s.connects + 1, givenUp := s.givenUp + batch), Some(Exited))
    else
      var s1 := Connected(s);
      var s2 := s1.(sends := s1.sends + 1);
      if net.send(s1.sends) then (s2.(delivered := s2.delivered + batch), Some(Returned))
      else
        var (s3, o) := ReportError(cfg, net, s2, depth - 1);
        if o == Returned then (s3.(reconnect := true), None)
        else (s3.(givenUp := s3.givenUp + batch), Some(o))
  }

  // Attempts number i, i+1, ... to send one batch.
  function Attempts(cfg: Config, net: Network, s: State, batch: seq<Point>, i: nat, depth: nat): (State, Outcome)
    requires i <= RETRY_COUNT && depth > 0
    decreases depth, 1, RETRY_COUNT - i
  {
    if i == RETRY_COUNT then (s.(givenUp := s.givenUp + batch), Returned)
    else
      match Attempt(cfg, net, s, batch, depth)
      case (s', Some(o)) => (s', o)
      case (s', None) => Attempts(cfg, net, s', batch, i + 1, depth)
  }

  predicate NeedsConnect(s: State) {
    !s.socket || s.reconnect
  }

  function Connected(s: State): State {
    if NeedsConnect(s) then s.(socket := true, reconnect := false, connects := s.connects + 1) else s
  }

  // ---- The recursion is harmless exactly when the buffer is large enough ----

  // The buffer cannot fill up with error metrics during one flush.
  predicate NeverNests(cfg: Config) {
    cfg.maxBufferSize > RETRY_COUNT || !cfg.admits(ERROR_POINT.name)
  }

  ghost predicate OnlyErrors(payload: seq<Point>, n: nat) {
    |payload| <= n && forall p <- payload :: p == Point("fullerite.collector_errors", 1.0, true)
  }

  // One failed send adds at most one error metric, and does not flush.
  lemma ReportAddsOne(cfg: Config, net: Network, s: State, i: nat, depth: nat)
    requires NeverNests(cfg) && i < RETRY_COUNT && OnlyErrors(s.payload, i)
    ensures var (s', o) := ReportError(cfg, net, s, depth);
            && o == Returned && OnlyErrors(s'.payload, i + 1)
            && s' == s.(payload := s'.payload, appended := s'.appended)
            && ReportError(cfg, net, s, 0) == (s', o)
  {
    if CanPublish(s) && cfg.admits(ERROR_POINT.name) {
      ReportUnfolds(cfg, net, s, depth);
      ReportUnfolds(cfg, net, s, 0);
    }
  }

  function WithErrorPoint(s: State): State {
    s.(payload := s.payload + [ERROR_POINT], appended := s.appended + [ERROR_POINT])
  }

  lemma ReportUnfolds(cfg: Config, net: Network, s: State, depth: nat)
    requires CanPublish(s) && cfg.admits(ERROR_POINT.name)
    ensures ReportError(cfg, net, s, depth) ==
            if |s.payload| + 1 >= cfg.maxBufferSize then Flush(cfg, net, WithErrorPoint(s), depth)
            else (WithErrorPoint(s), Returned)
  {
    assert ReportError(cfg, net, s, depth) == Publish(cfg, net, s, ERROR_POINT, depth);
    assert Publish(cfg, net, s, ERROR_POINT, depth) == PublishMetric(cfg, net, s, ERROR_POINT, depth);
  }

  // One attempt uses at most one send, and nothing depends on the room left
  // for nested calls.
  lemma AttemptNeverNests(cfg: Config, net: Network, s: State, batch: seq<Point>, i: nat, depth: nat)
    requires NeverNests(cfg) && i < RETRY_COUNT && depth > 0 && OnlyErrors(s.payload, i)
    ensures var (s', o) := Attempt(cfg, net, s, batch, depth);
            && (o == None || o == Some(Returned) || o == Some(Exited))
            && OnlyErrors(s'.payload, i + 1)
            && s.sends <= s'.sends <= s.sends + 1
            && Attempt(cfg, net, s, batch, 1) == (s', o)
  {
    var s1 := Connected(s);
    ReportAddsOne(cfg, net, s1.(sends := s1.sends + 1), i, depth - 1);
  }

  lemma {:induction false} AttemptsNeverNest(cfg: Config, net: Network, s: State, batch: seq<Point>, i: nat, depth: nat)
    requires NeverNests(cfg) && i <= RETRY_COUNT && depth > 0 && OnlyErrors(s.payload, i)
    ensures var (s', o) := Attempts(cfg, net, s, batch, i, depth);
            && (o == Returned || o == Exited)
            && OnlyErrors(s'.payload, RETRY_COUNT)
            && s.sends <= s'.sends <= s.sends + (RETRY_COUNT - i)
            && (s', o) == Attempts(cfg, net, s, batch, i, 1)
    decreases RETRY_COUNT - i
  {
    if i < RETRY_COUNT {
      AttemptNeverNests(cfg, net, s, batch, i, depth);
      var (s', o) := Attempt(cfg, net, s, batch, depth);
      if o == None {
        AttemptsNeverNest(cfg, net, s', batch, i + 1, depth);
      }
    }
  }

  // A flush ends after at most three sends, having called no other flush: the
  // result is the same with no room for a nested call at all. It leaves at most
  // three metrics in the buffer, all of them error reports.
  lemma FlushEndsByItself(cfg: Config, net: Network, s: State, depth: nat)
    requires NeverNests(cfg) && depth > 0
    ensures var (s', o) := Flush(cfg, net, s, depth);
            && o != Overflow
            && (o == Raised <==> exists p <- s.payload :: !p.dumps)
            && OnlyErrors(s'.payload, 3)
            && s.sends <= s'.sends <= s.sends + 3
            && (s', o) == Flush(cfg, net, s, 1)
  {
    if forall p <- s.payload :: p.dumps {
      AttemptsNeverNest(cfg, net, s.(payload := []), s.payload, 0, depth);
    }
  }

  // Connections that always open and never carry anything.
  const DEAD_NETWORK := Network(n => true, n => false)

  lemma {:induction false} AttemptsOverflow(cfg: Config, s: State, batch: seq<Point>, i: nat, depth: nat)
    requires !NeverNests(cfg) && i < RETRY_COUNT && depth > 0 && |s.payload| == i
    requires forall p <- s.payload :: p.dumps
    ensures Attempts(cfg, DEAD_NETWORK, s, batch, i, depth).1 == Overflow
    decreases depth, 0, RETRY_COUNT - i
  {
    var s1 := Connected(s);
    var s2 := s1.(sends := s1.sends + 1);
    var s3 := WithErrorPoint(s2);
    ReportUnfolds(cfg, DEAD_NETWORK, s2, depth - 1);
    if i + 1 >= cfg.maxBufferSize {
      FlushOverflows(cfg, s3, depth - 1);
    } else {
      assert Attempt(cfg, DEAD_NETWORK, s, batch, depth) == (s3.(reconnect := true), None);
      AttemptsOverflow(cfg, s3.(reconnect := true), batch, i + 1, depth);
    }
  }

  lemma {:induction false} FlushOverflows(cfg: Config, s: State, depth: nat)
    requires !NeverNests(cfg) && forall p <- s.payload :: p.dumps
    ensures Flush(cfg, DEAD_NETWORK, s, depth).1 == Overflow
    decreases depth, 1
  {
    if depth > 0 {
      AttemptsOverflow(cfg, s.(payload := []), s.payload, 0, depth);
    }
  }

  ghost predicate Ends(cfg: Config, net: Network, s: State) {
    exists depth: nat :: Flush(cfg, net, s, depth).1 != Overflow
  }

  // The threshold is exact: flush always ends if and only if the buffer holds
  // more than three metrics or error metrics are filtered out. Otherwise a dead
  // network drives it into unbounded recursion.
  lemma FlushAlwaysEndsExactlyAboveTheRetryCount(cfg: Config)
    ensures (forall net: Network, s: State :: Ends(cfg, net, s)) <==>
            cfg.maxBufferSize > 3 || !cfg.admits("fullerite.collector_errors")
  {
    if NeverNests(cfg) {
      forall net: Network, s: State ensures Ends(cfg, net, s) {
        FlushEndsByItself(cfg, net, s, 1);
      }
    } else {
      var s := State([], false, false, 0, 0, [], [], []);
      forall depth: nat ensures Flush(cfg, DEAD_NETWORK, s, depth).1 == Overflow {
        FlushOverflows(cfg, s, depth);
      }
      assert !Ends(cfg, DEAD_NETWORK, s);
    }
  }

  // ---- Conservation, for every buffer size ----

  // Everything appended is buffered, delivered, given up, or in a batch that is
  // out of the buffer while its flush is still running.
  ghost predicate Balanced(s: State, inFlight: multiset<Point>) {
    multiset(s.appended) == multiset(s.payload) + multiset(s.delivered) + multiset(s.givenUp) + inFlight
  }

  lemma PublishMetricBalances(cfg: Config, net: Network, s: State, p: Point, depth: nat, x: multiset<Point>)
    requires Balanced(s, x)
    ensures Balanced(PublishMetric(cfg, net, s, p, depth).0, x)
    decreases depth, 5
  {
    var s' := s.(payload := s.payload + [p], appended := s.appended + [p]);
    assert Balanced(s', x);
    if |s'.payload| >= cfg.maxBufferSize {
      FlushBalances(cfg, net, s', depth, x);
    }
  }

  lemma ReportBalances(cfg: Config, net: Network, s: State, depth: nat, x: multiset<Point>)
    requires Balanced(s, x)
    ensures Balanced(ReportError(cfg, net, s, depth).0, x)
    decreases depth, 7
  {
    if CanPublish(s) && cfg.admits(ERROR_POINT.name) {
      PublishMetricBalances(cfg, net, s, ERROR_POINT, depth, x);
      assert ReportError(cfg, net, s, depth) == Publish(cfg, net, s, ERROR_POINT, depth);
    }
  }

  lemma FlushBalances(cfg: Config, net: Network, s: State, depth: nat, x: multiset<Point>)
    requires Balanced(s, x)
    ensures Balanced(Flush(cfg, net, s, depth).0, x)
    decreases depth, 4
  {
    if depth > 0 && forall p <- s.payload :: p.dumps {
      var s' := s.(payload := []);
      assert Balanced(s', x + multiset(s.payload));
      AttemptsBalance(cfg, net, s', s.payload, 0, depth, x);
    }
  }

  lemma AttemptBalances(cfg: Config, net: Network, s: State, batch: seq<Point>, depth: nat, x: multiset<Point>)
    requires depth > 0 && Balanced(s, x + multiset(batch))
    ensures var (s', o) := Attempt(cfg, net, s, batch, depth);
            Balanced(s', if o == None then x + multiset(batch) else x)
    decreases depth, 0
  {
    if NeedsConnect(s) && !net.connect(s.connects) {
      BatchSettles(s, s.(connects := s.connects + 1, givenUp := s.givenUp + batch), batch, x);
    } else {
      var s2 := Connected(s).(sends := Connected(s).sends + 1);
      SameBalance(s, s2, x + multiset(batch));
      if net.send(Connected(s).sends) {
        BatchSettles(s2, s2.(delivered := s2.delivered + batch), batch, x);
      } else {
        FailedSendBalances(cfg, net, s2, batch, depth, x);
      }
    }
  }

  lemma FailedSendBalances(cfg: Config, net: Network, s: State, batch: seq<Point>, depth: nat, x: multiset<Point>)
    requires depth > 0 && Balanced(s, x + multiset(batch))
    ensures var (s', o) := ReportError(cfg, net, s, depth - 1);
            && Balanced(s'.(reconnect := true), x + multiset(batch))
            && Balanced(s'.(givenUp := s'.givenUp + batch), x)
    decreases depth - 1, 8
  {
    ReportBalances(cfg, net, s, depth - 1, x + multiset(batch));
    var s' := ReportError(cfg, net, s, depth - 1).0;
    SameBalance(s', s'.(reconnect := true), x + multiset(batch));
    BatchSettles(s', s'.(givenUp := s'.givenUp + batch), batch, x);
  }

  lemma SameBalance(s: State, s': State, x: multiset<Point>)
    requires s'.appended == s.appended && s'.payload == s.payload && s'.delivered == s.delivered &&
             s'.givenUp == s.givenUp
    ensures Balanced(s', x) == Balanced(s, x)
  {
  }

  // The batch in flight becomes delivered or given up.
  lemma BatchSettles(s: State, s': State, batch: seq<Point>, x: multiset<Point>)
    requires Balanced(s, x + multiset(batch)) && s'.appended == s.appended && s'.payload == s.payload
    requires (s'.delivered == s.delivered + batch && s'.givenUp == s.givenUp) ||
             (s'.givenUp == s.givenUp + batch && s'.delivered == s.delivered)
    ensures Balanced(s', x)
  {
  }

  lemma AttemptsBalance(cfg: Config, net: Network, s: State, batch: seq<Point>, i: nat, depth: nat, x: multiset<Point>)
    requires i <= RETRY_COUNT && depth > 0 && Balanced(s, x + multiset(batch))
    ensures Balanced(Attempts(cfg, net, s, batch, i, depth).0, x)
    decreases depth, 1, RETRY_COUNT - i
  {
    if i < RETRY_COUNT {
      AttemptBalances(cfg, net, s, batch, depth, x);
      var (s', o) := Attempt(cfg, net, s, batch, depth);
      if o == None {
        AttemptsBalance(cfg, net, s', batch, i + 1, depth, x);
      }
    }
  }

  // What a collector run does to its base class. An invalid metric is reported
  // like any logged error before the exception leaves publish.
  datatype Op = DoPublish(p: Point) | DoPublishInvalid(name: string) | DoFlush

  function Perform(cfg: Config, net: Network, s: State, op: Op, depth: nat): (State, Outcome) {
    match op
    case DoPublish(p) => Publish(cfg, net, s, p, depth)
    case DoPublishInvalid(name) =>
      if !cfg.admits(name) then (s, Returned)
      else
        var (s', o) := ReportError(cfg, net, s, depth);
        (s', if o == Returned then Raised else o)
    case DoFlush => Flush(cfg, net, s, depth)
  }

  // An invalid metric is raised, unless its name is filtered out (it goes unnoticed then)
  // or the report of it ends the collector earlier; the report is all that is left of it.
  lemma InvalidMetricsAreRaised(cfg: Config, net: Network, s: State, name: string, depth: nat)
    ensures var (s', o) := Perform(cfg, net, s, DoPublishInvalid(name), depth);
            if !cfg.admits(name) then s' == s && o == Returned
            else o != Returned && s' == ReportError(cfg, net, s, depth).0 &&
                 (ReportError(cfg, net, s, depth).1 != Returned ==> o == ReportError(cfg, net, s, depth).1)
  {
  }

  function Run(cfg: Config, net: Network, ops: seq<Op>, depth: nat): (State, Outcome) {
    if ops == [] then (State([], false, false, 0, 0, [], [], []), Returned)
    else Perform(cfg, net, Run(cfg, net, ops[..|ops| - 1], depth).0, ops[|ops| - 1], depth)
  }

  // No point is lost, duplicated or invented, whatever the network does and
  // even if some operations end in an exception.
  lemma {:induction false} RunConserves(cfg: Config, net: Network, ops: seq<Op>, depth: nat)
    ensures var s := Run(cfg, net, ops, depth).0;
            multiset(s.appended) == multiset(s.delivered) + multiset(s.givenUp) + multiset(s.payload)
  {
    if ops != [] {
      var before, op := Run(cfg, net, ops[..|ops| - 1], depth).0, ops[|ops| - 1];
      RunConserves(cfg, net, ops[..|ops| - 1], depth);
      assert Balanced(before, multiset{});
      match op
      case DoPublish(p) =>
        if cfg.admits(p.name) { PublishMetricBalances(cfg, net, before, p, depth, multiset{}); }
      case DoPublishInvalid(_) => ReportBalances(cfg, net, before, depth, multiset{});
      case DoFlush => FlushBalances(cfg, net, before, depth, multiset{});
    }
  }

  // Above the threshold no operation of any run overflows, and between
  // operations the buffer is always below its limit.
  lemma {:induction false} RunStaysBounded(cfg: Config, net: Network, ops: seq<Op>, depth: nat)
    requires cfg.maxBufferSize > 3 && depth > 0
    ensures var (s, o) := Run(cfg, net, ops, depth);
            o != Overflow && |s.payload| < cfg.maxBufferSize
  {
    if ops != [] {
      var before, op := Run(cfg, net, ops[..|ops| - 1], depth).0, ops[|ops| - 1];
      RunStaysBounded(cfg, net, ops[..|ops| - 1], depth);
      match op
      case DoPublish(p) => PublishStaysBounded(cfg, net, before, p, depth);
      case DoPublishInvalid(_) =>
        PublishStaysBounded(cfg, net, before, ERROR_POINT, depth);
      case DoFlush => FlushEndsByItself(cfg, net, before, depth);
    }
  }

  lemma PublishStaysBounded(cfg: Config, net: Network, s: State, p: Point, depth: nat)
    requires cfg.maxBufferSize > RETRY_COUNT && depth > 0 && |s.payload| < cfg.maxBufferSize
    ensures var (s', o) := Publish(cfg, net, s, p, depth);
            o != Overflow && |s'.payload| < cfg.maxBufferSize
  {
    var s' := s.(payload := s.payload + [p], appended := s.appended + [p]);
    assert cfg.admits(p.name) ==> Publish(cfg, net, s, p, depth) == PublishMetric(cfg, net, s, p, depth);
    if |s'.payload| >= cfg.maxBufferSize {
      FlushEndsByItself(cfg, net, s', depth);
    }
  }
}
