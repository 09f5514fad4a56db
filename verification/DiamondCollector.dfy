// The Diamond collector base class as the object it is: the methods that update
// the fields, each tied to its specification (src/diamond/collector.py).
module DiamondCollector {
  import opened Metrics
  import opened DiamondFlush
  import Spec = DiamondFlush
  import opened DiamondDerivative

  class Collector {
    const cfg: Config
    const net: Network
    var payload: seq<Point>
    var socket: bool
    var reconnect: bool
    var connects: nat
    var sends: nat
    var lastValues: map<string, real>
    ghost var appended: seq<Point>
    ghost var delivered: seq<Point>
    ghost var givenUp: seq<Point>

    constructor (cfg: Config, net: Network)
      ensures this.cfg == cfg && this.net == net
      ensures Fields() == Spec.Run(cfg, net, [], 0).0 && lastValues == map[]
    {
      this.cfg, this.net := cfg, net;
      payload, socket, reconnect, connects, sends := [], false, false, 0, 0;
      lastValues := map[];
      appended, delivered, givenUp := [], [], [];
    }

    ghost function Fields(): State
      reads this
    {
      State(payload, socket, reconnect, connects, sends, appended, delivered, givenUp)
    }

    method PublishMetric(p: Point, depth: nat) returns (o: Outcome)
      modifies this
      ensures (Fields(), o) == Spec.PublishMetric(cfg, net, old(Fields()), p, depth)
      ensures lastValues == old(lastValues)
      decreases depth, 5
    {
      payload := payload + [p];
      appended := appended + [p];
      o := Returned;
      if |payload| >= cfg.maxBufferSize {
        o := Flush(depth);
      }
    }

    method Publish(p: Point, depth: nat) returns (o: Outcome)
      modifies this
      ensures (Fields(), o) == Spec.Publish(cfg, net, old(Fields()), p, depth)
      ensures lastValues == old(lastValues)
      decreases depth, 6
    {
      o := Returned;
      if cfg.admits(p.name) {
        o := PublishMetric(p, depth);
      }
    }

    method ReportError(depth: nat) returns (o: Outcome)
      modifies this
      ensures (Fields(), o) == Spec.ReportError(cfg, net, old(Fields()), depth)
      ensures lastValues == old(lastValues)
      decreases depth, 7
    {
      o := Returned;
      if socket && !reconnect {
        o := Publish(ERROR_POINT, depth);
      }
    }

    method Flush(depth: nat) returns (o: Outcome)
      modifies this
      ensures (Fields(), o) == Spec.Flush(cfg, net, old(Fields()), depth)
      ensures lastValues == old(lastValues)
      decreases depth, 4
    {
      if depth == 0 {
        return Overflow;
      }
      var batch := payload;
      payload := [];
      if exists k :: 0 <= k < |batch| && !batch[k].dumps {
        givenUp := givenUp + batch;
        return Raised;
      }
      ghost var start := Fields();
      for i := 0 to RETRY_COUNT
        invariant lastValues == old(lastValues)
        invariant Spec.Attempts(cfg, net, Fields(), batch, i, depth) == Spec.Attempts(cfg, net, start, batch, 0, depth)
      {
        var done := Attempt(batch, depth);
        if done.Some? {
          return done.value;
        }
      }
      givenUp := givenUp + batch;
      o := Returned;
    }

    // The body of the retry loop.
    method Attempt(batch: seq<Point>, depth: nat) returns (done: Option<Outcome>)
      requires depth > 0
      modifies this
      ensures (Fields(), done) == Spec.Attempt(cfg, net, old(Fields()), batch, depth)
      ensures lastValues == old(lastValues)
      decreases depth, 0
    {
      if !socket || reconnect {
        connects := connects + 1;
        if !net.connect(connects - 1) {
          givenUp := givenUp + batch;
          return Some(Exited);
        }
        socket, reconnect := true, false;
      }
      sends := sends + 1;
      if net.send(sends - 1) {
        delivered := delivered + batch;
        return Some(Returned);
      }
      var o := ReportError(depth - 1);
      if o != Returned {
        givenUp := givenUp + batch;
        return Some(o);
      }
      reconnect := true;
      done := None;
    }

    method Derivative(path: string, value: real, settings: Settings) returns (result: real)
      requires Divisor(settings) != 0.0
      modifies `lastValues
      ensures (lastValues, result) ==
              DiamondDerivative.Derivative(settings, old(lastValues), Reading(path, value))
    {
      if path in lastValues {
        var stored := lastValues[path];
        if value < stored {
          stored := stored - settings.maxValue;
        }
        var derivativeX := value - stored;
        var derivativeY := if settings.timeDelta then settings.interval else 1.0;
        result := derivativeX / derivativeY;
        if result < 0.0 && !settings.allowNegative {
          result := 0.0;
        }
      } else {
        result := 0.0;
      }
      lastValues := lastValues[path := value];
    }
  }
}
