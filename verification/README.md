# Verified model of fullerite

fullerite moves metrics from collectors, over one channel per collector and
handler, into buffers, and from there in batches to handlers that emit them. Most
of the collectors run in Diamond, a Python process that sends its metrics to the
Go process over a socket. This project models the parts of both processes that
decide whether a metric arrives, arrives once, and arrives as what it was, and
proves what they promise for every input, every interleaving and every map
iteration order.

| module | what it models |
|---|---|
| Metrics, Text | the metric value; splitting, joining and ordering text |
| Listener | one listener goroutine: its buffer and the batches it cuts |
| EmissionWindow | the pruned list of emission timings, and the gauges computed from it |
| Batching | dividing a flushed batch by a dimension |
| Delivery | listeners, emit goroutines and the recorder as a state machine over their atomic steps |
| Routing | which endpoints a handler opens, and what a collector's reader sends to them |
| CollectdBytes, CollectdCodec, CollectdInterpreter, CollectdWire | the collectd binary protocol: its decoder, an encoder written from the protocol, the interpreter that undoes delta compression, and what each part does byte by byte |
| DiamondFlush, DiamondLedger, DiamondDerivative, DiamondCollector | the Diamond base class: the buffered flush that can call itself through error logging, what its sends deliver, and counter derivatives |
| Dropwizard, BaseParser, ParserMeaning | decoded JSON, its flat metric formats, the dimension overlays written through shared maps, and what the parsed metrics say |
| GoSlices, LegacyMetric, LegacyPaths, LegacyRun, LegacyWorklist, LegacyMeaning | the breadth-first worklist over nested maps, with its paths in slices that share arrays, and what its metrics say |
| LegacyOrder, LegacyExamples | when the worklist's metrics depend on map order, exactly and by example |
| LegacyNames, LegacyAnswer, LegacyOverwriting | when their names are right, and when the whole answer does not depend on map order, exactly and by example |
| Scheduler | the window grid and shrinking stagger of a Diamond collector process |
| CassandraPercentiles | histogram offsets and percentiles |
| Sanitize, Graphite | sanitizing text, and the Graphite line built from it |
| Nerve | writing and reading a nerve configuration |
| Filestat | the user list edited in stages |

## How it is modelled

- Concurrency: a run is any sequence of atomic steps (a select that wakes up, an
  emit that returns, one rendezvous on the timing channel, one counter update).
  An action that is not enabled changes nothing, so every statement about a run
  is a statement about every interleaving.
- Go map iteration: a loop over a map picks its keys in an arbitrary order. In the
  worklist, where the order changes the answer, it is an explicit argument.
- Dimension maps of parsed metrics, the arrays behind the worklist's paths and
  Python lists that may be shared are heap objects; overlays, appends and list
  edits are proved with aliasing in place.
- Clocks, random draws, the network, regular expressions, group tables and
  Unicode tables are arguments. Values of metrics are real numbers.
- A Go panic, a Python exception and the recursion limit are outcomes, and the
  contracts say exactly when they occur.

## What turned out not to hold

Each item says what one would expect, and from what; the lemma named gives the
exact condition, a concrete input, or both.

- A packet decoder should end (it takes the declared lengths on trust at
  collectd_network.py:159): it does not exactly when it reaches a part of length 0
  that decodes (`RunsForeverExactlyOnLengthZero`, `FourZeroBytesRunForever`).
- A part should be decoded from its own bytes (each decoder is told its length at
  collectd_network.py:158): short numbers and values and empty texts are not
  (`PartDependsOnItsOwnBytesExactlyWhenCovered`).
- DERIVE values are signed in the collectd protocol: read unsigned, negative ones
  come out 2^64 too large (`DeriveSurvivesExactlyWhenNonNegative`).
- flush should end after its three attempts (collector.py:378): the error metric of
  a failed one can call flush again, without end when max_buffer_size is 3 or less
  (`FlushAlwaysEndsExactlyAboveTheRetryCount`).
- derivative should make up for a rollover ("Check for rollover", collector.py:428):
  when max_value is the largest reading it is one short for each
  (`UnderReportedByOnePerRollover`).
- The legacy parser should unroll a document into the metrics it holds
  (legacy_metric.go:71-72): which of them, whether it crashes and with which service
  dimensions hangs on map order, exactly as `OrdersAgreeExactlyWhen` says. Their names
  can have keys overwritten as well, exactly when a map that may overwrite a child's
  path has metrics below it (`MetricsReadRightExactlyWhen`, `OnlyChildIsOverwritten`);
  `PathsAgreeExactlyWhen` and `ReturnsAgreeExactlyWhen` put the two together.
- A run should fit into the collection window ("Ensure collector run times fit",
  scheduler.py:91): not below one second (`FitsExactlyFromOneSecond`). The first window is
  the current one where the comment at scheduler.py:67 says the next
  (`FirstWindowIsTheCurrentOne`).
- A Cassandra percentile should lie in its bucket (the comment at
  cassandra_jolokia.py:122-130): it is half the bucket's width (`NeverInsideItsBucket`),
  and negative in the first bucket (`FirstBucketIsNegativeExactlyWhen`).
- A Graphite datapoint should keep a consistent name (graphite.go:80): not when keys
  collide once sanitized (`OrderMattersExactlyOnCollisions`, `BlankAndUnderscoreCollide`).
- Every service in a nerve configuration should be read (nerve_config.go:51): with
  namespaces two can share a key, and then one is lost (`RoundTrip`, `HiddenDotsCollide`).
- Members of included groups should be added (filestat.py:113): nobody is, unless some
  user is included by name (`OneOfGroupsAndLimitsMatters`).

## Model

| member | source | states |
|---|---|---|
| `Listener.ListenForMetrics` | src/fullerite/handler/handler.go:459-512 | the loop leaves off at the first zero-valued metric; the batches it spawned and the buffer it keeps are the reference cutting of what came before, together they are the accepted metrics in order, and currentBufferSize is the buffer's length |
| `Listener.ListenMeetsReference` | src/fullerite/handler/handler.go:464-509 | for every event sequence, step-by-step buffering equals cutting the accepted metrics at every tick and sentinel and then into pieces of max(1, BufferSize) |
| `Listener.ListenGrows` | src/fullerite/handler/handler.go:464-509 | event by event: nothing changes after a zero-valued metric, a tick or sentinel spawns all that is buffered, and a metric completes a batch as soon as there are BufferSize, or one if that is 0 |
| `Listener.AcceptedGrows` | src/fullerite/handler/handler.go:470-486 | event by event, the accepted metrics are those before the first zero-valued one that are no sentinels |
| `Listener.BatchesPartitionAccepted` | src/fullerite/handler/handler.go:470-507 | batches in spawn order followed by the buffer are the ordinary metrics before the first zero-valued one; every batch has one metric, or at least two and at most BufferSize, and the buffer stays below that |
| `Listener.StopIsFinal` | src/fullerite/handler/handler.go:482-486 | the first zero-valued metric ends the reading: what counts is exactly what came before it, whatever follows |
| `Listener.UntilStop` | src/fullerite/handler/handler.go:481-486 | the longest prefix without a zero-valued metric; it is everything, or ends right before one |
| `EmissionWindow.WindowIsSuffix` | src/fullerite/handler/handler.go:522-535 | at every time the pruned list is a suffix of everything recorded |
| `EmissionWindow.RemovedOnlyWhenExpired` | src/fullerite/handler/handler.go:525-535 | a recorded timing is missing from the list only if some later pruning found it expired |
| `EmissionWindow.WindowMeetsHistory` | src/fullerite/handler/handler.go:517-538 | under any clock, pruning step by step equals one drop-while over the whole history with the latest cut-off, exactly when no earlier cut-off would drop more of its own history than the latest one drops |
| `EmissionWindow.WindowIsDropWhile` | src/fullerite/handler/handler.go:517-538 | so the two are equal under a clock that does not go back, as Go's monotonic readings do not |
| `EmissionWindow.NothingYoungIsLost` | src/fullerite/handler/handler.go:525-535 | under such a clock a timing received at most interval seconds of nanoseconds before the last reception (now - timestamp <= interval * 1,000,000,000) is in the list |
| `EmissionWindow.WindowFromTheFirstYoungOne` | src/fullerite/handler/handler.go:525-535 | under such a clock the list is, timing by timing, everything received from the first timing on that is at most interval * 1,000,000,000 ns old at the last reception |
| `EmissionWindow.EachPruningDropsTheOldOnes` | src/fullerite/handler/handler.go:525-535 | under any clock one pruning takes out the timings at the front that are more than interval * 1,000,000,000 ns old, up to the first that is not |
| `EmissionWindow.WallClockWouldLoseTimings` | src/fullerite/handler/handler.go:520-535 | that the comparison goes by monotonic readings is needed: a concrete run, under a wall clock that is set back, in which an in-window timing is gone |
| `EmissionWindow.DropWhileMeetsFilter` | src/fullerite/handler/handler.go:525-535 | dropping from the front equals filtering by age exactly when no expired timing stands behind a live one |
| `EmissionWindow.WindowIsFilter` | src/fullerite/handler/handler.go:514-538 | with timings in timestamp order the list is exactly the timings the cut-off leaves |
| `EmissionWindow.WindowIsTheYoungOnes` | src/fullerite/handler/handler.go:514-538 | in timestamp order the list holds exactly the timings with now - timestamp <= interval * 1,000,000,000 |
| `EmissionWindow.BaseHandler.RecordEmission` | src/fullerite/handler/handler.go:518-537 | one turn: the counter grows by one; the list is the old one with the new timing, less the timings at its front that are more than interval seconds of nanoseconds old |
| `EmissionWindow.BaseHandler.RecordEmissions` | src/fullerite/handler/handler.go:517-539 | over a whole channel: totalEmissions is the number of timings received and the list is the window over them |
| `EmissionWindow.BaseHandler.EmissionGauges` | src/fullerite/handler/handler.go:378-394 | the average and maximum durations of the list, reported exactly when it is not empty |
| `EmissionWindow.DurationsAddUp` | src/fullerite/handler/handler.go:378-394 | the sum behind the average is additive over lists and gives a single timing its duration |
| `Batching.MakeBatches` | src/fullerite/handler/signalfx.go:177-192 | one non-empty batch for each value of the dimension, holding exactly the metrics with that value in their original order; a single batch when no dimension is configured |
| `Batching.PartsPartition` | src/fullerite/handler/signalfx.go:177-192 | whatever order the batches are walked in, they hold every metric of the flushed batch once, and their sizes add up to its size |
| `Batching.FewParts` | src/fullerite/handler/signalfx.go:187-190 | there are never more batches than metrics |
| `Batching.PartsAre` | src/fullerite/handler/signalfx.go:177-192 | the batch made for a value holds exactly the metrics with that value, a metric without the dimension having the empty one |
| `Batching.SelectIsInOrder` | src/fullerite/handler/signalfx.go:181-185 | and in their order |
| `Delivery.RunKeeps` | src/fullerite/handler/handler.go:445-570 | every interleaving of listeners, emit goroutines and the recorder keeps the invariant from which the results below follow |
| `Delivery.NoMetricIsLostOrCountedTwice` | src/fullerite/handler/handler.go:459-570 | at every state of every interleaving, accepted metrics = buffered + in batches not yet counted + sent + dropped, as multisets and as numbers, in both reporting modes |
| `Delivery.CountedFollowTheEmitFunctions` | src/fullerite/handler/handler.go:541-556 | over the actions of a run: the metrics counted as sent, with those still to be counted so, are those of the batches whose emit functions returned true; and so for dropped and false |
| `Delivery.CountersFollowTheEmitFunctions` | src/fullerite/handler/handler.go:541-556 | the same for the counters metricsSent and metricsDropped |
| `Delivery.EmittedBatchesAreOfOneKind` | src/fullerite/handler/signalfx.go:177-192 | a handler that reports by itself and divides by a dimension emits only batches with one value of it; any other emits what its listeners cut |
| `Delivery.ListenersKeepOrder` | src/fullerite/handler/handler.go:459-509 | inside any interleaving each listener still spawns its own metrics in order and once, and each of its batches has one metric or at most as many as its buffer size |
| `Delivery.CountedBatchesWereRecorded` | src/fullerite/handler/handler.go:517-556 | batches counted never exceed totalEmissions + 1, and equal it at most while the recorder has a timing in hand |
| `Delivery.TimingsAreRecordedOnce` | src/fullerite/handler/handler.go:517-556 | every emit function that returned left one timing with its end, its duration and its batch size, which is at the channel, in the recorder's hand or recorded |
| `Delivery.WindowFollowsHistory` | src/fullerite/handler/handler.go:517-538 | in every interleaving the emission list is everything recorded from the first timing on that is at most interval * 1,000,000,000 ns old at the last reception |
| `Delivery.InternalStepsUseUpWork` | src/fullerite/handler/signalfx.go:249-287 | every step other than reading input lowers a measure of the outstanding work, splitting by dimension included |
| `Delivery.NeverStuck` | src/fullerite/handler/handler.go:541-570 | while work is left some goroutine can step: a sender on the unbuffered timing channel never waits for ever |
| `Delivery.DrainingIsBounded` | src/fullerite/handler/handler.go:541-570 | once input stops, the number of further steps is bounded by the outstanding work, in any order of steps |
| `Delivery.DrainedStateIsSettled` | src/fullerite/handler/handler.go:541-570 | when no work is left, metricsSent and metricsDropped are the numbers of metrics whose emit functions returned true and false in the run, together all the spawned ones, and every batch has been recorded |
| `Delivery.DrainedMeansRecorded` | src/fullerite/handler/handler.go:517-556 | ... and the recorded timings are exactly those the emit functions left |
| `Routing.InitListeners` | src/fullerite/handler/handler.go:301-352 | endpoints exist exactly for the configured collectors the two lists admit, each with its own batch size or the handler's |
| `Routing.ReadFromCollector` | src/fullerite/collectors.go:83-133 | every endpoint's queue is exactly the non-blacklisted metrics whose canonical collector it is, in order and once, prefixed and tagged; the counters are their numbers |
| `Routing.MeantForIsComplete` | src/fullerite/collectors.go:92-133 | the positions an endpoint's queue is compared with are exactly the positions of metrics that are not blacklisted and whose canonical-name dimension, or else the reading collector, names the endpoint, in increasing order |
| `Routing.Tag` | src/fullerite/collectors.go:93-105 | the "collector" dimension is defaulted, the canonical name overridden and its dimension removed, and nothing else changes |
| `Routing.Send` | src/fullerite/collectors.go:124-132 | a metric is appended to its collector's queue in every handler that has one, and to no other |
| `Routing.CountersAddUp` | src/fullerite/collectors.go:108-111 | the counters of all collectors add up to the number of metrics that were not blacklisted |
| `Routing.PassingAddsUp` | src/fullerite/collectors.go:86-111 | that number is additive over streams and counts every metric whose name is not blacklisted as one |
| `CollectdCodec.DecodeNetworkValues` | src/diamond/collectors/jcollectd/collectd_network.py:83-111 | the loop over data source types gives what the recursive reading of them gives, with the same errors |
| `CollectdCodec.DecodeNetworkPacket` | src/diamond/collectors/jcollectd/collectd_network.py:143-159 | the generator's parts and how it ends: normally, with an error, or by repeating one part for ever |
| `CollectdCodec.RunsForeverExactlyOnLengthZero` | src/diamond/collectors/jcollectd/collectd_network.py:149-159 | the generator yields without end exactly when one of the offsets it visits holds a part with length field 0 that is a text, or a number with its twelve bytes there |
| `CollectdCodec.FourZeroBytesRunForever` | src/diamond/collectors/jcollectd/collectd_network.py:149-159 | four zero bytes are such a packet |
| `CollectdCodec.PartDependsOnItsOwnBytesExactlyWhenCovered` | src/diamond/collectors/jcollectd/collectd_network.py:83-123 | although a decoder is handed the whole tail, what a part decodes to is settled by the bytes it claims, exactly when a text claims at least one, a number at least twelve and values at least six |
| `CollectdCodec.EmptyTextReadsTheTail` | src/diamond/collectors/jcollectd/collectd_network.py:123 | a text that claims length 0 is given everything up to the last byte of the packet |
| `CollectdCodec.ShortNumberReadsItsNeighbour` | src/diamond/collectors/jcollectd/collectd_network.py:114-117 | a number part that claims less than twelve bytes is decoded from whatever follows it |
| `CollectdCodec.PartDecodesAnywhere` | src/diamond/collectors/jcollectd/collectd_network.py:83-158 | an encoded part is yielded as sent wherever it stands in a buffer, and the offset moves to its end |
| `CollectdCodec.DecodeInvertsEncode` | src/diamond/collectors/jcollectd/collectd_network.py:143-159 | decoding the encoding of any list of well-formed parts gives back that list and finishes |
| `CollectdCodec.OffsetsTilePacket` | src/diamond/collectors/jcollectd/collectd_network.py:146-159 | on such a buffer the offsets strictly increase and are exactly the boundaries of the parts, up to the end |
| `CollectdCodec.DeriveSurvivesExactlyWhenNonNegative` | src/diamond/collectors/jcollectd/collectd_network.py:102-104 | DERIVE is read unsigned: a value survives exactly when it is not negative, and otherwise is off by 2^64 |
| `CollectdInterpreter.RecordArrivesExactlyWhenCovered` | src/diamond/collectors/jcollectd/collectd_network.py:236-266 | a record comes out whole exactly when every field the receiver does not already hold is sent ahead of it |
| `CollectdInterpreter.RecordsArrive` | src/diamond/collectors/jcollectd/collectd_network.py:236-266 | the same for any list of records: they all arrive exactly when each plan covers what changed since the one before |
| `CollectdInterpreter.PacketRoundTrip` | src/diamond/collectors/jcollectd/collectd_network.py:143-266 | compressing, encoding, decoding and interpreting any list of samples and notifications finishes, and gives the list back exactly when the plans cover the changes |
| `CollectdInterpreter.DeltaCompressionRoundTrip` | src/diamond/collectors/jcollectd/collectd_network.py:143-266 | a sender that sends exactly the changed fields gets its list through |
| `CollectdInterpreter.DeltaPlansCover` | src/diamond/collectors/jcollectd/collectd_network.py:236-266 | sending exactly what differs from the receiver's state covers every change, for severities the setter accepts |
| `CollectdInterpreter.InterpretOpcodes` | src/diamond/collectors/jcollectd/collectd_network.py:236-266 | when the whole packet is consumed, every yielded object still holds what it held when it was yielded: later parts never alter an earlier record |
| `CollectdWire.TextsOnTheWire` | src/diamond/collectors/jcollectd/collectd_network.py:236-263 | wherever they stand, parts of kinds 0x0000, 0x0002, 0x0003, 0x0004 and 0x0005 set host, plugin, plugin instance, type and type instance to their text and nothing else; 0x0100 yields a notification with its text and what the receiver holds |
| `CollectdWire.NumbersOnTheWire` | src/diamond/collectors/jcollectd/collectd_network.py:236-260 | kinds 0x0001 and 0x0007 set time and interval in seconds, 0x0008 and 0x0009 in units of 1/1073741824 s, and 0x0101 sets the severity to 1, 2 or 4 and leaves it alone otherwise; the number is its eight bytes, big-endian |
| `CollectdWire.ValuesOnTheWire` | src/diamond/collectors/jcollectd/collectd_network.py:83-111 | kind 0x0006, a count, a type byte for each value and eight bytes for each, yields those values with what the receiver holds: type 1 as it is, 0, 2 and 3 as unsigned numbers |
| `CollectdWire.HeadersThatFail` | src/diamond/collectors/jcollectd/collectd_network.py:143-158 | a packet ends behind its last part; too few bytes for a header are a struct.error, a length past the end and any other kind a ValueError, and a number fails exactly when fewer than eight bytes are left for it |
| `CollectdWire.ValuesThatFail` | src/diamond/collectors/jcollectd/collectd_network.py:83-111 | a values part fails for want of a count, with an AssertionError on a length that is not 6 + 9 * count, with a ValueError exactly on a type above 3, and never else |
| `CollectdWire.PluginInstanceAlone` | src/diamond/collectors/jcollectd/collectd_network.py:143-266 | the packet 0, 3, 0, 6, 48, 0 leaves a receiver with the plugin instance "0" and everything else unset |
| `CollectdInterpreter.Notification.SetSeverity` | src/diamond/collectors/jcollectd/collectd_network.py:214-218 | only FAILURE, WARNING and OKAY are stored; anything else leaves the severity as it was |
| `CollectdInterpreter.Values.DeepCopy` | src/diamond/collectors/jcollectd/collectd_network.py:266 | a copy that shares nothing and says the same |
| `CollectdInterpreter.Notification.DeepCopy` | src/diamond/collectors/jcollectd/collectd_network.py:263 | a copy that shares nothing and says the same |
| `DiamondFlush.FlushEndsByItself` | src/diamond/collector.py:370-395 | above three buffered metrics (or with the name fullerite.collector_errors filtered out) a flush ends after at most three sends without calling another flush, and leaves at most three error metrics behind |
| `DiamondFlush.FlushAlwaysEndsExactlyAboveTheRetryCount` | src/diamond/collector.py:50-69 | flush always ends if and only if max_buffer_size > 3 or error metrics are filtered out |
| `DiamondFlush.FlushOverflows` | src/diamond/collector.py:366-392 | otherwise a network that always connects and never sends drives it through any recursion limit |
| `DiamondFlush.RunConserves` | src/diamond/collector.py:337-395 | over any run and any network, appended = delivered + given up + still buffered, as multisets, even across exceptions |
| `DiamondLedger.RunDeliversWhatWasSent` | src/diamond/collector.py:337-395 | over any run and any network, the delivered points are those of the batches one of whose sends went through, in the order they did, and those given up are of all other batches; every send is made for one batch, and none after the one that went through |
| `DiamondLedger.FlushDeliversWhatWasSent` | src/diamond/collector.py:370-395 | the same for one flush, with every flush nested in it; the last batch it deals with is its own buffer, with at most three sends |
| `DiamondLedger.FlushDeliversExactlyWhenSent` | src/diamond/collector.py:370-395 | without nesting, a flush of points that can be written delivers its buffer if some n among the sends it made has net.send(n), and gives it up otherwise |
| `DiamondLedger.FlushReconnects` | src/diamond/collector.py:378-392 | and it connects once before each send, but for the first on a connection that is open and sound |
| `DiamondFlush.InvalidMetricsAreRaised` | src/diamond/collector.py:299-335 | an invalid metric is reported and raised, and goes unnoticed exactly when its name is filtered out |
| `DiamondFlush.RunStaysBounded` | src/diamond/collector.py:337-368 | above the threshold no operation of any run overflows and the buffer stays below its limit between operations |
| `DiamondCollector.Collector.constructor` | src/diamond/collector.py:76-104 | a new collector has an empty buffer, no socket and no stored values |
| `DiamondCollector.Collector.PublishMetric` | src/diamond/collector.py:337-368 | appends, and flushes when the buffer is full; the new fields are those of the specification the results above are about |
| `DiamondCollector.Collector.Publish` | src/diamond/collector.py:299-335 | the same, behind the white- and blacklist |
| `DiamondCollector.Collector.ReportError` | src/diamond/collector.py:59-69 | the logging handler publishes an error metric exactly when the socket is up and not about to reconnect |
| `DiamondCollector.Collector.Flush` | src/diamond/collector.py:370-395 | empties the buffer and tries to send it, with the outcome and the fields of the specification |
| `DiamondCollector.Collector.Attempt` | src/diamond/collector.py:378-392 | one turn of the retry loop: connect if needed, send, and on failure report and ask for a reconnect |
| `DiamondCollector.Collector.Derivative` | src/diamond/collector.py:417-454 | stores the reading under its path only and returns the specified rate |
| `DiamondDerivative.StoredIsLatest` | src/diamond/collector.py:426-451 | on any mix of paths the stored value of a path is its own latest reading |
| `DiamondDerivative.ResultInNumbers` | src/diamond/collector.py:417-454 | a call returns zero on a path's first reading; afterwards its gain on the reading before, plus max_value if it fell, over the interval with time_delta, and zero instead of a negative result unless those are allowed |
| `DiamondDerivative.OfInOrder` | src/diamond/collector.py:426-451 | the readings of a path are its own and in their order |
| `DiamondDerivative.DerivativesAreNonNegative` | src/diamond/collector.py:426-446 | readings in [0, max_value] never give a negative result, and each result times the divisor is the rollover-corrected change |
| `DiamondDerivative.DerivativesAddUp` | src/diamond/collector.py:417-454 | with time_delta off a path's results add up to last - first + max_value for each decrease |
| `DiamondDerivative.UnderReportedByOnePerRollover` | src/diamond/collector.py:428-432 | a counter modulo max_value + 1 that wraps at most once between readings is under-reported by exactly one for every rollover |
| `DiamondDerivative.DecreasesAreWraps` | src/diamond/collector.py:429-430 | the decreases among such readings are exactly the wraps of the counter |
| `BaseParser.AddToAll` | src/fullerite/metric/metric.go:96-102 | reaches every metric that owns a map, through that map; the struct copies themselves are never written back |
| `BaseParser.AddDimension` | src/fullerite/metric/metric.go:44-49 | writes into the metric's map, or creates one in the struct at hand if it has none |
| `BaseParser.AddDimensions` | src/fullerite/metric/metric.go:57-61 | all the given dimensions, in any order, win over the metric's own |
| `BaseParser.OverlayAll` | src/fullerite/dropwizard/base_parser.go:142 | on metrics that own their maps, AddToAll is exactly an overlay of each of them |
| `BaseParser.CreateMetric` | src/fullerite/dropwizard/base_parser.go:152-169 | a numeric value becomes a metric with a map of its own that holds its rollup; anything else gives none |
| `BaseParser.ReadDimensions` | src/fullerite/dropwizard/base_parser.go:109-116 | string dimensions are kept, any other value becomes "null" |
| `BaseParser.AddDatum` | src/fullerite/dropwizard/base_parser.go:120-139 | one rollup adds its metric, renamed and retyped under cumulative counters, and rates are then left out |
| `BaseParser.MetricFromMap` | src/fullerite/dropwizard/base_parser.go:99-144 | for every map order: one metric for each numeric rollup, with the map's own dimensions over it; it panics exactly on "dimensions" that are not a map |
| `BaseParser.ParseMapOfMap` | src/fullerite/dropwizard/uwsgi_metric.go:88-96 | the metrics of all named entries, for every map order |
| `BaseParser.ParseArrOfMap` | src/fullerite/dropwizard/uwsgi_metric.go:75-86 | the metrics of all entries with a name, which is taken out of them; it panics exactly on a name that is not a string or on bad dimensions |
| `BaseParser.ParseSection` | src/fullerite/dropwizard/base_parser.go:180-184 | one section with its type laid over it, unless cumulative counters are on |
| `BaseParser.AppendIt` | src/fullerite/dropwizard/uwsgi_metric.go:135-140 | the section's metrics are added to the results, which keep theirs |
| `BaseParser.ExtractParsedMetric` | src/fullerite/dropwizard/uwsgi_metric.go:133-149 | the five sections in turn, in either format: exactly their metrics, each once |
| `BaseParser.AddServiceDims` | src/fullerite/dropwizard/uwsgi_metric.go:114-116 | one AddToAll for each service dimension, in any order, is one overlay of them all; it panics exactly when one is not a string |
| `BaseParser.Parse` | src/fullerite/dropwizard/uwsgi_metric.go:99-131 | for every map order the same metrics, each once, with every overlay applied; and exactly when parsing panics |
| `BaseParser.DimensionPrecedence` | src/fullerite/dropwizard/uwsgi_metric.go:99-149 | the dimensions of a parsed metric are rollup < own "dimensions" < type < service dimensions |
| `ParserMeaning.ParseMeans` | src/fullerite/dropwizard/uwsgi_metric.go:75-149 | which keys of which entries become metrics, and each one's name, type, value and every dimension, with sections and types written out: counters are "counter", all else is "gauge", and counts are "cumcounter" when counters are cumulative |
| `ParserMeaning.ParsedResultsMean` | src/fullerite/dropwizard/uwsgi_metric.go:99-149 | the same for the list that Parse returns |
| `ParserMeaning.ParsePanicsMean` | src/fullerite/dropwizard/uwsgi_metric.go:75-149 | parsing panics exactly on an entry with dimensions that are no map, on an element whose name is no text, or on a service dimension that is no text |
| `LegacyMetric.CollectDatums` | src/fullerite/dropwizard/legacy_metric.go:232-256 | the loop shared by three collectors: one metric for each number outside the skipped keys, for every map order |
| `LegacyMetric.CollectRate` | src/fullerite/dropwizard/legacy_metric.go:277-300 | the same, for maps whose unit is seconds or milliseconds |
| `LegacyMetric.CheckForMeterUnits` | src/fullerite/dropwizard/legacy_metric.go:337-345 | true exactly for maps with an event type and one of the three units |
| `LegacyMetric.ParseFlattenedMetricMap` | src/fullerite/dropwizard/legacy_metric.go:137-154 | which of the five formats a flat map has and what it gives; it panics exactly on a type that is not a string and on malformed dimensions |
| `LegacyMetric.ExtractGaugeValue` | src/fullerite/dropwizard/legacy_metric.go:192-195 | a lone number becomes a gauge named by its map's path and its key, and the append behind that name writes into the path's array |
| `LegacyMetric.VisitScalar` | src/fullerite/dropwizard/legacy_metric.go:114-123 | one scalar: it crashes, breaks off with the metrics of a format, or adds a gauge and goes on |
| `LegacyMetric.VisitSub` | src/fullerite/dropwizard/legacy_metric.go:104-113 | one sub-map: its path is appended to its parent's slice |
| `LegacyMetric.VisitNode` | src/fullerite/dropwizard/legacy_metric.go:104-126 | one map in one iteration order: its format's metrics or else its gauges, under the name its slice reads; the sub-maps it descends into, in order, with what all the appends left in their slices; and exactly when it panics |
| `LegacyMeaning.NodeMetricsMean` | src/fullerite/dropwizard/legacy_metric.go:137-345 | which maps have a format and what each key then gives, in plain texts: a "counter" map with a count gives metrics of type "counter", a "gauge" map with a value "gauge"; histogram, meter and rate maps give "COUNTER" exactly for count and else "GAUGE"; in any other map each lone number is a "GAUGE" with rollup "value"; with names, values and every dimension |
| `LegacyMeaning.PanicsMean` | src/fullerite/dropwizard/legacy_metric.go:137-154 | a map crashes the parser exactly when something in it is no sub-map and its type is no text, or it is a gauge or counter with dimensions that are no map |
| `LegacyMeaning.CounterOfTheSource` | src/fullerite/dropwizard/legacy_metric.go:58-77 | {"count": 0, "type": "counter"} at a gives the counter a with rollup count |
| `LegacyWorklist.VisitHead` | src/fullerite/dropwizard/legacy_metric.go:100-127 | one turn of the outer loop: the head's metrics are added, its sub-maps go to the end of the queue, and it says what every queued slice reads afterwards |
| `LegacyWorklist.VisitAll` | src/fullerite/dropwizard/legacy_metric.go:80-128 | for every iteration order the worklist runs dry, in step with a record of what was visited, read and emitted |
| `LegacyWorklist.ParseNestedMetricMaps` | src/fullerite/dropwizard/legacy_metric.go:80-135 | for every iteration order: it panics exactly when Panics says so; otherwise the results are exactly the metrics of the visited maps, each once, overlaid with the service_dims pushed last, and each under the name its slice reads, wrong segments included: NameOf says key by key which map's visit wrote every segment last |
| `LegacyMeaning.RunMeans` | src/fullerite/dropwizard/legacy_metric.go:80-154 | for every iteration order a place gives a metric exactly when its map is visited and its key is reported, and the metric says what that key says, the dimensions of the service laid over it |
| `LegacyMeaning.ResultsMean` | src/fullerite/dropwizard/legacy_metric.go:80-154 | the same for the list that the method returns |
| `LegacyWorklist.DrainedMeansAll` | src/fullerite/dropwizard/legacy_metric.go:98-127 | an empty queue means that every visited map has been dealt with |
| `LegacyOrder.EveryOrderIsADescentExactlyWhen` | src/fullerite/dropwizard/legacy_metric.go:98-127 | before service dimensions are added, every iteration order emits what a recursive descent of the tree emits, if and only if no metrics lie below a recognised map |
| `LegacyRun.SomeServiceWins` | src/fullerite/dropwizard/legacy_metric.go:104-108 | if any service_dims is visited there is one that is pushed last |
| `LegacyRun.OneServiceWins` | src/fullerite/dropwizard/legacy_metric.go:104-108 | and only one |
| `LegacyOrder.TowardVisits` | src/fullerite/dropwizard/legacy_metric.go:98-127 | for each map there is an order that visits it and only the maps that every run visiting it must visit |
| `LegacyOrder.OrdersAgreeExactlyWhen` | src/fullerite/dropwizard/legacy_metric.go:80-135 | names aside, all iteration orders agree on panicking and on the metrics with their service dimensions, if and only if either nothing can crash, no metrics lie below a recognised map and every service_dims that can come last gives every metric the same (the document is settled), or else every run crashes |
| `LegacyOrder.UnmixedIsEnough` | src/fullerite/dropwizard/legacy_metric.go:80-135 | a document is settled when no map in it holds both a recognised metric and sub-maps, no map can crash, and the deepest service_dims say the same in strings |
| `LegacyNames.AllReadRightExactlyWhen` | src/fullerite/dropwizard/legacy_metric.go:98-127 | for one iteration order: every visited map's path is read right, if and only if every visit kept its children's paths (its own path was full, or it had no child, or one with nothing handled after it) |
| `LegacyNames.PathsAlwaysKeptExactlyWhen` | src/fullerite/dropwizard/legacy_metric.go:104-127 | every iteration order keeps every path, if and only if each recognised map below a path with room left has at most one sub-map, and each other one has none or nothing else |
| `LegacyNames.MetricsReadRightExactlyWhen` | src/fullerite/dropwizard/legacy_metric.go:98-127 | every iteration order reads the right path for every map that emits, if and only if no map that may overwrite a child's path (its own path has room left, and it has two sub-maps, or, without a format, a sub-map and another key) has metrics anywhere below it |
| `LegacyNames.TowardReadsRight` | src/fullerite/dropwizard/legacy_metric.go:98-127 | for every map there is an order that visits it and reads its path right, whatever else is overwritten |
| `LegacyNames.StrayingReadsWrong` | src/fullerite/dropwizard/legacy_metric.go:104-127 | below a map that may overwrite a child's path there is for every map an order that visits it and reads its path wrong, though right down to that map |
| `LegacyAnswer.PathsAgreeExactlyWhen` | src/fullerite/dropwizard/legacy_metric.go:80-135 | any two orders agree on panicking, on every metric with its service dimensions and on every segment of its path, if and only if the document is settled and no map that may overwrite a child's path has metrics below it, or every run crashes (the document is certain) |
| `LegacyAnswer.ReturnsAgreeExactlyWhen` | src/fullerite/dropwizard/legacy_metric.go:80-135 | any two orders return the same metrics, place by place and with their names as text, on every certain document; where no key has a dot from such a map down to the metrics below it, on no other; and with dots too only if the document is settled or every run crashes |
| `LegacyAnswer.CertainReturnsTheSame` | src/fullerite/dropwizard/legacy_metric.go:80-135 | on a certain document the lists that the method returns for any two orders are equal as multisets |
| `LegacyAnswer.PlainReturnsAgree` | src/fullerite/dropwizard/legacy_metric.go:80-135 | in particular all orders return the same when no map holds both a recognised metric and sub-maps, no map can crash, the deepest service_dims say the same in strings, and no metrics lie more than three maps down |
| `LegacyExamples.ServiceBelowACounter` | src/fullerite/dropwizard/legacy_metric.go:104-120 | a counter with a service_dims beside it: no metrics below a format, and two orders disagree |
| `LegacyExamples.CrashBelowACounter` | src/fullerite/dropwizard/legacy_metric.go:104-120 | a counter with a malformed map beside it: likewise |
| `LegacyExamples.TiedServicesDisagree` | src/fullerite/dropwizard/legacy_metric.go:104-108 | two service_dims at one depth: no map has a format, and two orders disagree |
| `LegacyOverwriting.OnlyChildIsOverwritten` | src/fullerite/dropwizard/legacy_metric.go:104-127 | in {"a": {"b": {"c": {"d": {"x": 1}, "n": 2}}}} the metric of x is returned as a.b.c.n.x when n follows d, and as a.b.c.d.x when it comes first |
| `LegacyOverwriting.SettledIsNotEnough` | src/fullerite/dropwizard/legacy_metric.go:104-127 | that document is settled, and yet its orders do not return the same |
| `LegacyOverwriting.SilentChildIsHarmless` | src/fullerite/dropwizard/legacy_metric.go:104-127 | in {"a": {"b": {"c": {"d": {"s": "t"}, "n": 2}}}} the path to d may be overwritten, and all orders return the same all the same, because nothing below c emits |
| `LegacyOverwriting.DotsHideOverwriting` | src/fullerite/dropwizard/legacy_metric.go:104-127 | why keys with dots are set apart: wherever two siblings overwrite each other's path and the two ways down spell one text, all orders return the same on a document that is not certain |
| `LegacyOverwriting.DottedTwins` | src/fullerite/dropwizard/legacy_metric.go:104-127 | such a document, with the keys x, y.z and x.y, z below five maps |
| `GoSlices.Append` | src/fullerite/dropwizard/legacy_metric.go:109 | append writes into the shared array while there is spare capacity, and otherwise copies into one twice as large |
| `GoSlices.AppendKept` | src/fullerite/dropwizard/legacy_metric.go:109 | the append of a child: what has been appended to a map's path, and what its children's slices still read, one append later |
| `GoSlices.AppendRead` | src/fullerite/dropwizard/legacy_metric.go:193 | the append behind a gauge's name does the same to that path |
| `GoSlices.ChildrenEndInTheLastKey` | src/fullerite/dropwizard/legacy_metric.go:104-121 | with room left in the parent's array every child's path ends in the key appended last, a child's or a scalar's; without, each in its own |
| `LegacyPaths.StepReads` | src/fullerite/dropwizard/legacy_metric.go:104-121 | one visit: if every queued slice shares its array and reads its segments as the record says, so does every slice of the new queue, whether the visit wrote behind a shared path or made its children arrays of their own |
| `LegacyPaths.HeadReadsItsName` | src/fullerite/dropwizard/legacy_metric.go:98-121 | by the time a map is visited its slice reads its name: for each segment the key itself if it was appended to a full array, and otherwise the last key of the last visit that wrote at that place of the same array |
| `LegacyPaths.OneLastWriter` | src/fullerite/dropwizard/legacy_metric.go:98-121 | there is at most one such last visit |
| `LegacyNames.SharersReadAlike` | src/fullerite/dropwizard/legacy_metric.go:98-121 | maps whose paths share an array are read alike, so at most one of them is read right |
| `GoSlices.NoRoomExactlyAtPowers` | src/fullerite/dropwizard/legacy_metric.go:84-113 | a path built by appends has no room left exactly when its length is 0 or a power of two; length 3 is the first that has |
| `GoSlices.PathTo` | src/fullerite/dropwizard/legacy_metric.go:84-113 | a path built one append at a time reads as its keys, with room left at exactly those lengths |
| `Scheduler.CollectorProcess` | src/diamond/utils/scheduler.py:57-134 | every run's due time, start and allowance, from the clock readings and from how the earlier runs ended; and the three ways the loop ends |
| `Scheduler.RunInNumbers` | src/diamond/utils/scheduler.py:67-106 | run k is due k intervals after the multiple of the interval the process started behind, plus (interval - 1) * draw * 0.9^kills; it is allowed the whole seconds left of the interval, or one |
| `Scheduler.StaggerIsShrunk` | src/diamond/utils/scheduler.py:102-106 | the stagger is what was drawn times 0.9 for each kill |
| `Scheduler.RunFitsItsWindow` | src/diamond/utils/scheduler.py:67-106 | for interval >= 1: a run is due inside its window, is allowed from 1 second to the whole interval, and due + allowed never passes the window's end |
| `Scheduler.StaggerShrinks` | src/diamond/utils/scheduler.py:102-106 | on every run the stagger lies between 0 and what was drawn, and never grows |
| `Scheduler.AllowedNeverFalls` | src/diamond/utils/scheduler.py:74-106 | max_time never decreases |
| `Scheduler.NeverEarly` | src/diamond/utils/scheduler.py:85-89 | the k-th run never begins before its grid point plus stagger, even when it catches up after overruns |
| `Scheduler.NoMoreRunsThanWindows` | src/diamond/utils/scheduler.py:85-89 | by any time no more runs have begun than windows have |
| `Scheduler.FirstWindowIsTheCurrentOne` | src/diamond/utils/scheduler.py:67-69 | the first window is the one the process starts in (the comment there says the next one) |
| `Scheduler.FitsExactlyFromOneSecond` | src/diamond/utils/scheduler.py:62-74 | due and allowed time stay in the window for every draw and every run, if and only if interval >= 1 |
| `Scheduler.KillsWinTheWindow` | src/diamond/utils/scheduler.py:100-106 | after ten kills for each second of the interval beyond two a run is allowed all but the last second, and with a whole interval never more than that |
| `CassandraPercentiles.CreateOffsets` | src/diamond/collectors/jolokia/cassandra_jolokia.py:145-156 | one offset more than buckets, each the rounded 1.2-fold of the one before or one more |
| `CassandraPercentiles.FirstOffsets` | src/diamond/collectors/jolokia/cassandra_jolokia.py:145-156 | they begin 1, 2, 3, 4, 5, 6, 7, 8, 10, 12 |
| `CassandraPercentiles.OffsetInNumbers` | src/diamond/collectors/jolokia/cassandra_jolokia.py:149-154 | up to 2 one more than the one before, and then the nearest whole number to 1.2 times it, never the same |
| `CassandraPercentiles.OffsetsRise` | src/diamond/collectors/jolokia/cassandra_jolokia.py:145-156 | offsets strictly increase and bucket widths never shrink |
| `CassandraPercentiles.ComputePercentile` | src/diamond/collectors/jolokia/cassandra_jolokia.py:131-142 | the value at the least bucket whose prefix sum reaches the rank, None exactly when there is none, an index error when that bucket has no offset, and 0 for an empty histogram |
| `CassandraPercentiles.HitInNumbers` | src/diamond/collectors/jolokia/cassandra_jolokia.py:135-141 | the bucket found is the first up to which the points make up the percentage of all points, rounded down |
| `CassandraPercentiles.ValueInNumbers` | src/diamond/collectors/jolokia/cassandra_jolokia.py:142 | its value is half the gap to the offset before, or for the first bucket to the last offset, halves rounded away from zero |
| `CassandraPercentiles.SumAddsUp` | src/diamond/collectors/jolokia/cassandra_jolokia.py:133 | the points of all buckets are their sum |
| `CassandraPercentiles.HitExactlyWhen` | src/diamond/collectors/jolokia/cassandra_jolokia.py:138-141 | a bucket is found exactly when the rank is no more than all the points |
| `CassandraPercentiles.EveryPercentageHasABucket` | src/diamond/collectors/jolokia/cassandra_jolokia.py:135-141 | for a percentage from 0 to 100 there always is one, and the ranks of its neighbours bracket it |
| `CassandraPercentiles.Rounded` | src/diamond/collectors/jolokia/cassandra_jolokia.py:150 | the nearest whole number to 1.2n, which is never a tie, so the rounding mode does not matter |
| `CassandraPercentiles.PercentilesRise` | src/diamond/collectors/jolokia/cassandra_jolokia.py:131-142 | a higher percentage never falls into an earlier bucket, and past the first bucket never gives a smaller value |
| `CassandraPercentiles.FirstBucketIsNegativeExactlyWhen` | src/diamond/collectors/jolokia/cassandra_jolokia.py:142 | the value is negative exactly when the first bucket makes up the rank, because offsets[-1] is the last offset |
| `CassandraPercentiles.NeverInsideItsBucket` | src/diamond/collectors/jolokia/cassandra_jolokia.py:122-142 | the value is half a bucket's width and so never lies in the bucket it stands for, unlike what the comment describes |
| `Sanitize.SanitizedIsClean` | src/fullerite/util/strutil.go:18-54 | sanitized text is never empty and holds only letters, digits, dashes, underscores and allowed punctuation |
| `Sanitize.NothingKeptBecomesNull` | src/fullerite/util/strutil.go:42-46 | text of which only white space is kept becomes "null" |
| `Sanitize.IdempotentExactlyWhenDashIsAllowed` | src/fullerite/util/strutil.go:18-54 | sanitizing twice changes nothing, for all texts, exactly when '-' is allowed |
| `Sanitize.SanitizedCharacterByCharacter` | src/fullerite/util/strutil.go:22-46 | text with nothing to leave out and no white space at its ends keeps its length: dashes for colons and equal signs, underscores for white space and punctuation not allowed, and every other character as it is |
| `Sanitize.UndesiredVanish` | src/fullerite/util/strutil.go:38 | a character that is no colon, equal sign, digit, ASCII letter, punctuation or white space leaves no trace, wherever it stands |
| `Sanitize.BlankEndsVanish` | src/fullerite/util/strutil.go:42-43 | white space at either end leaves no trace |
| `Sanitize.SanitizedExactlyWhenClean` | src/fullerite/util/strutil.go:18-54 | with '-' allowed the results are exactly the non-empty clean texts |
| `Graphite.GraphiteSanitizeFitsLines` | src/fullerite/handler/graphite.go:26-128 | a text sanitized for Graphite is never empty and has neither dot nor blank |
| `Graphite.GraphiteKeeps` | src/fullerite/handler/graphite.go:26-128 | of ASCII punctuation exactly fourteen characters stay; a colon becomes a dash and the rest underscores |
| `Graphite.GetSanitizedDimensions` | src/fullerite/handler/graphite.go:96-103 | for each sanitized key the value of some key that sanitizes to it |
| `Graphite.OrderMattersExactlyOnCollisions` | src/fullerite/handler/graphite.go:96-103 | the result is the same for every map order exactly when keys that sanitize alike have values that do |
| `Graphite.BlankAndUnderscoreCollide` | src/fullerite/handler/graphite.go:96-103 | "a b" and "a_b" with different values are such keys |
| `Graphite.ConvertToGraphite` | src/fullerite/handler/graphite.go:79-94 | the line is the prefix and the dotted path of the name and the pairs in key order, then the value and the time |
| `Graphite.DefaultsWin` | src/fullerite/metric/metric.go:64-73 | the dimensions are the metric's and the handler's defaults, which win |
| `Graphite.LineText` | src/fullerite/handler/graphite.go:79-94 | the text of a line, piece by piece |
| `Graphite.LineIsUniqueWhenKeysAgree` | src/fullerite/handler/graphite.go:80-93 | when colliding keys have values that sanitize alike there is one line for a metric, whatever the map orders |
| `Graphite.ExtendPath` | src/fullerite/handler/graphite.go:88-91 | the loop that extends the datapoint builds that path |
| `Graphite.ThreeFieldsExactlyWhen` | src/fullerite/handler/graphite.go:88-93 | a line splits into exactly three fields if and only if the prefix has no blank, and then they are prefix and path, value and time |
| `Graphite.PathSplits` | src/fullerite/handler/graphite.go:79-94 | the path splits at its dots into the sanitized name and the sanitized pairs in sorted key order |
| `Graphite.PathIsAKey` | src/fullerite/handler/graphite.go:80-91 | two metrics share a path exactly when they agree on sanitized name and dimensions |
| `Text.SortStrings` | src/fullerite/handler/graphite.go:86 | the keys in strictly increasing order |
| `Text.SortedIsUnique` | src/fullerite/handler/graphite.go:80-86 | so the path keeps one order of dimensions for a set of keys, whatever order the map gave |
| `Text.LessExactlyWhen` | src/fullerite/handler/graphite.go:86 | the order of the keys: the first character in which two differ decides, and a text comes before what it begins |
| `Nerve.ParseNerveConfig` | src/fullerite/util/nerve_config.go:52-84 | one service for each key found, all of them from the configuration, for every map order; it panics exactly when some service has no host, no dot in its name or malformed checks |
| `Nerve.ReadMeans` | src/fullerite/util/nerve_config.go:62-117 | a service is read exactly when it has a host in text, a dotted name and a first check whose uri has "http" in its second piece and a number other than -1 in its fourth; and when it crashes the reader instead |
| `Nerve.ParseIntMeans` | src/fullerite/util/nerve_config.go:112 | a number is a decimal numeral, with a sign or without, that fits 64 bits |
| `Nerve.ValueSnoc` | src/fullerite/util/nerve_config.go:112 | its value, digit by digit |
| `Nerve.CreateMinimalNerveConfig` | src/fullerite/util/nerve_config.go:149-166 | an entry with host, port and check for each service |
| `Nerve.EntryMeans` | src/fullerite/util/nerve_config.go:149-166 | the entry's three fields, and its uri as text |
| `Nerve.EntryReadsBackExactlyWhen` | src/fullerite/util/nerve_config.go:62-166 | a written service reads back as itself exactly when its name has a dot, its host is trimmed, its port is a number other than -1, and a slash in its name is followed by that number |
| `Nerve.RoundTrip` | src/fullerite/util/nerve_config.go:52-166 | reading a written configuration, all of whose services meet that condition, never fails and never makes services up, and gives all of them back exactly when no two different ones share a key |
| `Nerve.SameKeyExactlyWhen` | src/fullerite/util/nerve_config.go:72-76 | services share a key exactly when port and name agree; with namespaces when port and name run together with namespace agree |
| `Nerve.NoNameAndPortTwice` | src/fullerite/util/nerve_config.go:75 | without namespaces no name and port come up twice |
| `Nerve.HiddenDotsCollide` | src/fullerite/util/nerve_config.go:72-76 | two services on one host and port whose names differ only in where the dot stands: with namespaces every reading of what was written gives just one of them, without every reading gives both |
| `Nerve.NamespacesCanCollide` | src/fullerite/util/nerve_config.go:72-76 | so it goes with a.bc and ab.c |
| `Nerve.UriPieces` | src/fullerite/util/nerve_config.go:105-153 | how the check's uri splits at its slashes, for any name and port |
| `Nerve.ItoaIsInjective` | src/fullerite/util/nerve_config.go:73-75 | the decimal numeral of a port determines it |
| `Nerve.ItoaReadsBack` | src/fullerite/util/nerve_config.go:73-112 | and is read as the port again; it has no zeros in front |
| `Filestat.GetUserlist` | src/diamond/collectors/filestat/filestat.py:101-173 | the stages edit the lists to the specified result, in the two cases where userlist is rawusers and where it is not |
| `Filestat.ListedExactlyWhenCounted` | src/diamond/collectors/filestat/filestat.py:105-173 | the result has no duplicates, and a user is in it exactly when live, not excluded by name, and either included by name, or in an included and no excluded group, or (when nobody is included by name) in no excluded group and within the uid limits |
| `Filestat.ListedInOrder` | src/diamond/collectors/filestat/filestat.py:105-173 | first those who count by their groups or uids, in the order of the live users, and then the others included by name, in the order of their first mention |
| `Filestat.OneOfGroupsAndLimitsMatters` | src/diamond/collectors/filestat/filestat.py:105-157 | included groups matter only when some user is included by name, and uid limits only when none is |
| `Filestat.AddByGroup` | src/diamond/collectors/filestat/filestat.py:114-125 | adds the members of the included groups in order, and nobody when userlist is rawusers |
| `Filestat.RemoveByGroup` | src/diamond/collectors/filestat/filestat.py:127-138 | removes exactly the members of excluded groups while walking a copy |
| `Filestat.RemoveByUid` | src/diamond/collectors/filestat/filestat.py:140-157 | removes exactly the users the limits apply to and keep out |
| `Filestat.LimitUid` | src/diamond/collectors/filestat/filestat.py:149-157 | a user is removed once even if both limits fail |
| `Filestat.AddIncluded` | src/diamond/collectors/filestat/filestat.py:159-164 | appends the live included users that are not there yet, in order |
| `Filestat.RemoveExcluded` | src/diamond/collectors/filestat/filestat.py:166-171 | removes exactly the excluded users |
| `Filestat.PyList.Remove` | src/diamond/collectors/filestat/filestat.py:137 | takes out the one occurrence of a user and keeps the order of the rest |
| `Filestat.PyList.Append` | src/diamond/collectors/filestat/filestat.py:123 | puts a user at the end |

## Left out

- Sockets, HTTP and gRPC clients, scribe and thrift, protobuf, Docker and Kubernetes clients: an emit, a connect or a send is an arbitrary success or failure.
- JSON, YAML and XML text, and regular expression engines: models start from decoded trees and uninterpreted match predicates.
- src/fullerite/handler/wavefront.go and src/fullerite/dropwizard/java_metric.go: they repeat batching and metricFromMap.
- LegacyMetric.Parse's first attempt with the uwsgi parser (legacy_metric.go:31-44): it only chooses between two parsers that are both modelled.
- Most Diamond collectors (/proc readers, shell-outs, SNMP, SQL): straight-line copying of fields.
- The line as a format string (graphite.go:121) and the formatting of numbers: the model stops at the result of convertToGraphite, and formatted numbers are arguments.
- The SIGHUP branch of the scheduler (scheduler.py:122-130), killing of children and process titles.
- Floating-point rounding, NaN and the wrap-around of 64-bit counters: numbers are exact, and a collectd double is its eight bytes.
- Logging, command line, configuration files, dynamic class loading and the internal HTTP server.
- Delivery.RunKeeps: a handler that divides by a dimension without custom reporting counts a whole batch when emitMetrics returns, before its parts are emitted, and the model does the same; what becomes of the parts is then unobserved.
- Listener.ListenForMetrics: a negative buffer size, on which make panics, is not modelled.
- Routing.ReadFromCollector: the statistics channel (collectors.go:112-122, 134-137) is left out, since it only reports the counters; metrics that share one dimension map between collectors are not modelled.
- DiamondCollector.Collector.ReportError: the error_type dimension it leaves in collector.dimensions, and the other dimensions of a published metric, are not part of the model.
- DiamondCollector.Collector.Derivative: an interval of zero, on which Python raises, is excluded.
- LegacyWorklist.ParseNestedMetricMaps: paths of 1024 segments and more, where Go stops doubling, are not covered.
- LegacyOrder.OrdersAgreeExactlyWhen: compares the answers under the right names; LegacyAnswer.PathsAgreeExactlyWhen compares the names as well.
- LegacyAnswer.ReturnsAgreeExactlyWhen: for keys with dots below a map that may overwrite a path it is no longer an equivalence, since two ways down can spell one text (LegacyOverwriting.DotsHideOverwriting); segment by segment LegacyAnswer.PathsAgreeExactlyWhen is one for every document. Answers are compared place by place.
- Scheduler.CollectorProcess: an exception out of the handler for a killed run (scheduler.py:108-120) is not modelled.
- CassandraPercentiles.ComputePercentile: the rank is the exact quotient, not a float, and an empty list of offsets, which create_offsets never gives, is excluded.
- Sanitize.StrSanitize: text is a sequence of characters, so bytes that are not UTF-8 do not occur.
- Nerve.ParseNerveConfig: text that is not JSON, for which it returns an error, is not modelled.
- Filestat.GetUserlist: the shell commands are tables that do not change during a call, a uid that is not a number does not occur, and the list of live users has no duplicates, as sort and uniq -d give it.
