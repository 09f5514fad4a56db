// interpret_opcodes (src/diamond/collectors/jcollectd/collectd_network.py:162-266):
// a part sets a field of the two current objects, and a values or message part
// yields a copy of one of them. The protocol therefore repeats a field only when
// it changes, and this file proves that nothing is lost by that.
module CollectdInterpreter {
  import opened Metrics
  import opened CollectdBytes
  import opened CollectdCodec

  const HR_TIME_DIV := 1073741824.0

  // The attributes shared by Values and Notification.
  datatype Data = Data(
    time: real, host: Option<Text>, plugin: Option<Text>, pluginInstance: Option<Text>,
    typeName: Option<Text>, typeInstance: Option<Text>)

  const NO_DATA := Data(0.0, None, None, None, None, None)

  // What the generator yields.
  datatype Item =
    | ValuesItem(data: Data, interval: Option<real>, values: seq<DsValue>)
    | NotificationItem(data: Data, severity: nat, message: Text)

  // The current objects, as far as a later part can see them.
  datatype Current = Current(data: Data, interval: Option<real>, severity: nat)

  const FRESH := Current(NO_DATA, None, 0)

  // FAILURE, WARNING and OKAY; the severity setter ignores anything else.
  predicate KnownSeverity(n: nat) { n in {1, 2, 4} }

  function SetText(d: Data, kind: nat, s: Text): Data {
    if kind == TYPE_HOST then d.(host := Some(s))
    else if kind == TYPE_PLUGIN then d.(plugin := Some(s))
    else if kind == TYPE_PLUGIN_INSTANCE then d.(pluginInstance := Some(s))
    else if kind == TYPE_TYPE then d.(typeName := Some(s))
    else if kind == TYPE_TYPE_INSTANCE then d.(typeInstance := Some(s))
    else d
  }

  // One part: the current objects after it, and what it yields.
  function Handle(cur: Current, op: Opcode): (Current, seq<Item>) {
    match op
    case NumberOp(kind, n) =>
      var hr := n as real / HR_TIME_DIV;
      if kind == TYPE_TIME then (cur.(data := cur.data.(time := n as real)), [])
      else if kind == TYPE_TIME_HR then (cur.(data := cur.data.(time := hr)), [])
      else if kind == TYPE_INTERVAL then (cur.(interval := Some(n as real)), [])
      else if kind == TYPE_INTERVAL_HR then (cur.(interval := Some(hr)), [])
      else if kind == TYPE_SEVERITY then (if KnownSeverity(n) then cur.(severity := n) else cur, [])
      else (cur, [])
    case TextOp(kind, s) =>
      if kind == TYPE_MESSAGE then (cur, [NotificationItem(cur.data, cur.severity, s)])
      else (cur.(data := SetText(cur.data, kind, s)), [])
    case ValuesOp(vs) => (cur, [ValuesItem(cur.data, cur.interval, vs)])
  }

  function Interpret(cur: Current, ops: seq<Opcode>): (Current, seq<Item>)
    decreases |ops|
  {
    if ops == [] then (cur, [])
    else
      var (cur', out) := Handle(cur, ops[0]);
      var (last, rest) := Interpret(cur', ops[1..]);
      (last, out + rest)
  }

  lemma {:induction false} InterpretAppend(cur: Current, a: seq<Opcode>, b: seq<Opcode>)
    ensures var (mid, first) := Interpret(cur, a);
            Interpret(cur, a + b) == (Interpret(mid, b).0, first + Interpret(mid, b).1)
    decreases |a|
  {
    if a == [] {
      assert a + b == b;
      assert [] + Interpret(cur, b).1 == Interpret(cur, b).1;
    } else {
      var (cur', out) := Handle(cur, a[0]);
      var (mid, rest) := Interpret(cur', a[1..]);
      assert (a + b)[1..] == a[1..] + b;
      InterpretAppend(cur', a[1..], b);
      Metrics.Regroup(out, rest, Interpret(mid, b).1);
    }
  }

  // ---- Records, and the parts a sender may emit for them ----

  // A time or an interval, in seconds or in units of 2^-30 seconds.
  datatype Clock = Seconds(n: nat) | HighRes(n: nat)

  function AsSeconds(c: Clock): real {
    match c
    case Seconds(n) => n as real
    case HighRes(n) => n as real / HR_TIME_DIV
  }

  datatype Source = Source(time: Clock, host: Text, plugin: Text, pluginInstance: Text, typeName: Text,
                           typeInstance: Text)

  datatype Record =
    | Sample(source: Source, interval: Clock, values: seq<WireValue>)
    | Notice(source: Source, severity: nat, message: Text)

  datatype Field = Host | Time | Interval | Plugin | PluginInstance | TypeName | TypeInstance | Severity

  predicate Has(r: Record, f: Field) {
    match f
    case Interval => r.Sample?
    case Severity => r.Notice?
    case _ => true
  }

  function FieldPart(r: Record, f: Field): Part
    requires Has(r, f)
  {
    match f
    case Host => TextPart(TYPE_HOST, r.source.host)
    case Time =>
      NumberPart(if r.source.time.Seconds? then TYPE_TIME else TYPE_TIME_HR, r.source.time.n)
    case Interval =>
      NumberPart(if r.interval.Seconds? then TYPE_INTERVAL else TYPE_INTERVAL_HR, r.interval.n)
    case Plugin => TextPart(TYPE_PLUGIN, r.source.plugin)
    case PluginInstance => TextPart(TYPE_PLUGIN_INSTANCE, r.source.pluginInstance)
    case TypeName => TextPart(TYPE_TYPE, r.source.typeName)
    case TypeInstance => TextPart(TYPE_TYPE_INSTANCE, r.source.typeInstance)
    case Severity => NumberPart(TYPE_SEVERITY, r.severity)
  }

  function LastPart(r: Record): Part {
    match r
    case Sample(_, _, values) => ValuesPart(values)
    case Notice(_, _, message) => TextPart(TYPE_MESSAGE, message)
  }

  // The fields sent ahead of a record, in some order, possibly repeated.
  type Plan = seq<Field>

  ghost predicate PlanFor(r: Record, plan: Plan) {
    forall f <- plan :: Has(r, f)
  }

  function FieldParts(r: Record, plan: Plan): seq<Part>
    requires PlanFor(r, plan)
  {
    if plan == [] then [] else FieldParts(r, plan[..|plan| - 1]) + [FieldPart(r, plan[|plan| - 1])]
  }

  function RecordParts(r: Record, plan: Plan): seq<Part>
    requires PlanFor(r, plan)
  {
    FieldParts(r, plan) + [LastPart(r)]
  }

  // What the receiver should hold for a record.
  function DataOf(s: Source): Data {
    Data(AsSeconds(s.time), Some(s.host), Some(s.plugin), Some(s.pluginInstance), Some(s.typeName),
         Some(s.typeInstance))
  }

  function ItemOf(r: Record): Item {
    match r
    case Sample(s, interval, values) => ValuesItem(DataOf(s), Some(AsSeconds(interval)), ValuesAsRead(values))
    case Notice(s, severity, message) => NotificationItem(DataOf(s), severity, message)
  }

  // The receiver already has the record's value for a field.
  predicate Holds(cur: Current, r: Record, f: Field)
    requires Has(r, f)
  {
    match f
    case Host => cur.data.host == Some(r.source.host)
    case Time => cur.data.time == AsSeconds(r.source.time)
    case Interval => cur.interval == Some(AsSeconds(r.interval))
    case Plugin => cur.data.plugin == Some(r.source.plugin)
    case PluginInstance => cur.data.pluginInstance == Some(r.source.pluginInstance)
    case TypeName => cur.data.typeName == Some(r.source.typeName)
    case TypeInstance => cur.data.typeInstance == Some(r.source.typeInstance)
    case Severity => cur.severity == r.severity
  }

  // Every field that has changed is sent, and a new severity is one the
  // receiver accepts.
  ghost predicate Covers(cur: Current, r: Record, plan: Plan) {
    forall f :: Has(r, f) && !Holds(cur, r, f) ==>
      f in plan && (f == Severity ==> KnownSeverity(r.severity))
  }

  lemma FieldArrives(cur: Current, r: Record, f: Field)
    requires Has(r, f)
    ensures var (cur', out) := Handle(cur, OpcodeOf(FieldPart(r, f)));
            && out == []
            && (Holds(cur', r, f) <==> Holds(cur, r, f) || f != Severity || KnownSeverity(r.severity))
            && forall g :: g != f && Has(r, g) ==> (Holds(cur', r, g) <==> Holds(cur, r, g))
  {
  }

  lemma {:induction false} PlanArrives(cur: Current, r: Record, plan: Plan)
    requires PlanFor(r, plan)
    ensures var (cur', out) := Interpret(cur, Opcodes(FieldParts(r, plan)));
            && out == []
            && forall f :: Has(r, f) ==>
                 (Holds(cur', r, f) <==>
                  Holds(cur, r, f) || (f in plan && (f == Severity ==> KnownSeverity(r.severity))))
  {
    if plan == [] {
      assert Opcodes([]) == [];
    } else {
      var before, f := plan[..|plan| - 1], plan[|plan| - 1];
      assert plan == before + [f];
      PlanArrives(cur, r, before);
      var op := OpcodeOf(FieldPart(r, f));
      assert Opcodes(FieldParts(r, plan)) == Opcodes(FieldParts(r, before)) + [op];
      InterpretAppend(cur, Opcodes(FieldParts(r, before)), [op]);
      var mid := Interpret(cur, Opcodes(FieldParts(r, before))).0;
      assert Interpret(mid, [op]) == (Handle(mid, op).0, Handle(mid, op).1 + []);
      FieldArrives(mid, r, f);
    }
  }

  lemma ItemMatchesFields(cur: Current, r: Record)
    ensures var (cur', out) := Handle(cur, OpcodeOf(LastPart(r)));
            && cur' == cur && |out| == 1
            && (out == [ItemOf(r)] <==> forall f :: Has(r, f) ==> Holds(cur, r, f))
  {
    var item := Handle(cur, OpcodeOf(LastPart(r))).1[0];
    if forall f :: Has(r, f) ==> Holds(cur, r, f) {
      assert Holds(cur, r, Host) && Holds(cur, r, Time) && Holds(cur, r, Plugin);
      assert Holds(cur, r, PluginInstance) && Holds(cur, r, TypeName) && Holds(cur, r, TypeInstance);
      assert if r.Sample? then Holds(cur, r, Interval) else Holds(cur, r, Severity);
    }
  }

  // A record comes out whole exactly when every field the receiver did not
  // already have is among those sent: no more is needed, and no less will do.
  lemma RecordArrivesExactlyWhenCovered(cur: Current, r: Record, plan: Plan)
    requires PlanFor(r, plan)
    ensures |Interpret(cur, Opcodes(RecordParts(r, plan))).1| == 1
    ensures Interpret(cur, Opcodes(RecordParts(r, plan))).1 == [ItemOf(r)] <==> Covers(cur, r, plan)
  {
    var fields, op := Opcodes(FieldParts(r, plan)), OpcodeOf(LastPart(r));
    assert Opcodes(RecordParts(r, plan)) == fields + [op];
    InterpretAppend(cur, fields, [op]);
    PlanArrives(cur, r, plan);
    var mid := Interpret(cur, fields).0;
    ItemMatchesFields(mid, r);
    assert Interpret(mid, [op]).1 == Handle(mid, op).1 + [];
    assert Covers(cur, r, plan) <==> forall f :: Has(r, f) ==> Holds(mid, r, f);
  }

  // ---- Whole packets ----

  function AllParts(records: seq<Record>, plans: seq<Plan>): seq<Part>
    requires |plans| == |records| && forall k :: 0 <= k < |records| ==> PlanFor(records[k], plans[k])
  {
    if records == [] then [] else RecordParts(records[0], plans[0]) + AllParts(records[1..], plans[1..])
  }

  function Items(records: seq<Record>): seq<Item> {
    seq(|records|, k requires 0 <= k < |records| => ItemOf(records[k]))
  }

  // Each plan covers what changed since the record before it.
  ghost predicate AllCovered(cur: Current, records: seq<Record>, plans: seq<Plan>)
    requires |plans| == |records| && forall k :: 0 <= k < |records| ==> PlanFor(records[k], plans[k])
    decreases |records|
  {
    records != [] ==>
      && Covers(cur, records[0], plans[0])
      && AllCovered(Interpret(cur, Opcodes(RecordParts(records[0], plans[0]))).0, records[1..], plans[1..])
  }

  lemma OpcodesAppend(a: seq<Part>, b: seq<Part>)
    ensures Opcodes(a + b) == Opcodes(a) + Opcodes(b)
  {
  }

  lemma {:induction false} RecordsArrive(cur: Current, records: seq<Record>, plans: seq<Plan>)
    requires |plans| == |records| && forall k :: 0 <= k < |records| ==> PlanFor(records[k], plans[k])
    ensures |Interpret(cur, Opcodes(AllParts(records, plans))).1| == |records|
    ensures Interpret(cur, Opcodes(AllParts(records, plans))).1 == Items(records) <==> AllCovered(cur, records, plans)
    decreases |records|
  {
    if records == [] {
      assert Opcodes([]) == [];
    } else {
      var first, rest := RecordParts(records[0], plans[0]), AllParts(records[1..], plans[1..]);
      OpcodesAppend(first, rest);
      InterpretAppend(cur, Opcodes(first), Opcodes(rest));
      RecordArrivesExactlyWhenCovered(cur, records[0], plans[0]);
      var mid := Interpret(cur, Opcodes(first)).0;
      RecordsArrive(mid, records[1..], plans[1..]);
      assert Items(records) == [ItemOf(records[0])] + Items(records[1..]);
      var head, tail := Interpret(cur, Opcodes(first)).1, Interpret(mid, Opcodes(rest)).1;
      assert head + tail == [ItemOf(records[0])] + Items(records[1..]) <==>
             head == [ItemOf(records[0])] && tail == Items(records[1..]) by {
        assert (head + tail)[..1] == head && (head + tail)[1..] == tail;
      }
    }
  }

  // Compressing any list of samples and notifications, encoding it to bytes,
  // decoding the packet and interpreting the parts gives back the list.
  lemma PacketRoundTrip(records: seq<Record>, plans: seq<Plan>)
    requires |plans| == |records| && forall k :: 0 <= k < |records| ==> PlanFor(records[k], plans[k])
    requires forall p <- AllParts(records, plans) :: PartFits(p)
    ensures var (ops, outcome) := DecodeFrom(Encode(AllParts(records, plans)), 0);
            outcome == Finished && (Interpret(FRESH, ops).1 == Items(records) <==> AllCovered(FRESH, records, plans))
  {
    DecodeInvertsEncode(AllParts(records, plans));
    RecordsArrive(FRESH, records, plans);
  }

  // ---- The sender that sends exactly what changed ----

  const SENDING_ORDER: Plan := [Host, Time, Interval, Plugin, PluginInstance, TypeName, TypeInstance, Severity]

  function Changed(cur: Current, r: Record, order: Plan): Plan {
    if order == [] then []
    else
      var f := order[|order| - 1];
      Changed(cur, r, order[..|order| - 1]) + (if Has(r, f) && !Holds(cur, r, f) then [f] else [])
  }

  lemma {:induction false} ChangedIsExact(cur: Current, r: Record, order: Plan)
    ensures forall f :: f in Changed(cur, r, order) <==> f in order && Has(r, f) && !Holds(cur, r, f)
  {
    if order != [] {
      ChangedIsExact(cur, r, order[..|order| - 1]);
      assert order == order[..|order| - 1] + [order[|order| - 1]];
    }
  }

  function DeltaPlans(cur: Current, records: seq<Record>): (plans: seq<Plan>)
    ensures |plans| == |records| && forall k :: 0 <= k < |records| ==> PlanFor(records[k], plans[k])
    decreases |records|
  {
    if records == [] then []
    else
      var plan := Changed(cur, records[0], SENDING_ORDER);
      ChangedIsExact(cur, records[0], SENDING_ORDER);
      [plan] + DeltaPlans(Interpret(cur, Opcodes(RecordParts(records[0], plan))).0, records[1..])
  }

  lemma {:induction false} DeltaPlansCover(cur: Current, records: seq<Record>)
    requires forall r <- records :: r.Notice? ==> KnownSeverity(r.severity)
    ensures AllCovered(cur, records, DeltaPlans(cur, records))
    decreases |records|
  {
    if records != [] {
      var r := records[0];
      var plan := Changed(cur, r, SENDING_ORDER);
      ChangedIsExact(cur, r, SENDING_ORDER);
      forall f | Has(r, f) && !Holds(cur, r, f) ensures f in plan {
        assert f in SENDING_ORDER by {
          match f
          case Host => assert SENDING_ORDER[0] == f;
          case Time => assert SENDING_ORDER[1] == f;
          case Interval => assert SENDING_ORDER[2] == f;
          case Plugin => assert SENDING_ORDER[3] == f;
          case PluginInstance => assert SENDING_ORDER[4] == f;
          case TypeName => assert SENDING_ORDER[5] == f;
          case TypeInstance => assert SENDING_ORDER[6] == f;
          case Severity => assert SENDING_ORDER[7] == f;
        }
      }
      assert r in records;
      DeltaPlansCover(Interpret(cur, Opcodes(RecordParts(r, plan))).0, records[1..]);
    }
  }

  lemma DeltaCompressionRoundTrip(records: seq<Record>)
    requires forall r <- records :: r.Notice? ==> KnownSeverity(r.severity)
    requires forall p <- AllParts(records, DeltaPlans(FRESH, records)) :: PartFits(p)
    ensures var (ops, outcome) := DecodeFrom(Encode(AllParts(records, DeltaPlans(FRESH, records))), 0);
            outcome == Finished && Interpret(FRESH, ops).1 == Items(records)
  {
    DeltaPlansCover(FRESH, records);
    PacketRoundTrip(records, DeltaPlans(FRESH, records));
  }

  // ---- The objects themselves ----

  class Values {
    var data: Data
    var interval: Option<real>
    var list: seq<DsValue>

    constructor ()
      ensures data == NO_DATA && interval == None && list == []
    {
      data, interval, list := NO_DATA, None, [];
    }

    method DeepCopy() returns (copy: Values)
      ensures fresh(copy) && copy.Item() == Item()
    {
      copy := new Values();
      copy.data, copy.interval, copy.list := data, interval, list;
    }

    function Item(): Item
      reads this
    {
      ValuesItem(data, interval, list)
    }
  }

  class Notification {
    var data: Data
    var severity: nat
    var message: Text

    constructor ()
      ensures data == NO_DATA && severity == 0 && message == []
    {
      data, severity, message := NO_DATA, 0, [];
    }

    method SetSeverity(value: nat)
      modifies this`severity
      ensures severity == if KnownSeverity(value) then value else old(severity)
    {
      if value in {1, 2, 4} {
        severity := value;
      }
    }

    method DeepCopy() returns (copy: Notification)
      ensures fresh(copy) && copy.Item() == Item()
    {
      copy := new Notification();
      copy.data, copy.severity, copy.message := data, severity, message;
    }

    function Item(): Item
      reads this
    {
      NotificationItem(data, severity, message)
    }
  }

  datatype Yielded = OfValues(vl: Values) | OfNotification(nt: Notification)

  ghost function ItemOfYielded(y: Yielded): Item
    reads match y case OfValues(vl) => {vl as object} case OfNotification(nt) => {nt as object}
  {
    match y
    case OfValues(vl) => vl.Item()
    case OfNotification(nt) => nt.Item()
  }

  // Every yielded object is a fresh copy, so when the generator has consumed
  // the whole packet each of them still holds what it held when it was yielded.
  method InterpretOpcodes(ops: seq<Opcode>) returns (out: seq<Yielded>)
    ensures |out| == |Interpret(FRESH, ops).1|
    ensures forall k :: 0 <= k < |out| ==> ItemOfYielded(out[k]) == Interpret(FRESH, ops).1[k]
  {
    var vl := new Values();
    var nt := new Notification();
    out := [];
    for i := 0 to |ops|
      invariant vl.data == nt.data
      invariant Interpret(FRESH, ops[..i]).0 == Current(vl.data, vl.interval, nt.severity)
      invariant |out| == |Interpret(FRESH, ops[..i]).1|
      invariant forall k :: 0 <= k < |out| ==> out[k] != OfValues(vl) && out[k] != OfNotification(nt)
      invariant forall k :: 0 <= k < |out| ==> ItemOfYielded(out[k]) == Interpret(FRESH, ops[..i]).1[k]
    {
      assert ops[..i + 1] == ops[..i] + [ops[i]];
      InterpretAppend(FRESH, ops[..i], [ops[i]]);
      ghost var cur := Interpret(FRESH, ops[..i]).0;
      assert Interpret(cur, [ops[i]]) == (Handle(cur, ops[i]).0, Handle(cur, ops[i]).1 + []);
      match ops[i]
      case NumberOp(kind, n) =>
        if kind == TYPE_TIME {
          vl.data, nt.data := vl.data.(time := n as real), nt.data.(time := n as real);
        } else if kind == TYPE_TIME_HR {
          vl.data, nt.data := vl.data.(time := n as real / HR_TIME_DIV), nt.data.(time := n as real / HR_TIME_DIV);
        } else if kind == TYPE_INTERVAL {
          vl.interval := Some(n as real);
        } else if kind == TYPE_INTERVAL_HR {
          vl.interval := Some(n as real / HR_TIME_DIV);
        } else if kind == TYPE_SEVERITY {
          nt.SetSeverity(n);
        }
      case TextOp(kind, s) =>
        if kind == TYPE_MESSAGE {
          nt.message := s;
          var copy := nt.DeepCopy();
          out := out + [OfNotification(copy)];
        } else {
          vl.data, nt.data := SetText(vl.data, kind, s), SetText(nt.data, kind, s);
        }
      case ValuesOp(vs) =>
        vl.list := vs;
        var copy := vl.DeepCopy();
        out := out + [OfValues(copy)];
    }
    assert ops[..|ops|] == ops;
  }
}
