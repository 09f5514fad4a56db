// The part decoder of the collectd network protocol
// (src/diamond/collectors/jcollectd/collectd_network.py:54-159), and an encoder
// written from the "Binary protocol" page of the collectd documentation.
module CollectdCodec {
  import opened CollectdBytes

  const TYPE_HOST := 0x0000
  const TYPE_TIME := 0x0001
  const TYPE_PLUGIN := 0x0002
  const TYPE_PLUGIN_INSTANCE := 0x0003
  const TYPE_TYPE := 0x0004
  const TYPE_TYPE_INSTANCE := 0x0005
  const TYPE_VALUES := 0x0006
  const TYPE_INTERVAL := 0x0007
  const TYPE_TIME_HR := 0x0008
  const TYPE_INTERVAL_HR := 0x0009
  const TYPE_MESSAGE := 0x0100
  const TYPE_SEVERITY := 0x0101

  const DS_TYPE_COUNTER := 0
  const DS_TYPE_GAUGE := 1
  const DS_TYPE_DERIVE := 2
  const DS_TYPE_ABSOLUTE := 3

  const HEADER_SIZE := 4
  const SHORT_SIZE := 2
  const DOUBLE_SIZE := 8

  predicate IsNumberKind(kind: int) {
    kind in {TYPE_TIME, TYPE_TIME_HR, TYPE_INTERVAL, TYPE_INTERVAL_HR, TYPE_SEVERITY}
  }

  predicate IsTextKind(kind: int) {
    kind in {TYPE_HOST, TYPE_PLUGIN, TYPE_PLUGIN_INSTANCE, TYPE_TYPE, TYPE_TYPE_INSTANCE, TYPE_MESSAGE}
  }

  type Text = seq<byte>

  // A decoded value: an unsigned integer, or the eight bytes of a double.
  datatype DsValue = Integer(dstype: nat, n: nat) | Double(bits: seq<byte>)

  datatype Opcode = TextOp(kind: nat, s: Text) | NumberOp(kind: nat, n: nat) | ValuesOp(vs: seq<DsValue>)

  // struct.error, a failed assert, and ValueError.
  datatype Error = StructError | AssertionError | ValueError

  datatype Decoded<+T> = Ok(value: T) | Raised(error: Error)

  // ---- The three part decoders; buf is the whole tail of the packet ----

  // number.unpack_from(buf, off) and short.unpack_from(buf, off)
  function UnpackNumber(buf: seq<byte>, off: nat): Decoded<nat> {
    if off + 8 > |buf| then Raised(StructError) else Ok(FromBytes(buf[off..off + 8]))
  }

  function UnpackShort(buf: seq<byte>, off: nat): Decoded<nat> {
    if off + 2 > |buf| then Raised(StructError) else Ok(FromBytes(buf[off..off + 2]))
  }

  // One value of data-source type dstype at off. Doubles are little-endian and
  // kept as bytes; a DERIVE value is read as unsigned, like a counter.
  function DecodeValue(dstype: nat, buf: seq<byte>, off: nat): Decoded<DsValue> {
    if dstype == DS_TYPE_COUNTER || dstype == DS_TYPE_DERIVE || dstype == DS_TYPE_ABSOLUTE then
      match UnpackNumber(buf, off)
      case Ok(n) => Ok(Integer(dstype, n))
      case Raised(e) => Raised(e)
    else if dstype == DS_TYPE_GAUGE then
      if off + 8 > |buf| then Raised(StructError) else Ok(Double(buf[off..off + 8]))
    else Raised(ValueError)
  }

  // The values for some types, laid out one after the other from off.
  function DecodeValuesFrom(types: seq<byte>, buf: seq<byte>, off: nat): Decoded<seq<DsValue>> {
    if types == [] then Ok([])
    else match DecodeValue(types[0], buf, off)
      case Raised(e) => Raised(e)
      case Ok(v) =>
        match DecodeValuesFrom(types[1..], buf, off + DOUBLE_SIZE)
        case Raised(e) => Raised(e)
        case Ok(vs) => Ok([v] + vs)
  }

  function DecodeValues(plen: nat, buf: seq<byte>): Decoded<seq<DsValue>> {
    match UnpackShort(buf, HEADER_SIZE)
    case Raised(e) => Raised(e)
    case Ok(nvalues) =>
      if (DOUBLE_SIZE + 1) * nvalues + SHORT_SIZE + HEADER_SIZE != plen then Raised(AssertionError)
      else
        var off := HEADER_SIZE + SHORT_SIZE + nvalues;
        DecodeValuesFrom(PySlice(buf, HEADER_SIZE + SHORT_SIZE, off), buf, off)
  }

  method DecodeNetworkValues(plen: nat, buf: seq<byte>) returns (r: Decoded<seq<DsValue>>)
    ensures r == DecodeValues(plen, buf)
  {
    var short := UnpackShort(buf, HEADER_SIZE);
    if short.Raised? {
      return Raised(short.error);
    }
    var nvalues := short.value;
    var off := HEADER_SIZE + SHORT_SIZE + nvalues;
    if (DOUBLE_SIZE + 1) * nvalues + SHORT_SIZE + HEADER_SIZE != plen {
      return Raised(AssertionError);
    }
    var result: seq<DsValue> := [];
    var types := PySlice(buf, HEADER_SIZE + SHORT_SIZE, off);
    ghost var start := off;
    var i := 0;
    assert types[0..] == types;
    assert forall vs: seq<DsValue> :: result + vs == vs;
    while i < |types|
      invariant 0 <= i <= |types| && off == start + DOUBLE_SIZE * i
      invariant DecodeValuesFrom(types, buf, start) ==
                match DecodeValuesFrom(types[i..], buf, off)
                case Raised(e) => Raised(e)
                case Ok(vs) => Ok(result + vs)
    {
      var v := DecodeValue(types[i], buf, off);
      assert types[i..][1..] == types[i + 1..];
      if v.Raised? {
        return Raised(v.error);
      }
      assert forall vs: seq<DsValue> :: result + ([v.value] + vs) == (result + [v.value]) + vs;
      result := result + [v.value];
      off := off + DOUBLE_SIZE;
      i := i + 1;
    }
    assert result + [] == result;
    r := Ok(result);
  }

  function DecodeNumber(buf: seq<byte>): Decoded<nat> {
    UnpackNumber(buf, HEADER_SIZE)
  }

  function DecodeString(plen: nat, buf: seq<byte>): Text {
    PySlice(buf, HEADER_SIZE, plen - 1)
  }

  // _decoders[kind](kind, plen, buf); the kinds outside the table raise ValueError.
  function DecodePart(kind: nat, plen: nat, buf: seq<byte>): Decoded<Opcode> {
    if kind == TYPE_VALUES then
      match DecodeValues(plen, buf)
      case Ok(vs) => Ok(ValuesOp(vs))
      case Raised(e) => Raised(e)
    else if IsNumberKind(kind) then
      match DecodeNumber(buf)
      case Ok(n) => Ok(NumberOp(kind, n))
      case Raised(e) => Raised(e)
    else if IsTextKind(kind) then Ok(TextOp(kind, DecodeString(plen, buf)))
    else Raised(ValueError)
  }

  // ---- The packet loop ----

  // One turn of the generator: it ends, raises, or yields and moves on.
  datatype Turn = End | Fail(error: Error) | Yield(op: Opcode, next: nat)

  function TurnAt(buf: seq<byte>, off: nat): Turn {
    if off >= |buf| then End
    else if off + HEADER_SIZE > |buf| then Fail(StructError)
    else
      var kind, plen := FromBytes(buf[off..off + 2]), FromBytes(buf[off + 2..off + 4]);
      if plen > |buf| - off then Fail(ValueError)
      else match DecodePart(kind, plen, buf[off..])
        case Raised(e) => Fail(e)
        case Ok(op) => Yield(op, off + plen)
  }

  // How a whole packet ends. A part of length 0 that decodes leaves the offset
  // where it is, and the generator yields the same part for ever.
  datatype Outcome = Finished | Failed(error: Error) | Forever

  function DecodeFrom(buf: seq<byte>, off: nat): (seq<Opcode>, Outcome)
    decreases if off < |buf| then |buf| - off else 0
  {
    match TurnAt(buf, off)
    case End => ([], Finished)
    case Fail(e) => ([], Failed(e))
    case Yield(op, next) =>
      if next == off then ([op], Forever)
      else
        var (ops, outcome) := DecodeFrom(buf, next);
        ([op] + ops, outcome)
  }

  // The generator, stopped where it would start to repeat itself.
  method DecodeNetworkPacket(buf: seq<byte>) returns (ops: seq<Opcode>, outcome: Outcome)
    ensures (ops, outcome) == DecodeFrom(buf, 0)
  {
    ops := [];
    var off := 0;
    var blen := |buf|;
    assert [] + DecodeFrom(buf, 0).0 == DecodeFrom(buf, 0).0;
    while off < blen
      invariant 0 <= off
      invariant DecodeFrom(buf, 0) == (ops + DecodeFrom(buf, off).0, DecodeFrom(buf, off).1)
    {
      assert ops + [] == ops;
      if off + HEADER_SIZE > blen {
        return ops, Failed(StructError);
      }
      var kind, plen := FromBytes(buf[off..off + 2]), FromBytes(buf[off + 2..off + 4]);
      if plen > blen - off {
        return ops, Failed(ValueError);
      }
      var part := DecodePart(kind, plen, buf[off..]);
      if part.Raised? {
        assert ops + [] == ops;
        return ops, Failed(part.error);
      }
      assert ops + ([part.value] + DecodeFrom(buf, off + plen).0) ==
             (ops + [part.value]) + DecodeFrom(buf, off + plen).0;
      ops := ops + [part.value];
      if plen == 0 {
        return ops, Forever;
      }
      off := off + plen;
    }
    assert ops + [] == ops;
    outcome := Finished;
  }

  // The generator can be asked for n more parts.
  ghost predicate Yields(buf: seq<byte>, off: nat, n: nat)
    decreases n
  {
    n == 0 || (TurnAt(buf, off).Yield? && Yields(buf, TurnAt(buf, off).next, n - 1))
  }

  lemma {:induction false} RepeatsYield(buf: seq<byte>, off: nat, n: nat)
    requires TurnAt(buf, off).Yield? && TurnAt(buf, off).next == off
    ensures Yields(buf, off, n)
  {
    if n > 0 {
      RepeatsYield(buf, off, n - 1);
    }
  }

  lemma {:induction false} ForeverYields(buf: seq<byte>, off: nat, n: nat)
    requires DecodeFrom(buf, off).1 == Forever
    ensures Yields(buf, off, n)
    decreases n
  {
    if n > 0 {
      var next := TurnAt(buf, off).next;
      if next == off {
        RepeatsYield(buf, off, n);
      } else {
        ForeverYields(buf, next, n - 1);
      }
    }
  }

  lemma {:induction false} OtherwiseItStops(buf: seq<byte>, off: nat)
    requires DecodeFrom(buf, off).1 != Forever
    ensures !Yields(buf, off, |DecodeFrom(buf, off).0| + 1)
    decreases if off < |buf| then |buf| - off else 0
  {
    var t := TurnAt(buf, off);
    if t.Yield? {
      OtherwiseItStops(buf, t.next);
    }
  }

  // A part at o that claims length 0 and decodes: any text, or a number with its
  // twelve bytes there. Values of length 0 fail their own length check.
  predicate ZeroPart(buf: seq<byte>, o: nat) {
    && o + HEADER_SIZE <= |buf| && FromBytes(buf[o + 2..o + 4]) == 0
    && var kind := FromBytes(buf[o..o + 2]);
       IsTextKind(kind) || (IsNumberKind(kind) && o + HEADER_SIZE + DOUBLE_SIZE <= |buf|)
  }

  lemma ZeroPartStays(buf: seq<byte>, o: nat)
    ensures ZeroPart(buf, o) <==> TurnAt(buf, o).Yield? && TurnAt(buf, o).next == o
  {
    if o < |buf| && o + HEADER_SIZE <= |buf| {
      var tail := buf[o..];
      assert |tail| == |buf| - o;
    }
  }

  lemma {:induction false} ForeverExactlyAtAZeroPart(buf: seq<byte>, off: nat)
    ensures DecodeFrom(buf, off).1 == Forever <==> exists o :: o in Offsets(buf, off) && ZeroPart(buf, o)
    decreases if off < |buf| then |buf| - off else 0
  {
    var t := TurnAt(buf, off);
    ZeroPartStays(buf, off);
    if t.Yield? && t.next > off {
      var rest := Offsets(buf, t.next);
      assert forall o :: o in [off] + rest <==> o == off || o in rest;
      ForeverExactlyAtAZeroPart(buf, t.next);
    } else {
      assert off in Offsets(buf, off);
    }
  }

  // The decoder never ends exactly when it reaches a part that decodes and
  // claims a length of 0.
  lemma RunsForeverExactlyOnLengthZero(buf: seq<byte>)
    ensures (forall n: nat :: Yields(buf, 0, n)) <==> exists o :: o in Offsets(buf, 0) && ZeroPart(buf, o)
  {
    ForeverExactlyAtAZeroPart(buf, 0);
    if DecodeFrom(buf, 0).1 == Forever {
      forall n: nat ensures Yields(buf, 0, n) { ForeverYields(buf, 0, n); }
    } else {
      OtherwiseItStops(buf, 0);
    }
  }

  // Four zero bytes are enough: an empty host name, over and over.
  lemma FourZeroBytesRunForever(n: nat)
    ensures Yields([0, 0, 0, 0], 0, n)
  {
    var buf: seq<byte> := [0, 0, 0, 0];
    assert buf[0..2] == [0, 0] && buf[2..4] == [0, 0];
    assert FromBytes([0, 0]) == 0 by {
      assert [0, 0][..1] == [0] && [0][..0] == [];
    }
    ZeroPartStays(buf, 0);
    RepeatsYield(buf, 0, n);
  }

  // ---- Which bytes a part depends on ----

  // The declared length covers what the kind's decoder reads before it checks
  // any length: buf[4:plen - 1] reads the whole tail when plen is 0.
  predicate LengthCoversPart(kind: nat, plen: nat) {
    && (IsTextKind(kind) ==> plen >= 1)
    && (IsNumberKind(kind) ==> plen >= HEADER_SIZE + DOUBLE_SIZE)
    && (kind == TYPE_VALUES ==> plen >= HEADER_SIZE + SHORT_SIZE)
  }

  // What a part decodes to is settled by the plen bytes it claims.
  ghost predicate Local(kind: nat, plen: nat) {
    forall buf: seq<byte>, buf': seq<byte> :: SameStart(buf, buf', plen) ==>
        DecodePart(kind, plen, buf) == DecodePart(kind, plen, buf')
  }

  predicate SameStart(buf: seq<byte>, buf': seq<byte>, plen: nat) {
    plen <= |buf| && plen <= |buf'| && buf[..plen] == buf'[..plen]
  }

  lemma {:induction false} ValuesAreLocal(types: seq<byte>, buf: seq<byte>, buf': seq<byte>, off: nat, plen: nat)
    requires plen <= |buf| && plen <= |buf'| && buf[..plen] == buf'[..plen]
    requires off + DOUBLE_SIZE * |types| <= plen
    ensures DecodeValuesFrom(types, buf, off) == DecodeValuesFrom(types, buf', off)
  {
    if types != [] {
      ValuesAreLocal(types[1..], buf, buf', off + DOUBLE_SIZE, plen);
      assert buf[off..off + 8] == buf[..plen][off..off + 8] == buf'[off..off + 8];
    }
  }

  lemma CoveredPartIsLocal(kind: nat, plen: nat, buf: seq<byte>, buf': seq<byte>)
    requires SameStart(buf, buf', plen) && LengthCoversPart(kind, plen)
    ensures DecodePart(kind, plen, buf) == DecodePart(kind, plen, buf')
  {
    if kind == TYPE_VALUES {
      assert buf[4..6] == buf[..plen][4..6] == buf'[4..6];
      var nvalues := FromBytes(buf[4..6]);
      if 9 * nvalues + 6 == plen {
        assert buf[6..6 + nvalues] == buf[..plen][6..6 + nvalues] == buf'[6..6 + nvalues];
        ValuesAreLocal(PySlice(buf, 6, 6 + nvalues), buf, buf', 6 + nvalues, plen);
      }
    } else if IsNumberKind(kind) {
      assert buf[4..12] == buf[..plen][4..12] == buf'[4..12];
    } else if IsTextKind(kind) {
      assert PySlice(buf, 4, plen - 1) == PySlice(buf[..plen], 4, plen - 1) == PySlice(buf', 4, plen - 1);
    }
  }

  // Although a decoder is handed the whole tail, a part is decoded from its own
  // bytes, exactly when the length it claims covers what its decoder reads.
  lemma PartDependsOnItsOwnBytesExactlyWhenCovered(kind: nat, plen: nat)
    ensures Local(kind, plen) <==> LengthCoversPart(kind, plen)
  {
    if LengthCoversPart(kind, plen) {
      forall buf: seq<byte>, buf': seq<byte> | SameStart(buf, buf', plen)
        ensures DecodePart(kind, plen, buf) == DecodePart(kind, plen, buf')
      {
        CoveredPartIsLocal(kind, plen, buf, buf');
      }
    } else if IsNumberKind(kind) {
      var bs: seq<byte> := seq(11, i => 0);
      ShortNumberReadsItsNeighbour(kind, plen, bs);
      assert SameStart(bs + [0], bs + [1], plen) by {
        assert (bs + [0])[..plen] == (bs + [1])[..plen];
      }
    } else if IsTextKind(kind) {
      EmptyTextReadsTheTail(kind, 65);
      EmptyTextReadsTheTail(kind, 66);
      assert SameStart([0, 0, 0, 0, 65, 0], [0, 0, 0, 0, 66, 0], plen);
    } else {
      var short: seq<byte> := seq(5, i => 0);
      assert DecodePart(kind, plen, short) == Raised(StructError);
      assert DecodePart(kind, plen, short + [0]) == Raised(AssertionError);
      assert SameStart(short, short + [0], plen) by {
        assert short[..plen] == (short + [0])[..plen];
      }
    }
  }

  // A text that claims no length at all is given everything up to the last byte
  // of the packet.
  lemma EmptyTextReadsTheTail(kind: nat, b: byte)
    requires IsTextKind(kind)
    ensures DecodePart(kind, 0, [0, 0, 0, 0, b, 0]) == Ok(TextOp(kind, [b]))
  {
    var buf: seq<byte> := [0, 0, 0, 0, b, 0];
    assert buf[4..5] == [b];
  }

  // A number that claims less than its twelve bytes is read out of whatever follows.
  lemma ShortNumberReadsItsNeighbour(kind: nat, plen: nat, bs: seq<byte>)
    requires IsNumberKind(kind) && plen < HEADER_SIZE + DOUBLE_SIZE && |bs| == 11
    ensures plen <= |bs| && DecodePart(kind, plen, bs + [0]) != DecodePart(kind, plen, bs + [1])
  {
    LastByteMatters(bs, 0);
    LastByteMatters(bs, 1);
  }

  lemma LastByteMatters(bs: seq<byte>, b: byte)
    requires |bs| == 11
    ensures UnpackNumber(bs + [b], HEADER_SIZE) == Ok(256 * FromBytes(bs[4..]) + b)
  {
    var word := (bs + [b])[4..12];
    assert word == bs[4..] + [b];
    assert word[..7] == bs[4..];
  }

  // ---- The encoder ----

  datatype WireValue = Counter(n: nat) | Gauge(bits: seq<byte>) | Derive(i: int) | Absolute(n: nat)

  datatype Part = TextPart(kind: nat, s: Text) | NumberPart(kind: nat, n: nat) | ValuesPart(vs: seq<WireValue>)

  predicate ValueFits(v: WireValue) {
    match v
    case Counter(n) => n < TWO_TO_64
    case Gauge(bits) => |bits| == 8
    case Derive(i) => -TWO_TO_64 / 2 <= i < TWO_TO_64 / 2
    case Absolute(n) => n < TWO_TO_64
  }

  // What the protocol can carry in one part: lengths fit in two bytes.
  predicate PartFits(p: Part) {
    match p
    case TextPart(kind, s) => IsTextKind(kind) && HEADER_SIZE + |s| + 1 < 65536
    case NumberPart(kind, n) => IsNumberKind(kind) && n < TWO_TO_64
    case ValuesPart(vs) => 6 + 9 * |vs| < 65536 && forall v <- vs :: ValueFits(v)
  }

  function TypeCode(v: WireValue): byte {
    match v
    case Counter(_) => 0
    case Gauge(_) => 1
    case Derive(_) => 2
    case Absolute(_) => 3
  }

  // Counters and absolute values are unsigned, DERIVE is two's complement, and
  // a gauge is its IEEE bytes in little-endian order.
  function EncodeValue(v: WireValue): seq<byte> {
    match v
    case Counter(n) => ToBytes(n, 8)
    case Gauge(bits) => bits
    case Derive(i) => ToBytes(i % TWO_TO_64, 8)
    case Absolute(n) => ToBytes(n, 8)
  }

  function TypeCodes(vs: seq<WireValue>): seq<byte> {
    if vs == [] then [] else [TypeCode(vs[0])] + TypeCodes(vs[1..])
  }

  function EncodeValues(vs: seq<WireValue>): seq<byte> {
    if vs == [] then [] else EncodeValue(vs[0]) + EncodeValues(vs[1..])
  }

  function Header(kind: nat, plen: nat): seq<byte> {
    ToBytes(kind, 2) + ToBytes(plen, 2)
  }

  function EncodePart(p: Part): seq<byte> {
    match p
    case TextPart(kind, s) => Header(kind, 4 + |s| + 1) + s + [0]
    case NumberPart(kind, n) => Header(kind, 12) + ToBytes(n, 8)
    case ValuesPart(vs) =>
      Header(TYPE_VALUES, 6 + 9 * |vs|) + ToBytes(|vs|, 2) + TypeCodes(vs) + EncodeValues(vs)
  }

  function Encode(parts: seq<Part>): seq<byte> {
    if parts == [] then [] else EncodePart(parts[0]) + Encode(parts[1..])
  }

  // What the decoder is expected to make of a part.
  function ValueAsRead(v: WireValue): DsValue {
    match v
    case Counter(n) => Integer(0, n)
    case Gauge(bits) => Double(bits)
    case Derive(i) => Integer(2, i % TWO_TO_64)
    case Absolute(n) => Integer(3, n)
  }

  function ValuesAsRead(vs: seq<WireValue>): seq<DsValue> {
    seq(|vs|, k requires 0 <= k < |vs| => ValueAsRead(vs[k]))
  }

  function OpcodeOf(p: Part): Opcode {
    match p
    case TextPart(kind, s) => TextOp(kind, s)
    case NumberPart(kind, n) => NumberOp(kind, n)
    case ValuesPart(vs) => ValuesOp(ValuesAsRead(vs))
  }

  function Opcodes(parts: seq<Part>): seq<Opcode> {
    seq(|parts|, k requires 0 <= k < |parts| => OpcodeOf(parts[k]))
  }

  // ---- Decoding inverts encoding ----

  // bs stands in buf at off.
  ghost predicate At(buf: seq<byte>, off: nat, bs: seq<byte>) {
    off + |bs| <= |buf| && buf[off..off + |bs|] == bs
  }

  lemma AtSplit(buf: seq<byte>, off: nat, a: seq<byte>, b: seq<byte>)
    requires At(buf, off, a + b)
    ensures At(buf, off, a) && At(buf, off + |a|, b)
  {
    var ab := buf[off..off + |a + b|];
    assert a == ab[..|a|] && b == ab[|a|..];
    assert buf[off..off + |a|] == ab[..|a|];
    assert buf[off + |a|..off + |a| + |b|] == ab[|a|..];
  }

  lemma NumberReads(n: nat, buf: seq<byte>, off: nat)
    requires n < TWO_TO_64 && At(buf, off, ToBytes(n, 8))
    ensures UnpackNumber(buf, off) == Ok(n)
  {
    Pow256Of8();
    ToFromBytes(n, 8);
  }

  lemma ShortReads(n: nat, buf: seq<byte>, off: nat)
    requires n < 65536 && At(buf, off, ToBytes(n, 2))
    ensures UnpackShort(buf, off) == Ok(n) && FromBytes(buf[off..off + 2]) == n
  {
    Pow256Of8();
    ToFromBytes(n, 2);
  }

  lemma ValueReads(v: WireValue, buf: seq<byte>, off: nat)
    requires ValueFits(v) && At(buf, off, EncodeValue(v))
    ensures |EncodeValue(v)| == 8
    ensures DecodeValue(TypeCode(v), buf, off) == Ok(ValueAsRead(v))
  {
    match v
    case Counter(n) => NumberReads(n, buf, off);
    case Gauge(bits) =>
    case Derive(i) => NumberReads(i % TWO_TO_64, buf, off);
    case Absolute(n) => NumberReads(n, buf, off);
  }

  lemma {:induction false} ValueSizes(vs: seq<WireValue>)
    requires forall v <- vs :: ValueFits(v)
    ensures |TypeCodes(vs)| == |vs| && |EncodeValues(vs)| == 8 * |vs|
  {
    if vs != [] {
      ValueSizes(vs[1..]);
      assert vs[0] in vs;
    }
  }

  lemma ValuesAsReadCons(vs: seq<WireValue>)
    requires vs != []
    ensures ValuesAsRead(vs) == [ValueAsRead(vs[0])] + ValuesAsRead(vs[1..])
  {
  }

  lemma DecodeValuesCons(t: byte, types: seq<byte>, buf: seq<byte>, off: nat)
    requires DecodeValue(t, buf, off).Ok? && DecodeValuesFrom(types, buf, off + DOUBLE_SIZE).Ok?
    ensures DecodeValuesFrom([t] + types, buf, off) ==
            Ok([DecodeValue(t, buf, off).value] + DecodeValuesFrom(types, buf, off + DOUBLE_SIZE).value)
  {
    assert ([t] + types)[1..] == types;
  }

  lemma {:induction false} ValuesRead(vs: seq<WireValue>, buf: seq<byte>, off: nat)
    requires (forall v <- vs :: ValueFits(v)) && At(buf, off, EncodeValues(vs))
    ensures DecodeValuesFrom(TypeCodes(vs), buf, off) == Ok(ValuesAsRead(vs))
    decreases |vs|
  {
    if vs != [] {
      assert vs[0] in vs;
      AtSplit(buf, off, EncodeValue(vs[0]), EncodeValues(vs[1..]));
      ValueReads(vs[0], buf, off);
      ValuesRead(vs[1..], buf, off + 8);
      ValuesAsReadCons(vs);
      DecodeValuesCons(TypeCode(vs[0]), TypeCodes(vs[1..]), buf, off);
    } else {
      assert ValuesAsRead(vs) == [];
    }
  }

  // The kind and the length field of an encoded part, and what follows them.
  function KindOf(p: Part): nat {
    if p.ValuesPart? then TYPE_VALUES else p.kind
  }

  function LengthOf(p: Part): nat {
    match p
    case TextPart(_, s) => 5 + |s|
    case NumberPart(_, _) => 12
    case ValuesPart(vs) => 6 + 9 * |vs|
  }

  function Body(p: Part): seq<byte> {
    match p
    case TextPart(_, s) => s + [0]
    case NumberPart(_, n) => ToBytes(n, 8)
    case ValuesPart(vs) => ToBytes(|vs|, 2) + (TypeCodes(vs) + EncodeValues(vs))
  }

  lemma PartShape(p: Part)
    requires PartFits(p)
    ensures EncodePart(p) == ToBytes(KindOf(p), 2) + (ToBytes(LengthOf(p), 2) + Body(p))
    ensures |EncodePart(p)| == LengthOf(p) < 65536 && KindOf(p) < 65536
    ensures LengthCoversPart(KindOf(p), LengthOf(p))
  {
    if p.ValuesPart? {
      ValueSizes(p.vs);
    }
  }

  lemma ValuesBodyDecodes(vs: seq<WireValue>, buf: seq<byte>)
    requires PartFits(ValuesPart(vs)) && At(buf, 4, Body(ValuesPart(vs)))
    ensures DecodeValues(6 + 9 * |vs|, buf) == Ok(ValuesAsRead(vs))
  {
    AtSplit(buf, 4, ToBytes(|vs|, 2), TypeCodes(vs) + EncodeValues(vs));
    AtSplit(buf, 6, TypeCodes(vs), EncodeValues(vs));
    ShortReads(|vs|, buf, 4);
    ValueSizes(vs);
    ValuesRead(vs, buf, 6 + |vs|);
    assert PySlice(buf, 6, 6 + |vs|) == TypeCodes(vs);
  }

  lemma BodyDecodes(p: Part, buf: seq<byte>)
    requires PartFits(p) && At(buf, 4, Body(p))
    ensures DecodePart(KindOf(p), LengthOf(p), buf) == Ok(OpcodeOf(p))
  {
    match p
    case TextPart(_, s) =>
      AtSplit(buf, 4, s, [0]);
      assert PySlice(buf, 4, 4 + |s|) == s;
    case NumberPart(_, n) => NumberReads(n, buf, 4);
    case ValuesPart(vs) => ValuesBodyDecodes(vs, buf);
  }

  lemma AtThree(buf: seq<byte>, off: nat, a: seq<byte>, b: seq<byte>, c: seq<byte>)
    requires |a| == |b| == 2 && At(buf, off, a + (b + c))
    ensures off + 4 + |c| <= |buf|
    ensures At(buf, off, a) && At(buf, off + 2, b) && At(buf[off..], 4, c)
  {
    AtSplit(buf, off, a, b + c);
    AtSplit(buf, off + 2, b, c);
    assert buf[off..][4..4 + |c|] == buf[off + 4..off + 4 + |c|];
  }

  lemma HeaderReads(p: Part, buf: seq<byte>, off: nat)
    requires PartFits(p) && At(buf, off, EncodePart(p))
    ensures off + HEADER_SIZE <= off + LengthOf(p) <= |buf|
    ensures FromBytes(buf[off..off + 2]) == KindOf(p)
    ensures FromBytes(buf[off + 2..off + 4]) == LengthOf(p)
    ensures At(buf[off..], 4, Body(p))
  {
    PartShape(p);
    AtThree(buf, off, ToBytes(KindOf(p), 2), ToBytes(LengthOf(p), 2), Body(p));
    ShortReads(KindOf(p), buf, off);
    ShortReads(LengthOf(p), buf, off + 2);
  }

  // Wherever an encoded part stands in a buffer, the decoder yields it and
  // moves on to its end, whatever comes before and after.
  lemma PartDecodesAnywhere(p: Part, buf: seq<byte>, off: nat)
    requires PartFits(p) && At(buf, off, EncodePart(p))
    ensures |EncodePart(p)| == LengthOf(p)
    ensures TurnAt(buf, off) == Yield(OpcodeOf(p), off + LengthOf(p))
  {
    PartShape(p);
    HeaderReads(p, buf, off);
    BodyDecodes(p, buf[off..]);
  }

  lemma RestStands(buf: seq<byte>, off: nat, head: seq<byte>, rest: seq<byte>)
    requires off <= |buf| && buf[off..] == head + rest
    ensures off + |head| <= |buf| && At(buf, off, head) && buf[off + |head|..] == rest
  {
    AtSplit(buf, off, head, rest);
    assert buf[off + |head|..] == buf[off + |head|..off + |head| + |rest|];
  }

  // The head of an encoded packet, and where the rest of it stands.
  lemma FirstPart(p: Part, rest: seq<byte>, buf: seq<byte>, off: nat)
    requires PartFits(p) && off <= |buf| && buf[off..] == EncodePart(p) + rest
    ensures var next := off + LengthOf(p);
            && off < next <= |buf| && buf[next..] == rest
            && |EncodePart(p)| == LengthOf(p)
            && TurnAt(buf, off) == Yield(OpcodeOf(p), next)
  {
    RestStands(buf, off, EncodePart(p), rest);
    PartDecodesAnywhere(p, buf, off);
  }

  lemma DecodeTurn(buf: seq<byte>, off: nat, op: Opcode, next: nat)
    requires TurnAt(buf, off) == Yield(op, next) && next != off
    ensures DecodeFrom(buf, off) == ([op] + DecodeFrom(buf, next).0, DecodeFrom(buf, next).1)
    ensures next > off ==> Offsets(buf, off) == [off] + Offsets(buf, next)
  {
  }

  lemma EndTurn(buf: seq<byte>)
    ensures DecodeFrom(buf, |buf|) == ([], Finished)
    ensures Offsets(buf, |buf|) == [|buf|]
  {
  }

  lemma OpcodesCons(parts: seq<Part>)
    requires parts != []
    ensures Opcodes(parts) == [OpcodeOf(parts[0])] + Opcodes(parts[1..])
  {
  }

  lemma {:induction false} DecodeInvertsFrom(parts: seq<Part>, buf: seq<byte>, off: nat)
    requires forall p <- parts :: PartFits(p)
    requires off <= |buf| && buf[off..] == Encode(parts)
    ensures DecodeFrom(buf, off) == (Opcodes(parts), Finished)
    decreases |parts|
  {
    if parts == [] {
      EndTurn(buf);
      assert Opcodes(parts) == [];
    } else {
      var next := off + LengthOf(parts[0]);
      FirstPart(parts[0], Encode(parts[1..]), buf, off);
      DecodeTurn(buf, off, OpcodeOf(parts[0]), next);
      DecodeInvertsFrom(parts[1..], buf, next);
      OpcodesCons(parts);
    }
  }

  // Decoding a packet gives back the parts it was built from, and finishes.
  lemma DecodeInvertsEncode(parts: seq<Part>)
    requires forall p <- parts :: PartFits(p)
    ensures DecodeFrom(Encode(parts), 0) == (Opcodes(parts), Finished)
  {
    assert Encode(parts)[0..] == Encode(parts);
    DecodeInvertsFrom(parts, Encode(parts), 0);
  }

  // The offsets the generator visits.
  ghost function Offsets(buf: seq<byte>, off: nat): seq<nat>
    decreases if off < |buf| then |buf| - off else 0
  {
    match TurnAt(buf, off)
    case Yield(_, next) => if next > off then [off] + Offsets(buf, next) else [off]
    case _ => [off]
  }

  // offs are the boundaries between parts laid out from off on.
  ghost predicate Tiles(offs: seq<nat>, parts: seq<Part>, off: nat) {
    && |offs| == |parts| + 1 && offs[0] == off
    && forall k :: 0 <= k < |parts| ==> offs[k + 1] == offs[k] + |EncodePart(parts[k])| > offs[k]
  }

  lemma TilesCons(part: Part, offs: seq<nat>, rest: seq<Part>, off: nat)
    requires Tiles(offs, rest, off + |EncodePart(part)|) && |EncodePart(part)| > 0
    ensures Tiles([off] + offs, [part] + rest, off)
  {
  }

  // On an encoded packet the offsets are exactly those boundaries, up to the end.
  lemma {:induction false} OffsetsTilePacket(parts: seq<Part>, buf: seq<byte>, off: nat)
    requires forall p <- parts :: PartFits(p)
    requires off <= |buf| && buf[off..] == Encode(parts)
    ensures Tiles(Offsets(buf, off), parts, off)
    ensures Offsets(buf, off)[|parts|] == |buf|
    decreases |parts|
  {
    if parts == [] {
      EndTurn(buf);
    } else {
      var next := off + LengthOf(parts[0]);
      FirstPart(parts[0], Encode(parts[1..]), buf, off);
      DecodeTurn(buf, off, OpcodeOf(parts[0]), next);
      OffsetsTilePacket(parts[1..], buf, next);
      TilesCons(parts[0], Offsets(buf, next), parts[1..], off);
      assert parts == [parts[0]] + parts[1..];
    }
  }

  // A DERIVE value survives exactly when it is not negative.
  lemma DeriveSurvivesExactlyWhenNonNegative(i: int)
    requires ValueFits(Derive(i))
    ensures var d := DecodeValue(DS_TYPE_DERIVE, EncodeValue(Derive(i)), 0);
            && d.Ok? && d.value.Integer?
            && (d.value.n == i <==> i >= 0)
            && (i < 0 ==> d.value.n == i + TWO_TO_64)
  {
    ValueReads(Derive(i), EncodeValue(Derive(i)), 0);
  }
}
