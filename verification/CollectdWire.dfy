// The collectd protocol byte by byte: what a receiver holds after each kind of part,
// with the wire numbers written out
// (src/diamond/collectors/jcollectd/collectd_network.py:54-159, 241-266).
module CollectdWire {
  import opened Metrics
  import opened CollectdBytes
  import opened CollectdCodec
  import opened CollectdInterpreter

  // ---- Big-endian numbers ----

  lemma TwoBytes(a: byte, b: byte)
    ensures FromBytes([a, b]) == 256 * (a as int) + b as int
  {
    assert [a, b][..1] == [a] && [a][..0] == [];
    assert FromBytes([a]) == a;
  }

  function EightBytes(w: seq<byte>): nat
    requires |w| == 8
  {
    0x100_0000_0000_0000 * (w[0] as int) + 0x1_0000_0000_0000 * (w[1] as int) +
    0x100_0000_0000 * (w[2] as int) + 0x1_0000_0000 * (w[3] as int) +
    0x100_0000 * (w[4] as int) + 0x1_0000 * (w[5] as int) + 0x100 * (w[6] as int) + w[7] as int
  }

  lemma EightBytesAre(w: seq<byte>)
    requires |w| == 8
    ensures FromBytes(w) == EightBytes(w)
  {
    assert w[..7][..6] == w[..6] && w[..6][..5] == w[..5] && w[..5][..4] == w[..4] && w[..4][..3] == w[..3];
    assert w[..3][..2] == w[..2] && w[..2][..1] == w[..1] && w[..1][..0] == [];
    assert w[..2] == [w[0], w[1]];
    TwoBytes(w[0], w[1]);
    assert FromBytes(w[..4]) == 256 * (256 * FromBytes(w[..2]) + w[2]) + w[3];
    assert FromBytes(w[..6]) == 256 * (256 * FromBytes(w[..4]) + w[4]) + w[5];
    assert FromBytes(w) == 256 * (256 * FromBytes(w[..6]) + w[6]) + w[7];
  }

  // ---- Parts ----

  // A part of some length with the kind hi, lo: its length counts the four bytes of
  // its header.
  function PartBytes(hi: byte, lo: byte, payload: seq<byte>): seq<byte>
    requires 4 + |payload| < 65536
  {
    [hi, lo, (4 + |payload|) / 256, (4 + |payload|) % 256] + payload
  }

  // The part at off is decoded, and handled so that the receiver holds now and yields
  // out; the next part starts behind it.
  ghost predicate Reads(buf: seq<byte>, off: nat, part: seq<byte>, was: Current, now: Current, out: seq<Item>) {
    exists op :: TurnAt(buf, off) == Yield(op, off + |part|) && Handle(was, op) == (now, out)
  }

  lemma ReadsAs(buf: seq<byte>, off: nat, part: seq<byte>, was: Current, op: Opcode)
    requires TurnAt(buf, off) == Yield(op, off + |part|)
    ensures Reads(buf, off, part, was, Handle(was, op).0, Handle(was, op).1)
  {
  }

  lemma HeaderOnTheWire(buf: seq<byte>, off: nat, hi: byte, lo: byte, payload: seq<byte>)
    requires 4 + |payload| < 65536 && At(buf, off, PartBytes(hi, lo, payload))
    ensures off + 4 + |payload| <= |buf|
    ensures FromBytes(buf[off..off + 2]) == 256 * (hi as int) + lo as int
    ensures FromBytes(buf[off + 2..off + 4]) == 4 + |payload|
    ensures At(buf[off..], 4, payload)
  {
    var a: byte, b: byte := (4 + |payload|) / 256, (4 + |payload|) % 256;
    assert PartBytes(hi, lo, payload) == [hi, lo] + ([a, b] + payload);
    AtThree(buf, off, [hi, lo], [a, b], payload);
    TwoBytes(hi, lo);
    TwoBytes(a, b);
  }

  lemma TextPayload(plen: nat, buf: seq<byte>, s: Text)
    requires plen == 5 + |s| && At(buf, 4, s + [0])
    ensures DecodeString(plen, buf) == s
  {
    AtSplit(buf, 4, s, [0]);
    assert PySlice(buf, 4, 4 + |s|) == s;
  }

  // The five fields that are texts, and the message, which yields a notification.
  lemma TextsOnTheWire(buf: seq<byte>, off: nat, hi: byte, lo: byte, s: Text, cur: Current)
    requires 5 + |s| < 65536 && At(buf, off, PartBytes(hi, lo, s + [0]))
    ensures var part := PartBytes(hi, lo, s + [0]);
            && (hi == 0 && lo == 0 ==> Reads(buf, off, part, cur, cur.(data := cur.data.(host := Some(s))), []))
            && (hi == 0 && lo == 2 ==> Reads(buf, off, part, cur, cur.(data := cur.data.(plugin := Some(s))), []))
            && (hi == 0 && lo == 3 ==>
                  Reads(buf, off, part, cur, cur.(data := cur.data.(pluginInstance := Some(s))), []))
            && (hi == 0 && lo == 4 ==> Reads(buf, off, part, cur, cur.(data := cur.data.(typeName := Some(s))), []))
            && (hi == 0 && lo == 5 ==>
                  Reads(buf, off, part, cur, cur.(data := cur.data.(typeInstance := Some(s))), []))
            && (hi == 1 && lo == 0 ==>
                  Reads(buf, off, part, cur, cur, [NotificationItem(cur.data, cur.severity, s)]))
  {
    HeaderOnTheWire(buf, off, hi, lo, s + [0]);
    TextPayload(5 + |s|, buf[off..], s);
    var kind := 256 * (hi as int) + lo as int;
    if IsTextKind(kind) {
      ReadsAs(buf, off, PartBytes(hi, lo, s + [0]), cur, TextOp(kind, s));
    }
  }

  lemma NumberPayload(buf: seq<byte>, w: seq<byte>)
    requires |w| == 8 && At(buf, 4, w)
    ensures DecodeNumber(buf) == Ok(EightBytes(w))
  {
    EightBytesAre(w);
  }

  // Times and intervals, in seconds or in units of 2^-30 seconds, and the severity,
  // which is one of 1, 2 and 4 or ignored.
  lemma NumbersOnTheWire(buf: seq<byte>, off: nat, hi: byte, lo: byte, w: seq<byte>, cur: Current)
    requires |w| == 8 && At(buf, off, PartBytes(hi, lo, w))
    ensures var part, n := PartBytes(hi, lo, w), EightBytes(w);
            && (hi == 0 && lo == 1 ==> Reads(buf, off, part, cur, cur.(data := cur.data.(time := n as real)), []))
            && (hi == 0 && lo == 8 ==>
                  Reads(buf, off, part, cur, cur.(data := cur.data.(time := n as real / 1073741824.0)), []))
            && (hi == 0 && lo == 7 ==> Reads(buf, off, part, cur, cur.(interval := Some(n as real)), []))
            && (hi == 0 && lo == 9 ==>
                  Reads(buf, off, part, cur, cur.(interval := Some(n as real / 1073741824.0)), []))
            && (hi == 1 && lo == 1 ==>
                  Reads(buf, off, part, cur,
                        if n == 1 || n == 2 || n == 4 then cur.(severity := n) else cur, []))
  {
    HeaderOnTheWire(buf, off, hi, lo, w);
    NumberPayload(buf[off..], w);
    var kind := 256 * (hi as int) + lo as int;
    if IsNumberKind(kind) {
      ReadsAs(buf, off, PartBytes(hi, lo, w), cur, NumberOp(kind, EightBytes(w)));
    }
  }

  predicate IsTextOnTheWire(hi: byte, lo: byte) {
    (hi == 0 && lo in {0, 2, 3, 4, 5}) || (hi == 1 && lo == 0)
  }

  predicate IsNumberOnTheWire(hi: byte, lo: byte) {
    (hi == 0 && lo in {1, 7, 8, 9}) || (hi == 1 && lo == 1)
  }

  // What the header says, where one fits.
  predicate HeaderIs(buf: seq<byte>, off: nat, hi: byte, lo: byte, plen: nat) {
    off + 4 <= |buf| && buf[off] == hi && buf[off + 1] == lo &&
    plen == 256 * (buf[off + 2] as int) + buf[off + 3] as int
  }

  lemma HeaderReads(buf: seq<byte>, off: nat, hi: byte, lo: byte, plen: nat)
    requires HeaderIs(buf, off, hi, lo, plen)
    ensures FromBytes(buf[off..off + 2]) == 256 * (hi as int) + lo as int
    ensures FromBytes(buf[off + 2..off + 4]) == plen
  {
    assert buf[off..off + 2] == [hi, lo];
    assert buf[off + 2..off + 4] == [buf[off + 2], buf[off + 3]];
    TwoBytes(hi, lo);
    TwoBytes(buf[off + 2], buf[off + 3]);
  }

  // A packet ends behind its last part. Less than a header is a struct.error; a length
  // past the end of the packet and a kind that is not listed are ValueErrors; and a
  // number needs eight bytes, of this part or the next.
  lemma HeadersThatFail(buf: seq<byte>, off: nat, hi: byte, lo: byte, plen: nat)
    ensures TurnAt(buf, off) == End <==> |buf| <= off
    ensures off < |buf| < off + 4 ==> TurnAt(buf, off) == Fail(StructError)
    ensures HeaderIs(buf, off, hi, lo, plen) && |buf| < off + plen ==> TurnAt(buf, off) == Fail(ValueError)
    ensures HeaderIs(buf, off, hi, lo, plen) && off + plen <= |buf| ==>
              && (IsTextOnTheWire(hi, lo) ==> TurnAt(buf, off).Yield?)
              && (IsNumberOnTheWire(hi, lo) ==>
                    if |buf| < off + 12 then TurnAt(buf, off) == Fail(StructError) else TurnAt(buf, off).Yield?)
              && (!IsTextOnTheWire(hi, lo) && !IsNumberOnTheWire(hi, lo) && !(hi == 0 && lo == 6) ==>
                    TurnAt(buf, off) == Fail(ValueError))
  {
    if HeaderIs(buf, off, hi, lo, plen) {
      HeaderReads(buf, off, hi, lo, plen);
    }
  }

  // Whether some values are read is up to their types.
  lemma {:induction false} TypesDecide(types: seq<byte>, buf: seq<byte>, off: nat)
    requires off + 8 * |types| <= |buf|
    ensures if exists i :: 0 <= i < |types| && types[i] > 3
            then DecodeValuesFrom(types, buf, off) == Raised(ValueError)
            else DecodeValuesFrom(types, buf, off).Ok?
    decreases |types|
  {
    if types != [] {
      TypesDecide(types[1..], buf, off + 8);
      if i :| 0 <= i < |types| && types[i] > 3 {
        assert i > 0 ==> types[1..][i - 1] > 3;
      }
    }
  }

  // Values must say how many they are: no room for that is a struct.error, a length
  // that does not agree a failed assert, and a type that is not listed a ValueError.
  lemma ValuesThatFail(buf: seq<byte>, off: nat, plen: nat, n: nat)
    requires HeaderIs(buf, off, 0, 6, plen) && off + plen <= |buf|
    ensures |buf| < off + 6 ==> TurnAt(buf, off) == Fail(StructError)
    ensures |buf| >= off + 6 && n == 256 * (buf[off + 4] as int) + buf[off + 5] as int ==>
              if plen != 6 + 9 * n then TurnAt(buf, off) == Fail(AssertionError)
              else if exists i :: off + 6 <= i < off + 6 + n && buf[i] > 3 then TurnAt(buf, off) == Fail(ValueError)
              else TurnAt(buf, off).Yield?
  {
    HeaderReads(buf, off, 0, 6, plen);
    if |buf| >= off + 6 && n == 256 * (buf[off + 4] as int) + buf[off + 5] as int {
      var tail := buf[off..];
      assert tail[4..6] == [buf[off + 4], buf[off + 5]];
      TwoBytes(buf[off + 4], buf[off + 5]);
      if plen == 6 + 9 * n {
        var types := tail[6..6 + n];
        assert PySlice(tail, 6, 6 + n) == types;
        TypesDecide(types, tail, 6 + n);
        SameTypes(buf, off, n);
      }
    }
  }

  lemma SameTypes(buf: seq<byte>, off: nat, n: nat)
    requires off + 6 + n <= |buf|
    ensures var types := buf[off..][6..6 + n];
            (exists i :: 0 <= i < |types| && types[i] > 3) <==>
            exists i :: off + 6 <= i < off + 6 + n && buf[i] > 3
  {
    var types := buf[off..][6..6 + n];
    assert forall i :: 0 <= i < |types| ==> types[i] == buf[off + 6 + i];
    if i :| off + 6 <= i < off + 6 + n && buf[i] > 3 {
      assert types[i - off - 6] > 3;
    }
  }

  // ---- Values ----

  // A gauge is kept as its eight bytes; a counter, a DERIVE and an absolute value are
  // unsigned numbers.
  function ValueOf(t: byte, w: seq<byte>): DsValue
    requires |w| == 8
  {
    if t == 1 then Double(w) else Integer(t, EightBytes(w))
  }

  ghost predicate AreWords(types: seq<byte>, words: seq<seq<byte>>) {
    |types| == |words| && forall i :: 0 <= i < |types| ==> types[i] <= 3 && |words[i]| == 8
  }

  function ValuesOfWords(types: seq<byte>, words: seq<seq<byte>>): (vs: seq<DsValue>)
    requires |types| == |words| && forall i :: 0 <= i < |words| ==> |words[i]| == 8
    ensures |vs| == |types| && forall i :: 0 <= i < |types| ==> vs[i] == ValueOf(types[i], words[i])
  {
    seq(|types|, i requires 0 <= i < |types| => ValueOf(types[i], words[i]))
  }

  lemma ValuesOfWordsCons(types: seq<byte>, words: seq<seq<byte>>)
    requires types != [] && |types| == |words| && forall i :: 0 <= i < |words| ==> |words[i]| == 8
    ensures ValuesOfWords(types, words) == [ValueOf(types[0], words[0])] + ValuesOfWords(types[1..], words[1..])
  {
  }

  lemma OneValue(t: byte, buf: seq<byte>, off: nat, w: seq<byte>)
    requires t <= 3 && |w| == 8 && At(buf, off, w)
    ensures DecodeValue(t, buf, off) == Ok(ValueOf(t, w))
  {
    EightBytesAre(w);
  }

  lemma {:induction false} ValuesInARow(types: seq<byte>, words: seq<seq<byte>>, buf: seq<byte>, off: nat)
    requires AreWords(types, words) && At(buf, off, Concat(words))
    ensures DecodeValuesFrom(types, buf, off) == Ok(ValuesOfWords(types, words))
    decreases |types|
  {
    if types != [] {
      var t, w, ts, ws := types[0], words[0], types[1..], words[1..];
      assert words == [w] + ws && types == [t] + ts;
      ConcatCons(w, ws);
      AtSplit(buf, off, w, Concat(ws));
      OneValue(t, buf, off, w);
      ValuesInARow(ts, ws, buf, off + 8);
      DecodeValuesCons(t, ts, buf, off);
      ValuesOfWordsCons(types, words);
    } else {
      assert ValuesOfWords(types, words) == [];
    }
  }

  lemma {:induction false} WordsSize(words: seq<seq<byte>>)
    requires forall i :: 0 <= i < |words| ==> |words[i]| == 8
    ensures |Concat(words)| == 8 * |words|
  {
    if words != [] {
      WordsSize(words[..|words| - 1]);
    }
  }

  function ValuesPayload(types: seq<byte>, words: seq<seq<byte>>): seq<byte>
    requires |types| < 65536
  {
    [|types| / 256, |types| % 256] + (types + Concat(words))
  }

  lemma ValuesTurn(buf: seq<byte>, off: nat, plen: nat, vs: seq<DsValue>)
    requires off + plen <= |buf| && plen >= 4
    requires FromBytes(buf[off..off + 2]) == 6 && FromBytes(buf[off + 2..off + 4]) == plen
    requires DecodeValues(plen, buf[off..]) == Ok(vs)
    ensures TurnAt(buf, off) == Yield(ValuesOp(vs), off + plen)
  {
  }

  lemma ValuesPayloadReads(types: seq<byte>, words: seq<seq<byte>>, buf: seq<byte>)
    requires AreWords(types, words) && |types| < 65536 && At(buf, 4, ValuesPayload(types, words))
    ensures DecodeValues(6 + 9 * |types|, buf) == Ok(ValuesOfWords(types, words))
  {
    var n := |types|;
    AtSplit(buf, 4, [n / 256, n % 256], types + Concat(words));
    AtSplit(buf, 6, types, Concat(words));
    TwoBytes(n / 256, n % 256);
    ValuesInARow(types, words, buf, 6 + n);
    assert PySlice(buf, 6, 6 + n) == types;
  }

  lemma ValuesPayloadSize(types: seq<byte>, words: seq<seq<byte>>)
    requires AreWords(types, words) && |types| < 65536
    ensures |ValuesPayload(types, words)| == 2 + 9 * |types|
  {
    WordsSize(words);
  }

  // A values part: their number, a byte for the type of each, then eight bytes for
  // each. It yields them with what the receiver holds.
  lemma ValuesOnTheWire(buf: seq<byte>, off: nat, types: seq<byte>, words: seq<seq<byte>>, cur: Current)
    requires AreWords(types, words) && 6 + 9 * |types| < 65536
    requires |ValuesPayload(types, words)| == 2 + 9 * |types| ==>
               At(buf, off, PartBytes(0, 6, ValuesPayload(types, words)))
    ensures |ValuesPayload(types, words)| == 2 + 9 * |types|
    ensures Reads(buf, off, PartBytes(0, 6, ValuesPayload(types, words)), cur, cur,
                  [ValuesItem(cur.data, cur.interval, ValuesOfWords(types, words))])
  {
    ValuesPayloadSize(types, words);
    var payload, vs := ValuesPayload(types, words), ValuesOfWords(types, words);
    HeaderOnTheWire(buf, off, 0, 6, payload);
    ValuesPayloadReads(types, words, buf[off..]);
    ValuesTurn(buf, off, 4 + |payload|, vs);
    ReadsAs(buf, off, PartBytes(0, 6, payload), cur, ValuesOp(vs));
  }

  // ---- One packet ----

  // A packet of one part: what a fresh receiver makes of it.
  lemma AloneOnTheWire(part: seq<byte>, now: Current, out: seq<Item>)
    requires part != [] && Reads(part, 0, part, FRESH, now, out)
    ensures DecodeFrom(part, 0).1 == Finished && Interpret(FRESH, DecodeFrom(part, 0).0) == (now, out)
  {
    var op :| TurnAt(part, 0) == Yield(op, |part|) && Handle(FRESH, op) == (now, out);
    assert DecodeFrom(part, |part|) == ([], Finished);
    assert [op] + [] == [op] && [op][1..] == [];
    assert out + [] == out;
  }

  // The plugin instance "0" on its own leaves everything else unset.
  lemma PluginInstanceAlone()
    ensures var packet: seq<byte> := [0, 3, 0, 6, 48, 0];
            && DecodeFrom(packet, 0).1 == Finished
            && Interpret(FRESH, DecodeFrom(packet, 0).0) ==
               (Current(Data(0.0, None, None, Some([48]), None, None), None, 0), [])
  {
    var packet: seq<byte> := [0, 3, 0, 6, 48, 0];
    assert packet == PartBytes(0, 3, [48] + [0]) && packet[0..|packet|] == packet;
    TextsOnTheWire(packet, 0, 0, 3, [48], FRESH);
    AloneOnTheWire(packet, FRESH.(data := FRESH.data.(pluginInstance := Some([48]))), []);
  }
}
