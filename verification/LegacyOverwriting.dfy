// Documents of plain nested maps, on which paths that share an array lose segments
// (src/fullerite/dropwizard/legacy_metric.go:98-127, 192-195).
module LegacyOverwriting {
  import opened Text
  import opened Metrics
  import opened Dropwizard
  import opened BaseParser
  import opened GoSlices
  import opened LegacyMetric
  import opened LegacyRun
  import opened LegacyPaths
  import opened LegacyOrder
  import opened LegacyNames
  import opened LegacyAnswer

  // ---- Documents without formats or services ----

  predicate PlainKey(k: string) {
    k != "type" && k != "unit" && k != "service_dims"
  }

  predicate Plain(m: Fields) {
    PlainIn(Object(m))
  }

  predicate PlainIn(j: Json) {
    j.Object? ==> forall k <- j.fields :: PlainKey(k) && PlainIn(j.fields[k])
  }

  lemma {:induction false} PlainNode(root: Fields, x: Path)
    requires Plain(root) && IsNode(root, x)
    ensures Plain(NodeAt(root, x).value)
    decreases |x|
  {
    if x != [] {
      assert root[x[0]] == Object(root[x[0]].fields);
      PlainNode(root[x[0]].fields, x[1..]);
    }
  }

  lemma PlainHasNoFormat(p: Parser, m: Fields)
    requires Plain(m)
    ensures !Recognised(p, m) && !NodePanics(m)
  {
    assert "type" !in m && "unit" !in m;
  }

  lemma PlainHasNoService(root: Fields, x: Path)
    requires Plain(root) && IsNode(root, x)
    ensures !NamesService(x)
  {
    if x != [] {
      var n := |x| - 1;
      PrefixIsNode(root, x, n);
      PlainNode(root, x[..n]);
      NodeAtSnoc(root, x[..n], x[n]);
      assert x == x[..n] + [x[n]];
    }
  }

  lemma PlainIsSettled(p: Parser, root: Fields)
    requires Plain(root)
    ensures Settled(p, root)
  {
    forall x | IsNode(root, x) ensures !HasFormat(p, root, x) && !Crashes(root, x) && !NamesService(x) {
      PlainNode(root, x);
      PlainHasNoFormat(p, NodeAt(root, x).value);
      PlainHasNoService(root, x);
    }
    UnmixedIsEnough(p, root, map[]);
  }

  lemma PlainIsVisited(p: Parser, root: Fields, orders: Orders, x: Path)
    requires Plain(root) && AreOrders(root, orders) && IsNode(root, x)
    ensures Visited(p, root, orders, x)
  {
    forall i | 0 <= i < |x| ensures !HasFormat(p, root, x[..i]) {
      PrefixIsNode(root, x, i);
      PlainNode(root, x[..i]);
      PlainHasNoFormat(p, NodeAt(root, x[..i]).value);
    }
    ExposedIsVisited(p, root, orders, x);
  }

  // ---- A map at the end of a single way ----

  function Nest(way: Path, m: Fields): Fields {
    if way == [] then m else map[way[0] := Object(Nest(way[1..], m))]
  }

  lemma {:induction false} NestIsPlain(way: Path, m: Fields)
    requires Plain(m) && forall i :: 0 <= i < |way| ==> PlainKey(way[i])
    ensures Plain(Nest(way, m))
  {
    if way != [] {
      NestIsPlain(way[1..], m);
    }
  }

  lemma {:induction false} NestGoesOn(way: Path, m: Fields, x: Path)
    ensures NodeAt(Nest(way, m), way + x) == NodeAt(m, x)
  {
    if way == [] {
      assert way + x == x;
    } else {
      NestGoesOn(way[1..], m, x);
      assert (way + x)[1..] == way[1..] + x;
    }
  }

  lemma {:induction false} NestHasOneWay(way: Path, m: Fields, x: Path)
    requires IsNode(Nest(way, m), x)
    ensures |x| <= |way| ==> x == way[..|x|]
    ensures |x| > |way| ==> x == way + x[|way|..]
  {
    if way != [] && x != [] {
      NestHasOneWay(way[1..], m, x[1..]);
      assert x == [x[0]] + x[1..] && way == [way[0]] + way[1..];
      if |x| <= |way| {
        assert way[..|x|] == [way[0]] + way[1..][..|x| - 1];
      } else {
        assert x[1..][|way| - 1..] == x[|way|..];
      }
    }
  }

  lemma {:induction false} NestPrefix(way: Path, m: Fields, j: nat)
    requires j < |way|
    ensures IsNode(Nest(way, m), way[..j]) && IsSub(NodeAt(Nest(way, m), way[..j]).value, way[j])
    ensures forall k <- NodeAt(Nest(way, m), way[..j]).value :: k == way[j]
  {
    if j > 0 {
      NestPrefix(way[1..], m, j - 1);
      assert way[..j][1..] == way[1..][..j - 1];
    }
  }

  lemma WayIsKept(p: Parser, way: Path, m: Fields, j: nat)
    requires Plain(Nest(way, m)) && j < |way|
    ensures !MayOverwrite(p, Nest(way, m), way[..j])
  {
    NestPrefix(way, m, j);
    PlainNode(Nest(way, m), way[..j]);
    PlainHasNoFormat(p, NodeAt(Nest(way, m), way[..j]).value);
  }

  lemma WayReadsRight(p: Parser, way: Path, m: Fields, orders: Orders)
    requires Plain(Nest(way, m)) && AreOrders(Nest(way, m), orders)
    ensures NameOf(p, Nest(way, m), orders, way) == way
  {
    var root := Nest(way, m);
    NestGoesOn(way, m, []);
    assert way + [] == way;
    PlainIsVisited(p, root, orders, way);
    forall j | 0 <= j < |way| ensures !MayOverwrite(p, root, way[..j]) {
      WayIsKept(p, way, m, j);
    }
    SafeReadsRight(p, root, orders, way);
  }

  // A child there reads as the last key of the map.
  lemma ChildReads(p: Parser, way: Path, m: Fields, orders: Orders, k: string)
    requires Plain(Nest(way, m)) && AreOrders(Nest(way, m), orders) && IsSub(m, k) && !NoRoom(|way|)
    ensures NameOf(p, Nest(way, m), orders, way + [k]) == way + [LastOr(orders(way))]
  {
    var root := Nest(way, m);
    WayReadsRight(p, way, m, orders);
    NestGoesOn(way, m, []);
    assert way + [] == way && (way + [k])[..|way|] == way;
    PlainIsVisited(p, root, orders, way);
    PlainNode(root, way);
    PlainHasNoFormat(p, m);
    assert Writes(p, root, orders, way);
    forall x | Shares(way, x) && Writes(p, root, orders, x) ensures x == way {
      NestHasOneWay(way, m, x);
    }
    KeyReadIs(p, root, orders, way + [k], way);
  }

  // So it is with a child's child when all of the map's children have keys: it reads
  // as the last key of the map's last child.
  lemma GrandchildReads(p: Parser, way: Path, m: Fields, orders: Orders, k: string, l: string)
    requires Plain(Nest(way, m)) && AreOrders(Nest(way, m), orders) && !NoRoom(|way|) && !NoRoom(|way| + 1)
    requires (forall j <- m :: IsSub(m, j) && m[j].fields != map[]) && k in m
    ensures var last := LastOr(orders(way));
            last in m && NameOf(p, Nest(way, m), orders, way + [k, l]) == way + [last, LastOr(orders(way + [last]))]
  {
    var root := Nest(way, m);
    ChildReads(p, way, m, orders, k);
    OrderOfTheMap(way, m, orders, k);
    var last := LastOr(orders(way));
    LastChildWrites(p, way, m, orders, k, last);
    ChildIsVisited(p, way, m, orders, last);
    TwoSegments(way, k, l);
    TwoSegments(way, last, LastOr(orders(way + [last])));
    KeyReadIs(p, root, orders, way + [k, l], way + [last]);
  }

  lemma TwoSegments(way: Path, k: string, l: string)
    ensures (way + [k, l])[..|way + [k, l]| - 1] == way + [k] && way + [k] + [l] == way + [k, l]
  {
  }

  lemma OrderOfTheMap(way: Path, m: Fields, orders: Orders, k: string)
    requires AreOrders(Nest(way, m), orders) && k in m
    ensures IsOrder(orders(way), m) && orders(way) != [] && LastOr(orders(way)) in m
  {
    NestGoesOn(way, m, []);
    assert way + [] == way;
    assert k in orders(way) && LastOr(orders(way)) in orders(way);
  }

  lemma ChildNode(way: Path, m: Fields, k: string)
    requires Plain(Nest(way, m)) && IsSub(m, k)
    ensures NodeAt(Nest(way, m), way + [k]) == Some(m[k].fields) && Plain(m[k].fields)
  {
    NestGoesOn(way, m, [k]);
    assert [k][1..] == [];
    PlainNode(Nest(way, m), way + [k]);
  }

  lemma ChildIsVisited(p: Parser, way: Path, m: Fields, orders: Orders, k: string)
    requires Plain(Nest(way, m)) && AreOrders(Nest(way, m), orders) && IsSub(m, k)
    ensures Visited(p, Nest(way, m), orders, way + [k])
    ensures LastKey(p, Nest(way, m), orders, way + [k]) == LastOr(orders(way + [k]))
    ensures m[k].fields != map[] ==> Writes(p, Nest(way, m), orders, way + [k])
  {
    ChildNode(way, m, k);
    PlainIsVisited(p, Nest(way, m), orders, way + [k]);
    PlainMapWrites(p, Nest(way, m), orders, way + [k], m[k].fields);
  }

  lemma PlainMapWrites(p: Parser, root: Fields, orders: Orders, q: Path, m: Fields)
    requires AreOrders(root, orders) && Visited(p, root, orders, q) && NodeAt(root, q) == Some(m) && Plain(m)
    ensures LastKey(p, root, orders, q) == LastOr(orders(q))
    ensures m != map[] ==> Writes(p, root, orders, q)
  {
    PlainHasNoFormat(p, m);
    assert forall j :: j in m ==> j in orders(q);
  }

  lemma LastChildWrites(p: Parser, way: Path, m: Fields, orders: Orders, k: string, last: string)
    requires Plain(Nest(way, m)) && AreOrders(Nest(way, m), orders) && !NoRoom(|way|)
    requires IsSub(m, k) && IsSub(m, last) && m[last].fields != map[]
    requires IsOrder(orders(way), m) && orders(way) != [] && last == LastOr(orders(way))
    ensures LastWriter(p, Nest(way, m), orders, way + [k], way + [last])
  {
    var root, w := Nest(way, m), way + [last];
    ChildIsVisited(p, way, m, orders, last);
    ArrayOfChild(way, k);
    ArrayOfChild(way, last);
    forall x | Shares(way + [k], x) && Writes(p, root, orders, x) && x != w ensures Before(orders, x, w) {
      ChildComesBefore(way, m, orders, x, last);
    }
  }

  lemma ChildComesBefore(way: Path, m: Fields, orders: Orders, x: Path, last: string)
    requires IsNode(Nest(way, m), x) && |x| == |way| + 1 && x != way + [last]
    requires IsOrder(orders(way), m) && orders(way) != [] && last == LastOr(orders(way))
    ensures Before(orders, x, way + [last])
  {
    var n := |way|;
    NestHasOneWay(way, m, x);
    assert x == way + [x[n]];
    NestGoesOn(way, m, [x[n]]);
    assert x[n] in orders(way) && orders(way)[|orders(way)| - 1] == last;
    var i :| 0 <= i < |orders(way)| && orders(way)[i] == x[n];
    assert x[..n] == way && (way + [last])[..n] == way && (way + [last])[n] == last;
    assert PartsFirst(orders, x, way + [last], n);
  }

  predicate IsNamed(m: Option<Metric>, name: string) {
    m.Some? && m.value.name == name
  }

  // ---- An only child that loses its name ----

  const ABC: Path := ["a", "b", "c"]

  const ONLY_CHILD: Fields := Nest(ABC, DN)

  const DN: Fields := map["d" := Object(map["x" := Number(1.0)]), "n" := Number(2.0)]

  lemma OnlyChildShape()
    ensures Plain(ONLY_CHILD) && NodeAt(ONLY_CHILD, ABC) == Some(DN)
    ensures NodeAt(ONLY_CHILD, ABC + ["d"]) == Some(map["x" := Number(1.0)])
  {
    assert PlainIn(DN["d"]) && Plain(DN);
    NestIsPlain(ABC, DN);
    NestGoesOn(ABC, DN, []);
    NestGoesOn(ABC, DN, ["d"]);
    assert ABC + [] == ABC && ["d"][1..] == [];
  }

  // {"a": {"b": {"c": {"d": {"x": 1}, "n": 2}}}}: when "n" follows "d" its append
  // takes the last place of the path to d, and x is named a.b.c.n.x.
  lemma OnlyChildIsOverwritten(p: Parser, orders: Orders)
    requires AreOrders(ONLY_CHILD, orders)
    ensures orders(ABC) == ["d", "n"] || orders(ABC) == ["n", "d"]
    ensures IsNamed(FinalRead(p, ONLY_CHILD, orders, (ABC + ["d"], "x")),
                    if orders(ABC) == ["d", "n"] then "a.b.c.n.x" else "a.b.c.d.x")
  {
    OnlyChildShape();
    TwoOrders(DN, orders(ABC), "d", "n");
    OnlyChildName(p, orders);
    TwoTexts();
  }

  lemma TwoTexts()
    ensures "a.b.c." + "n" + ".x" == "a.b.c.n.x" && "a.b.c." + "d" + ".x" == "a.b.c.d.x"
    ensures LastOr(["d", "n"]) == "n" && LastOr(["n", "d"]) == "d" && "a.b.c.n.x" != "a.b.c.d.x"
  {
    assert "a.b.c.n.x"[6] != "a.b.c.d.x"[6];
  }

  lemma OnlyChildName(p: Parser, orders: Orders)
    requires AreOrders(ONLY_CHILD, orders)
    ensures IsNamed(FinalRead(p, ONLY_CHILD, orders, (ABC + ["d"], "x")), "a.b.c." + LastOr(orders(ABC)) + ".x")
  {
    OnlyChildShape();
    FirstRoom();
    ChildReads(p, ABC, DN, orders, "d");
    GaugeRead(p, ONLY_CHILD, orders, ABC + ["d"], "x");
    OnlyChildText(LastOr(orders(ABC)));
  }

  lemma OnlyChildText(last: string)
    ensures Join(ABC + [last] + ["x"], '.') == "a.b.c." + last + ".x"
  {
    FiveSegments(ABC + [last] + ["x"]);
    assert "a" + "." + "b" + "." + "c" + "." == "a.b.c.";
  }

  lemma FiveSegments(s: Path)
    requires |s| == 5
    ensures Join(s, '.') == s[0] + "." + s[1] + "." + s[2] + "." + s[3] + "." + s[4]
  {
    assert s[..4][..3] == s[..3] && s[..3][..2] == s[..2] && s[..2][..1] == s[..1];
    assert Join(s[..1], '.') == s[0] && Join(s[..2], '.') == s[0] + "." + s[1];
    assert Join(s[..3], '.') == Join(s[..2], '.') + "." + s[2];
    assert Join(s[..4], '.') == Join(s[..3], '.') + "." + s[3];
  }

  lemma TwoOrders(m: Fields, o: seq<string>, a: string, b: string)
    requires IsOrder(o, m) && a != b && forall k :: k in m <==> k == a || k == b
    ensures o == [a, b] || o == [b, a]
  {
    TwoInIt(o, a, b);
    assert o[0] in o && o[1] in o;
    forall k | k in o[1..] ensures k in o && k != o[0] {
    }
    AtMostOne(o[1..]);
  }

  lemma GaugeRead(p: Parser, root: Fields, orders: Orders, q: Path, k: string)
    requires Plain(root) && AreOrders(root, orders) && IsNode(root, q)
    requires k in NodeAt(root, q).value && NodeAt(root, q).value[k].Number?
    ensures IsNamed(FinalRead(p, root, orders, (q, k)), Join(NameOf(p, root, orders, q) + [k], '.'))
  {
    PlainIsVisited(p, root, orders, q);
    PlainNode(root, q);
    PlainHasNoFormat(p, NodeAt(root, q).value);
  }

  // The same order everywhere but at one map.
  ghost function OrdersWith(root: Fields, c: Path, o: seq<string>): (orders: Orders)
    requires IsNode(root, c) && IsOrder(o, NodeAt(root, c).value)
    ensures AreOrders(root, orders) && orders(c) == o
  {
    var orders := AllSubsFirst(root);
    assert AreOrders(root, orders);
    path => if path == c then o else orders(path)
  }

  // Nothing hangs on the order there but that name.
  lemma SettledIsNotEnough(p: Parser)
    ensures Settled(p, ONLY_CHILD) && !AllReturnsAgree(p, ONLY_CHILD)
  {
    OnlyChildShape();
    PlainIsSettled(p, ONLY_CHILD);
    DNOrders();
    var a, b := OrdersWith(ONLY_CHILD, ABC, ["d", "n"]), OrdersWith(ONLY_CHILD, ABC, ["n", "d"]);
    TwoNames(p, a, b);
    OneDifference(p, ONLY_CHILD, a, b, (ABC + ["d"], "x"));
  }

  lemma DNOrders()
    ensures IsOrder(["d", "n"], DN) && IsOrder(["n", "d"], DN)
  {
  }

  lemma OneDifference(p: Parser, root: Fields, a: Orders, b: Orders, at: Place)
    requires Settled(p, root) && AreOrders(root, a) && AreOrders(root, b)
    requires FinalRead(p, root, a, at) != FinalRead(p, root, b, at)
    ensures !AllReturnsAgree(p, root)
  {
    SettledReturns(p, root, a);
    assert !ReturnsAgree(p, root, a, b);
  }

  lemma TwoNames(p: Parser, a: Orders, b: Orders)
    requires AreOrders(ONLY_CHILD, a) && AreOrders(ONLY_CHILD, b)
    requires a(ABC) == ["d", "n"] && b(ABC) == ["n", "d"]
    ensures FinalRead(p, ONLY_CHILD, a, (ABC + ["d"], "x")) != FinalRead(p, ONLY_CHILD, b, (ABC + ["d"], "x"))
  {
    TwoTexts();
    OnlyChildIsOverwritten(p, a);
    OnlyChildIsOverwritten(p, b);
  }

  // ---- An overwritten path that nobody reads ----

  const SILENT_CHILD: Fields := Nest(ABC, SN)

  const SN: Fields := map["d" := Object(map["s" := Str("t")]), "n" := Number(2.0)]

  lemma SilentChildShape()
    ensures Plain(SILENT_CHILD) && NodeAt(SILENT_CHILD, ABC) == Some(SN)
    ensures NodeAt(SILENT_CHILD, ABC + ["d"]) == Some(map["s" := Str("t")])
    ensures forall x :: |x| > 3 && IsNode(SILENT_CHILD, x) ==> x == ABC + ["d"]
  {
    assert PlainIn(SN["d"]) && Plain(SN);
    NestIsPlain(ABC, SN);
    NestGoesOn(ABC, SN, []);
    NestGoesOn(ABC, SN, ["d"]);
    assert ABC + [] == ABC && ["d"][1..] == [];
    forall x | |x| > 3 && IsNode(SILENT_CHILD, x) ensures x == ABC + ["d"] {
      NestHasOneWay(ABC, SN, x);
      NestGoesOn(ABC, SN, x[3..]);
      OneSubBelow(SN, "d", x[3..]);
    }
  }

  lemma OneSubBelow(m: Fields, k: string, x: Path)
    requires IsSub(m, k) && (forall j :: IsSub(m, j) ==> j == k) && forall j :: !IsSub(m[k].fields, j)
    requires x != [] && IsNode(m, x)
    ensures x == [k]
  {
    var rest := x[1..];
    assert IsSub(m, x[0]) && x == [x[0]] + rest && IsNode(m[k].fields, rest);
    assert rest != [] ==> IsSub(m[k].fields, rest[0]);
  }

  // {"a": {"b": {"c": {"d": {"s": "t"}, "n": 2}}}}: the path to d may be overwritten,
  // but the only metric is a.b.c.n, and it comes back the same whatever the order.
  lemma SilentChildIsHarmless(p: Parser)
    ensures MayOverwrite(p, SILENT_CHILD, ABC) && AllReturnsAgree(p, SILENT_CHILD)
  {
    SilentChildShape();
    PlainNode(SILENT_CHILD, ABC);
    PlainHasNoFormat(p, SN);
    FirstRoom();
    assert IsSub(SN, "d") && "n" in SN && "n" != "d";
    forall q | Emits(p, SILENT_CHILD, q) ensures |q| <= 3 {
      SilentEmits(p, q);
    }
    ShallowIsKept(p, SILENT_CHILD);
    PlainIsSettled(p, SILENT_CHILD);
    ReturnsAgreeExactlyWhen(p, SILENT_CHILD);
  }

  lemma SilentEmits(p: Parser, q: Path)
    requires Emits(p, SILENT_CHILD, q)
    ensures |q| <= 3
  {
    SilentChildShape();
    PlainNode(SILENT_CHILD, q);
    PlainHasNoFormat(p, NodeAt(SILENT_CHILD, q).value);
  }

  // ---- Dots that hide an overwritten path ----

  // Two children, x holding metrics under k, and y a string under l, with one text
  // for the two ways.
  ghost predicate AreTwins(m: Fields, x: string, k: string, y: string, l: string, v: Fields) {
    && x != y && ("." + x) + ("." + k) == ("." + y) + ("." + l)
    && m == map[x := Object(map[k := Object(v)]), y := Object(map[l := Str("s")])]
    && Plain(m) && (exists j :: j in v && v[j].Number?) && forall j :: !IsSub(v, j)
  }

  lemma TwinsNodes(way: Path, m: Fields, x: string, k: string, y: string, l: string, v: Fields)
    requires AreTwins(m, x, k, y, l, v)
    ensures NodeAt(Nest(way, m), way) == Some(m) && NodeAt(Nest(way, m), way + [x, k]) == Some(v)
    ensures NodeAt(Nest(way, m), way + [x]) == Some(map[k := Object(v)])
    ensures NodeAt(Nest(way, m), way + [y]) == Some(map[l := Str("s")])
  {
    NestGoesOn(way, m, []);
    NestGoesOn(way, m, [x]);
    NestGoesOn(way, m, [y]);
    NodeAtSnoc(Nest(way, m), way + [x], k);
    assert way + [] == way && [x][1..] == [] && [y][1..] == [] && way + [x] + [k] == way + [x, k];
  }

  // The only numbers are in one map.
  lemma TwinsNumbers(m: Fields, x: string, k: string, y: string, l: string, v: Fields, q: Path, j: string)
    requires AreTwins(m, x, k, y, l, v)
    requires IsNode(m, q) && j in NodeAt(m, q).value && NodeAt(m, q).value[j].Number?
    ensures q == [x, k]
  {
    assert q != [] && q[0] in m;
    var rest := q[1..];
    assert q == [q[0]] + rest && IsNode(m[q[0]].fields, rest);
    assert rest != [] && IsSub(m[q[0]].fields, rest[0]) && q[0] == x && rest[0] == k;
    var last := rest[1..];
    assert rest == [k] + last && IsNode(v, last) && (last != [] ==> IsSub(v, last[0]));
  }

  lemma TwinsEmit(p: Parser, way: Path, m: Fields, x: string, k: string, y: string, l: string, v: Fields, q: Path)
    requires AreTwins(m, x, k, y, l, v) && Plain(Nest(way, m)) && Emits(p, Nest(way, m), q)
    ensures q == way + [x, k]
  {
    var root := Nest(way, m);
    PlainNode(root, q);
    PlainHasNoFormat(p, NodeAt(root, q).value);
    var j :| j in NodeAt(root, q).value && NodeAt(root, q).value[j].Number?;
    NestHasOneWay(way, m, q);
    if |q| < |way| {
      NestPrefix(way, m, |q|);
    } else {
      var rest := q[|way|..];
      assert q == way + rest;
      NestGoesOn(way, m, rest);
      TwinsNumbers(m, x, k, y, l, v, rest, j);
    }
  }

  lemma OnlyKey(m: Fields, o: seq<string>, k: string)
    requires IsOrder(o, m) && k in m && forall j <- m :: j == k
    ensures LastOr(o) == k
  {
    assert k in o && LastOr(o) in o;
  }

  // Whichever of x and y overwrites the other, the text is the same.
  lemma TwinsText(p: Parser, way: Path, m: Fields, x: string, k: string, y: string, l: string, v: Fields,
                  orders: Orders)
    requires AreTwins(m, x, k, y, l, v) && Plain(Nest(way, m)) && !NoRoom(|way|) && !NoRoom(|way| + 1) && way != []
    requires AreOrders(Nest(way, m), orders)
    ensures Join(NameOf(p, Nest(way, m), orders, way + [x, k]), '.') == Join(way, '.') + (("." + x) + ("." + k))
  {
    TwinsNodes(way, m, x, k, y, l, v);
    assert k in m[x].fields && l in m[y].fields;
    GrandchildReads(p, way, m, orders, x, k);
    var last := LastOr(orders(way));
    if last == x {
      OnlyKey(m[x].fields, orders(way + [x]), k);
      TwoMore(way, x, k);
    } else {
      OnlyKey(m[y].fields, orders(way + [y]), l);
      TwoMore(way, y, l);
    }
  }

  lemma TwoMore(s: Path, a: string, b: string)
    requires s != []
    ensures Join(s + [a, b], '.') == Join(s, '.') + (("." + a) + ("." + b))
  {
    assert s + [a, b] == s + [a] + [b];
    JoinSnoc(s, '.', a);
    JoinSnoc(s + [a], '.', b);
  }

  lemma TwinsReadAlike(p: Parser, way: Path, m: Fields, x: string, k: string, y: string, l: string, v: Fields,
                       a: Orders, b: Orders, at: Place)
    requires AreTwins(m, x, k, y, l, v) && Plain(Nest(way, m)) && !NoRoom(|way|) && !NoRoom(|way| + 1) && way != []
    requires AreOrders(Nest(way, m), a) && AreOrders(Nest(way, m), b)
    requires FinalEmission(p, Nest(way, m), a, at) == FinalEmission(p, Nest(way, m), b, at)
    ensures FinalRead(p, Nest(way, m), a, at) == FinalRead(p, Nest(way, m), b, at)
  {
    var root := Nest(way, m);
    ReadIsRenamed(p, root, a, at);
    ReadIsRenamed(p, root, b, at);
    if Emits(p, root, at.0) {
      TwinsEmit(p, way, m, x, k, y, l, v, at.0);
      TwinsText(p, way, m, x, k, y, l, v, a);
      TwinsText(p, way, m, x, k, y, l, v, b);
      SameTextSameName(p, root, at, NameOf(p, root, a, at.0), NameOf(p, root, b, at.0));
    }
  }

  lemma SameTextSameName(p: Parser, root: Fields, at: Place, x: Path, y: Path)
    requires |x| == |y| && x != [] && Join(x, '.') == Join(y, '.')
    ensures NameUnder(p, root, at, x) == NameUnder(p, root, at, y)
  {
    JoinSnoc(x, '.', at.1);
    JoinSnoc(y, '.', at.1);
  }

  lemma TwinsAreOverwritten(p: Parser, way: Path, m: Fields, x: string, k: string, y: string, l: string, v: Fields)
    requires AreTwins(m, x, k, y, l, v) && Plain(Nest(way, m)) && !NoRoom(|way|)
    ensures !NothingOverwritten(p, Nest(way, m))
  {
    var root, q := Nest(way, m), way + [x, k];
    TwinsNodes(way, m, x, k, y, l, v);
    PlainNode(root, q);
    PlainHasNoFormat(p, m);
    PlainHasNoFormat(p, v);
    assert IsSub(m, x) && y in m;
    assert q[..|way|] == way && MayOverwrite(p, root, way);
    var j :| j in v && v[j].Number?;
    assert j in NodeMetrics(p, v, q);
  }

  // Then every order returns the same although paths are overwritten.
  lemma DotsHideOverwriting(p: Parser, way: Path, m: Fields, x: string, k: string, y: string, l: string, v: Fields)
    requires AreTwins(m, x, k, y, l, v) && Plain(Nest(way, m)) && !NoRoom(|way|) && !NoRoom(|way| + 1) && way != []
    ensures AllReturnsAgree(p, Nest(way, m)) && !Certain(p, Nest(way, m))
  {
    var root := Nest(way, m);
    PlainIsSettled(p, root);
    TwinsAreOverwritten(p, way, m, x, k, y, l, v);
    SettledIsNotDoomed(p, root);
    forall a: Orders, b: Orders | AreOrders(root, a) && AreOrders(root, b) ensures ReturnsAgree(p, root, a, b) {
      SettledAgree(p, root, a, b);
      SettledReturns(p, root, a);
      forall at: Place ensures FinalRead(p, root, a, at) == FinalRead(p, root, b, at) {
        TwinsReadAlike(p, way, m, x, k, y, l, v, a, b, at);
      }
    }
  }

  lemma SettledIsNotDoomed(p: Parser, root: Fields)
    requires Settled(p, root)
    ensures !Doomed(p, root)
  {
    SettledReturns(p, root, AllSubsFirst(root));
    if Doomed(p, root) {
      DoomedPanic(p, root, AllSubsFirst(root));
    }
  }

  const ABCDE: Path := ["a", "b", "c", "d", "e"]

  const TWINS: Fields :=
    map["x" := Object(map["y.z" := Object(map["v" := Number(1.0)])]), "x.y" := Object(map["z" := Str("s")])]

  // {"a": {"b": {"c": {"d": {"e": {"x": {"y.z": {"v": 1}}, "x.y": {"z": "s"}}}}}}}: v is
  // named a.b.c.d.e.x.y.z.v, whichever of x and x.y its path was overwritten by.
  lemma DottedTwins(p: Parser)
    ensures AllReturnsAgree(p, Nest(ABCDE, TWINS)) && !Certain(p, Nest(ABCDE, TWINS))
  {
    var v := map["v" := Number(1.0)];
    TwinsHere(v);
    NestIsPlain(ABCDE, TWINS);
    FiveHasRoom();
    DotsHideOverwriting(p, ABCDE, TWINS, "x", "y.z", "x.y", "z", v);
  }

  lemma TwinsHere(v: Fields)
    requires v == map["v" := Number(1.0)]
    ensures AreTwins(TWINS, "x", "y.z", "x.y", "z", v)
  {
    assert PlainIn(Object(v)) && PlainIn(TWINS["x"]) && PlainIn(TWINS["x.y"]);
    assert ".x" + ".y.z" == ".x.y.z" && ".x.y" + ".z" == ".x.y.z";
    assert "v" in v;
  }

  lemma FiveHasRoom()
    ensures !NoRoom(5) && !NoRoom(6)
  {
    assert Capacity(1) == 1 && Capacity(2) == 2 && Capacity(4) == 4;
    NoRoomExactlyAtPowers(5);
    NoRoomExactlyAtPowers(6);
  }
}
