// Whether the names of the legacy parser's metrics are right, and when its answer,
// names included, does not hang on map order
// (src/fullerite/dropwizard/legacy_metric.go:80-135, 192-195).
module LegacyNames {
  import opened Metrics
  import opened Dropwizard
  import opened BaseParser
  import opened GoSlices
  import opened LegacyMetric
  import opened LegacyRun
  import opened LegacyPaths
  import opened LegacyOrder
  import opened LegacyWorklist

  // ---- Names, for one order ----

  // The visit of a map leaves its children's paths as they were appended: its own
  // path has no room left, or it has no child, or one with nothing handled after it.
  ghost predicate KeepsPaths(p: Parser, m: Fields, o: seq<string>, depth: nat) {
    var handled := Handled(p, m, o);
    NoRoom(depth) || Subs(m, handled) == [] || (handled != [] && Subs(m, handled) == [handled[|handled| - 1]])
  }

  ghost predicate PathsKept(p: Parser, root: Fields, orders: Orders) {
    forall q :: Visited(p, root, orders, q) && NodeAt(root, q).Some? ==>
      KeepsPaths(p, NodeAt(root, q).value, orders(q), |q|)
  }

  lemma {:induction false} NamePrefix(p: Parser, root: Fields, orders: Orders, q: Path, j: nat)
    requires j <= |q|
    ensures NameOf(p, root, orders, q)[..j] == NameOf(p, root, orders, q[..j])
    decreases |q|
  {
    if j == |q| {
      assert q[..j] == q;
      assert NameOf(p, root, orders, q)[..j] == NameOf(p, root, orders, q);
    } else {
      var parent := q[..|q| - 1];
      NamePrefix(p, root, orders, parent, j);
      assert parent[..j] == q[..j];
    }
  }

  lemma SegmentRead(p: Parser, root: Fields, orders: Orders, q: Path, j: nat)
    requires j < |q|
    ensures NameOf(p, root, orders, q)[j] == KeyRead(p, root, orders, q[..j + 1])
  {
    NamePrefix(p, root, orders, q, j + 1);
    assert q[..j + 1][..j] == q[..j];
    assert NameOf(p, root, orders, q)[..j + 1][j] == NameOf(p, root, orders, q)[j];
  }

  // A path is read right exactly when each of its segments is.
  lemma {:induction false} RightExactlyBySegments(p: Parser, root: Fields, orders: Orders, q: Path)
    ensures NameOf(p, root, orders, q) == q <==>
            forall j :: 0 <= j < |q| ==> KeyRead(p, root, orders, q[..j + 1]) == q[j]
  {
    forall j | 0 <= j < |q| ensures NameOf(p, root, orders, q)[j] == KeyRead(p, root, orders, q[..j + 1]) {
      SegmentRead(p, root, orders, q, j);
    }
  }

  // Maps whose paths share an array part at a map whose path has room.
  lemma PartWithRoom(c: Path, x: Path) returns (i: nat)
    requires Shares(c, x) && c != x
    ensures i < |c| && c[..i] == x[..i] && c[i] != x[i] && !NoRoom(i)
  {
    i := FirstDifference(c, x);
    var a := Anchor(|c|);
    assert forall k :: 0 <= k < a ==> ArrayOf(c)[k] == c[k] && ArrayOf(x)[k] == x[k];
    AnchorIsLast(|c|, i);
  }

  lemma {:induction false} AnchorIsLast(n: nat, i: nat)
    requires Anchor(n) <= i < n
    ensures !NoRoom(i)
  {
    if i < n - 1 {
      AnchorIsLast(n - 1, i);
    }
  }

  // Another child of q's ancestor at level i is visited.
  ghost predicate ForkedAt(p: Parser, root: Fields, orders: Orders, q: Path, i: nat, k: string)
    requires i < |q|
  {
    Visited(p, root, orders, q[..i] + [k]) && k != q[i]
  }

  // Above level j that happens to no map with room in its path.
  ghost predicate NoFork(p: Parser, root: Fields, orders: Orders, q: Path, j: nat)
    requires j <= |q|
  {
    forall i, k :: 0 <= i < j && !NoRoom(i) ==> !ForkedAt(p, root, orders, q, i, k)
  }

  lemma NoForkMeansOne(p: Parser, root: Fields, orders: Orders, q: Path, j: nat, i: nat, k: string)
    requires j <= |q| && i < j && !NoRoom(i) && NoFork(p, root, orders, q, j)
    requires Visited(p, root, orders, q[..i] + [k])
    ensures k == q[i]
  {
    assert !ForkedAt(p, root, orders, q, i, k);
  }

  lemma PrefixVisited(p: Parser, root: Fields, orders: Orders, x: Path, i: nat)
    requires i < |x| && Visited(p, root, orders, x)
    ensures Visited(p, root, orders, x[..i] + [x[i]])
  {
    OneMore(x, i);
    WayVisited(p, root, orders, x, i + 1, x[..i] + [x[i]]);
  }

  lemma OneMore(x: Path, i: nat)
    requires i < |x|
    ensures x[..i] + [x[i]] == x[..i + 1]
  {
  }

  lemma WayVisited(p: Parser, root: Fields, orders: Orders, x: Path, i: nat, way: Path)
    requires i <= |x| && Visited(p, root, orders, x) && way == x[..i]
    ensures Visited(p, root, orders, way)
  {
    PrefixIsVisited(p, root, orders, x, i);
  }

  lemma NoOtherSharer(p: Parser, root: Fields, orders: Orders, q: Path, j: nat, x: Path)
    requires j <= |q| && NoFork(p, root, orders, q, j) && Visited(p, root, orders, x) && Shares(q[..j], x)
    ensures x == q[..j]
  {
    if x != q[..j] {
      var i := PartWithRoom(q[..j], x);
      assert q[..j][..i] == q[..i] && q[..j][i] == q[i];
      PrefixVisited(p, root, orders, x, i);
      NoForkMeansOne(p, root, orders, q, j, i, x[i]);
    }
  }

  // Then nobody else writes behind q's ancestor at that level.
  lemma SoleWriter(p: Parser, root: Fields, orders: Orders, q: Path, j: nat)
    requires j <= |q| && NoFork(p, root, orders, q, j) && Writes(p, root, orders, q[..j])
    ensures LastWriter(p, root, orders, q[..j], q[..j])
  {
    forall x | Shares(q[..j], x) && Writes(p, root, orders, x) ensures x == q[..j] {
      NoOtherSharer(p, root, orders, q, j, x);
    }
  }

  lemma KeyReadBySole(p: Parser, root: Fields, orders: Orders, q: Path, j: nat)
    requires AreOrders(root, orders) && j < |q| && !NoRoom(j)
    requires NoFork(p, root, orders, q, j) && Writes(p, root, orders, q[..j])
    ensures KeyRead(p, root, orders, q[..j + 1]) == LastKey(p, root, orders, q[..j])
  {
    assert q[..j + 1][..j] == q[..j];
    SoleWriter(p, root, orders, q, j);
    KeyReadIs(p, root, orders, q[..j + 1], q[..j]);
  }

  // A map that keeps its children's paths, and has room, has one child at most: its
  // last key.
  lemma KeptChild(p: Parser, m: Fields, o: seq<string>, depth: nat, k: string)
    requires IsOrder(o, m) && KeepsPaths(p, m, o, depth) && !NoRoom(depth) && Descends(p, m, o, k)
    ensures Handled(p, m, o) != [] && k == LastOr(Handled(p, m, o))
  {
    PushedByIs(p, m, o);
    assert k in PushedBy(p, m, o);
  }

  lemma KeptLastKey(p: Parser, root: Fields, orders: Orders, q: Path, j: nat)
    requires AreOrders(root, orders) && Visited(p, root, orders, q) && j < |q| && !NoRoom(j)
    requires NodeAt(root, q[..j]).Some? ==> KeepsPaths(p, NodeAt(root, q[..j]).value, orders(q[..j]), j)
    ensures LastKey(p, root, orders, q[..j]) == q[j]
  {
    PrefixIsVisited(p, root, orders, q, j);
    KeptChild(p, NodeAt(root, q[..j]).value, orders(q[..j]), j, q[j]);
  }

  lemma WritesAbove(p: Parser, root: Fields, orders: Orders, q: Path, j: nat)
    requires Visited(p, root, orders, q) && j < |q|
    ensures Writes(p, root, orders, q[..j])
  {
    PrefixIsVisited(p, root, orders, q, j);
  }

  lemma ReadsRightAt(p: Parser, root: Fields, orders: Orders, q: Path, j: nat)
    requires AreOrders(root, orders) && j < |q| && Writes(p, root, orders, q[..j]) && NoFork(p, root, orders, q, j)
    requires !NoRoom(j) ==> LastKey(p, root, orders, q[..j]) == q[j]
    ensures KeyRead(p, root, orders, q[..j + 1]) == q[j]
  {
    if !NoRoom(j) {
      KeyReadBySole(p, root, orders, q, j);
    } else {
      assert q[..j + 1][..j] == q[..j];
    }
  }

  // Maps whose paths share an array are read alike.
  lemma {:induction false} SharersReadAlike(p: Parser, root: Fields, orders: Orders, c: Path, x: Path)
    requires AreOrders(root, orders) && Shares(c, x)
    ensures NameOf(p, root, orders, c) == NameOf(p, root, orders, x)
    decreases |c|
  {
    if c != [] {
      var n := |c| - 1;
      var c', x' := c[..n], x[..n];
      assert c == c' + [c[n]] && x == x' + [x[n]];
      ArrayOfChild(c', c[n]);
      ArrayOfChild(x', x[n]);
      if !NoRoom(n) {
        SharersReadAlike(p, root, orders, c', x');
        SameKeyRead(p, root, orders, c, x);
      }
    }
  }

  lemma SameKeyRead(p: Parser, root: Fields, orders: Orders, c: Path, x: Path)
    requires AreOrders(root, orders) && c != [] && |c| == |x| && !NoRoom(|c| - 1)
    requires Shares(c[..|c| - 1], x[..|x| - 1])
    ensures KeyRead(p, root, orders, c) == KeyRead(p, root, orders, x)
  {
    var c', x' := c[..|c| - 1], x[..|x| - 1];
    forall w ensures LastWriter(p, root, orders, c', w) <==> LastWriter(p, root, orders, x', w) {
    }
    if w :| LastWriter(p, root, orders, c', w) {
      KeyReadIs(p, root, orders, c, w);
      KeyReadIs(p, root, orders, x, w);
    }
  }

  // Every map above q with room in its path keeps its children's paths.
  ghost predicate KeptAbove(p: Parser, root: Fields, orders: Orders, q: Path) {
    forall j :: 0 <= j < |q| && !NoRoom(j) && NodeAt(root, q[..j]).Some? ==>
      KeepsPaths(p, NodeAt(root, q[..j]).value, orders(q[..j]), j)
  }

  lemma KeptAboveMeansRight(p: Parser, root: Fields, orders: Orders, q: Path)
    requires AreOrders(root, orders) && KeptAbove(p, root, orders, q) && Visited(p, root, orders, q)
    ensures NameOf(p, root, orders, q) == q
  {
    forall i, k | 0 <= i < |q| && !NoRoom(i) ensures !ForkedAt(p, root, orders, q, i, k) {
      if Visited(p, root, orders, q[..i] + [k]) {
        KeptHasNoFork(p, root, orders, q, i, k);
      }
    }
    forall j | 0 <= j < |q| ensures KeyRead(p, root, orders, q[..j + 1]) == q[j] {
      WritesAbove(p, root, orders, q, j);
      if !NoRoom(j) {
        KeptLastKey(p, root, orders, q, j);
      }
      ReadsRightAt(p, root, orders, q, j);
    }
    RightExactlyBySegments(p, root, orders, q);
  }

  lemma KeptHasNoFork(p: Parser, root: Fields, orders: Orders, q: Path, i: nat, k: string)
    requires AreOrders(root, orders) && Visited(p, root, orders, q)
    requires i < |q| && !NoRoom(i) && Visited(p, root, orders, q[..i] + [k])
    requires NodeAt(root, q[..i]).Some? ==> KeepsPaths(p, NodeAt(root, q[..i]).value, orders(q[..i]), i)
    ensures k == q[i]
  {
    var c := q[..i];
    PrefixIsVisited(p, root, orders, q, i);
    VisitedSnoc(p, root, orders, c, k);
    KeptChild(p, NodeAt(root, c).value, orders(c), i, k);
    KeptChild(p, NodeAt(root, c).value, orders(c), i, q[i]);
  }

  lemma KeptMeansRight(p: Parser, root: Fields, orders: Orders, q: Path)
    requires AreOrders(root, orders) && PathsKept(p, root, orders) && Visited(p, root, orders, q)
    ensures NameOf(p, root, orders, q) == q
  {
    forall j | 0 <= j < |q| ensures Visited(p, root, orders, q[..j]) {
      PrefixIsVisited(p, root, orders, q, j);
    }
    KeptAboveMeansRight(p, root, orders, q);
  }

  // Some child of a map that does not keep its children's paths is not its last key.
  lemma StrayChild(p: Parser, m: Fields, o: seq<string>, depth: nat) returns (k: string)
    requires IsOrder(o, m) && !KeepsPaths(p, m, o, depth)
    ensures Descends(p, m, o, k) && k != LastOr(Handled(p, m, o)) && !NoRoom(depth)
  {
    PushedByIs(p, m, o);
    var subs, last := PushedBy(p, m, o), LastOr(Handled(p, m, o));
    PushedNeedsHandled(m, Handled(p, m, o));
    assert |subs| == 1 ==> subs == [subs[0]];
    k := if subs[0] != last then subs[0] else subs[1];
    assert k in subs;
  }

  lemma NotKeptMeansWrong(p: Parser, root: Fields, orders: Orders, c: Path) returns (q: Path)
    requires AreOrders(root, orders) && Visited(p, root, orders, c) && NodeAt(root, c).Some?
    requires !KeepsPaths(p, NodeAt(root, c).value, orders(c), |c|)
    ensures Visited(p, root, orders, q) && NameOf(p, root, orders, q) != q
  {
    var k := StrayChild(p, NodeAt(root, c).value, orders(c), |c|);
    var child := c + [k];
    VisitedSnoc(p, root, orders, c, k);
    assert child[..|c|] == c;
    ParentWrites(p, root, orders, child);
    var w := SomeLastWriter(p, root, orders, c);
    KeyReadIs(p, root, orders, child, w);
    SharersReadAlike(p, root, orders, c, w);
    q := if w == c then child else if NameOf(p, root, orders, c) != c then c else w;
    if w == c {
      assert NameOf(p, root, orders, child)[|c|] == KeyRead(p, root, orders, child);
    }
  }

  // Every visited map's path is read right, exactly when every visit keeps its
  // children's paths.
  lemma AllReadRightExactlyWhen(p: Parser, root: Fields, orders: Orders)
    requires AreOrders(root, orders)
    ensures (forall q :: Visited(p, root, orders, q) ==> NameOf(p, root, orders, q) == q) <==>
            PathsKept(p, root, orders)
  {
    if PathsKept(p, root, orders) {
      forall q | Visited(p, root, orders, q) ensures NameOf(p, root, orders, q) == q {
        KeptMeansRight(p, root, orders, q);
      }
    } else {
      var c :| Visited(p, root, orders, c) && NodeAt(root, c).Some? &&
        !KeepsPaths(p, NodeAt(root, c).value, orders(c), |c|);
      var q := NotKeptMeansWrong(p, root, orders, c);
    }
  }

  // ---- Paths, whatever the order ----

  // No order of a map lets another append follow that of a sub-map: a recognised
  // map has one sub-map at most, any other one none, or nothing else.
  ghost predicate CannotOverwrite(p: Parser, m: Fields) {
    if Recognised(p, m) then forall j, k :: IsSub(m, j) && IsSub(m, k) ==> j == k
    else (forall j :: !IsSub(m, j)) || forall j, k :: j in m && k in m ==> j == k
  }

  lemma AtMostOne(o: seq<string>)
    requires NoRepeats(o) && forall j, k :: j in o && k in o ==> j == k
    ensures |o| <= 1
  {
    if o != [] {
      assert o[0] in o && o[|o| - 1] in o;
    }
  }

  lemma NoSubs(m: Fields, keys: seq<string>)
    requires forall k :: k in keys ==> !IsSub(m, k)
    ensures Subs(m, keys) == []
  {
    if keys != [] {
      assert keys == keys[..|keys| - 1] + [keys[|keys| - 1]];
      NoSubs(m, keys[..|keys| - 1]);
    }
  }

  lemma CannotOverwriteKeeps(p: Parser, m: Fields, o: seq<string>, depth: nat)
    requires IsOrder(o, m) && CannotOverwrite(p, m)
    ensures KeepsPaths(p, m, o, depth)
  {
    var handled := Handled(p, m, o);
    if Recognised(p, m) {
      forall k | k in handled ensures IsSub(m, k) {
        var i :| 0 <= i < |handled| && handled[i] == k;
      }
      AtMostOne(handled);
    } else if forall j :: !IsSub(m, j) {
      NoSubs(m, handled);
    } else {
      AtMostOne(handled);
    }
    if |handled| == 1 {
      assert handled[..0] == [] && handled == [handled[0]];
    }
  }

  lemma {:induction false} SubsHas(m: Fields, keys: seq<string>, k: string)
    requires k in keys && IsSub(m, k)
    ensures k in Subs(m, keys)
  {
    var before, last := keys[..|keys| - 1], keys[|keys| - 1];
    assert keys == before + [last];
    if k != last {
      SubsHas(m, before, k);
    }
  }

  lemma SubsFirstOverwrites(p: Parser, m: Fields, depth: nat)
    requires !CannotOverwrite(p, m) && !NoRoom(depth)
    ensures !KeepsPaths(p, m, SubsFirst(m), depth)
  {
    var o, handled := SubsFirst(m), Handled(p, m, SubsFirst(m));
    var a, b :| a != b && IsSub(m, a) && b in m && (Recognised(p, m) ==> IsSub(m, b));
    SubsFirstDescends(p, m, a);
    if Recognised(p, m) {
      SubsFirstDescends(p, m, b);
    }
    assert a in handled && b in handled;
    FirstIsASub(m, a);
    assert handled[0] == o[0];
    SubsHas(m, handled, handled[0]);
    TwoInIt(handled, a, b);
    assert handled[0] != handled[|handled| - 1];
  }

  lemma TwoInIt(o: seq<string>, a: string, b: string)
    requires a in o && b in o && a != b
    ensures |o| >= 2
  {
    var i :| 0 <= i < |o| && o[i] == a;
    var j :| 0 <= j < |o| && o[j] == b;
  }

  lemma FirstIsASub(m: Fields, k: string)
    requires IsSub(m, k)
    ensures SubsFirst(m) != [] && IsSub(m, SubsFirst(m)[0])
  {
    var x := LegacyOrder.Listed(SubKeys(m));
    assert k in x && x[0] in x;
  }

  // Every order leaves every path right, exactly when no map whose path has room
  // left can be overwritten.
  lemma PathsAlwaysKeptExactlyWhen(p: Parser, root: Fields)
    ensures (forall orders: Orders :: AreOrders(root, orders) ==> PathsKept(p, root, orders)) <==>
            forall q :: IsNode(root, q) && !NoRoom(|q|) ==> CannotOverwrite(p, NodeAt(root, q).value)
  {
    if forall q :: IsNode(root, q) && !NoRoom(|q|) ==> CannotOverwrite(p, NodeAt(root, q).value) {
      forall orders: Orders | AreOrders(root, orders) ensures PathsKept(p, root, orders) {
        forall q | Visited(p, root, orders, q) && IsNode(root, q)
          ensures KeepsPaths(p, NodeAt(root, q).value, orders(q), |q|)
        {
          if !NoRoom(|q|) {
            CannotOverwriteKeeps(p, NodeAt(root, q).value, orders(q), |q|);
          }
        }
      }
    } else {
      var q :| IsNode(root, q) && !NoRoom(|q|) && !CannotOverwrite(p, NodeAt(root, q).value);
      SubsFirstVisitsAll(p, root, q);
      SubsFirstOverwrites(p, NodeAt(root, q).value, |q|);
      assert !PathsKept(p, root, AllSubsFirst(root));
    }
  }

  // ---- Names of metrics, whatever the order ----

  predicate Emits(p: Parser, root: Fields, q: Path) {
    IsNode(root, q) && NodeMetrics(p, NodeAt(root, q).value, q) != map[]
  }

  // Some order of the map at c overwrites a child's path.
  ghost predicate MayOverwrite(p: Parser, root: Fields, c: Path) {
    IsNode(root, c) && !NoRoom(|c|) && !CannotOverwrite(p, NodeAt(root, c).value)
  }

  // No map that can do so has metrics below it.
  ghost predicate NothingOverwritten(p: Parser, root: Fields) {
    forall q, j :: Emits(p, root, q) && 0 <= j < |q| ==> !MayOverwrite(p, root, q[..j])
  }

  lemma SafeReadsRight(p: Parser, root: Fields, orders: Orders, q: Path)
    requires AreOrders(root, orders) && Visited(p, root, orders, q)
    requires forall j :: 0 <= j < |q| ==> !MayOverwrite(p, root, q[..j])
    ensures NameOf(p, root, orders, q) == q
  {
    forall j | 0 <= j < |q| && !NoRoom(j) && NodeAt(root, q[..j]).Some?
      ensures KeepsPaths(p, NodeAt(root, q[..j]).value, orders(q[..j]), j)
    {
      assert !MayOverwrite(p, root, q[..j]);
      CannotOverwriteKeeps(p, NodeAt(root, q[..j]).value, orders(q[..j]), j);
    }
    KeptAboveMeansRight(p, root, orders, q);
  }

  // ---- Orders that lead to a map, and one that strays at one point ----

  ghost predicate LastAtItsDepth(p: Parser, root: Fields, orders: Orders, c: Path) {
    && Visited(p, root, orders, c)
    && forall x :: Visited(p, root, orders, x) && |x| == |c| && x != c ==> Before(orders, x, c)
  }

  // The map on the way to q at level i is ranged over as in the orders toward q.
  ghost predicate AsToward(p: Parser, root: Fields, orders: Orders, q: Path, i: nat)
    requires i <= |q|
  {
    orders(q[..i]) == Toward(p, root, q)(q[..i])
  }

  // All of them are, down to level j.
  ghost predicate Leans(p: Parser, root: Fields, orders: Orders, q: Path, j: nat)
    requires j <= |q|
  {
    forall i :: 0 <= i < j ==> AsToward(p, root, orders, q, i)
  }

  lemma TowardGoesOn(p: Parser, root: Fields, q: Path, i: nat)
    requires IsNode(root, q) && i < |q|
    ensures IsNode(root, q[..i]) && Descends(p, NodeAt(root, q[..i]).value, Toward(p, root, q)(q[..i]), q[i])
  {
    StepsDown(root, q, i);
    assert q[..i] + [q[i]] == q[..i + 1];
    TowardDescends(p, root, q, q[..i], q[i]);
  }

  lemma {:induction false} LeaningVisits(p: Parser, root: Fields, orders: Orders, q: Path, j: nat)
    requires IsNode(root, q) && j <= |q| && Leans(p, root, orders, q, j)
    ensures Visited(p, root, orders, q[..j])
  {
    if j > 0 {
      LeaningVisits(p, root, orders, q, j - 1);
      assert AsToward(p, root, orders, q, j - 1);
      LeansOn(p, root, orders, q, j - 1);
    }
  }

  lemma LeansOn(p: Parser, root: Fields, orders: Orders, q: Path, j: nat)
    requires IsNode(root, q) && j < |q| && Visited(p, root, orders, q[..j])
    requires AsToward(p, root, orders, q, j)
    ensures Visited(p, root, orders, q[..j + 1])
  {
    TowardGoesOn(p, root, q, j);
    VisitGoesOn(p, root, orders, q, j);
  }

  lemma VisitGoesOn(p: Parser, root: Fields, orders: Orders, q: Path, j: nat)
    requires j < |q| && Visited(p, root, orders, q[..j]) && IsNode(root, q[..j])
    requires Descends(p, NodeAt(root, q[..j]).value, orders(q[..j]), q[j])
    ensures Visited(p, root, orders, q[..j + 1])
  {
    assert q[..j + 1] == q[..j] + [q[j]];
    VisitedSnoc(p, root, orders, q[..j], q[j]);
  }

  lemma LeaningIsLast(p: Parser, root: Fields, orders: Orders, q: Path, j: nat)
    requires IsNode(root, q) && j <= |q| && Leans(p, root, orders, q, j)
    ensures LastAtItsDepth(p, root, orders, q[..j])
  {
    LeaningVisits(p, root, orders, q, j);
    forall x | Visited(p, root, orders, x) && |x| == j && x != q[..j] ensures Before(orders, x, q[..j]) {
      LeaningComesLast(p, root, orders, q, j, x);
    }
  }

  lemma LeaningComesLast(p: Parser, root: Fields, orders: Orders, q: Path, j: nat, x: Path)
    requires IsNode(root, q) && j <= |q| && Leans(p, root, orders, q, j)
    requires Visited(p, root, orders, x) && |x| == j && x != q[..j]
    ensures Before(orders, x, q[..j])
  {
    var i := WhereItParts(x, q, j);
    assert AsToward(p, root, orders, q, i);
    PartsWhereItLeans(p, root, orders, q, j, x, i);
  }

  lemma WhereItParts(x: Path, q: Path, j: nat) returns (i: nat)
    requires |x| == j <= |q| && x != q[..j]
    ensures i < j && x[..i] == q[..i] && x[i] != q[i]
  {
    i := FirstDifference(x, q[..j]);
    assert q[..j][..i] == q[..i] && q[..j][i] == q[i];
  }

  lemma PartsWhereItLeans(p: Parser, root: Fields, orders: Orders, q: Path, j: nat, x: Path, i: nat)
    requires IsNode(root, q) && i < j == |x| <= |q| && AsToward(p, root, orders, q, i)
    requires Visited(p, root, orders, x) && x[..i] == q[..i] && x[i] != q[i]
    ensures PartsFirst(orders, x, q[..j], i)
  {
    DescendsAt(p, root, orders, x, q, i);
    PartsBefore(p, root, orders, q, j, x, i);
  }

  lemma DescendsAt(p: Parser, root: Fields, orders: Orders, x: Path, q: Path, i: nat)
    requires Visited(p, root, orders, x) && i < |x| && i < |q| && x[..i] == q[..i]
    ensures IsNode(root, q[..i]) && Descends(p, NodeAt(root, q[..i]).value, orders(q[..i]), x[i])
  {
    PrefixIsVisited(p, root, orders, x, i);
  }

  lemma PartsBefore(p: Parser, root: Fields, orders: Orders, q: Path, j: nat, x: Path, i: nat)
    requires IsNode(root, q) && i < j == |x| <= |q| && x[..i] == q[..i] && x[i] != q[i]
    requires AsToward(p, root, orders, q, i) && IsNode(root, q[..i])
    requires Descends(p, NodeAt(root, q[..i]).value, orders(q[..i]), x[i])
    ensures PartsFirst(orders, x, q[..j], i)
  {
    assert q[..j][..i] == q[..i] && q[..j][i] == q[i];
    OthersComeBefore(p, root, q, i, x[i]);
  }

  lemma OthersComeBefore(p: Parser, root: Fields, q: Path, i: nat, k: string)
    requires IsNode(root, q) && i < |q| && k != q[i] && IsNode(root, q[..i])
    requires Descends(p, NodeAt(root, q[..i]).value, Toward(p, root, q)(q[..i]), k)
    ensures Precedes(Toward(p, root, q)(q[..i]), k, q[i])
  {
    StepsDown(root, q, i);
    TowardDescends(p, root, q, q[..i], k);
    NextStep(q[..i], q, k);
    TowardEndsIn(p, root, q, i);
    ComesBeforeTheEnd(NodeAt(root, q[..i]).value, q[i], k);
  }

  // So it is the last to write behind its path.
  lemma LastAtItsDepthWrites(p: Parser, root: Fields, orders: Orders, c: Path, child: Path)
    requires AreOrders(root, orders) && |child| == |c| + 1 && child[..|c|] == c && !NoRoom(|c|)
    requires LastAtItsDepth(p, root, orders, c) && Writes(p, root, orders, c)
    ensures KeyRead(p, root, orders, child) == LastKey(p, root, orders, c)
  {
    LastMeansLastWriter(p, root, orders, c);
    KeyReadIs(p, root, orders, child, c);
  }

  lemma LastMeansLastWriter(p: Parser, root: Fields, orders: Orders, c: Path)
    requires LastAtItsDepth(p, root, orders, c) && Writes(p, root, orders, c)
    ensures LastWriter(p, root, orders, c, c)
  {
  }

  lemma TakeTwice(q: Path, j: nat)
    requires j < |q|
    ensures q[..j + 1][..j] == q[..j]
  {
  }

  lemma LeaningReadsLast(p: Parser, root: Fields, orders: Orders, q: Path, j: nat)
    requires AreOrders(root, orders) && IsNode(root, q) && j < |q| && !NoRoom(j)
    requires Leans(p, root, orders, q, j) && Visited(p, root, orders, q[..j + 1])
    ensures KeyRead(p, root, orders, q[..j + 1]) == LastKey(p, root, orders, q[..j])
  {
    TakeTwice(q, j);
    LeaningIsLast(p, root, orders, q, j);
    ParentWrites(p, root, orders, q[..j + 1]);
    LastAtItsDepthWrites(p, root, orders, q[..j], q[..j + 1]);
  }

  lemma TowardEndsInNext(p: Parser, root: Fields, orders: Orders, q: Path, j: nat)
    requires IsNode(root, q) && j < |q| && AsToward(p, root, orders, q, j)
    ensures LastKey(p, root, orders, q[..j]) == q[j]
  {
    TowardGoesOn(p, root, q, j);
    StepsDown(root, q, j);
    var m := NodeAt(root, q[..j]).value;
    assert Leads(m, q[..j], q);
    if Recognised(p, m) {
      OnlyFirstHandled(p, m, q[j]);
    }
  }

  lemma OnlyFirstHandled(p: Parser, m: Fields, k: string)
    requires Recognised(p, m) && IsSub(m, k)
    ensures Handled(p, m, OnlyFirst(m, k)) == [k]
  {
    var o := OnlyFirst(m, k);
    forall j | j in Handled(p, m, o) ensures j == k {
      var i :| 0 <= i < FirstScalar(m, o) && o[..FirstScalar(m, o)][i] == j;
      assert o[i] == j && IsSub(m, j);
      OnlyFirstDescends(p, m, k, j);
    }
    OnlyFirstDescends(p, m, k, k);
    AtMostOne(Handled(p, m, o));
  }

  lemma LeaningReadsRight(p: Parser, root: Fields, orders: Orders, q: Path, j: nat)
    requires AreOrders(root, orders) && IsNode(root, q) && j < |q| && Leans(p, root, orders, q, j + 1)
    ensures KeyRead(p, root, orders, q[..j + 1]) == q[j]
  {
    if NoRoom(j) {
      assert q[..j + 1][..j] == q[..j];
    } else {
      LeaningVisits(p, root, orders, q, j + 1);
      LeaningReadsLast(p, root, orders, q, j);
      assert AsToward(p, root, orders, q, j);
      TowardEndsInNext(p, root, orders, q, j);
    }
  }

  lemma LeaningReadsPrefix(p: Parser, root: Fields, orders: Orders, q: Path, j: nat)
    requires AreOrders(root, orders) && IsNode(root, q) && j <= |q| && Leans(p, root, orders, q, j)
    ensures NameOf(p, root, orders, q)[..j] == q[..j]
  {
    forall l | 0 <= l < j ensures NameOf(p, root, orders, q)[l] == q[l] {
      LeaningReadsRight(p, root, orders, q, l);
      SegmentRead(p, root, orders, q, l);
    }
  }

  // The run toward a map reads its path right.
  lemma TowardReadsRight(p: Parser, root: Fields, q: Path)
    requires IsNode(root, q)
    ensures Visited(p, root, Toward(p, root, q), q) && NameOf(p, root, Toward(p, root, q), q) == q
  {
    var orders := Toward(p, root, q);
    LeaningVisits(p, root, orders, q, |q|);
    LeaningReadsPrefix(p, root, orders, q, |q|);
    assert q[..|q|] == q && NameOf(p, root, orders, q)[..|q|] == NameOf(p, root, orders, q);
  }

  // k, then the other sub-maps, then the scalars.
  ghost function FirstOfMany(m: Fields, k: string): (o: seq<string>)
    requires IsSub(m, k)
    ensures IsOrder(o, m) && o[0] == k
  {
    ListedJoin(SubKeys(m) - {k}, m.Keys - SubKeys(m));
    [k] + (LegacyOrder.Listed(SubKeys(m) - {k}) + LegacyOrder.Listed(m.Keys - SubKeys(m)))
  }

  lemma FirstOfManySubs(p: Parser, m: Fields, k: string)
    requires IsSub(m, k) && Recognised(p, m)
    ensures Handled(p, m, FirstOfMany(m, k)) == [k] + LegacyOrder.Listed(SubKeys(m) - {k})
  {
    var o, others := FirstOfMany(m, k), LegacyOrder.Listed(SubKeys(m) - {k});
    var scalar := FormatHasAScalar(p, m);
    var scalars := LegacyOrder.Listed(m.Keys - SubKeys(m));
    var n := 1 + |others|;
    assert scalar in scalars && scalars[0] in scalars && o[n] == scalars[0];
    assert o[..n] == [k] + others;
    assert forall i :: 0 <= i < |others| ==> others[i] in others;
    ScalarIsFirst(m, o, n);
  }

  lemma FirstIsNotLast(o: seq<string>, a: string, b: string)
    requires NoRepeats(o) && a in o && b in o && a != b
    ensures |o| >= 2 && o[0] != LastOr(o)
  {
    TwoInIt(o, a, b);
  }

  lemma FirstOfManyHandled(p: Parser, m: Fields, k: string)
    requires IsSub(m, k) && !CannotOverwrite(p, m)
    ensures Descends(p, m, FirstOfMany(m, k), k) && LastOr(Handled(p, m, FirstOfMany(m, k))) != k
  {
    var o, handled := FirstOfMany(m, k), Handled(p, m, FirstOfMany(m, k));
    var a, b := TwoKeys(p, m);
    if Recognised(p, m) {
      FirstOfManySubs(p, m, k);
    }
    FirstIsNotLast(handled, a, b);
    assert handled[0] == k;
  }

  lemma TwoKeys(p: Parser, m: Fields) returns (a: string, b: string)
    requires !CannotOverwrite(p, m)
    ensures a != b && a in m && b in m && (Recognised(p, m) ==> IsSub(m, a) && IsSub(m, b))
  {
    a, b :| a != b && a in m && b in m && (Recognised(p, m) ==> IsSub(m, a) && IsSub(m, b));
  }

  // Toward q, but at level j q's way is taken first.
  ghost function Straying(p: Parser, root: Fields, q: Path, j: nat): (orders: Orders)
    requires j < |q| && IsNode(root, q[..j]) && IsSub(NodeAt(root, q[..j]).value, q[j])
    ensures AreOrders(root, orders)
  {
    var orders := Toward(p, root, q);
    assert AreOrders(root, orders);
    path => if path == q[..j] then FirstOfMany(NodeAt(root, path).value, q[j]) else orders(path)
  }

  lemma {:induction false} Climb(visited: Path -> bool, q: Path, i: nat)
    requires i <= |q| && visited(q[..i]) && forall l :: i <= l < |q| ==> StepsUp(visited, q, l)
    ensures visited(q)
    decreases |q| - i
  {
    if i < |q| {
      assert StepsUp(visited, q, i);
      Climb(visited, q, i + 1);
    } else {
      assert q[..i] == q;
    }
  }

  predicate StepsUp(visited: Path -> bool, q: Path, l: nat)
    requires l < |q|
  {
    visited(q[..l]) ==> visited(q[..l + 1])
  }

  lemma BackToward(p: Parser, root: Fields, orders: Orders, q: Path, j: nat)
    requires IsNode(root, q) && j < |q| && Visited(p, root, orders, q[..j + 1])
    requires forall l :: j < l < |q| ==> AsToward(p, root, orders, q, l)
    ensures Visited(p, root, orders, q)
  {
    var visited := x => Visited(p, root, orders, x);
    forall l | j + 1 <= l < |q| ensures StepsUp(visited, q, l) {
      assert AsToward(p, root, orders, q, l);
      LeanUp(p, root, orders, q, l);
    }
    Climb(visited, q, j + 1);
  }

  lemma LeanUp(p: Parser, root: Fields, orders: Orders, q: Path, l: nat)
    requires IsNode(root, q) && l < |q| && AsToward(p, root, orders, q, l)
    ensures StepsUp(x => Visited(p, root, orders, x), q, l)
  {
    if Visited(p, root, orders, q[..l]) {
      LeansOn(p, root, orders, q, l);
    }
  }

  // Where a map may be overwritten, straying there misreads a path below it.
  lemma StrayingReadsWrong(p: Parser, root: Fields, q: Path, j: nat) returns (orders: Orders)
    requires IsNode(root, q) && j < |q| && MayOverwrite(p, root, q[..j])
    ensures AreOrders(root, orders) && Visited(p, root, orders, q) && NameOf(p, root, orders, q) != q
    ensures NameOf(p, root, orders, q)[..j] == q[..j]
  {
    StepsDown(root, q, j);
    orders := Straying(p, root, q, j);
    forall i | 0 <= i <= |q| && i != j ensures AsToward(p, root, orders, q, i) {
      assert |q[..i]| != |q[..j]|;
    }
    LeaningVisits(p, root, orders, q, j);
    FirstOfManyHandled(p, NodeAt(root, q[..j]).value, q[j]);
    VisitGoesOn(p, root, orders, q, j);
    BackToward(p, root, orders, q, j);
    LeaningReadsLast(p, root, orders, q, j);
    SegmentRead(p, root, orders, q, j);
    LeaningReadsPrefix(p, root, orders, q, j);
  }

  // Every order reads the right path for every map that emits, exactly when no map
  // that may overwrite a child's path has metrics below it.
  lemma MetricsReadRightExactlyWhen(p: Parser, root: Fields)
    ensures (forall orders: Orders, q :: AreOrders(root, orders) && Visited(p, root, orders, q) && Emits(p, root, q) ==>
               NameOf(p, root, orders, q) == q)
            <==> NothingOverwritten(p, root)
  {
    if NothingOverwritten(p, root) {
      forall orders: Orders, q | AreOrders(root, orders) && Visited(p, root, orders, q) && Emits(p, root, q)
        ensures NameOf(p, root, orders, q) == q
      {
        SafeReadsRight(p, root, orders, q);
      }
    } else {
      var q, j :| Emits(p, root, q) && 0 <= j < |q| && MayOverwrite(p, root, q[..j]);
      var orders := StrayingReadsWrong(p, root, q, j);
    }
  }
}
