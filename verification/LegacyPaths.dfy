// What the paths of the worklist read, which share arrays
// (src/fullerite/dropwizard/legacy_metric.go:98-127, 192-195).
module LegacyPaths {
  import opened Metrics
  import opened Dropwizard
  import opened GoSlices
  import opened LegacyMetric
  import opened LegacyRun

  // ---- Which paths share an array ----

  // How much of a path of length n was there when its array was made: an append
  // makes a new array exactly when the path before it had no room left.
  ghost function Anchor(n: nat): (a: nat)
    ensures a <= n
  {
    if n == 0 then 0 else if NoRoom(n - 1) then n else Anchor(n - 1)
  }

  // The path an array was made for names the array.
  ghost function ArrayOf(path: Path): Path {
    path[..Anchor(|path|)]
  }

  ghost predicate Shares(c: Path, x: Path) {
    |c| == |x| && ArrayOf(c) == ArrayOf(x)
  }

  lemma ArrayOfChild(c: Path, k: string)
    ensures ArrayOf(c + [k]) == if NoRoom(|c|) then c + [k] else ArrayOf(c)
  {
  }

  // ---- What a path reads when its map is visited ----

  function LastOr(keys: seq<string>): string {
    if keys == [] then "" else keys[|keys| - 1]
  }

  // A visit that appends anything leaves its last key behind its path.
  ghost predicate Writes(p: Parser, root: Fields, orders: Orders, x: Path) {
    Visited(p, root, orders, x) && NodeAt(root, x).Some? && Handled(p, NodeAt(root, x).value, orders(x)) != []
  }

  ghost function LastKey(p: Parser, root: Fields, orders: Orders, x: Path): string {
    if NodeAt(root, x).Some? then LastOr(Handled(p, NodeAt(root, x).value, orders(x))) else ""
  }

  // The last visit to write behind c, which may be that of another map.
  ghost predicate LastWriter(p: Parser, root: Fields, orders: Orders, c: Path, w: Path) {
    && Shares(c, w) && Writes(p, root, orders, w)
    && forall x :: Shares(c, x) && Writes(p, root, orders, x) && x != w ==> Before(orders, x, w)
  }

  // The last segment of a path: its own while its parent's path had no room left,
  // and otherwise the last one written there.
  ghost function KeyRead(p: Parser, root: Fields, orders: Orders, path: Path): string
    requires path != []
  {
    var parent := path[..|path| - 1];
    if NoRoom(|parent|) then path[|path| - 1]
    else if exists w :: LastWriter(p, root, orders, parent, w) then
      var w :| LastWriter(p, root, orders, parent, w);
      LastKey(p, root, orders, w)
    else ""
  }

  // The segments a path reads as, in place of the keys that lead to its map.
  ghost function NameOf(p: Parser, root: Fields, orders: Orders, path: Path): (name: Path)
    ensures |name| == |path|
    decreases |path|
  {
    if path == [] then []
    else NameOf(p, root, orders, path[..|path| - 1]) + [KeyRead(p, root, orders, path)]
  }

  lemma OneLastWriter(p: Parser, root: Fields, orders: Orders, c: Path, v: Path, w: Path)
    requires AreOrders(root, orders)
    requires LastWriter(p, root, orders, c, v) && LastWriter(p, root, orders, c, w)
    ensures v == w
  {
    if v != w {
      BeforeOneWay(root, orders, v, w);
    }
  }

  lemma SomeLastWriter(p: Parser, root: Fields, orders: Orders, c: Path) returns (w: Path)
    requires AreOrders(root, orders) && Writes(p, root, orders, c)
    ensures LastWriter(p, root, orders, c, w)
  {
    var s := set x | x in AllPaths(Object(root)) && Shares(c, x) && Writes(p, root, orders, x);
    forall x | Shares(c, x) && Writes(p, root, orders, x) ensures x in s {
      VisitedIsNode(p, root, orders, x);
    }
    assert c in s;
    w := LastOf(p, root, orders, s);
  }

  lemma KeyReadIs(p: Parser, root: Fields, orders: Orders, path: Path, w: Path)
    requires AreOrders(root, orders) && path != [] && !NoRoom(|path| - 1)
    requires LastWriter(p, root, orders, path[..|path| - 1], w)
    ensures KeyRead(p, root, orders, path) == LastKey(p, root, orders, w)
  {
    var parent := path[..|path| - 1];
    var v :| LastWriter(p, root, orders, parent, v) && KeyRead(p, root, orders, path) == LastKey(p, root, orders, v);
    OneLastWriter(p, root, orders, parent, v, w);
  }

  // ---- The queue's slices, and what they read ----

  // A slice, with its text at some moment.
  datatype Snap = Snap(data: array<string>, len: nat, text: Path)

  // The last of some maps to have written behind c.
  ghost predicate LastWriterIn(p: Parser, root: Fields, orders: Orders, done: set<Path>, c: Path, w: Path) {
    && w in done && Shares(c, w) && Writes(p, root, orders, w)
    && forall x :: x in done && Shares(c, x) && Writes(p, root, orders, x) && x != w ==> Before(orders, x, w)
  }

  // What the slice for a queued path reads when the maps in done have been visited.
  ghost predicate TextOk(p: Parser, root: Fields, orders: Orders, done: set<Path>, path: Path, text: Path) {
    && |text| == |path|
    && (path != [] ==>
          var c := path[..|path| - 1];
          && text[..|c|] == NameOf(p, root, orders, c)
          && if NoRoom(|c|) then text[|c|] == path[|c|]
             else forall w :: LastWriterIn(p, root, orders, done, c, w) ==> text[|c|] == LastKey(p, root, orders, w))
  }

  // Slices share an array exactly when their paths say so.
  ghost predicate SameArrays(snaps: seq<Snap>, paths: seq<Path>) {
    && |snaps| == |paths|
    && (forall i :: 0 <= i < |snaps| ==> snaps[i].len == |paths[i]|)
    && forall i, j :: 0 <= i < |snaps| && 0 <= j < |snaps| ==>
         (snaps[i].data == snaps[j].data <==> ArrayOf(paths[i]) == ArrayOf(paths[j]))
  }

  ghost predicate ReadsOk(p: Parser, root: Fields, orders: Orders, done: set<Path>, snaps: seq<Snap>,
                          paths: seq<Path>) {
    && SameArrays(snaps, paths)
    && forall i :: 0 <= i < |snaps| ==> TextOk(p, root, orders, done, paths[i], snaps[i].text)
  }

  // What a visit of the head does to the text of another slice in the queue: it
  // writes behind the head's path, if it writes at all.
  ghost predicate MovedOne(head: Snap, was: Snap, now: Snap, wrote: bool, last: string) {
    && now.data == was.data && now.len == was.len
    && (was.data != head.data || was.len <= head.len ==> now.text == was.text)
    && (was.data == head.data && was.len == head.len + 1 ==>
          |was.text| == was.len && now.text == if wrote then was.text[..head.len] + [last] else was.text)
  }

  ghost predicate Moved(was: seq<Snap>, now: seq<Snap>, wrote: bool, last: string) {
    |was| == |now| + 1 && forall i :: 0 <= i < |now| ==> MovedOne(was[0], was[i + 1], now[i], wrote, last)
  }

  // The children of that visit.
  ghost predicate Born(was: seq<Snap>, kids: seq<Snap>, room: bool, last: string, subs: seq<string>) {
    && was != [] && |kids| == |subs|
    && (forall i :: 0 <= i < |kids| ==>
          kids[i].len == was[0].len + 1 && kids[i].text == was[0].text + [if room then last else subs[i]])
    && (room ==> forall i :: 0 <= i < |kids| ==> kids[i].data == was[0].data)
    && (!room ==> forall i, j :: 0 <= i < |kids| && 0 <= j < |was| ==> kids[i].data != was[j].data)
    && (!room ==> forall i, j :: 0 <= i < j < |kids| ==> kids[i].data != kids[j].data)
  }

  function KidPaths(path: Path, subs: seq<string>): (r: seq<Path>)
    ensures |r| == |subs|
  {
    seq(|subs|, i requires 0 <= i < |subs| => path + [subs[i]])
  }

  // ---- One visit ----

  // head is the next map to be visited after those in done.
  ghost predicate IsNext(p: Parser, root: Fields, orders: Orders, done: set<Path>, head: Path) {
    && AreOrders(root, orders) && head !in done && Visited(p, root, orders, head) && NodeAt(root, head).Some?
    && forall q :: q in done ==> Before(orders, q, head) && NodeAt(root, q).Some?
  }

  lemma HeadWritesLast(p: Parser, root: Fields, orders: Orders, done: set<Path>, head: Path, c: Path, w: Path)
    requires IsNext(p, root, orders, done, head) && Shares(c, head) && Writes(p, root, orders, head)
    requires LastWriterIn(p, root, orders, done + {head}, c, w)
    ensures w == head
  {
    if w != head {
      BeforeOneWay(root, orders, w, head);
    }
  }

  lemma OthersWriteAsBefore(p: Parser, root: Fields, orders: Orders, done: set<Path>, head: Path, c: Path, w: Path)
    requires LastWriterIn(p, root, orders, done + {head}, c, w)
    requires !(Shares(c, head) && Writes(p, root, orders, head))
    ensures LastWriterIn(p, root, orders, done, c, w)
  {
  }

  lemma SharesWithHead(path: Path, h: Path)
    requires path != [] && |path| == |h| + 1
    ensures NoRoom(|h|) ==> ArrayOf(path) != ArrayOf(h)
    ensures !NoRoom(|h|) ==> (ArrayOf(path) == ArrayOf(h) <==> Shares(path[..|h|], h))
  {
    assert path == path[..|h|] + [path[|h|]];
    ArrayOfChild(path[..|h|], path[|h|]);
  }

  lemma TextStays(p: Parser, root: Fields, orders: Orders, done: set<Path>, h: Path, path: Path, text: Path)
    requires IsNext(p, root, orders, done, h) && TextOk(p, root, orders, done, path, text)
    requires path != [] && !NoRoom(|path| - 1) ==> !(Shares(path[..|path| - 1], h) && Writes(p, root, orders, h))
    ensures TextOk(p, root, orders, done + {h}, path, text)
  {
    if path != [] && !NoRoom(|path| - 1) {
      var c := path[..|path| - 1];
      forall w | LastWriterIn(p, root, orders, done + {h}, c, w) ensures text[|c|] == LastKey(p, root, orders, w) {
        OthersWriteAsBefore(p, root, orders, done, h, c, w);
      }
    }
  }

  lemma TextWritten(p: Parser, root: Fields, orders: Orders, done: set<Path>, h: Path, path: Path, text: Path)
    requires IsNext(p, root, orders, done, h) && TextOk(p, root, orders, done, path, text)
    requires path != [] && |path| == |h| + 1 && !NoRoom(|h|) && Shares(path[..|h|], h) && Writes(p, root, orders, h)
    ensures TextOk(p, root, orders, done + {h}, path, text[..|h|] + [LastKey(p, root, orders, h)])
  {
    forall w | LastWriterIn(p, root, orders, done + {h}, path[..|h|], w) ensures w == h {
      HeadWritesLast(p, root, orders, done, h, path[..|h|], w);
    }
  }

  // The text of another queued slice, behind whose path the head may have written.
  lemma TextMoves(p: Parser, root: Fields, orders: Orders, done: set<Path>, head: Snap, h: Path, path: Path, was: Snap,
                  now: Snap)
    requires IsNext(p, root, orders, done, h) && TextOk(p, root, orders, done, path, was.text)
    requires head.len == |h| && was.len == |path| <= |h| + 1
    requires was.data == head.data <==> ArrayOf(path) == ArrayOf(h)
    requires MovedOne(head, was, now, Writes(p, root, orders, h), LastKey(p, root, orders, h))
    ensures TextOk(p, root, orders, done + {h}, path, now.text)
  {
    if path != [] && |path| == |h| + 1 {
      SharesWithHead(path, h);
    }
    if path != [] && |path| == |h| + 1 && was.data == head.data && Writes(p, root, orders, h) {
      TextWritten(p, root, orders, done, h, path, was.text);
    } else {
      TextStays(p, root, orders, done, h, path, was.text);
    }
  }

  lemma ChildText(p: Parser, root: Fields, orders: Orders, done: set<Path>, h: Path, k: string, text: Path)
    requires IsNext(p, root, orders, done, h) && Writes(p, root, orders, h)
    requires text == NameOf(p, root, orders, h) + [if NoRoom(|h|) then k else LastKey(p, root, orders, h)]
    ensures TextOk(p, root, orders, done + {h}, h + [k], text)
  {
    assert (h + [k])[..|h|] == h;
    forall w | LastWriterIn(p, root, orders, done + {h}, h, w) ensures w == h {
      HeadWritesLast(p, root, orders, done, h, h, w);
    }
  }

  lemma LastSegmentRead(p: Parser, root: Fields, orders: Orders, done: set<Path>, h: Path, text: Path, w: Path)
    requires AreOrders(root, orders) && h != [] && TextOk(p, root, orders, done, h, text)
    requires !NoRoom(|h| - 1) ==> LastWriter(p, root, orders, h[..|h| - 1], w) && w in done
    ensures text[|h| - 1] == KeyRead(p, root, orders, h)
  {
    if !NoRoom(|h| - 1) {
      KeyReadIs(p, root, orders, h, w);
      LastWriterIsIn(p, root, orders, done, h[..|h| - 1], w);
    }
  }

  ghost predicate WritersDone(p: Parser, root: Fields, orders: Orders, done: set<Path>, depth: nat) {
    forall y :: Writes(p, root, orders, y) && |y| < depth ==> y in done
  }

  lemma DoneWriter(p: Parser, root: Fields, orders: Orders, done: set<Path>, c: Path) returns (w: Path)
    requires AreOrders(root, orders) && Writes(p, root, orders, c) && WritersDone(p, root, orders, done, |c| + 1)
    ensures LastWriter(p, root, orders, c, w) && w in done
  {
    w := SomeLastWriter(p, root, orders, c);
  }

  lemma NameOfStep(p: Parser, root: Fields, orders: Orders, path: Path, text: Path)
    requires path != [] && |text| == |path| && text[..|path| - 1] == NameOf(p, root, orders, path[..|path| - 1])
    requires text[|path| - 1] == KeyRead(p, root, orders, path)
    ensures text == NameOf(p, root, orders, path)
  {
    assert text == text[..|path| - 1] + [text[|path| - 1]];
  }

  // By the time a map is visited everything above it has been, so its slice reads
  // its name.
  lemma HeadReadsItsName(p: Parser, root: Fields, orders: Orders, done: set<Path>, h: Path, text: Path)
    requires AreOrders(root, orders) && TextOk(p, root, orders, done, h, text)
    requires WritersDone(p, root, orders, done, |h|)
    requires h != [] ==> Writes(p, root, orders, h[..|h| - 1])
    ensures text == NameOf(p, root, orders, h)
  {
    if h != [] {
      var w := DoneWriter(p, root, orders, done, h[..|h| - 1]);
      LastSegmentRead(p, root, orders, done, h, text, w);
      NameOfStep(p, root, orders, h, text);
    }
  }

  lemma LastWriterIsIn(p: Parser, root: Fields, orders: Orders, done: set<Path>, c: Path, w: Path)
    requires LastWriter(p, root, orders, c, w) && w in done
    ensures LastWriterIn(p, root, orders, done, c, w)
  {
  }

  lemma ArraysAfter(was: seq<Snap>, paths: seq<Path>, now: seq<Snap>, kids: seq<Snap>, wrote: bool, last: string,
                    subs: seq<string>)
    requires was != [] && SameArrays(was, paths) && Moved(was, now, wrote, last)
    requires Born(was, kids, !NoRoom(|paths[0]|), last, subs) && NoRepeats(subs)
    requires forall i, j :: 0 <= i < |subs| && 0 <= j < |paths| ==> paths[j] != paths[0] + [subs[i]]
    requires forall j :: 0 <= j < |paths| ==> |paths[j]| <= |paths[0]| + 1
    ensures SameArrays(now + kids, paths[1..] + KidPaths(paths[0], subs))
  {
    var h, snaps, paths' := paths[0], now + kids, paths[1..] + KidPaths(paths[0], subs);
    forall i | 0 <= i < |kids| ensures ArrayOf(h + [subs[i]]) == if NoRoom(|h|) then h + [subs[i]] else ArrayOf(h) {
      ArrayOfChild(h, subs[i]);
    }
    forall i, j | 0 <= i < |snaps| && 0 <= j < |snaps|
      ensures SharedBy(snaps[i], paths'[i], snaps[j], paths'[j])
    {
      ArraysPair(was, paths, now, kids, wrote, last, subs, i, j);
      ArraysPair(was, paths, now, kids, wrote, last, subs, j, i);
    }
  }

  // A path no longer than another is not the one that array was made for.
  lemma ArrayIsNoLonger(x: Path, y: Path)
    requires |x| <= |y| && x != y
    ensures ArrayOf(x) != y
  {
    if |x| == |ArrayOf(x)| {
      assert ArrayOf(x) == x;
    }
  }

  lemma TwoKids(h: Path, a: string, b: string)
    requires a != b
    ensures h + [a] != h + [b]
  {
    assert (h + [a])[|h|] != (h + [b])[|h|];
  }

  ghost predicate SharedBy(a: Snap, x: Path, b: Snap, y: Path) {
    a.data == b.data <==> ArrayOf(x) == ArrayOf(y)
  }

  lemma OldAndKid(was: seq<Snap>, paths: seq<Path>, i: nat, kid: Snap, path: Path)
    requires SameArrays(was, paths) && 0 < i < |was| && |paths[i]| <= |path| == |paths[0]| + 1 && paths[i] != path
    requires ArrayOf(path) == if NoRoom(|paths[0]|) then path else ArrayOf(paths[0])
    requires if NoRoom(|paths[0]|) then kid.data != was[i].data else kid.data == was[0].data
    ensures SharedBy(was[i], paths[i], kid, path)
  {
    ArrayIsNoLonger(paths[i], path);
  }

  // Two slices of the new queue, when the second is no older than the first.
  lemma ArraysPair(was: seq<Snap>, paths: seq<Path>, now: seq<Snap>, kids: seq<Snap>, wrote: bool, last: string,
                   subs: seq<string>, i: nat, j: nat)
    requires was != [] && SameArrays(was, paths) && Moved(was, now, wrote, last)
    requires Born(was, kids, !NoRoom(|paths[0]|), last, subs) && NoRepeats(subs)
    requires forall i, j :: 0 <= i < |subs| && 0 <= j < |paths| ==> paths[j] != paths[0] + [subs[i]]
    requires forall j :: 0 <= j < |paths| ==> |paths[j]| <= |paths[0]| + 1
    requires forall i :: 0 <= i < |kids| ==>
               ArrayOf(paths[0] + [subs[i]]) == if NoRoom(|paths[0]|) then paths[0] + [subs[i]] else ArrayOf(paths[0])
    requires i < |now + kids| && j < |now + kids|
    ensures var snaps, paths' := now + kids, paths[1..] + KidPaths(paths[0], subs);
            i <= j ==> SharedBy(snaps[i], paths'[i], snaps[j], paths'[j])
  {
    var h, n := paths[0], |now|;
    if i <= j < n {
      assert now[i].data == was[i + 1].data && now[j].data == was[j + 1].data;
    } else if i < n <= j {
      OldAndKid(was, paths, i + 1, kids[j - n], h + [subs[j - n]]);
    } else if n <= i < j {
      TwoKids(h, subs[i - n], subs[j - n]);
    }
  }

  lemma TextsAfter(p: Parser, root: Fields, orders: Orders, done: set<Path>, paths: seq<Path>,
                   was: seq<Snap>, now: seq<Snap>, kids: seq<Snap>, subs: seq<string>)
    requires was != [] && ReadsOk(p, root, orders, done, was, paths) && IsNext(p, root, orders, done, paths[0])
    requires was[0].text == NameOf(p, root, orders, paths[0])
    requires forall j :: 0 <= j < |paths| ==> |paths[j]| <= |paths[0]| + 1
    requires Moved(was, now, Writes(p, root, orders, paths[0]), LastKey(p, root, orders, paths[0]))
    requires Born(was, kids, !NoRoom(|paths[0]|), LastKey(p, root, orders, paths[0]), subs)
    requires subs != [] ==> Writes(p, root, orders, paths[0])
    ensures forall i :: 0 <= i < |now| ==> TextOk(p, root, orders, done + {paths[0]}, paths[i + 1], now[i].text)
    ensures forall i :: 0 <= i < |kids| ==>
              TextOk(p, root, orders, done + {paths[0]}, paths[0] + [subs[i]], kids[i].text)
  {
    forall i | 0 <= i < |now| ensures TextOk(p, root, orders, done + {paths[0]}, paths[i + 1], now[i].text) {
      TextMoves(p, root, orders, done, was[0], paths[0], paths[i + 1], was[i + 1], now[i]);
    }
    forall i | 0 <= i < |kids| ensures TextOk(p, root, orders, done + {paths[0]}, paths[0] + [subs[i]], kids[i].text) {
      ChildText(p, root, orders, done, paths[0], subs[i], kids[i].text);
    }
  }

  // After the visit of the head the new queue's slices read what they should.
  lemma StepReads(p: Parser, root: Fields, orders: Orders, done: set<Path>, paths: seq<Path>,
                  was: seq<Snap>, now: seq<Snap>, kids: seq<Snap>, subs: seq<string>)
    requires was != [] && ReadsOk(p, root, orders, done, was, paths) && IsNext(p, root, orders, done, paths[0])
    requires was[0].text == NameOf(p, root, orders, paths[0]) && NoRepeats(subs)
    requires forall j :: 0 <= j < |paths| ==> |paths[j]| <= |paths[0]| + 1
    requires forall i, j :: 0 <= i < |subs| && 0 <= j < |paths| ==> paths[j] != paths[0] + [subs[i]]
    requires Moved(was, now, Writes(p, root, orders, paths[0]), LastKey(p, root, orders, paths[0]))
    requires Born(was, kids, !NoRoom(|paths[0]|), LastKey(p, root, orders, paths[0]), subs)
    requires subs != [] ==> Writes(p, root, orders, paths[0])
    ensures ReadsOk(p, root, orders, done + {paths[0]}, now + kids, paths[1..] + KidPaths(paths[0], subs))
  {
    ArraysAfter(was, paths, now, kids, Writes(p, root, orders, paths[0]), LastKey(p, root, orders, paths[0]), subs);
    TextsAfter(p, root, orders, done, paths, was, now, kids, subs);
    BothOk((path, text) => TextOk(p, root, orders, done + {paths[0]}, path, text), paths, now, kids, subs);
  }

  // What holds of the old slices and of the new ones holds of them all.
  lemma BothOk(ok: (Path, Path) -> bool, paths: seq<Path>, now: seq<Snap>, kids: seq<Snap>, subs: seq<string>)
    requires |paths| == |now| + 1 && |kids| == |subs|
    requires forall i :: 0 <= i < |now| ==> ok(paths[i + 1], now[i].text)
    requires forall i :: 0 <= i < |kids| ==> ok(paths[0] + [subs[i]], kids[i].text)
    ensures forall i :: 0 <= i < |now + kids| ==> ok((paths[1..] + KidPaths(paths[0], subs))[i], (now + kids)[i].text)
  {
  }

  // ---- What a run returns ----

  // What a visited map emits, under the name its slice reads.
  ghost function EmissionRead(p: Parser, root: Fields, orders: Orders, at: Place): Option<Metric> {
    if Visited(p, root, orders, at.0) && NodeAt(root, at.0).Some? then
      var ms := NodeMetrics(p, NodeAt(root, at.0).value, NameOf(p, root, orders, at.0));
      if at.1 in ms then Some(ms[at.1]) else None
    else None
  }

  ghost function FinalRead(p: Parser, root: Fields, orders: Orders, at: Place): Option<Metric> {
    WithDimsIfAny(EmissionRead(p, root, orders, at), Added(ServiceOf(p, root, orders)))
  }
}
