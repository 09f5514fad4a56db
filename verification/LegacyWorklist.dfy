// The worklist over a whole document (src/fullerite/dropwizard/legacy_metric.go:80-135).
module LegacyWorklist {
  import opened Metrics
  import opened Dropwizard
  import opened BaseParser
  import opened GoSlices
  import opened LegacyMetric
  import opened LegacyRun
  import opened LegacyPaths

  // A map in the queue, and the keys that really lead to it.
  datatype Item = Item(path: Path, m: Fields)

  // nestedMetricMap. Its names come from segments alone; at only says which visit
  // this is, for the order in which the map is ranged over.
  datatype Node = Node(segments: Slice, m: Fields, at: Path)

  ghost function PathsOf(queue: seq<Item>): set<Path> {
    set x <- queue :: x.path
  }

  function PathList(queue: seq<Item>): (r: seq<Path>)
    ensures |r| == |queue|
  {
    seq(|queue|, i requires 0 <= i < |queue| => queue[i].path)
  }

  lemma VisitedSnoc(p: Parser, root: Fields, orders: Orders, path: Path, k: string)
    requires Visited(p, root, orders, path) && NodeAt(root, path).Some?
    ensures Visited(p, root, orders, path + [k]) <==> Descends(p, NodeAt(root, path).value, orders(path), k)
  {
    assert (path + [k])[..|path|] == path;
  }

  // ---- What the worklist keeps ----

  ghost predicate ItemOk(p: Parser, root: Fields, orders: Orders, x: Item) {
    Visited(p, root, orders, x.path) && NodeAt(root, x.path) == Some(x.m)
  }

  // Breadth first: the queue is in the order in which its maps were pushed.
  ghost predicate Queued(orders: Orders, queue: seq<Item>) {
    && (forall i, j :: 0 <= i < j < |queue| ==> queue[i].path != queue[j].path)
    && (forall i, j :: 0 <= i < j < |queue| ==> Before(orders, queue[i].path, queue[j].path))
  }

  // The maps done with and those pending: closed under parents, and every
  // visited child of a map done with is one of them.
  ghost predicate Frontier(visited: Path -> bool, pending: set<Path>, done: set<Path>) {
    && pending !! done && [] in done + pending
    && (forall q <- done :: visited(q))
    && (forall path, k :: path + [k] in done || path + [k] in pending ==> path in done)
    && (forall path, k :: path in done && visited(path + [k]) ==> path + [k] in done || path + [k] in pending)
  }

  // Everything done with was pushed before what is left.
  ghost predicate Earlier(orders: Orders, done: set<Path>, queue: seq<Item>) {
    forall q, i :: q in done && 0 <= i < |queue| ==> Before(orders, q, queue[i].path)
  }

  function Child(path: Path, m: Fields, k: string): Item {
    Item(path + [k], if IsSub(m, k) then m[k].fields else map[])
  }

  function Children(path: Path, m: Fields, pushed: seq<string>): (c: seq<Item>)
    ensures |c| == |pushed|
  {
    seq(|pushed|, i requires 0 <= i < |pushed| => Child(path, m, pushed[i]))
  }

  ghost function Below(path: Path, pushed: seq<string>): set<Path> {
    set k <- pushed :: path + [k]
  }

  // The keys a visit pushes, and how they stand in the order.
  function PushedBy(p: Parser, m: Fields, o: seq<string>): seq<string> {
    Subs(m, Handled(p, m, o))
  }

  ghost predicate InOrder(o: seq<string>, keys: seq<string>) {
    forall i, j :: 0 <= i < j < |keys| ==> Precedes(o, keys[i], keys[j])
  }

  lemma {:induction false} SubsInOrder(m: Fields, o: seq<string>, n: nat)
    requires n <= |o|
    ensures forall k :: k in Subs(m, o[..n]) <==> k in o[..n] && IsSub(m, k)
    ensures InOrder(o, Subs(m, o[..n]))
  {
    if n > 0 {
      var before, k := o[..n - 1], o[n - 1];
      assert o[..n][..n - 1] == before && o[..n] == before + [k];
      SubsInOrder(m, o, n - 1);
      forall s | s in Subs(m, before) ensures Precedes(o, s, k) {
        var i :| 0 <= i < n - 1 && before[i] == s;
        assert o[i] == s && o[n - 1] == k;
      }
    }
  }

  lemma PushedByIs(p: Parser, m: Fields, o: seq<string>)
    requires IsOrder(o, m)
    ensures forall k :: k in PushedBy(p, m, o) <==> Descends(p, m, o, k)
    ensures InOrder(o, PushedBy(p, m, o)) && NoRepeats(PushedBy(p, m, o))
  {
    assert o[..|o|] == o;
    var pushed := PushedBy(p, m, o);
    SubsInOrder(m, o, if Recognised(p, m) then FirstScalar(m, o) else |o|);
    forall i, j | 0 <= i < j < |pushed| ensures pushed[i] != pushed[j] {
      PrecedesOneWay(o, pushed[i], pushed[j]);
    }
  }

  lemma StepChildren(p: Parser, root: Fields, orders: Orders, head: Item, pushed: seq<string>)
    requires ItemOk(p, root, orders, head)
    requires forall k :: k in pushed <==> Descends(p, head.m, orders(head.path), k)
    ensures forall i :: 0 <= i < |pushed| ==> ItemOk(p, root, orders, Children(head.path, head.m, pushed)[i])
  {
    forall i | 0 <= i < |pushed| ensures ItemOk(p, root, orders, Child(head.path, head.m, pushed[i])) {
      assert pushed[i] in pushed;
      VisitedSnoc(p, root, orders, head.path, pushed[i]);
      NodeAtSnoc(root, head.path, pushed[i]);
    }
  }

  // A new child is pushed after everything known so far: those no deeper than its
  // parent, and the children of maps that were pushed before that parent.
  lemma ChildIsLast(orders: Orders, x: Path, head: Path, k: string)
    requires |x| <= |head| || (x != [] && |x| == |head| + 1 && Before(orders, x[..|x| - 1], head))
    ensures Before(orders, x, head + [k])
  {
    if |x| > |head| {
      var parent, child := x[..|x| - 1], head + [k];
      var i: nat :| PartsFirst(orders, parent, head, i);
      assert x[..i] == parent[..i] && child[..i] == head[..i];
      assert PartsFirst(orders, x, child, i);
    }
  }

  // The queued maps satisfy that.
  lemma QueuedIsNear(visited: Path -> bool, orders: Orders, queue: seq<Item>, done: set<Path>, i: nat)
    requires 0 < i < |queue| && Queued(orders, queue) && Earlier(orders, done, queue)
    requires Frontier(visited, PathsOf(queue), done)
    ensures var x, head := queue[i].path, queue[0].path;
            |x| <= |head| || (x != [] && |x| == |head| + 1 && Before(orders, x[..|x| - 1], head))
  {
    var x, head := queue[i].path, queue[0].path;
    if |x| > |head| {
      var parent := x[..|x| - 1];
      assert x == parent + [x[|x| - 1]] && queue[i] in queue && x in PathsOf(queue);
      assert parent in done;
      assert Before(orders, parent, head);
    }
  }

  lemma KnownIsBeforeChild(visited: Path -> bool, orders: Orders, queue: seq<Item>, done: set<Path>, x: Path, k: string)
    requires queue != [] && Queued(orders, queue) && Earlier(orders, done, queue)
    requires Frontier(visited, PathsOf(queue), done) && x in done + PathsOf(queue)
    ensures Before(orders, x, queue[0].path + [k])
  {
    var head := queue[0].path;
    if x in done {
      assert Before(orders, x, head);
    } else {
      var i :| 0 <= i < |queue| && queue[i].path == x;
      if i > 0 {
        QueuedIsNear(visited, orders, queue, done, i);
      }
    }
    ChildIsLast(orders, x, head, k);
  }

  lemma SiblingsInOrder(orders: Orders, head: Path, a: string, b: string)
    requires Precedes(orders(head), a, b)
    ensures Before(orders, head + [a], head + [b])
  {
    var x, y := head + [a], head + [b];
    assert x[..|head|] == head == y[..|head|];
    assert PartsFirst(orders, x, y, |head|);
  }

  ghost predicate InTurn(orders: Orders, a: Item, b: Item) {
    a.path != b.path && Before(orders, a.path, b.path)
  }

  lemma OldThenNew(visited: Path -> bool, orders: Orders, queue: seq<Item>, done: set<Path>, pushed: seq<string>,
                   i: nat, k: string)
    requires 0 < i < |queue| && Queued(orders, queue) && Earlier(orders, done, queue)
    requires Frontier(visited, PathsOf(queue), done)
    requires k in pushed && Below(queue[0].path, pushed) !! PathsOf(queue)
    ensures InTurn(orders, queue[i], Child(queue[0].path, queue[0].m, k))
  {
    assert queue[i] in queue && queue[i].path in PathsOf(queue);
    assert queue[0].path + [k] in Below(queue[0].path, pushed);
    KnownIsBeforeChild(visited, orders, queue, done, queue[i].path, k);
  }

  lemma NewInTurn(orders: Orders, head: Item, a: string, b: string)
    requires Precedes(orders(head.path), a, b) && a != b
    ensures InTurn(orders, Child(head.path, head.m, a), Child(head.path, head.m, b))
  {
    SiblingsInOrder(orders, head.path, a, b);
    assert (head.path + [a])[|head.path|] == a && (head.path + [b])[|head.path|] == b;
  }

  lemma StepQueued(visited: Path -> bool, orders: Orders, queue: seq<Item>, done: set<Path>, pushed: seq<string>)
    requires queue != [] && Queued(orders, queue) && Earlier(orders, done, queue)
    requires Frontier(visited, PathsOf(queue), done)
    requires InOrder(orders(queue[0].path), pushed) && NoRepeats(pushed) &&
             Below(queue[0].path, pushed) !! PathsOf(queue)
    ensures Queued(orders, queue[1..] + Children(queue[0].path, queue[0].m, pushed))
  {
    var head, rest, c := queue[0], queue[1..], Children(queue[0].path, queue[0].m, pushed);
    forall i, j | 0 <= i < |rest| && 0 <= j < |c| ensures InTurn(orders, rest[i], c[j]) {
      OldThenNew(visited, orders, queue, done, pushed, i + 1, pushed[j]);
    }
    forall i, j | 0 <= i < j < |c| ensures InTurn(orders, c[i], c[j]) {
      NewInTurn(orders, head, pushed[i], pushed[j]);
    }
    forall i, j | 0 <= i < j < |rest| ensures InTurn(orders, rest[i], rest[j]) {
      assert rest[i] == queue[i + 1] && rest[j] == queue[j + 1];
    }
    QueuedJoin(orders, rest, c);
  }

  lemma QueuedJoin(orders: Orders, a: seq<Item>, b: seq<Item>)
    requires forall i, j :: 0 <= i < j < |a| ==> InTurn(orders, a[i], a[j])
    requires forall i, j :: 0 <= i < j < |b| ==> InTurn(orders, b[i], b[j])
    requires forall i, j :: 0 <= i < |a| && 0 <= j < |b| ==> InTurn(orders, a[i], b[j])
    ensures Queued(orders, a + b)
  {
    forall i, j | 0 <= i < j < |a + b| ensures InTurn(orders, (a + b)[i], (a + b)[j]) {
    }
  }

  lemma StepEarlier(orders: Orders, queue: seq<Item>, done: set<Path>, pushed: seq<string>)
    requires queue != [] && Queued(orders, queue) && Earlier(orders, done, queue)
    ensures Earlier(orders, done + {queue[0].path}, queue[1..] + Children(queue[0].path, queue[0].m, pushed))
  {
    var head, c := queue[0], Children(queue[0].path, queue[0].m, pushed);
    var q', n := queue[1..] + c, |queue| - 1;
    forall q, i | q in done + {head.path} && 0 <= i < |q'| ensures Before(orders, q, q'[i].path) {
      assert q in done ==> Before(orders, q, head.path);
      if i < n {
        assert q'[i] == queue[i + 1];
      } else {
        assert q'[i].path == head.path + [pushed[i - n]];
      }
    }
  }

  lemma PathsJoin(a: seq<Item>, b: seq<Item>)
    ensures PathsOf(a + b) == PathsOf(a) + PathsOf(b)
  {
    assert forall x :: x in a + b <==> x in a || x in b;
  }

  lemma ChildPaths(path: Path, m: Fields, pushed: seq<string>)
    ensures PathsOf(Children(path, m, pushed)) == Below(path, pushed)
  {
    var c := Children(path, m, pushed);
    forall k | k in pushed ensures path + [k] in PathsOf(c) {
      var i :| 0 <= i < |pushed| && pushed[i] == k;
      assert c[i] in c && c[i].path == path + [k];
    }
    forall x | x in c ensures x.path in Below(path, pushed) {
      var i :| 0 <= i < |c| && c[i] == x;
      assert pushed[i] in pushed;
    }
  }

  lemma StepPaths(orders: Orders, queue: seq<Item>, pushed: seq<string>)
    requires queue != [] && Queued(orders, queue)
    ensures PathsOf(queue[1..] + Children(queue[0].path, queue[0].m, pushed)) ==
            PathsOf(queue) - {queue[0].path} + Below(queue[0].path, pushed)
  {
    var head, rest := queue[0], queue[1..];
    PathsJoin(rest, Children(head.path, head.m, pushed));
    ChildPaths(head.path, head.m, pushed);
    assert queue == [head] + rest;
    PathsJoin([head], rest);
    assert PathsOf([head]) == {head.path};
    forall x | x in rest ensures x.path != head.path {
      var i :| 0 <= i < |rest| && rest[i] == x;
      assert queue[i + 1] == x;
    }
  }

  lemma LastStep(path: Path, k: string, path': Path, k': string)
    requires path + [k] == path' + [k']
    ensures path == path' && k == k'
  {
    assert path == (path + [k])[..|path|] && path' == (path' + [k'])[..|path'|];
  }

  lemma StepFrontier(visited: Path -> bool, pending: set<Path>, done: set<Path>, head: Path, pushed: seq<string>)
    requires Frontier(visited, pending, done) && head in pending && visited(head)
    requires forall k :: k in pushed <==> visited(head + [k])
    ensures Below(head, pushed) !! pending
    ensures Frontier(visited, pending - {head} + Below(head, pushed), done + {head})
  {
    var kids := Below(head, pushed);
    var pending' := pending - {head} + kids;
    forall path, k | path + [k] in kids ensures path == head {
      var k' :| k' in pushed && path + [k] == head + [k'];
      LastStep(path, k, head, k');
    }
    forall q | q in kids ensures q !in pending && q !in done + {head} {
      var k :| k in pushed && q == head + [k];
    }
  }

  lemma {:induction false} DrainedMeansAll(p: Parser, root: Fields, orders: Orders, done: set<Path>, path: Path)
    requires Frontier(q => Visited(p, root, orders, q), {}, done) && Visited(p, root, orders, path)
    ensures path in done
    decreases |path|
  {
    if path != [] {
      assert path == path[..|path| - 1] + [path[|path| - 1]];
      DrainedMeansAll(p, root, orders, done, path[..|path| - 1]);
    }
  }

  ghost predicate WorkOk(p: Parser, root: Fields, orders: Orders, queue: seq<Item>, done: set<Path>) {
    && (forall i :: 0 <= i < |queue| ==> ItemOk(p, root, orders, queue[i]))
    && Queued(orders, queue) && Earlier(orders, done, queue)
    && Frontier(q => Visited(p, root, orders, q), PathsOf(queue), done)
  }

  lemma HeadIsNew(p: Parser, root: Fields, orders: Orders, queue: seq<Item>, done: set<Path>)
    requires queue != [] && WorkOk(p, root, orders, queue, done)
    ensures queue[0].path !in done && queue[0].path in PathsOf(queue)
    ensures queue[0].path in AllPaths(Object(root))
  {
    assert queue[0] in queue;
    NodesAreInAllPaths(root, queue[0].path);
  }

  lemma StepFrontierOf(p: Parser, root: Fields, orders: Orders, head: Item, pending: set<Path>, done: set<Path>,
                       pushed: seq<string>)
    requires Frontier(q => Visited(p, root, orders, q), pending, done)
    requires head.path in pending && ItemOk(p, root, orders, head)
    requires forall k :: k in pushed <==> Descends(p, head.m, orders(head.path), k)
    ensures Below(head.path, pushed) !! pending
    ensures Frontier(q => Visited(p, root, orders, q), pending - {head.path} + Below(head.path, pushed),
                     done + {head.path})
  {
    forall k ensures k in pushed <==> Visited(p, root, orders, head.path + [k]) {
      VisitedSnoc(p, root, orders, head.path, k);
    }
    StepFrontier(q => Visited(p, root, orders, q), pending, done, head.path, pushed);
  }

  lemma StepWork(p: Parser, root: Fields, orders: Orders, queue: seq<Item>, done: set<Path>, pushed: seq<string>)
    requires queue != [] && WorkOk(p, root, orders, queue, done)
    requires NoRepeats(pushed) && InOrder(orders(queue[0].path), pushed)
    requires forall k :: k in pushed <==> Descends(p, queue[0].m, orders(queue[0].path), k)
    ensures WorkOk(p, root, orders, queue[1..] + Children(queue[0].path, queue[0].m, pushed), done + {queue[0].path})
  {
    var head := queue[0];
    HeadIsNew(p, root, orders, queue, done);
    StepFrontierOf(p, root, orders, head, PathsOf(queue), done, pushed);
    StepPaths(orders, queue, pushed);
    StepQueued(q => Visited(p, root, orders, q), orders, queue, done, pushed);
    StepEarlier(orders, queue, done, pushed);
    StepChildren(p, root, orders, head, pushed);
  }

  // ---- Emissions, named by what the slices read ----

  // What the maps done with have emitted; names says what each one's slice read.
  ghost function EmissionAs(p: Parser, root: Fields, names: map<Path, Path>, at: Place): Option<Metric> {
    if at.0 in names && NodeAt(root, at.0).Some? then
      var ms := NodeMetrics(p, NodeAt(root, at.0).value, names[at.0]);
      if at.1 in ms then Some(ms[at.1]) else None
    else None
  }

  ghost function PlacesIn(path: Path, ids: seq<string>): (s: seq<Place>)
    ensures |s| == |ids|
  {
    seq(|ids|, i requires 0 <= i < |ids| => (path, ids[i]))
  }

  lemma NodeEmission(p: Parser, root: Fields, head: Item, name: Path, results: seq<Metric>, ids: seq<string>)
    requires NodeAt(root, head.path) == Some(head.m)
    requires Lists(results, ids, NodeMetrics(p, head.m, name))
    ensures Holds(results, PlacesIn(head.path, ids), at => EmissionAs(p, root, map[head.path := name], at))
  {
    var places, names := PlacesIn(head.path, ids), map[head.path := name];
    forall i | 0 <= i < |ids| ensures EmissionAs(p, root, names, places[i]) == Some(results[i]) {
      assert ids[i] in ids;
    }
    forall i, j | 0 <= i < j < |ids| ensures places[i] != places[j] {
      assert places[i].1 == ids[i] && places[j].1 == ids[j];
    }
    forall at: Place | EmissionAs(p, root, names, at).Some? ensures at in places {
      var i :| 0 <= i < |ids| && ids[i] == at.1;
      assert places[i] == at;
    }
  }

  lemma MoreEmitted(p: Parser, root: Fields, names: map<Path, Path>, path: Path, name: Path,
                    a: seq<Metric>, ia: seq<Place>, b: seq<Metric>, ib: seq<Place>)
    requires path !in names
    requires Holds(a, ia, at => EmissionAs(p, root, names, at))
    requires Holds(b, ib, at => EmissionAs(p, root, map[path := name], at))
    ensures Holds(a + b, ia + ib, at => EmissionAs(p, root, names[path := name], at))
  {
    HoldsJoin(a, ia, at => EmissionAs(p, root, names, at), b, ib, at => EmissionAs(p, root, map[path := name], at),
              at => EmissionAs(p, root, names[path := name], at));
  }

  // What has been emitted, by maps that all parse.
  ghost predicate EmittedOk(p: Parser, root: Fields, names: map<Path, Path>, results: seq<Metric>, ids: seq<Place>) {
    && (forall q <- names :: q in AllPaths(Object(root)) && NodeAt(root, q).Some? && !NodePanics(NodeAt(root, q).value))
    && Holds(results, ids, at => EmissionAs(p, root, names, at))
  }

  lemma StepEmitted(p: Parser, root: Fields, head: Item, name: Path, names: map<Path, Path>,
                    results: seq<Metric>, ids: seq<Place>, temp: seq<Metric>, tempIds: seq<string>)
    requires EmittedOk(p, root, names, results, ids) && head.path !in names
    requires NodeAt(root, head.path) == Some(head.m) && !NodePanics(head.m)
    requires Lists(temp, tempIds, NodeMetrics(p, head.m, name))
    ensures EmittedOk(p, root, names[head.path := name], results + temp, ids + PlacesIn(head.path, tempIds))
  {
    NodesAreInAllPaths(root, head.path);
    NodeEmission(p, root, head, name, temp, tempIds);
    MoreEmitted(p, root, names, head.path, name, results, ids, temp, PlacesIn(head.path, tempIds));
  }

  // ---- Service dimensions ----

  // service is the last pushed "service_dims" among some maps, if there is one.
  ghost predicate ServiceFrom(root: Fields, orders: Orders, known: set<Path>, service: Option<Fields>, from: Path) {
    if service.None? then forall q <- known :: !NamesService(q)
    else
      && from in known && NamesService(from) && NodeAt(root, from) == service
      && forall q <- known :: NamesService(q) && q != from ==> Before(orders, q, from)
  }

  function NewService(head: Item, pushed: seq<string>, service: Option<Fields>): Option<Fields> {
    if "service_dims" in pushed then Some(Child(head.path, head.m, "service_dims").m) else service
  }

  lemma StepService(visited: Path -> bool, root: Fields, orders: Orders, queue: seq<Item>, done: set<Path>,
                    pushed: seq<string>, service: Option<Fields>, from: Path) returns (from': Path)
    requires queue != [] && Queued(orders, queue) && Earlier(orders, done, queue)
    requires Frontier(visited, PathsOf(queue), done)
    requires NodeAt(root, queue[0].path) == Some(queue[0].m) && forall k <- pushed :: IsSub(queue[0].m, k)
    requires ServiceFrom(root, orders, done + PathsOf(queue), service, from)
    ensures ServiceFrom(root, orders, done + PathsOf(queue) + Below(queue[0].path, pushed),
                        NewService(queue[0], pushed, service), from')
  {
    var head := queue[0];
    from' := from;
    if "service_dims" in pushed {
      from' := head.path + ["service_dims"];
      NodeAtSnoc(root, head.path, "service_dims");
      forall q | q in done + PathsOf(queue) ensures Before(orders, q, from') {
        KnownIsBeforeChild(visited, orders, queue, done, q, "service_dims");
      }
    }
  }

  // The turns of nodeVisitorLoop on the sub-maps it descends into.
  method Enqueue(m: Fields, pushed: seq<string>, children: seq<Slice>, queue: seq<Node>, service: Option<Fields>,
                 path: Path)
    returns (queue': seq<Node>, service': Option<Fields>, ghost kids: seq<Node>)
    requires |children| == |pushed| && forall k <- pushed :: IsSub(m, k)
    ensures queue' == queue + kids && |kids| == |pushed|
    ensures forall i :: 0 <= i < |kids| ==>
              kids[i] == Node(children[i], Child(path, m, pushed[i]).m, path + [pushed[i]])
    ensures service' == NewService(Item(path, m), pushed, service)
  {
    queue', service', kids := queue, service, [];
    for i := 0 to |pushed|
      invariant |kids| == i && queue' == queue + kids
      invariant forall j :: 0 <= j < i ==> kids[j] == Node(children[j], Child(path, m, pushed[j]).m, path + [pushed[j]])
      invariant service' == NewService(Item(path, m), pushed[..i], service)
    {
      var k := pushed[i];
      assert k in pushed && pushed[..i + 1] == pushed[..i] + [k];
      if k == "service_dims" {
        service' := Some(m[k].fields);
      }
      queue' := queue' + [Node(children[i], m[k].fields, path + [k])];
      kids := kids + [Node(children[i], m[k].fields, path + [k])];
    }
    assert pushed[..|pushed|] == pushed;
  }

  // ---- What the slices read ----

  // Each slice has its path's length, in an array grown by appends.
  ghost predicate Shaped(nodes: seq<Node>, queue: seq<Item>) {
    && |nodes| == |queue|
    && forall i :: 0 <= i < |nodes| ==> ShapedOne(nodes[i], queue[i])
  }

  ghost predicate ShapedOne(n: Node, x: Item) {
    x == Item(n.at, n.m) && Valid(n.segments) && n.segments.len == |x.path| &&
      n.segments.data.Length == Capacity(|x.path|)
  }

  ghost function SnapOf(s: Slice): Snap
    reads s.data
  {
    Snap(s.data, s.len, if Valid(s) then Read(s) else [])
  }

  ghost function Arrays(nodes: seq<Node>): set<object> {
    set n <- nodes :: n.segments.data as object
  }

  ghost function Snaps(nodes: seq<Node>): (s: seq<Snap>)
    reads Arrays(nodes)
    ensures |s| == |nodes|
  {
    seq(|nodes|, i requires 0 <= i < |nodes| reads Arrays(nodes) => SnapOf(nodes[i].segments))
  }

  // The maps done with read their names, and the queue's slices what they should.
  ghost predicate NamesOk(p: Parser, root: Fields, orders: Orders, names: map<Path, Path>, snaps: seq<Snap>,
                          queue: seq<Item>) {
    NamesExact(p, root, orders, names) && ReadsOk(p, root, orders, names.Keys, snaps, PathList(queue))
  }

  ghost predicate NamesExact(p: Parser, root: Fields, orders: Orders, names: map<Path, Path>) {
    forall q <- names :: names[q] == NameOf(p, root, orders, q)
  }

  lemma OneMoreExact(p: Parser, root: Fields, orders: Orders, names: map<Path, Path>, path: Path, text: Path)
    requires NamesExact(p, root, orders, names) && text == NameOf(p, root, orders, path)
    ensures NamesExact(p, root, orders, names[path := text])
  {
  }

  lemma {:induction false} ShallowIsDone(p: Parser, root: Fields, orders: Orders, queue: seq<Item>, done: set<Path>,
                                         y: Path)
    requires queue != [] && WorkOk(p, root, orders, queue, done)
    requires Visited(p, root, orders, y) && |y| < |queue[0].path|
    ensures y in done
    decreases |y|
  {
    if y != [] {
      assert y == y[..|y| - 1] + [y[|y| - 1]];
      ShallowIsDone(p, root, orders, queue, done, y[..|y| - 1]);
    }
    forall x | x in queue ensures |queue[0].path| <= |x.path| {
      var i :| 0 <= i < |queue| && queue[i] == x;
      assert i > 0 ==> Before(orders, queue[0].path, queue[i].path);
    }
  }

  lemma ParentWrites(p: Parser, root: Fields, orders: Orders, path: Path)
    requires path != [] && Visited(p, root, orders, path)
    ensures Writes(p, root, orders, path[..|path| - 1])
  {
    PrefixIsVisited(p, root, orders, path, |path| - 1);
  }

  lemma HeadIsNext(p: Parser, root: Fields, orders: Orders, queue: seq<Item>, done: set<Path>)
    requires AreOrders(root, orders) && queue != [] && WorkOk(p, root, orders, queue, done)
    ensures IsNext(p, root, orders, done, queue[0].path) && WritersDone(p, root, orders, done, |queue[0].path|)
    ensures queue[0].path != [] ==> Writes(p, root, orders, queue[0].path[..|queue[0].path| - 1])
  {
    HeadIsNew(p, root, orders, queue, done);
    assert ItemOk(p, root, orders, queue[0]);
    forall q | q in done ensures Before(orders, q, queue[0].path) && NodeAt(root, q).Some? {
      VisitedIsNode(p, root, orders, q);
    }
    forall y | Writes(p, root, orders, y) && |y| < |queue[0].path| ensures y in done {
      ShallowIsDone(p, root, orders, queue, done, y);
    }
    if queue[0].path != [] {
      ParentWrites(p, root, orders, queue[0].path);
    }
  }

  lemma QueueDepths(p: Parser, root: Fields, orders: Orders, queue: seq<Item>, done: set<Path>, i: nat)
    requires i < |queue| && WorkOk(p, root, orders, queue, done)
    ensures |queue[i].path| <= |queue[0].path| + 1
  {
    if i > 0 {
      QueuedIsNear(q => Visited(p, root, orders, q), orders, queue, done, i);
    }
  }

  lemma PathListStep(queue: seq<Item>, pushed: seq<string>)
    requires queue != []
    ensures PathList(queue[1..] + Children(queue[0].path, queue[0].m, pushed)) ==
            PathList(queue)[1..] + KidPaths(PathList(queue)[0], pushed)
  {
  }

  lemma StepNames(p: Parser, root: Fields, orders: Orders, names: map<Path, Path>, queue: seq<Item>,
                  was: seq<Snap>, now: seq<Snap>, kids: seq<Snap>, pushed: seq<string>)
    requires AreOrders(root, orders) && queue != [] && WorkOk(p, root, orders, queue, names.Keys)
    requires |was| == |queue| && NamesOk(p, root, orders, names, was, queue)
    requires pushed == PushedBy(p, queue[0].m, orders(queue[0].path))
    requires Moved(was, now, Handled(p, queue[0].m, orders(queue[0].path)) != [],
                   LastOr(Handled(p, queue[0].m, orders(queue[0].path))))
    requires Born(was, kids, !NoRoom(|queue[0].path|), LastOr(Handled(p, queue[0].m, orders(queue[0].path))), pushed)
    ensures NamesOk(p, root, orders, names[queue[0].path := was[0].text], now + kids,
                    queue[1..] + Children(queue[0].path, queue[0].m, pushed))
  {
    var done := names.Keys;
    HeadNamed(p, root, orders, names, queue, was);
    QueueFits(p, root, orders, queue, done, pushed);
    StepReads(p, root, orders, done, PathList(queue), was, now, kids, pushed);
    OneMoreRead(p, root, orders, names, queue, was[0].text, now + kids, pushed);
  }

  lemma OneMoreRead(p: Parser, root: Fields, orders: Orders, names: map<Path, Path>, queue: seq<Item>, text: Path,
                    snaps: seq<Snap>, pushed: seq<string>)
    requires queue != [] && NamesExact(p, root, orders, names) && text == NameOf(p, root, orders, queue[0].path)
    requires ReadsOk(p, root, orders, names.Keys + {queue[0].path}, snaps,
                     PathList(queue)[1..] + KidPaths(PathList(queue)[0], pushed))
    ensures NamesOk(p, root, orders, names[queue[0].path := text], snaps,
                    queue[1..] + Children(queue[0].path, queue[0].m, pushed))
  {
    assert names[queue[0].path := text].Keys == names.Keys + {queue[0].path};
    OneMoreExact(p, root, orders, names, queue[0].path, text);
    PathListStep(queue, pushed);
  }

  lemma HeadNamed(p: Parser, root: Fields, orders: Orders, names: map<Path, Path>, queue: seq<Item>, was: seq<Snap>)
    requires AreOrders(root, orders) && queue != [] && WorkOk(p, root, orders, queue, names.Keys)
    requires |was| == |queue| && NamesOk(p, root, orders, names, was, queue)
    ensures IsNext(p, root, orders, names.Keys, queue[0].path)
    ensures was[0].text == NameOf(p, root, orders, queue[0].path)
  {
    HeadIsNext(p, root, orders, queue, names.Keys);
    HeadReadsItsName(p, root, orders, names.Keys, queue[0].path, was[0].text);
  }

  // The head's visit pushes new paths, no more than one level deeper than any.
  lemma QueueFits(p: Parser, root: Fields, orders: Orders, queue: seq<Item>, done: set<Path>, pushed: seq<string>)
    requires AreOrders(root, orders) && queue != [] && WorkOk(p, root, orders, queue, done)
    requires pushed == PushedBy(p, queue[0].m, orders(queue[0].path))
    ensures NoRepeats(pushed) && (pushed != [] ==> Writes(p, root, orders, queue[0].path))
    ensures Writes(p, root, orders, queue[0].path) <==> Handled(p, queue[0].m, orders(queue[0].path)) != []
    ensures LastKey(p, root, orders, queue[0].path) == LastOr(Handled(p, queue[0].m, orders(queue[0].path)))
    ensures forall j :: 0 <= j < |queue| ==> |PathList(queue)[j]| <= |PathList(queue)[0]| + 1
    ensures forall i, j :: 0 <= i < |pushed| && 0 <= j < |queue| ==>
              PathList(queue)[j] != PathList(queue)[0] + [pushed[i]]
  {
    assert ItemOk(p, root, orders, queue[0]);
    PushedByIs(p, queue[0].m, orders(queue[0].path));
    PushedNeedsHandled(queue[0].m, Handled(p, queue[0].m, orders(queue[0].path)));
    forall j | 0 <= j < |queue| ensures |queue[j].path| <= |queue[0].path| + 1 {
      QueueDepths(p, root, orders, queue, done, j);
    }
    forall i, j | 0 <= i < |pushed| && 0 <= j < |queue| ensures queue[j].path != queue[0].path + [pushed[i]] {
      NewKid(p, root, orders, queue, done, pushed, i, j);
    }
  }

  lemma NewKid(p: Parser, root: Fields, orders: Orders, queue: seq<Item>, done: set<Path>, pushed: seq<string>, i: nat,
               j: nat)
    requires queue != [] && WorkOk(p, root, orders, queue, done) && i < |pushed| && j < |queue|
    requires forall k :: k in pushed <==> Descends(p, queue[0].m, orders(queue[0].path), k)
    ensures queue[j].path != queue[0].path + [pushed[i]]
  {
    HeadIsNew(p, root, orders, queue, done);
    assert ItemOk(p, root, orders, queue[0]);
    StepFrontierOf(p, root, orders, queue[0], PathsOf(queue), done, pushed);
    assert pushed[i] in pushed && queue[0].path + [pushed[i]] in Below(queue[0].path, pushed);
    assert queue[j] in queue && queue[j].path in PathsOf(queue);
  }

  // ---- The loop ----

  // The ghost side of the loop: the queue's paths, what each visited map's slice
  // read, and where the metrics and the service dimensions came from.
  datatype Run = Run(queue: seq<Item>, names: map<Path, Path>, results: seq<Metric>, ids: seq<Place>,
                     service: Option<Fields>, from: Path)

  ghost predicate Keeps(p: Parser, root: Fields, orders: Orders, r: Run, snaps: seq<Snap>) {
    && WorkOk(p, root, orders, r.queue, r.names.Keys) && EmittedOk(p, root, r.names, r.results, r.ids)
    && ServiceFrom(root, orders, r.names.Keys + PathsOf(r.queue), r.service, r.from)
    && |snaps| == |r.queue| && NamesOk(p, root, orders, r.names, snaps, r.queue)
  }

  lemma FewerLeft(all: set<Path>, done: set<Path>, q: Path)
    requires q in all && q !in done
    ensures |all - (done + {q})| < |all - done|
  {
    assert all - done == all - (done + {q}) + {q};
  }

  // What one visit did, as VisitHead reports it.
  datatype Visit = Visit(emitted: seq<Metric>, ids: seq<string>, now: seq<Snap>, kids: seq<Snap>)

  ghost predicate VisitOk(p: Parser, o: seq<string>, head: Item, was: seq<Snap>, v: Visit) {
    && was != [] && !NodePanics(head.m) && Lists(v.emitted, v.ids, NodeMetrics(p, head.m, was[0].text))
    && Moved(was, v.now, Handled(p, head.m, o) != [], LastOr(Handled(p, head.m, o)))
    && Born(was, v.kids, !NoRoom(|head.path|), LastOr(Handled(p, head.m, o)), PushedBy(p, head.m, o))
  }

  ghost function After(p: Parser, o: seq<string>, r: Run, was: seq<Snap>, v: Visit, from': Path): Run
    requires r.queue != [] && was != []
  {
    var head := r.queue[0];
    var pushed := PushedBy(p, head.m, o);
    Run(r.queue[1..] + Children(head.path, head.m, pushed), r.names[head.path := was[0].text],
        r.results + v.emitted, r.ids + PlacesIn(head.path, v.ids), NewService(head, pushed, r.service), from')
  }

  lemma StepServiceOf(p: Parser, root: Fields, orders: Orders, queue: seq<Item>, done: set<Path>, pushed: seq<string>,
                      service: Option<Fields>, from: Path) returns (from': Path)
    requires queue != [] && WorkOk(p, root, orders, queue, done) && forall k <- pushed :: IsSub(queue[0].m, k)
    requires ServiceFrom(root, orders, done + PathsOf(queue), service, from)
    ensures ServiceFrom(root, orders,
                        done + {queue[0].path} + PathsOf(queue[1..] + Children(queue[0].path, queue[0].m, pushed)),
                        NewService(queue[0], pushed, service), from')
  {
    HeadIsNew(p, root, orders, queue, done);
    assert ItemOk(p, root, orders, queue[0]);
    from' := StepService(q => Visited(p, root, orders, q), root, orders, queue, done, pushed, service, from);
    StepPaths(orders, queue, pushed);
    assert done + PathsOf(queue) + Below(queue[0].path, pushed) ==
           done + {queue[0].path} + (PathsOf(queue) - {queue[0].path} + Below(queue[0].path, pushed));
  }

  lemma HeadFacts(p: Parser, root: Fields, orders: Orders, r: Run, r': Run, was: seq<Snap>, v: Visit)
    requires AreOrders(root, orders) && r.queue != [] && Keeps(p, root, orders, r, was)
    requires VisitOk(p, orders(r.queue[0].path), r.queue[0], was, v)
    requires r' == After(p, orders(r.queue[0].path), r, was, v, r'.from)
    ensures NodeAt(root, r.queue[0].path) == Some(r.queue[0].m) && IsOrder(orders(r.queue[0].path), r.queue[0].m)
    ensures r.queue[0].path !in r.names && r.queue[0].path in AllPaths(Object(root))
    ensures r'.names.Keys == r.names.Keys + {r.queue[0].path}
  {
    assert ItemOk(p, root, orders, r.queue[0]);
    HeadIsNew(p, root, orders, r.queue, r.names.Keys);
  }

  lemma AfterWork(p: Parser, root: Fields, orders: Orders, r: Run, r': Run, was: seq<Snap>, v: Visit)
    requires AreOrders(root, orders) && r.queue != [] && Keeps(p, root, orders, r, was)
    requires VisitOk(p, orders(r.queue[0].path), r.queue[0], was, v)
    requires r' == After(p, orders(r.queue[0].path), r, was, v, r'.from)
    ensures WorkOk(p, root, orders, r'.queue, r'.names.Keys)
    ensures |AllPaths(Object(root)) - r'.names.Keys| < |AllPaths(Object(root)) - r.names.Keys|
  {
    HeadFacts(p, root, orders, r, r', was, v);
    PushedByIs(p, r.queue[0].m, orders(r.queue[0].path));
    FewerLeft(AllPaths(Object(root)), r.names.Keys, r.queue[0].path);
    StepWork(p, root, orders, r.queue, r.names.Keys, PushedBy(p, r.queue[0].m, orders(r.queue[0].path)));
  }

  lemma AfterEmitted(p: Parser, root: Fields, orders: Orders, r: Run, r': Run, was: seq<Snap>, v: Visit)
    requires AreOrders(root, orders) && r.queue != [] && Keeps(p, root, orders, r, was)
    requires VisitOk(p, orders(r.queue[0].path), r.queue[0], was, v)
    requires r' == After(p, orders(r.queue[0].path), r, was, v, r'.from)
    ensures EmittedOk(p, root, r'.names, r'.results, r'.ids)
  {
    HeadFacts(p, root, orders, r, r', was, v);
    StepEmitted(p, root, r.queue[0], was[0].text, r.names, r.results, r.ids, v.emitted, v.ids);
  }

  lemma AfterNames(p: Parser, root: Fields, orders: Orders, r: Run, r': Run, was: seq<Snap>, v: Visit)
    requires AreOrders(root, orders) && r.queue != [] && Keeps(p, root, orders, r, was)
    requires VisitOk(p, orders(r.queue[0].path), r.queue[0], was, v)
    requires r' == After(p, orders(r.queue[0].path), r, was, v, r'.from)
    ensures |v.now + v.kids| == |r'.queue| && NamesOk(p, root, orders, r'.names, v.now + v.kids, r'.queue)
  {
    var pushed := PushedBy(p, r.queue[0].m, orders(r.queue[0].path));
    HeadFacts(p, root, orders, r, r', was, v);
    PushedByIs(p, r.queue[0].m, orders(r.queue[0].path));
    StepNames(p, root, orders, r.names, r.queue, was, v.now, v.kids, pushed);
  }

  lemma AfterService(p: Parser, root: Fields, orders: Orders, r: Run, r': Run, was: seq<Snap>, v: Visit)
    returns (from': Path)
    requires AreOrders(root, orders) && r.queue != [] && Keeps(p, root, orders, r, was)
    requires VisitOk(p, orders(r.queue[0].path), r.queue[0], was, v)
    requires r' == After(p, orders(r.queue[0].path), r, was, v, r'.from)
    ensures ServiceFrom(root, orders, r'.names.Keys + PathsOf(r'.queue), r'.service, from')
  {
    var pushed := PushedBy(p, r.queue[0].m, orders(r.queue[0].path));
    HeadFacts(p, root, orders, r, r', was, v);
    PushedByIs(p, r.queue[0].m, orders(r.queue[0].path));
    from' := StepServiceOf(p, root, orders, r.queue, r.names.Keys, pushed, r.service, r.from);
  }

  lemma StepKeeps(p: Parser, root: Fields, orders: Orders, r: Run, was: seq<Snap>, v: Visit) returns (r': Run)
    requires AreOrders(root, orders) && r.queue != [] && Keeps(p, root, orders, r, was)
    requires VisitOk(p, orders(r.queue[0].path), r.queue[0], was, v)
    ensures Keeps(p, root, orders, r', v.now + v.kids) && r' == After(p, orders(r.queue[0].path), r, was, v, r'.from)
    ensures |AllPaths(Object(root)) - r'.names.Keys| < |AllPaths(Object(root)) - r.names.Keys|
  {
    r' := After(p, orders(r.queue[0].path), r, was, v, r.from);
    var from' := AfterService(p, root, orders, r, r', was, v);
    r' := After(p, orders(r.queue[0].path), r, was, v, from');
    AfterWork(p, root, orders, r, r', was, v);
    AfterEmitted(p, root, orders, r, r', was, v);
    AfterNames(p, root, orders, r, r', was, v);
  }

  // ---- The heap side of a visit ----

  ghost predicate AllValid(nodes: seq<Node>) {
    forall n <- nodes :: Valid(n.segments)
  }

  ghost function SliceSnaps(slices: seq<Slice>): (s: seq<Snap>)
    reads set c <- slices :: c.data
    ensures |s| == |slices|
  {
    seq(|slices|, i requires 0 <= i < |slices| reads set c <- slices :: c.data => SnapOf(slices[i]))
  }

  // nodeVisitorLoop over the head of the queue, and what it does to the slices.
  method VisitFirst(p: Parser, o: seq<string>, nodes: seq<Node>)
    returns (panicked: bool, results: seq<GoMetric>, ghost ids: seq<string>, pushed: seq<string>, children: seq<Slice>)
    requires nodes != [] && AllValid(nodes) && IsOrder(o, nodes[0].m)
    modifies nodes[0].segments.data
    ensures panicked == NodePanics(nodes[0].m)
    ensures forall x <- results :: x.dims != null && fresh(x.dims)
    ensures forall c <- children :: c.data == nodes[0].segments.data || fresh(c.data)
    ensures !panicked ==> Lists(View(results), ids, NodeMetrics(p, nodes[0].m, old(Read(nodes[0].segments))))
    ensures !panicked ==> pushed == PushedBy(p, nodes[0].m, o) && |children| == |pushed|
    ensures !panicked ==> forall c <- children :: Extends(nodes[0].segments, c)
    ensures !panicked ==> Moved(old(Snaps(nodes)), Snaps(nodes[1..]), Handled(p, nodes[0].m, o) != [],
                                LastOr(Handled(p, nodes[0].m, o)))
    ensures !panicked ==> Born(old(Snaps(nodes)), SliceSnaps(children), Spare(nodes[0].segments),
                               LastOr(Handled(p, nodes[0].m, o)), pushed)
  {
    ghost var was := Snaps(nodes);
    SharedText(nodes);
    ghost var handled, slot := [], SlotOf(nodes[0].segments);
    panicked, results, ids, pushed, children, handled := VisitNode(p, nodes[0].m, nodes[0].segments, o);
    if panicked {
      return;
    }
    assert forall i :: 0 <= i < |nodes| ==> nodes[i] in nodes;
    RestMoved(nodes, was, handled, slot);
    PushedNeedsHandled(nodes[0].m, handled);
    KidsBorn(nodes[0].segments, was, slot, handled, pushed, children);
  }

  // What the slices in the head's array read, by the head's text and the slot
  // behind it.
  ghost predicate TextShared(was: seq<Snap>, slot: string) {
    && was != [] && |was[0].text| == was[0].len
    && forall i :: 0 <= i < |was| && was[i].data == was[0].data ==>
         && (was[i].len <= was[0].len ==> was[i].text == was[0].text[..was[i].len])
         && (was[i].len == was[0].len + 1 ==> was[i].text == was[0].text + [slot])
  }

  lemma SharedTextOne(a: Slice, s: Slice)
    requires Valid(a) && Valid(s) && s.data == a.data
    ensures s.len <= a.len ==> Read(s) == Read(a)[..s.len]
    ensures s.len == a.len + 1 ==> Read(s) == Read(a) + [SlotOf(a)]
  {
    var d := a.data;
    if s.len <= a.len {
      assert d[..a.len][..s.len] == d[..s.len];
    } else if s.len == a.len + 1 {
      assert d[..a.len + 1] == d[..a.len] + [d[a.len]];
    }
  }

  lemma SharedText(nodes: seq<Node>)
    requires AllValid(nodes) && nodes != []
    ensures TextShared(Snaps(nodes), SlotOf(nodes[0].segments))
  {
    assert nodes[0] in nodes;
    forall i | 0 <= i < |nodes| && nodes[i].segments.data == nodes[0].segments.data
      ensures nodes[i].segments.len <= nodes[0].segments.len ==>
                Snaps(nodes)[i].text == Snaps(nodes)[0].text[..nodes[i].segments.len]
      ensures nodes[i].segments.len == nodes[0].segments.len + 1 ==>
                Snaps(nodes)[i].text == Snaps(nodes)[0].text + [SlotOf(nodes[0].segments)]
    {
      assert nodes[i] in nodes;
      SharedTextOne(nodes[0].segments, nodes[i].segments);
    }
  }

  // What is left in the queue, when only the head's array has been written, and
  // only behind the head's path.
  lemma RestMoved(nodes: seq<Node>, was: seq<Snap>, handled: seq<string>, slot: string)
    requires nodes != [] && |was| == |nodes| && TextShared(was, slot) && AllValid(nodes)
    requires forall i :: 0 <= i < |nodes| ==>
               was[i].data == nodes[i].segments.data && was[i].len == nodes[i].segments.len
    requires forall i :: 0 <= i < |nodes| && was[i].data != was[0].data ==> SnapOf(nodes[i].segments) == was[i]
    requires SnapOf(nodes[0].segments) == was[0]
    requires Spare(nodes[0].segments) ==> SlotOf(nodes[0].segments) == if handled == [] then slot else LastOr(handled)
    ensures Moved(was, Snaps(nodes[1..]), handled != [], LastOr(handled))
  {
    var now := Snaps(nodes[1..]);
    assert nodes[0] in nodes;
    forall i | 0 <= i < |now| ensures MovedOne(was[0], was[i + 1], now[i], handled != [], LastOr(handled)) {
      assert nodes[i + 1] in nodes;
      if was[i + 1].data == was[0].data {
        SharedTextOne(nodes[0].segments, nodes[i + 1].segments);
      }
    }
  }

  lemma KidsBorn(cur: Slice, was: seq<Snap>, slot: string, handled: seq<string>, pushed: seq<string>,
                 children: seq<Slice>)
    requires was != [] && was[0] == SnapOf(cur) && Valid(cur)
    requires Pushed(cur, was[0].text, slot, handled, pushed, children) && (handled == [] ==> pushed == [])
    requires !Spare(cur) ==> forall i, j :: 0 <= i < |children| && 0 <= j < |was| ==> children[i].data != was[j].data
    ensures Born(was, SliceSnaps(children), Spare(cur), LastOr(handled), pushed)
  {
    var now := SliceSnaps(children);
    forall i | 0 <= i < |children|
      ensures now[i].len == was[0].len + 1
      ensures now[i].text == was[0].text + [if Spare(cur) then LastOr(handled) else pushed[i]]
    {
      ChildrenEndInTheLastKey(cur, was[0].text, slot, handled, pushed, children, i);
    }
  }

  lemma PushedNeedsHandled(m: Fields, handled: seq<string>)
    ensures handled == [] ==> Subs(m, handled) == []
  {
  }

  lemma KidsShaped(n: Node, path: Path, pushed: seq<string>, children: seq<Slice>, kids: seq<Node>)
    requires ShapedOne(n, Item(path, n.m)) && |kids| == |children| == |pushed|
    requires forall c <- children :: Extends(n.segments, c)
    requires forall i :: 0 <= i < |kids| ==>
               kids[i] == Node(children[i], Child(path, n.m, pushed[i]).m, path + [pushed[i]])
    ensures Shaped(kids, Children(path, n.m, pushed))
    ensures Spare(n.segments) == !NoRoom(|path|)
    ensures Snaps(kids) == SliceSnaps(children)
    ensures forall k <- kids :: k.segments in children
  {
    NoRoomExactlyAtPowers(|path|);
    forall i | 0 <= i < |kids| ensures ShapedOne(kids[i], Children(path, n.m, pushed)[i]) {
      assert children[i] in children;
    }
  }

  // One turn of parseNestedMetricMaps's outer loop. kids are the
  // nodes it adds to the queue.
  method VisitHead(p: Parser, o: seq<string>, nodes: seq<Node>, results: seq<GoMetric>, service: Option<Fields>)
    returns (panicked: bool, nodes': seq<Node>, results': seq<GoMetric>, service': Option<Fields>,
             ghost kids: seq<Node>, ghost v: Visit)
    requires nodes != [] && AllValid(nodes) && ShapedOne(nodes[0], Item(nodes[0].at, nodes[0].m))
    requires IsOrder(o, nodes[0].m) && OwnMaps(results)
    modifies nodes[0].segments.data
    ensures panicked == NodePanics(nodes[0].m)
    ensures forall x <- results' :: x in results || (x.dims != null && fresh(x.dims))
    ensures forall n <- kids :: n.segments.data == nodes[0].segments.data || fresh(n.segments.data)
    ensures !panicked ==> VisitOk(p, o, Item(nodes[0].at, nodes[0].m), old(Snaps(nodes)), v)
    ensures !panicked ==> View(results') == old(View(results)) + v.emitted
    ensures !panicked ==>
              nodes' == nodes[1..] + kids &&
              Shaped(kids, Children(nodes[0].at, nodes[0].m, PushedBy(p, nodes[0].m, o)))
    ensures !panicked ==> v.now == Snaps(nodes[1..]) && v.kids == Snaps(kids)
    ensures !panicked ==> service' == NewService(Item(nodes[0].at, nodes[0].m), PushedBy(p, nodes[0].m, o), service)
  {
    nodes', results', service', kids, v := nodes, results, service, [], Visit([], [], [], []);
    ghost var was := View(results);
    var temp, pushed, children;
    ghost var ids;
    panicked, temp, ids, pushed, children := VisitFirst(p, o, nodes);
    if panicked {
      return;
    }
    v := Visit(View(temp), ids, Snaps(nodes[1..]), SliceSnaps(children));
    assert View(results) == was;
    ViewAppend(results, temp);
    results' := results + temp;
    assert View(results') == was + v.emitted;
    PushedByIs(p, nodes[0].m, o);
    nodes', service', kids := Enqueue(nodes[0].m, pushed, children, nodes[1..], service, nodes[0].at);
    assert View(results') == was + v.emitted;
    KidsShaped(nodes[0], nodes[0].at, pushed, children, kids);
  }

  ghost function Start(root: Fields): Run {
    Run([Item([], root)], map[], [], [], None, [])
  }

  lemma StartKeeps(p: Parser, root: Fields, orders: Orders, first: Slice)
    requires first.len == 0
    ensures Keeps(p, root, orders, Start(root), [Snap(first.data, first.len, [])])
  {
    assert PathsOf([Item([], root)]) == {[]};
    assert PathList([Item([], root)]) == [[]];
    assert SameArrays([Snap(first.data, 0, [])], [[]]);
    assert TextOk(p, root, orders, {}, [], []);
  }

  lemma SnapsJoin(a: seq<Node>, b: seq<Node>)
    ensures Snaps(a + b) == Snaps(a) + Snaps(b)
  {
  }

  lemma ShapedJoin(nodes: seq<Node>, kids: seq<Node>, queue: seq<Item>, c: seq<Item>)
    requires nodes != [] && Shaped(nodes, queue) && Shaped(kids, c)
    ensures Shaped(nodes[1..] + kids, queue[1..] + c)
  {
    forall i | 0 <= i < |nodes| - 1 + |kids| ensures ShapedOne((nodes[1..] + kids)[i], (queue[1..] + c)[i]) {
      assert i < |nodes| - 1 ==> ShapedOne(nodes[i + 1], queue[i + 1]);
    }
  }

  lemma HeadReady(p: Parser, root: Fields, orders: Orders, nodes: seq<Node>, r: Run)
    requires AreOrders(root, orders) && nodes != [] && Shaped(nodes, r.queue) && Keeps(p, root, orders, r, Snaps(nodes))
    ensures AllValid(nodes) && r.queue[0] == Item(nodes[0].at, nodes[0].m) && ShapedOne(nodes[0], r.queue[0])
    ensures IsOrder(orders(nodes[0].at), nodes[0].m)
    ensures NodePanics(nodes[0].m) ==> RunPanics(p, root, orders)
  {
    assert ItemOk(p, root, orders, r.queue[0]);
    forall n | n in nodes ensures Valid(n.segments) {
      var i :| 0 <= i < |nodes| && nodes[i] == n;
      assert ShapedOne(nodes[i], r.queue[i]);
    }
  }

  // The loop's variables and its ghost side say the same.
  ghost predicate Mirrors(nodes: seq<Node>, results: seq<GoMetric>, service: Option<Fields>, r: Run)
    reads Arrays(nodes), Maps(results)
  {
    Shaped(nodes, r.queue) && View(results) == r.results && service == r.service
  }

  lemma StillMirrors(p: Parser, o: seq<string>, nodes: seq<Node>, kids: seq<Node>, results: seq<GoMetric>,
                     service: Option<Fields>, r: Run, r': Run, was: seq<Snap>, v: Visit)
    requires nodes != [] && Shaped(nodes, r.queue) && was != [] && r' == After(p, o, r, was, v, r'.from)
    requires Shaped(kids, Children(nodes[0].at, nodes[0].m, PushedBy(p, nodes[0].m, o)))
    requires v.now == Snaps(nodes[1..]) && v.kids == Snaps(kids) && View(results) == r.results + v.emitted
    requires service == NewService(Item(nodes[0].at, nodes[0].m), PushedBy(p, nodes[0].m, o), r.service)
    ensures Mirrors(nodes[1..] + kids, results, service, r') && Snaps(nodes[1..] + kids) == v.now + v.kids
  {
    assert ShapedOne(nodes[0], r.queue[0]);
    SnapsJoin(nodes[1..], kids);
    ShapedJoin(nodes, kids, r.queue, Children(nodes[0].at, nodes[0].m, PushedBy(p, nodes[0].m, o)));
  }

  lemma StartMirrors(root: Fields, first: Slice)
    requires first.len == 0 && first.data.Length == 0
    ensures Mirrors([Node(first, root, [])], [], None, Start(root))
    ensures Snaps([Node(first, root, [])]) == [Snap(first.data, first.len, [])]
  {
    assert SnapOf(first) == Snap(first.data, 0, []);
  }

  // The loop's invariant: some ghost side goes with its variables, and so many
  // maps have not been visited.
  ghost predicate InStep(p: Parser, root: Fields, orders: Orders, nodes: seq<Node>, results: seq<GoMetric>,
                         service: Option<Fields>, left: nat)
    reads Arrays(nodes), Maps(results)
  {
    exists r :: InStepWith(p, root, orders, nodes, results, service, left, r)
  }

  ghost predicate InStepWith(p: Parser, root: Fields, orders: Orders, nodes: seq<Node>, results: seq<GoMetric>,
                             service: Option<Fields>, left: nat, r: Run)
    reads Arrays(nodes), Maps(results)
  {
    && Keeps(p, root, orders, r, Snaps(nodes)) && Mirrors(nodes, results, service, r)
    && left == |AllPaths(Object(root)) - r.names.Keys|
  }

  method TakeTurn(p: Parser, root: Fields, orders: Orders, nodes: seq<Node>, results: seq<GoMetric>,
                  service: Option<Fields>, ghost left: nat)
    returns (panicked: bool, nodes': seq<Node>, results': seq<GoMetric>, service': Option<Fields>, ghost left': nat)
    requires AreOrders(root, orders) && nodes != [] && OwnMaps(results)
    requires InStep(p, root, orders, nodes, results, service, left)
    modifies nodes[0].segments.data
    ensures panicked ==> RunPanics(p, root, orders)
    ensures forall x <- results' :: x in results || (x.dims != null && fresh(x.dims))
    ensures forall n <- nodes' :: n in nodes || n.segments.data == nodes[0].segments.data || fresh(n.segments.data)
    ensures !panicked ==> InStep(p, root, orders, nodes', results', service', left') && left' < left
  {
    left' := left;
    ghost var r :| InStepWith(p, root, orders, nodes, results, service, left, r);
    HeadReady(p, root, orders, nodes, r);
    ghost var kids, v;
    ghost var was := Snaps(nodes);
    panicked, nodes', results', service', kids, v := VisitHead(p, orders(nodes[0].at), nodes, results, service);
    if panicked {
      nodes' := [];
      return;
    }
    ghost var r' := StepKeeps(p, root, orders, r, was, v);
    StillMirrors(p, orders(nodes[0].at), nodes, kids, results', service', r, r', was, v);
    left' := |AllPaths(Object(root)) - r'.names.Keys|;
    assert InStepWith(p, root, orders, nodes', results', service', left', r');
  }

  lemma StartsInStep(p: Parser, root: Fields, orders: Orders, first: Slice) returns (left: nat)
    requires first.len == 0 && first.data.Length == 0
    ensures InStep(p, root, orders, [Node(first, root, [])], [], None, left)
  {
    StartKeeps(p, root, orders, first);
    StartMirrors(root, first);
    left := |AllPaths(Object(root))|;
    assert AllPaths(Object(root)) - Start(root).names.Keys == AllPaths(Object(root));
    assert InStepWith(p, root, orders, [Node(first, root, [])], [], None, left, Start(root));
  }

  // The loop of parseNestedMetricMaps.
  method VisitAll(p: Parser, root: Fields, orders: Orders)
    returns (panicked: bool, results: seq<GoMetric>, service: Option<Fields>, ghost left: nat)
    requires AreOrders(root, orders)
    ensures panicked ==> RunPanics(p, root, orders)
    ensures forall x <- results :: x.dims != null && fresh(x.dims)
    ensures !panicked ==> InStep(p, root, orders, [], results, service, left)
  {
    var none := new string[0];
    var nodes := [Node(Slice(none, 0), root, [])];
    panicked, results, service := false, [], None;
    left := StartsInStep(p, root, orders, Slice(none, 0));
    while nodes != []
      invariant !panicked && InStep(p, root, orders, nodes, results, service, left)
      invariant forall x <- results :: x.dims != null && fresh(x.dims)
      invariant forall n <- nodes :: fresh(n.segments.data)
      decreases left
    {
      ghost var was := nodes;
      assert was[0] in was;
      panicked, nodes, results, service, left := TakeTurn(p, root, orders, nodes, results, service, left);
      if panicked {
        return;
      }
      forall n | n in nodes ensures fresh(n.segments.data) {
        assert n in was || n.segments.data == was[0].segments.data || fresh(n.segments.data);
      }
    }
  }

  // ---- The end ----

  ghost predicate NamesVisited(p: Parser, root: Fields, orders: Orders, names: map<Path, Path>) {
    forall q :: q in names <==> Visited(p, root, orders, q)
  }

  lemma DrainedNames(p: Parser, root: Fields, orders: Orders, r: Run)
    requires Keeps(p, root, orders, r, []) && r.queue == []
    ensures NamesVisited(p, root, orders, r.names) && !RunPanics(p, root, orders)
  {
    assert PathsOf([]) == {};
    forall q | Visited(p, root, orders, q) ensures q in r.names {
      DrainedMeansAll(p, root, orders, r.names.Keys, q);
    }
  }

  lemma DrainedService(p: Parser, root: Fields, orders: Orders, r: Run)
    requires AreOrders(root, orders) && Keeps(p, root, orders, r, []) && r.queue == []
    ensures ServiceOf(p, root, orders) == r.service
  {
    DrainedNames(p, root, orders, r);
    assert r.names.Keys + PathsOf(r.queue) == r.names.Keys;
    LastIsTheWinner(p, root, orders, r.names, r.service, r.from);
  }

  lemma LastIsTheWinner(p: Parser, root: Fields, orders: Orders, names: map<Path, Path>, service: Option<Fields>,
                        from: Path)
    requires AreOrders(root, orders) && NamesVisited(p, root, orders, names)
    requires ServiceFrom(root, orders, names.Keys, service, from)
    ensures ServiceOf(p, root, orders) == service
  {
    if service.Some? {
      assert Wins(p, root, orders, from);
      ServiceIsTheWinner(p, root, orders, from);
    }
  }

  lemma DrainedResults(p: Parser, root: Fields, orders: Orders, r: Run)
    requires Keeps(p, root, orders, r, []) && r.queue == []
    ensures Holds(r.results, r.ids, at => EmissionRead(p, root, orders, at))
  {
    DrainedNames(p, root, orders, r);
    forall at: Place ensures EmissionAs(p, root, r.names, at) == EmissionRead(p, root, orders, at) {
      ReadAsNamed(p, root, orders, r.names, at);
    }
    HoldsSame(r.results, r.ids, at => EmissionAs(p, root, r.names, at), at => EmissionRead(p, root, orders, at));
  }

  lemma ReadAsNamed(p: Parser, root: Fields, orders: Orders, names: map<Path, Path>, at: Place)
    requires NamesVisited(p, root, orders, names) && NamesExact(p, root, orders, names)
    ensures EmissionAs(p, root, names, at) == EmissionRead(p, root, orders, at)
  {
  }

  lemma NothingAdded(v: seq<Metric>)
    ensures Overlaid(v, v, Added(None))
  {
    forall i | 0 <= i < |v| ensures v[i] == WithDims(v[i], map[]) {
      assert v[i].dimensions + map[] == v[i].dimensions;
    }
  }

  // The loop over serviceDims.
  method AddService(results: seq<GoMetric>, service: Option<Fields>) returns (panicked: bool)
    requires OwnMaps(results)
    modifies Maps(results)
    ensures panicked == !ServiceOk(service)
    ensures !panicked ==> Overlaid(old(View(results)), View(results), Added(service))
  {
    panicked := false;
    if service.Some? {
      panicked := AddServiceDims(results, service.value);
    } else {
      NothingAdded(View(results));
    }
  }

  // parseNestedMetricMaps. For every iteration order it ends: in a panic exactly
  // when Panics says so, and otherwise the results are one metric for each place a visited map
  // emits from, under the name its slice reads, with the last service dimensions.
  method ParseNestedMetricMaps(p: Parser, root: Fields, orders: Orders)
    returns (panicked: bool, results: seq<GoMetric>, ghost ids: seq<Place>)
    requires AreOrders(root, orders)
    ensures panicked == Panics(p, root, orders)
    ensures forall x <- results :: x.dims != null && fresh(x.dims)
    ensures !panicked ==> Holds(View(results), ids, at => FinalRead(p, root, orders, at))
  {
    ids := [];
    var service;
    ghost var left;
    panicked, results, service, left := VisitAll(p, root, orders);
    if panicked {
      return;
    }
    ghost var r :| InStepWith(p, root, orders, [], results, service, left, r);
    DrainedNames(p, root, orders, r);
    DrainedResults(p, root, orders, r);
    DrainedService(p, root, orders, r);
    ids := r.ids;
    ghost var was := View(results);
    panicked := AddService(results, service);
    if !panicked {
      HoldsOverlay(was, View(results), ids, Added(service), at => EmissionRead(p, root, orders, at),
                   at => FinalRead(p, root, orders, at));
    }
  }
}
