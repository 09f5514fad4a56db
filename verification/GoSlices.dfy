// Paths as Go slices: append writes into the backing array of its argument
// while that has spare capacity, so siblings can share their last segment
// (src/fullerite/dropwizard/legacy_metric.go:108-112, 192-195).
module GoSlices {
  import opened Metrics

  type Path = seq<string>

  datatype Slice = Slice(data: array<string>, len: nat)

  ghost predicate Valid(s: Slice) {
    s.len <= s.data.Length
  }

  ghost function Read(s: Slice): seq<string>
    requires Valid(s)
    reads s.data
  {
    s.data[..s.len]
  }

  predicate Spare(s: Slice) {
    s.len < s.data.Length
  }

  function Grown(capacity: nat): nat {
    if capacity == 0 then 1 else 2 * capacity
  }

  method Append(s: Slice, x: string) returns (t: Slice)
    requires Valid(s)
    modifies s.data
    ensures Valid(t) && t.len == s.len + 1 && Read(t) == old(Read(s)) + [x]
    ensures Spare(s) ==> t.data == s.data && s.data[..] == old(s.data[..])[s.len := x]
    ensures !Spare(s) ==> fresh(t.data) && t.data.Length == Grown(s.data.Length) && s.data[..] == old(s.data[..])
  {
    if s.len < s.data.Length {
      s.data[s.len] := x;
      t := Slice(s.data, s.len + 1);
    } else {
      var from := s.data;
      var grown := new string[Grown(s.len)](i requires 0 <= i reads from => if i < from.Length then from[i] else "");
      assert grown[..s.len] == from[..];
      grown[s.len] := x;
      t := Slice(grown, s.len + 1);
    }
  }

  // ---- The appends of one map's visit ----

  // A slice appended to cur: in the same array while that has room.
  predicate Extends(cur: Slice, child: Slice) {
    && child.len == cur.len + 1 <= child.data.Length
    && if Spare(cur) then child.data == cur.data
       else child.data != cur.data && child.data.Length == Grown(cur.data.Length)
  }

  // What stands behind a slice, while its array has room.
  ghost function SlotOf(s: Slice): string
    requires Valid(s)
    reads s.data
  {
    if Spare(s) then s.data[s.len] else ""
  }

  // keys have been appended to cur, one after the other, and for subs, some of
  // them in the same order, the results were kept. slot stood behind cur before.
  ghost predicate Pushed(cur: Slice, path: Path, slot: string, keys: seq<string>, subs: seq<string>,
                         children: seq<Slice>)
    reads cur.data, set c <- children :: c.data
  {
    && Valid(cur) && Read(cur) == path && |children| == |subs|
    && (forall i :: 0 <= i < |children| ==> Extends(cur, children[i]))
    && (Spare(cur) ==> cur.data[cur.len] == if keys == [] then slot else keys[|keys| - 1])
    && (!Spare(cur) ==> forall i :: 0 <= i < |children| ==> Read(children[i]) == path + [subs[i]])
    && (!Spare(cur) ==> forall i, j :: 0 <= i < j < |children| ==> children[i].data != children[j].data)
  }

  // An append whose result is kept: a sub-map.
  method AppendKept(cur: Slice, ghost path: Path, ghost slot: string, ghost keys: seq<string>, ghost subs: seq<string>,
                    children: seq<Slice>, k: string)
    returns (children': seq<Slice>)
    requires Pushed(cur, path, slot, keys, subs, children)
    modifies cur.data
    ensures Pushed(cur, path, slot, keys + [k], subs + [k], children')
    ensures forall c <- children' :: c in children || c.data == cur.data || fresh(c.data)
  {
    var child := Append(cur, k);
    children' := children + [child];
  }

  // An append whose result is only read: the name of a scalar.
  method AppendRead(cur: Slice, ghost path: Path, ghost slot: string, ghost keys: seq<string>, ghost subs: seq<string>,
                    ghost children: seq<Slice>, k: string)
    returns (full: Slice)
    requires Pushed(cur, path, slot, keys, subs, children)
    modifies cur.data
    ensures Pushed(cur, path, slot, keys + [k], subs, children)
    ensures Valid(full) && Read(full) == path + [k]
  {
    full := Append(cur, k);
  }

  // In the end, with room in the parent's array, every child's path ends in the
  // key appended last, whether that was a child's or a scalar's.
  lemma ChildrenEndInTheLastKey(cur: Slice, path: Path, slot: string, keys: seq<string>, subs: seq<string>,
                                children: seq<Slice>, i: nat)
    requires Pushed(cur, path, slot, keys, subs, children) && i < |children| && keys != []
    ensures Read(children[i]) == path + [if Spare(cur) then keys[|keys| - 1] else subs[i]]
  {
    if Spare(cur) {
      assert cur.data[..cur.len + 1] == cur.data[..cur.len] + [cur.data[cur.len]];
    }
  }

  // ---- At which depths ----

  // The capacity of a path of some length that was built by appends.
  function Capacity(depth: nat): (c: nat)
    ensures depth <= c
  {
    if depth == 0 then 0
    else
      var c := Capacity(depth - 1);
      if depth - 1 < c then c else Grown(c)
  }

  function Pow2(k: nat): (n: nat)
    ensures n > 0
  {
    if k == 0 then 1 else 2 * Pow2(k - 1)
  }

  // The capacity is the least power of two that is enough.
  lemma {:induction false} CapacityIsAPower(depth: nat) returns (k: nat)
    requires depth > 0
    ensures Capacity(depth) == Pow2(k) && Pow2(k) < 2 * depth
  {
    if depth == 1 {
      assert Capacity(0) == 0;
      k := 0;
    } else {
      k := CapacityIsAPower(depth - 1);
      if depth - 1 == Capacity(depth - 1) {
        k := k + 1;
      }
    }
  }

  lemma {:induction false} PowersApart(j: nat, k: nat)
    requires j < k
    ensures 2 * Pow2(j) <= Pow2(k)
  {
    if j < k - 1 {
      PowersApart(j, k - 1);
    }
  }

  // The lengths at which a path built by appends fills its array.
  ghost predicate NoRoom(depth: nat) {
    depth == 0 || exists k :: depth == Pow2(k)
  }

  lemma NoRoomExactlyAtPowers(depth: nat)
    ensures Capacity(depth) == depth <==> NoRoom(depth)
  {
    if depth > 0 {
      var k := CapacityIsAPower(depth);
      if j :| depth == Pow2(j) {
        if j < k {
          PowersApart(j, k);
        } else if k < j {
          PowersApart(k, j);
        }
      }
    }
  }

  // A path as the worklist builds it, one append for each level.
  method PathTo(keys: Path) returns (s: Slice)
    ensures Valid(s) && fresh(s.data) && Read(s) == keys
    ensures !Spare(s) <==> NoRoom(|keys|)
  {
    var none := new string[0];
    s := Slice(none, 0);
    for i := 0 to |keys|
      invariant Valid(s) && fresh(s.data) && Read(s) == keys[..i] && s.data.Length == Capacity(i)
    {
      s := Append(s, keys[i]);
      assert keys[..i + 1] == keys[..i] + [keys[i]];
    }
    assert keys[..|keys|] == keys;
    NoRoomExactlyAtPowers(|keys|);
  }
}
