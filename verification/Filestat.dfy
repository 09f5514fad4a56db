// The users whose open files are counted: lists edited in stages, two of which
// may be one list (src/diamond/collectors/filestat/filestat.py:86-173).
module Filestat {
  import opened Metrics

  // A Python list, shared by reference.
  class PyList {
    var items: seq<string>

    constructor (items: seq<string>)
      ensures this.items == items
    {
      this.items := items;
    }

    method Append(u: string)
      modifies this
      ensures items == old(items) + [u]
    {
      items := items + [u];
    }

    // list.remove takes out the first occurrence; Python raises if there is none.
    method Remove(u: string)
      requires u in items && NoRepeats(items)
      modifies this
      ensures items == Minus(old(items), {u})
    {
      var i := 0;
      while items[i] != u
        invariant 0 <= i < |items| && u !in items[..i]
        decreases |items| - i
      {
        assert items[..i + 1] == items[..i] + [items[i]];
        assert items == items[..i + 1] + items[i + 1..];
        i := i + 1;
      }
      RemoveIsMinus(items, i);
      items := items[..i] + items[i + 1..];
    }
  }

  // A list without some users.
  function Minus(s: seq<string>, gone: set<string>): seq<string> {
    if s == [] then []
    else
      var last := s[|s| - 1];
      Minus(s[..|s| - 1], gone) + (if last in gone then [] else [last])
  }

  // Users are drawn from a system with these tables; the configured lists are
  // already split, and None stands for one that is not configured.
  datatype Config = Config(userInclude: Option<seq<string>>, userExclude: Option<seq<string>>,
                           groupInclude: Option<seq<string>>, groupExclude: Option<seq<string>>,
                           uidMin: int, uidMax: int, groups: string -> seq<string>, uid: string -> int)

  function Members(list: Option<seq<string>>): seq<string> {
    if list.None? then [] else list.value
  }

  predicate InGroupOf(cfg: Config, list: Option<seq<string>>, u: string) {
    exists g :: g in Members(list) && g in cfg.groups(u)
  }

  predicate InRange(cfg: Config, u: string) {
    cfg.uidMin <= cfg.uid(u) <= cfg.uidMax
  }

  // ---- Lists without users ----

  lemma {:induction false} MinusKeeps(s: seq<string>, gone: set<string>)
    ensures forall u :: u in Minus(s, gone) <==> u in s && u !in gone
    ensures NoRepeats(s) ==> NoRepeats(Minus(s, gone))
  {
    if s != [] {
      var before, last := s[..|s| - 1], s[|s| - 1];
      MinusKeeps(before, gone);
      assert s == before + [last];
      if NoRepeats(s) {
        assert last !in before;
      }
    }
  }

  lemma {:induction false} MinusJoin(a: seq<string>, b: seq<string>, gone: set<string>)
    ensures Minus(a + b, gone) == Minus(a, gone) + Minus(b, gone)
  {
    if b == [] {
      assert a + b == a;
    } else {
      var n := |b| - 1;
      assert (a + b)[..|a + b| - 1] == a + b[..n];
      MinusJoin(a, b[..n], gone);
    }
  }

  lemma {:induction false} MinusNothing(s: seq<string>, gone: set<string>)
    requires forall u :: u in s ==> u !in gone
    ensures Minus(s, gone) == s
  {
    if s != [] {
      assert s == s[..|s| - 1] + [s[|s| - 1]];
      MinusNothing(s[..|s| - 1], gone);
    }
  }

  lemma MinusOne(u: string, gone: set<string>)
    ensures Minus([u], gone) == if u in gone then [] else [u]
  {
    assert [u][..0] == [];
  }

  lemma {:induction false} MinusTwice(s: seq<string>, a: set<string>, b: set<string>)
    ensures Minus(Minus(s, a), b) == Minus(s, a + b)
  {
    if s != [] {
      var before, last := s[..|s| - 1], s[|s| - 1];
      MinusTwice(before, a, b);
      MinusOne(last, b);
      if last in a {
        assert Minus(before, a) + [] == Minus(before, a);
        assert Minus(before, a + b) + [] == Minus(before, a + b);
      } else {
        MinusJoin(Minus(before, a), [last], b);
      }
    }
  }

  lemma MinusMiddle(a: seq<string>, u: string, b: seq<string>)
    requires u !in a && u !in b
    ensures Minus(a + [u] + b, {u}) == a + b
  {
    MinusJoin(a + [u], b, {u});
    MinusJoin(a, [u], {u});
    MinusOne(u, {u});
    MinusNothing(a, {u});
    MinusNothing(b, {u});
    assert a + [] == a;
  }

  lemma RemoveIsMinus(s: seq<string>, i: nat)
    requires i < |s| && NoRepeats(s)
    ensures s[..i] + s[i + 1..] == Minus(s, {s[i]})
  {
    assert s == s[..i] + [s[i]] + s[i + 1..];
    MinusMiddle(s[..i], s[i], s[i + 1..]);
  }

  ghost function SetOf(s: seq<string>): set<string> {
    set u <- s
  }

  // A list, after a pass over its first users took out those in a set.
  ghost function Swept(s: seq<string>, i: nat, gone: set<string>): seq<string>
    requires i <= |s|
  {
    Minus(s, gone * SetOf(s[..i]))
  }

  lemma SweptStart(s: seq<string>, gone: set<string>)
    ensures Swept(s, 0, gone) == s
  {
    MinusNothing(s, gone * SetOf(s[..0]));
  }

  lemma SweptStep(s: seq<string>, i: nat, gone: set<string>)
    requires i < |s| && NoRepeats(s)
    ensures s[i] in Swept(s, i, gone) && NoRepeats(Swept(s, i, gone))
    ensures Swept(s, i + 1, gone) == if s[i] in gone then Minus(Swept(s, i, gone), {s[i]}) else Swept(s, i, gone)
  {
    assert s[..i + 1] == s[..i] + [s[i]];
    assert SetOf(s[..i + 1]) == SetOf(s[..i]) + {s[i]};
    assert s[i] !in s[..i];
    var before := gone * SetOf(s[..i]);
    MinusKeeps(s, before);
    MinusTwice(s, before, {s[i]});
    assert gone * SetOf(s[..i + 1]) == if s[i] in gone then before + {s[i]} else before;
  }

  lemma {:induction false} MinusSame(s: seq<string>, a: set<string>, b: set<string>)
    requires forall u :: u in s ==> (u in a <==> u in b)
    ensures Minus(s, a) == Minus(s, b)
  {
    if s != [] {
      assert s == s[..|s| - 1] + [s[|s| - 1]];
      MinusSame(s[..|s| - 1], a, b);
    }
  }

  lemma SweptEnd(s: seq<string>, gone: set<string>)
    ensures Swept(s, |s|, gone) == Minus(s, gone)
  {
    assert s[..|s|] == s;
    MinusSame(s, gone * SetOf(s), gone);
  }

  // ---- The stages ----

  method InAny(list: seq<string>, groups: seq<string>) returns (found: bool)
    ensures found <==> exists g :: g in list && g in groups
  {
    for i := 0 to |list|
      invariant forall g :: g in list[..i] ==> g !in groups
    {
      assert list[..i + 1] == list[..i] + [list[i]];
      if list[i] in groups {
        return true;
      }
    }
    assert list[..|list|] == list;
    found := false;
  }

  ghost function NotInIncludedGroup(cfg: Config, s: seq<string>): set<string> {
    set u | u in s && !InGroupOf(cfg, cfg.groupInclude, u)
  }

  // Adds the members of the included groups. When userlist is rawusers there is
  // nobody left to add.
  method AddByGroup(cfg: Config, rawusers: PyList, userlist: PyList, addedByGroup: PyList)
    requires addedByGroup != rawusers && addedByGroup != userlist && addedByGroup.items == []
    requires userlist == rawusers || userlist.items == []
    requires NoRepeats(rawusers.items)
    modifies userlist, addedByGroup
    ensures rawusers.items == old(rawusers.items)
    ensures userlist == rawusers ==> addedByGroup.items == []
    ensures userlist != rawusers ==>
              userlist.items == Minus(rawusers.items, NotInIncludedGroup(cfg, rawusers.items)) &&
              addedByGroup.items == userlist.items
  {
    ghost var raw := rawusers.items;
    ghost var gone := NotInIncludedGroup(cfg, raw);
    if cfg.groupInclude.Some? && |cfg.groupInclude.value| > 0 {
      var i := 0;
      while i < |rawusers.items|
        invariant 0 <= i <= |rawusers.items| && rawusers.items == raw
        invariant userlist == rawusers ==> addedByGroup.items == []
        invariant userlist != rawusers ==>
                    userlist.items == Minus(raw[..i], gone) && addedByGroup.items == userlist.items
        decreases |raw| - i
      {
        var u := rawusers.items[i];
        assert raw[..i + 1][..i] == raw[..i];
        MinusKeeps(raw[..i], gone);
        assert u !in raw[..i];
        var found := InAny(cfg.groupInclude.value, cfg.groups(u));
        if found && u !in userlist.items {
          userlist.Append(u);
          addedByGroup.Append(u);
        }
        i := i + 1;
      }
      assert raw[..i] == raw;
    } else {
      MinusAll(raw, gone);
    }
  }

  lemma {:induction false} MinusAll(s: seq<string>, gone: set<string>)
    requires forall u :: u in s ==> u in gone
    ensures Minus(s, gone) == []
  {
    if s != [] {
      assert s == s[..|s| - 1] + [s[|s| - 1]];
      MinusAll(s[..|s| - 1], gone);
    }
  }

  ghost function InExcludedGroup(cfg: Config, s: seq<string>): set<string> {
    set u | u in s && InGroupOf(cfg, cfg.groupExclude, u)
  }

  method RemoveByGroup(cfg: Config, userlist: PyList)
    requires NoRepeats(userlist.items)
    modifies userlist
    ensures userlist.items == Minus(old(userlist.items), InExcludedGroup(cfg, old(userlist.items)))
  {
    var tmplist := userlist.items;
    ghost var gone := InExcludedGroup(cfg, tmplist);
    if cfg.groupExclude.Some? && |cfg.groupExclude.value| > 0 {
      SweptStart(tmplist, gone);
      for i := 0 to |tmplist|
        invariant userlist.items == Swept(tmplist, i, gone)
      {
        SweptStep(tmplist, i, gone);
        var found := InAny(cfg.groupExclude.value, cfg.groups(tmplist[i]));
        if found {
          userlist.Remove(tmplist[i]);
        }
      }
      SweptEnd(tmplist, gone);
    } else {
      MinusNothing(tmplist, gone);
    }
  }

  // Users the uid limits apply to and keep out.
  predicate FailsUid(cfg: Config, added: seq<string>, u: string) {
    u !in Members(cfg.userInclude) && u !in added && !InRange(cfg, u)
  }

  ghost function OutOfRange(cfg: Config, added: seq<string>, s: seq<string>): set<string> {
    set u | u in s && FailsUid(cfg, added, u)
  }

  // The two limits on one user; both can fail at once.
  method LimitUid(cfg: Config, userlist: PyList, u: string)
    requires NoRepeats(userlist.items) && u in userlist.items
    modifies userlist
    ensures userlist.items == if InRange(cfg, u) then old(userlist.items) else Minus(old(userlist.items), {u})
  {
    MinusKeeps(userlist.items, {u});
    var uid := cfg.uid(u);
    if uid < cfg.uidMin && u in userlist.items {
      userlist.Remove(u);
    }
    if uid > cfg.uidMax && u in userlist.items {
      userlist.Remove(u);
    }
  }

  method RemoveByUid(cfg: Config, userlist: PyList, addedByGroup: PyList)
    requires NoRepeats(userlist.items) && userlist != addedByGroup
    modifies userlist
    ensures userlist.items == Minus(old(userlist.items), OutOfRange(cfg, addedByGroup.items, old(userlist.items)))
  {
    var tmplist := userlist.items;
    ghost var gone := OutOfRange(cfg, addedByGroup.items, tmplist);
    SweptStart(tmplist, gone);
    for i := 0 to |tmplist|
      invariant userlist.items == Swept(tmplist, i, gone)
    {
      var u := tmplist[i];
      SweptStep(tmplist, i, gone);
      if cfg.userInclude.None? || u !in cfg.userInclude.value {
        if u !in addedByGroup.items {
          LimitUid(cfg, userlist, u);
        }
      }
    }
    SweptEnd(tmplist, gone);
  }

  // The included users who are live and not there yet, appended in order.
  function WithIncluded(list: seq<string>, wanted: seq<string>, live: seq<string>): seq<string> {
    if wanted == [] then list
    else
      var before, u := WithIncluded(list, wanted[..|wanted| - 1], live), wanted[|wanted| - 1];
      if u in live && u !in before then before + [u] else before
  }

  method AddIncluded(cfg: Config, rawusers: PyList, userlist: PyList)
    requires rawusers != userlist
    modifies userlist
    ensures userlist.items == WithIncluded(old(userlist.items), Members(cfg.userInclude), rawusers.items)
  {
    var wanted := Members(cfg.userInclude);
    for i := 0 to |wanted|
      invariant userlist.items == WithIncluded(old(userlist.items), wanted[..i], rawusers.items)
    {
      assert wanted[..i + 1][..i] == wanted[..i];
      if wanted[i] in rawusers.items && wanted[i] !in userlist.items {
        userlist.Append(wanted[i]);
      }
    }
    assert wanted[..|wanted|] == wanted;
  }

  method RemoveExcluded(cfg: Config, userlist: PyList)
    requires NoRepeats(userlist.items)
    modifies userlist
    ensures userlist.items == Minus(old(userlist.items), SetOf(Members(cfg.userExclude)))
  {
    var exclude := Members(cfg.userExclude);
    MinusNothing(userlist.items, SetOf(exclude[..0]));
    for i := 0 to |exclude|
      invariant NoRepeats(userlist.items)
      invariant userlist.items == Minus(old(userlist.items), SetOf(exclude[..i]))
    {
      var u := exclude[i];
      assert exclude[..i + 1] == exclude[..i] + [u];
      assert SetOf(exclude[..i + 1]) == SetOf(exclude[..i]) + {u};
      MinusTwice(old(userlist.items), SetOf(exclude[..i]), {u});
      MinusKeeps(userlist.items, {u});
      if u in userlist.items {
        userlist.Remove(u);
      } else {
        MinusNothing(userlist.items, {u});
      }
    }
    assert exclude[..|exclude|] == exclude;
  }

  // ---- The whole ----

  // The list, stage by stage, for a list of live users.
  ghost function UserList(cfg: Config, live: seq<string>): seq<string> {
    var byGroup := if Members(cfg.userInclude) == [] then live else Minus(live, NotInIncludedGroup(cfg, live));
    var added := if Members(cfg.userInclude) == [] then [] else byGroup;
    var staying := Minus(byGroup, InExcludedGroup(cfg, byGroup));
    var limited := Minus(staying, OutOfRange(cfg, added, staying));
    var extended := if Members(cfg.userInclude) == [] then limited
                    else WithIncluded(limited, Members(cfg.userInclude), live);
    Minus(extended, SetOf(Members(cfg.userExclude)))
  }

  method GetUserlist(cfg: Config, rawusers: PyList) returns (userlist: PyList)
    requires NoRepeats(rawusers.items)
    modifies rawusers
    ensures userlist.items == UserList(cfg, old(rawusers.items))
    ensures userlist == rawusers <==> Members(cfg.userInclude) == []
    ensures userlist != rawusers ==> fresh(userlist) && rawusers.items == old(rawusers.items)
  {
    if cfg.userInclude.None? || |cfg.userInclude.value| == 0 {
      userlist := rawusers;
    } else {
      userlist := new PyList([]);
    }
    ghost var live := rawusers.items;
    var addedByGroup := new PyList([]);
    AddByGroup(cfg, rawusers, userlist, addedByGroup);
    MinusKeeps(live, NotInIncludedGroup(cfg, live));
    ghost var byGroup := userlist.items;
    RemoveByGroup(cfg, userlist);
    MinusKeeps(byGroup, InExcludedGroup(cfg, byGroup));
    ghost var staying := userlist.items;
    RemoveByUid(cfg, userlist, addedByGroup);
    MinusKeeps(staying, OutOfRange(cfg, addedByGroup.items, staying));
    if cfg.userInclude.Some? && |cfg.userInclude.value| > 0 {
      WithIncludedKeeps(userlist.items, cfg.userInclude.value, live);
      AddIncluded(cfg, rawusers, userlist);
    }
    RemoveExcluded(cfg, userlist);
  }

  lemma {:induction false} WithIncludedKeeps(list: seq<string>, wanted: seq<string>, live: seq<string>)
    requires NoRepeats(list)
    ensures NoRepeats(WithIncluded(list, wanted, live))
    ensures forall u :: u in WithIncluded(list, wanted, live) <==> u in list || (u in wanted && u in live)
  {
    if wanted != [] {
      var before, u := wanted[..|wanted| - 1], wanted[|wanted| - 1];
      assert wanted == before + [u];
      WithIncludedKeeps(list, before, live);
    }
  }

  predicate Names(list: Option<seq<string>>, name: string) {
    list.Some? && name in list.value
  }

  // Some of a user's groups is in a list.
  predicate OneOf(list: Option<seq<string>>, groups: seq<string>) {
    exists g :: Names(list, g) && g in groups
  }

  // Who is meant to be counted: live users who are not excluded by name. Unless some
  // user is included by name, they are those in no excluded group and between the uid
  // limits; otherwise those included, and those in an included group and in no excluded
  // one.
  predicate Counted(cfg: Config, live: seq<string>, u: string) {
    && u in live && !Names(cfg.userExclude, u)
    && if cfg.userInclude == None || cfg.userInclude == Some([]) then
         !OneOf(cfg.groupExclude, cfg.groups(u)) && cfg.uidMin <= cfg.uid(u) && cfg.uid(u) <= cfg.uidMax
       else
         Names(cfg.userInclude, u) ||
         (OneOf(cfg.groupInclude, cfg.groups(u)) && !OneOf(cfg.groupExclude, cfg.groups(u)))
  }

  lemma OneOfMeansInGroup(cfg: Config, list: Option<seq<string>>, u: string)
    ensures OneOf(list, cfg.groups(u)) <==> InGroupOf(cfg, list, u)
  {
    forall g ensures Names(list, g) <==> g in Members(list) {
    }
  }

  // Each user who counts is listed once, and nobody else is.
  lemma ListedExactlyWhenCounted(cfg: Config, live: seq<string>)
    requires NoRepeats(live)
    ensures NoRepeats(UserList(cfg, live))
    ensures forall u :: u in UserList(cfg, live) <==> Counted(cfg, live, u)
  {
    forall u
      ensures OneOf(cfg.groupInclude, cfg.groups(u)) <==> InGroupOf(cfg, cfg.groupInclude, u)
      ensures OneOf(cfg.groupExclude, cfg.groups(u)) <==> InGroupOf(cfg, cfg.groupExclude, u)
    {
      OneOfMeansInGroup(cfg, cfg.groupInclude, u);
      OneOfMeansInGroup(cfg, cfg.groupExclude, u);
    }
    var wanted := Members(cfg.userInclude);
    var byGroup := if wanted == [] then live else Minus(live, NotInIncludedGroup(cfg, live));
    var added := if wanted == [] then [] else byGroup;
    var staying := Minus(byGroup, InExcludedGroup(cfg, byGroup));
    var limited := Minus(staying, OutOfRange(cfg, added, staying));
    MinusKeeps(live, NotInIncludedGroup(cfg, live));
    MinusKeeps(byGroup, InExcludedGroup(cfg, byGroup));
    MinusKeeps(staying, OutOfRange(cfg, added, staying));
    var extended := if wanted == [] then limited else WithIncluded(limited, wanted, live);
    WithIncludedKeeps(limited, wanted, live);
    MinusKeeps(extended, SetOf(Members(cfg.userExclude)));
  }

  // So of the included groups and the uid limits only one ever matters: the
  // groups when some user is included by name, and otherwise the limits.
  lemma OneOfGroupsAndLimitsMatters(cfg: Config, live: seq<string>, groups: Option<seq<string>>, low: int, high: int)
    requires NoRepeats(live)
    ensures Members(cfg.userInclude) == [] ==> UserList(cfg.(groupInclude := groups), live) == UserList(cfg, live)
    ensures Members(cfg.userInclude) != [] ==>
              UserList(cfg.(uidMin := low, uidMax := high), live) == UserList(cfg, live)
  {
    var wanted := Members(cfg.userInclude);
    if wanted == [] {
      var cfg' := cfg.(groupInclude := groups);
      assert InExcludedGroup(cfg', live) == InExcludedGroup(cfg, live);
      var staying := Minus(live, InExcludedGroup(cfg, live));
      assert OutOfRange(cfg', [], staying) == OutOfRange(cfg, [], staying);
    } else {
      var cfg' := cfg.(uidMin := low, uidMax := high);
      assert NotInIncludedGroup(cfg', live) == NotInIncludedGroup(cfg, live);
      var byGroup := Minus(live, NotInIncludedGroup(cfg, live));
      assert InExcludedGroup(cfg', byGroup) == InExcludedGroup(cfg, byGroup);
      var staying := Minus(byGroup, InExcludedGroup(cfg, byGroup));
      MinusKeeps(byGroup, InExcludedGroup(cfg, byGroup));
      assert OutOfRange(cfg', byGroup, staying) == {} == OutOfRange(cfg, byGroup, staying);
    }
  }

  // ---- The order of the list ----

  // part stands in s at rising positions.
  ghost predicate PartOf(part: seq<string>, s: seq<string>, at: seq<nat>) {
    && |at| == |part|
    && (forall i :: 0 <= i < |at| ==> at[i] < |s| && part[i] == s[at[i]])
    && (forall i, j :: 0 <= i < j < |at| ==> at[i] < at[j])
  }

  lemma {:induction false} MinusInOrder(s: seq<string>, gone: set<string>) returns (at: seq<nat>)
    ensures PartOf(Minus(s, gone), s, at)
  {
    at := [];
    if s != [] {
      at := MinusInOrder(s[..|s| - 1], gone);
      if s[|s| - 1] !in gone {
        at := at + [|s| - 1];
      }
    }
  }

  lemma PartOfPart(a: seq<string>, b: seq<string>, c: seq<string>, x: seq<nat>, y: seq<nat>) returns (at: seq<nat>)
    requires PartOf(a, b, x) && PartOf(b, c, y)
    ensures PartOf(a, c, at) && forall i :: 0 <= i < |at| ==> at[i] in y
  {
    at := seq(|x|, i requires 0 <= i < |x| => y[x[i]]);
  }

  // Where a name is mentioned for the first time.
  predicate FirstMention(s: seq<string>, i: nat) {
    i < |s| && s[i] !in s[..i]
  }

  lemma {:induction false} IncludedInOrder(list: seq<string>, wanted: seq<string>, live: seq<string>)
    returns (more: seq<string>, at: seq<nat>)
    requires NoRepeats(list)
    ensures WithIncluded(list, wanted, live) == list + more && PartOf(more, wanted, at)
    ensures forall i :: 0 <= i < |at| ==> FirstMention(wanted, at[i]) && wanted[at[i]] !in list
  {
    more, at := [], [];
    if wanted == [] {
      assert list + [] == list;
    } else {
      var before, n := wanted[..|wanted| - 1], |wanted| - 1;
      more, at := IncludedInOrder(list, before, live);
      forall i | 0 <= i < |at| ensures FirstMention(wanted, at[i]) {
        assert wanted[..at[i]] == before[..at[i]];
      }
      WithIncludedKeeps(list, before, live);
      if wanted[n] in live && wanted[n] !in list + more {
        assert (list + more) + [wanted[n]] == list + (more + [wanted[n]]);
        more, at := more + [wanted[n]], at + [n];
      }
    }
  }

  // A user whom the groups let through.
  predicate ByGroup(cfg: Config, u: string) {
    OneOf(cfg.groupInclude, cfg.groups(u)) && !OneOf(cfg.groupExclude, cfg.groups(u))
  }

  // The list before anybody is included by name.
  lemma LimitedInOrder(cfg: Config, live: seq<string>) returns (limited: seq<string>, at: seq<nat>)
    requires NoRepeats(live)
    ensures var wanted := Members(cfg.userInclude);
            && NoRepeats(limited) && PartOf(limited, live, at)
            && UserList(cfg, live) == Minus(if wanted == [] then limited else WithIncluded(limited, wanted, live),
                                            SetOf(Members(cfg.userExclude)))
            && (wanted != [] ==> forall u :: u in limited <==> u in live && ByGroup(cfg, u))
  {
    forall u
      ensures OneOf(cfg.groupInclude, cfg.groups(u)) <==> InGroupOf(cfg, cfg.groupInclude, u)
      ensures OneOf(cfg.groupExclude, cfg.groups(u)) <==> InGroupOf(cfg, cfg.groupExclude, u)
    {
      OneOfMeansInGroup(cfg, cfg.groupInclude, u);
      OneOfMeansInGroup(cfg, cfg.groupExclude, u);
    }
    var wanted := Members(cfg.userInclude);
    var outside := if wanted == [] then {} else NotInIncludedGroup(cfg, live);
    MinusNothing(live, {});
    var byGroup := Minus(live, outside);
    var staying := Minus(byGroup, InExcludedGroup(cfg, byGroup));
    var off := OutOfRange(cfg, if wanted == [] then [] else byGroup, staying);
    limited := Minus(staying, off);
    MinusKeeps(live, outside);
    MinusKeeps(byGroup, InExcludedGroup(cfg, byGroup));
    MinusKeeps(staying, off);
    var gone := outside + InExcludedGroup(cfg, byGroup) + off;
    MinusTwice(live, outside, InExcludedGroup(cfg, byGroup));
    MinusTwice(live, outside + InExcludedGroup(cfg, byGroup), off);
    at := MinusInOrder(live, gone);
  }

  // First come the users who count anyway, as they stood in the list of live users, and
  // then the others included by name, as they are first mentioned there.
  lemma ListedInOrder(cfg: Config, live: seq<string>)
    returns (first: seq<string>, x: seq<nat>, more: seq<string>, y: seq<nat>)
    requires NoRepeats(live)
    ensures UserList(cfg, live) == first + more
    ensures PartOf(first, live, x) && PartOf(more, Members(cfg.userInclude), y)
    ensures forall i :: 0 <= i < |y| ==> FirstMention(Members(cfg.userInclude), y[i])
    ensures Members(cfg.userInclude) != [] ==> forall u :: u in first ==> ByGroup(cfg, u)
    ensures forall u :: u in more ==> !ByGroup(cfg, u)
  {
    var wanted, out := Members(cfg.userInclude), SetOf(Members(cfg.userExclude));
    var limited, z := LimitedInOrder(cfg, live);
    var others, w := [], [];
    if wanted == [] {
      assert limited + [] == limited;
    } else {
      others, w := IncludedInOrder(limited, wanted, live);
      WithIncludedKeeps(limited, wanted, live);
      forall u | u in others ensures !ByGroup(cfg, u) {
        var i :| 0 <= i < |others| && others[i] == u;
        assert wanted[w[i]] !in limited;
        assert u in limited + others;
      }
    }
    MinusJoin(limited, others, out);
    MinusKeeps(limited, out);
    MinusKeeps(others, out);
    first, more := Minus(limited, out), Minus(others, out);
    x := MinusInOrder(limited, out);
    x := PartOfPart(first, limited, live, x, z);
    y := MinusInOrder(others, out);
    y := PartOfPart(more, others, wanted, y, w);
  }
}
