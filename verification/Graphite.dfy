// One metric as a Graphite line, and reading such a line back
// (src/fullerite/handler/graphite.go:79-103, src/fullerite/metric/metric.go:64-73).
module Graphite {
  import opened Metrics
  import opened Sanitize
  import opened Text

  const RULES := Rules(false, "!#$%&\"*+-;<>?@[\\]^_`|~")

  // The lines below are built with any sanitizer; graphiteSanitize is this one.
  type Sanitizer = string -> string

  function GraphiteSanitize(u: Unicode): Sanitizer {
    s => StrSanitize(u, RULES, s)
  }

  // A sanitized text survives being put between spaces and dots.
  ghost predicate FitsLines(clean: Sanitizer) {
    forall s :: FitsLine(clean(s))
  }

  ghost predicate FitsLine(t: string) {
    t != "" && '.' !in t && ' ' !in t
  }

  lemma CleanTextFits(u: Unicode, t: string)
    requires Standard(u) && t != "" && AllClean(u, RULES, t)
    ensures FitsLine(t)
  {
    forall i | 0 <= i < |t| ensures t[i] != '.' && t[i] != ' ' {
      assert Sanitize.Clean(u, RULES, t[i]);
      NeitherDotNorBlank(u, t[i]);
    }
  }

  lemma NeitherDotNorBlank(u: Unicode, c: char)
    requires Standard(u) && Sanitize.Clean(u, RULES, c)
    ensures c != '.' && c != ' '
  {
    DotAndBlankNotAllowed();
  }

  lemma DotAndBlankNotAllowed()
    ensures !RuneInSlice('.', RULES.allowed) && !RuneInSlice(' ', RULES.allowed)
  {
    assert forall i :: 0 <= i < |RULES.allowed| ==> RULES.allowed[i] != '.' && RULES.allowed[i] != ' ';
  }

  lemma GraphiteSanitizeFitsLines(u: Unicode)
    requires Standard(u)
    ensures FitsLines(GraphiteSanitize(u))
  {
    forall s ensures FitsLine(GraphiteSanitize(u)(s)) {
      SanitizedIsClean(u, RULES, s);
      CleanTextFits(u, StrSanitize(u, RULES, s));
    }
  }

  // GetDimensions: the handler's defaults win.
  function GetDimensions(m: Metric, defaults: Dimensions): Dimensions {
    m.dimensions + defaults
  }

  // What the sanitized dimensions may be: for each sanitized key the value of
  // some key that sanitizes to it, Go's map order choosing which.
  ghost predicate MaySanitizeTo(sanitize: Sanitizer, dims: Dimensions, clean: Dimensions) {
    && clean.Keys == (set k <- dims :: sanitize(k))
    && forall q <- clean :: exists k :: k in dims && sanitize(k) == q && sanitize(dims[k]) == clean[q]
  }

  method GetSanitizedDimensions(sanitize: Sanitizer, dims: Dimensions, order: seq<string>) returns (clean: Dimensions)
    requires forall k :: k in order <==> k in dims
    ensures MaySanitizeTo(sanitize, dims, clean)
    ensures |order| > 0 ==> sanitize(order[|order| - 1]) in clean &&
                            clean[sanitize(order[|order| - 1])] == sanitize(dims[order[|order| - 1]])
  {
    clean := map[];
    for i := 0 to |order|
      invariant clean.Keys == set k | k in order[..i] :: sanitize(k)
      invariant forall q <- clean :: exists k :: k in dims && sanitize(k) == q && sanitize(dims[k]) == clean[q]
      invariant i > 0 ==>
                  sanitize(order[i - 1]) in clean && clean[sanitize(order[i - 1])] == sanitize(dims[order[i - 1]])
    {
      var k := order[i];
      assert k in order && order[..i + 1] == order[..i] + [k];
      var was := clean;
      clean := clean[sanitize(k) := sanitize(dims[k])];
    }
    assert order[..|order|] == order;
  }

  predicate Alike(sanitize: Sanitizer, dims: Dimensions, j: string, k: string) {
    j in dims && k in dims && sanitize(j) == sanitize(k) ==> sanitize(dims[j]) == sanitize(dims[k])
  }

  ghost predicate Agreeing(sanitize: Sanitizer, dims: Dimensions) {
    forall j, k :: Alike(sanitize, dims, j, k)
  }

  // The sanitized dimensions do not depend on Go's map order, exactly when keys
  // that sanitize alike have values that do.
  lemma OrderMattersExactlyOnCollisions(sanitize: Sanitizer, dims: Dimensions)
    ensures (forall a, b :: MaySanitizeTo(sanitize, dims, a) && MaySanitizeTo(sanitize, dims, b) ==> a == b) <==>
            Agreeing(sanitize, dims)
  {
    if Agreeing(sanitize, dims) {
      forall a, b | MaySanitizeTo(sanitize, dims, a) && MaySanitizeTo(sanitize, dims, b) ensures a == b {
        AgreeingIsUnique(sanitize, dims, a, b);
      }
    } else {
      var j, k :| !Alike(sanitize, dims, j, k);
      var a, b := EndingIn(sanitize, dims, j), EndingIn(sanitize, dims, k);
      assert a[sanitize(j)] != b[sanitize(j)];
    }
  }

  // Such keys exist for Graphite: "a b" and "a_b" both become "a_b".
  lemma BlankAndUnderscoreCollide(u: Unicode)
    requires Standard(u)
    ensures !Agreeing(GraphiteSanitize(u), map["a b" := "1", "a_b" := "2"])
  {
    var dims := map["a b" := "1", "a_b" := "2"];
    BlankBecomesUnderscore(u);
    PlainTextStays(u, "a_b");
    PlainTextStays(u, "1");
    PlainTextStays(u, "2");
    assert !Alike(GraphiteSanitize(u), dims, "a b", "a_b");
  }

  lemma BlankBecomesUnderscore(u: Unicode)
    requires Standard(u)
    ensures StrSanitize(u, RULES, "a b") == "a_b"
  {
    var r := StrSanitize(u, RULES, "a b");
    assert u.space(' ');
    SanitizedCharacterByCharacter(u, RULES, "a b", 0);
    SanitizedCharacterByCharacter(u, RULES, "a b", 1);
    SanitizedCharacterByCharacter(u, RULES, "a b", 2);
    assert r == [r[0], r[1], r[2]];
  }

  lemma PlainTextStays(u: Unicode, s: string)
    requires Standard(u) && s in ["a_b", "1", "2"]
    ensures StrSanitize(u, RULES, s) == s
  {
    assert RULES.allowed[8] == '-';
    CleanIsFixed(u, RULES, s);
  }

  lemma AgreeingIsUnique(sanitize: Sanitizer, dims: Dimensions, a: Dimensions, b: Dimensions)
    requires Agreeing(sanitize, dims) && MaySanitizeTo(sanitize, dims, a) && MaySanitizeTo(sanitize, dims, b)
    ensures a == b
  {
    assert a.Keys == b.Keys;
    forall q | q in a ensures a[q] == b[q] {
      var j := SourceOf(sanitize, dims, a, q);
      var k := SourceOf(sanitize, dims, b, q);
      assert Alike(sanitize, dims, j, k);
    }
  }

  lemma SourceOf(sanitize: Sanitizer, dims: Dimensions, clean: Dimensions, q: string) returns (k: string)
    requires MaySanitizeTo(sanitize, dims, clean) && q in clean
    ensures k in dims && sanitize(k) == q && sanitize(dims[k]) == clean[q]
  {
    k :| k in dims && sanitize(k) == q && sanitize(dims[k]) == clean[q];
  }

  // An outcome in which key k is the one that counts.
  ghost function EndingIn(sanitize: Sanitizer, dims: Dimensions, k: string): (clean: Dimensions)
    requires k in dims
    ensures MaySanitizeTo(sanitize, dims, clean) && clean[sanitize(k)] == sanitize(dims[k])
  {
    map q | q in (set j <- dims :: sanitize(j)) ::
      sanitize(dims[if q == sanitize(k) then k else KeyFor(sanitize, dims, q)])
  }

  ghost function KeyFor(sanitize: Sanitizer, dims: Dimensions, q: string): (j: string)
    requires exists j :: j in dims && sanitize(j) == q
    ensures j in dims && sanitize(j) == q
  {
    var j :| j in dims && sanitize(j) == q;
    j
  }

  // ---- The line ----

  // Keys and values in turn.
  function Pairs(keys: seq<string>, dims: Dimensions): seq<string>
    requires forall k <- keys :: k in dims
  {
    if keys == [] then []
    else
      var k := keys[|keys| - 1];
      Pairs(keys[..|keys| - 1], dims) + [k, dims[k]]
  }

  // keys is the sorted list of a map's keys.
  ghost predicate SortedKeys(keys: seq<string>, dims: Dimensions) {
    Sorted(keys) && forall k :: k in keys <==> k in dims
  }

  function PathOf(sanitize: Sanitizer, name: string, keys: seq<string>, dims: Dimensions): string
    requires forall k <- keys :: k in dims
  {
    Join([sanitize(name)] + Pairs(keys, dims), '.')
  }

  function LineOf(prefix: string, path: string, value: string, time: string): string {
    Join([prefix + path, value, time + "\n"], ' ')
  }

  // A line for a metric: the sanitized name and the sanitized pairs in key order.
  ghost predicate IsLineFor(sanitize: Sanitizer, prefix: string, m: Metric, defaults: Dimensions, value: string,
                            time: string, line: string) {
    exists keys, clean :: IsLineWith(sanitize, prefix, m, defaults, value, time, line, keys, clean)
  }

  ghost predicate IsLineWith(sanitize: Sanitizer, prefix: string, m: Metric, defaults: Dimensions, value: string,
                             time: string, line: string, keys: seq<string>, clean: Dimensions) {
    && MaySanitizeTo(sanitize, GetDimensions(m, defaults), clean) && SortedKeys(keys, clean)
    && line == LineOf(prefix, PathOf(sanitize, m.name, keys, clean), value, time)
  }

  // convertToGraphite. value and time are the formatted numbers; order is one
  // order of the dimensions.
  method ConvertToGraphite(sanitize: Sanitizer, prefix: string, m: Metric, defaults: Dimensions, value: string,
                           time: string, order: seq<string>)
    returns (datapoint: string)
    requires forall k :: k in order <==> k in GetDimensions(m, defaults)
    ensures IsLineFor(sanitize, prefix, m, defaults, value, time, datapoint)
  {
    var dimensions := GetSanitizedDimensions(sanitize, GetDimensions(m, defaults), order);
    var keys := ListKeys(dimensions);
    keys := SortStrings(keys);
    datapoint := ExtendPath(sanitize, prefix, m.name, keys, dimensions);
    ThreeJoined(datapoint, value, time + "\n");
    datapoint := datapoint + " " + value + " " + time + "\n";
    assert IsLineWith(sanitize, prefix, m, defaults, value, time, datapoint, keys, dimensions);
  }

  // When no two keys collide with different values, there is one such line.
  lemma LineIsUniqueWhenKeysAgree(sanitize: Sanitizer, prefix: string, m: Metric, defaults: Dimensions, value: string,
                                  time: string, a: string, b: string)
    requires Agreeing(sanitize, GetDimensions(m, defaults))
    requires IsLineFor(sanitize, prefix, m, defaults, value, time, a)
    requires IsLineFor(sanitize, prefix, m, defaults, value, time, b)
    ensures a == b
  {
    var k1, c1 :| IsLineWith(sanitize, prefix, m, defaults, value, time, a, k1, c1);
    var k2, c2 :| IsLineWith(sanitize, prefix, m, defaults, value, time, b, k2, c2);
    AgreeingIsUnique(sanitize, GetDimensions(m, defaults), c1, c2);
    SortedIsUnique(k1, k2);
  }

  // The loop that extends the datapoint by one pair at a time.
  method ExtendPath(sanitize: Sanitizer, prefix: string, name: string, keys: seq<string>, dims: Dimensions)
    returns (datapoint: string)
    requires forall k <- keys :: k in dims
    ensures datapoint == prefix + PathOf(sanitize, name, keys, dims)
  {
    datapoint := prefix + sanitize(name);
    for i := 0 to |keys|
      invariant datapoint == prefix + PathOf(sanitize, name, keys[..i], dims)
    {
      PathGrows(sanitize, name, keys, i, dims);
      datapoint := datapoint + "." + keys[i] + "." + dims[keys[i]];
    }
    assert keys[..|keys|] == keys;
  }

  lemma ThreeJoined(a: string, b: string, c: string)
    ensures Join([a, b, c], ' ') == a + " " + b + " " + c
  {
    JoinSnoc([a], ' ', b);
    JoinSnoc([a] + [b], ' ', c);
    assert [a] + [b] + [c] == [a, b, c];
  }

  lemma PathGrows(sanitize: Sanitizer, name: string, keys: seq<string>, i: nat, dims: Dimensions)
    requires i < |keys| && forall k <- keys :: k in dims
    ensures forall k <- keys[..i + 1] :: k in dims
    ensures PathOf(sanitize, name, keys[..i + 1], dims) ==
            PathOf(sanitize, name, keys[..i], dims) + "." + keys[i] + "." + dims[keys[i]]
  {
    var before := [sanitize(name)] + Pairs(keys[..i], dims);
    assert keys[..i + 1][..i] == keys[..i];
    JoinSnoc(before, '.', keys[i]);
    JoinSnoc(before + [keys[i]], '.', dims[keys[i]]);
    assert [sanitize(name)] + Pairs(keys[..i + 1], dims) == before + [keys[i]] + [dims[keys[i]]];
  }

  // Ranging over the map, in any order.
  method ListKeys(dims: Dimensions) returns (keys: seq<string>)
    ensures forall i, j :: 0 <= i < j < |keys| ==> keys[i] != keys[j]
    ensures forall k :: k in keys <==> k in dims
  {
    keys := [];
    var rest := dims.Keys;
    while rest != {}
      invariant rest <= dims.Keys
      invariant forall i, j :: 0 <= i < j < |keys| ==> keys[i] != keys[j]
      invariant forall k :: k in keys <==> k in dims && k !in rest
      decreases |rest|
    {
      var k :| k in rest;
      keys, rest := keys + [k], rest - {k};
    }
  }

  // ---- Reading a line back ----

  lemma {:induction false} PairsAre(keys: seq<string>, dims: Dimensions)
    requires forall k <- keys :: k in dims
    ensures |Pairs(keys, dims)| == 2 * |keys|
    ensures forall i :: 0 <= i < |keys| ==>
              Pairs(keys, dims)[2 * i] == keys[i] && Pairs(keys, dims)[2 * i + 1] == dims[keys[i]]
  {
    if keys != [] {
      PairsAre(keys[..|keys| - 1], dims);
    }
  }

  lemma PartsAreFree(sanitize: Sanitizer, name: string, dims: Dimensions, clean: Dimensions, keys: seq<string>)
    requires FitsLines(sanitize) && MaySanitizeTo(sanitize, dims, clean) && SortedKeys(keys, clean)
    ensures var parts := [sanitize(name)] + Pairs(keys, clean); Free(parts, '.') && Free(parts, ' ')
  {
    var parts := [sanitize(name)] + Pairs(keys, clean);
    assert FitsLine(sanitize(name));
    PairsAre(keys, clean);
    forall i | 0 <= i < |parts| ensures '.' !in parts[i] && ' ' !in parts[i] {
      if i > 0 {
        var j := (i - 1) / 2;
        assert keys[j] in keys;
        PairIsFree(sanitize, dims, clean, keys[j]);
        assert parts[i] == Pairs(keys, clean)[i - 1];
        assert i - 1 == 2 * j || i - 1 == 2 * j + 1;
      }
    }
  }

  lemma PairIsFree(sanitize: Sanitizer, dims: Dimensions, clean: Dimensions, q: string)
    requires FitsLines(sanitize) && MaySanitizeTo(sanitize, dims, clean) && q in clean
    ensures '.' !in q && ' ' !in q && '.' !in clean[q] && ' ' !in clean[q]
  {
    var k :| k in dims && sanitize(k) == q && sanitize(dims[k]) == clean[q];
    assert FitsLine(sanitize(k)) && FitsLine(sanitize(dims[k]));
  }

  // After the prefix, a path splits at its dots into the name and the sorted
  // pairs.
  lemma PathSplits(sanitize: Sanitizer, name: string, dims: Dimensions, clean: Dimensions, keys: seq<string>)
    requires FitsLines(sanitize) && MaySanitizeTo(sanitize, dims, clean) && SortedKeys(keys, clean)
    ensures Split(PathOf(sanitize, name, keys, clean), '.') == [sanitize(name)] + Pairs(keys, clean)
  {
    PartsAreFree(sanitize, name, dims, clean, keys);
    SplitJoin([sanitize(name)] + Pairs(keys, clean), '.');
  }

  // Given numbers without blanks in them, a line has three fields exactly when
  // the handler's prefix has no blank, and then they are these.
  lemma ThreeFieldsExactlyWhen(sanitize: Sanitizer, name: string, dims: Dimensions, clean: Dimensions,
                               keys: seq<string>, prefix: string, value: string, time: string)
    requires FitsLines(sanitize) && MaySanitizeTo(sanitize, dims, clean) && SortedKeys(keys, clean)
    requires ' ' !in value && ' ' !in time
    ensures var path := PathOf(sanitize, name, keys, clean);
            var fields := Split(LineOf(prefix, path, value, time), ' ');
            && (|fields| == 3 <==> ' ' !in prefix)
            && (' ' !in prefix ==> fields == [prefix + path, value, time + "\n"])
  {
    var path := PathOf(sanitize, name, keys, clean);
    PartsAreFree(sanitize, name, dims, clean, keys);
    JoinIsFree([sanitize(name)] + Pairs(keys, clean));
    ThreeJoined(prefix + path, value, time + "\n");
    SplitSnoc(prefix + path, ' ', value);
    SplitSnoc(prefix + path + " " + value, ' ', time + "\n");
    PiecesCount(prefix + path);
  }

  lemma {:induction false} JoinIsFree(parts: seq<string>)
    requires Free(parts, ' ')
    ensures ' ' !in Join(parts, '.')
  {
    if |parts| > 1 {
      JoinIsFree(parts[..|parts| - 1]);
    }
  }

  lemma {:induction false} PiecesCount(s: string)
    ensures ' ' !in s <==> |Split(s, ' ')| == 1
    ensures ' ' !in s ==> Split(s, ' ') == [s]
  {
    if s != "" {
      PiecesCount(s[1..]);
      assert s == [s[0]] + s[1..];
    }
  }

  // Two metrics share a path exactly when they agree on the sanitized name and
  // dimensions: the path is a key for them.
  lemma PathIsAKey(sanitize: Sanitizer, n1: string, d1: Dimensions, c1: Dimensions, k1: seq<string>,
                   n2: string, d2: Dimensions, c2: Dimensions, k2: seq<string>)
    requires FitsLines(sanitize)
    requires MaySanitizeTo(sanitize, d1, c1) && SortedKeys(k1, c1)
    requires MaySanitizeTo(sanitize, d2, c2) && SortedKeys(k2, c2)
    ensures PathOf(sanitize, n1, k1, c1) == PathOf(sanitize, n2, k2, c2) <==> sanitize(n1) == sanitize(n2) && c1 == c2
  {
    if PathOf(sanitize, n1, k1, c1) == PathOf(sanitize, n2, k2, c2) {
      PathSplits(sanitize, n1, d1, c1, k1);
      PathSplits(sanitize, n2, d2, c2, k2);
      var a, b := [sanitize(n1)] + Pairs(k1, c1), [sanitize(n2)] + Pairs(k2, c2);
      assert a[0] == sanitize(n1) && b[0] == sanitize(n2);
      assert a[1..] == Pairs(k1, c1) && b[1..] == Pairs(k2, c2);
      PairsDetermine(k1, c1, k2, c2);
    } else if c1 == c2 {
      SortedIsUnique(k1, k2);
    }
  }

  lemma PairsDetermine(k1: seq<string>, c1: Dimensions, k2: seq<string>, c2: Dimensions)
    requires SortedKeys(k1, c1) && SortedKeys(k2, c2) && Pairs(k1, c1) == Pairs(k2, c2)
    ensures c1 == c2
  {
    PairsAre(k1, c1);
    PairsAre(k2, c2);
    forall i | 0 <= i < |k1| ensures k1[i] == k2[i] && c1[k1[i]] == c2[k2[i]] {
      assert Pairs(k1, c1)[2 * i] == Pairs(k2, c2)[2 * i];
      assert Pairs(k1, c1)[2 * i + 1] == Pairs(k2, c2)[2 * i + 1];
    }
    assert k1 == k2;
    forall q | q in c1 ensures q in c2 && c1[q] == c2[q] {
      assert q in k1;
      var i :| 0 <= i < |k1| && k1[i] == q;
    }
  }

  // ---- The texts themselves ----

  // The handler's default dimensions win over the metric's.
  lemma DefaultsWin(m: Metric, defaults: Dimensions, k: string)
    ensures k in GetDimensions(m, defaults) <==> k in m.dimensions || k in defaults
    ensures k in defaults ==> GetDimensions(m, defaults)[k] == defaults[k]
    ensures k !in defaults && k in m.dimensions ==> GetDimensions(m, defaults)[k] == m.dimensions[k]
  {
  }

  // A line is the prefix, the name, and for each key a dot, the key, a dot and its
  // value; then a blank, the value, a blank, the time and a line feed.
  lemma LineText(sanitize: Sanitizer, prefix: string, name: string, keys: seq<string>, dims: Dimensions, k: string,
                 value: string, time: string)
    requires (forall q <- keys :: q in dims) && k in dims
    ensures PathOf(sanitize, name, [], dims) == sanitize(name)
    ensures (forall q <- keys + [k] :: q in dims) &&
            PathOf(sanitize, name, keys + [k], dims) == PathOf(sanitize, name, keys, dims) + "." + k + "." + dims[k]
    ensures LineOf(prefix, PathOf(sanitize, name, keys, dims), value, time) ==
            prefix + PathOf(sanitize, name, keys, dims) + " " + value + " " + time + "\n"
  {
    assert (keys + [k])[..|keys|] == keys && (keys + [k])[..|keys| + 1] == keys + [k];
    PathGrows(sanitize, name, keys + [k], |keys|, dims);
    ThreeJoined(prefix + PathOf(sanitize, name, keys, dims), value, time + "\n");
    LastPart(prefix + PathOf(sanitize, name, keys, dims) + " " + value + " ", time);
  }

  lemma LastPart(a: string, time: string)
    ensures a + (time + "\n") == a + time + "\n"
  {
  }

  lemma AmongTheRules(c: char)
    ensures RuneInSlice(c, RULES.allowed) <==> c in "!#$%&\"*+-;<>?@[\\]^_`|~"
  {
    if c in "!#$%&\"*+-;<>?@[\\]^_`|~" {
      assert c in RULES.allowed;
    } else {
      assert c !in RULES.allowed;
    }
  }

  lemma PunctuationAmongTheRules(c: char)
    requires c in "!\"#%&'()*,-./:;?@[\\]_{}" && c != ':'
    ensures c in "!#$%&\"*+-;<>?@[\\]^_`|~" <==> c in "!#%&\"*-;?@[\\]_"
  {
  }

  // Of ASCII punctuation Graphite keeps fourteen characters; a colon becomes a dash and
  // the rest underscores. Symbols, which are no punctuation, are left out.
  lemma GraphiteKeeps(u: Unicode, c: char)
    requires Standard(u) && c as int < 128 && u.punct(c)
    ensures GraphiteSanitize(u)([c]) ==
            if c == ':' then "-" else if c in "!#%&\"*-;?@[\\]_" then [c] else "_"
  {
    PunctuationIsNoBlank(u, c);
    assert [c][0] == c;
    SanitizedCharacterByCharacter(u, RULES, [c], 0);
    assert GraphiteSanitize(u)([c]) == [Becomes(u, RULES, c)];
    if c != ':' {
      PunctuationAmongTheRules(c);
      AmongTheRules(c);
    }
  }

  lemma PunctuationIsNoBlank(u: Unicode, c: char)
    requires Standard(u) && c as int < 128 && u.punct(c)
    ensures !u.space(c) && !u.digit(c) && !AsciiLetter(c) && c != '='
    ensures c in "!\"#%&'()*,-./:;?@[\\]_{}"
  {
  }
}
