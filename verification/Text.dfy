// Splitting and joining text, and the order of strings.
module Text {
  // strings.Split
  function Split(s: string, sep: char): (r: seq<string>)
    ensures r != []
  {
    if s == "" then [""]
    else
      var rest := Split(s[1..], sep);
      if s[0] == sep then [""] + rest else [[s[0]] + rest[0]] + rest[1..]
  }

  function Join(parts: seq<string>, sep: char): string {
    if parts == [] then ""
    else if |parts| == 1 then parts[0]
    else Join(parts[..|parts| - 1], sep) + [sep] + parts[|parts| - 1]
  }

  ghost predicate Free(parts: seq<string>, sep: char) {
    forall i :: 0 <= i < |parts| ==> sep !in parts[i]
  }

  lemma {:induction false} SplitPiece(a: string, sep: char)
    requires sep !in a
    ensures Split(a, sep) == [a]
  {
    if a != "" {
      SplitPiece(a[1..], sep);
      assert a == [a[0]] + a[1..];
    }
  }

  // A separator splits whatever stands on its two sides.
  lemma {:induction false} SplitSep(s: string, sep: char, t: string)
    ensures Split(s + [sep] + t, sep) == Split(s, sep) + Split(t, sep)
  {
    var whole := s + [sep] + t;
    if s == "" {
      assert whole[1..] == t;
    } else {
      assert whole[1..] == s[1..] + [sep] + t;
      SplitSep(s[1..], sep, t);
    }
  }

  lemma SplitSnoc(s: string, sep: char, a: string)
    requires sep !in a
    ensures Split(s + [sep] + a, sep) == Split(s, sep) + [a]
  {
    SplitSep(s, sep, a);
    SplitPiece(a, sep);
  }

  lemma {:induction false} SplitJoin(parts: seq<string>, sep: char)
    requires parts != [] && Free(parts, sep)
    ensures Split(Join(parts, sep), sep) == parts
  {
    var n := |parts| - 1;
    if n == 0 {
      SplitPiece(parts[0], sep);
    } else {
      SplitJoin(parts[..n], sep);
      SplitSnoc(Join(parts[..n], sep), sep, parts[n]);
    }
  }

  lemma {:induction false} SplitCounts(s: string, sep: char)
    ensures |Split(s, sep)| >= 2 <==> sep in s
    ensures sep !in s ==> Split(s, sep) == [s]
  {
    if s != "" {
      SplitCounts(s[1..], sep);
      assert s == [s[0]] + s[1..];
    }
  }

  lemma JoinSnoc(parts: seq<string>, sep: char, a: string)
    requires parts != []
    ensures Join(parts + [a], sep) == Join(parts, sep) + [sep] + a
    ensures Join([a], sep) == a
  {
    assert (parts + [a])[..|parts|] == parts;
  }

  // Joined with a tail of pieces that are free of the separator, a list tells
  // itself from any other of its length that begins like it.
  lemma {:induction false} JoinTellsApart(a: seq<string>, b: seq<string>, sep: char, j: nat)
    requires 0 < j <= |b| == |a| && a[..j] == b[..j] && Free(b[j..], sep)
    requires Join(a, sep) == Join(b, sep)
    ensures a == b
  {
    var n := |a| - 1;
    if n < j {
      assert a == a[..j] && b == b[..j];
    } else {
      var a', b' := a[..n], b[..n];
      assert a' + [a[n]] == a && b' + [b[n]] == b && a'[..j] == a[..j] && b'[..j] == b[..j];
      assert sep !in b[n] && Free(b'[j..], sep) by {
        assert b[j..][n - j] == b[n] && b[j..][..n - j] == b'[j..];
      }
      LastPieceIsSame(a', a[n], b', b[n], sep, j);
      JoinTellsApart(a', b', sep, j);
    }
  }

  lemma LastPieceIsSame(a: seq<string>, x: string, b: seq<string>, y: string, sep: char, j: nat)
    requires 0 < j <= |b| == |a| && a[..j] == b[..j] && Free(b[j..], sep) && sep !in y
    requires Join(a + [x], sep) == Join(b + [y], sep)
    ensures x == y && Join(a, sep) == Join(b, sep)
  {
    JoinSnoc(a, sep, x);
    JoinSnoc(b, sep, y);
    PiecesOfJoin(a, sep, j);
    PiecesOfJoin(b, sep, j);
    SameCut(Join(a, sep), x, Join(b, sep), y, sep);
  }

  // Text cut at its last separator, and perhaps at another one with no fewer
  // separators in front of it.
  lemma SameCut(s: string, x: string, t: string, y: string, sep: char)
    requires s + [sep] + x == t + [sep] + y && sep !in y && |Split(s, sep)| >= |Split(t, sep)|
    ensures x == y && s == t
  {
    SplitSep(s, sep, x);
    SplitSnoc(t, sep, y);
    SplitCounts(x, sep);
    LastIs(Split(s, sep), x);
    LastIs(Split(t, sep), y);
    CutEnds(s, t, sep, x);
  }

  lemma LastIs(parts: seq<string>, x: string)
    ensures (parts + [x])[|parts + [x]| - 1] == x
  {
  }

  lemma CutEnds(s: string, t: string, sep: char, tail: string)
    requires s + [sep] + tail == t + [sep] + tail
    ensures s == t
  {
    assert (s + [sep] + tail)[..|s|] == s && (t + [sep] + tail)[..|t|] == t;
  }

  lemma {:induction false} PiecesOfJoin(parts: seq<string>, sep: char, j: nat)
    requires 0 < j <= |parts|
    ensures |Split(Join(parts, sep), sep)| >= |Split(Join(parts[..j], sep), sep)| + |parts| - j
    ensures Free(parts[j..], sep) ==>
              |Split(Join(parts, sep), sep)| == |Split(Join(parts[..j], sep), sep)| + |parts| - j
  {
    var n := |parts| - 1;
    if n < j {
      assert parts[..j] == parts;
    } else {
      assert parts[..n][..j] == parts[..j] && parts[..n] + [parts[n]] == parts;
      PiecesOfJoin(parts[..n], sep, j);
      JoinSnoc(parts[..n], sep, parts[n]);
      SplitSep(Join(parts[..n], sep), sep, parts[n]);
      SplitCounts(parts[n], sep);
      assert parts[..n][j..] == parts[j..][..n - j] && parts[j..][n - j] == parts[n];
    }
  }

  // The order sort.Strings uses.
  predicate Less(a: string, b: string) {
    if a == "" then b != ""
    else if b == "" then false
    else a[0] < b[0] || (a[0] == b[0] && Less(a[1..], b[1..]))
  }

  // a comes before b when it is cut short where b goes on, or has the smaller
  // character where they first differ.
  lemma {:induction false} LessExactlyWhen(a: string, b: string)
    ensures Less(a, b) <==> exists i :: DiffersAt(a, b, i) && (i == |a| || (i < |b| && a[i] < b[i]))
  {
    if a != "" && b != "" {
      forall i | DiffersAt(a, b, i) && i > 0 ensures a[0] == b[0] {
        assert a[..i][0] == a[0] && b[..i][0] == b[0];
      }
    }
    if a != "" && b != "" && a[0] == b[0] {
      LessExactlyWhen(a[1..], b[1..]);
      assert a == [a[0]] + a[1..] && b == [b[0]] + b[1..];
      forall i | DiffersAt(a, b, i) ensures i > 0 && DiffersAt(a[1..], b[1..], i - 1) {
        assert i > 0 ==> a[1..][..i - 1] == a[..i][1..] && b[1..][..i - 1] == b[..i][1..];
      }
      forall i: nat | DiffersAt(a[1..], b[1..], i) ensures DiffersAt(a, b, i + 1) {
        assert a[..i + 1] == [a[0]] + a[1..][..i] && b[..i + 1] == [b[0]] + b[1..][..i];
      }
    } else {
      assert a != b ==> DiffersAt(a, b, 0);
    }
  }

  // The texts are the same up to i, and not beyond.
  predicate DiffersAt(a: string, b: string, i: int) {
    0 <= i <= |a| && i <= |b| && a[..i] == b[..i] && a != b && (i < |a| && i < |b| ==> a[i] != b[i])
  }

  lemma {:induction false} LessIsTotal(a: string, b: string)
    ensures !Less(a, a)
    ensures Less(a, b) || Less(b, a) || a == b
    ensures !(Less(a, b) && Less(b, a))
  {
    if a != "" {
      LessIsTotal(a[1..], if b == "" then "" else b[1..]);
      if b != "" {
        assert a == [a[0]] + a[1..] && b == [b[0]] + b[1..];
      }
    }
  }

  lemma {:induction false} LessTrans(a: string, b: string, c: string)
    requires Less(a, b) && Less(b, c)
    ensures Less(a, c)
  {
    if a != "" && a[0] == b[0] && b[0] == c[0] {
      LessTrans(a[1..], b[1..], c[1..]);
    }
  }

  ghost predicate Sorted(s: seq<string>) {
    forall i, j :: 0 <= i < j < |s| ==> Less(s[i], s[j])
  }

  // There is one sorted list of a set of strings.
  lemma {:induction false} SortedIsUnique(a: seq<string>, b: seq<string>)
    requires Sorted(a) && Sorted(b)
    requires forall k :: k in a <==> k in b
    ensures a == b
  {
    assert (a != [] ==> a[0] in a) && (b != [] ==> b[0] in b);
    if a != [] && b != [] {
      var m, n := |a| - 1, |b| - 1;
      LastIsLast(a, b);
      LastIsLast(b, a);
      LessIsTotal(a[m], b[n]);
      forall k ensures k in a[..m] <==> k in b[..n] {
        InButLast(a, k);
        InButLast(b, k);
      }
      SortedIsUnique(a[..m], b[..n]);
      assert a == a[..m] + [a[m]] && b == b[..n] + [b[n]];
    }
  }

  lemma LastIsLast(a: seq<string>, b: seq<string>)
    requires Sorted(b) && a != [] && b != [] && a[|a| - 1] in b
    ensures a[|a| - 1] == b[|b| - 1] || Less(a[|a| - 1], b[|b| - 1])
  {
    var j :| 0 <= j < |b| && b[j] == a[|a| - 1];
  }

  lemma InButLast(a: seq<string>, k: string)
    requires Sorted(a) && a != []
    ensures k in a[..|a| - 1] <==> k in a && k != a[|a| - 1]
  {
    var m := |a| - 1;
    if k in a[..m] {
      var i :| 0 <= i < m && a[..m][i] == k;
      LessIsTotal(k, k);
    }
    assert a == a[..m] + [a[m]];
  }

  // sort.Strings on distinct strings.
  method SortStrings(keys: seq<string>) returns (sorted: seq<string>)
    requires forall i, j :: 0 <= i < j < |keys| ==> keys[i] != keys[j]
    ensures Sorted(sorted) && |sorted| == |keys|
    ensures forall k :: k in sorted <==> k in keys
  {
    sorted := [];
    for n := 0 to |keys|
      invariant Sorted(sorted) && |sorted| == n
      invariant forall k :: k in sorted <==> k in keys[..n]
    {
      assert keys[..n + 1] == keys[..n] + [keys[n]];
      sorted := Inserted(sorted, keys[n]);
    }
    assert keys[..|keys|] == keys;
  }

  method Inserted(sorted: seq<string>, key: string) returns (r: seq<string>)
    requires Sorted(sorted) && key !in sorted
    ensures Sorted(r) && |r| == |sorted| + 1
    ensures forall k :: k in r <==> k in sorted || k == key
  {
    var i := |sorted|;
    while i > 0 && Less(key, sorted[i - 1])
      invariant 0 <= i <= |sorted|
      invariant forall j :: i <= j < |sorted| ==> Less(key, sorted[j])
    {
      i := i - 1;
    }
    if i > 0 {
      LessIsTotal(key, sorted[i - 1]);
      forall j | 0 <= j < i - 1 ensures Less(sorted[j], key) {
        LessTrans(sorted[j], sorted[i - 1], key);
      }
    }
    r := sorted[..i] + [key] + sorted[i..];
    forall k ensures k in r <==> k in sorted || k == key {
      assert sorted == sorted[..i] + sorted[i..];
    }
  }
}
