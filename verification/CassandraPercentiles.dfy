// Percentiles of a Cassandra histogram
// (src/diamond/collectors/jolokia/cassandra_jolokia.py:122-156).
module CassandraPercentiles {
  // ---- create_offsets ----

  // round(1.2 * n): the nearest whole number, and never a tie between two.
  function Rounded(n: nat): (r: nat)
    ensures -5 < 10 * r - 12 * n < 5
  {
    var r := (12 * n + 5) / 10;
    assert 12 * n + 5 - 10 * r == 2 * (6 * n + 2 - 5 * r) + 1;
    r
  }

  function Next(n: nat): nat {
    if Rounded(n) == n then n + 1 else Rounded(n)
  }

  // The k-th offset.
  function Offset(k: nat): nat {
    if k == 0 then 1 else Next(Offset(k - 1))
  }

  ghost predicate AreOffsets(offsets: seq<int>) {
    forall k :: 0 <= k < |offsets| ==> offsets[k] == Offset(k)
  }

  method CreateOffsets(bucketCount: int) returns (offsets: seq<int>)
    ensures |offsets| == 1 + if bucketCount < 0 then 0 else bucketCount
    ensures AreOffsets(offsets)
  {
    var lastNum: nat := 1;
    offsets := [lastNum];
    for index := 0 to if bucketCount < 0 then 0 else bucketCount
      invariant |offsets| == index + 1 && lastNum == Offset(index) && AreOffsets(offsets)
    {
      OneMoreOffset(offsets);
      var nextNum := Rounded(lastNum);
      if nextNum == lastNum {
        nextNum := nextNum + 1;
      }
      offsets := offsets + [nextNum];
      lastNum := nextNum;
    }
  }

  lemma OneMoreOffset(offsets: seq<int>)
    requires AreOffsets(offsets)
    ensures AreOffsets(offsets + [Offset(|offsets|)])
    ensures |offsets| > 0 ==> Offset(|offsets|) == Next(Offset(|offsets| - 1))
  {
  }

  // How wide the bucket between two offsets is.
  function Width(k: nat): int {
    Offset(k + 1) - Offset(k)
  }

  // The offsets rise, and each bucket is at least as wide as the one before.
  lemma {:induction false} OffsetsRise(j: nat, k: nat)
    requires j < k
    ensures 1 <= Offset(j) < Offset(k)
    ensures 1 <= Width(j) <= Width(k)
    decreases k
  {
    AtLeastOne(j);
    AtLeastOne(k - 1);
    AtLeastOne(k);
    if j < k - 1 {
      OffsetsRise(j, k - 1);
    }
    WidensOnce(Offset(k - 1));
  }

  lemma WidensOnce(n: nat)
    requires n >= 1
    ensures n < Next(n) && Next(n) - n <= Next(Next(n)) - Next(n)
  {
  }

  lemma {:induction false} AtLeastOne(k: nat)
    ensures Offset(k) >= 1
  {
    if k > 0 {
      AtLeastOne(k - 1);
    }
  }

  // ---- compute_percentile ----

  // NoValue is Python's None, from a loop that runs out.
  datatype Percentile = Value(v: int) | NoValue | IndexError

  // The points in the buckets up to and including one of them.
  function Seen(buckets: seq<int>, i: nat): int
    requires i < |buckets|
  {
    buckets[i] + if i == 0 then 0 else Seen(buckets, i - 1)
  }

  function Sum(buckets: seq<int>): int {
    if buckets == [] then 0 else Seen(buckets, |buckets| - 1)
  }

  function Rank(buckets: seq<int>, p: int): int {
    Sum(buckets) * p / 100
  }

  // round(d / 2), with halves away from zero.
  function Half(d: int): int {
    if d >= 0 then (d + 1) / 2 else -((1 - d) / 2)
  }

  // offsets[-1] is the last one.
  function Before(offsets: seq<int>, i: nat): int
    requires i < |offsets|
  {
    if i == 0 then offsets[|offsets| - 1] else offsets[i - 1]
  }

  // The first bucket at which the points seen so far make up the rank.
  ghost predicate Hit(buckets: seq<int>, rank: int, i: nat) {
    i < |buckets| && Seen(buckets, i) >= rank && forall j :: 0 <= j < i ==> Seen(buckets, j) < rank
  }

  ghost predicate IsValueAt(offsets: seq<int>, i: nat, r: Percentile) {
    if i < |offsets| then r == Value(Half(offsets[i] - Before(offsets, i))) else r == IndexError
  }

  method ComputePercentile(offsets: seq<int>, buckets: seq<int>, percentile: int) returns (r: Percentile)
    requires offsets != []
    ensures Sum(buckets) == 0 ==> r == Value(0)
    ensures Sum(buckets) != 0 ==> forall i :: Hit(buckets, Rank(buckets, percentile), i) ==> IsValueAt(offsets, i, r)
    ensures Sum(buckets) != 0 ==> (r == NoValue <==> forall i: nat :: !Hit(buckets, Rank(buckets, percentile), i))
  {
    var sum := 0;
    for i := 0 to |buckets|
      invariant sum == if i == 0 then 0 else Seen(buckets, i - 1)
    {
      sum := sum + buckets[i];
    }
    if sum == 0 {
      return Value(0);
    }
    var middlePointIndex := Rank(buckets, percentile);
    var pointsSeen := 0;
    for index := 0 to |buckets|
      invariant pointsSeen == if index == 0 then 0 else Seen(buckets, index - 1)
      invariant forall j :: 0 <= j < index ==> Seen(buckets, j) < middlePointIndex
    {
      pointsSeen := pointsSeen + buckets[index];
      if pointsSeen >= middlePointIndex {
        OneHit(buckets, middlePointIndex, index);
        if index >= |offsets| {
          return IndexError;
        }
        return Value(Half(offsets[index] - Before(offsets, index)));
      }
    }
    r := NoValue;
  }

  lemma OneHit(buckets: seq<int>, rank: int, i: nat)
    requires i < |buckets| && Seen(buckets, i) >= rank && forall j :: 0 <= j < i ==> Seen(buckets, j) < rank
    ensures Hit(buckets, rank, i) && forall j: nat :: Hit(buckets, rank, j) ==> j == i
  {
  }

  // ---- Histograms ----

  ghost predicate Counts(buckets: seq<int>) {
    forall i :: 0 <= i < |buckets| ==> buckets[i] >= 0
  }

  lemma {:induction false} SumsRise(buckets: seq<int>, i: nat, j: nat)
    requires Counts(buckets) && i <= j < |buckets|
    ensures 0 <= Seen(buckets, i) <= Seen(buckets, j)
    decreases j
  {
    if i < j {
      SumsRise(buckets, i, j - 1);
    } else if i > 0 {
      SumsRise(buckets, i - 1, i - 1);
    }
  }

  // A bucket is found exactly when the rank is no more than all the points.
  lemma HitExactlyWhen(buckets: seq<int>, rank: int)
    requires Counts(buckets) && buckets != []
    ensures (exists i: nat :: Hit(buckets, rank, i)) <==> rank <= Sum(buckets)
  {
    if i: nat :| Hit(buckets, rank, i) {
      SumsRise(buckets, i, |buckets| - 1);
    }
    if rank <= Sum(buckets) {
      var i := FirstHit(buckets, rank, |buckets| - 1);
    }
  }

  lemma {:induction false} FirstHit(buckets: seq<int>, rank: int, last: nat) returns (i: nat)
    requires last < |buckets| && Seen(buckets, last) >= rank
    ensures Hit(buckets, rank, i) && i <= last
  {
    if j :| 0 <= j < last && Seen(buckets, j) >= rank {
      i := FirstHit(buckets, rank, j);
    } else {
      i := last;
    }
  }

  lemma RanksRise(total: nat, p: int, q: int)
    requires 0 <= p <= q <= 100
    ensures 0 <= total * p / 100 <= total * q / 100 <= total
  {
    assert 0 <= total * p <= total * q <= total * 100 by {
      assert total * (q - p) >= 0 && total * (100 - q) >= 0 && total * p >= 0;
    }
  }

  // A histogram no longer than the offsets always gives a value for a
  // percentage: half the width of the bucket that holds the point of that rank.
  lemma EveryPercentageHasABucket(buckets: seq<int>, p: int) returns (i: nat)
    requires Counts(buckets) && Sum(buckets) > 0 && 0 <= p <= 100
    ensures Hit(buckets, Rank(buckets, p), i)
    ensures Rank(buckets, p) <= Seen(buckets, i) && (i > 0 ==> Seen(buckets, i - 1) < Rank(buckets, p))
  {
    RanksRise(Sum(buckets), p, p);
    HitExactlyWhen(buckets, Rank(buckets, p));
    i :| Hit(buckets, Rank(buckets, p), i);
  }

  // Higher percentages never fall into an earlier bucket, and past the first
  // bucket they never give a smaller value.
  lemma PercentilesRise(buckets: seq<int>, p: int, q: int, i: nat, j: nat)
    requires Counts(buckets) && 0 <= p <= q <= 100
    requires Hit(buckets, Rank(buckets, p), i) && Hit(buckets, Rank(buckets, q), j)
    ensures i <= j
    ensures i >= 1 ==> Half(Width(i - 1)) <= Half(Width(j - 1))
  {
    SumsRise(buckets, 0, |buckets| - 1);
    RanksRise(Sum(buckets), p, q);
    if 1 <= i < j {
      OffsetsRise(i - 1, j - 1);
      HalvesRise(Width(i - 1), Width(j - 1));
    }
  }

  lemma HalvesRise(a: int, b: int)
    requires a <= b
    ensures Half(a) <= Half(b)
  {
  }

  // In the first bucket Python's index -1 gives a negative value instead, and
  // that is where every rank ends up which the first bucket makes up.
  lemma FirstBucketIsNegativeExactlyWhen(buckets: seq<int>, offsets: seq<int>, p: int, i: nat)
    requires Counts(buckets) && |offsets| >= 2 && AreOffsets(offsets)
    requires i < |offsets| && Hit(buckets, Rank(buckets, p), i)
    ensures Half(offsets[i] - Before(offsets, i)) < 0 <==> Rank(buckets, p) <= buckets[0]
  {
    OffsetsAreOffsets(offsets, i);
    HitAtZeroExactlyWhen(buckets, Rank(buckets, p), i);
    NegativeExactlyAtZero(offsets, i);
  }

  lemma HitAtZeroExactlyWhen(buckets: seq<int>, rank: int, i: nat)
    requires Hit(buckets, rank, i)
    ensures i == 0 <==> rank <= buckets[0]
  {
    assert Seen(buckets, 0) == buckets[0];
  }

  lemma NegativeExactlyAtZero(offsets: seq<int>, i: nat)
    requires i < |offsets| && |offsets| >= 2
    requires offsets[i] == Offset(i) && offsets[|offsets| - 1] == Offset(|offsets| - 1)
    requires i > 0 ==> offsets[i - 1] == Offset(i - 1)
    ensures Half(offsets[i] - Before(offsets, i)) < 0 <==> i == 0
  {
    if i == 0 {
      OffsetsRise(0, |offsets| - 1);
      NegativeHalf(Offset(0), Offset(|offsets| - 1));
    } else {
      OffsetsRise(i - 1, i);
      NegativeHalf(Offset(i), Offset(i - 1));
    }
  }

  lemma NegativeHalf(a: int, b: int)
    ensures Half(a - b) < 0 <==> a < b
  {
  }

  lemma OffsetsAreOffsets(offsets: seq<int>, i: nat)
    requires AreOffsets(offsets) && i < |offsets|
    ensures offsets[i] == Offset(i) && offsets[|offsets| - 1] == Offset(|offsets| - 1)
    ensures i > 0 ==> offsets[i - 1] == Offset(i - 1)
  {
  }

  // The value is half a width, so it never lies in the bucket it stands for.
  lemma NeverInsideItsBucket(i: nat)
    requires i >= 1
    ensures Half(Offset(i) - Offset(i - 1)) <= Offset(i - 1)
  {
    AtLeastOne(i - 1);
  }

  // ---- The same in numbers ----

  // The first offsets, each about 1.2 times the one before.
  lemma FirstOffsets()
    ensures Offset(0) == 1 && Offset(1) == 2 && Offset(2) == 3 && Offset(3) == 4 && Offset(4) == 5
    ensures Offset(5) == 6 && Offset(6) == 7 && Offset(7) == 8 && Offset(8) == 10 && Offset(9) == 12
  {
    assert Next(1) == 2 && Next(2) == 3 && Next(3) == 4 && Next(4) == 5 && Next(5) == 6;
    assert Next(6) == 7 && Next(7) == 8 && Next(8) == 10 && Next(10) == 12;
    assert Offset(4) == Next(Offset(3)) && Offset(8) == Next(Offset(7));
  }

  // Each offset is the whole number nearest to 1.2 times the one before, or one more
  // than that one where these are the same.
  lemma OffsetInNumbers(k: nat)
    ensures var (a, b) := (Offset(k), Offset(k + 1));
            if a <= 2 then b == a + 1 else -5 < 10 * b - 12 * a < 5 && b != a
  {
    AtLeastOne(k);
  }

  lemma {:induction false} SeenInPrefix(a: seq<int>, b: seq<int>, i: nat)
    requires i < |a|
    ensures Seen(a + b, i) == Seen(a, i)
  {
    if i > 0 {
      SeenInPrefix(a, b, i - 1);
    }
  }

  // The sum over some buckets, whichever way they are divided.
  lemma {:induction false} SumAddsUp(a: seq<int>, b: seq<int>, x: int)
    ensures Sum(a + b) == Sum(a) + Sum(b) && Sum([x]) == x
  {
    if b == [] {
      assert a + b == a;
    } else {
      var n := |b| - 1;
      assert a + b == (a + b[..n]) + [b[n]] && b == b[..n] + [b[n]];
      SumSnoc(a + b[..n], b[n]);
      SumSnoc(b[..n], b[n]);
      SumAddsUp(a, b[..n], x);
    }
  }

  lemma SumSnoc(a: seq<int>, x: int)
    ensures Sum(a + [x]) == Sum(a) + x
  {
    if a != [] {
      SeenInPrefix(a, [x], |a| - 1);
    }
  }

  function SumOfFirst(buckets: seq<int>, n: nat): int
    requires n <= |buckets|
  {
    Sum(buckets[..n])
  }

  // The bucket that is found: the first up to which the points make up the percentage
  // of all of them, rounded down.
  lemma HitInNumbers(buckets: seq<int>, p: int, i: nat) returns (rank: int)
    requires Hit(buckets, Rank(buckets, p), i)
    ensures 100 * rank <= Sum(buckets) * p < 100 * rank + 100
    ensures i < |buckets| && SumOfFirst(buckets, i + 1) >= rank
    ensures forall j :: 1 <= j <= i ==> SumOfFirst(buckets, j) < rank
  {
    rank := Rank(buckets, p);
    forall j | 1 <= j <= |buckets| ensures Seen(buckets, j - 1) == SumOfFirst(buckets, j) {
      assert buckets == buckets[..j] + buckets[j..];
      SeenInPrefix(buckets[..j], buckets[j..], j - 1);
    }
  }

  // Its value: half of the gap between its offset and the one before, or for the
  // first one the last, rounded away from zero.
  lemma ValueInNumbers(offsets: seq<int>, i: nat, v: int)
    requires i < |offsets| && IsValueAt(offsets, i, Value(v))
    ensures var gap := offsets[i] - (if i == 0 then offsets[|offsets| - 1] else offsets[i - 1]);
            2 * v == if gap % 2 == 0 then gap else if gap > 0 then gap + 1 else gap - 1
  {
  }
}
