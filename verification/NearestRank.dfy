/** Nearest-rank percentiles of apps/desktop/src/main/metrics/metrics-summary.ts, for exact fractions. */
module NearestRank {
  import opened Basics

  /** part out of whole: 1 out of 2, 19 out of 20. */
  datatype Fraction = Fraction(part: nat, whole: nat)

  predicate IsPercentile(p: Fraction) {
    0 < p.part <= p.whole
  }

  predicate IsSorted(values: seq<real>) {
    forall i, j | 0 <= i < j < |values| :: values[i] <= values[j]
  }

  function Insert(value: real, sorted: seq<real>): seq<real> {
    if sorted == [] || value <= sorted[0] then [value] + sorted else [sorted[0]] + Insert(value, sorted[1..])
  }

  function Sort(values: seq<real>): seq<real> {
    if values == [] then [] else Insert(values[0], Sort(values[1..]))
  }

  /** Math.ceil(p * n) - 1 */
  function Rank(p: Fraction, n: nat): (index: nat)
    requires IsPercentile(p) && n > 0
    ensures index < n
  {
    RankFits(p, n);
    (p.part * n + p.whole - 1) / p.whole - 1
  }

  function SortedAt(values: seq<real>, index: nat): real
    requires index < |values|
  {
    SortIs(values);
    Sort(values)[index]
  }

  /** None stands for the errors thrown: no samples, a percentile out of range, or a negative value. */
  function NearestRankOf(values: seq<real>, p: Fraction): Option<real> {
    if values == [] || !IsPercentile(p) || exists v | v in values :: v < 0.0 then None
      else Some(SortedAt(values, Rank(p, |values|)))
  }

  lemma RankFits(p: Fraction, n: nat)
    requires IsPercentile(p) && n > 0
    ensures var up := (p.part * n + p.whole - 1) / p.whole;
            1 <= up <= n && p.whole * (up - 1) < p.part * n <= p.whole * up
  {
    var up := (p.part * n + p.whole - 1) / p.whole;
    Divides(p.part * n + p.whole - 1, p.whole);
    assert p.part * n >= 1;
    Scale(p.part, p.whole, n);
    if up < 1 { Bounded(up, 0, p.whole); }
    if up > n { Bounded(n, up - 1, p.whole); }
  }

  lemma Divides(a: nat, b: nat)
    requires b > 0
    ensures b * (a / b) <= a < b * (a / b) + b
  {
  }

  lemma Scale(a: nat, b: nat, n: nat)
    requires a <= b
    ensures a * n <= b * n
  {
  }

  lemma Bounded(a: int, b: int, c: nat)
    requires a <= b
    ensures c * a <= c * b
  {
  }

  // ----- Sorting -----

  lemma {:induction false} InsertHolds(value: real, sorted: seq<real>)
    ensures multiset(Insert(value, sorted)) == multiset(sorted) + multiset{value}
            && |Insert(value, sorted)| == |sorted| + 1
  {
    if sorted != [] {
      assert sorted == [sorted[0]] + sorted[1..];
      if value > sorted[0] { InsertHolds(value, sorted[1..]); }
    }
  }

  predicate IsBelow(low: real, values: seq<real>) {
    forall i | 0 <= i < |values| :: low <= values[i]
  }

  lemma SortedCons(low: real, values: seq<real>)
    requires IsSorted(values) && IsBelow(low, values)
    ensures IsSorted([low] + values)
  {
  }

  lemma SortedTail(values: seq<real>)
    requires IsSorted(values) && values != []
    ensures IsSorted(values[1..]) && IsBelow(values[0], values[1..])
  {
  }

  lemma {:induction false} InsertSorts(value: real, sorted: seq<real>, low: real)
    requires IsSorted(sorted) && IsBelow(low, sorted) && low <= value
    ensures IsSorted(Insert(value, sorted)) && IsBelow(low, Insert(value, sorted))
    decreases |sorted|
  {
    hide IsSorted;
    if sorted != [] && value > sorted[0] {
      SortedTail(sorted);
      InsertSorts(value, sorted[1..], sorted[0]);
      SortedCons(sorted[0], Insert(value, sorted[1..]));
    } else {
      if sorted != [] { SortedTail(sorted); }
      assert IsBelow(value, sorted);
      SortedCons(value, sorted);
    }
  }

  lemma InsertIs(value: real, sorted: seq<real>)
    requires IsSorted(sorted)
    ensures var r := Insert(value, sorted);
            IsSorted(r) && multiset(r) == multiset(sorted) + multiset{value} && |r| == |sorted| + 1
  {
    InsertHolds(value, sorted);
    var low := if sorted == [] || value <= sorted[0] then value else sorted[0];
    assert IsBelow(low, sorted);
    InsertSorts(value, sorted, low);
  }

  lemma {:induction false} SortIs(values: seq<real>)
    ensures IsSorted(Sort(values)) && multiset(Sort(values)) == multiset(values) && |Sort(values)| == |values|
  {
    if values != [] {
      SortIs(values[1..]);
      InsertIs(values[0], Sort(values[1..]));
      assert values == [values[0]] + values[1..];
    }
  }

  // ----- What a nearest rank is -----

  /** Samples not above v. */
  function CountUpTo(values: seq<real>, v: real): (n: nat)
    ensures n <= |values|
  {
    if values == [] then 0 else (if values[0] <= v then 1 else 0) + CountUpTo(values[1..], v)
  }

  /** v has at least the fraction p of the samples not above it. */
  predicate Covers(values: seq<real>, p: Fraction, v: real) {
    p.part * |values| <= p.whole * CountUpTo(values, v)
  }

  lemma {:induction false} CountConcat(a: seq<real>, b: seq<real>, v: real)
    ensures CountUpTo(a + b, v) == CountUpTo(a, v) + CountUpTo(b, v)
  {
    if a == [] {
      assert a + b == b;
    } else {
      assert (a + b)[1..] == a[1..] + b;
      CountConcat(a[1..], b, v);
    }
  }

  function Without<T>(values: seq<T>, k: nat): (r: seq<T>)
    requires k < |values|
    ensures |r| == |values| - 1
  {
    values[..k] + values[k + 1..]
  }

  lemma WithoutIs<T>(values: seq<T>, k: nat)
    requires k < |values|
    ensures Without(values, k) == values[..k] + values[k + 1..] && values == values[..k] + [values[k]] + values[k + 1..]
  {
  }

  lemma WithoutOne<T>(values: seq<T>, k: nat)
    requires k < |values|
    ensures multiset(Without(values, k)) == multiset(values) - multiset{values[k]}
  {
    assert values == values[..k] + ([values[k]] + values[k + 1..]);
  }

  lemma CountWithout(values: seq<real>, k: nat, v: real)
    requires k < |values|
    ensures CountUpTo(values, v) == (if values[k] <= v then 1 else 0) + CountUpTo(Without(values, k), v)
  {
    var before, after := values[..k], values[k + 1..];
    assert values == before + ([values[k]] + after);
    CountConcat(before, [values[k]] + after, v);
    CountConcat(before, after, v);
    assert ([values[k]] + after)[1..] == after;
  }

  /** Counting looks at the values only, not at their order. */
  lemma {:induction false} CountPermuted(a: seq<real>, b: seq<real>, v: real)
    requires multiset(a) == multiset(b)
    ensures CountUpTo(a, v) == CountUpTo(b, v)
    decreases |a|
  {
    if a == [] {
      assert |b| == |multiset(b)| == |multiset(a)| == 0;
    } else {
      var k := SamePlace(a, b);
      hide CountUpTo;
      WithoutOne(a, 0);
      WithoutOne(b, k);
      CountPermuted(Without(a, 0), Without(b, k), v);
      CountWithout(a, 0, v);
      CountWithout(b, k, v);
    }
  }

  lemma SamePlace<T>(a: seq<T>, b: seq<T>) returns (k: nat)
    requires multiset(a) == multiset(b) && a != []
    ensures k < |b| && b[k] == a[0]
  {
    assert a[0] in multiset(b);
    k :| 0 <= k < |b| && b[k] == a[0];
  }

  lemma {:induction false} AllUpTo(values: seq<real>, v: real)
    requires forall x | x in values :: x <= v
    ensures CountUpTo(values, v) == |values|
  {
    if values != [] {
      assert values[0] in values && forall x | x in values[1..] :: x in values;
      AllUpTo(values[1..], v);
    }
  }

  lemma {:induction false} NoneUpTo(values: seq<real>, v: real)
    requires forall x | x in values :: x > v
    ensures CountUpTo(values, v) == 0
  {
    if values != [] {
      assert values[0] in values && forall x | x in values[1..] :: x in values;
      NoneUpTo(values[1..], v);
    }
  }

  /**
   * In a sorted list at least i + 1 values are not above the one at i, and at most i are not above
   * anything smaller.
   */
  lemma SortedCounts(sorted: seq<real>, i: nat, v: real)
    requires IsSorted(sorted) && i < |sorted|
    ensures v >= sorted[i] ==> CountUpTo(sorted, v) >= i + 1
    ensures v < sorted[i] ==> CountUpTo(sorted, v) <= i
  {
    if v >= sorted[i] {
      var low, high := sorted[..i + 1], sorted[i + 1..];
      assert sorted == low + high;
      CountConcat(low, high, v);
      AllUpTo(low, v);
    } else {
      var low, high := sorted[..i], sorted[i..];
      assert sorted == low + high;
      CountConcat(low, high, v);
      NoneUpTo(high, v);
    }
  }

  lemma CoversAt(sorted: seq<real>, p: Fraction, i: nat, v: real)
    requires IsSorted(sorted) && i < |sorted| && p.whole * i < p.part * |sorted| <= p.whole * (i + 1)
    ensures Covers(sorted, p, v) <==> v >= sorted[i]
  {
    SortedCounts(sorted, i, v);
    hide CountUpTo, IsSorted;
    var count := CountUpTo(sorted, v);
    if v >= sorted[i] { Bounded(i + 1, count, p.whole); } else { Bounded(count, i, p.whole); }
  }

  lemma CoversPermuted(a: seq<real>, b: seq<real>, p: Fraction, v: real)
    requires multiset(a) == multiset(b)
    ensures Covers(a, p, v) == Covers(b, p, v)
  {
    hide CountUpTo;
    assert |a| == |multiset(a)| == |multiset(b)| == |b|;
    CountPermuted(a, b, v);
  }

  /** Refused: no samples, a fraction that is nothing or more than the whole, a negative sample. */
  lemma RefusedExactly(values: seq<real>, p: Fraction)
    ensures NearestRankOf(values, p).None? <==>
            values == [] || p.part == 0 || p.part > p.whole || exists k | 0 <= k < |values| :: values[k] < 0.0
  {
    hide Sort, SortedAt;
    assert forall k | 0 <= k < |values| :: values[k] in values;
  }

  /**
   * The sample returned covers the fraction, and no smaller value does: it is the least sample
   * with p * n not above it.
   */
  lemma NearestRankIsLeast(values: seq<real>, p: Fraction)
    requires NearestRankOf(values, p).Some?
    ensures var r := NearestRankOf(values, p).value;
            r in values && Covers(values, p, r) && forall v :: v < r ==> !Covers(values, p, v)
  {
    var n := |values|;
    var i := Rank(p, n);
    RankFits(p, n);
    var sorted := Sort(values);
    SortIs(values);
    hide Sort, IsSorted, Rank, Covers;
    var r := sorted[i];
    assert r in multiset(sorted);
    CoversAt(sorted, p, i, r);
    CoversPermuted(values, sorted, p, r);
    forall v | v < r ensures !Covers(values, p, v) {
      CoversAt(sorted, p, i, v);
      CoversPermuted(values, sorted, p, v);
    }
  }

  /** A smaller fraction has a smaller or equal rank; the whole fraction has the largest sample. */
  lemma RanksGrow(values: seq<real>, p: Fraction, q: Fraction)
    requires NearestRankOf(values, p).Some? && NearestRankOf(values, q).Some? && p.part * q.whole <= q.part * p.whole
    ensures NearestRankOf(values, p).value <= NearestRankOf(values, q).value
  {
    assert IsPercentile(p) && IsPercentile(q);
    hide NearestRankOf, CountUpTo;
    var r, s := NearestRankOf(values, p).value, NearestRankOf(values, q).value;
    NearestRankIsLeast(values, p);
    NearestRankIsLeast(values, q);
    CrossCovers(|values|, CountUpTo(values, s), p, q);
    assert Covers(values, p, s);
  }

  lemma CrossCovers(n: nat, count: nat, p: Fraction, q: Fraction)
    requires IsPercentile(p) && IsPercentile(q) && p.part * q.whole <= q.part * p.whole && q.part * n <= q.whole * count
    ensures p.part * n <= p.whole * count
  {
    Scale(p.part * q.whole, q.part * p.whole, n);
    Scale(q.part * n, q.whole * count, p.whole);
    Chain(p, q, n, count);
  }

  lemma Chain(p: Fraction, q: Fraction, n: nat, count: nat)
    requires IsPercentile(q)
    requires p.part * q.whole * n <= q.part * p.whole * n && q.part * n * p.whole <= q.whole * count * p.whole
    ensures p.part * n <= p.whole * count
  {
    var a, b := p.part * n, p.whole * count;
    Commutes(q.whole, p.part, n);
    Commutes(p.whole, q.part, n);
    Commutes(p.whole, q.whole, count);
    Cancels(q.whole, a, b);
  }

  lemma Commutes(a: nat, b: nat, c: nat)
    ensures b * a * c == a * (b * c) && b * c * a == a * (b * c) && a * (b * c) == b * (a * c)
  {
  }

  lemma Cancels(c: nat, a: nat, b: nat)
    requires c > 0 && c * a <= c * b
    ensures a <= b
  {
    if a > b { Bounded(b + 1, a, c); }
  }

  lemma WholeIsMax(values: seq<real>)
    requires values != [] && forall v | v in values :: v >= 0.0
    ensures NearestRankOf(values, Fraction(1, 1)).Some?
    ensures var r := NearestRankOf(values, Fraction(1, 1)).value; r in values && forall v | v in values :: v <= r
  {
    var p := Fraction(1, 1);
    var r := NearestRankOf(values, p).value;
    NearestRankIsLeast(values, p);
    SortIs(values);
    var sorted := Sort(values);
    forall v | v in values ensures v <= r {
      assert v in multiset(sorted);
      var k :| 0 <= k < |sorted| && sorted[k] == v;
      if v > r {
        SortedCounts(sorted, k, r);
        CountPermuted(values, sorted, r);
      }
    }
  }

  /** The order of the samples does not matter. */
  lemma RankPermuted(a: seq<real>, b: seq<real>, p: Fraction)
    requires multiset(a) == multiset(b)
    ensures NearestRankOf(a, p) == NearestRankOf(b, p)
  {
    assert |a| == |multiset(a)| == |multiset(b)| == |b|;
    assert forall v :: v in a <==> v in multiset(a);
    assert forall v :: v in b <==> v in multiset(b);
    if NearestRankOf(a, p).Some? {
      var r, s := NearestRankOf(a, p).value, NearestRankOf(b, p).value;
      NearestRankIsLeast(a, p);
      NearestRankIsLeast(b, p);
      CountPermuted(a, b, r);
      CountPermuted(a, b, s);
      assert Covers(b, p, r) && Covers(a, p, s);
    }
  }
}
