/** From cumulative Prometheus buckets to a distribution: the sort adaptor and the in-place de-accumulation
    (retrieval/transform.go:179-195, 276-317). Floats are reals; a bound is finite or +Inf. */
module Histogram {
  import opened Common

  datatype Bound = Finite(x: real) | PosInf

  /** A bucket's upper bound and its cumulative count. */
  datatype Bucket = Bucket(bound: Bound, value: int)

  datatype Distribution = Distribution(
    count: int, mean: real, deviation: real, bounds: seq<real>, bucketCounts: seq<int>)

  predicate BoundLess(a: Bound, b: Bound) {
    a.Finite? && (b.PosInf? || a.x < b.x)
  }

  /** int64(v): truncation toward zero. */
  function Trunc(v: real): (n: int)
    ensures v >= 0.0 ==> n as real <= v < n as real + 1.0
    ensures v <= 0.0 ==> n as real - 1.0 < v <= n as real
  {
    if v >= 0.0 then v.Floor else -((-v).Floor)
  }

  // ---- The functional specification ----

  ghost predicate Sorted(bs: seq<Bucket>) {
    forall i, j :: 0 <= i < j < |bs| ==> !BoundLess(bs[j].bound, bs[i].bound)
  }

  ghost predicate IsSorting(bs: seq<Bucket>, of_: seq<Bucket>) {
    Sorted(bs) && multiset(bs) == multiset(of_)
  }

  ghost predicate DistinctBounds(bs: seq<Bucket>) {
    forall i, j :: 0 <= i < j < |bs| ==> bs[i].bound != bs[j].bound
  }

  function FiniteBounds(bs: seq<Bucket>): seq<real> {
    if bs == [] then []
    else
      var b := bs[|bs| - 1].bound;
      FiniteBounds(bs[..|bs| - 1]) + (if b.Finite? then [b.x] else [])
  }

  function Cumulative(bs: seq<Bucket>): int {
    if bs == [] then 0 else bs[|bs| - 1].value
  }

  /** What each bucket adds to the one below it. */
  function Counts(bs: seq<Bucket>): (r: seq<int>)
    ensures |r| == |bs|
  {
    if bs == [] then []
    else var init := bs[..|bs| - 1]; Counts(init) + [bs[|bs| - 1].value - Cumulative(init)]
  }

  /** The last finite bound, zero before any. */
  function Lower(bs: seq<Bucket>): real {
    if bs == [] then 0.0
    else if bs[|bs| - 1].bound.Finite? then bs[|bs| - 1].bound.x else Lower(bs[..|bs| - 1])
  }

  /** The squared deviation of `n` values at `x`. */
  function Spread(n: int, x: real, mean: real): real {
    n as real * ((x - mean) * (x - mean))
  }

  /** Each bucket counts as if all its values lay in its middle; the +Inf bucket at its lower end. */
  function Deviation(bs: seq<Bucket>, mean: real): real {
    if bs == [] then 0.0
    else
      var init := bs[..|bs| - 1];
      Deviation(init, mean)
      + Spread(bs[|bs| - 1].value - Cumulative(init), (Lower(init) + Lower(bs)) / 2.0, mean)
  }

  function Mean(count: real, sum: real): real {
    if count > 0.0 then sum / count else 0.0
  }

  function Build(count: real, sum: real, sorted: seq<Bucket>): Distribution {
    Distribution(Trunc(count), Mean(count, sum), Deviation(sorted, Mean(count, sum)), FiniteBounds(sorted),
      Counts(sorted))
  }

  // ---- The code ----

  function Zip(bounds: seq<Bound>, values: seq<int>): (bs: seq<Bucket>)
    requires |bounds| == |values|
    ensures |bs| == |bounds|
  {
    seq(|bounds|, i requires 0 <= i < |bounds| => Bucket(bounds[i], values[i]))
  }

  lemma SwapKeeps<T>(s: seq<T>, i: nat, j: nat)
    requires i < |s| && j < |s|
    ensures multiset(s[i := s[j]][j := s[i]]) == multiset(s)
  {
  }

  /** The two parallel slices that sort.Sort works on. */
  class Buckets {
    const bounds: array<Bound>
    const values: array<int>

    constructor (bs: seq<Bound>, vs: seq<int>)
      requires |bs| == |vs|
      ensures fresh(bounds) && fresh(values) && Valid() && Pairs() == Zip(bs, vs)
    {
      bounds := new Bound[|bs|](i requires 0 <= i < |bs| => bs[i]);
      values := new int[|vs|](i requires 0 <= i < |vs| => vs[i]);
      new;
      assert bounds[..] == bs && values[..] == vs;
    }

    ghost predicate Valid() {
      bounds.Length == values.Length
    }

    ghost function Pairs(): (bs: seq<Bucket>)
      requires Valid()
      reads bounds, values
      ensures |bs| == bounds.Length
    {
      Zip(bounds[..], values[..])
    }

    method Less(i: nat, j: nat) returns (r: bool)
      requires i < bounds.Length && j < bounds.Length && Valid()
      ensures r == BoundLess(Pairs()[i].bound, Pairs()[j].bound)
    {
      r := BoundLess(bounds[i], bounds[j]);
    }

    method Swap(i: nat, j: nat)
      requires Valid() && i < bounds.Length && j < bounds.Length
      modifies bounds, values
      ensures Pairs() == old(Pairs())[i := old(Pairs())[j]][j := old(Pairs())[i]]
    {
      bounds[i], bounds[j] := bounds[j], bounds[i];
      values[i], values[j] := values[j], values[i];
    }

    /** Moves element i down to its place among the sorted elements before it. */
    method Sink(i: nat)
      requires Valid() && i < bounds.Length && Sorted(Pairs()[..i])
      modifies bounds, values
      ensures Sorted(Pairs()[..i + 1]) && multiset(Pairs()) == multiset(old(Pairs()))
    {
      var j := i;
      ghost var was := Pairs();
      while j > 0
        invariant 0 <= j <= i
        invariant Sinking(Pairs(), was, i, j)
      {
        var less := Less(j, j - 1);
        if !less {
          StopSinking(Pairs(), was, i, j);
          return;
        }
        KeepSinking(Pairs(), was, i, j);
        Swap(j, j - 1);
        j := j - 1;
      }
    }

    /** sort.Sort on the adaptor, as the insertion sort it uses for short slices: only Less and Swap touch the data. */
    method Sort()
      requires Valid()
      modifies bounds, values
      ensures IsSorting(Pairs(), old(Pairs()))
    {
      var i := 0;
      while i < bounds.Length
        invariant 0 <= i <= bounds.Length
        invariant multiset(Pairs()) == multiset(old(Pairs()))
        invariant Sorted(Pairs()[..i])
      {
        Sink(i);
        i := i + 1;
      }
      assert Pairs()[..i] == Pairs();
    }

    /** What the loop does to the slices: they are read and rewritten in place, the bounds from `nb` on. */
    method ConvertOne(ghost before: seq<Bucket>, i: nat, nb: nat, lower: real, prevVal: int)
      returns (n: nat, top: real, cumulative: int)
      requires Valid() && nb <= i < bounds.Length == |before| && Converted(before, i, bounds[..], nb, values[..])
      requires prevVal == Cumulative(before[..i])
      modifies bounds, values
      ensures n <= i + 1 && Converted(before, i + 1, bounds[..], n, values[..])
      ensures top == (if before[i].bound.Finite? then before[i].bound.x else lower)
      ensures cumulative == before[i].value && values[i] == cumulative - prevVal
    {
      ghost var bs, vs := bounds[..], values[..];
      Convert(before, i, bs, nb, vs);
      var upper := bounds[i];
      if upper.PosInf? {
        n, top := nb, lower;
      } else {
        bounds[nb] := upper;
        n, top := nb + 1, upper.x;
        assert bounds[..] == bs[nb := upper];
      }
      cumulative := values[i];
      values[i] := cumulative - prevVal;
      assert values[..] == vs[i := cumulative - prevVal];
    }

    /** The loop that turns sorted cumulative buckets into bounds and counts. The results reuse the slices they are
        read from: `bounds` and `values` restart at length zero over the same arrays. */
    method ConvertAll(mean: real) returns (nb: nat, dev: real)
      requires Valid()
      modifies bounds, values
      ensures nb <= bounds.Length
      ensures Converted(old(Pairs()), bounds.Length, bounds[..], nb, values[..])
      ensures dev == Deviation(old(Pairs()), mean)
    {
      ghost var before := Pairs();
      var lower, prevVal := 0.0, 0;
      nb, dev := 0, 0.0;
      var i := 0;
      while i < bounds.Length
        invariant nb <= i <= bounds.Length
        invariant Converted(before, i, bounds[..], nb, values[..])
        invariant lower == Lower(before[..i]) && prevVal == Cumulative(before[..i])
        invariant dev == Deviation(before[..i], mean)
      {
        UnfoldSums(before, i, mean);
        var top;
        nb, top, prevVal := ConvertOne(before, i, nb, lower, prevVal);
        dev := dev + Spread(values[i], (lower + top) / 2.0, mean);
        lower := top;
        i := i + 1;
      }
      assert before[..i] == before;
    }

    /** The end of buildDistribution, from the mean on. */
    method Deaccumulate(count: real, sum: real) returns (d: Distribution)
      requires Valid()
      modifies bounds, values
      ensures d == Build(count, sum, old(Pairs()))
    {
      ghost var before := Pairs();
      var mean := 0.0;
      if count > 0.0 {
        mean := sum / count;
      }
      var nb, dev := ConvertAll(mean);
      assert before[..|before|] == before && values[..][..|before|] == values[..] && bounds[..][..nb] == bounds[..nb];
      FiniteReals(bounds[..nb], FiniteBounds(before));
      d := Distribution(Trunc(count), mean, dev, Reals(bounds[..nb]), values[..]);
    }
  }

  /** The two slices once i buckets are converted: `nb` finite bounds and i counts at the front, and from i on the
      buckets as they were. */
  ghost predicate Converted(before: seq<Bucket>, i: nat, bounds: seq<Bound>, nb: nat, values: seq<int>)
    requires nb <= i <= |before| == |bounds| == |values|
  {
    && FiniteAre(bounds[..nb], FiniteBounds(before[..i]))
    && values[..i] == Counts(before[..i])
    && forall k :: i <= k < |before| ==> bounds[k] == before[k].bound && values[k] == before[k].value
  }

  lemma Convert(before: seq<Bucket>, i: nat, bounds: seq<Bound>, nb: nat, values: seq<int>)
    requires nb <= i < |before| == |bounds| == |values| && Converted(before, i, bounds, nb, values)
    ensures bounds[i] == before[i].bound && values[i] == before[i].value
    ensures var vs := values[i := values[i] - Cumulative(before[..i])];
      if bounds[i].PosInf? then Converted(before, i + 1, bounds, nb, vs)
      else Converted(before, i + 1, bounds[nb := bounds[i]], nb + 1, vs)
  {
    Unfold(before, i);
    var vs := values[i := values[i] - Cumulative(before[..i])];
    assert vs[..i + 1] == values[..i] + [vs[i]];
    if bounds[i].Finite? {
      assert bounds[nb := bounds[i]][..nb + 1] == bounds[..nb] + [bounds[i]];
    }
  }

  /** One more bucket: the bounds and counts. */
  lemma Unfold(bs: seq<Bucket>, i: nat)
    requires i < |bs|
    ensures var p, q, b := bs[..i], bs[..i + 1], bs[i];
      && FiniteBounds(q) == FiniteBounds(p) + (if b.bound.Finite? then [b.bound.x] else [])
      && Counts(q) == Counts(p) + [b.value - Cumulative(p)]
  {
    assert bs[..i + 1][..i] == bs[..i];
  }

  /** One more bucket: what the loop carries along. */
  lemma UnfoldSums(bs: seq<Bucket>, i: nat, mean: real)
    requires i < |bs|
    ensures var p, q, b := bs[..i], bs[..i + 1], bs[i];
      && Lower(q) == (if b.bound.Finite? then b.bound.x else Lower(p))
      && Cumulative(q) == b.value
      && Deviation(q, mean) ==
           Deviation(p, mean) + Spread(b.value - Cumulative(p), (Lower(p) + Lower(q)) / 2.0, mean)
  {
    assert bs[..i + 1][..i] == bs[..i];
  }

  ghost predicate FiniteAre(bs: seq<Bound>, xs: seq<real>) {
    |bs| == |xs| && forall i :: 0 <= i < |bs| ==> bs[i] == Finite(xs[i])
  }

  function Reals(bs: seq<Bound>): seq<real>
    requires forall b <- bs :: b.Finite?
  {
    seq(|bs|, i requires 0 <= i < |bs| => bs[i].x)
  }

  lemma FiniteReals(bs: seq<Bound>, xs: seq<real>)
    requires FiniteAre(bs, xs)
    ensures (forall b <- bs :: b.Finite?) && Reals(bs) == xs
  {
  }

  /** Sorted, except that the element at j may be smaller than those before it. */
  ghost predicate SortedBut(bs: seq<Bucket>, j: nat) {
    forall i, k :: 0 <= i < k < |bs| && k != j ==> !BoundLess(bs[k].bound, bs[i].bound)
  }

  /** Element i of `was` has come down to j; the elements are the same. */
  ghost predicate Sinking(bs: seq<Bucket>, was: seq<Bucket>, i: nat, j: nat)
    requires i < |bs|
  {
    multiset(bs) == multiset(was) && SortedBut(bs[..i + 1], j)
  }

  lemma KeepSinking(bs: seq<Bucket>, was: seq<Bucket>, i: nat, j: nat)
    requires 0 < j <= i < |bs| && Sinking(bs, was, i, j) && BoundLess(bs[j].bound, bs[j - 1].bound)
    ensures Sinking(bs[j := bs[j - 1]][j - 1 := bs[j]], was, i, j - 1)
  {
    var cs := bs[j := bs[j - 1]][j - 1 := bs[j]];
    SwapKeeps(bs, j, j - 1);
    SwapDown(bs[..i + 1], j);
    assert cs[..i + 1] == bs[..i + 1][j := bs[j - 1]][j - 1 := bs[j]];
  }

  lemma StopSinking(bs: seq<Bucket>, was: seq<Bucket>, i: nat, j: nat)
    requires 0 < j <= i < |bs| && Sinking(bs, was, i, j) && !BoundLess(bs[j].bound, bs[j - 1].bound)
    ensures Sorted(bs[..i + 1]) && multiset(bs) == multiset(was)
  {
    NoneBelow(bs[..i + 1], j);
  }

  lemma SwapDown(bs: seq<Bucket>, j: nat)
    requires 0 < j < |bs| && SortedBut(bs, j) && BoundLess(bs[j].bound, bs[j - 1].bound)
    ensures SortedBut(bs[j := bs[j - 1]][j - 1 := bs[j]], j - 1)
  {
  }

  lemma NoneBelow(bs: seq<Bucket>, j: nat)
    requires 0 < j < |bs| && SortedBut(bs, j) && !BoundLess(bs[j].bound, bs[j - 1].bound)
    ensures Sorted(bs)
  {
    forall i | 0 <= i < j ensures !BoundLess(bs[j].bound, bs[i].bound) {
      assert i < j - 1 ==> !BoundLess(bs[j - 1].bound, bs[i].bound);
    }
  }

  // ---- What the distribution means ----

  lemma DropLast(a: seq<Bucket>)
    requires a != []
    ensures multiset(a[..|a| - 1]) == multiset(a) - multiset{a[|a| - 1]}
  {
    assert a == a[..|a| - 1] + [a[|a| - 1]];
  }

  lemma TopsAgree(a: seq<Bucket>, b: seq<Bucket>)
    requires a != [] && b != [] && Sorted(a) && Sorted(b) && DistinctBounds(a) && multiset(a) == multiset(b)
    ensures a[|a| - 1] == b[|b| - 1]
  {
    var x, y := a[|a| - 1], b[|b| - 1];
    assert x in multiset(b) && y in multiset(a);
    LastIsLargest(a, y);
    LastIsLargest(b, x);
    assert x.bound == y.bound;
    var k :| 0 <= k < |a| && a[k] == y;
  }

  /** With distinct bounds there is only one sorted arrangement, so the order the buckets come in does not matter. */
  lemma {:induction false} SortingUnique(a: seq<Bucket>, b: seq<Bucket>)
    requires Sorted(a) && Sorted(b) && DistinctBounds(a) && multiset(a) == multiset(b)
    ensures a == b
  {
    assert |a| == |multiset(b)| == |b|;
    if a != [] {
      TopsAgree(a, b);
      DropLast(a);
      DropLast(b);
      SortingUnique(a[..|a| - 1], b[..|b| - 1]);
      assert a == a[..|a| - 1] + [a[|a| - 1]] && b == b[..|b| - 1] + [b[|b| - 1]];
    }
  }

  lemma LastIsLargest(a: seq<Bucket>, x: Bucket)
    requires Sorted(a) && x in a
    ensures !BoundLess(a[|a| - 1].bound, x.bound)
  {
  }

  /** The prefix sums of the counts are the cumulative values again. */
  lemma {:induction false} CountsSumBack(bs: seq<Bucket>, k: nat)
    requires k <= |bs|
    ensures Sum(Counts(bs)[..k]) == Cumulative(bs[..k])
    decreases |bs|
  {
    if k < |bs| {
      var init := bs[..|bs| - 1];
      assert Counts(bs)[..k] == Counts(init)[..k] && init[..k] == bs[..k];
      CountsSumBack(init, k);
    } else if bs != [] {
      var init := bs[..|bs| - 1];
      assert bs[..k] == bs && init[..k - 1] == init;
      assert Counts(bs)[..k][..k - 1] == Counts(init)[..k - 1];
      CountsSumBack(init, k - 1);
    }
  }

  /** The bounds kept are exactly the finite ones, in the order of the buckets. */
  lemma {:induction false} BoundsAreFinite(bs: seq<Bucket>, x: real)
    ensures x in FiniteBounds(bs) <==> exists b <- bs :: b.bound == Finite(x)
  {
    if bs != [] {
      var init := bs[..|bs| - 1];
      BoundsAreFinite(init, x);
      assert bs == init + [bs[|bs| - 1]];
      assert bs[|bs| - 1] in bs && forall b <- init :: b in bs;
    }
  }

  lemma {:induction false} BoundsIncrease(bs: seq<Bucket>)
    requires Sorted(bs) && DistinctBounds(bs)
    ensures forall i, j :: 0 <= i < j < |FiniteBounds(bs)| ==> FiniteBounds(bs)[i] < FiniteBounds(bs)[j]
  {
    if bs != [] {
      var init, last := bs[..|bs| - 1], bs[|bs| - 1];
      BoundsIncrease(init);
      forall i | 0 <= i < |FiniteBounds(init)| && last.bound.Finite? ensures FiniteBounds(init)[i] < last.bound.x {
        BoundsAreFinite(init, FiniteBounds(init)[i]);
        var b :| b in init && b.bound == Finite(FiniteBounds(init)[i]);
        var k :| 0 <= k < |init| && init[k] == b;
        assert bs[k] == b;
      }
    }
  }

  /** Cumulative values that never fall, and start at zero or above. */
  ghost predicate Monotone(bs: seq<Bucket>) {
    && (forall b <- bs :: b.value >= 0)
    && (forall i, j :: 0 <= i < j < |bs| ==> bs[i].value <= bs[j].value)
  }

  lemma MonotoneInit(bs: seq<Bucket>)
    requires Monotone(bs) && bs != []
    ensures Monotone(bs[..|bs| - 1]) && Cumulative(bs[..|bs| - 1]) <= bs[|bs| - 1].value
  {
    assert bs[|bs| - 1] in bs && forall b <- bs[..|bs| - 1] :: b in bs;
  }

  lemma {:induction false} MonotoneCounts(bs: seq<Bucket>)
    requires Monotone(bs)
    ensures forall c <- Counts(bs) :: c >= 0
  {
    if bs != [] {
      MonotoneInit(bs);
      MonotoneCounts(bs[..|bs| - 1]);
    }
  }

  /** The other way round: counts that are not negative come from values that never fall. */
  lemma {:induction false} CountsMonotone(bs: seq<Bucket>)
    requires forall c <- Counts(bs) :: c >= 0
    ensures Monotone(bs)
  {
    if bs != [] {
      var init, last := bs[..|bs| - 1], bs[|bs| - 1];
      var cs := Counts(bs);
      assert cs[|bs| - 1] in cs && forall c <- Counts(init) :: c in cs;
      CountsMonotone(init);
      assert bs == init + [last];
      if init != [] {
        assert init[|init| - 1] in init;
      }
    }
  }

  lemma {:induction false} MonotoneDeviation(bs: seq<Bucket>, mean: real)
    requires Monotone(bs)
    ensures Deviation(bs, mean) >= 0.0
  {
    if bs != [] {
      var init := bs[..|bs| - 1];
      MonotoneInit(bs);
      MonotoneDeviation(init, mean);
      SpreadNonNeg(bs[|bs| - 1].value - Cumulative(init), (Lower(init) + Lower(bs)) / 2.0, mean);
    }
  }

  lemma SpreadNonNeg(n: int, x: real, mean: real)
    requires n >= 0
    ensures Spread(n, x, mean) >= 0.0
  {
    var y := x - mean;
    assert y * y >= 0.0;
    ProductNonNeg(n as real, y * y);
  }

  lemma ProductNonNeg(x: real, y: real)
    requires x >= 0.0 && y >= 0.0
    ensures x * y >= 0.0
  {
  }

  lemma {:induction false} AllFinite(bs: seq<Bucket>)
    requires forall b <- bs :: b.bound.Finite?
    ensures |FiniteBounds(bs)| == |bs|
  {
    if bs != [] {
      assert bs[|bs| - 1] in bs;
      AllFinite(bs[..|bs| - 1]);
    }
  }

  // ---- Mean and deviation, from the distribution alone ----

  /** The lower end of bucket m: the bound below it, zero for the first. */
  function LowerEnd(bounds: seq<real>, m: nat): real
    requires m <= |bounds|
  {
    if m == 0 then 0.0 else bounds[m - 1]
  }

  /** The middle of bucket m; the bucket above the last bound lies at its lower end. */
  function Middle(bounds: seq<real>, m: nat): real
    requires m <= |bounds|
  {
    if m < |bounds| then (LowerEnd(bounds, m) + bounds[m]) / 2.0 else LowerEnd(bounds, m)
  }

  /** The first n buckets' counts, each times the squared distance of its bucket's middle from the mean. */
  function SquaredDistances(bounds: seq<real>, counts: seq<int>, mean: real, n: nat): real
    requires n <= |counts| && n <= |bounds| + 1
  {
    if n == 0 then 0.0
    else
      var x := Middle(bounds, n - 1) - mean;
      SquaredDistances(bounds, counts, mean, n - 1) + counts[n - 1] as real * (x * x)
  }

  /** A distribution's moments agree with a count, a sum and its own buckets. */
  ghost predicate HasMoments(d: Distribution, count: real, sum: real) {
    && (if count > 0.0 then d.mean * count == sum else d.mean == 0.0)
    && |d.bucketCounts| <= |d.bounds| + 1
    && d.deviation == SquaredDistances(d.bounds, d.bucketCounts, d.mean, |d.bucketCounts|)
    && (count >= 0.0 ==> d.count as real <= count < d.count as real + 1.0)
    && (count < 0.0 ==> d.count as real - 1.0 < count <= d.count as real)
  }

  lemma QuotientTimes(x: real, y: real)
    requires y > 0.0
    ensures x / y * y == x
  {
  }

  /** Below the last bucket all are finite. */
  lemma InitFinite(bs: seq<Bucket>)
    requires Sorted(bs) && DistinctBounds(bs) && bs != []
    ensures Sorted(bs[..|bs| - 1]) && DistinctBounds(bs[..|bs| - 1])
    ensures |FiniteBounds(bs[..|bs| - 1])| == |bs| - 1
  {
    var init := bs[..|bs| - 1];
    forall b <- init ensures b.bound.Finite? {
      var i :| 0 <= i < |init| && init[i] == b;
      assert !BoundLess(bs[|bs| - 1].bound, bs[i].bound) && bs[i].bound != bs[|bs| - 1].bound;
    }
    AllFinite(init);
  }

  lemma {:induction false} LowerIsEnd(bs: seq<Bucket>)
    requires |FiniteBounds(bs)| == |bs|
    ensures Lower(bs) == LowerEnd(FiniteBounds(bs), |bs|)
  {
    if bs != [] {
      FewerBounds(bs[..|bs| - 1]);
    }
  }

  lemma {:induction false} FewerBounds(bs: seq<Bucket>)
    ensures |FiniteBounds(bs)| <= |bs|
  {
    if bs != [] {
      FewerBounds(bs[..|bs| - 1]);
    }
  }

  lemma {:induction false} SamePrefix(bounds: seq<real>, more: seq<real>, counts: seq<int>, last: int, mean: real,
                                      n: nat)
    requires n <= |counts| && n <= |bounds|
    ensures SquaredDistances(bounds + more, counts + [last], mean, n) == SquaredDistances(bounds, counts, mean, n)
  {
    if n > 0 {
      SamePrefix(bounds, more, counts, last, mean, n - 1);
      assert (bounds + more)[n - 1] == bounds[n - 1] && (counts + [last])[n - 1] == counts[n - 1];
      assert n > 1 ==> (bounds + more)[n - 2] == bounds[n - 2];
      assert Middle(bounds + more, n - 1) == Middle(bounds, n - 1);
    }
  }

  lemma {:induction false} LastMiddle(bs: seq<Bucket>)
    requires Sorted(bs) && DistinctBounds(bs) && bs != []
    ensures |bs| - 1 <= |FiniteBounds(bs)|
    ensures Middle(FiniteBounds(bs), |bs| - 1) == (Lower(bs[..|bs| - 1]) + Lower(bs)) / 2.0
  {
    var init := bs[..|bs| - 1];
    InitFinite(bs);
    LowerIsEnd(init);
    var xs := FiniteBounds(bs);
    assert |init| > 0 ==> xs[|init| - 1] == FiniteBounds(init)[|init| - 1];
  }

  lemma LastDistance(bounds: seq<real>, counts: seq<int>, mean: real, n: nat, middle: real)
    requires n < |counts| && n <= |bounds| && Middle(bounds, n) == middle
    ensures SquaredDistances(bounds, counts, mean, n + 1)
      == SquaredDistances(bounds, counts, mean, n) + Spread(counts[n], middle, mean)
  {
  }

  lemma LastDeviation(bs: seq<Bucket>, mean: real, middle: real)
    requires bs != [] && middle == (Lower(bs[..|bs| - 1]) + Lower(bs)) / 2.0
    ensures Counts(bs) == Counts(bs[..|bs| - 1]) + [Counts(bs)[|bs| - 1]]
    ensures Deviation(bs, mean) == Deviation(bs[..|bs| - 1], mean) + Spread(Counts(bs)[|bs| - 1], middle, mean)
  {
  }

  /** The deviation the loop adds up is that of the distribution's own bounds and counts. */
  lemma {:induction false} DeviationOfBuckets(bs: seq<Bucket>, mean: real)
    requires Sorted(bs) && DistinctBounds(bs)
    ensures |Counts(bs)| == |bs| <= |FiniteBounds(bs)| + 1
    ensures Deviation(bs, mean) == SquaredDistances(FiniteBounds(bs), Counts(bs), mean, |bs|)
  {
    if bs != [] {
      var init, last := bs[..|bs| - 1], bs[|bs| - 1];
      InitFinite(bs);
      DeviationOfBuckets(init, mean);
      LastMiddle(bs);
      var middle := (Lower(init) + Lower(bs)) / 2.0;
      LastDeviation(bs, mean, middle);
      var more := if last.bound.Finite? then [last.bound.x] else [];
      SamePrefix(FiniteBounds(init), more, Counts(init), Counts(bs)[|init|], mean, |init|);
      assert FiniteBounds(bs) == FiniteBounds(init) + more;
      LastDistance(FiniteBounds(bs), Counts(bs), mean, |init|, middle);
    }
  }

  /** The mean is the sum over the count, and the deviation is that of the buckets sent. */
  lemma {:induction false} BuildHasMoments(count: real, sum: real, bs: seq<Bucket>)
    requires Sorted(bs) && DistinctBounds(bs)
    ensures HasMoments(Build(count, sum, bs), count, sum)
  {
    DeviationOfBuckets(bs, Mean(count, sum));
    if count > 0.0 {
      QuotientTimes(sum, count);
    }
  }

  /** What the monitoring API asks of a distribution: increasing bounds, one count more than bounds, no negative count,
      counts that add up to the total, and a non-negative deviation. */
  ghost predicate IsValid(d: Distribution) {
    && |d.bucketCounts| == |d.bounds| + 1
    && (forall i, j :: 0 <= i < j < |d.bounds| ==> d.bounds[i] < d.bounds[j])
    && (forall c <- d.bucketCounts :: c >= 0)
    && Sum(d.bucketCounts) == d.count
    && d.deviation >= 0.0
  }

  /** Buckets whose adjusted values never fall, with a +Inf bucket equal to the adjusted count, make such a
      distribution. What Prometheus exposes need not be adjusted to such values. */
  lemma MonotoneIsValid(count: real, sum: real, bs: seq<Bucket>)
    requires Sorted(bs) && DistinctBounds(bs) && Monotone(bs)
    requires Bucket(PosInf, Trunc(count)) in bs
    ensures IsValid(Build(count, sum, bs))
  {
    BoundsIncrease(bs);
    MonotoneCounts(bs);
    MonotoneDeviation(bs, Mean(count, sum));
    CountsSumBack(bs, |bs|);
    assert Counts(bs)[..|bs|] == Counts(bs) && bs[..|bs|] == bs;
    var init, last := bs[..|bs| - 1], bs[|bs| - 1];
    LastIsLargest(bs, Bucket(PosInf, Trunc(count)));
    assert last.bound == PosInf;
    forall b <- init ensures b.bound.Finite? {
      var k :| 0 <= k < |init| && init[k] == b;
      assert bs[k] == b;
    }
    AllFinite(init);
  }
}
