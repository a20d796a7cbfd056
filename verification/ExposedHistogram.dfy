/** From the buckets Prometheus exposes to the distribution that is sent: what the reset adjustment of each series
    does to a histogram as a whole (retrieval/transform.go:214-317, retrieval/series_cache.go:286-312). */
module ExposedHistogram {
  import opened Common
  import opened SeriesCache
  import opened Histogram
  import opened SampleBuilder

  predicate IsBucket(env: Env, g: Group, s: RefSample) {
    Classify(env, g, s.ref).Member? && Classify(env, g, s.ref).kind.BucketOf?
  }

  function UpperBound(env: Env, g: Group, s: RefSample): Bound
    requires IsBucket(env, g, s)
  {
    Classify(env, g, s.ref).kind.bound
  }

  /** The adjusted value of a sample, as an integer. */
  function Increase(resets: map<nat, ResetState>, s: RefSample): int
    requires s.v.Num?
  {
    Trunc(AdjustedIn(Start(resets), s).value)
  }

  /** b is the bucket that one of the samples makes. */
  ghost predicate Made(env: Env, g: Group, resets: map<nat, ResetState>, p: seq<RefSample>, b: Bucket)
    requires Numeric(env, g, p)
  {
    exists i :: 0 <= i < |p| && IsBucket(env, g, p[i]) && MadeOf(env, g, resets, p[i], b)
  }

  predicate MadeOf(env: Env, g: Group, resets: map<nat, ResetState>, s: RefSample, b: Bucket)
    requires Readable(env, g, s) && IsBucket(env, g, s)
  {
    b == Bucket(UpperBound(env, g, s), Increase(resets, s))
  }

  // ---- What the group loop reads of a histogram ----

  /** None of the samples' series has been read since `resets`. */
  ghost predicate Unread(acc: Acc, resets: map<nat, ResetState>, p: seq<RefSample>) {
    forall i :: 0 <= i < |p| ==>
      (p[i].ref in acc.resets <==> p[i].ref in resets)
      && (p[i].ref in resets ==> acc.resets[p[i].ref] == resets[p[i].ref])
  }

  lemma TakeOneOf(env: Env, g: Group, resets: map<nat, ResetState>, acc: Acc, p: seq<RefSample>)
    requires Numeric(env, g, p) && OwnParts(env, g, p) && p != [] && Unread(acc, resets, p)
    ensures Numeric(env, g, p[1..]) && OwnParts(env, g, p[1..])
    ensures var t := Take(env, g, acc, p[0]);
      && Unread(t, resets, p[1..])
      && t.buckets == (if IsBucket(env, g, p[0])
           then acc.buckets + multiset{Bucket(UpperBound(env, g, p[0]), Increase(resets, p[0]))} else acc.buckets)
      && t.count == (if Classify(env, g, p[0].ref) == Member(CountOf)
           then AdjustedIn(Start(resets), p[0]).value else acc.count)
      && t.sum == (if Classify(env, g, p[0].ref) == Member(SumOf)
           then AdjustedIn(Start(resets), p[0]).value else acc.sum)
  {
    assert forall i :: 0 <= i < |p[1..]| ==> p[1..][i] == p[i + 1];
    TakeLeavesOthers(env, g, acc, p[0]);
    var t := Take(env, g, acc, p[0]);
    forall i | 0 <= i < |p[1..]|
      ensures p[1..][i].ref in t.resets <==> p[1..][i].ref in resets
      ensures p[1..][i].ref in resets ==> t.resets[p[1..][i].ref] == resets[p[1..][i].ref]
    {
      assert p[i + 1].ref != p[0].ref;
    }
  }

  lemma TakeLeavesOthers(env: Env, g: Group, acc: Acc, s: RefSample)
    requires Readable(env, g, s)
    ensures var t := Take(env, g, acc, s);
      t.resets.Keys == acc.resets.Keys && forall r <- acc.resets :: r != s.ref ==> t.resets[r] == acc.resets[r]
  {
  }

  /** The buckets read are those that the samples make. */
  lemma {:induction false} BucketsTaken(env: Env, g: Group, resets: map<nat, ResetState>, acc: Acc, p: seq<RefSample>,
                                        b: Bucket)
    requires Numeric(env, g, p) && OwnParts(env, g, p) && Unread(acc, resets, p)
    ensures b in TakeAll(env, g, acc, p).buckets <==> b in acc.buckets || Made(env, g, resets, p, b)
    decreases p
  {
    if p != [] {
      TakeOneOf(env, g, resets, acc, p);
      BucketsTaken(env, g, resets, Take(env, g, acc, p[0]), p[1..], b);
      MadeFirst(env, g, resets, p, b);
    }
  }

  lemma MadeFirst(env: Env, g: Group, resets: map<nat, ResetState>, p: seq<RefSample>, b: Bucket)
    requires Numeric(env, g, p) && p != [] && Numeric(env, g, p[1..])
    ensures Made(env, g, resets, p, b) <==>
      (IsBucket(env, g, p[0]) && MadeOf(env, g, resets, p[0], b)) || Made(env, g, resets, p[1..], b)
  {
    if Made(env, g, resets, p[1..], b) {
      var i :| 0 <= i < |p[1..]| && IsBucket(env, g, p[1..][i]) && MadeOf(env, g, resets, p[1..][i], b);
      assert p[i + 1] == p[1..][i];
    }
    if Made(env, g, resets, p, b) {
      var i :| 0 <= i < |p| && IsBucket(env, g, p[i]) && MadeOf(env, g, resets, p[i], b);
      assert i > 0 ==> p[1..][i - 1] == p[i];
    }
  }

  /** The count read is that of the count series. */
  lemma {:induction false} CountTaken(env: Env, g: Group, resets: map<nat, ResetState>, acc: Acc, p: seq<RefSample>)
    requires Numeric(env, g, p) && OwnParts(env, g, p) && Unread(acc, resets, p)
    ensures forall i :: 0 <= i < |p| && Classify(env, g, p[i].ref) == Member(CountOf) ==>
      p[i].v.Num? && TakeAll(env, g, acc, p).count == AdjustedIn(Start(resets), p[i]).value
    ensures (forall i :: 0 <= i < |p| ==> Classify(env, g, p[i].ref) != Member(CountOf)) ==>
      TakeAll(env, g, acc, p).count == acc.count
    decreases p
  {
    if p != [] {
      TakeOneOf(env, g, resets, acc, p);
      CountTaken(env, g, resets, Take(env, g, acc, p[0]), p[1..]);
      assert forall i :: 0 < i < |p| ==> p[i] == p[1..][i - 1];
      forall i | 0 <= i < |p| && Classify(env, g, p[i].ref) == Member(CountOf)
        ensures p[i].v.Num? && TakeAll(env, g, acc, p).count == AdjustedIn(Start(resets), p[i]).value
      {
        assert Readable(env, g, p[i]);
      }
    }
  }

  /** The sum read is that of the sum series. */
  lemma {:induction false} SumTaken(env: Env, g: Group, resets: map<nat, ResetState>, acc: Acc, p: seq<RefSample>)
    requires Numeric(env, g, p) && OwnParts(env, g, p) && Unread(acc, resets, p)
    ensures forall i :: 0 <= i < |p| && Classify(env, g, p[i].ref) == Member(SumOf) ==>
      p[i].v.Num? && TakeAll(env, g, acc, p).sum == AdjustedIn(Start(resets), p[i]).value
    ensures (forall i :: 0 <= i < |p| ==> Classify(env, g, p[i].ref) != Member(SumOf)) ==>
      TakeAll(env, g, acc, p).sum == acc.sum
    decreases p
  {
    if p != [] {
      TakeOneOf(env, g, resets, acc, p);
      SumTaken(env, g, resets, Take(env, g, acc, p[0]), p[1..]);
      assert forall i :: 0 < i < |p| ==> p[i] == p[1..][i - 1];
      forall i | 0 <= i < |p| && Classify(env, g, p[i].ref) == Member(SumOf)
        ensures p[i].v.Num? && TakeAll(env, g, acc, p).sum == AdjustedIn(Start(resets), p[i]).value
      {
        assert Readable(env, g, p[i]);
      }
    }
  }

  /** A histogram at the head of the record: its samples, at one time, each series in its own part. */
  ghost predicate AtHead(env: Env, g: Group, t: int, p: seq<RefSample>, rest: seq<RefSample>) {
    && p != [] && HistogramHead(env, p[0]) && g == GroupOf(env.infos[p[0].ref])
    && OwnParts(env, g, p) && (forall s <- p :: Plain(env, g, t, s)) && Stops(env, g, t, rest)
    && Legible(env, p + rest)
  }

  lemma HeadIsMember(env: Env, g: Group, t: int, p: seq<RefSample>, rest: seq<RefSample>)
    requires AtHead(env, g, t, p, rest)
    ensures IsMember(env, g, p[0]) && Numeric(env, g, p + rest) && Numeric(env, g, p) && Numeric(env, g, rest)
  {
    assert (p + rest)[0] == p[0];
    assert p[0] in p && Plain(env, g, t, p[0]);
    SplitNumeric(env, g, p, rest);
  }

  /** What is left of the record adds nothing to the histogram. */
  lemma {:induction false} GatherIsTakeAll(env: Env, g: Group, t: int, p: seq<RefSample>, rest: seq<RefSample>,
                                           resets: map<nat, ResetState>)
    requires AtHead(env, g, t, p, rest)
    ensures Numeric(env, g, p) && Numeric(env, g, p + rest)
    ensures var a, b := Gather(env, g, p + rest, true, 0, Start(resets)).acc, TakeAll(env, g, Start(resets), p);
      a.buckets == b.buckets && a.count == b.count && a.sum == b.sum && DistinctIn(a.buckets)
  {
    HeadIsMember(env, g, t, p, rest);
    GatherPlain(env, g, t, p, rest, true, 0, Start(resets));
    GatherDistinct(env, g, t, p, rest, resets);
  }

  /** What is drafted of a histogram: its sorted buckets are those its samples make, its count and sum those of its
      count series. */
  lemma {:induction false} DraftedBuckets(env: Env, g: Group, t: int, p: seq<RefSample>, rest: seq<RefSample>,
                                          resets: map<nat, ResetState>, d: Draft, after: map<nat, ResetState>)
    returns (bs: seq<Bucket>, count: real, sum: real)
    requires AtHead(env, g, t, p, rest) && Drafts(env, p + rest, resets, d, after) && d.Draft?
    ensures d.value.Dist? && d.value.d == Build(count, sum, bs) && Sorted(bs) && DistinctBounds(bs)
    ensures Numeric(env, g, p) && forall b :: b in bs <==> Made(env, g, resets, p, b)
    ensures forall i :: 0 <= i < |p| && Classify(env, g, p[i].ref) == Member(CountOf) ==>
      p[i].v.Num? && count == AdjustedIn(Start(resets), p[i]).value
    ensures forall i :: 0 <= i < |p| && Classify(env, g, p[i].ref) == Member(SumOf) ==>
      p[i].v.Num? && sum == AdjustedIn(Start(resets), p[i]).value
    ensures (forall i :: 0 <= i < |p| ==> Classify(env, g, p[i].ref) != Member(SumOf)) ==> sum == 0.0
  {
    var acc: Acc;
    bs, acc := DraftedSorting(env, g, t, p, rest, resets, d, after);
    count, sum := acc.count, acc.sum;
    GatherIsTakeAll(env, g, t, p, rest, resets);
    DistinctSeq(bs);
    CountTaken(env, g, resets, Start(resets), p);
    SumTaken(env, g, resets, Start(resets), p);
    forall b ensures b in bs <==> Made(env, g, resets, p, b) {
      BucketsTaken(env, g, resets, Start(resets), p, b);
      assert b in bs <==> b in multiset(bs);
    }
  }

  lemma {:induction false} DraftedSorting(env: Env, g: Group, t: int, p: seq<RefSample>, rest: seq<RefSample>,
                                          resets: map<nat, ResetState>, d: Draft, after: map<nat, ResetState>)
    returns (bs: seq<Bucket>, acc: Acc)
    requires AtHead(env, g, t, p, rest) && Drafts(env, p + rest, resets, d, after) && d.Draft?
    ensures Numeric(env, g, p + rest) && acc == Gather(env, g, p + rest, true, 0, Start(resets)).acc
    ensures Sorted(bs) && multiset(bs) == acc.buckets
    ensures d.value.Dist? && d.value.d == Build(acc.count, acc.sum, bs)
  {
    assert (p + rest)[0] == p[0];
    DraftOfHistogram(env, p + rest, resets, d, after);
    acc := Gather(env, g, p + rest, true, 0, Start(resets)).acc;
    bs :| Sorted(bs) && multiset(bs) == acc.buckets && d.value.d == Build(acc.count, acc.sum, bs);
  }

  // ---- When something is sent ----

  /** The series has been read before. */
  predicate Seen(resets: map<nat, ResetState>, s: RefSample) {
    s.ref in resets && resets[s.ref].hasReset
  }

  ghost predicate AllSeen(env: Env, g: Group, resets: map<nat, ResetState>, p: seq<RefSample>) {
    forall i :: 0 <= i < |p| && Placed(env, g, p[i]) ==> Seen(resets, p[i])
  }

  lemma {:induction false} SkipTaken(env: Env, g: Group, resets: map<nat, ResetState>, acc: Acc, p: seq<RefSample>)
    requires Numeric(env, g, p) && OwnParts(env, g, p) && Unread(acc, resets, p)
    ensures TakeAll(env, g, acc, p).skip <==> acc.skip || !AllSeen(env, g, resets, p)
    decreases p
  {
    if p != [] {
      TakeOneOf(env, g, resets, acc, p);
      SkipTaken(env, g, resets, Take(env, g, acc, p[0]), p[1..]);
      assert Take(env, g, acc, p[0]).skip <==> acc.skip || (Placed(env, g, p[0]) && !Seen(resets, p[0]));
      assert forall i :: 0 < i < |p| ==> p[i] == p[1..][i - 1];
      assert AllSeen(env, g, resets, p) <==>
        (Placed(env, g, p[0]) ==> Seen(resets, p[0])) && AllSeen(env, g, resets, p[1..]);
    }
  }

  /** The reset time read is that of the count series. */
  lemma {:induction false} ResetTaken(env: Env, g: Group, resets: map<nat, ResetState>, acc: Acc, p: seq<RefSample>)
    requires Numeric(env, g, p) && OwnParts(env, g, p) && Unread(acc, resets, p)
    ensures forall i :: 0 <= i < |p| && Classify(env, g, p[i].ref) == Member(CountOf) ==>
      p[i].v.Num? && TakeAll(env, g, acc, p).reset == AdjustedIn(Start(resets), p[i]).start
    ensures (forall i :: 0 <= i < |p| ==> Classify(env, g, p[i].ref) != Member(CountOf)) ==>
      TakeAll(env, g, acc, p).reset == acc.reset
    decreases p
  {
    if p != [] {
      TakeOneOf(env, g, resets, acc, p);
      ResetTaken(env, g, resets, Take(env, g, acc, p[0]), p[1..]);
      assert forall i :: 0 < i < |p| ==> p[i] == p[1..][i - 1];
      forall i | 0 <= i < |p| && Classify(env, g, p[i].ref) == Member(CountOf)
        ensures p[i].v.Num? && TakeAll(env, g, acc, p).reset == AdjustedIn(Start(resets), p[i]).start
      {
        assert Readable(env, g, p[i]);
      }
    }
  }

  lemma {:induction false} GatherEnds(env: Env, g: Group, t: int, p: seq<RefSample>, rest: seq<RefSample>,
                                      resets: map<nat, ResetState>)
    requires AtHead(env, g, t, p, rest)
    ensures Numeric(env, g, p) && Numeric(env, g, p + rest)
    ensures var r, b := Gather(env, g, p + rest, true, 0, Start(resets)), TakeAll(env, g, Start(resets), p);
      && r.acc.skip == b.skip && r.acc.reset == b.reset
      && (r.failed <==> rest != [] && Classify(env, g, rest[0].ref).Broken?)
  {
    HeadIsMember(env, g, t, p, rest);
    GatherPlain(env, g, t, p, rest, true, 0, Start(resets));
  }

  /** A point is drafted of a histogram exactly if no lookup fails at its end, every sum, count and bucket of it has
      been read before, and there is a count whose reset time is not zero; that is then the start of the point. */
  lemma {:induction false} DraftedIff(env: Env, g: Group, t: int, p: seq<RefSample>, rest: seq<RefSample>,
                                      resets: map<nat, ResetState>, d: Draft, after: map<nat, ResetState>)
    requires AtHead(env, g, t, p, rest) && Drafts(env, p + rest, resets, d, after)
    ensures Numeric(env, g, p)
    ensures d.Draft? <==>
      && (rest == [] || !Classify(env, g, rest[0].ref).Broken?)
      && AllSeen(env, g, resets, p)
      && exists j :: 0 <= j < |p| && Classify(env, g, p[j].ref) == Member(CountOf) && ResetTime(resets, p[j]) != 0
    ensures d.Draft? ==> forall j :: 0 <= j < |p| && Classify(env, g, p[j].ref) == Member(CountOf) ==>
      d.start == ResetTime(resets, p[j])
  {
    assert (p + rest)[0] == p[0];
    DraftOfHistogram(env, p + rest, resets, d, after);
    GatherEnds(env, g, t, p, rest, resets);
    SkipTaken(env, g, resets, Start(resets), p);
    ResetTaken(env, g, resets, Start(resets), p);
    forall j | 0 <= j < |p| && Classify(env, g, p[j].ref) == Member(CountOf)
      ensures AllSeen(env, g, resets, p) ==> AdjustedIn(Start(resets), p[j]).start == ResetTime(resets, p[j])
    {
      assert Readable(env, g, p[j]) && Placed(env, g, p[j]);
    }
  }

  /** Where the window of a sample starts: at its baseline, or just before it if it is below. */
  function ResetTime(resets: map<nat, ResetState>, s: RefSample): int {
    if !Seen(resets, s) || s.v.NaN? then 0
    else if s.v.x < resets[s.ref].resetValue then s.t - 1
    else resets[s.ref].resetTimestamp
  }

  // ---- The moments of what is sent ----

  /** Sample j is the count and, unless there is none, sample i the sum. */
  ghost predicate Parts(env: Env, g: Group, p: seq<RefSample>, i: nat, j: nat) {
    && j < |p| && Classify(env, g, p[j].ref) == Member(CountOf)
    && (if i < |p| then Classify(env, g, p[i].ref) == Member(SumOf)
        else forall k :: 0 <= k < |p| ==> Classify(env, g, p[k].ref) != Member(SumOf))
  }

  /** The mean times the adjusted count is the adjusted sum, and the squared deviation is that of the buckets sent. */
  lemma {:induction false} DraftedMoments(env: Env, g: Group, t: int, p: seq<RefSample>, rest: seq<RefSample>,
                                          i: nat, j: nat, resets: map<nat, ResetState>, d: Draft,
                                          after: map<nat, ResetState>)
    requires AtHead(env, g, t, p, rest) && Drafts(env, p + rest, resets, d, after) && d.Draft?
    requires Parts(env, g, p, i, j)
    ensures d.value.Dist? && p[j].v.Num? && (i < |p| ==> p[i].v.Num?)
    ensures HasMoments(d.value.d, AdjustedIn(Start(resets), p[j]).value,
                       if i < |p| then AdjustedIn(Start(resets), p[i]).value else 0.0)
  {
    var bs, count, sum := DraftedBuckets(env, g, t, p, rest, resets, d, after);
    BuildHasMoments(count, sum, bs);
  }

  // ---- When the counts are not negative ----

  /** A bucket series that has been seen before, with a non-negative baseline. */
  predicate Based(resets: map<nat, ResetState>, s: RefSample) {
    s.ref in resets && resets[s.ref].hasReset && resets[s.ref].resetValue >= 0.0
  }

  /** The value is below the baseline: the series counts from zero again. */
  predicate ResetNow(resets: map<nat, ResetState>, s: RefSample)
    requires Based(resets, s) && s.v.Num?
  {
    s.v.x < resets[s.ref].resetValue
  }

  /** Raw cumulative values as Prometheus exposes them: none negative, and none below that of a lower bound. */
  ghost predicate Exposed(env: Env, g: Group, resets: map<nat, ResetState>, p: seq<RefSample>)
    requires Numeric(env, g, p)
  {
    && (forall i :: 0 <= i < |p| && IsBucket(env, g, p[i]) ==> Based(resets, p[i]) && p[i].v.x >= 0.0)
    && (forall i, j :: 0 <= i < |p| && 0 <= j < |p| && Below(env, g, p[i], p[j]) ==> p[i].v.x <= p[j].v.x)
  }

  predicate Below(env: Env, g: Group, a: RefSample, b: RefSample) {
    IsBucket(env, g, a) && IsBucket(env, g, b) && BoundLess(UpperBound(env, g, a), UpperBound(env, g, b))
  }

  /** The upper one of two buckets has not been reset, and has grown by less than the lower one since its own
      baseline. */
  predicate Overtaken(resets: map<nat, ResetState>, low: RefSample, high: RefSample)
    requires Based(resets, low) && Based(resets, high) && low.v.Num? && high.v.Num?
  {
    && !ResetNow(resets, high)
    && Trunc(high.v.x - resets[high.ref].resetValue)
         < Trunc(if ResetNow(resets, low) then low.v.x else low.v.x - resets[low.ref].resetValue)
  }

  lemma OvertakenFalls(resets: map<nat, ResetState>, low: RefSample, high: RefSample)
    requires Based(resets, low) && Based(resets, high) && low.v.Num? && high.v.Num? && 0.0 <= low.v.x <= high.v.x
    ensures Overtaken(resets, low, high) <==> Increase(resets, low) > Increase(resets, high)
    ensures Increase(resets, low) >= 0
  {
  }

  ghost predicate NoneOvertaken(env: Env, g: Group, resets: map<nat, ResetState>, p: seq<RefSample>)
    requires Numeric(env, g, p) && Exposed(env, g, resets, p)
  {
    forall i, j :: 0 <= i < |p| && 0 <= j < |p| && Below(env, g, p[i], p[j]) ==> !Overtaken(resets, p[i], p[j])
  }

  lemma {:induction false} NoneOvertakenIsMonotone(env: Env, g: Group, resets: map<nat, ResetState>, p: seq<RefSample>,
                                                   bs: seq<Bucket>)
    requires Numeric(env, g, p) && Exposed(env, g, resets, p) && Sorted(bs) && DistinctBounds(bs)
    requires forall b :: b in bs <==> Made(env, g, resets, p, b)
    ensures NoneOvertaken(env, g, resets, p) ==> Monotone(bs)
  {
    if NoneOvertaken(env, g, resets, p) {
      forall b <- bs ensures b.value >= 0 {
        var i := Maker(env, g, resets, p, b);
        OvertakenFalls(resets, p[i], p[i]);
      }
      forall x, y | 0 <= x < y < |bs| ensures bs[x].value <= bs[y].value {
        assert bs[x] in bs && bs[y] in bs;
        var i, j := Maker(env, g, resets, p, bs[x]), Maker(env, g, resets, p, bs[y]);
        assert Below(env, g, p[i], p[j]);
        OvertakenFalls(resets, p[i], p[j]);
      }
    }
  }

  lemma {:induction false} MonotoneOvertakesNone(env: Env, g: Group, resets: map<nat, ResetState>, p: seq<RefSample>,
                                                 bs: seq<Bucket>)
    requires Numeric(env, g, p) && Exposed(env, g, resets, p) && Sorted(bs) && DistinctBounds(bs)
    requires forall b :: b in bs <==> Made(env, g, resets, p, b)
    ensures Monotone(bs) ==> NoneOvertaken(env, g, resets, p)
  {
    if Monotone(bs) {
      forall i, j | 0 <= i < |p| && 0 <= j < |p| && Below(env, g, p[i], p[j]) ensures !Overtaken(resets, p[i], p[j]) {
        var a := Bucket(UpperBound(env, g, p[i]), Increase(resets, p[i]));
        var b := Bucket(UpperBound(env, g, p[j]), Increase(resets, p[j]));
        assert MadeOf(env, g, resets, p[i], a) && MadeOf(env, g, resets, p[j], b);
        assert a in bs && b in bs;
        var x :| 0 <= x < |bs| && bs[x] == a;
        var y :| 0 <= y < |bs| && bs[y] == b;
        assert x < y;
        OvertakenFalls(resets, p[i], p[j]);
      }
    }
  }

  ghost function Maker(env: Env, g: Group, resets: map<nat, ResetState>, p: seq<RefSample>, b: Bucket): (i: nat)
    requires Numeric(env, g, p) && Made(env, g, resets, p, b)
    ensures i < |p| && IsBucket(env, g, p[i]) && MadeOf(env, g, resets, p[i], b)
  {
    var i :| 0 <= i < |p| && IsBucket(env, g, p[i]) && MadeOf(env, g, resets, p[i], b);
    i
  }

  /** A histogram as Prometheus exposes it is sent without negative counts exactly if no bucket that counts on from its
      baseline has grown by less than a bucket below it. */
  lemma {:induction false} CountsNonNegativeIff(env: Env, g: Group, t: int, p: seq<RefSample>, rest: seq<RefSample>,
                                                resets: map<nat, ResetState>, d: Draft, after: map<nat, ResetState>)
    requires AtHead(env, g, t, p, rest) && Drafts(env, p + rest, resets, d, after) && d.Draft?
    requires Numeric(env, g, p) && Exposed(env, g, resets, p)
    ensures d.value.Dist?
    ensures (forall c <- d.value.d.bucketCounts :: c >= 0) <==> NoneOvertaken(env, g, resets, p)
  {
    var bs, count, sum := DraftedBuckets(env, g, t, p, rest, resets, d, after);
    NoneOvertakenIsMonotone(env, g, resets, p, bs);
    MonotoneOvertakesNone(env, g, resets, p, bs);
    if Monotone(bs) {
      MonotoneCounts(bs);
    } else if forall c <- Counts(bs) :: c >= 0 {
      CountsMonotone(bs);
    }
  }

  // ---- Histograms whose series are reset together ----

  /** Sample i is the +Inf bucket and sample j the count, with one raw value. */
  predicate Totals(env: Env, g: Group, p: seq<RefSample>, i: nat, j: nat)
    requires Numeric(env, g, p)
  {
    && i < |p| && j < |p| && IsBucket(env, g, p[i]) && UpperBound(env, g, p[i]) == PosInf
    && Classify(env, g, p[j].ref) == Member(CountOf) && p[j].v == p[i].v
  }

  /** Every series counts on from its baseline, no bucket has grown by less than one below it, and the +Inf bucket as
      much as the count. */
  ghost predicate GoesOn(env: Env, g: Group, resets: map<nat, ResetState>, p: seq<RefSample>, i: nat, j: nat)
    requires Numeric(env, g, p) && Exposed(env, g, resets, p) && Totals(env, g, p, i, j) && Based(resets, p[j])
  {
    && (forall k :: 0 <= k < |p| && IsBucket(env, g, p[k]) ==> !ResetNow(resets, p[k]))
    && resets[p[i].ref].resetValue == resets[p[j].ref].resetValue
    && (forall k, l :: 0 <= k < |p| && 0 <= l < |p| && Below(env, g, p[k], p[l]) ==>
          p[k].v.x - resets[p[k].ref].resetValue <= p[l].v.x - resets[p[l].ref].resetValue)
  }

  /** Every bucket and the count start from zero again. */
  ghost predicate StartsAgain(env: Env, g: Group, resets: map<nat, ResetState>, p: seq<RefSample>, j: nat)
    requires Numeric(env, g, p) && Exposed(env, g, resets, p) && j < |p| && p[j].v.Num? && Based(resets, p[j])
  {
    ResetNow(resets, p[j]) && forall k :: 0 <= k < |p| && IsBucket(env, g, p[k]) ==> ResetNow(resets, p[k])
  }

  /** If the series of an exposed histogram are all reset or all go on, the distribution sent is valid. */
  lemma {:induction false} AlikeIsValid(env: Env, g: Group, t: int, p: seq<RefSample>, rest: seq<RefSample>, i: nat,
                                        j: nat, resets: map<nat, ResetState>, d: Draft, after: map<nat, ResetState>)
    requires AtHead(env, g, t, p, rest) && Drafts(env, p + rest, resets, d, after) && d.Draft?
    requires Numeric(env, g, p) && Exposed(env, g, resets, p) && Totals(env, g, p, i, j) && Based(resets, p[j])
    requires GoesOn(env, g, resets, p, i, j) || StartsAgain(env, g, resets, p, j)
    ensures d.value.Dist? && IsValid(d.value.d)
  {
    var bs, count, sum := DraftedBuckets(env, g, t, p, rest, resets, d, after);
    AlikeOvertakesNone(env, g, resets, p, i, j);
    NoneOvertakenIsMonotone(env, g, resets, p, bs);
    var inf := Bucket(PosInf, Increase(resets, p[i]));
    assert MadeOf(env, g, resets, p[i], inf) && inf in bs;
    assert Trunc(count) == Increase(resets, p[j]) == Increase(resets, p[i]);
    MonotoneIsValid(count, sum, bs);
  }

  lemma {:induction false} AlikeOvertakesNone(env: Env, g: Group, resets: map<nat, ResetState>, p: seq<RefSample>,
                                              i: nat, j: nat)
    requires Numeric(env, g, p) && Exposed(env, g, resets, p) && Totals(env, g, p, i, j) && Based(resets, p[j])
    requires GoesOn(env, g, resets, p, i, j) || StartsAgain(env, g, resets, p, j)
    ensures NoneOvertaken(env, g, resets, p)
  {
  }

  // ---- A restart that only one series shows ----

  function HistogramSeries(name: string, le: string): Info {
    Info([Label(NAME, name), Label(LE, le)], true, false, true, Histogram, Double, "h", "", 0)
  }

  /** A histogram h with the bounds 1 and +Inf, and its count. */
  function RestartEnv(): Env {
    Env(map[0 := HistogramSeries("h_bucket", "1"), 1 := HistogramSeries("h_bucket", "+Inf"),
            2 := HistogramSeries("h_count", "")],
        {}, map["1" := Finite(1.0), "+Inf" := PosInf])
  }

  /** The baselines, taken at time 1: 60 observations up to the bound, 100 in all. */
  function RestartBaselines(): map<nat, ResetState> {
    map[0 := ResetState(true, 60.0, 1), 1 := ResetState(true, 100.0, 1), 2 := ResetState(true, 100.0, 1)]
  }

  /** At time 5, after a restart: 50 observations up to the bound, 100 in all. */
  function RestartScrape(): seq<RefSample> {
    [RefSample(0, 5, Num(50.0)), RefSample(1, 5, Num(100.0)), RefSample(2, 5, Num(100.0))]
  }

  lemma RestartKinds()
    ensures var env, g := RestartEnv(), GroupOf(RestartEnv().infos[0]);
      && Classify(env, g, 0) == Member(BucketOf(Finite(1.0)))
      && Classify(env, g, 1) == Member(BucketOf(PosInf))
      && Classify(env, g, 2) == Member(CountOf)
  {
    assert "h_bucket"[1..] == "_bucket" && "h_count"[1..] == "_count";
    assert "h" <= "h_bucket" && "h" <= "h_count";
    var a, b := Label(NAME, "h_bucket"), Label(NAME, "h_count");
    assert [a, Label(LE, "1")][1..] == [Label(LE, "1")] && [Label(LE, "1")][1..] == [];
    assert [a, Label(LE, "+Inf")][1..] == [Label(LE, "+Inf")] && [Label(LE, "+Inf")][1..] == [];
    assert [b, Label(LE, "")][1..] == [Label(LE, "")] && [Label(LE, "")][1..] == [];
  }

  /** The lower bucket is below its baseline and starts again, the other two series count on. */
  lemma {:induction false} RestartRead() returns (acc1: Acc, acc2: Acc, acc3: Acc)
    ensures var p, acc0 := RestartScrape(), Start(RestartBaselines());
      && acc1 == Absorb(acc0, BucketOf(Finite(1.0)), p[0])
      && acc2 == Absorb(acc1, BucketOf(PosInf), p[1])
      && acc3 == Absorb(acc2, CountOf, p[2])
    ensures Complete(acc3) && acc3.reset == 1 && acc3.count == 0.0 && acc3.sum == 0.0
    ensures acc3.buckets == multiset{Bucket(Finite(1.0), 50), Bucket(PosInf, 0)}
  {
    var p, acc0 := RestartScrape(), Start(RestartBaselines());
    acc1 := Absorb(acc0, BucketOf(Finite(1.0)), p[0]);
    acc2 := Absorb(acc1, BucketOf(PosInf), p[1]);
    acc3 := Absorb(acc2, CountOf, p[2]);
    assert AdjustedIn(acc0, p[0]) == Adjusted(4, 50.0, true);
    assert AdjustedIn(acc1, p[1]) == Adjusted(1, 0.0, true);
    assert AdjustedIn(acc2, p[2]) == Adjusted(1, 0.0, true);
  }

  /** What the group loop reads of the scrape. */
  lemma {:induction false} RestartGathered()
    ensures Numeric(RestartEnv(), GroupOf(RestartEnv().infos[0]), RestartScrape())
    ensures var g := GroupOf(RestartEnv().infos[0]);
      var r := Gather(RestartEnv(), g, RestartScrape(), true, 0, Start(RestartBaselines()));
      && !r.failed && r.consumed == 3 && Complete(r.acc) && r.acc.reset == 1
      && r.acc.count == 0.0 && r.acc.sum == 0.0
      && r.acc.buckets == multiset{Bucket(Finite(1.0), 50), Bucket(PosInf, 0)}
  {
    RestartKinds();
    var acc1, acc2, acc3 := RestartRead();
    GatherThree(RestartEnv(), GroupOf(RestartEnv().infos[0]), RestartScrape(), Start(RestartBaselines()),
                BucketOf(Finite(1.0)), BucketOf(PosInf), CountOf);
  }

  lemma {:induction false} GatherThree(env: Env, g: Group, p: seq<RefSample>, acc: Acc, a: Kind, b: Kind, c: Kind)
    requires |p| == 3 && p[0].v.Num? && p[1].v.Num? && p[2].v.Num? && p[0].t == p[1].t == p[2].t
    requires Classify(env, g, p[0].ref) == Member(a) && Classify(env, g, p[1].ref) == Member(b)
    requires Classify(env, g, p[2].ref) == Member(c) && a != Misnamed && b != Misnamed && c != Misnamed
    ensures Numeric(env, g, p)
    ensures var read := Absorb(Absorb(Absorb(acc, a, p[0]), b, p[1]), c, p[2]);
      Gather(env, g, p, true, 0, acc) == Gathered(read, 3, false)
  {
    var acc1 := Absorb(acc, a, p[0]);
    var acc2 := Absorb(acc1, b, p[1]);
    var acc3 := Absorb(acc2, c, p[2]);
    assert p[1..][1..] == [p[2]] && [p[2]][1..] == [];
    assert Gather(env, g, [p[2]], false, p[0].t, acc2) == Gathered(acc3, 1, false);
    assert Gather(env, g, p[1..], false, p[0].t, acc1) == Gathered(acc3, 2, false);
  }

  lemma {:induction false} RestartSorted(bs: seq<Bucket>)
    requires Sorted(bs) && multiset(bs) == multiset{Bucket(Finite(1.0), 50), Bucket(PosInf, 0)}
    ensures bs == [Bucket(Finite(1.0), 50), Bucket(PosInf, 0)] && Counts(bs) == [50, -50]
  {
    var cs := [Bucket(Finite(1.0), 50), Bucket(PosInf, 0)];
    assert multiset(cs) == multiset(bs);
    assert cs[..1] == [cs[0]] && cs[..1][..0] == [];
    assert Counts(cs[..1]) == [50] && Cumulative(cs[..1]) == 50;
    SortingUnique(cs, bs);
  }

  /** A restart that is only half seen: the scrape is monotone with a +Inf bucket equal to the count, and it is sent
      with 50 observations below the bound and -50 above it, of 0 in all. */
  lemma {:induction false} HalfSeenRestart(d: Draft, after: map<nat, ResetState>)
    requires Legible(RestartEnv(), RestartScrape())
    requires Drafts(RestartEnv(), RestartScrape(), RestartBaselines(), d, after)
    ensures d.Draft? && d.start == 1 && d.value.Dist?
    ensures d.value.d.bounds == [1.0] && d.value.d.bucketCounts == [50, -50] && d.value.d.count == 0
  {
    RestartGathered();
    var bs := RestartDraft(d, after);
    RestartSorted(bs);
    assert bs[..1] == [bs[0]] && bs[..1][..0] == [];
    assert FiniteBounds(bs[..1]) == [1.0];
  }

  lemma {:induction false} RestartDraft(d: Draft, after: map<nat, ResetState>) returns (bs: seq<Bucket>)
    requires Legible(RestartEnv(), RestartScrape())
    requires Drafts(RestartEnv(), RestartScrape(), RestartBaselines(), d, after)
    ensures d.Draft? && d.start == 1 && d.value.Dist? && d.value.d == Build(0.0, 0.0, bs)
    ensures Sorted(bs) && multiset(bs) == multiset{Bucket(Finite(1.0), 50), Bucket(PosInf, 0)}
  {
    RestartGathered();
    DraftOfHistogram(RestartEnv(), RestartScrape(), RestartBaselines(), d, after);
    bs :| Sorted(bs) && multiset(bs) == multiset{Bucket(Finite(1.0), 50), Bucket(PosInf, 0)}
      && d.value.d == Build(0.0, 0.0, bs);
  }

  /** Such a draft there is, and the interval filter lets it through if it has not seen the series. */
  lemma {:induction false} HalfSeenRestartIsSent()
    ensures Legible(RestartEnv(), RestartScrape())
    ensures exists d, after ::
      Drafts(RestartEnv(), RestartScrape(), RestartBaselines(), d, after) && Passes(map[], 0, d, 5)
  {
    RestartGathered();
    var bs := [Bucket(Finite(1.0), 50), Bucket(PosInf, 0)];
    var r := Gather(RestartEnv(), GroupOf(RestartEnv().infos[0]), RestartScrape(), true, 0, Start(RestartBaselines()));
    var d := Draft(1, Dist(Build(0.0, 0.0, bs)));
    assert Sorted(bs) && multiset(bs) == r.acc.buckets;
    assert Drafts(RestartEnv(), RestartScrape(), RestartBaselines(), d, r.acc.resets);
    assert Passes(map[], 0, d, 5);
  }
}
