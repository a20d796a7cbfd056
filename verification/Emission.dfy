/** The calls of next that read one cumulative series, a counter or the count of a histogram, and what the interval
    filter does with the points they make (retrieval/transform.go:40-134, retrieval/series_cache.go:266-312). */
module Emission {
  import opened Common
  import opened SeriesCache
  import opened SampleBuilder
  import opened Draining
  import opened ExposedHistogram

  /** The reset state of a reference and the interval of a hash. */
  function TrackAt(p: Position, ref: nat, hash: nat): Track {
    Track(if ref in p.resets then [p.resets[ref]] else [], if hash in p.intervals then [p.intervals[hash]] else [], [])
  }

  /** The call reads one sample of a series whose points are cumulative: a counter, or the sum or count of a summary. */
  predicate ReadsCounter(env: Env, p: Position, ref: nat, hash: nat, t: int, v: real) {
    && p.rest != [] && p.rest[0] == RefSample(ref, t, Num(v)) && ref in p.resets
    && Get(env, ref).Entry? && env.infos[ref].exported && env.infos[ref].hash == hash
    && (env.infos[ref].metricType.Counter?
        || (env.infos[ref].metricType.Summary? && env.infos[ref].suffix in {"_sum", "_count"}))
  }

  /** The call reads a histogram, and `ref` is its count. */
  ghost predicate ReadsHistogram(env: Env, p: Position, ref: nat, hash: nat, t: int, v: real) {
    exists hist: seq<RefSample>, rest: seq<RefSample>, j: nat ::
      HistogramSplit(env, p, hist, rest, j) && hist[j] == RefSample(ref, t, Num(v))
      && ref in p.resets && env.infos[hist[0].ref].hash == hash
  }

  ghost predicate HistogramSplit(env: Env, p: Position, hist: seq<RefSample>, rest: seq<RefSample>, j: nat) {
    && p.rest == hist + rest && hist != [] && HistogramHead(env, hist[0]) && j < |hist|
    && var g := GroupOf(env.infos[hist[0].ref]);
    AtHead(env, g, hist[0].t, hist, rest) && Classify(env, g, hist[j].ref) == Member(CountOf)
  }

  ghost predicate Reads(env: Env, p: Position, ref: nat, hash: nat, t: int, v: real) {
    ReadsCounter(env, p, ref, hash, t, v) || ReadsHistogram(env, p, ref, hash, t, v)
  }

  // ---- One call ----

  /** The call moves the reset state of the series and the interval of the hash as one sample does, and the filter
      decides on the drafted point as it does there. */
  ghost predicate Moves(p: Position, draft: Draft, q: Position, ref: nat, hash: nat, t: int, v: real) {
    var k := Step(TrackAt(p, ref, hash), Sample(t, v, draft.Draft?));
    && TrackAt(q, ref, hash) == k.(points := [])
    && (draft.Draft? ==>
          |k.points| == 1 && k.points[0].start == draft.start
          && (Passes(p.intervals, hash, draft, t) <==> k.points[0].accepted))
  }

  /** A value that carries x in the type of its series: a whole number next to x for an integer series, halves away from
      zero, else x itself. */
  predicate CarriesTyped(valueType: ValueType, value: OutValue, x: real) {
    if valueType == Int64
    then value.Whole? && NearestTo(value.n, x)
    else value == Number(x)
  }

  predicate NearestTo(n: int, x: real) {
    var d := n as real - x;
    -0.5 <= d <= 0.5 && (d == 0.5 ==> x >= 0.0) && (d == -0.5 ==> x <= 0.0)
  }

  /** Truncated toward zero. */
  predicate TowardZero(n: int, x: real) {
    if x >= 0.0 then n as real <= x < n as real + 1.0 else n as real - 1.0 < x <= n as real
  }

  predicate Carries(info: Info, value: OutValue, x: real) {
    if info.metricType.Summary? && info.suffix == "_sum" then value == Number(x)
    else if info.metricType.Summary? && info.suffix == "_count" then value.Whole? && TowardZero(value.n, x)
    else if info.metricType.Summary? then value == Number(x)
    else CarriesTyped(info.valueType, value, x)
  }

  /** A call on a gauge, an untyped series or a quantile makes a point of the raw value without a start, and leaves the
      reset state alone. */
  lemma {:induction false} GaugePoints(env: Env, p: Position, draft: Draft, q: Position, ref: nat, t: int, v: real)
    requires CallMoves(env, p, draft, q) && p.rest[0] == RefSample(ref, t, Num(v)) && Get(env, ref).Entry?
    requires var info := env.infos[ref];
      && info.exported
      && (info.metricType.Gauge? || info.metricType.Untyped? || (info.metricType.Summary? && info.suffix == ""))
    ensures draft.Draft? && draft.start == 0 && Carries(env.infos[ref], draft.value, v) && q.resets == p.resets
  {
  }

  /** A call on a counter makes a point exactly if the series has been read before, and the point carries the adjusted
      value: what the raw value exceeds the baseline by, or the raw value if it is below. */
  lemma {:induction false} CounterPoints(env: Env, p: Position, draft: Draft, q: Position, ref: nat, hash: nat, t: int,
                                         v: real)
    requires CallMoves(env, p, draft, q) && ReadsCounter(env, p, ref, hash, t, v)
    ensures var r := p.resets[ref];
      && (draft.Draft? <==> r.hasReset)
      && (draft.Draft? ==>
            if v < r.resetValue then draft.start == t - 1 && Carries(env.infos[ref], draft.value, v)
            else draft.start == r.resetTimestamp && Carries(env.infos[ref], draft.value, v - r.resetValue))
  {
    assert AdjustedIn(Start(p.resets), p.rest[0]) == Adjust(p.resets[ref], t, v);
  }

  lemma {:induction false} CounterMoves(env: Env, p: Position, draft: Draft, q: Position, ref: nat, hash: nat,
                                        t: int, v: real)
    requires CallMoves(env, p, draft, q) && ReadsCounter(env, p, ref, hash, t, v)
    ensures Moves(p, draft, q, ref, hash, t, v)
  {
    var a := AdjustedIn(Start(p.resets), p.rest[0]);
    assert a == Adjust(p.resets[ref], t, v);
    assert draft.Draft? <==> a.ok;
    assert q.resets == Touch(Start(p.resets), p.rest[0]).resets;
    assert HashOf(env, p.rest) == hash;
  }

  /** What the group loop makes of the count series. */
  lemma {:induction false} CountRead(env: Env, g: Group, resets: map<nat, ResetState>, acc: Acc, p: seq<RefSample>,
                                     i: nat)
    requires Numeric(env, g, p) && OwnParts(env, g, p) && Unread(acc, resets, p)
    requires i < |p| && Classify(env, g, p[i].ref) == Member(CountOf) && p[i].ref in resets
    ensures p[i].v.Num?
    ensures var t, a := TakeAll(env, g, acc, p), AdjustedIn(Start(resets), p[i]);
      && t.reset == a.start && (!t.skip ==> a.ok)
      && p[i].ref in t.resets && t.resets[p[i].ref] == NextReset(resets[p[i].ref], p[i].t, p[i].v.x)
    decreases p
  {
    assert Readable(env, g, p[i]);
    TakeOneOf(env, g, resets, acc, p);
    var t := Take(env, g, acc, p[0]);
    if i == 0 {
      OthersRead(env, g, t, p[1..], p[0].ref);
    } else {
      assert p[1..][i - 1] == p[i];
      CountRead(env, g, resets, t, p[1..], i - 1);
    }
  }

  /** Series that are not the count leave it alone. */
  lemma {:induction false} OthersRead(env: Env, g: Group, acc: Acc, p: seq<RefSample>, ref: nat)
    requires Numeric(env, g, p) && ref in acc.resets
    requires forall i :: 0 <= i < |p| ==> p[i].ref != ref && Classify(env, g, p[i].ref) != Member(CountOf)
    ensures var t := TakeAll(env, g, acc, p);
      t.reset == acc.reset && (!t.skip ==> !acc.skip) && ref in t.resets && t.resets[ref] == acc.resets[ref]
    decreases p
  {
    if p != [] {
      assert Readable(env, g, p[0]);
      TakeLeavesOthers(env, g, acc, p[0]);
      assert forall i :: 0 <= i < |p[1..]| ==> p[1..][i] == p[i + 1];
      OthersRead(env, g, Take(env, g, acc, p[0]), p[1..], ref);
    }
  }

  /** What the rest of the record does to the count: nothing. */
  lemma {:induction false} RestRead(env: Env, g: Group, t: int, rest: seq<RefSample>, acc: Acc, ref: nat)
    requires Numeric(env, g, rest) && Stops(env, g, t, rest) && Classify(env, g, ref) == Member(CountOf)
    requires ref in acc.resets && (rest != [] ==> rest[0].t != t || rest[0].ref != ref)
    ensures var r := Gather(env, g, rest, false, t, acc).acc;
      r.reset == acc.reset && r.skip == acc.skip && ref in r.resets && r.resets[ref] == acc.resets[ref]
  {
  }

  lemma {:induction false} HistogramMoves(env: Env, p: Position, draft: Draft, q: Position, ref: nat, hash: nat, t: int,
                                          v: real)
    requires CallMoves(env, p, draft, q) && ReadsHistogram(env, p, ref, hash, t, v)
    ensures Moves(p, draft, q, ref, hash, t, v)
  {
    var hist: seq<RefSample>, rest: seq<RefSample>, j: nat :|
      HistogramSplit(env, p, hist, rest, j) && hist[j] == RefSample(ref, t, Num(v))
      && ref in p.resets && env.infos[hist[0].ref].hash == hash;
    var g := GroupOf(env.infos[hist[0].ref]);
    assert hist[j] in hist && Plain(env, g, hist[0].t, hist[j]) && p.rest[0] == hist[0];
    HistogramRead(env, p, draft, q, hist, rest, j);
    var a := Adjust(p.resets[ref], t, v);
    assert AdjustedIn(Start(p.resets), hist[j]) == a;
    assert HashOf(env, p.rest) == hash;
  }

  lemma {:induction false} HistogramRead(env: Env, p: Position, draft: Draft, q: Position, hist: seq<RefSample>,
                                         rest: seq<RefSample>, j: nat)
    requires CallMoves(env, p, draft, q) && HistogramSplit(env, p, hist, rest, j) && hist[j].ref in p.resets
    ensures hist[j].v.Num? && hist[j].ref in q.resets
    ensures q.resets[hist[j].ref] == NextReset(p.resets[hist[j].ref], hist[j].t, hist[j].v.x)
    ensures draft.Draft? ==>
      var a := AdjustedIn(Start(p.resets), hist[j]); a.ok && draft.start == a.start
  {
    var g := GroupOf(env.infos[hist[0].ref]);
    HeadIsMember(env, g, hist[0].t, hist, rest);
    assert (hist + rest)[0] == hist[0];
    DraftOfHistogram(env, p.rest, p.resets, draft, q.resets);
    GatherPlain(env, g, hist[0].t, hist, rest, true, 0, Start(p.resets));
    CountRead(env, g, p.resets, Start(p.resets), hist, j);
    var acc := TakeAll(env, g, Start(p.resets), hist);
    assert rest != [] && rest[0].ref == hist[j].ref ==> rest[0].t != hist[0].t;
    RestRead(env, g, hist[0].t, rest, acc, hist[j].ref);
  }

  // ---- All calls of a record ----

  /** Call k leaves the series and the hash alone, or reads the series. */
  ghost predicate OnlyReads(calm: Env, schedule: seq<Turn>, path: seq<Position>, drafts: seq<Draft>, ref: nat,
                            hash: nat, ts: seq<int>, vs: seq<real>, k: nat)
    requires k < |drafts| == |ts| == |vs| && |path| == |drafts| + 1
  {
    || TrackAt(path[k + 1], ref, hash) == TrackAt(path[k], ref, hash)
    || Reads(EnvAt(calm, schedule, k), path[k], ref, hash, ts[k], vs[k])
  }

  ghost predicate ReadAt(calm: Env, schedule: seq<Turn>, path: seq<Position>, ref: nat, hash: nat,
                         ts: seq<int>, vs: seq<real>, k: nat)
    requires k < |path| && k < |ts| == |vs|
  {
    Reads(EnvAt(calm, schedule, k), path[k], ref, hash, ts[k], vs[k])
  }

  ghost predicate BothRead(calm: Env, schedule: seq<Turn>, path: seq<Position>, ref: nat, hash: nat,
                           ts: seq<int>, vs: seq<real>, k: nat, l: nat)
    requires k < |path| && k < |ts| == |vs| && l < |path| && l < |ts|
  {
    && ReadAt(calm, schedule, path, ref, hash, ts, vs, k)
    && ReadAt(calm, schedule, path, ref, hash, ts, vs, l)
  }

  /** Among the first n calls, those that read the series do so at increasing times from t0 on and before t, and its
      values are not negative. */
  ghost predicate Rising(calm: Env, schedule: seq<Turn>, path: seq<Position>, ref: nat, hash: nat,
                         ts: seq<int>, vs: seq<real>, t0: int, t: int, n: nat)
    requires n <= |ts| == |vs| && n <= |path|
  {
    && t0 <= t
    && (forall k: nat :: k < n && ReadAt(calm, schedule, path, ref, hash, ts, vs, k) ==>
          t0 <= ts[k] < t && vs[k] >= 0.0)
    && (forall k: nat, l: nat ::
          k < l < n && BothRead(calm, schedule, path, ref, hash, ts, vs, k, l) ==> ts[k] < ts[l])
  }

  /** In the calls of a record each complete point of a counter or of a histogram with increasing times passes the
      interval filter and has a non-empty interval, if nothing else uses its hash and its reset state. What holds
      before the first call holds after the last, so the same goes for the records after it. */
  lemma {:induction false} PointsPass(calm: Env, schedule: seq<Turn>, path: seq<Position>, drafts: seq<Draft>, ref: nat,
                                      hash: nat, ts: seq<int>, vs: seq<real>, t0: int, t: int, n: nat)
    requires IsTrace(calm, schedule, path, drafts) && n <= |drafts| == |ts| == |vs|
    requires forall k: nat :: k < |drafts| ==> OnlyReads(calm, schedule, path, drafts, ref, hash, ts, vs, k)
    requires Rising(calm, schedule, path, ref, hash, ts, vs, t0, t, n) && Before(TrackAt(path[0], ref, hash), t0)
    ensures Before(TrackAt(path[n], ref, hash), t)
    ensures forall k: nat :: k < n && ReadAt(calm, schedule, path, ref, hash, ts, vs, k) && drafts[k].Draft? ==>
      Passes(path[k].intervals, hash, drafts[k], ts[k]) && drafts[k].start < ts[k]
    decreases n
  {
    if n == 0 {
      BeforeLater(TrackAt(path[0], ref, hash), t0, t);
    } else {
      var k := n - 1;
      assert OnlyReads(calm, schedule, path, drafts, ref, hash, ts, vs, k);
      if ReadAt(calm, schedule, path, ref, hash, ts, vs, k) {
        forall l: nat | l < k && ReadAt(calm, schedule, path, ref, hash, ts, vs, l) ensures ts[l] < ts[k] {
          assert BothRead(calm, schedule, path, ref, hash, ts, vs, l, k);
        }
        PointsPass(calm, schedule, path, drafts, ref, hash, ts, vs, t0, ts[k], k);
        OneCallPasses(calm, schedule, path, drafts, ref, hash, ts[k], vs[k], k);
        BeforeLater(TrackAt(path[n], ref, hash), ts[k] + 1, t);
      } else {
        PointsPass(calm, schedule, path, drafts, ref, hash, ts, vs, t0, t, k);
      }
    }
  }

  lemma BeforeLater(k: Track, t: int, u: int)
    requires Before(k, t) && t <= u
    ensures Before(k, u)
  {
  }

  lemma {:induction false} OneCallPasses(calm: Env, schedule: seq<Turn>, path: seq<Position>, drafts: seq<Draft>,
                                         ref: nat, hash: nat, t: int, v: real, k: nat)
    requires IsTrace(calm, schedule, path, drafts) && k < |drafts| && v >= 0.0
    requires Reads(EnvAt(calm, schedule, k), path[k], ref, hash, t, v) && Before(TrackAt(path[k], ref, hash), t)
    ensures Before(TrackAt(path[k + 1], ref, hash), t + 1)
    ensures drafts[k].Draft? ==> Passes(path[k].intervals, hash, drafts[k], t) && drafts[k].start < t
  {
    assert CallAt(calm, schedule, path, drafts, k);
    if ReadsCounter(EnvAt(calm, schedule, k), path[k], ref, hash, t, v) {
      CounterMoves(EnvAt(calm, schedule, k), path[k], drafts[k], path[k + 1], ref, hash, t, v);
    } else {
      HistogramMoves(EnvAt(calm, schedule, k), path[k], drafts[k], path[k + 1], ref, hash, t, v);
    }
    MovesPass(path[k], drafts[k], path[k + 1], ref, hash, t, v);
  }

  lemma {:induction false} MovesPass(p: Position, draft: Draft, q: Position, ref: nat, hash: nat, t: int, v: real)
    requires Moves(p, draft, q, ref, hash, t, v) && Before(TrackAt(p, ref, hash), t) && v >= 0.0
    ensures Before(TrackAt(q, ref, hash), t + 1)
    ensures draft.Draft? ==> Passes(p.intervals, hash, draft, t) && draft.start < t
  {
    var op := Sample(t, v, draft.Draft?);
    StepIsClean(TrackAt(p, ref, hash), op, t);
    var k := Step(TrackAt(p, ref, hash), op);
    if draft.Draft? {
      assert k.points[0] in k.points && CleanPoint(k.points[0]);
    }
  }

  // ---- How the points of a counter differ ----

  /** The samples of the series that the first n calls read. */
  ghost function ScrapesRead(calm: Env, schedule: seq<Turn>, path: seq<Position>, ref: nat, hash: nat,
                             ts: seq<int>, vs: seq<real>, n: nat): seq<Scrape>
    requires n <= |path| && n <= |ts| == |vs|
  {
    if n == 0 then []
    else
      ScrapesRead(calm, schedule, path, ref, hash, ts, vs, n - 1)
      + (if ReadAt(calm, schedule, path, ref, hash, ts, vs, n - 1) then [Scrape(ts[n - 1], vs[n - 1])] else [])
  }

  lemma {:induction false} AfterPrefix(r: ResetState, scrapes: seq<Scrape>, more: seq<Scrape>, k: nat)
    requires k <= |scrapes|
    ensures After(r, scrapes + more, k) == After(r, scrapes, k)
  {
    if k > 0 {
      AfterPrefix(r, scrapes, more, k - 1);
      assert (scrapes + more)[k - 1] == scrapes[k - 1];
    }
  }

  /** What has been read first stays at the front. */
  lemma {:induction false} ReadsPrefix(calm: Env, schedule: seq<Turn>, path: seq<Position>, ref: nat, hash: nat,
                                       ts: seq<int>, vs: seq<real>, k: nat, n: nat)
    requires k <= n <= |path| && n <= |ts| == |vs|
    ensures ScrapesRead(calm, schedule, path, ref, hash, ts, vs, k)
      <= ScrapesRead(calm, schedule, path, ref, hash, ts, vs, n)
  {
    if k < n {
      ReadsPrefix(calm, schedule, path, ref, hash, ts, vs, k, n - 1);
    }
  }

  /** The reset state of the series is that of the samples read. */
  lemma {:induction false} StateFollows(calm: Env, schedule: seq<Turn>, path: seq<Position>, drafts: seq<Draft>,
                                        ref: nat, hash: nat, ts: seq<int>, vs: seq<real>, n: nat)
    requires IsTrace(calm, schedule, path, drafts) && n <= |drafts| == |ts| == |vs| && ref in path[0].resets
    requires forall k: nat :: k < |drafts| ==> OnlyReads(calm, schedule, path, drafts, ref, hash, ts, vs, k)
    ensures var scrapes := ScrapesRead(calm, schedule, path, ref, hash, ts, vs, n);
      TrackAt(path[n], ref, hash).entry == [After(path[0].resets[ref], scrapes, |scrapes|)]
    decreases n
  {
    if n > 0 {
      var k := n - 1;
      StateFollows(calm, schedule, path, drafts, ref, hash, ts, vs, k);
      assert OnlyReads(calm, schedule, path, drafts, ref, hash, ts, vs, k);
      var before := ScrapesRead(calm, schedule, path, ref, hash, ts, vs, k);
      if ReadAt(calm, schedule, path, ref, hash, ts, vs, k) {
        var x, r := Scrape(ts[k], vs[k]), path[0].resets[ref];
        AfterPrefix(r, before, [x], |before|);
        ReadMoves(calm, schedule, path, drafts, ref, hash, ts[k], vs[k], k);
        assert path[k].resets[ref] == After(r, before, |before|) && (before + [x])[|before|] == x;
        assert After(r, before + [x], |before| + 1) == NextReset(path[k].resets[ref], ts[k], vs[k]);
      } else {
        assert before + [] == before;
      }
    }
  }

  lemma {:induction false} ReadMoves(calm: Env, schedule: seq<Turn>, path: seq<Position>, drafts: seq<Draft>, ref: nat,
                                     hash: nat, t: int, v: real, k: nat)
    requires IsTrace(calm, schedule, path, drafts) && k < |drafts| && ref in path[k].resets
    requires Reads(EnvAt(calm, schedule, k), path[k], ref, hash, t, v)
    ensures TrackAt(path[k + 1], ref, hash).entry == [NextReset(path[k].resets[ref], t, v)]
  {
    assert CallAt(calm, schedule, path, drafts, k);
    if ReadsCounter(EnvAt(calm, schedule, k), path[k], ref, hash, t, v) {
      CounterMoves(EnvAt(calm, schedule, k), path[k], drafts[k], path[k + 1], ref, hash, t, v);
    } else {
      HistogramMoves(EnvAt(calm, schedule, k), path[k], drafts[k], path[k + 1], ref, hash, t, v);
    }
  }

  ghost predicate CounterAt(calm: Env, schedule: seq<Turn>, path: seq<Position>, ref: nat, hash: nat,
                            ts: seq<int>, vs: seq<real>, k: nat)
    requires k < |path| && k < |ts| == |vs|
  {
    ReadsCounter(EnvAt(calm, schedule, k), path[k], ref, hash, ts[k], vs[k])
  }

  /** What a call on a counter drafts is the point the samples read so far make. */
  lemma {:induction false} DraftsPoint(calm: Env, schedule: seq<Turn>, path: seq<Position>, drafts: seq<Draft>,
                                       ref: nat, hash: nat, ts: seq<int>, vs: seq<real>, k: nat)
    returns (scrapes: seq<Scrape>, i: nat)
    requires IsTrace(calm, schedule, path, drafts) && k < |drafts| == |ts| == |vs| && ref in path[0].resets
    requires forall l: nat :: l < |drafts| ==> OnlyReads(calm, schedule, path, drafts, ref, hash, ts, vs, l)
    requires CounterAt(calm, schedule, path, ref, hash, ts, vs, k) && drafts[k].Draft? && drafts[k].value.Number?
    ensures scrapes == ScrapesRead(calm, schedule, path, ref, hash, ts, vs, |drafts|)
    ensures i == |ScrapesRead(calm, schedule, path, ref, hash, ts, vs, k)| < |scrapes|
    ensures scrapes[i] == Scrape(ts[k], vs[k])
    ensures PointAt(path[0].resets[ref], scrapes, i) == Adjusted(drafts[k].start, drafts[k].value.x, true)
  {
    var r := path[0].resets[ref];
    var before := ScrapesRead(calm, schedule, path, ref, hash, ts, vs, k);
    scrapes, i := ScrapesRead(calm, schedule, path, ref, hash, ts, vs, |drafts|), |before|;
    assert ReadAt(calm, schedule, path, ref, hash, ts, vs, k);
    ReadsPrefix(calm, schedule, path, ref, hash, ts, vs, k, |drafts|);
    ReadsPrefix(calm, schedule, path, ref, hash, ts, vs, k + 1, |drafts|);
    assert scrapes == before + scrapes[i..];
    AfterPrefix(r, before, scrapes[i..], i);
    StateFollows(calm, schedule, path, drafts, ref, hash, ts, vs, k);
    assert CallAt(calm, schedule, path, drafts, k);
    CounterPoints(EnvAt(calm, schedule, k), path[k], drafts[k], path[k + 1], ref, hash, ts[k], vs[k]);
  }

  /** Over the calls of a record, points of a counter with one start differ by exactly what its raw values differ;
      and a point that opens a window carries its raw value. */
  lemma {:induction false} PointsDiffer(calm: Env, schedule: seq<Turn>, path: seq<Position>, drafts: seq<Draft>,
                                        ref: nat, hash: nat, ts: seq<int>, vs: seq<real>, k: nat, l: nat)
    requires IsTrace(calm, schedule, path, drafts) && k < l < |drafts| == |ts| == |vs| && ref in path[0].resets
    requires forall i: nat :: i < |drafts| ==> OnlyReads(calm, schedule, path, drafts, ref, hash, ts, vs, i)
    requires InOrder(path[0].resets[ref], ScrapesRead(calm, schedule, path, ref, hash, ts, vs, |drafts|))
    requires CounterAt(calm, schedule, path, ref, hash, ts, vs, k) && drafts[k].Draft? && drafts[k].value.Number?
    requires CounterAt(calm, schedule, path, ref, hash, ts, vs, l) && drafts[l].Draft? && drafts[l].value.Number?
    ensures drafts[k].start == drafts[l].start ==> drafts[l].value.x - drafts[k].value.x == vs[l] - vs[k]
    ensures drafts[k].start != drafts[l].start && drafts[l].start == ts[l] - 1 ==> drafts[l].value.x == vs[l]
  {
    var scrapes, i := DraftsPoint(calm, schedule, path, drafts, ref, hash, ts, vs, k);
    var _, j := DraftsPoint(calm, schedule, path, drafts, ref, hash, ts, vs, l);
    ReadsPrefix(calm, schedule, path, ref, hash, ts, vs, k, l);
    if drafts[k].start == drafts[l].start {
      SameWindowDifference(path[0].resets[ref], scrapes, i, j);
    } else {
      WindowValues(path[0].resets[ref], scrapes, j);
      OneWindow(path[0].resets[ref], scrapes, i + 1, j + 1);
      StateBefore(path[0].resets[ref], scrapes, i);
      StateBefore(path[0].resets[ref], scrapes, j);
    }
  }
}
