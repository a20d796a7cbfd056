/** Aggregated counters: which counters a series feeds and what its points add to them (retrieval/aggregator.go;
    the matching is in retrieval/series_cache.go:505-524). */
module Aggregator {
  import opened Common

  datatype Point = Point(ts: int, v: Value)

  /** A promql matcher: a label name and a predicate on its value. */
  datatype Matcher = Matcher(name: string, accepts: string -> bool)

  type Labels = map<string, string>

  function Lookup(lset: Labels, name: string): string {
    if name in lset then lset[name] else ""
  }

  datatype Counter = Counter(measure: nat, filtersets: seq<seq<Matcher>>)

  predicate Passes(lset: Labels, filterset: seq<Matcher>) {
    forall i :: 0 <= i < |filterset| ==> filterset[i].accepts(Lookup(lset, filterset[i].name))
  }

  predicate PassesAny(lset: Labels, filtersets: seq<seq<Matcher>>) {
    exists i :: 0 <= i < |filtersets| && Passes(lset, filtersets[i])
  }

  method MatchFilterset(lset: Labels, filterset: seq<Matcher>) returns (ok: bool)
    ensures ok <==> Passes(lset, filterset)
  {
    var i := 0;
    while i < |filterset|
      invariant 0 <= i <= |filterset|
      invariant forall j :: 0 <= j < i ==> filterset[j].accepts(Lookup(lset, filterset[j].name))
    {
      if !filterset[i].accepts(Lookup(lset, filterset[i].name)) {
        return false;
      }
      i := i + 1;
    }
    return true;
  }

  method MatchFiltersets(lset: Labels, filtersets: seq<seq<Matcher>>) returns (ok: bool)
    ensures ok <==> PassesAny(lset, filtersets)
  {
    var i := 0;
    while i < |filtersets|
      invariant 0 <= i <= |filtersets|
      invariant forall j :: 0 <= j < i ==> !Passes(lset, filtersets[j])
    {
      var pass := MatchFilterset(lset, filtersets[i]);
      if pass {
        return true;
      }
      i := i + 1;
    }
    return false;
  }

  /** The measures of the counters that cover the series, in order. */
  function Covering(lset: Labels, counters: seq<Counter>): seq<nat> {
    if counters == [] then []
    else
      var c := counters[|counters| - 1];
      Covering(lset, counters[..|counters| - 1]) + (if PassesAny(lset, c.filtersets) then [c.measure] else [])
  }

  /** A measure is fed exactly if a counter with it covers the series; counters are asked one by one, in order. */
  lemma {:induction false} CoveringIff(lset: Labels, counters: seq<Counter>, measure: nat)
    ensures measure in Covering(lset, counters)
      <==> exists c <- counters :: c.measure == measure && PassesAny(lset, c.filtersets)
    decreases counters
  {
    if counters != [] {
      var before, last := counters[..|counters| - 1], counters[|counters| - 1];
      CoveringIff(lset, before, measure);
      assert counters == before + [last];
      assert forall c :: c in counters <==> c in before || c == last;
    }
  }

  lemma {:induction false} CoveringConcat(lset: Labels, a: seq<Counter>, b: seq<Counter>)
    ensures Covering(lset, a + b) == Covering(lset, a) + Covering(lset, b)
  {
    if b == [] {
      assert a + b == a;
    } else {
      assert (a + b)[..|a + b| - 1] == a + b[..|b| - 1];
      CoveringConcat(lset, a, b[..|b| - 1]);
    }
  }

  // ---- One series ----

  datatype Track = Track(lastTimestamp: int, lastValue: real, deltas: seq<real>)

  const FRESH := Track(0, 0.0, [])

  function Step(t: Track, p: Point): Track {
    if p.v.NaN? || p.ts < t.lastTimestamp then t
    else if t.lastTimestamp == 0 then t.(lastTimestamp := p.ts, lastValue := p.v.x)
    else
      var delta := if p.v.x < t.lastValue then p.v.x else p.v.x - t.lastValue;
      Track(p.ts, p.v.x, if delta == 0.0 then t.deltas else t.deltas + [delta])
  }

  function Follow(points: seq<Point>): Track {
    if points == [] then FRESH else Step(Follow(points[..|points| - 1]), points[|points| - 1])
  }

  /** One call of stats.Record: every measure gets the same delta. */
  function Measurements(measures: seq<nat>, delta: real): seq<(nat, real)> {
    seq(|measures|, i requires 0 <= i < |measures| => (measures[i], delta))
  }

  /** The calls gave each of the measures, in order, one delta after the other. */
  ghost predicate IsRecordOf(recorded: seq<seq<(nat, real)>>, measures: seq<nat>, deltas: seq<real>) {
    && |recorded| == |deltas|
    && (forall i :: 0 <= i < |recorded| ==> |recorded[i]| == |measures|)
    && (forall i, j :: 0 <= i < |recorded| && 0 <= j < |measures| ==> recorded[i][j] == (measures[j], deltas[i]))
  }

  class CounterTracker {
    var lastTimestamp: int
    var lastValue: real
    const measures: seq<nat>
    /** The calls of stats.Record so far: for each the measures and the value given to them. */
    var recorded: seq<seq<(nat, real)>>
    ghost var deltas: seq<real>

    ghost predicate Valid()
      reads this
    {
      IsRecordOf(recorded, measures, deltas)
    }

    ghost function State(): Track
      reads this
    {
      Track(lastTimestamp, lastValue, deltas)
    }

    constructor (measures: seq<nat>)
      ensures Valid() && State() == FRESH && this.measures == measures
    {
      this.measures := measures;
      lastTimestamp, lastValue, recorded, deltas := 0, 0.0, [], [];
    }

    method NewPoint(ts: int, v: Value)
      requires Valid()
      modifies this
      ensures Valid() && State() == Step(old(State()), Point(ts, v))
      ensures old(recorded) <= recorded
    {
      if v.NaN? {
        return;
      }
      if ts < lastTimestamp {
        return;
      }
      if lastTimestamp == 0 {
        lastTimestamp := ts;
        lastValue := v.x;
        return;
      }
      var delta: real;
      if v.x < lastValue {
        delta := v.x;
      } else {
        delta := v.x - lastValue;
      }
      lastTimestamp := ts;
      lastValue := v.x;
      if delta == 0.0 {
        return;
      }
      var ms := Measurements(measures, delta);
      recorded := recorded + [ms];
      deltas := deltas + [delta];
    }
  }

  method GetTracker(lset: Labels, counters: seq<Counter>) returns (tracker: CounterTracker?)
    ensures tracker == null <==> Covering(lset, counters) == []
    ensures tracker != null ==>
      fresh(tracker) && tracker.Valid() && tracker.State() == FRESH && tracker.measures == Covering(lset, counters)
  {
    var measures := [];
    var i := 0;
    while i < |counters|
      invariant 0 <= i <= |counters| && measures == Covering(lset, counters[..i])
    {
      assert counters[..i + 1][..i] == counters[..i];
      var pass := MatchFiltersets(lset, counters[i].filtersets);
      if pass {
        measures := measures + [counters[i].measure];
      }
      i := i + 1;
    }
    assert counters[..i] == counters;
    if |measures| == 0 {
      return null;
    }
    tracker := new CounterTracker(measures);
  }

  // ---- What the recorded deltas add up to ----

  /** The points that count: numbers, at positive times, not earlier than the last one that counted. */
  function Counted(points: seq<Point>): seq<Point> {
    if points == [] then []
    else
      var before, p := Counted(points[..|points| - 1]), points[|points| - 1];
      if p.v.Num? && p.ts > 0 && (before == [] || before[|before| - 1].ts <= p.ts) then before + [p] else before
  }

  function Total(xs: seq<real>): real {
    if xs == [] then 0.0 else Total(xs[..|xs| - 1]) + xs[|xs| - 1]
  }

  /** The values just before each detected reset, added up. */
  function BeforeResets(points: seq<Point>): real
    requires forall p <- points :: p.v.Num?
  {
    if |points| < 2 then 0.0
    else
      var a, b := points[|points| - 2].v.x, points[|points| - 1].v.x;
      BeforeResets(points[..|points| - 1]) + (if b < a then a else 0.0)
  }

  /** The state agrees with the points counted so far. */
  ghost predicate Agrees(c: seq<Point>, t: Track) {
    && (forall p <- c :: p.v.Num? && p.ts > 0)
    && Total(t.deltas) == (if c == [] then 0.0 else c[|c| - 1].v.x - c[0].v.x + BeforeResets(c))
    && (if c == [] then t.lastTimestamp == 0 && t.deltas == []
        else t.lastTimestamp == c[|c| - 1].ts && t.lastValue == c[|c| - 1].v.x)
  }

  lemma StepAgrees(c: seq<Point>, t: Track, p: Point)
    requires Agrees(c, t) && p.v.Num? && p.ts > 0 && (c == [] || c[|c| - 1].ts <= p.ts)
    ensures Agrees(c + [p], Step(t, p))
  {
    var d, u := c + [p], Step(t, p);
    assert d[..|c|] == c;
    if u.deltas != t.deltas {
      assert u.deltas[..|t.deltas|] == t.deltas;
    }
    if c != [] {
      assert d[|d| - 2] == c[|c| - 1];
    }
  }

  /** Whatever the points, the recorded total is the last counted value minus the first, plus what was lost at
      resets. */
  lemma {:induction false} RecordedTelescopes(points: seq<Point>)
    ensures Agrees(Counted(points), Follow(points))
  {
    if points != [] {
      var before, p := points[..|points| - 1], points[|points| - 1];
      RecordedTelescopes(before);
      var c := Counted(before);
      if p.v.Num? && p.ts > 0 && (c == [] || c[|c| - 1].ts <= p.ts) {
        StepAgrees(c, Follow(before), p);
      }
    }
  }

  /** What the j-th measure was given in all. */
  function GivenTo(recorded: seq<seq<(nat, real)>>, j: nat): real
    requires forall r <- recorded :: j < |r|
  {
    if recorded == [] then 0.0 else GivenTo(recorded[..|recorded| - 1], j) + recorded[|recorded| - 1][j].1
  }

  lemma {:induction false} EachGetsTheDeltas(recorded: seq<seq<(nat, real)>>, measures: seq<nat>, deltas: seq<real>,
                                             j: nat)
    requires IsRecordOf(recorded, measures, deltas) && j < |measures|
    ensures GivenTo(recorded, j) == Total(deltas)
  {
    if recorded != [] {
      var n := |recorded| - 1;
      assert recorded[n][j] == (measures[j], deltas[n]);
      EachGetsTheDeltas(recorded[..n], measures, deltas[..n], j);
    }
  }

  /** Every measure of a tracker that has been fed the points has received what the series grew by: the last counted
      value minus the first, plus what was lost at resets. */
  lemma {:induction false} EveryMeasureTelescopes(points: seq<Point>, recorded: seq<seq<(nat, real)>>,
                                                  measures: seq<nat>, j: nat)
    requires IsRecordOf(recorded, measures, Follow(points).deltas) && j < |measures|
    ensures var c := Counted(points);
      && (forall p <- c :: p.v.Num?)
      && GivenTo(recorded, j) == if c == [] then 0.0 else c[|c| - 1].v.x - c[0].v.x + BeforeResets(c)
  {
    RecordedTelescopes(points);
    EachGetsTheDeltas(recorded, measures, Follow(points).deltas, j);
  }

  /** With non-negative values every recorded delta is positive. */
  lemma {:induction false} DeltasArePositive(points: seq<Point>)
    requires forall p <- points :: p.v.Num? ==> p.v.x >= 0.0
    ensures forall d <- Follow(points).deltas :: d > 0.0
  {
    if points != [] {
      assert points[|points| - 1] in points;
      DeltasArePositive(points[..|points| - 1]);
    }
  }

  /** A NaN, a point that comes too late and the last counted point again record nothing and change nothing. */
  lemma {:induction false} IdlePointsChangeNothing(points: seq<Point>, p: Point)
    requires Counted(points) != []
    requires p.v.NaN? || p.ts < Counted(points)[|Counted(points)| - 1].ts || p == Counted(points)[|Counted(points)| - 1]
    ensures Follow(points + [p]) == Follow(points)
  {
    RecordedTelescopes(points);
    assert (points + [p])[..|points|] == points;
  }

  /** A point fed again at once, as when a call of next fails and is repeated, changes nothing. */
  lemma RepeatChangesNothing(points: seq<Point>, p: Point)
    ensures Follow(points + [p] + [p]) == Follow(points + [p])
  {
    assert (points + [p])[..|points|] == points;
    assert (points + [p] + [p])[..|points| + 1] == points + [p];
  }
}
