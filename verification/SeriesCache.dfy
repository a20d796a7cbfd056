/** The series cache: reset tracking, emitted intervals and garbage collection
    (retrieval/series_cache.go:187-333). Sample values are reals. */
module SeriesCache {
  import opened Common

  datatype MetricType = Counter | Gauge | Untyped | Summary | Histogram | Other

  datatype ValueType = Int64 | Double

  /** What set and its refreshes find out about a series: whether it passes the filters, whether an aggregated counter
      covers it, and the metadata; `metric` is the name the metadata is filed under. */
  datatype Info = Info(
    lset: seq<Label>, exported: bool, tracked: bool, populated: bool, metricType: MetricType, valueType: ValueType,
    metric: string, suffix: string, hash: nat)

  // ---- Reset tracking ----

  datatype ResetState = ResetState(hasReset: bool, resetValue: real, resetTimestamp: int)

  const UNSET := ResetState(false, 0.0, 0)

  datatype Adjusted = Adjusted(start: int, value: real, ok: bool)

  const SKIPPED := Adjusted(0, 0.0, false)

  /** The baseline after a sample: the first sample sets it, a sample below it moves it to zero just before. */
  function NextReset(r: ResetState, t: int, v: real): ResetState {
    if !r.hasReset then ResetState(true, v, t)
    else if v < r.resetValue then ResetState(true, 0.0, t - 1)
    else r
  }

  function Adjust(r: ResetState, t: int, v: real): Adjusted {
    if !r.hasReset then SKIPPED
    else Adjusted(NextReset(r, t, v).resetTimestamp, v - NextReset(r, t, v).resetValue, true)
  }

  // ---- Emitted intervals ----

  datatype Interval = Interval(start: int, end: int) {
    predicate Accepts(start: int, end: int) {
      (start == this.start && end > this.end) || (start > this.start && start >= this.end)
    }
  }

  /** The more recent interval continues the earlier one or starts at or after its end. */
  predicate Follows(a: Interval, b: Interval) {
    (b.start == a.start && b.end > a.end) || (b.start > a.start && b.start >= a.end)
  }

  // ---- The cache ----

  class SeriesCacheEntry {
    var info: Info
    var hasReset: bool
    var resetValue: real
    var resetTimestamp: int
    const maxSegment: int

    constructor (info: Info, maxSegment: int)
      ensures this.info == info && this.maxSegment == maxSegment && State() == UNSET
    {
      this.info, this.maxSegment := info, maxSegment;
      hasReset, resetValue, resetTimestamp := false, 0.0, 0;
    }

    function State(): ResetState
      reads this
    {
      ResetState(hasReset, resetValue, resetTimestamp)
    }
  }

  /** What LastCheckpoint and reading the checkpoint yield. */
  datatype Checkpoint = NotFound | Failed | Found(num: int, exists_: set<nat>, readable: bool)

  class SeriesCache {
    var entries: map<nat, SeriesCacheEntry>
    var intervals: map<nat, Interval>
    var lastCheckpoint: int

    /** No two references share an entry. */
    ghost predicate Valid()
      reads this`entries
    {
      forall r, q :: r in entries && q in entries && r != q ==> entries[r] != entries[q]
    }

    ghost function Resets(): map<nat, ResetState>
      reads this`entries, entries.Values
    {
      map r | r in entries :: entries[r].State()
    }

    ghost function Infos(): map<nat, Info>
      reads this`entries, entries.Values
    {
      map r | r in entries :: entries[r].info
    }

    ghost function Segments(): map<nat, int>
      reads this`entries
    {
      map r | r in entries :: entries[r].maxSegment
    }

    constructor ()
      ensures Valid() && entries == map[] && intervals == map[] && lastCheckpoint == 0
    {
      entries, intervals, lastCheckpoint := map[], map[], 0;
    }

    method GetResetAdjusted(ref: nat, t: int, v: real) returns (start: int, value: real, ok: bool)
      requires Valid()
      modifies entries.Values
      ensures Valid() && Infos() == old(Infos())
      ensures ref !in entries ==> Adjusted(start, value, ok) == SKIPPED && Resets() == old(Resets())
      ensures ref in entries ==>
        && Adjusted(start, value, ok) == Adjust(old(Resets())[ref], t, v)
        && Resets() == old(Resets())[ref := NextReset(old(Resets())[ref], t, v)]
    {
      if ref !in entries {
        return 0, 0.0, false;
      }
      var e := entries[ref];
      var hasReset := e.hasReset;
      e.hasReset := true;
      if !hasReset {
        e.resetTimestamp := t;
        e.resetValue := v;
        return 0, 0.0, false;
      }
      if v < e.resetValue {
        e.resetValue := 0.0;
        e.resetTimestamp := t - 1;
      }
      return e.resetTimestamp, v - e.resetValue, true;
    }

    method UpdateSampleInterval(hash: nat, start: int, end: int) returns (ok: bool)
      modifies this`intervals
      ensures ok <==> hash !in old(intervals) || old(intervals)[hash].Accepts(start, end)
      ensures intervals == if ok then old(intervals)[hash := Interval(start, end)] else old(intervals)
    {
      if hash !in intervals || intervals[hash].Accepts(start, end) {
        intervals := intervals[hash := Interval(start, end)];
        return true;
      }
      return false;
    }

    /** set followed by its refresh, which finds `info`. A series that nobody wants leaves the cache as it is. */
    method Set(ref: nat, info: Info, maxSegment: int)
      requires Valid()
      modifies this`entries
      ensures Valid()
      ensures !info.exported && !info.tracked ==> entries == old(entries)
      ensures info.exported || info.tracked ==>
        && ref in entries && fresh(entries[ref]) && entries == old(entries)[ref := entries[ref]]
        && entries[ref].State() == UNSET && entries[ref].info == info && entries[ref].maxSegment == maxSegment
    {
      if !info.exported && !info.tracked {
        return;
      }
      var e := new SeriesCacheEntry(info, maxSegment);
      entries := entries[ref := e];
    }

    /** A refresh that succeeds tells a series that is not populated yet what is known about it. */
    method RefreshOne(l: Learned)
      requires Valid()
      modifies entries.Values
      ensures Valid() && Infos() == LearnOne(old(Infos()), l) && Resets() == old(Resets())
    {
      if l.ref in entries {
        var e := entries[l.ref];
        if !e.info.populated {
          e.info := l.info;
        }
      }
    }

    method Refresh(learned: seq<Learned>)
      requires Valid()
      modifies entries.Values
      ensures Valid() && Infos() == Learn(old(Infos()), learned) && Resets() == old(Resets())
    {
      var i := 0;
      while i < |learned|
        invariant 0 <= i <= |learned| && Valid()
        invariant Infos() == Learn(old(Infos()), learned[..i]) && Resets() == old(Resets())
      {
        assert learned[..i + 1][..i] == learned[..i];
        RefreshOne(learned[i]);
        i := i + 1;
      }
      assert learned[..i] == learned;
    }

    method GarbageCollect(checkpoint: Checkpoint)
      modifies this`entries, this`lastCheckpoint
      ensures entries.Keys <= old(entries.Keys) && forall r <- entries :: entries[r] == old(entries)[r]
      ensures Collection(Segments(), lastCheckpoint) == Collect(Collection(old(Segments()), old(lastCheckpoint)),
        checkpoint)
    {
      if checkpoint.NotFound? || checkpoint.Failed? {
        return;
      }
      var cpNum, exists_ := checkpoint.num, checkpoint.exists_;
      if cpNum <= lastCheckpoint {
        return;
      }
      if !checkpoint.readable {
        return;
      }
      ghost var before := entries;
      var todo := entries.Keys;
      while todo != {}
        invariant todo <= before.Keys && lastCheckpoint == old(lastCheckpoint)
        invariant entries ==
          map r | r in before && (r in todo || r in exists_ || before[r].maxSegment > cpNum) :: before[r]
        decreases |todo|
      {
        var ref :| ref in todo;
        if ref !in exists_ && entries[ref].maxSegment <= cpNum {
          entries := entries - {ref};
        }
        todo := todo - {ref};
      }
      lastCheckpoint := cpNum;
    }
  }

  datatype Learned = Learned(ref: nat, info: Info)

  function LearnOne(infos: map<nat, Info>, l: Learned): map<nat, Info> {
    if l.ref in infos && !infos[l.ref].populated then infos[l.ref := l.info] else infos
  }

  function Learn(infos: map<nat, Info>, learned: seq<Learned>): map<nat, Info> {
    if learned == [] then infos
    else LearnOne(Learn(infos, learned[..|learned| - 1]), learned[|learned| - 1])
  }

  /** Refreshes fill in what is not populated yet and leave everything else as it is. */
  lemma {:induction false} LearnFillsIn(infos: map<nat, Info>, learned: seq<Learned>, ref: nat)
    ensures Learn(infos, learned).Keys == infos.Keys
    ensures ref in infos && infos[ref].populated ==> Learn(infos, learned)[ref] == infos[ref]
    ensures ref in infos && Learn(infos, learned)[ref] != infos[ref]
      ==> Learned(ref, Learn(infos, learned)[ref]) in learned
    ensures ref in infos && !Learn(infos, learned)[ref].populated ==>
      forall l <- learned :: l.ref == ref ==> !l.info.populated
  {
    if learned != [] {
      var before, l := learned[..|learned| - 1], learned[|learned| - 1];
      LearnFillsIn(infos, before, ref);
      assert learned == before + [l];
    }
  }

  // ---- Garbage collection over runs ----

  datatype Collection = Collection(segments: map<nat, int>, lastCheckpoint: int)

  function Collect(c: Collection, checkpoint: Checkpoint): Collection {
    match checkpoint
    case Found(n, exists_, true) =>
      if n <= c.lastCheckpoint then c
      else Collection(map r | r in c.segments && (r in exists_ || c.segments[r] > n) :: c.segments[r], n)
    case _ => c
  }

  /** A series record for `ref` in WAL segment `segment`, handed to set with the bound `maxSegment`, or a round of the
      collector. */
  datatype CacheOp = Log(ref: nat, segment: int, maxSegment: int) | Round(checkpoint: Checkpoint)

  function Replay(ops: seq<CacheOp>): Collection {
    if ops == [] then Collection(map[], 0)
    else
      var c := Replay(ops[..|ops| - 1]);
      match ops[|ops| - 1]
      case Log(ref, _, maxSegment) => c.(segments := c.segments[ref := maxSegment])
      case Round(checkpoint) => Collect(c, checkpoint)
  }

  /** The segment of the last record logged for `ref`, if there is one. */
  function LastLogged(ops: seq<CacheOp>, ref: nat): seq<int> {
    if ops == [] then []
    else match ops[|ops| - 1]
      case Log(r, segment, _) => if r == ref then [segment] else LastLogged(ops[..|ops| - 1], ref)
      case Round(_) => LastLogged(ops[..|ops| - 1], ref)
  }

  /** `ref` is live: each checkpoint taken since it was logged lists it, unless its record is in a later segment. */
  ghost predicate StaysLive(ops: seq<CacheOp>, ref: nat) {
    forall k :: 0 <= k < |ops| && ops[k].Round? && ops[k].checkpoint.Found? && LastLogged(ops[..k], ref) != [] ==>
      ref in ops[k].checkpoint.exists_ || LastLogged(ops[..k], ref)[0] > ops[k].checkpoint.num
  }

  ghost predicate BoundsHold(ops: seq<CacheOp>) {
    forall op <- ops :: op.Log? ==> op.segment <= op.maxSegment
  }

  /** No run of set and collect steps deletes a live series. */
  lemma {:induction false} LiveSeriesSurvive(ops: seq<CacheOp>, ref: nat)
    requires BoundsHold(ops) && StaysLive(ops, ref) && LastLogged(ops, ref) != []
    ensures var c := Replay(ops); ref in c.segments && LastLogged(ops, ref)[0] <= c.segments[ref]
  {
    var before, op := ops[..|ops| - 1], ops[|ops| - 1];
    assert forall k :: 0 <= k < |before| ==> before[..k] == ops[..k] && before[k] == ops[k];
    assert op in ops;
    if !(op.Log? && op.ref == ref) {
      LiveSeriesSurvive(before, ref);
    }
  }

  /** A round whose checkpoint can be read and is newer than the last one collected stores its number and deletes
      exactly the series that are not in it and were logged no later than it; any other round changes nothing. Doing
      a round again changes nothing either, and the collected checkpoint never goes back. */
  lemma CollectIsExact(c: Collection, checkpoint: Checkpoint)
    ensures var d := Collect(c, checkpoint);
      && Collect(d, checkpoint) == d
      && c.lastCheckpoint <= d.lastCheckpoint
      && (forall r <- d.segments :: r in c.segments && d.segments[r] == c.segments[r])
      && (if checkpoint.Found? && checkpoint.readable && checkpoint.num > c.lastCheckpoint
          then d.lastCheckpoint == checkpoint.num
               && forall r <- c.segments ::
                    r in d.segments <==> r in checkpoint.exists_ || c.segments[r] > checkpoint.num
          else d == c)
  {
  }

  predicate ReadsCheckpoint(op: CacheOp) {
    op.Round? && op.checkpoint.Found? && op.checkpoint.readable
  }

  /** The collected checkpoint is the newest one that could be read, zero if there was none above it. */
  lemma {:induction false} LastIsNewest(ops: seq<CacheOp>)
    ensures var last := Replay(ops).lastCheckpoint;
      && last >= 0
      && (forall op <- ops :: ReadsCheckpoint(op) ==> op.checkpoint.num <= last)
      && (last > 0 ==> exists op <- ops :: ReadsCheckpoint(op) && op.checkpoint.num == last)
  {
    if ops != [] {
      var before, op := ops[..|ops| - 1], ops[|ops| - 1];
      LastIsNewest(before);
      assert ops == before + [op] && op in ops && forall o <- before :: o in ops;
    }
  }

  /** After a round with a readable checkpoint newer than all before, no series stays that is not in the checkpoint and
      bounded by its number. */
  lemma {:induction false} CollectedAreGone(ops: seq<CacheOp>, op: CacheOp)
    requires ReadsCheckpoint(op) && op.checkpoint.num > 0
    requires forall o <- ops :: ReadsCheckpoint(o) ==> o.checkpoint.num < op.checkpoint.num
    ensures var c := Replay(ops + [op]);
      && c.lastCheckpoint == op.checkpoint.num
      && forall r <- c.segments :: r in op.checkpoint.exists_ || c.segments[r] > op.checkpoint.num
  {
    LastIsNewest(ops);
    assert (ops + [op])[..|ops|] == ops;
    CollectIsExact(Replay(ops), op.checkpoint);
  }

  lemma {:induction false} CheckpointsOnlyAdvance(ops: seq<CacheOp>, k: nat)
    requires k <= |ops|
    ensures Replay(ops[..k]).lastCheckpoint <= Replay(ops).lastCheckpoint
    decreases |ops|
  {
    if k == |ops| {
      assert ops[..k] == ops;
    } else {
      var before := ops[..|ops| - 1];
      assert before[..k] == ops[..k];
      CheckpointsOnlyAdvance(before, k);
      if ops[|ops| - 1].Round? {
        CollectIsExact(Replay(before), ops[|ops| - 1].checkpoint);
      }
    }
  }

  // ---- Intervals over runs ----

  datatype Attempt = Attempt(hash: nat, start: int, end: int)

  datatype Emission = Emission(intervals: map<nat, Interval>, accepted: seq<Attempt>)

  /** Any sequence of updateSampleInterval calls, whatever references they come from. */
  function Emit(calls: seq<Attempt>): Emission {
    if calls == [] then Emission(map[], [])
    else
      var e := Emit(calls[..|calls| - 1]);
      var c := calls[|calls| - 1];
      if c.hash !in e.intervals || e.intervals[c.hash].Accepts(c.start, c.end)
      then Emission(e.intervals[c.hash := Interval(c.start, c.end)], e.accepted + [c])
      else e
  }

  ghost predicate NoOverlap(accepted: seq<Attempt>) {
    forall i, j :: 0 <= i < j < |accepted| && accepted[i].hash == accepted[j].hash ==>
      Follows(Interval(accepted[i].start, accepted[i].end), Interval(accepted[j].start, accepted[j].end))
  }

  /** The stored interval of a hash is the last one accepted for it, and follows all earlier ones. */
  ghost predicate Latest(e: Emission) {
    && (forall a <- e.accepted :: a.hash in e.intervals)
    && (forall i :: 0 <= i < |e.accepted| ==>
          var a, last := e.accepted[i], e.intervals[e.accepted[i].hash];
          last == Interval(a.start, a.end) || Follows(Interval(a.start, a.end), last))
  }

  lemma FollowsTransitive(a: Interval, b: Interval, c: Interval)
    requires Follows(a, b) && Follows(b, c)
    ensures Follows(a, c)
  {
  }

  /** Over any run, of two intervals emitted for one series the later one extends the earlier one or starts at or after
      its end: emitted intervals never overlap otherwise. */
  lemma {:induction false} EmittedNeverOverlap(calls: seq<Attempt>)
    ensures NoOverlap(Emit(calls).accepted) && Latest(Emit(calls))
  {
    if calls != [] {
      var before, c := calls[..|calls| - 1], calls[|calls| - 1];
      EmittedNeverOverlap(before);
      var e := Emit(before);
      forall i | 0 <= i < |e.accepted| && e.accepted[i].hash == c.hash && e.intervals[c.hash].Accepts(c.start, c.end)
        ensures Follows(Interval(e.accepted[i].start, e.accepted[i].end), Interval(c.start, c.end))
      {
        var a := Interval(e.accepted[i].start, e.accepted[i].end);
        assert e.accepted[i] in e.accepted;
        if a != e.intervals[c.hash] {
          FollowsTransitive(a, e.intervals[c.hash], Interval(c.start, c.end));
        }
      }
    }
  }

  // ---- A cumulative series that alone owns its hash ----

  /** What happens to one reference: a sample arrives, set replaces its entry, the collector drops its entry. The
      point made of a sample is offered to the interval filter, unless it is the count of an incomplete histogram. */
  datatype RefOp = Sample(t: int, v: real, offered: bool) | Replaced | Collected

  datatype Point = Point(start: int, end: int, value: real, accepted: bool)

  datatype Track = Track(entry: seq<ResetState>, interval: seq<Interval>, points: seq<Point>)

  function Step(k: Track, op: RefOp): Track {
    match op
    case Replaced => k.(entry := [UNSET])
    case Collected => k.(entry := [])
    case Sample(t, v, offered) =>
      if k.entry == [] then k
      else
        var a := Adjust(k.entry[0], t, v);
        var moved := k.(entry := [NextReset(k.entry[0], t, v)]);
        if !a.ok || !offered then moved
        else
          var accepted := k.interval == [] || k.interval[0].Accepts(a.start, t);
          moved.(interval := if accepted then [Interval(a.start, t)] else k.interval,
                 points := k.points + [Point(a.start, t, a.value, accepted)])
  }

  function Follow(ops: seq<RefOp>): Track {
    if ops == [] then Track([], [], []) else Step(Follow(ops[..|ops| - 1]), ops[|ops| - 1])
  }

  /** Sample times strictly increase and values are non-negative, as for a counter. */
  ghost predicate CounterLike(ops: seq<RefOp>) {
    && (forall i, j :: 0 <= i < j < |ops| && ops[i].Sample? && ops[j].Sample? ==> ops[i].t < ops[j].t)
    && (forall op <- ops :: op.Sample? ==> op.v >= 0.0)
  }

  /** All that happened so far happened before time `t`. */
  ghost predicate Before(k: Track, t: int) {
    && |k.entry| <= 1 && |k.interval| <= 1
    && (k.interval != [] ==> k.interval[0].start < k.interval[0].end < t)
    && (k.entry != [] && k.entry[0].hasReset ==>
          && k.entry[0].resetTimestamp < t && k.entry[0].resetValue >= 0.0
          && (k.interval != [] ==>
                k.entry[0].resetTimestamp == k.interval[0].start || k.interval[0].end <= k.entry[0].resetTimestamp))
  }

  ghost predicate CleanPoint(p: Point) {
    p.start < p.end && p.value >= 0.0 && p.accepted
  }

  lemma StepIsClean(k: Track, op: RefOp, t: int)
    requires Before(k, t) && (op.Sample? ==> op.v >= 0.0 && t <= op.t)
    requires forall p <- k.points :: CleanPoint(p)
    ensures forall p <- Step(k, op).points :: CleanPoint(p)
    ensures Before(Step(k, op), if op.Sample? then op.t + 1 else t)
  {
  }

  /** Every point offered of a counter, or of the count of a histogram, whose hash gets no other points has a non-empty
      interval and a non-negative value and is let through by the interval filter, through any number of resets,
      replacements and collections of its entry. */
  lemma {:induction false} CounterPointsAreEmitted(ops: seq<RefOp>, t: int)
    requires CounterLike(ops)
    requires forall op <- ops :: op.Sample? ==> op.t < t
    ensures Before(Follow(ops), t)
    ensures forall p <- Follow(ops).points :: CleanPoint(p)
  {
    if ops != [] {
      var before, op := ops[..|ops| - 1], ops[|ops| - 1];
      assert op in ops;
      var u := if op.Sample? then op.t else t;
      forall o <- before | o.Sample? ensures o.t < u {
        var i :| 0 <= i < |before| && before[i] == o;
        assert ops[i] == o && ops[|ops| - 1] == op;
      }
      assert forall o <- before :: o in ops;
      CounterPointsAreEmitted(before, u);
      StepIsClean(Follow(before), op, u);
    }
  }

  // ---- What the adjusted values are ----

  /** Points of one window differ by what the raw values differ. */
  lemma {:induction false} SameWindowDifference(r: ResetState, scrapes: seq<Scrape>, i: nat, j: nat)
    requires InOrder(r, scrapes) && i <= j < |scrapes|
    requires PointAt(r, scrapes, i).start == PointAt(r, scrapes, j).start
    ensures PointAt(r, scrapes, j).value - PointAt(r, scrapes, i).value == scrapes[j].v - scrapes[i].v
  {
    StateBefore(r, scrapes, i);
    StateBefore(r, scrapes, j);
    OneWindow(r, scrapes, i + 1, j + 1);
  }

  /** A point that opens a window, by starting just before its own time, carries the raw value; so does every later
      point of that window. A point that starts with the baseline carries what the raw value exceeds it by. */
  lemma {:induction false} WindowValues(r: ResetState, scrapes: seq<Scrape>, k: nat)
    requires InOrder(r, scrapes) && k < |scrapes|
    ensures PointAt(r, scrapes, k).ok
    ensures scrapes[k].v < After(r, scrapes, k).resetValue ==>
      PointAt(r, scrapes, k).start == scrapes[k].t - 1 && PointAt(r, scrapes, k).value == scrapes[k].v
    ensures PointAt(r, scrapes, k).value == scrapes[k].v
      || (PointAt(r, scrapes, k).start == r.resetTimestamp
          && PointAt(r, scrapes, k).value == scrapes[k].v - r.resetValue)
  {
    StateBefore(r, scrapes, k);
    BaselineOrZero(r, scrapes, k + 1);
  }

  lemma {:induction false} BaselineOrZero(r: ResetState, scrapes: seq<Scrape>, k: nat)
    requires InOrder(r, scrapes) && k <= |scrapes|
    ensures After(r, scrapes, k) == r || After(r, scrapes, k).resetValue == 0.0
  {
    if k > 0 {
      BaselineOrZero(r, scrapes, k - 1);
      StateBefore(r, scrapes, k - 1);
    }
  }

  /** The first sample of an entry makes no point and becomes the baseline: the points after it, up to the first
      value below it, start at its time and carry what has been added since. */
  lemma {:induction false} CountsFromFirst(first: Scrape, scrapes: seq<Scrape>, k: nat)
    requires k < |scrapes| && first.t < scrapes[0].t
    requires forall i, j :: 0 <= i < j < |scrapes| ==> scrapes[i].t < scrapes[j].t
    requires forall i :: 0 <= i <= k ==> scrapes[i].v >= first.v
    ensures !Adjust(UNSET, first.t, first.v).ok
    ensures PointAt(NextReset(UNSET, first.t, first.v), scrapes, k) == Adjusted(first.t, scrapes[k].v - first.v, true)
  {
    StaysAtFirst(first, scrapes, k);
  }

  lemma {:induction false} StaysAtFirst(first: Scrape, scrapes: seq<Scrape>, k: nat)
    requires k < |scrapes| && forall i :: 0 <= i <= k ==> scrapes[i].v >= first.v
    ensures After(NextReset(UNSET, first.t, first.v), scrapes, k) == ResetState(true, first.v, first.t)
  {
    if k > 0 {
      StaysAtFirst(first, scrapes, k - 1);
    }
  }

  // ---- What the baseline does not see ----

  /** A drop in the raw values stays inside one window, and so shows as a falling cumulative value, exactly when the
      lower value is not below the baseline. */
  lemma DropIsHidden(r: ResetState, t1: int, v1: real, t2: int, v2: real)
    requires r.hasReset && r.resetTimestamp < t1 < t2
    ensures var s := NextReset(r, t1, v1);
      var a, b := Adjust(r, t1, v1), Adjust(s, t2, v2);
      (a.start == b.start && b.value < a.value) <==> (s.resetValue <= v2 < v1)
  {
  }

  datatype Scrape = Scrape(t: int, v: real)

  /** The reset state of an entry after the first k scrapes. */
  function After(r: ResetState, scrapes: seq<Scrape>, k: nat): ResetState
    requires k <= |scrapes|
  {
    if k == 0 then r else NextReset(After(r, scrapes, k - 1), scrapes[k - 1].t, scrapes[k - 1].v)
  }

  /** The point the k-th scrape makes. */
  function PointAt(r: ResetState, scrapes: seq<Scrape>, k: nat): Adjusted
    requires k < |scrapes|
  {
    Adjust(After(r, scrapes, k), scrapes[k].t, scrapes[k].v)
  }

  ghost predicate InOrder(r: ResetState, scrapes: seq<Scrape>) {
    && r.hasReset
    && (forall k :: 0 <= k < |scrapes| ==> r.resetTimestamp < scrapes[k].t)
    && (forall i, j :: 0 <= i < j < |scrapes| ==> scrapes[i].t < scrapes[j].t)
  }

  /** Within a window, that is among points with one start, no value falls. */
  ghost predicate NeverFalls(r: ResetState, scrapes: seq<Scrape>) {
    forall i: nat, j: nat :: i < j < |scrapes| && PointAt(r, scrapes, i).start == PointAt(r, scrapes, j).start ==>
      PointAt(r, scrapes, i).value <= PointAt(r, scrapes, j).value
  }

  /** The k-th raw value drops and stays at or above the baseline. */
  predicate HiddenDrop(r: ResetState, scrapes: seq<Scrape>, k: nat)
    requires 0 < k < |scrapes|
  {
    After(r, scrapes, k).resetValue <= scrapes[k].v < scrapes[k - 1].v
  }

  lemma {:induction false} StateBefore(r: ResetState, scrapes: seq<Scrape>, k: nat)
    requires InOrder(r, scrapes) && k <= |scrapes|
    ensures After(r, scrapes, k).hasReset
    ensures k < |scrapes| ==> After(r, scrapes, k).resetTimestamp < scrapes[k].t
    ensures 0 < k ==> After(r, scrapes, k).resetTimestamp < scrapes[k - 1].t
  {
    if k > 0 {
      StateBefore(r, scrapes, k - 1);
    }
  }

  /** Windows follow each other, and within one the baseline stays. */
  lemma {:induction false} OneWindow(r: ResetState, scrapes: seq<Scrape>, i: nat, j: nat)
    requires InOrder(r, scrapes) && 0 < i <= j <= |scrapes|
    ensures var s, t := After(r, scrapes, i), After(r, scrapes, j);
      s.resetTimestamp <= t.resetTimestamp && (s.resetTimestamp == t.resetTimestamp ==> s == t)
  {
    if i < j {
      OneWindow(r, scrapes, i, j - 1);
      StateBefore(r, scrapes, j - 1);
    }
  }

  lemma {:induction false} RisesWithin(r: ResetState, scrapes: seq<Scrape>, i: nat, j: nat)
    requires InOrder(r, scrapes) && i <= j < |scrapes|
    requires forall k :: 0 < k < |scrapes| ==> !HiddenDrop(r, scrapes, k)
    requires After(r, scrapes, i + 1) == After(r, scrapes, j + 1)
    ensures scrapes[i].v <= scrapes[j].v
  {
    if i < j {
      OneWindow(r, scrapes, i + 1, j);
      OneWindow(r, scrapes, j, j + 1);
      StateBefore(r, scrapes, j);
      assert !HiddenDrop(r, scrapes, j);
      RisesWithin(r, scrapes, i, j - 1);
    }
  }

  /** Over a whole run of an entry the values never fall within a window exactly when no raw drop stays at or above the
      baseline. */
  lemma {:induction false} WindowsNeverFallIff(r: ResetState, scrapes: seq<Scrape>)
    requires InOrder(r, scrapes)
    ensures NeverFalls(r, scrapes) <==> forall k :: 0 < k < |scrapes| ==> !HiddenDrop(r, scrapes, k)
  {
    forall k: nat | 0 < k < |scrapes| && HiddenDrop(r, scrapes, k) ensures !NeverFalls(r, scrapes) {
      StateBefore(r, scrapes, k - 1);
      StateBefore(r, scrapes, k);
      assert PointAt(r, scrapes, k - 1).start == PointAt(r, scrapes, k).start;
    }
    if forall k :: 0 < k < |scrapes| ==> !HiddenDrop(r, scrapes, k) {
      forall i: nat, j: nat | i < j < |scrapes| && PointAt(r, scrapes, i).start == PointAt(r, scrapes, j).start
        ensures PointAt(r, scrapes, i).value <= PointAt(r, scrapes, j).value
      {
        StateBefore(r, scrapes, i);
        StateBefore(r, scrapes, j);
        OneWindow(r, scrapes, i + 1, j + 1);
        RisesWithin(r, scrapes, i, j);
      }
    }
  }

  /** The baseline of an entry moves at most once: after the first detected reset it is zero, and no non-negative
      value is below it again. */
  lemma {:induction false} ResetIsDetectedOnce(r: ResetState, samples: seq<RefOp>)
    requires r.hasReset && r.resetValue == 0.0
    requires forall s <- samples :: s.Sample? && s.v >= 0.0
    ensures var k := Feed(r, samples); k == r
  {
    if samples != [] {
      assert samples[|samples| - 1] in samples;
      ResetIsDetectedOnce(r, samples[..|samples| - 1]);
    }
  }

  function Feed(r: ResetState, samples: seq<RefOp>): ResetState {
    if samples == [] then r
    else
      var k := Feed(r, samples[..|samples| - 1]);
      var s := samples[|samples| - 1];
      if s.Sample? then NextReset(k, s.t, s.v) else k
  }

  /** So the second reset of 5, 3, 8, 1 goes unseen: both last points start at time 19 and the value falls. */
  lemma SecondResetGoesUnseen()
    ensures
      var ops := [Replaced, Sample(10, 5.0, true), Sample(20, 3.0, true), Sample(30, 8.0, true), Sample(40, 1.0, true)];
      Follow(ops).points == [Point(19, 20, 3.0, true), Point(19, 30, 8.0, true), Point(19, 40, 1.0, true)]
  {
    var ops := [Replaced, Sample(10, 5.0, true), Sample(20, 3.0, true), Sample(30, 8.0, true), Sample(40, 1.0, true)];
    assert ops[..4][..3][..2][..1] == [ops[0]];
    assert [ops[0]][..0] == [];
    assert ops[..4][..3][..2] == [Replaced, Sample(10, 5.0, true)];
    assert ops[..4][..3] == [Replaced, Sample(10, 5.0, true), Sample(20, 3.0, true)];
    assert ops[..4] == [Replaced, Sample(10, 5.0, true), Sample(20, 3.0, true), Sample(30, 8.0, true)];
    assert Follow([ops[0]]).entry == [UNSET];
    assert Follow(ops[..4][..3][..2]).entry == [ResetState(true, 5.0, 10)];
    assert Follow(ops[..4][..3]).entry == [ResetState(true, 0.0, 19)];
  }
}
