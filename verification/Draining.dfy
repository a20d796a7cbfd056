/** The loop that drains a sample record (retrieval/manager.go:224-256, 347-360). */
module Draining {
  import opened Common
  import opened SeriesCache
  import opened SampleBuilder

  /** Milliseconds. */
  function Exponential(d: nat): nat {
    if d * 2 < 10 then 10 else if d * 2 > 2000 then 2000 else d * 2
  }

  function Backoff(failures: nat): nat {
    if failures == 0 then 0 else Exponential(Backoff(failures - 1))
  }

  /** The pause starts at ten milliseconds, doubles with each failure and never exceeds two seconds. */
  lemma {:induction false} BackoffBounds(failures: nat)
    requires failures > 0
    ensures Backoff(failures) == if failures <= 8 then 10 * [1, 2, 4, 8, 16, 32, 64, 128][failures - 1] else 2000
  {
    if failures > 1 {
      BackoffBounds(failures - 1);
    }
  }

  lemma NextBackoff(backoff: nat, failures: nat, failed: bool)
    requires backoff == Backoff(failures)
    ensures (if failed then Exponential(backoff) else backoff) == Backoff(failures + if failed then 1 else 0)
  {
  }

  // ---- What the calls of next meet ----

  /** What changes for one call: what the refreshes just before it find out, and the lookups that fail in it. */
  datatype Turn = Turn(learned: seq<Learned>, fails: set<nat>)

  /** What is known once the first k turns have been taken; nothing changes any more when the schedule is over. */
  function InfosAt(infos: map<nat, Info>, schedule: seq<Turn>, k: nat): map<nat, Info> {
    if k == 0 then infos
    else if k > |schedule| then InfosAt(infos, schedule, k - 1)
    else Learn(InfosAt(infos, schedule, k - 1), schedule[k - 1].learned)
  }

  /** What the k-th call sees. */
  function EnvAt(calm: Env, schedule: seq<Turn>, k: nat): Env {
    Env(InfosAt(calm.infos, schedule, k + 1), if k < |schedule| then schedule[k].fails else {}, calm.bounds)
  }

  /** Once the schedule is over every call sees the same. */
  lemma {:induction false} Quiet(calm: Env, schedule: seq<Turn>, k: nat)
    requires k >= |schedule|
    ensures EnvAt(calm, schedule, k) == EnvAt(calm, schedule, |schedule|) && EnvAt(calm, schedule, k).fails == {}
  {
    if k > |schedule| {
      Quiet(calm, schedule, k - 1);
    }
  }

  // ---- When the loop ends ----

  /** What is left of the record before the k-th call: values and reset state play no part. */
  function RestAt(calm: Env, schedule: seq<Turn>, samples: seq<RefSample>, k: nat): (rest: seq<RefSample>)
    ensures |rest| <= |samples|
  {
    if k == 0 then samples
    else
      var rest := RestAt(calm, schedule, samples, k - 1);
      if rest == [] then [] else rest[NextExtent(EnvAt(calm, schedule, k - 1), rest).0..]
  }

  /** The loop comes to the end of the record. */
  ghost predicate Ends(calm: Env, schedule: seq<Turn>, samples: seq<RefSample>) {
    exists k: nat :: RestAt(calm, schedule, samples, k) == []
  }

  /** From the j-th call on the loop has a sample at its head that stays stuck whatever is found out. */
  ghost predicate StuckFrom(calm: Env, schedule: seq<Turn>, samples: seq<RefSample>, j: nat) {
    var rest := RestAt(calm, schedule, samples, j);
    rest != [] && forall k: nat :: k >= j ==> Stuck(EnvAt(calm, schedule, k), rest[0])
  }

  /** After the schedule a call consumes something unless the head is stuck. */
  lemma {:induction false} QuietCall(calm: Env, schedule: seq<Turn>, k: nat, rest: seq<RefSample>)
    requires k >= |schedule| && rest != []
    ensures NextExtent(EnvAt(calm, schedule, k), rest).0 > 0 <==> !Stuck(EnvAt(calm, schedule, k), rest[0])
  {
    var env := EnvAt(calm, schedule, k);
    NextProgressesUnlessStuck(env, rest);
    if NextExtent(env, rest) == (0, true) {
      FailureKeepsInput(env, rest);
    }
  }

  lemma {:induction false} Spins(calm: Env, schedule: seq<Turn>, samples: seq<RefSample>, j: nat, k: nat)
    requires StuckFrom(calm, schedule, samples, j) && j <= k
    ensures RestAt(calm, schedule, samples, k) == RestAt(calm, schedule, samples, j)
  {
    if j < k {
      Spins(calm, schedule, samples, j, k - 1);
      NextProgressesUnlessStuck(EnvAt(calm, schedule, k - 1), RestAt(calm, schedule, samples, j));
    }
  }

  lemma {:induction false} StaysEmpty(calm: Env, schedule: seq<Turn>, samples: seq<RefSample>, j: nat, k: nat)
    requires RestAt(calm, schedule, samples, j) == [] && j <= k
    ensures RestAt(calm, schedule, samples, k) == []
  {
    if j < k {
      StaysEmpty(calm, schedule, samples, j, k - 1);
    }
  }

  /** Without a head that is stuck for good each call after the schedule shortens the record. */
  lemma {:induction false} Shortens(calm: Env, schedule: seq<Turn>, samples: seq<RefSample>, m: nat)
    requires forall j: nat :: !StuckFrom(calm, schedule, samples, j)
    ensures |RestAt(calm, schedule, samples, |schedule| + m)| <= if m <= |samples| then |samples| - m else 0
  {
    if m > 0 {
      Shortens(calm, schedule, samples, m - 1);
      var k := |schedule| + m - 1;
      var rest := RestAt(calm, schedule, samples, k);
      if rest != [] {
        QuietCall(calm, schedule, k, rest);
        if Stuck(EnvAt(calm, schedule, k), rest[0]) {
          forall i: nat | i >= k ensures Stuck(EnvAt(calm, schedule, i), rest[0]) {
            Quiet(calm, schedule, i);
            Quiet(calm, schedule, k);
          }
          assert StuckFrom(calm, schedule, samples, k);
        }
      }
    }
  }

  /** The loop ends exactly if it never has a sample at its head that stays stuck, and then within as many calls as
      there are samples and turns. With such a sample it spins on it for ever. */
  lemma {:induction false} EndsIffNeverStuck(calm: Env, schedule: seq<Turn>, samples: seq<RefSample>)
    ensures Ends(calm, schedule, samples) <==> forall j: nat :: !StuckFrom(calm, schedule, samples, j)
    ensures Ends(calm, schedule, samples) <==> RestAt(calm, schedule, samples, |schedule| + |samples|) == []
    ensures forall j: nat, k: nat :: StuckFrom(calm, schedule, samples, j) && j <= k ==>
      RestAt(calm, schedule, samples, k) == RestAt(calm, schedule, samples, j)
  {
    forall j: nat, k: nat | StuckFrom(calm, schedule, samples, j) && j <= k
      ensures RestAt(calm, schedule, samples, k) == RestAt(calm, schedule, samples, j)
    {
      Spins(calm, schedule, samples, j, k);
    }
    if Ends(calm, schedule, samples) {
      var e: nat :| RestAt(calm, schedule, samples, e) == [];
      forall j: nat ensures !StuckFrom(calm, schedule, samples, j) {
        if StuckFrom(calm, schedule, samples, j) {
          if j <= e {
            Spins(calm, schedule, samples, j, e);
          } else {
            StaysEmpty(calm, schedule, samples, e, j);
          }
        }
      }
    }
    if forall j: nat :: !StuckFrom(calm, schedule, samples, j) {
      Shortens(calm, schedule, samples, |samples|);
    }
  }

  lemma {:induction false} EndsInTime(calm: Env, schedule: seq<Turn>, samples: seq<RefSample>)
    requires Ends(calm, schedule, samples)
    ensures RestAt(calm, schedule, samples, |schedule| + |samples|) == []
  {
    EndsIffNeverStuck(calm, schedule, samples);
  }

  predicate WellNamed(env: Env, samples: seq<RefSample>) {
    forall s <- samples :: !Stuck(env, s)
  }

  lemma {:induction false} RestIsSuffix(calm: Env, schedule: seq<Turn>, samples: seq<RefSample>, k: nat)
    ensures var rest := RestAt(calm, schedule, samples, k); rest == samples[|samples| - |rest|..]
  {
    if k > 0 {
      RestIsSuffix(calm, schedule, samples, k - 1);
    }
  }

  /** In particular it ends if no sample of the record is ever stuck. */
  lemma {:induction false} WellNamedEnds(calm: Env, schedule: seq<Turn>, samples: seq<RefSample>)
    requires forall k: nat :: WellNamed(EnvAt(calm, schedule, k), samples)
    ensures Ends(calm, schedule, samples)
  {
    forall j: nat ensures !StuckFrom(calm, schedule, samples, j) {
      RestIsSuffix(calm, schedule, samples, j);
      var rest := RestAt(calm, schedule, samples, j);
      assert WellNamed(EnvAt(calm, schedule, j), samples);
      if rest != [] {
        assert rest[0] in samples;
      }
    }
    EndsIffNeverStuck(calm, schedule, samples);
  }

  /** The calls find no NaN among the samples of a histogram they read. */
  ghost predicate AllLegible(calm: Env, schedule: seq<Turn>, samples: seq<RefSample>) {
    forall k: nat :: LegibleAt(calm, schedule, samples, k)
  }

  ghost predicate LegibleAt(calm: Env, schedule: seq<Turn>, samples: seq<RefSample>, k: nat) {
    Legible(EnvAt(calm, schedule, k), RestAt(calm, schedule, samples, k))
  }

  // ---- The calls of one record ----

  /** Between two calls: what is left of the record, the state of the cache, and how many calls have failed. */
  datatype Position = Position(
    rest: seq<RefSample>, resets: map<nat, ResetState>, intervals: map<nat, Interval>, failures: nat)

  /** A call of next takes the loop from p to q; `draft` is the point it makes before the interval filter. */
  ghost predicate CallMoves(env: Env, p: Position, draft: Draft, q: Position) {
    && p.rest != [] && Legible(env, p.rest)
    && Drafts(env, p.rest, p.resets, draft, q.resets)
    && q.rest == p.rest[NextExtent(env, p.rest).0..]
    && q.intervals == Recorded(p.intervals, Emitted(env, p.rest, draft, p.intervals))
    && q.failures == p.failures + (if NextExtent(env, p.rest).1 then 1 else 0)
  }

  /** The k-th call leads from position k to the next. */
  ghost predicate CallAt(calm: Env, schedule: seq<Turn>, path: seq<Position>, drafts: seq<Draft>, k: nat)
    requires k < |drafts| && |path| == |drafts| + 1
  {
    CallMoves(EnvAt(calm, schedule, k), path[k], drafts[k], path[k + 1])
  }

  /** The calls lead from the first position to the last. */
  ghost predicate IsTrace(calm: Env, schedule: seq<Turn>, path: seq<Position>, drafts: seq<Draft>) {
    && |path| == |drafts| + 1
    && forall k: nat :: k < |drafts| ==> CallAt(calm, schedule, path, drafts, k)
  }

  /** What is left along a trace. */
  lemma {:induction false} TraceRests(calm: Env, schedule: seq<Turn>, path: seq<Position>, drafts: seq<Draft>, k: nat)
    requires IsTrace(calm, schedule, path, drafts) && k <= |drafts|
    ensures path[k].rest == RestAt(calm, schedule, path[0].rest, k)
  {
    if k > 0 {
      TraceRests(calm, schedule, path, drafts, k - 1);
      assert CallAt(calm, schedule, path, drafts, k - 1);
    }
  }

  /** A trace that meets a sample which stays stuck never gets past it; and only such a trace has more calls than
      there are samples and turns. */
  lemma {:induction false} LongTraceIffStuck(calm: Env, schedule: seq<Turn>, path: seq<Position>, drafts: seq<Draft>)
    requires IsTrace(calm, schedule, path, drafts)
    ensures forall j: nat, k: nat :: StuckFrom(calm, schedule, path[0].rest, j) && j <= k <= |drafts| ==>
      path[k].rest == path[j].rest != []
    ensures |drafts| > |schedule| + |path[0].rest| ==> exists j: nat :: StuckFrom(calm, schedule, path[0].rest, j)
  {
    var samples := path[0].rest;
    EndsIffNeverStuck(calm, schedule, samples);
    forall j: nat, k: nat | StuckFrom(calm, schedule, samples, j) && j <= k <= |drafts|
      ensures path[k].rest == path[j].rest != []
    {
      TraceRests(calm, schedule, path, drafts, j);
      TraceRests(calm, schedule, path, drafts, k);
    }
    var n := |schedule| + |samples|;
    if |drafts| > n {
      TraceRests(calm, schedule, path, drafts, n);
      assert CallAt(calm, schedule, path, drafts, n);
    }
  }

  function ToSeq<T>(o: Option<T>): seq<T> {
    if o.Some? then [o.value] else []
  }

  /** The points the first n calls let through, in order. */
  ghost function Outputs(calm: Env, schedule: seq<Turn>, path: seq<Position>, drafts: seq<Draft>, n: nat): seq<Output>
    requires IsTrace(calm, schedule, path, drafts) && n <= |drafts|
  {
    if n == 0 then []
    else
      var p := path[n - 1];
      assert CallAt(calm, schedule, path, drafts, n - 1);
      Outputs(calm, schedule, path, drafts, n - 1)
      + ToSeq(Emitted(EnvAt(calm, schedule, n - 1), p.rest, drafts[n - 1], p.intervals))
  }

  /** The samples the first n calls give to trackers, in order. */
  ghost function Feeds(calm: Env, schedule: seq<Turn>, path: seq<Position>, n: nat): seq<RefSample>
    requires n <= |path|
  {
    if n == 0 then []
    else Feeds(calm, schedule, path, n - 1) + ToSeq(Tracked(EnvAt(calm, schedule, n - 1), path[n - 1].rest))
  }

  lemma {:induction false} OutputsSnoc(calm: Env, schedule: seq<Turn>, path: seq<Position>, drafts: seq<Draft>,
                                       draft: Draft, q: Position, n: nat)
    requires IsTrace(calm, schedule, path, drafts) && IsTrace(calm, schedule, path + [q], drafts + [draft])
    requires n <= |drafts|
    ensures Outputs(calm, schedule, path + [q], drafts + [draft], n) == Outputs(calm, schedule, path, drafts, n)
  {
    if n > 0 {
      OutputsSnoc(calm, schedule, path, drafts, draft, q, n - 1);
      assert (path + [q])[n - 1] == path[n - 1] && (drafts + [draft])[n - 1] == drafts[n - 1];
    }
  }

  lemma {:induction false} FeedsSnoc(calm: Env, schedule: seq<Turn>, path: seq<Position>, q: Position, n: nat)
    requires n <= |path|
    ensures Feeds(calm, schedule, path + [q], n) == Feeds(calm, schedule, path, n)
  {
    if n > 0 {
      FeedsSnoc(calm, schedule, path, q, n - 1);
      assert (path + [q])[n - 1] == path[n - 1];
    }
  }

  /** One more call at the end of a trace. */
  lemma {:induction false} OneMoreCall(calm: Env, schedule: seq<Turn>, path: seq<Position>, drafts: seq<Draft>,
                                       draft: Draft, q: Position)
    requires IsTrace(calm, schedule, path, drafts)
    requires CallMoves(EnvAt(calm, schedule, |drafts|), path[|drafts|], draft, q)
    ensures IsTrace(calm, schedule, path + [q], drafts + [draft])
    ensures var env, p, n := EnvAt(calm, schedule, |drafts|), path[|drafts|], |drafts|;
      && Outputs(calm, schedule, path + [q], drafts + [draft], n + 1)
           == Outputs(calm, schedule, path, drafts, n) + ToSeq(Emitted(env, p.rest, draft, p.intervals))
      && Feeds(calm, schedule, path + [q], n + 1) == Feeds(calm, schedule, path, n) + ToSeq(Tracked(env, p.rest))
  {
    var path2, drafts2 := path + [q], drafts + [draft];
    forall k: nat | k < |drafts2| ensures CallAt(calm, schedule, path2, drafts2, k) {
      if k < |drafts| {
        assert CallAt(calm, schedule, path, drafts, k);
      }
    }
    OutputsSnoc(calm, schedule, path, drafts, draft, q, |drafts|);
    FeedsSnoc(calm, schedule, path, q, |drafts|);
  }

  /** The calls of one record so far, with what the loop has appended, fed to trackers and slept. */
  datatype Trace = Trace(
    path: seq<Position>, drafts: seq<Draft>, appended: seq<Output>, fed: seq<RefSample>, pauses: seq<nat>)

  ghost predicate Done(calm: Env, schedule: seq<Turn>, trace: Trace) {
    && IsTrace(calm, schedule, trace.path, trace.drafts) && |trace.pauses| == |trace.drafts|
    && trace.appended == Outputs(calm, schedule, trace.path, trace.drafts, |trace.drafts|)
    && trace.fed == Feeds(calm, schedule, trace.path, |trace.drafts|)
    && (forall k :: 0 <= k < |trace.pauses| ==> trace.pauses[k] == Backoff(trace.path[k].failures))
  }

  /** Starts at p, has k calls and is now at q. */
  ghost predicate Spans(trace: Trace, p: Position, k: nat, q: Position) {
    |trace.path| == k + 1 && |trace.drafts| == k && trace.path[0] == p && trace.path[k] == q
  }

  lemma {:induction false} DoneNext(calm: Env, schedule: seq<Turn>, trace: Trace, p: Position, k: nat, now: Position,
                                    draft: Draft, q: Position)
    requires Done(calm, schedule, trace) && Spans(trace, p, k, now)
    requires CallMoves(EnvAt(calm, schedule, k), now, draft, q)
    ensures var env := EnvAt(calm, schedule, k);
      var next := Trace(trace.path + [q], trace.drafts + [draft],
                      trace.appended + ToSeq(Emitted(env, now.rest, draft, now.intervals)),
                      trace.fed + ToSeq(Tracked(env, now.rest)), trace.pauses + [Backoff(now.failures)]);
      Done(calm, schedule, next) && Spans(next, p, k + 1, q)
  {
    OneMoreCall(calm, schedule, trace.path, trace.drafts, draft, q);
  }

  // ---- The points of one series ----

  /** The points of one series so far never overlap, and the interval kept for the series is that of the last one. */
  ghost predicate Orderly(appended: seq<Output>, intervals: map<nat, Interval>) {
    && (forall i, j :: 0 <= i < j < |appended| && appended[i].hash == appended[j].hash ==>
          Follows(Span(appended[i]), Span(appended[j])))
    && (forall i :: 0 <= i < |appended| ==> appended[i].hash in intervals)
    && (forall i :: 0 <= i < |appended| ==>
          Span(appended[i]) == intervals[appended[i].hash] || Follows(Span(appended[i]), intervals[appended[i].hash]))
  }

  lemma OrderlyNext(appended: seq<Output>, intervals: map<nat, Interval>, o: Output)
    requires Orderly(appended, intervals)
    requires o.hash in intervals ==> intervals[o.hash].Accepts(o.start, o.end)
    ensures Orderly(appended + [o], intervals[o.hash := Span(o)])
  {
    forall i | 0 <= i < |appended| && appended[i].hash == o.hash ensures Follows(Span(appended[i]), Span(o)) {
      if Span(appended[i]) != intervals[o.hash] {
        FollowsTransitive(Span(appended[i]), intervals[o.hash], Span(o));
      }
    }
  }

  lemma CallRecords(calm: Env, schedule: seq<Turn>, path: seq<Position>, drafts: seq<Draft>, k: nat)
    requires IsTrace(calm, schedule, path, drafts) && k < |drafts|
    ensures var p := path[k];
      && p.rest != []
      && path[k + 1].intervals
           == Recorded(p.intervals, Emitted(EnvAt(calm, schedule, k), p.rest, drafts[k], p.intervals))
  {
    assert CallAt(calm, schedule, path, drafts, k);
  }

  lemma {:induction false} TraceIsOrderly(calm: Env, schedule: seq<Turn>, path: seq<Position>, drafts: seq<Draft>,
                                          n: nat)
    requires IsTrace(calm, schedule, path, drafts) && n <= |drafts|
    ensures Orderly(Outputs(calm, schedule, path, drafts, n), path[n].intervals)
  {
    if n > 0 {
      TraceIsOrderly(calm, schedule, path, drafts, n - 1);
      var env, p := EnvAt(calm, schedule, n - 1), path[n - 1];
      CallRecords(calm, schedule, path, drafts, n - 1);
      var out := Emitted(env, p.rest, drafts[n - 1], p.intervals);
      if out.Some? {
        OrderlyNext(Outputs(calm, schedule, path, drafts, n - 1), p.intervals, out.value);
      }
    }
  }

  lemma {:induction false} DoneIsOrderly(calm: Env, schedule: seq<Turn>, trace: Trace, p: Position, k: nat, q: Position)
    requires Done(calm, schedule, trace) && Spans(trace, p, k, q)
    ensures Orderly(trace.appended, q.intervals)
  {
    TraceIsOrderly(calm, schedule, trace.path, trace.drafts, k);
  }

  lemma NothingDone(calm: Env, schedule: seq<Turn>, p: Position)
    ensures Done(calm, schedule, Trace([p], [], [], [], [])) && Spans(Trace([p], [], [], [], []), p, 0, p)
  {
  }

  // ---- The code ----

  ghost function Here(cache: SeriesCache, rest: seq<RefSample>, failures: nat): Position
    reads cache, cache.entries.Values
  {
    Position(rest, cache.Resets(), cache.intervals, failures)
  }

  /** One pass through the loop: the refreshes just before the call, the call, and the Append of what it returns. */
  method CallNext(cache: SeriesCache, calm: Env, schedule: seq<Turn>, k: nat, samples: seq<RefSample>,
                  backoff: nat, ghost now: Position)
    returns (out: seq<Output>, fed: seq<RefSample>, rest: seq<RefSample>, nextBackoff: nat,
             ghost draft: Draft, ghost q: Position)
    requires cache.Valid() && cache.Infos() == InfosAt(calm.infos, schedule, k)
    requires samples != [] && Legible(EnvAt(calm, schedule, k), samples)
    requires now == Here(cache, samples, now.failures) && backoff == Backoff(now.failures)
    modifies cache`intervals, cache.entries.Values
    ensures cache.Valid() && cache.Infos() == InfosAt(calm.infos, schedule, k + 1)
    ensures q == Here(cache, rest, q.failures) && nextBackoff == Backoff(q.failures)
    ensures CallMoves(EnvAt(calm, schedule, k), now, draft, q)
    ensures out == ToSeq(Emitted(EnvAt(calm, schedule, k), now.rest, draft, now.intervals))
    ensures fed == ToSeq(Tracked(EnvAt(calm, schedule, k), now.rest))
  {
    if k < |schedule| {
      cache.Refresh(schedule[k].learned);
    }
    var env := EnvAt(calm, schedule, k);
    var o, next, err, tracked, d := Next(cache, env, samples);
    draft, rest := d, next;
    nextBackoff := if err then Exponential(backoff) else backoff;
    NextBackoff(backoff, now.failures, err);
    fed := ToSeq(tracked);
    out := [];
    FailureDraftsNothing(env, samples, old(cache.Resets()), d, cache.Resets());
    if !err && o.Some? {
      out := [o.value];
    }
    q := Here(cache, rest, now.failures + if err then 1 else 0);
  }

  lemma FailureDraftsNothing(env: Env, samples: seq<RefSample>, resets: map<nat, ResetState>, draft: Draft,
                             after: map<nat, ResetState>)
    requires samples != [] && Legible(env, samples) && Drafts(env, samples, resets, draft, after)
    ensures NextExtent(env, samples).1 ==> draft == Nothing
  {
    if HistogramHead(env, samples[0]) {
      DraftOfHistogram(env, samples, resets, draft, after);
    }
  }

  /** What the loop knows between two calls: the trace spans them and ends at `now`, the state of the cache. */
  ghost predicate Between(calm: Env, schedule: seq<Turn>, trace: Trace, first: Position, k: nat, now: Position,
                          out: (seq<Output>, seq<RefSample>, seq<nat>))
  {
    && Done(calm, schedule, trace) && Spans(trace, first, k, now)
    && out == (trace.appended, trace.fed, trace.pauses)
  }

  lemma {:induction false} BetweenNext(calm: Env, schedule: seq<Turn>, trace: Trace, first: Position, k: nat,
                                       now: Position, out: (seq<Output>, seq<RefSample>, seq<nat>), draft: Draft,
                                       q: Position)
    returns (next: Trace)
    requires Between(calm, schedule, trace, first, k, now, out)
    requires CallMoves(EnvAt(calm, schedule, k), now, draft, q)
    ensures var env := EnvAt(calm, schedule, k);
      Between(calm, schedule, next, first, k + 1, q,
              (out.0 + ToSeq(Emitted(env, now.rest, draft, now.intervals)), out.1 + ToSeq(Tracked(env, now.rest)),
               out.2 + [Backoff(now.failures)]))
  {
    DoneNext(calm, schedule, trace, first, k, now, draft, q);
    var env := EnvAt(calm, schedule, k);
    next := Trace(trace.path + [q], trace.drafts + [draft],
                  out.0 + ToSeq(Emitted(env, now.rest, draft, now.intervals)), out.1 + ToSeq(Tracked(env, now.rest)),
                  out.2 + [Backoff(now.failures)]);
  }

  /** One pass through the loop: a pause if a call has failed, the call of next, and the Append of what it returns.
      `before` and the first result are the points appended, the samples fed to trackers and the pauses so far. */
  method Pass(cache: SeriesCache, calm: Env, schedule: seq<Turn>, k: nat, samples: seq<RefSample>, backoff: nat,
              before: (seq<Output>, seq<RefSample>, seq<nat>),
              ghost trace0: Trace, ghost first: Position, ghost now0: Position)
    returns (out: (seq<Output>, seq<RefSample>, seq<nat>), rest: seq<RefSample>, nextBackoff: nat,
             ghost trace: Trace, ghost now: Position)
    requires cache.Valid() && cache.Infos() == InfosAt(calm.infos, schedule, k)
    requires samples != [] && Legible(EnvAt(calm, schedule, k), samples)
    requires Between(calm, schedule, trace0, first, k, now0, before)
    requires now0 == Here(cache, samples, now0.failures) && backoff == Backoff(now0.failures)
    modifies cache`intervals, cache.entries.Values
    ensures cache.Valid() && cache.Infos() == InfosAt(calm.infos, schedule, k + 1)
    ensures Between(calm, schedule, trace, first, k + 1, now, out)
    ensures now == Here(cache, rest, now.failures) && nextBackoff == Backoff(now.failures)
  {
    var o, tracked, next, pause, draft, q := CallNext(cache, calm, schedule, k, samples, backoff, now0);
    trace := BetweenNext(calm, schedule, trace0, first, k, now0, before, draft, q);
    rest, nextBackoff, now := next, pause, q;
    out := (before.0 + o, before.1 + tracked, before.2 + [backoff]);  // zero: no sleep
  }

  /** A position with something left: there are calls to go, and the next one can be made. */
  lemma {:induction false} NotYetEnded(calm: Env, schedule: seq<Turn>, trace: Trace, first: Position, k: nat,
                                       now: Position, out: (seq<Output>, seq<RefSample>, seq<nat>))
    requires Between(calm, schedule, trace, first, k, now, out) && now.rest != []
    requires Ends(calm, schedule, first.rest) && AllLegible(calm, schedule, first.rest)
    ensures k < |schedule| + |first.rest| && Legible(EnvAt(calm, schedule, k), now.rest)
  {
    var n := |schedule| + |first.rest|;
    EndsInTime(calm, schedule, first.rest);
    TraceRests(calm, schedule, trace.path, trace.drafts, k);
    if k >= n {
      StaysEmpty(calm, schedule, first.rest, n, k);
    }
    assert LegibleAt(calm, schedule, first.rest, k);
  }

  method DrainLoop(cache: SeriesCache, calm: Env, samples: seq<RefSample>, schedule: seq<Turn>, ghost first: Position)
    returns (out: (seq<Output>, seq<RefSample>, seq<nat>), k: nat, ghost trace: Trace, ghost last: Position)
    requires Describes(calm, cache) && Ends(calm, schedule, samples) && AllLegible(calm, schedule, samples)
    requires first == Here(cache, samples, 0)
    modifies cache`intervals, cache.entries.Values
    ensures Between(calm, schedule, trace, first, k, last, out) && k <= |schedule| + |samples|
    ensures last == Here(cache, [], last.failures)
  {
    var rest, backoff := samples, 0;
    k, out := 0, ([], [], []);
    trace, last := Trace([first], [], [], [], []), first;
    NothingDone(calm, schedule, first);
    while |rest| > 0
      invariant cache.Valid() && cache.Infos() == InfosAt(calm.infos, schedule, k)
      invariant k <= |schedule| + |samples|
      invariant Between(calm, schedule, trace, first, k, last, out)
      invariant last == Here(cache, rest, last.failures) && backoff == Backoff(last.failures)
      decreases |schedule| + |samples| - k
    {
      NotYetEnded(calm, schedule, trace, first, k, last, out);
      out, rest, backoff, trace, last := Pass(cache, calm, schedule, k, rest, backoff, out, trace, first, last);
      k := k + 1;
    }
  }

  /** The loop of Run over one sample record on which it ends. What refreshes find out and which lookups fail is
      given call by call, and comes to an end. Every sample is consumed. The loop appends the points that its calls
      make and the interval filter lets through, in order; it gives trackers one sample for each call on a tracked
      series; and before each call it pauses according to the number of calls that have failed. */
  method Drain(cache: SeriesCache, calm: Env, samples: seq<RefSample>, schedule: seq<Turn>)
    returns (appended: seq<Output>, fed: seq<RefSample>, pauses: seq<nat>, ghost trace: Trace, ghost last: Position)
    requires Describes(calm, cache) && Ends(calm, schedule, samples) && AllLegible(calm, schedule, samples)
    modifies cache`intervals, cache.entries.Values
    ensures Done(calm, schedule, trace) && Spans(trace, old(Here(cache, samples, 0)), |pauses|, last)
    ensures last == Here(cache, [], last.failures)
    ensures trace.appended == appended && trace.fed == fed && trace.pauses == pauses
    ensures |pauses| <= |schedule| + |samples|
    ensures Orderly(appended, cache.intervals)
  {
    ghost var first := Here(cache, samples, 0);
    var out, k, t, l := DrainLoop(cache, calm, samples, schedule, first);
    DoneIsOrderly(calm, schedule, t, first, k, l);
    return out.0, out.1, out.2, t, l;
  }
}
