/** Skipping, saving progress and resuming (retrieval/manager.go:184-214, 266-310;
    cmd/stackdriver-prometheus-sidecar/main.go:536-555). */
module Restart {
  import opened Common

  const PROGRESS_BUFFER_MARGIN := 512 * 1024

  /** A WAL record with the tailer's offset when it is read. `Ignored` are tombstones and records that do not decode. */
  datatype Record = Series(offset: int, id: nat) | Samples(offset: int, id: nat) | Ignored(offset: int)

  // ---- Runs, saves, crashes and restarts ----

  /** `next` is the next record to read. */
  datatype Reader = Down | Up(start: int, next: nat)

  /** `delivered` and `inflight` hold indices of sample records: attempted, or read by the current run and still on
      their way. `saved` is what the progress file holds, zero if there is none. */
  datatype State = State(log: seq<Record>, saved: int, reader: Reader, delivered: set<nat>, inflight: set<nat>)

  datatype Step =
    | Grow(r: Record)
    | Boot(unreadable: bool)
    | Process(save: bool)
    | Deliver(i: nat)
    | Crash

  function Init(): State {
    State([], 0, Down, {}, {})
  }

  predicate Enabled(s: State, step: Step) {
    match step
    case Grow(r) => r.offset >= 0
    case Boot(_) => s.reader.Down?
    case Process(save) => s.reader.Up? && s.reader.next < |s.log|
      && (save ==> s.log[s.reader.next].offset > s.reader.start)
    case Deliver(i) => i in s.inflight
    case Crash => s.reader.Up?
  }

  function Apply(s: State, step: Step): State
    requires Enabled(s, step)
  {
    match step
    case Grow(r) => s.(log := s.log + [r])
    case Boot(unreadable) =>
      var start := if unreadable then 0 else s.saved;
      s.(saved := start - PROGRESS_BUFFER_MARGIN, reader := Up(start, 0))
    case Process(save) =>
      var r := s.log[s.reader.next];
      s.(saved := if save then r.offset - PROGRESS_BUFFER_MARGIN else s.saved,
         inflight := if r.Samples? && r.offset >= s.reader.start then s.inflight + {s.reader.next} else s.inflight,
         reader := Up(s.reader.start, s.reader.next + 1))
    case Deliver(i) => s.(inflight := s.inflight - {i}, delivered := s.delivered + {i})
    case Crash => s.(reader := Down, inflight := {})
  }

  function RunFrom(s: State, steps: seq<Step>): Option<State>
    decreases steps
  {
    if steps == [] then Some(s)
    else if Enabled(s, steps[0]) then RunFrom(Apply(s, steps[0]), steps[1..])
    else None
  }

  function Run(steps: seq<Step>): Option<State> {
    RunFrom(Init(), steps)
  }

  // ---- The condition for safety ----

  /** All sample records of the log before the offset have been attempted: those still on their way and those still
      unread lie at or above it. */
  ghost predicate CoveredBelow(s: State, offset: int) {
    forall i :: 0 <= i < |s.log| && s.log[i].Samples? && s.log[i].offset < offset ==> i in s.delivered
  }

  /** A save finds every undelivered sample record, on its way or unread, at or above the offset it saves; and a sample
      record is logged at or above the saved offset and the one the current run started from. */
  ghost predicate InTime(s: State, step: Step)
    requires Enabled(s, step)
  {
    match step
    case Process(true) => CoveredBelow(s, s.log[s.reader.next].offset - PROGRESS_BUFFER_MARGIN)
    case Grow(Samples(offset, _)) => offset >= s.saved && (s.reader.Up? ==> offset >= s.reader.start)
    case _ => true
  }

  /** Step k of a run is in time. */
  ghost predicate StepInTime(steps: seq<Step>, k: nat)
    requires k < |steps|
  {
    var r := Run(steps[..k]);
    r.Some? && Enabled(r.value, steps[k]) ==> InTime(r.value, steps[k])
  }

  ghost predicate RunInTime(steps: seq<Step>) {
    forall k :: 0 <= k < |steps| ==> StepInTime(steps, k)
  }

  /** What every run keeps. */
  ghost predicate Shape(s: State) {
    && (forall i :: 0 <= i < |s.log| ==> s.log[i].offset >= 0)
    && (forall i <- s.delivered :: i < |s.log|)
    && (s.reader.Down? ==> s.inflight == {})
    && (s.reader.Up? ==>
          && s.reader.next <= |s.log|
          && (forall i <- s.inflight :: i < s.reader.next && s.log[i].Samples? && s.log[i].offset >= s.reader.start)
          && (forall i :: 0 <= i < s.reader.next && s.log[i].Samples? && s.log[i].offset >= s.reader.start ==>
                i in s.delivered || i in s.inflight))
  }

  /** No undelivered sample record lies below the offset the next run will start from, nor below that of this run. */
  ghost predicate Good(s: State) {
    CoveredBelow(s, s.saved) && (s.reader.Up? ==> CoveredBelow(s, s.reader.start))
  }

  ghost predicate Inv(s: State) {
    Shape(s) && Good(s)
  }

  lemma {:induction false} StepKeepsShape(s: State, step: Step)
    requires Shape(s) && Enabled(s, step)
    ensures Shape(Apply(s, step))
  {
  }

  lemma {:induction false} GrowIsGoodIff(s: State, r: Record)
    requires Inv(s) && Enabled(s, Grow(r))
    ensures Good(Apply(s, Grow(r))) <==> InTime(s, Grow(r))
  {
    var t := Apply(s, Grow(r));
    assert t.log[|s.log|] == r && |s.log| !in t.delivered;
    assert forall i :: 0 <= i < |s.log| ==> t.log[i] == s.log[i];
  }

  /** From a good state exactly the steps that are in time lead to a good one. */
  lemma {:induction false} StepIsGoodIff(s: State, step: Step)
    requires Inv(s) && Enabled(s, step)
    ensures Shape(Apply(s, step)) && (Good(Apply(s, step)) <==> InTime(s, step))
  {
    StepKeepsShape(s, step);
    if step.Grow? {
      GrowIsGoodIff(s, step.r);
    }
  }

  lemma {:induction false} RunConcat(s: State, a: seq<Step>, b: seq<Step>)
    ensures RunFrom(s, a + b) == if RunFrom(s, a).Some? then RunFrom(RunFrom(s, a).value, b) else None
    decreases a
  {
    if a == [] {
      assert a + b == b;
    } else {
      assert (a + b)[0] == a[0] && (a + b)[1..] == a[1..] + b;
      if Enabled(s, a[0]) {
        RunConcat(Apply(s, a[0]), a[1..], b);
      }
    }
  }

  lemma OneStep(s: State, step: Step)
    ensures RunFrom(s, [step]) == if Enabled(s, step) then Some(Apply(s, step)) else None
  {
    assert [step][1..] == [];
  }

  lemma PrefixInTime(steps: seq<Step>, k: nat)
    requires RunInTime(steps) && k <= |steps|
    ensures RunInTime(steps[..k])
  {
    forall j | 0 <= j < k ensures StepInTime(steps[..k], j) {
      assert steps[..k][..j] == steps[..j] && StepInTime(steps, j);
    }
  }

  /** The last step of a run. */
  lemma LastStep(steps: seq<Step>) returns (s: State)
    requires steps != [] && Run(steps).Some?
    ensures var before, step := steps[..|steps| - 1], steps[|steps| - 1];
      Run(before) == Some(s) && Enabled(s, step) && Run(steps) == Some(Apply(s, step))
  {
    var before, step := steps[..|steps| - 1], steps[|steps| - 1];
    assert steps == before + [step];
    RunConcat(Init(), before, [step]);
    s := Run(before).value;
    OneStep(s, step);
  }

  lemma {:induction false} RunKeepsInv(steps: seq<Step>)
    requires Run(steps).Some? && RunInTime(steps)
    ensures Inv(Run(steps).value)
  {
    if steps != [] {
      var s := LastStep(steps);
      PrefixInTime(steps, |steps| - 1);
      RunKeepsInv(steps[..|steps| - 1]);
      assert StepInTime(steps, |steps| - 1);
      StepIsGoodIff(s, steps[|steps| - 1]);
    }
  }

  /** In every reachable state each sample record has been attempted, is on its way, or will be read and not skipped: by
      the current run if there is one, by the next run otherwise. */
  lemma {:induction false} EverySampleIsCovered(steps: seq<Step>, i: nat)
    requires Run(steps).Some? && RunInTime(steps)
    requires i < |Run(steps).value.log| && Run(steps).value.log[i].Samples?
    ensures var s := Run(steps).value;
      || i in s.delivered
      || (if s.reader.Up? then i in s.inflight || (s.reader.next <= i && s.log[i].offset >= s.reader.start)
          else s.log[i].offset >= s.saved && s.log[i].offset >= 0)
  {
    RunKeepsInv(steps);
  }

  /** The reader has read the whole log and nothing is on its way any more. */
  predicate CaughtUp(s: State) {
    s.reader.Up? && s.reader.next == |s.log| && s.inflight == {}
  }

  ghost predicate AllDelivered(s: State) {
    forall i :: 0 <= i < |s.log| && s.log[i].Samples? ==> i in s.delivered
  }

  /** So a run that has caught up leaves no sample record undelivered, whatever crashes and restarts came before. */
  lemma {:induction false} CaughtUpMeansDelivered(steps: seq<Step>)
    requires Run(steps).Some? && RunInTime(steps) && CaughtUp(Run(steps).value)
    ensures AllDelivered(Run(steps).value)
  {
    RunKeepsInv(steps);
  }

  // ---- When samples are lost ----

  /** Reading on, delivering, crashing and booting: no save, and nothing more is logged. */
  predicate Idle(more: seq<Step>) {
    forall step <- more :: step != Process(true) && !step.Grow?
  }

  /** From the state after the first k steps the reader catches up, and a sample record has still not been attempted: it
      never will be. */
  ghost predicate LosesAfter(steps: seq<Step>, k: nat, more: seq<Step>)
    requires k <= |steps|
  {
    var r := Run(steps[..k] + more);
    Idle(more) && r.Some? && CaughtUp(r.value) && !AllDelivered(r.value)
  }

  ghost predicate Safe(steps: seq<Step>) {
    forall k, more :: 0 <= k <= |steps| ==> !LosesAfter(steps, k, more)
  }

  /** Exactly what safety takes, for every log and every run: saves and log records are in time if and only if from no
      state of the run the reader can catch up, through crashes and restarts, with a sample record left out. */
  lemma {:induction false} SafeIffInTime(steps: seq<Step>)
    requires Run(steps).Some?
    ensures Safe(steps) <==> RunInTime(steps)
  {
    if RunInTime(steps) {
      forall k: nat, more | k <= |steps| ensures !LosesAfter(steps, k, more) {
        InTimeLosesNothing(steps, k, more);
      }
    } else {
      var k := FirstLateStep(steps);
      var more := LosingRest(steps, k);
      assert LosesAfter(steps, k + 1, more);
    }
  }

  lemma {:induction false} InTimeLosesNothing(steps: seq<Step>, k: nat, more: seq<Step>)
    requires RunInTime(steps) && k <= |steps|
    ensures !LosesAfter(steps, k, more)
  {
    var all := steps[..k] + more;
    if Idle(more) && Run(all).Some? && CaughtUp(Run(all).value) {
      forall j | 0 <= j < |all| ensures StepInTime(all, j) {
        if j < k {
          assert all[..j] == steps[..j] && StepInTime(steps, j);
        } else {
          assert all[j] == more[j - k] && all[j] in more;
        }
      }
      CaughtUpMeansDelivered(all);
    }
  }

  lemma {:induction false} FirstLateStep(steps: seq<Step>) returns (k: nat)
    requires !RunInTime(steps)
    ensures k < |steps| && RunInTime(steps[..k]) && !StepInTime(steps, k)
  {
    var before := steps[..|steps| - 1];
    if RunInTime(before) {
      k := |before|;
      forall j | 0 <= j < |before| ensures StepInTime(steps, j) {
        assert before[..j] == steps[..j] && StepInTime(before, j);
      }
    } else {
      k := FirstLateStep(before);
      assert before[..k] == steps[..k];
    }
  }

  lemma {:induction false} LosingRest(steps: seq<Step>, k: nat) returns (more: seq<Step>)
    requires k < |steps| && RunInTime(steps[..k]) && !StepInTime(steps, k)
    ensures LosesAfter(steps, k + 1, more)
  {
    RunKeepsInv(steps[..k]);
    var s := Run(steps[..k]).value;
    StepIsGoodIff(s, steps[k]);
    OneStep(s, steps[k]);
    RunConcat(Init(), steps[..k], [steps[k]]);
    assert steps[..k + 1] == steps[..k] + [steps[k]];
    more := BadLoses(Apply(s, steps[k]));
    RunConcat(Init(), steps[..k + 1], more);
  }

  /** From a state that is not good a crash is enough, if it takes one at all: the next run starts beyond a sample
      record that has not been attempted. */
  lemma {:induction false} BadLoses(s: State) returns (more: seq<Step>)
    requires Shape(s) && !Good(s)
    ensures Idle(more) && RunFrom(s, more).Some?
    ensures CaughtUp(RunFrom(s, more).value) && !AllDelivered(RunFrom(s, more).value)
  {
    if s.reader.Up? && !CoveredBelow(s, s.reader.start) {
      var i: nat :| i < |s.log| && s.log[i].Samples? && s.log[i].offset < s.reader.start && i !in s.delivered;
      more := CatchUp(s, i);
    } else {
      var i: nat :| i < |s.log| && s.log[i].Samples? && s.log[i].offset < s.saved && i !in s.delivered;
      if s.reader.Up? {
        var down := Apply(s, Crash);
        var rest := CatchUp(Apply(down, Boot(false)), i);
        more := [Crash, Boot(false)] + rest;
        assert more[1..] == [Boot(false)] + rest && more[1..][1..] == rest;
      } else {
        var rest := CatchUp(Apply(s, Boot(false)), i);
        more := [Boot(false)] + rest;
        assert more[1..] == rest;
      }
    }
  }

  /** Reading on without a save and delivering what is on its way leaves a skipped sample record out. */
  lemma {:induction false} CatchUp(s: State, i: nat) returns (more: seq<Step>)
    requires s.reader.Up? && s.reader.next <= |s.log|
    requires i < |s.log| && s.log[i].Samples? && s.log[i].offset < s.reader.start
    requires i !in s.delivered && i !in s.inflight
    ensures Idle(more) && RunFrom(s, more).Some?
    ensures CaughtUp(RunFrom(s, more).value) && !AllDelivered(RunFrom(s, more).value)
    decreases |s.log| - s.reader.next, s.inflight
  {
    if s.reader.next < |s.log| {
      var rest := CatchUp(Apply(s, Process(false)), i);
      more := [Process(false)] + rest;
      assert more[1..] == rest;
    } else if s.inflight != {} {
      var j :| j in s.inflight;
      var rest := CatchUp(Apply(s, Deliver(j)), i);
      more := [Deliver(j)] + rest;
      assert more[1..] == rest;
    } else {
      more := [];
    }
  }

  // ---- Logs whose offsets never go back ----

  function LastOffset(log: seq<Record>): int {
    if log == [] then 0 else log[|log| - 1].offset
  }

  /** Records are logged at offsets that never go back. */
  ghost predicate GoesForward(steps: seq<Step>) {
    forall k :: 0 <= k < |steps| ==> StepForward(steps, k)
  }

  ghost predicate StepForward(steps: seq<Step>, k: nat)
    requires k < |steps|
  {
    var r := Run(steps[..k]);
    r.Some? && steps[k].Grow? ==> steps[k].r.offset >= LastOffset(r.value.log)
  }

  ghost predicate Forward(s: State) {
    && (forall i, j :: 0 <= i <= j < |s.log| ==> 0 <= s.log[i].offset <= s.log[j].offset)
    && s.saved <= LastOffset(s.log) && (s.reader.Up? ==> s.reader.start <= LastOffset(s.log))
  }

  lemma {:induction false} StepKeepsForward(s: State, step: Step)
    requires Forward(s) && Shape(s) && Enabled(s, step) && (step.Grow? ==> step.r.offset >= LastOffset(s.log))
    ensures Forward(Apply(s, step))
    ensures step.Grow? ==> InTime(s, step)
  {
    assert forall i :: 0 <= i < |s.log| ==> s.log[i].offset <= LastOffset(s.log);
  }

  lemma {:induction false} RunKeepsForward(steps: seq<Step>)
    requires Run(steps).Some? && GoesForward(steps)
    ensures Forward(Run(steps).value) && Shape(Run(steps).value)
  {
    if steps != [] {
      var before := steps[..|steps| - 1];
      var s := LastStep(steps);
      forall j | 0 <= j < |before| ensures StepForward(before, j) {
        assert before[..j] == steps[..j] && StepForward(steps, j);
      }
      RunKeepsForward(before);
      assert StepForward(steps, |before|);
      StepKeepsShape(s, steps[|before|]);
      StepKeepsForward(s, steps[|before|]);
    }
  }

  /** The margin is large enough for a save now: what is still on its way comes from within it. */
  ghost predicate MarginCovers(s: State)
    requires s.reader.Up? && s.reader.next < |s.log|
  {
    forall i <- s.inflight - s.delivered ::
      i < |s.log| && s.log[i].offset >= s.log[s.reader.next].offset - PROGRESS_BUFFER_MARGIN
  }

  /** The save at step k, if there is one, finds what is on its way within the margin. */
  ghost predicate SaveInTime(steps: seq<Step>, k: nat)
    requires k < |steps|
  {
    var r := Run(steps[..k]);
    steps[k] == Process(true) && r.Some? && Enabled(r.value, steps[k]) ==> MarginCovers(r.value)
  }

  ghost predicate SavesInTime(steps: seq<Step>) {
    forall k :: 0 <= k < |steps| ==> SaveInTime(steps, k)
  }

  /** With offsets that never go back, what is unread lies beyond any save, so only what is on its way matters. */
  lemma {:induction false} SaveIsSafe(s: State)
    requires Inv(s) && Forward(s) && Enabled(s, Process(true))
    ensures InTime(s, Process(true)) <==> MarginCovers(s)
  {
  }

  /** On a log whose offsets never go back, safety takes exactly that each save finds what is on its way within the
      margin. */
  lemma {:induction false} SafeIffSavesInTime(steps: seq<Step>)
    requires Run(steps).Some? && GoesForward(steps)
    ensures Safe(steps) <==> SavesInTime(steps)
  {
    SafeIffInTime(steps);
    ForwardInTimeIff(steps);
  }

  lemma {:induction false} ForwardInTimeIff(steps: seq<Step>)
    requires Run(steps).Some? && GoesForward(steps)
    ensures RunInTime(steps) <==> SavesInTime(steps)
  {
    if steps != [] {
      var before := steps[..|steps| - 1];
      var s := LastStep(steps);
      forall j | 0 <= j < |before|
        ensures StepForward(before, j)
        ensures StepInTime(before, j) <==> StepInTime(steps, j)
        ensures SaveInTime(before, j) <==> SaveInTime(steps, j)
      {
        assert before[..j] == steps[..j] && StepForward(steps, j);
      }
      ForwardInTimeIff(before);
      if RunInTime(before) {
        RunKeepsInv(before);
        RunKeepsForward(before);
        assert StepForward(steps, |before|);
        StepKeepsForward(s, steps[|before|]);
        if steps[|before|] == Process(true) {
          SaveIsSafe(s);
        }
        assert StepInTime(steps, |before|) <==> SaveInTime(steps, |before|);
      }
    }
  }

  /** A run that loses a sample: the first record is still on its way when the reader, 600000 bytes on, saves its
      progress and crashes. */
  lemma {:induction false} LateSaveLosesSample()
    ensures var steps := [Grow(Samples(0, 1)), Grow(Samples(600000, 2)), Boot(false), Process(false), Process(true)];
      Run(steps).Some? && !Safe(steps)
  {
    var steps := [Grow(Samples(0, 1)), Grow(Samples(600000, 2)), Boot(false), Process(false), Process(true)];
    var s := State([Samples(0, 1), Samples(600000, 2)], -PROGRESS_BUFFER_MARGIN, Up(0, 1), {}, {0});
    assert Run(steps[..4]) == Some(s) by {
      var one := State([Samples(0, 1)], 0, Down, {}, {});
      var up := s.(reader := Up(0, 0), inflight := {});
      OneStep(up, Process(false));
      assert Apply(up, Process(false)) == s;
      assert [Boot(false), Process(false)][1..] == [Process(false)];
      assert RunFrom(s.(saved := 0, reader := Down, inflight := {}), [Boot(false), Process(false)]) == Some(s);
      assert one.log + [Samples(600000, 2)] == s.log && Init().log + [Samples(0, 1)] == one.log;
      assert steps[..4][1..][1..] == [Boot(false), Process(false)];
      assert RunFrom(one, steps[..4][1..]) == Some(s);
    }
    assert s.log[0].Samples? && 0 !in s.delivered && !InTime(s, Process(true));
    LateStepLoses(steps, s);
  }

  /** A save that is not in time, as the last step of a run. */
  lemma {:induction false} LateStepLoses(steps: seq<Step>, s: State)
    requires steps != [] && Run(steps[..|steps| - 1]) == Some(s)
    requires Enabled(s, steps[|steps| - 1]) && !InTime(s, steps[|steps| - 1])
    ensures Run(steps).Some? && !Safe(steps)
  {
    var n := |steps| - 1;
    assert steps == steps[..n] + [steps[n]];
    RunConcat(Init(), steps[..n], [steps[n]]);
    OneStep(s, steps[n]);
    assert !StepInTime(steps, n);
    SafeIffInTime(steps);
  }

  /** Where offsets go back the margin is not enough: a long checkpoint ends at offset a, and a sample record of the
      first segment lies more than the margin before that. A save at the end of the checkpoint finds nothing on its
      way, and still the sample is lost if the reader crashes. */
  lemma {:induction false} LongCheckpointLosesSample(a: int, b: int)
    requires 0 <= b < a - PROGRESS_BUFFER_MARGIN
    ensures var steps := [Grow(Series(a, 1)), Grow(Samples(b, 2)), Boot(false), Process(true)];
      Run(steps).Some? && SavesInTime(steps) && !Safe(steps)
  {
    var steps := [Grow(Series(a, 1)), Grow(Samples(b, 2)), Boot(false), Process(true)];
    var s := State([Series(a, 1), Samples(b, 2)], -PROGRESS_BUFFER_MARGIN, Up(0, 0), {}, {});
    assert Run(steps[..3]) == Some(s) by {
      var one := State([Series(a, 1)], 0, Down, {}, {});
      OneStep(s.(saved := 0, reader := Down), Boot(false));
      assert one.log + [Samples(b, 2)] == s.log && Init().log + [Series(a, 1)] == one.log;
      assert steps[..3][1..][1..] == [Boot(false)];
      assert RunFrom(one, steps[..3][1..]) == Some(s);
    }
    assert s.log[1].Samples? && 1 !in s.delivered && !InTime(s, Process(true));
    LateStepLoses(steps, s);
    assert MarginCovers(s);
  }

  // ---- The code of one run ----

  /** Which records: series, any sample record, those from an offset on, those before it. */
  datatype Which = AllSeries | AllSamples | SamplesFrom(start: int) | SamplesBefore(start: int)

  predicate Chosen(which: Which, r: Record) {
    match which
    case AllSeries => r.Series?
    case AllSamples => r.Samples?
    case SamplesFrom(start) => r.Samples? && r.offset >= start
    case SamplesBefore(start) => r.Samples? && r.offset < start
  }

  /** The indices, in increasing order, of exactly the records chosen among the first n. */
  ghost predicate Picks(indices: seq<nat>, log: seq<Record>, n: nat, which: Which)
    requires n <= |log|
  {
    && Increases(indices)
    && (forall k <- indices :: k < n && Chosen(which, log[k]))
    && (forall k: nat :: k < n && Chosen(which, log[k]) ==> k in indices)
  }

  ghost predicate Increases(indices: seq<nat>) {
    forall i, j :: 0 <= i < j < |indices| ==> indices[i] < indices[j]
  }

  /** `ids` are those of the records at the indices. */
  ghost predicate IdsAt(ids: seq<nat>, indices: seq<nat>, log: seq<Record>) {
    |ids| == |indices| && forall i :: 0 <= i < |ids| ==> indices[i] < |log| && IdOf(log[indices[i]]) == ids[i]
  }

  function IdOf(r: Record): nat {
    if r.Series? || r.Samples? then r.id else 0
  }

  /** Among the first n records, the last save of a run is at the last one beyond the start offset at which a save is
      due and succeeds. */
  ghost predicate SavedLast(log: seq<Record>, n: nat, start: int, before: int, due: seq<bool>, saved: int)
    requires n <= |log| <= |due|
  {
    || (saved == before && forall k: nat :: k < n ==> !SavesAt(log, start, due, k))
    || exists k: nat :: k < n && SavesAt(log, start, due, k) && saved == log[k].offset - 524288
                        && forall j: nat :: k < j < n ==> !SavesAt(log, start, due, j)
  }

  predicate SavesAt(log: seq<Record>, start: int, due: seq<bool>, k: nat)
    requires k < |log| <= |due|
  {
    due[k] && log[k].offset > start
  }

  method SaveProgress(offset: int) returns (saved: int)
    ensures saved == offset - 524288
  {
    saved := offset - PROGRESS_BUFFER_MARGIN;
  }

  lemma IncreasesSnoc(indices: seq<nat>, k: nat)
    requires Increases(indices) && forall i <- indices :: i < k
    ensures Increases(indices + [k])
  {
    assert forall i :: 0 <= i < |indices| ==> indices[i] in indices;
  }

  lemma InSnoc(indices: seq<nat>, k: nat, j: nat)
    ensures j in indices + [k] <==> j in indices || j == k
  {
  }

  lemma PicksNext(indices: seq<nat>, next: seq<nat>, log: seq<Record>, k: nat, which: Which)
    requires k < |log| && Picks(indices, log, k, which)
    requires next == if Chosen(which, log[k]) then indices + [k] else indices
    ensures Picks(next, log, k + 1, which)
  {
    if Chosen(which, log[k]) {
      IncreasesSnoc(indices, k);
      forall j: nat ensures j in indices + [k] <==> j in indices || j == k {
        InSnoc(indices, k, j);
      }
    }
  }

  lemma SavedNext(log: seq<Record>, start: int, before: int, due: seq<bool>, saved: int, k: nat)
    requires k < |log| <= |due| && SavedLast(log, k, start, before, due, saved)
    ensures SavedLast(log, k + 1, start, before, due, SavedBy(log, start, due, saved, k))
  {
  }

  /** What is saved after record k. */
  function SavedBy(log: seq<Record>, start: int, due: seq<bool>, saved: int, k: nat): int
    requires k < |log| <= |due|
  {
    if SavesAt(log, start, due, k) then log[k].offset - 524288 else saved
  }

  // What the loop computes; that it is what it should be is proved from it below.

  function Indices(log: seq<Record>, n: nat, which: Which): seq<nat>
    requires n <= |log|
  {
    if n == 0 then []
    else Indices(log, n - 1, which) + (if Chosen(which, log[n - 1]) then [n - 1] else [])
  }

  function Ids(log: seq<Record>, n: nat, which: Which): seq<nat>
    requires n <= |log|
  {
    if n == 0 then []
    else Ids(log, n - 1, which) + (if Chosen(which, log[n - 1]) then [IdOf(log[n - 1])] else [])
  }

  function Saved(log: seq<Record>, n: nat, start: int, before: int, due: seq<bool>): int
    requires n <= |log| <= |due|
  {
    if n == 0 then before else SavedBy(log, start, due, Saved(log, n - 1, start, before, due), n - 1)
  }

  lemma IndicesNext(log: seq<Record>, k: nat, which: Which)
    requires k < |log|
    ensures var before := Indices(log, k, which);
      Indices(log, k + 1, which) == if Chosen(which, log[k]) then before + [k] else before
  {
    var before := Indices(log, k, which);
    assert before + [] == before;
  }

  lemma {:induction false} IndicesPick(log: seq<Record>, n: nat, which: Which)
    requires n <= |log|
    ensures Picks(Indices(log, n, which), log, n, which)
  {
    if n > 0 {
      IndicesPick(log, n - 1, which);
      IndicesNext(log, n - 1, which);
      PicksNext(Indices(log, n - 1, which), Indices(log, n, which), log, n - 1, which);
    }
  }

  lemma {:induction false} IdsMatch(log: seq<Record>, n: nat, which: Which)
    requires n <= |log|
    ensures IdsAt(Ids(log, n, which), Indices(log, n, which), log)
  {
    if n > 0 {
      IdsMatch(log, n - 1, which);
    }
  }

  lemma {:induction false} SavedIsLast(log: seq<Record>, n: nat, start: int, before: int, due: seq<bool>)
    requires n <= |log| <= |due|
    ensures SavedLast(log, n, start, before, due, Saved(log, n, start, before, due))
  {
    if n > 0 {
      SavedIsLast(log, n - 1, start, before, due);
      SavedNext(log, start, before, due, Saved(log, n - 1, start, before, due), n - 1);
    }
  }

  /** One step of the transition system for each record. */
  function ProcessSteps(log: seq<Record>, start: int, due: seq<bool>): seq<Step>
    requires |log| <= |due|
  {
    seq(|log|, k requires 0 <= k < |log| => Process(SavesAt(log, start, due, k)))
  }

  function SetOf(indices: seq<nat>): set<nat> {
    set k <- indices
  }

  lemma SetSnoc(indices: seq<nat>, k: nat)
    ensures SetOf(indices + [k]) == SetOf(indices) + {k}
  {
  }

  /** After k records the transition system is where the reader is. */
  ghost predicate ReadTo(log: seq<Record>, start: int, before: int, due: seq<bool>, k: nat, saved: int, taken: seq<nat>)
    requires k <= |log| <= |due|
  {
    RunFrom(State(log, before, Up(start, 0), {}, {}), ProcessSteps(log, start, due)[..k])
      == Some(State(log, saved, Up(start, k), {}, SetOf(taken)))
  }

  lemma ReadNothing(log: seq<Record>, start: int, before: int, due: seq<bool>)
    requires |log| <= |due|
    ensures ReadTo(log, start, before, due, 0, before, [])
  {
    assert ProcessSteps(log, start, due)[..0] == [];
    assert SetOf([]) == {};
  }

  lemma {:induction false} ReadNext(log: seq<Record>, start: int, before: int, due: seq<bool>, k: nat, saved: int,
                                    taken: seq<nat>)
    requires k < |log| <= |due| && ReadTo(log, start, before, due, k, saved, taken)
    ensures ReadTo(log, start, before, due, k + 1, SavedBy(log, start, due, saved, k),
                   if Chosen(SamplesFrom(start), log[k]) then taken + [k] else taken)
  {
    var steps, s := ProcessSteps(log, start, due), State(log, saved, Up(start, k), {}, SetOf(taken));
    RunConcat(State(log, before, Up(start, 0), {}, {}), steps[..k], [steps[k]]);
    assert steps[..k + 1] == steps[..k] + [steps[k]];
    OneStep(s, steps[k]);
    SetSnoc(taken, k);
  }

  lemma {:induction false} ReaderRuns(log: seq<Record>, start: int, before: int, due: seq<bool>, k: nat)
    requires k <= |log| <= |due|
    ensures ReadTo(log, start, before, due, k, Saved(log, k, start, before, due), Indices(log, k, SamplesFrom(start)))
  {
    if k == 0 {
      ReadNothing(log, start, before, due);
    } else {
      ReaderRuns(log, start, before, due, k - 1);
      var taken := Indices(log, k - 1, SamplesFrom(start));
      ReadNext(log, start, before, due, k - 1, Saved(log, k - 1, start, before, due), taken);
      assert taken + [] == taken;
    }
  }

  /** Run over a log: all series records are applied, and sample records exactly from the start offset on, each once
      and in order; the others are counted as skipped. It is a run of the transition system: what it processes is
      what is then on its way, and what it saves last is what is saved. */
  method RunReader(log: seq<Record>, startOffset: int, savedBefore: int, due: seq<bool>)
    returns (series: seq<nat>, processed: seq<nat>, skipped: nat, saved: int,
             ghost applied: seq<nat>, ghost taken: seq<nat>, ghost left: seq<nat>)
    requires |log| == |due|
    ensures Picks(applied, log, |log|, AllSeries) && IdsAt(series, applied, log)
    ensures Picks(taken, log, |log|, SamplesFrom(startOffset)) && IdsAt(processed, taken, log)
    ensures Picks(left, log, |log|, SamplesBefore(startOffset)) && skipped == |left|
    ensures SavedLast(log, |log|, startOffset, savedBefore, due, saved)
    ensures RunFrom(State(log, savedBefore, Up(startOffset, 0), {}, {}), ProcessSteps(log, startOffset, due))
      == Some(State(log, saved, Up(startOffset, |log|), {}, SetOf(taken)))
  {
    series, processed, skipped, saved := [], [], 0, savedBefore;
    var k := 0;
    while k < |log|
      invariant 0 <= k <= |log|
      invariant series == Ids(log, k, AllSeries) && processed == Ids(log, k, SamplesFrom(startOffset))
      invariant skipped == |Indices(log, k, SamplesBefore(startOffset))|
      invariant saved == Saved(log, k, startOffset, savedBefore, due)
    {
      var record := log[k];
      var offset := record.offset;
      k := k + 1;
      if offset > startOffset && due[k - 1] {
        saved := SaveProgress(offset);
      }
      match record {
        case Series(_, id) => series := series + [id];
        case Samples(_, id) =>
          if offset < startOffset {
            skipped := skipped + 1;
            continue;
          }
          processed := processed + [id];
        case Ignored(_) =>
      }
    }
    applied, taken, left := ReaderFacts(log, startOffset, savedBefore, due);
  }

  lemma {:induction false} ReaderFacts(log: seq<Record>, start: int, before: int, due: seq<bool>)
    returns (applied: seq<nat>, taken: seq<nat>, left: seq<nat>)
    requires |log| == |due|
    ensures Picks(applied, log, |log|, AllSeries) && IdsAt(Ids(log, |log|, AllSeries), applied, log)
    ensures Picks(taken, log, |log|, SamplesFrom(start)) && IdsAt(Ids(log, |log|, SamplesFrom(start)), taken, log)
    ensures left == Indices(log, |log|, SamplesBefore(start)) && Picks(left, log, |log|, SamplesBefore(start))
    ensures SavedLast(log, |log|, start, before, due, Saved(log, |log|, start, before, due))
    ensures RunFrom(State(log, before, Up(start, 0), {}, {}), ProcessSteps(log, start, due))
      == Some(State(log, Saved(log, |log|, start, before, due), Up(start, |log|), {}, SetOf(taken)))
  {
    applied, taken := Indices(log, |log|, AllSeries), Indices(log, |log|, SamplesFrom(start));
    left := Indices(log, |log|, SamplesBefore(start));
    IndicesPick(log, |log|, AllSeries);
    IndicesPick(log, |log|, SamplesFrom(start));
    IndicesPick(log, |log|, SamplesBefore(start));
    IdsMatch(log, |log|, AllSeries);
    IdsMatch(log, |log|, SamplesFrom(start));
    SavedIsLast(log, |log|, start, before, due);
    ReaderRuns(log, start, before, due, |log|);
    assert ProcessSteps(log, start, due)[..|log|] == ProcessSteps(log, start, due);
  }

  lemma {:induction false} SameSize(indices: seq<nat>)
    requires Increases(indices)
    ensures |SetOf(indices)| == |indices|
  {
    if indices != [] {
      var init, last := indices[..|indices| - 1], indices[|indices| - 1];
      SameSize(init);
      assert indices == init + [last];
      SetSnoc(init, last);
      assert last !in SetOf(init);
    }
  }

  /** Each sample record is processed or skipped, and none is both. */
  lemma {:induction false} ProcessedOrSkipped(log: seq<Record>, start: int, taken: seq<nat>, left: seq<nat>,
                                              all: seq<nat>)
    requires Picks(taken, log, |log|, SamplesFrom(start)) && Picks(left, log, |log|, SamplesBefore(start))
    requires Picks(all, log, |log|, AllSamples)
    ensures |taken| + |left| == |all|
  {
    SameSize(taken);
    SameSize(left);
    SameSize(all);
    var t, l, a := SetOf(taken), SetOf(left), SetOf(all);
    assert forall k :: k in t ==> Chosen(SamplesFrom(start), log[k]) && Chosen(AllSamples, log[k]);
    assert forall k :: k in l ==> Chosen(SamplesBefore(start), log[k]) && Chosen(AllSamples, log[k]);
    assert forall k :: k in a ==> Chosen(SamplesFrom(start), log[k]) || Chosen(SamplesBefore(start), log[k]);
    assert t + l == a && t !! l;
  }
}
