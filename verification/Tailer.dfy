/** Tailing the write-ahead log across segments (tail/tail.go). */
module Tailer {
  import opened Common

  type Bytes = seq<int>

  const SEGMENT_SIZE: nat := 128 * 1024 * 1024

  // ---- The tailer's own state ----

  /** What one turn of the loop in Read meets: the current source yields `n` bytes, possibly with an error other than
      EOF, or it is at its end and, unless the context is done, the next segment is looked for. */
  datatype Turn =
    | Got(n: nat, err: bool)
    | AtEnd(next: Open)
    | AtEndCancelled

  /** The outcome of opening the next segment; waiting for it may be cut short by the context. */
  datatype Open = Opened | Missing | MissingCancelled | OpenError

  datatype Outcome = Read(n: nat) | Error(n: nat) | Eof

  /** `nextSegment` and `offset` after a number of turns. */
  datatype Position = Position(nextSegment: nat, offset: nat)

  function Offset(p: Position): nat {
    if p.nextSegment == 0 then 0 else (p.nextSegment - 1) * SEGMENT_SIZE + p.offset
  }

  predicate Ends(t: Turn) {
    t.Got? || t.AtEndCancelled? || t.next.MissingCancelled? || t.next.OpenError?
  }

  /** The number of segments opened in the first turns. */
  function Openings(turns: seq<Turn>): nat {
    if turns == [] then 0
    else Openings(turns[..|turns| - 1]) + (if turns[|turns| - 1] == AtEnd(Opened) then 1 else 0)
  }

  /** The turns that wait for the next segment to appear. */
  function Waitings(turns: seq<Turn>): nat {
    if turns == [] then 0
    else
      Waitings(turns[..|turns| - 1])
      + (if turns[|turns| - 1] in {AtEnd(Missing), AtEnd(MissingCancelled)} then 1 else 0)
  }

  /** Waits in milliseconds: ten first, then twice the last one, never more than three seconds. */
  predicate BacksOff(waits: seq<nat>) {
    && (waits != [] ==> waits[0] == 10)
    && forall k :: 0 < k < |waits| ==> waits[k] == if 2 * waits[k - 1] > 3000 then 3000 else 2 * waits[k - 1]
  }

  function Doublings(k: nat): nat {
    if k == 0 then 1 else 2 * Doublings(k - 1)
  }

  /** The k-th wait is ten milliseconds doubled k times, or three seconds if that is less. */
  lemma {:induction false} WaitsAre(waits: seq<nat>, k: nat)
    requires BacksOff(waits) && k < |waits|
    ensures waits[k] == if 10 * Doublings(k) > 3000 then 3000 else 10 * Doublings(k)
  {
    if k > 0 {
      WaitsAre(waits, k - 1);
    }
  }

  class Tailer {
    var nextSegment: nat
    var offset: nat

    /** Tail: `checkpoint` is the index of the last checkpoint, if there is one. */
    constructor (checkpoint: Option<nat>)
      ensures Here() == Position(if checkpoint.Some? then checkpoint.value + 1 else 0, 0)
    {
      offset := 0;
      nextSegment := if checkpoint.Some? then checkpoint.value + 1 else 0;
    }

    function Here(): Position
      reads this
    {
      Position(nextSegment, offset)
    }

    method IncOffset(v: nat)
      modifies this
      ensures Here() == old(Here()).(offset := old(offset) + v)
    {
      offset := offset + v;
    }

    method IncNextSegment()
      modifies this
      ensures Here() == Position(old(nextSegment) + 1, 0)
    {
      nextSegment := nextSegment + 1;
      offset := 0;
    }

    method CurrentOffset() returns (r: nat)
      ensures r == Offset(Here())
    {
      if nextSegment == 0 {
        return 0;
      }
      return (nextSegment - 1) * SEGMENT_SIZE + offset;
    }

    method CurrentSegment() returns (r: int)
      ensures r == nextSegment - 1
    {
      return nextSegment - 1;
    }

    /** Read, fed with what its turns meet. It skips over ended sources in order, one segment at a time, and stops at
        the first turn that yields bytes, an error or the end of the context. */
    method ReadTurns(turns: seq<Turn>) returns (outcome: Outcome, used: nat, waits: seq<nat>)
      requires exists k :: 0 <= k < |turns| && Ends(turns[k])
      modifies this
      ensures 0 < used <= |turns| && Ends(turns[used - 1]) && (forall k :: 0 <= k < used - 1 ==> !Ends(turns[k]))
      ensures nextSegment == old(nextSegment) + Openings(turns[..used])
      ensures offset == (if Openings(turns[..used]) == 0 then old(offset) else 0)
        + (if turns[used - 1].Got? then turns[used - 1].n else 0)
      ensures match turns[used - 1]
        case Got(n, err) => outcome == if err then Error(n) else Read(n)
        case AtEndCancelled => outcome == Eof
        case AtEnd(next) => outcome == if next.OpenError? then Error(0) else Eof
      ensures |waits| == Waitings(turns[..used]) && BacksOff(waits)
    {
      var backoff := 10;
      used, waits := 0, [];
      while true
        invariant used <= |turns| && (forall k :: 0 <= k < used ==> !Ends(turns[k]))
        invariant nextSegment == old(nextSegment) + Openings(turns[..used])
        invariant offset == if Openings(turns[..used]) == 0 then old(offset) else 0
        invariant |waits| == Waitings(turns[..used]) && BacksOff(waits) && BacksOff(waits + [backoff])
        decreases |turns| - used
      {
        var turn := turns[used];
        used := used + 1;
        assert turns[..used][..used - 1] == turns[..used - 1];
        match turn {
          case Got(n, err) =>
            IncOffset(n);
            return if err then Error(n) else Read(n), used, waits;
          case AtEndCancelled =>
            IncOffset(0);
            return Eof, used, waits;
          case AtEnd(next) =>
            if next == Missing || next == MissingCancelled {
              waits := waits + [backoff];
              if next == MissingCancelled {
                return Eof, used, waits;
              }
              backoff := backoff * 2;
              if backoff > 3000 {
                backoff := 3000;
              }
            } else if next == OpenError {
              IncOffset(0);
              return Error(0), used, waits;
            } else {
              IncNextSegment();
            }
        }
      }
    }
  }

  // ---- Finding the next segment in a directory listing ----

  datatype Lookup = Found | NotFound | TooHigh(k: int)

  /** The i-th name is the first number that is not below n. */
  ghost predicate FirstFrom(files: seq<Option<int>>, n: int, i: nat) {
    && i < |files| && files[i].Some? && files[i].value >= n
    && forall j :: 0 <= j < i && files[j].Some? ==> files[j].value < n
  }

  /** `files` are the names in the order ReadDir lists them, None for a name that is not a number. Whatever that
      order, the first number from n on decides; if the numbers ascend, a listed segment is found. */
  method OpenSegment(files: seq<Option<int>>, n: int) returns (r: Lookup)
    ensures r == NotFound <==> forall k :: Some(k) in files ==> k < n
    ensures r == Found <==> exists i: nat :: FirstFrom(files, n, i) && files[i].value == n
    ensures r.TooHigh? ==> r.k > n && exists i: nat :: FirstFrom(files, n, i) && files[i].value == r.k
    ensures Ascending(files) ==> (r == Found <==> Some(n) in files)
  {
    var i := 0;
    while i < |files|
      invariant 0 <= i <= |files|
      invariant forall j :: 0 <= j < i && files[j].Some? ==> files[j].value < n
    {
      if files[i].None? || files[i].value < n {
        i := i + 1;
        continue;
      }
      assert files[i] in files && FirstFrom(files, n, i);
      if files[i].value > n {
        return TooHigh(files[i].value);
      }
      return Found;
    }
    assert forall j: nat :: !FirstFrom(files, n, j);
    return NotFound;
  }

  ghost predicate Ascending(files: seq<Option<int>>) {
    forall i, j :: 0 <= i < j < |files| && files[i].Some? && files[j].Some? ==> files[i].value < files[j].value
  }

  // ---- Reading while the log is written ----

  /** `sources[0]` is the checkpoint, or empty if there is none, and `sources[j]` the segment `base + j - 1`. The reader
      is in `sources[cur]` after `pos` bytes. `eof` is set between seeing the end of the source and looking for the next
      segment; the two are not one atomic action. `lost` counts bytes left behind. */
  datatype System = System(
    base: nat, sources: seq<Bytes>, cur: nat, pos: nat, eof: bool, delivered: Bytes, lost: nat)

  datatype Step = Write(data: Bytes) | Rotate | Deliver(n: nat) | SeeEnd | Advance | KeepWaiting

  predicate Enabled(s: System, step: Step)
    requires s.cur < |s.sources| && s.pos <= |s.sources[s.cur]|
  {
    match step
    case Write(_) => |s.sources| > 1
    case Rotate => true
    case Deliver(n) => !s.eof && 0 < n && s.pos + n <= |s.sources[s.cur]|
    case SeeEnd => !s.eof && s.pos == |s.sources[s.cur]|
    case Advance => s.eof && s.cur + 1 < |s.sources|
    case KeepWaiting => s.eof && s.cur + 1 == |s.sources|
  }

  function Apply(s: System, step: Step): System
    requires s.cur < |s.sources| && s.pos <= |s.sources[s.cur]| && Enabled(s, step)
  {
    match step
    case Write(data) => var last := |s.sources| - 1; s.(sources := s.sources[last := s.sources[last] + data])
    case Rotate => s.(sources := s.sources + [[]])
    case Deliver(n) => s.(pos := s.pos + n, delivered := s.delivered + s.sources[s.cur][s.pos..s.pos + n])
    case SeeEnd => s.(eof := true)
    case Advance => s.(cur := s.cur + 1, pos := 0, eof := false, lost := s.lost + |s.sources[s.cur]| - s.pos)
    case KeepWaiting => s.(eof := false)
  }

  function Init(checkpoint: Option<(nat, Bytes)>): System {
    System(if checkpoint.Some? then checkpoint.value.0 + 1 else 0,
           [if checkpoint.Some? then checkpoint.value.1 else []], 0, 0, false, [], 0)
  }

  function Run(checkpoint: Option<(nat, Bytes)>, steps: seq<Step>): (r: Option<System>)
    ensures r.Some? ==> r.value.cur < |r.value.sources| && r.value.pos <= |r.value.sources[r.value.cur]|
  {
    if steps == [] then Some(Init(checkpoint))
    else match Run(checkpoint, steps[..|steps| - 1])
      case None => None
      case Some(s) => if Enabled(s, steps[|steps| - 1]) then Some(Apply(s, steps[|steps| - 1])) else None
  }

  /** Where the reader is in the whole log. */
  function Reached(s: System): nat
    requires s.cur < |s.sources|
  {
    |Flatten(s.sources[..s.cur])| + s.pos
  }

  lemma {:induction false} ConcatLength(ss: seq<Bytes>, k: nat)
    requires k <= |ss|
    ensures Flatten(ss[..k]) <= Flatten(ss)
    decreases |ss|
  {
    if k == |ss| {
      assert ss[..k] == ss;
    } else {
      ConcatLength(ss[..|ss| - 1], k);
      assert ss[..|ss| - 1][..k] == ss[..k];
    }
  }

  /** No byte is delivered twice, and the bytes the reader is past are the delivered and the lost ones; as long as none
      is lost, what was delivered is the log up to the reader's position. */
  ghost predicate Inv(s: System) {
    && s.cur < |s.sources| && s.pos <= |s.sources[s.cur]|
    && |s.delivered| + s.lost == Reached(s)
    && (s.lost == 0 ==> s.delivered == Flatten(s.sources[..s.cur]) + s.sources[s.cur][..s.pos])
  }

  lemma StepKeepsInv(s: System, step: Step)
    requires Inv(s) && Enabled(s, step)
    ensures Inv(Apply(s, step))
  {
    var t := Apply(s, step);
    match step {
      case Write(_) => assert t.sources[..t.cur] == s.sources[..s.cur];
      case Rotate => assert t.sources[..t.cur] == s.sources[..s.cur];
      case Deliver(n) =>
        assert s.sources[s.cur][..s.pos] + s.sources[s.cur][s.pos..s.pos + n] == s.sources[s.cur][..s.pos + n];
      case Advance =>
        assert s.sources[..s.cur + 1][..s.cur] == s.sources[..s.cur];
        assert s.lost == 0 && s.pos == |s.sources[s.cur]| ==> s.sources[s.cur][..s.pos] == s.sources[s.cur];
      case _ =>
    }
  }

  lemma {:induction false} RunKeepsInv(checkpoint: Option<(nat, Bytes)>, steps: seq<Step>)
    requires Run(checkpoint, steps).Some?
    ensures Inv(Run(checkpoint, steps).value)
  {
    if steps != [] {
      RunKeepsInv(checkpoint, steps[..|steps| - 1]);
      StepKeepsInv(Run(checkpoint, steps[..|steps| - 1]).value, steps[|steps| - 1]);
    }
  }

  /** How many bytes have been written to the reader's source since it last saw its end. */
  function Gap(checkpoint: Option<(nat, Bytes)>, steps: seq<Step>): nat {
    if steps == [] then 0
    else
      var before := steps[..|steps| - 1];
      match steps[|steps| - 1]
      case SeeEnd => 0
      case Write(data) =>
        var s := Run(checkpoint, before);
        Gap(checkpoint, before) + (if s.Some? && s.value.cur + 1 == |s.value.sources| then |data| else 0)
      case _ => Gap(checkpoint, before)
  }

  lemma {:induction false} GapIsUnread(checkpoint: Option<(nat, Bytes)>, steps: seq<Step>)
    requires Run(checkpoint, steps).Some?
    ensures var s := Run(checkpoint, steps).value;
      s.eof ==> |s.sources[s.cur]| == s.pos + Gap(checkpoint, steps)
  {
    if steps != [] {
      GapIsUnread(checkpoint, steps[..|steps| - 1]);
    }
  }

  /** The k-th step leaves a source that has grown since its end was seen. */
  predicate LeavesBytes(checkpoint: Option<(nat, Bytes)>, steps: seq<Step>, k: nat)
    requires k < |steps|
  {
    steps[k] == Advance && Gap(checkpoint, steps[..k]) > 0
  }

  /** What Read delivers is the whole log up to its position, a prefix of checkpoint and segments in order, exactly when
      no segment was written to between the reader's seeing its end and finding its successor. */
  lemma {:induction false} TailingIsGapless(checkpoint: Option<(nat, Bytes)>, steps: seq<Step>)
    requires Run(checkpoint, steps).Some?
    ensures var s := Run(checkpoint, steps).value;
      var gapless := forall k :: 0 <= k < |steps| ==> !LeavesBytes(checkpoint, steps, k);
      && |s.delivered| <= Reached(s)
      && (gapless <==> |s.delivered| == Reached(s))
      && (gapless ==> s.delivered == Flatten(s.sources[..s.cur]) + s.sources[s.cur][..s.pos])
      && (gapless ==> s.delivered <= Flatten(s.sources))
  {
    RunKeepsInv(checkpoint, steps);
    LossIsLeaving(checkpoint, steps);
    var s := Run(checkpoint, steps).value;
    if s.lost == 0 {
      ConcatLength(s.sources, s.cur + 1);
      assert s.sources[..s.cur + 1][..s.cur] == s.sources[..s.cur];
      assert s.delivered <= Flatten(s.sources[..s.cur + 1]);
    }
  }

  lemma {:induction false} LossIsLeaving(checkpoint: Option<(nat, Bytes)>, steps: seq<Step>)
    requires Run(checkpoint, steps).Some?
    ensures Run(checkpoint, steps).value.lost == 0
      <==> forall k :: 0 <= k < |steps| ==> !LeavesBytes(checkpoint, steps, k)
  {
    if steps != [] {
      var before := steps[..|steps| - 1];
      LossIsLeaving(checkpoint, before);
      GapIsUnread(checkpoint, before);
      assert forall k :: 0 <= k < |before| ==> before[..k] == steps[..k] && before[k] == steps[k];
      assert LeavesBytes(checkpoint, steps, |before|) <==> steps[|before|] == Advance && Gap(checkpoint, before) > 0;
      assert forall k :: 0 <= k < |before| ==> (LeavesBytes(checkpoint, steps, k)
        <==> LeavesBytes(checkpoint, before, k));
    }
  }

  /** A run that loses a byte: the reader sees the end of segment 0, 7 is written to it, segment 1 is created, and
      only then does the reader look for it. */
  lemma {:induction false} LateWriteIsLost()
    ensures var r := Run(None, [Rotate, SeeEnd, Advance, SeeEnd, Write([7]), Rotate, Advance]);
      r.Some? && r.value.delivered == [] && r.value.lost == 1 && r.value.cur == 2
  {
    var a := EndOfFirst();
    var seen := System(0, [[], []], 1, 0, true, [], 0);
    var grown := System(0, [[], [7]], 1, 0, true, [], 0);
    RunSnoc(None, a, Write([7]));
    assert Apply(seen, Write([7])) == grown by {
      var e: Bytes := [];
      assert e + [7] == [7] && [e, e][1 := [7]] == [e, [7]];
    }
    RunSnoc(None, a + [Write([7])], Rotate);
    RunSnoc(None, a + [Write([7])] + [Rotate], Advance);
    assert a + [Write([7])] + [Rotate] + [Advance] == [Rotate, SeeEnd, Advance, SeeEnd, Write([7]), Rotate, Advance];
  }

  lemma {:induction false} EndOfFirst() returns (steps: seq<Step>)
    ensures steps == [Rotate, SeeEnd, Advance, SeeEnd]
    ensures Run(None, steps) == Some(System(0, [[], []], 1, 0, true, [], 0))
  {
    var r0: seq<Step> := [];
    RunSnoc(None, r0, Rotate);
    RunSnoc(None, r0 + [Rotate], SeeEnd);
    RunSnoc(None, r0 + [Rotate] + [SeeEnd], Advance);
    RunSnoc(None, r0 + [Rotate] + [SeeEnd] + [Advance], SeeEnd);
    var e: Bytes := [];
    assert Init(None) == System(0, [e], 0, 0, false, [], 0);
    assert [e] + [e] == [e, e] && Apply(Init(None), Rotate) == System(0, [e, e], 0, 0, false, [], 0);
    steps := r0 + [Rotate] + [SeeEnd] + [Advance] + [SeeEnd];
  }

  lemma RunSnoc(checkpoint: Option<(nat, Bytes)>, steps: seq<Step>, step: Step)
    requires Run(checkpoint, steps).Some? && Enabled(Run(checkpoint, steps).value, step)
    ensures Run(checkpoint, steps + [step]) == Some(Apply(Run(checkpoint, steps).value, step))
  {
    assert (steps + [step])[..|steps|] == steps;
  }

  // ---- Offset and Size ----

  function OffsetOf(s: System): nat {
    Offset(Position(s.base + s.cur, s.pos))
  }

  /** The index of the highest segment, in whole segments, and its length. */
  function Size(s: System): nat
    requires |s.sources| > 1
  {
    (s.base + |s.sources| - 2) * SEGMENT_SIZE + |s.sources[|s.sources| - 1]|
  }

  predicate Bounded(s: System) {
    forall i :: 0 <= i < |s.sources| ==> |s.sources[i]| <= SEGMENT_SIZE
  }

  /** The offset goes back exactly when the reader leaves a source after more than a segment's worth of bytes. */
  lemma OffsetStep(s: System, step: Step)
    requires s.cur < |s.sources| && s.pos <= |s.sources[s.cur]| && Enabled(s, step)
    requires s.base + s.cur == 0 ==> s.pos == 0
    ensures OffsetOf(Apply(s, step)) < OffsetOf(s) <==> step == Advance && s.pos > SEGMENT_SIZE
  {
  }

  /** Before the first segment of a log without a checkpoint there is nothing to read. */
  lemma {:induction false} NothingBeforeFirst(checkpoint: Option<(nat, Bytes)>, steps: seq<Step>)
    requires Run(checkpoint, steps).Some?
    ensures var s := Run(checkpoint, steps).value; s.base + s.cur == 0 ==> s.pos == 0 && s.sources[0] == []
  {
    if steps != [] {
      NothingBeforeFirst(checkpoint, steps[..|steps| - 1]);
    }
  }

  /** With sources of at most a segment's size, such as checkpoints that fit, the offset never decreases, and on a real
      segment it never exceeds the size of the log. */
  lemma {:induction false} OffsetFollowsLog(checkpoint: Option<(nat, Bytes)>, steps: seq<Step>, k: nat)
    requires k <= |steps| && Run(checkpoint, steps).Some? && Bounded(Run(checkpoint, steps).value)
    ensures var s := Run(checkpoint, steps).value;
      && Run(checkpoint, steps[..k]).Some? && OffsetOf(Run(checkpoint, steps[..k]).value) <= OffsetOf(s)
      && (s.cur > 0 ==> OffsetOf(s) <= Size(s))
    decreases |steps|
  {
    var s := Run(checkpoint, steps).value;
    if s.cur > 0 {
      OffsetWithinSize(s);
    }
    if k == |steps| {
      assert steps[..k] == steps;
    } else {
      var before, step := steps[..|steps| - 1], steps[|steps| - 1];
      var r := Run(checkpoint, before).value;
      NothingBeforeFirst(checkpoint, before);
      OffsetStep(r, step);
      StillBounded(r, step);
      OffsetFollowsLog(checkpoint, before, k);
      assert before[..k] == steps[..k];
    }
  }

  lemma {:induction false} PrefixRuns(checkpoint: Option<(nat, Bytes)>, steps: seq<Step>, k: nat)
    requires k <= |steps| && Run(checkpoint, steps).Some?
    ensures Run(checkpoint, steps[..k]).Some?
    decreases |steps|
  {
    if k == |steps| {
      assert steps[..k] == steps;
    } else {
      PrefixRuns(checkpoint, steps[..|steps| - 1], k);
      assert steps[..|steps| - 1][..k] == steps[..k];
    }
  }

  /** The state after the first k steps. */
  function StateAt(checkpoint: Option<(nat, Bytes)>, steps: seq<Step>, k: nat): (s: System)
    requires k <= |steps| && Run(checkpoint, steps).Some?
    ensures s.cur < |s.sources| && s.pos <= |s.sources[s.cur]|
  {
    PrefixRuns(checkpoint, steps, k);
    Run(checkpoint, steps[..k]).value
  }

  /** The k-th step leaves a source of which more than a segment's size has been read. */
  predicate LeavesLong(checkpoint: Option<(nat, Bytes)>, steps: seq<Step>, k: nat)
    requires k < |steps| && Run(checkpoint, steps).Some?
  {
    steps[k] == Advance && StateAt(checkpoint, steps, k).pos > SEGMENT_SIZE
  }

  /** The offset never goes back over a run exactly if the run never leaves a source of more than a segment's size. */
  lemma {:induction false} OffsetNeverBackIff(checkpoint: Option<(nat, Bytes)>, steps: seq<Step>)
    requires Run(checkpoint, steps).Some?
    ensures (forall j: nat, k: nat :: j <= k <= |steps| ==>
               OffsetOf(StateAt(checkpoint, steps, j)) <= OffsetOf(StateAt(checkpoint, steps, k)))
      <==> (forall k :: 0 <= k < |steps| ==> !LeavesLong(checkpoint, steps, k))
  {
    if forall k :: 0 <= k < |steps| ==> !LeavesLong(checkpoint, steps, k) {
      forall j: nat, k: nat | j <= k <= |steps|
        ensures OffsetOf(StateAt(checkpoint, steps, j)) <= OffsetOf(StateAt(checkpoint, steps, k))
      {
        OffsetRises(checkpoint, steps, j, k);
      }
    } else {
      var k: nat :| k < |steps| && LeavesLong(checkpoint, steps, k);
      OffsetAfter(checkpoint, steps, k);
      assert !(OffsetOf(StateAt(checkpoint, steps, k)) <= OffsetOf(StateAt(checkpoint, steps, k + 1)));
    }
  }

  lemma {:induction false} OffsetAfter(checkpoint: Option<(nat, Bytes)>, steps: seq<Step>, k: nat)
    requires k < |steps| && Run(checkpoint, steps).Some?
    ensures OffsetOf(StateAt(checkpoint, steps, k + 1)) < OffsetOf(StateAt(checkpoint, steps, k))
      <==> LeavesLong(checkpoint, steps, k)
  {
    PrefixRuns(checkpoint, steps, k);
    PrefixRuns(checkpoint, steps, k + 1);
    assert steps[..k + 1][..k] == steps[..k];
    NothingBeforeFirst(checkpoint, steps[..k]);
    OffsetStep(StateAt(checkpoint, steps, k), steps[k]);
  }

  lemma {:induction false} OffsetRises(checkpoint: Option<(nat, Bytes)>, steps: seq<Step>, j: nat, k: nat)
    requires j <= k <= |steps| && Run(checkpoint, steps).Some?
    requires forall i :: 0 <= i < |steps| ==> !LeavesLong(checkpoint, steps, i)
    ensures OffsetOf(StateAt(checkpoint, steps, j)) <= OffsetOf(StateAt(checkpoint, steps, k))
  {
    if j < k {
      OffsetRises(checkpoint, steps, j, k - 1);
      OffsetAfter(checkpoint, steps, k - 1);
      assert !LeavesLong(checkpoint, steps, k - 1);
    }
  }

  /** A run on which the offset goes back: a checkpoint of more than a segment's size is read and left. */
  lemma {:induction false} LongCheckpointGoesBack(bytes: Bytes)
    requires |bytes| > SEGMENT_SIZE
    ensures var steps := [Rotate, Deliver(|bytes|), SeeEnd, Advance];
      && Run(Some((0, bytes)), steps).Some?
      && OffsetOf(StateAt(Some((0, bytes)), steps, 3)) == |bytes|
      && OffsetOf(StateAt(Some((0, bytes)), steps, 4)) == SEGMENT_SIZE
  {
    var c := Some((0, bytes));
    var r0: seq<Step> := [];
    RunSnoc(c, r0, Rotate);
    RunSnoc(c, r0 + [Rotate], Deliver(|bytes|));
    RunSnoc(c, r0 + [Rotate] + [Deliver(|bytes|)], SeeEnd);
    RunSnoc(c, r0 + [Rotate] + [Deliver(|bytes|)] + [SeeEnd], Advance);
    var steps := [Rotate, Deliver(|bytes|), SeeEnd, Advance];
    assert r0 + [Rotate] + [Deliver(|bytes|)] + [SeeEnd] + [Advance] == steps;
    assert steps[..4] == steps && steps[..3] == r0 + [Rotate] + [Deliver(|bytes|)] + [SeeEnd];
  }

  // ---- The current segment ----

  /** What CurrentSegment returns. */
  function SegmentOf(s: System): int {
    s.base + s.cur - 1
  }

  /** The segment being read only advances, so a record that has been read lies in no later segment than the current
      one. */
  lemma {:induction false} SegmentOnlyAdvances(checkpoint: Option<(nat, Bytes)>, steps: seq<Step>, j: nat, k: nat)
    requires j <= k <= |steps| && Run(checkpoint, steps).Some?
    ensures SegmentOf(StateAt(checkpoint, steps, j)) <= SegmentOf(StateAt(checkpoint, steps, k))
  {
    if j < k {
      SegmentOnlyAdvances(checkpoint, steps, j, k - 1);
      PrefixRuns(checkpoint, steps, k);
      assert steps[..k][..k - 1] == steps[..k - 1];
    }
  }

  lemma StillBounded(s: System, step: Step)
    requires s.cur < |s.sources| && s.pos <= |s.sources[s.cur]| && Enabled(s, step) && Bounded(Apply(s, step))
    ensures Bounded(s)
  {
    assert forall i :: 0 <= i < |s.sources| ==> |s.sources[i]| <= |Apply(s, step).sources[i]|;
  }

  lemma OffsetWithinSize(s: System)
    requires 0 < s.cur < |s.sources| && s.pos <= |s.sources[s.cur]| && Bounded(s)
    ensures OffsetOf(s) <= Size(s)
  {
    if s.cur < |s.sources| - 1 {
      assert s.base + s.cur <= s.base + |s.sources| - 2;
    }
  }
}
