/** Where the parts of the reader meet: the tailer's segments and offsets, as the series cache and the progress file use
    them (retrieval/manager.go:184-214). */
module Pipeline {
  import opened Common
  import SeriesCache
  import Tailer
  import Restart

  /** A series record read after j steps of the tailer is handed to set with the segment that is current after k. */
  predicate SetWhileTailing(checkpoint: Option<(nat, Tailer.Bytes)>, steps: seq<Tailer.Step>, op: SeriesCache.CacheOp,
                            j: nat, k: nat)
    requires Tailer.Run(checkpoint, steps).Some?
  {
    && op.Log? && j <= k <= |steps|
    && op.segment == Tailer.SegmentOf(Tailer.StateAt(checkpoint, steps, j))
    && op.maxSegment == Tailer.SegmentOf(Tailer.StateAt(checkpoint, steps, k))
  }

  ghost predicate ReadBy(checkpoint: Option<(nat, Tailer.Bytes)>, steps: seq<Tailer.Step>,
                         ops: seq<SeriesCache.CacheOp>)
    requires Tailer.Run(checkpoint, steps).Some?
  {
    forall i :: 0 <= i < |ops| && ops[i].Log?
      ==> exists j: nat, k: nat :: SetWhileTailing(checkpoint, steps, ops[i], j, k)
  }

  /** What Run hands to set bounds the segments of its series, so no live series is ever collected. */
  lemma {:induction false} TailedSeriesSurvive(checkpoint: Option<(nat, Tailer.Bytes)>, steps: seq<Tailer.Step>,
                                               ops: seq<SeriesCache.CacheOp>, ref: nat)
    requires Tailer.Run(checkpoint, steps).Some? && ReadBy(checkpoint, steps, ops)
    requires SeriesCache.StaysLive(ops, ref) && SeriesCache.LastLogged(ops, ref) != []
    ensures ref in SeriesCache.Replay(ops).segments
  {
    forall op <- ops | op.Log? ensures op.segment <= op.maxSegment {
      var i :| 0 <= i < |ops| && ops[i] == op;
      var j: nat, k: nat :| SetWhileTailing(checkpoint, steps, ops[i], j, k);
      Tailer.SegmentOnlyAdvances(checkpoint, steps, j, k);
    }
    SeriesCache.LiveSeriesSurvive(ops, ref);
  }

  /** Offsets that make the progress margin too small do occur: behind a checkpoint that is longer than a segment by
      more than the margin, the first segment starts at an offset below what a save at the end of the checkpoint
      leaves. */
  lemma {:induction false} LongCheckpointIsUnsafe(bytes: Tailer.Bytes)
    requires |bytes| > Tailer.SEGMENT_SIZE + Restart.PROGRESS_BUFFER_MARGIN
    ensures var c, steps := Some((0, bytes)), [Tailer.Rotate, Tailer.Deliver(|bytes|), Tailer.SeeEnd, Tailer.Advance];
      && Tailer.Run(c, steps).Some?
      && var a, b := Tailer.OffsetOf(Tailer.StateAt(c, steps, 3)), Tailer.OffsetOf(Tailer.StateAt(c, steps, 4));
      var run := [Restart.Grow(Restart.Series(a, 1)), Restart.Grow(Restart.Samples(b, 2)), Restart.Boot(false),
                  Restart.Process(true)];
      Restart.Run(run).Some? && Restart.SavesInTime(run) && !Restart.Safe(run)
  {
    Tailer.LongCheckpointGoesBack(bytes);
    Restart.LongCheckpointLosesSample(|bytes|, Tailer.SEGMENT_SIZE);
  }
}
