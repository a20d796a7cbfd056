/** The rates the shard controller reads and the shard counts it asks for
    (stackdriver/ewma.go, stackdriver/queue_manager.go:248-342). */
module ShardController {
  import opened Common

  // ---- ewma.go ----

  /** Events per second over one interval. */
  function Instant(n: int, interval: real): (rate: real)
    requires interval > 0.0
    ensures rate * interval == n as real
  {
    n as real / interval
  }

  function NextRate(alpha: real, seeded: bool, lastRate: real, instant: real): real {
    if seeded then lastRate + alpha * (instant - lastRate) else instant
  }

  class EwmaRate {
    var newEvents: int
    const alpha: real
    const interval: real
    var lastRate: real
    var seeded: bool

    constructor (alpha: real, interval: real)
      requires interval > 0.0
      ensures this.alpha == alpha && this.interval == interval
      ensures newEvents == 0 && lastRate == 0.0 && !seeded
    {
      this.alpha, this.interval := alpha, interval;
      newEvents, lastRate, seeded := 0, 0.0, false;
    }

    /** The rate after a tick now. */
    ghost function Ticked(): real
      requires interval > 0.0
      reads this
    {
      NextRate(alpha, seeded, lastRate, Instant(newEvents, interval))
    }

    method Incr(incr: int)
      modifies this`newEvents
      ensures newEvents == old(newEvents) + incr
    {
      newEvents := newEvents + incr;
    }

    /** tick with no incr in between; `Race` below covers the interleavings. */
    method Tick()
      requires interval > 0.0
      modifies this
      ensures newEvents == 0 && seeded
      ensures lastRate == old(Ticked())
    {
      var n := newEvents;
      newEvents := newEvents - n;
      var instantRate := Instant(n, interval);
      if seeded {
        lastRate := lastRate + alpha * (instantRate - lastRate);
      } else {
        seeded := true;
        lastRate := instantRate;
      }
    }
  }

  /** tick is three atomic actions: load the counter, subtract what was loaded, update the rate. Any number of incr
      calls may fall in between. There is one ticker. */
  datatype RateStep = Incr(n: int) | Load | Subtract | Update

  datatype TickPc = Idle | Loaded(n: int) | Subtracted(n: int)

  /** `counted` lists the event counts the finished subtractions took. */
  datatype Race = Race(newEvents: int, pc: TickPc, counted: seq<int>, lastRate: real, seeded: bool)

  predicate RateEnabled(r: Race, step: RateStep) {
    match step
    case Incr(_) => true
    case Load => r.pc.Idle?
    case Subtract => r.pc.Loaded?
    case Update => r.pc.Subtracted?
  }

  function RateApply(alpha: real, interval: real, r: Race, step: RateStep): Race
    requires RateEnabled(r, step) && interval > 0.0
  {
    match step
    case Incr(n) => r.(newEvents := r.newEvents + n)
    case Load => r.(pc := Loaded(r.newEvents))
    case Subtract => r.(newEvents := r.newEvents - r.pc.n, pc := Subtracted(r.pc.n), counted := r.counted + [r.pc.n])
    case Update =>
      var next := NextRate(alpha, r.seeded, r.lastRate, Instant(r.pc.n, interval));
      r.(pc := Idle, lastRate := next, seeded := true)
  }

  function RateRun(alpha: real, interval: real, steps: seq<RateStep>): Option<Race>
    requires interval > 0.0
  {
    if steps == [] then Some(Race(0, Idle, [], 0.0, false))
    else match RateRun(alpha, interval, steps[..|steps| - 1])
      case None => None
      case Some(r) =>
        if RateEnabled(r, steps[|steps| - 1]) then Some(RateApply(alpha, interval, r, steps[|steps| - 1])) else None
  }

  function Arrived(steps: seq<RateStep>): int {
    if steps == [] then 0
    else Arrived(steps[..|steps| - 1]) + (if steps[|steps| - 1].Incr? then steps[|steps| - 1].n else 0)
  }

  /** However incr and tick interleave, no event is lost or counted twice. */
  lemma {:induction false} RatesLoseNothing(alpha: real, interval: real, steps: seq<RateStep>)
    requires interval > 0.0 && RateRun(alpha, interval, steps).Some?
    ensures var r := RateRun(alpha, interval, steps).value;
      && Arrived(steps) == r.newEvents + Sum(r.counted)
      && (r.pc.Subtracted? ==> r.pc.n in r.counted)
  {
    if steps != [] {
      var before, step := steps[..|steps| - 1], steps[|steps| - 1];
      RatesLoseNothing(alpha, interval, before);
      var r := RateRun(alpha, interval, before).value;
      if step.Subtract? {
        var t := RateApply(alpha, interval, r, step);
        assert t.counted[..|r.counted|] == r.counted && t.counted[|r.counted|] == r.pc.n;
      }
    }
  }

  /** With a weight between 0 and 1 the rate stays between the least and the greatest instantaneous rate seen. */
  lemma {:induction false} RateStaysBetween(alpha: real, interval: real, steps: seq<RateStep>, lo: real, hi: real)
    requires interval > 0.0 && 0.0 <= alpha <= 1.0 && RateRun(alpha, interval, steps).Some?
    requires forall n <- RateRun(alpha, interval, steps).value.counted :: lo <= Instant(n, interval) <= hi
    ensures var r := RateRun(alpha, interval, steps).value; r.seeded ==> lo <= r.lastRate <= hi
  {
    if steps != [] {
      var before, step := steps[..|steps| - 1], steps[|steps| - 1];
      var r, t := RateRun(alpha, interval, before).value, RateRun(alpha, interval, steps).value;
      assert forall n <- r.counted :: n in t.counted;
      RateStaysBetween(alpha, interval, before, lo, hi);
      if step.Update? {
        RatesLoseNothing(alpha, interval, before);
        NextRateBetween(alpha, r.seeded, r.lastRate, Instant(r.pc.n, interval), lo, hi);
      }
    }
  }

  lemma MulNonNeg(x: real, y: real)
    requires x >= 0.0 && y >= 0.0
    ensures x * y >= 0.0
  {
  }

  lemma NextRateBetween(alpha: real, seeded: bool, lastRate: real, instant: real, lo: real, hi: real)
    requires 0.0 <= alpha <= 1.0 && lo <= instant <= hi && (seeded ==> lo <= lastRate <= hi)
    ensures lo <= NextRate(alpha, seeded, lastRate, instant) <= hi
  {
    if seeded {
      MulNonNeg(alpha, instant - lo);
      MulNonNeg(alpha, hi - instant);
      MulNonNeg(1.0 - alpha, lastRate - lo);
      MulNonNeg(1.0 - alpha, hi - lastRate);
      var next := NextRate(alpha, seeded, lastRate, instant);
      assert next - lo == (1.0 - alpha) * (lastRate - lo) + alpha * (instant - lo);
      assert hi - next == (1.0 - alpha) * (hi - lastRate) + alpha * (hi - instant);
    }
  }

  /** A tick shrinks the distance to the instantaneous rate by 1 - alpha. */
  lemma RateDecays(alpha: real, lastRate: real, instant: real)
    ensures NextRate(alpha, true, lastRate, instant) - instant == (1.0 - alpha) * (lastRate - instant)
    ensures NextRate(alpha, false, lastRate, instant) == instant
  {
  }

  /** The rate after k more ticks that find the same number of events. */
  function Steady(alpha: real, rate: real, instant: real, k: nat): real {
    if k == 0 then rate else NextRate(alpha, true, Steady(alpha, rate, instant, k - 1), instant)
  }

  function Power(x: real, k: nat): real {
    if k == 0 then 1.0 else x * Power(x, k - 1)
  }

  /** Under a steady load the distance to its rate falls geometrically. */
  lemma {:induction false} SteadyRateConverges(alpha: real, rate: real, instant: real, k: nat)
    ensures Steady(alpha, rate, instant, k) - instant == Power(1.0 - alpha, k) * (rate - instant)
  {
    if k > 0 {
      SteadyRateConverges(alpha, rate, instant, k - 1);
      RateDecays(alpha, Steady(alpha, rate, instant, k - 1), instant);
      var x, y, d := 1.0 - alpha, Power(1.0 - alpha, k - 1), rate - instant;
      assert x * (y * d) == (x * y) * d;
    }
  }

  // ---- calculateDesiredShards ----

  const SECOND := 1000000000.0

  datatype Rates = Rates(size: real, offset: real, samplesIn: real, samplesOut: real, duration: real)

  /** The factor that makes up for a backlog. */
  function Backlog(size: real, offset: real): real
    requires offset != 0.0
  {
    if size >= offset then size / offset else 1.0 + (1.0 - size / offset) * 1.5
  }

  /** None where the division by a zero offset rate makes the floating-point result infinite or NaN. */
  function Desired(r: Rates): Option<real>
    requires r.samplesOut != 0.0
  {
    if r.offset == 0.0 then None
    else Some(r.duration / r.samplesOut / SECOND * 1.5 * r.samplesIn * Backlog(r.size, r.offset))
  }

  function Ceil(x: real): int {
    -((-x).Floor)
  }

  function Clamp(n: int, maxShards: int): int {
    if n > maxShards then maxShards else if n < 1 then 1 else n
  }

  /** The count to ask for, None to leave it. `junk` is what the conversion of a non-finite float to int yields. */
  function Decide(current: int, maxShards: int, desired: Option<real>, junk: int): Option<int> {
    if desired.Some? && current as real * 0.7 <= desired.value <= current as real * 1.1 then None
    else
      var n := Clamp(if desired.Some? then Ceil(desired.value) else junk, maxShards);
      if n == current then None else Some(n)
  }

  // ---- What the WAL rates count ----

  /** What one round reads: the size of the WAL, None if that fails, and the offset of the reader. */
  datatype Reading = Reading(size: Option<int>, offset: int)

  /** The offset a round compares with: that of the last round whose size could be read. */
  function KeptOffset(first: int, readings: seq<Reading>): int
    decreases readings
  {
    if readings == [] then first
    else KeptOffset(if readings[0].size.Some? then readings[0].offset else first, readings[1..])
  }

  function KeptSize(first: int, readings: seq<Reading>): int
    decreases readings
  {
    if readings == [] then first
    else KeptSize(if readings[0].size.Some? then readings[0].size.value else first, readings[1..])
  }

  /** The bytes the rounds count as read: each round counts from the kept offset on. */
  function OffsetEvents(first: int, readings: seq<Reading>): int
    decreases readings
  {
    if readings == [] then 0
    else
      readings[0].offset - first
      + OffsetEvents(if readings[0].size.Some? then readings[0].offset else first, readings[1..])
  }

  /** The bytes the rounds count as written: a size that cannot be read counts as zero. */
  function SizeEvents(first: int, readings: seq<Reading>): int
    decreases readings
  {
    if readings == [] then 0
    else
      (if readings[0].size.Some? then readings[0].size.value else 0) - first
      + SizeEvents(if readings[0].size.Some? then readings[0].size.value else first, readings[1..])
  }

  /** What the failed rounds count, and a later round counts again. */
  function Recounted(first: int, readings: seq<Reading>): int
    decreases readings
  {
    if readings == [] then 0
    else if readings[0].size.Some? then Recounted(readings[0].offset, readings[1..])
    else readings[0].offset - first + Recounted(first, readings[1..])
  }

  /** The kept sizes that failed rounds count as deleted. */
  function Discounted(first: int, readings: seq<Reading>): int
    decreases readings
  {
    if readings == [] then 0
    else if readings[0].size.Some? then Discounted(readings[0].size.value, readings[1..])
    else first + Discounted(first, readings[1..])
  }

  /** Over any rounds each byte between the first and the last kept offset is counted once, and the bytes read before a
      failed round are counted once more; and a failed round takes the whole size of the WAL off, for good. */
  lemma {:induction false} WalEvents(size: int, offset: int, readings: seq<Reading>)
    ensures OffsetEvents(offset, readings) == KeptOffset(offset, readings) - offset + Recounted(offset, readings)
    ensures SizeEvents(size, readings) == KeptSize(size, readings) - size - Discounted(size, readings)
    decreases readings
  {
    if readings != [] {
      var r := readings[0];
      if r.size.Some? {
        WalEvents(r.size.value, r.offset, readings[1..]);
      } else {
        WalEvents(size, offset, readings[1..]);
      }
    }
  }

  /** A round whose size cannot be read finds the reader where the last good round left it. */
  predicate IdleWhenFailed(first: int, readings: seq<Reading>)
    decreases readings
  {
    readings == []
    || (if readings[0].size.Some? then IdleWhenFailed(readings[0].offset, readings[1..])
        else readings[0].offset == first && IdleWhenFailed(first, readings[1..]))
  }

  predicate Forward(first: int, readings: seq<Reading>)
    decreases readings
  {
    readings == [] || (first <= readings[0].offset && Forward(readings[0].offset, readings[1..]))
  }

  lemma {:induction false} ForwardFrom(first: int, next: int, readings: seq<Reading>)
    requires first <= next && Forward(next, readings)
    ensures Forward(first, readings)
  {
  }

  /** A reader that only moves forward has each byte counted once exactly if it does not move while sizes cannot be
      read. */
  lemma {:induction false} CountedOnceIff(first: int, readings: seq<Reading>)
    requires Forward(first, readings)
    ensures OffsetEvents(first, readings) >= KeptOffset(first, readings) - first
    ensures OffsetEvents(first, readings) == KeptOffset(first, readings) - first <==> IdleWhenFailed(first, readings)
    decreases readings
  {
    if readings != [] {
      var r := readings[0];
      if r.size.Some? {
        CountedOnceIff(r.offset, readings[1..]);
      } else {
        ForwardFrom(first, r.offset, readings[1..]);
        CountedOnceIff(first, readings[1..]);
      }
    }
  }

  /** Ten bytes read are counted as twenty when the first of two rounds cannot read the size. */
  lemma FailedRoundCountsTwice()
    ensures OffsetEvents(0, [Reading(None, 10), Reading(Some(7), 10)]) == 20
    ensures KeptOffset(0, [Reading(None, 10), Reading(Some(7), 10)]) == 10
  {
    var rs := [Reading(None, 10), Reading(Some(7), 10)];
    assert rs[1..] == [Reading(Some(7), 10)] && rs[1..][1..] == [];
  }

  class QueueManager {
    const maxShards: int
    var numShards: int
    var lastSize: int
    var lastOffset: int
    const samplesIn: EwmaRate
    const samplesOut: EwmaRate
    const samplesOutDuration: EwmaRate
    const walSize: EwmaRate
    const walOffset: EwmaRate

    ghost predicate Valid()
      reads this
    {
      && 1 <= numShards <= maxShards
      && samplesIn.interval > 0.0 && samplesOut.interval > 0.0 && samplesOutDuration.interval > 0.0
      && walSize.interval > 0.0 && walOffset.interval > 0.0
      && samplesIn != samplesOut && samplesIn != samplesOutDuration && samplesIn != walSize && samplesIn != walOffset
      && samplesOut != samplesOutDuration && samplesOut != walSize && samplesOut != walOffset
      && samplesOutDuration != walSize && samplesOutDuration != walOffset && walSize != walOffset
    }

    constructor (maxShards: int, size: int, offset: int, weight: real, interval: real)
      requires 1 <= maxShards && interval > 0.0
      ensures Valid() && numShards == 1 && lastSize == size && lastOffset == offset && this.maxShards == maxShards
      ensures fresh(samplesIn) && fresh(samplesOut) && fresh(samplesOutDuration) && fresh(walSize) && fresh(walOffset)
    {
      this.maxShards, numShards, lastSize, lastOffset := maxShards, 1, size, offset;
      samplesIn := new EwmaRate(weight, interval);
      samplesOut := new EwmaRate(weight, interval);
      samplesOutDuration := new EwmaRate(weight, interval);
      walSize := new EwmaRate(weight, interval);
      walOffset := new EwmaRate(weight, interval);
    }

    function RatesNow(): Rates
      reads samplesIn, samplesOut, samplesOutDuration, walSize, walOffset
    {
      Rates(walSize.lastRate, walOffset.lastRate, samplesIn.lastRate, samplesOut.lastRate, samplesOutDuration.lastRate)
    }

    /** One round of the controller. `size` is None when the WAL size could not be read, `ready` tells whether the
        reshard loop is there to take the request. */
    method CalculateDesiredShards(size: Option<int>, offset: int, ready: bool, junk: int)
      returns (requested: Option<int>)
      requires Valid()
      modifies this, samplesIn, samplesOut, samplesOutDuration, walSize, walOffset
      ensures Valid()
      ensures samplesIn.newEvents == samplesOut.newEvents == samplesOutDuration.newEvents == 0
      ensures walSize.newEvents == walOffset.newEvents == 0
      ensures samplesIn.lastRate == old(samplesIn.Ticked()) && samplesOut.lastRate == old(samplesOut.Ticked())
      ensures samplesOutDuration.lastRate == old(samplesOutDuration.Ticked())
      ensures walOffset.lastRate == NextRate(walOffset.alpha, old(walOffset.seeded), old(walOffset.lastRate),
        Instant(old(walOffset.newEvents) + OffsetEvents(old(lastOffset), [Reading(size, offset)]), walOffset.interval))
      ensures walSize.lastRate == NextRate(walSize.alpha, old(walSize.seeded), old(walSize.lastRate),
        Instant(old(walSize.newEvents) + SizeEvents(old(lastSize), [Reading(size, offset)]), walSize.interval))
      ensures lastSize == KeptSize(old(lastSize), [Reading(size, offset)])
      ensures lastOffset == KeptOffset(old(lastOffset), [Reading(size, offset)])
      ensures requested ==
        if size.None? || samplesOut.lastRate == 0.0 || !ready then None
        else Decide(old(numShards), maxShards, Desired(Rates(size := walSize.lastRate, offset := walOffset.lastRate,
          samplesIn := samplesIn.lastRate, samplesOut := samplesOut.lastRate,
          duration := samplesOutDuration.lastRate)), junk)
      ensures numShards == if requested.Some? then requested.value else old(numShards)
    {
      var wsz := if size.Some? then size.value else 0;
      walSize.Incr(wsz - lastSize);
      walOffset.Incr(offset - lastOffset);
      samplesIn.Tick();
      samplesOut.Tick();
      samplesOutDuration.Tick();
      walSize.Tick();
      walOffset.Tick();
      if size.None? {
        return None;
      }
      lastSize := wsz;
      lastOffset := offset;
      if samplesOut.lastRate == 0.0 {
        return None;
      }
      var n := Decide(numShards, maxShards, Desired(RatesNow()), junk);
      if n.Some? && ready {
        numShards := n.value;
        return n;
      }
      return None;
    }
  }

  /** The desired count is the number of seconds one shard needs for what comes in during a second, half as much again,
      times a factor: the writing rate over the reading rate when the log grows at least as fast as it is read, else one
      plus one and a half times the share by which the reader is faster. */
  lemma DesiredBalances(r: Rates)
    requires r.samplesOut != 0.0 && r.offset != 0.0
    ensures Desired(r).Some?
    ensures Desired(r).value * (r.samplesOut * SECOND) * r.offset ==
      1.5 * r.samplesIn * r.duration * (if r.size >= r.offset then r.size else 2.5 * r.offset - 1.5 * r.size)
    ensures r.size == r.offset ==> Desired(r).value * (r.samplesOut * SECOND) == 1.5 * r.samplesIn * r.duration
  {
  }

  /** More samples coming in or slower calls never lower the desired count, more samples going out never raise it. */
  lemma DesiredIsMonotone(r: Rates, q: Rates)
    requires r.size == q.size && r.offset == q.offset > 0.0
    requires 0.0 <= r.samplesIn <= q.samplesIn && 0.0 <= r.duration <= q.duration && r.samplesOut >= q.samplesOut > 0.0
    ensures Desired(r).Some? && Desired(q).Some? && Desired(r).value <= Desired(q).value
  {
  }

  /** A backlog never lowers the number of shards: the factor is at least one, and exactly one when the log is
      read as fast as it grows. */
  lemma BacklogAtLeastOne(size: real, offset: real)
    requires offset > 0.0
    ensures Backlog(size, offset) >= 1.0
    ensures Backlog(size, offset) == 1.0 <==> size == offset
  {
  }

  /** A request is in range, differs from the current count, lies on the side of the current count on which the
      desired value lies, and is the least number of shards that reaches the desired value, as far as the range
      goes. */
  lemma DecideMovesToward(current: int, maxShards: int, desired: Option<real>, junk: int)
    requires 1 <= current <= maxShards
    ensures var d := Decide(current, maxShards, desired, junk);
      && (d.Some? ==> 1 <= d.value <= maxShards && d.value != current)
      && (d.Some? && desired.Some? && d.value > current ==>
            desired.value > current as real * 1.1 && (d.value as real) < desired.value + 1.0)
      && (d.Some? && desired.Some? && d.value < current ==>
            desired.value < current as real * 0.7 && d.value as real >= desired.value)
      && (d.Some? && desired.Some? ==>
            && (d.value as real >= desired.value || d.value == maxShards)
            && ((d.value as real) < desired.value + 1.0 || d.value == 1))
      && (d.None? && desired.Some? ==>
            || current as real * 0.7 <= desired.value <= current as real * 1.1
            || current == Clamp(Ceil(desired.value), maxShards))
  {
  }

  /** A round of the controller on its shard count: `ready` as in the method. */
  datatype Round = Round(desired: Option<real>, ready: bool, junk: int)

  function Control(start: int, maxShards: int, rounds: seq<Round>): (counts: seq<int>)
    decreases rounds
    ensures |counts| == |rounds| + 1 && counts[0] == start
  {
    if rounds == [] then [start]
    else
      var d := Decide(start, maxShards, rounds[0].desired, rounds[0].junk);
      [start] + Control(if rounds[0].ready && d.Some? then d.value else start, maxShards, rounds[1..])
  }

  /** Over any run the count stays in range. */
  lemma {:induction false} CountStaysInRange(start: int, maxShards: int, rounds: seq<Round>)
    requires 1 <= start <= maxShards
    decreases rounds
    ensures forall n <- Control(start, maxShards, rounds) :: 1 <= n <= maxShards
  {
    if rounds != [] {
      DecideMovesToward(start, maxShards, rounds[0].desired, rounds[0].junk);
      var d := Decide(start, maxShards, rounds[0].desired, rounds[0].junk);
      CountStaysInRange(if rounds[0].ready && d.Some? then d.value else start, maxShards, rounds[1..]);
    }
  }

  /** The count moves from `start` to `target` once, if at all. */
  ghost predicate MovesOnce(counts: seq<int>, start: int, target: int) {
    && (forall n <- counts :: n == start || n == target)
    && (forall i, j :: 0 <= i <= j < |counts| && counts[i] != start ==> counts[j] == counts[i])
  }

  /** While the desired value is constant the count changes at most once, from any start and however many requests
      find the reshard loop busy. */
  lemma {:induction false} ConstantDesireSettles(start: int, maxShards: int, desired: real, rounds: seq<Round>)
    requires 1 <= start <= maxShards
    requires forall r <- rounds :: r.desired == Some(desired)
    decreases rounds
    ensures MovesOnce(Control(start, maxShards, rounds), start, Clamp(Ceil(desired), maxShards))
  {
    if rounds != [] {
      assert rounds[0] in rounds && forall r <- rounds[1..] :: r in rounds;
      var d := Decide(start, maxShards, rounds[0].desired, rounds[0].junk);
      var next := if rounds[0].ready && d.Some? then d.value else start;
      DecideMovesToward(start, maxShards, rounds[0].desired, rounds[0].junk);
      ConstantDesireSettles(next, maxShards, desired, rounds[1..]);
      var rest := Control(next, maxShards, rounds[1..]);
      assert forall i :: 0 <= i < |rest| ==> rest[i] in rest;
    }
  }
}
