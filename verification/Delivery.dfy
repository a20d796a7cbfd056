/** The sharded delivery protocol of the queue manager as a transition system: concurrent appenders, one worker
    per shard, and resharding, which swaps the whole shard set (stackdriver/queue_manager.go:196-231, 344-508). */
module Delivery {
  import opened Common
  import opened Entries
  import opened ShardWorker

  datatype Shard = Shard(queue: seq<Entry>, closed: bool, worker: Worker)

  /** Where the goroutine that manages the shard set is. It holds the write lock in `Starting`, `Closing`,
      `Draining`, `StopClosing` and `Stopping`; `Launching` starts the new workers after the lock is released. */
  datatype Phase =
    | Fresh | Starting(next: nat) | Steady | Requested(n: nat)
    | Closing(next: nat) | Draining | Launching(next: nat)
    | StopClosing(next: nat) | Stopping | Stopped

  /** `inflight` are the appenders that hold the read lock and have not sent yet; `sent` logs a batch when
      sendSamples returns. `prev` is the shard set being stopped by a reshard. `assigning` is the count that the
      controller has handed to the reshard loop and not yet stored in `numShards`. */
  datatype State = State(
    prev: seq<Shard>, cur: seq<Shard>, phase: Phase, numShards: nat, assigning: Option<nat>,
    inflight: multiset<Entry>, accepted: seq<Entry>, sent: seq<seq<Entry>>, succeeded: nat, failed: nat)

  datatype Gen = Prev | Cur

  datatype Act = Receive | Fire | SeeClosed | Retry | Return(ok: bool)

  datatype Step =
    | AppendLock(e: Entry) | AppendSend(e: Entry)
    | StartLock | StartWorker | StartDone
    | Request(n: nat) | Assign | Swap | CloseQueue | CloseDone | Drained
    | StopLock
    | Work(g: Gen, i: nat, act: Act)

  function FreshShards(n: nat): (r: seq<Shard>)
    ensures |r| == n
  {
    seq(n, _ => Shard([], false, Unstarted))
  }

  function Init(): State {
    State([], FreshShards(1), Fresh, 1, None, multiset{}, [], [], 0, 0)
  }

  predicate Resharding(p: Phase) {
    p.Requested? || p.Closing? || p.Draining? || p.Launching?
  }

  predicate WriteLocked(p: Phase) {
    p.Starting? || p.Closing? || p.Draining? || p.StopClosing? || p.Stopping?
  }

  function Shards(s: State, g: Gen): seq<Shard> {
    if g == Prev then s.prev else s.cur
  }

  predicate AllDone(shards: seq<Shard>) {
    forall sh <- shards :: sh.worker == Done
  }

  predicate ActEnabled(sh: Shard, act: Act) {
    match act
    case Receive => sh.worker.Waiting? && sh.queue != []
    case Fire => sh.worker.Waiting?
    case SeeClosed => sh.worker.Waiting? && sh.queue == [] && sh.closed
    case Retry => sh.worker.Sending?
    case Return(_) => sh.worker.Sending?
  }

  function ActOn(cfg: Config, sh: Shard, act: Act): Shard
    requires ActEnabled(sh, act)
  {
    match act
    case Receive => Shard(sh.queue[1..], sh.closed, OnReceive(cfg, sh.worker, sh.queue[0]))
    case Fire => sh.(worker := OnTimer(sh.worker))
    case SeeClosed => sh.(worker := OnClosed(sh.worker))
    case Retry => sh
    case Return(_) => sh.(worker := OnSent(sh.worker))
  }

  predicate Enabled(cfg: Config, s: State, step: Step)
    requires |s.cur| > 0
  {
    match step
    case AppendLock(e) => !WriteLocked(s.phase) && s.phase != Stopped
    case AppendSend(e) => SendEnabled(cfg, s, e)
    case StartLock => s.phase == Fresh && s.inflight == multiset{}
    case StartWorker => (s.phase.Starting? || s.phase.Launching?) && s.phase.next < |s.cur|
    case StartDone => (s.phase.Starting? || s.phase.Launching?) && s.phase.next == |s.cur|
    case Request(n) => s.phase == Steady && s.assigning.None? && 0 < n
    case Assign => s.assigning.Some?
    case Swap => s.phase.Requested? && 0 < s.phase.n && s.inflight == multiset{}
    case CloseQueue => || (s.phase.Closing? && s.phase.next < |s.prev|)
                       || (s.phase.StopClosing? && s.phase.next < |s.cur|)
    case CloseDone => || (s.phase.Closing? && s.phase.next == |s.prev|)
                      || (s.phase.StopClosing? && s.phase.next == |s.cur|)
    case Drained => (s.phase == Draining && AllDone(s.prev)) || (s.phase == Stopping && AllDone(s.cur))
    case StopLock => s.phase == Steady && s.assigning.None? && s.inflight == multiset{}
    case Work(g, i, act) => WorkEnabled(s, g, i, act)
  }

  function Put(s: State, g: Gen, i: nat, sh: Shard): State
    requires i < |Shards(s, g)|
  {
    if g == Prev then s.(prev := s.prev[i := sh]) else s.(cur := s.cur[i := sh])
  }

  /** A channel with a buffer takes a sample while there is room; a channel without one hands it to a worker that
      waits for it, and the appender keeps the read lock until then. */
  predicate CanPush(cfg: Config, sh: Shard) {
    if cfg.capacity == 0 then sh.worker.Waiting? else |sh.queue| < cfg.capacity
  }

  function Push(cfg: Config, sh: Shard, e: Entry): Shard
    requires CanPush(cfg, sh)
  {
    if cfg.capacity == 0 then sh.(worker := OnReceive(cfg, sh.worker, e)) else sh.(queue := sh.queue + [e])
  }

  predicate SendEnabled(cfg: Config, s: State, e: Entry)
    requires |s.cur| > 0
  {
    e in s.inflight && CanPush(cfg, s.cur[e.hash % |s.cur|])
  }

  function Send(cfg: Config, s: State, e: Entry): State
    requires |s.cur| > 0 && SendEnabled(cfg, s, e)
  {
    var i := e.hash % |s.cur|;
    Put(s, Cur, i, Push(cfg, s.cur[i], e)).(inflight := s.inflight - multiset{e}, accepted := s.accepted + [e])
  }

  predicate WorkEnabled(s: State, g: Gen, i: nat, act: Act) {
    i < |Shards(s, g)| && ActEnabled(Shards(s, g)[i], act)
  }

  function DoWork(cfg: Config, s: State, g: Gen, i: nat, act: Act): State
    requires WorkEnabled(s, g, i, act)
  {
    var sh := Shards(s, g)[i];
    var t := Put(s, g, i, ActOn(cfg, sh, act));
    if act.Return? then
      var n := |sh.worker.batch|;
      t.(sent := s.sent + [sh.worker.batch],
         succeeded := s.succeeded + (if act.ok then n else 0),
         failed := s.failed + (if act.ok then 0 else n))
    else t
  }

  function Apply(cfg: Config, s: State, step: Step): State
    requires |s.cur| > 0 && Enabled(cfg, s, step)
  {
    match step
    case AppendLock(e) => s.(inflight := s.inflight + multiset{e})
    case AppendSend(e) => Send(cfg, s, e)
    case StartLock => s.(phase := Starting(0))
    case StartWorker =>
      var k := s.phase.next;
      Put(s, Cur, k, s.cur[k].(worker := STARTED))
        .(phase := if s.phase.Starting? then Starting(k + 1) else Launching(k + 1))
    case StartDone => s.(phase := Steady)
    case Request(n) => s.(phase := Requested(n), assigning := Some(n))
    case Assign => s.(numShards := s.assigning.value, assigning := None)
    case Swap => s.(prev := s.cur, cur := FreshShards(s.phase.n), phase := Closing(0))
    case CloseQueue =>
      var k := s.phase.next;
      if s.phase.Closing?
      then Put(s, Prev, k, s.prev[k].(closed := true)).(phase := Closing(k + 1))
      else Put(s, Cur, k, s.cur[k].(closed := true)).(phase := StopClosing(k + 1))
    case CloseDone => s.(phase := if s.phase.Closing? then Draining else Stopping)
    case Drained => if s.phase == Draining then s.(prev := [], phase := Launching(0)) else s.(phase := Stopped)
    case StopLock => s.(phase := StopClosing(0))
    case Work(g, i, act) => DoWork(cfg, s, g, i, act)
  }

  lemma ApplyHasShards(cfg: Config, s: State, step: Step)
    requires |s.cur| > 0 && Enabled(cfg, s, step)
    ensures |Apply(cfg, s, step).cur| > 0
  {
  }

  /** The state a schedule leads to, if every step of it is enabled when its turn comes. */
  function RunFrom(cfg: Config, s: State, steps: seq<Step>): (r: Option<State>)
    requires |s.cur| > 0
    ensures r.Some? ==> |r.value.cur| > 0
  {
    if steps == [] then Some(s)
    else match RunFrom(cfg, s, steps[..|steps| - 1])
      case None => None
      case Some(t) =>
        var step := steps[|steps| - 1];
        if Enabled(cfg, t, step) then ApplyHasShards(cfg, t, step); Some(Apply(cfg, t, step)) else None
  }

  function Run(cfg: Config, steps: seq<Step>): (r: Option<State>)
    ensures r.Some? ==> |r.value.cur| > 0
  {
    RunFrom(cfg, Init(), steps)
  }

  // ---- The invariant ----

  function Content(sh: Shard): seq<Entry> {
    InHand(sh.worker) + sh.queue
  }

  /** What the shard set still holds of one series: only the shard the hash selects can hold any. */
  function Held(shards: seq<Shard>, h: nat): seq<Entry> {
    if shards == [] then [] else Proj(Content(shards[h % |shards|]), h)
  }

  /** The samples of one series that have been accepted and not yet attempted, oldest first. */
  function Pending(s: State, h: nat): seq<Entry> {
    Held(s.prev, h) + Held(s.cur, h)
  }

  function Attempted(s: State): seq<Entry> {
    Flatten(s.sent)
  }

  /** The worker has seen its queue closed. */
  predicate Leaving(w: Worker) {
    w.Done? || (w.Sending? && w.last)
  }

  ghost predicate ValidShard(cfg: Config, sh: Shard, i: nat, n: nat)
    requires n > 0
  {
    && ValidWorker(cfg, sh.worker)
    && (forall e <- Content(sh) :: e.hash % n == i)
    && (Leaving(sh.worker) ==> sh.closed && sh.queue == [])
    && |sh.queue| <= cfg.capacity
  }

  ghost predicate ValidShards(cfg: Config, shards: seq<Shard>) {
    forall i :: 0 <= i < |shards| ==> ValidShard(cfg, shards[i], i, |shards|)
  }

  /** The workers below `k` run, the others have not been started and no queue is closed. */
  predicate StartedTo(shards: seq<Shard>, k: nat) {
    && k <= |shards|
    && forall i :: 0 <= i < |shards| ==> (shards[i].worker == Unstarted <==> k <= i) && !shards[i].closed
  }

  /** Every worker has been started and exactly the queues below `k` are closed. */
  predicate ClosedTo(shards: seq<Shard>, k: nat) {
    && k <= |shards|
    && forall i :: 0 <= i < |shards| ==> shards[i].worker != Unstarted && (shards[i].closed <==> i < k)
  }

  predicate PhaseInv(s: State) {
    && (s.phase.Closing? || s.phase.Draining? <==> s.prev != [])
    && match s.phase
       case Fresh => StartedTo(s.cur, 0)
       case Starting(k) => StartedTo(s.cur, k)
       case Launching(k) => StartedTo(s.cur, k)
       case Steady => StartedTo(s.cur, |s.cur|)
       case Requested(_) => StartedTo(s.cur, |s.cur|)
       case Closing(k) => ClosedTo(s.prev, k) && StartedTo(s.cur, 0)
       case Draining => ClosedTo(s.prev, |s.prev|) && StartedTo(s.cur, 0)
       case StopClosing(k) => ClosedTo(s.cur, k)
       case Stopping => ClosedTo(s.cur, |s.cur|)
       case Stopped => ClosedTo(s.cur, |s.cur|) && AllDone(s.cur)
  }

  /** The shard count last asked for. */
  function Target(s: State): nat {
    if s.assigning.Some? then s.assigning.value else s.numShards
  }

  ghost predicate LogInv(cfg: Config, s: State) {
    && (forall b <- s.sent :: GoodBatch(cfg, b))
    && s.succeeded + s.failed == |Attempted(s)|
  }

  ghost predicate OrderInv(s: State) {
    forall h: nat :: OrderAt(s, h)
  }

  /** The part of the invariant about the shard sets and the locks. */
  ghost predicate Structure(cfg: Config, s: State) {
    && |s.cur| > 0
    && ValidShards(cfg, s.prev) && ValidShards(cfg, s.cur)
    && PhaseInv(s)
    && ((WriteLocked(s.phase) || s.phase == Stopped) ==> s.inflight == multiset{})
    && (s.assigning.Some? ==> Resharding(s.phase) || s.phase == Steady)
    && (if s.phase.Requested? then Target(s) == s.phase.n > 0 else Target(s) == |s.cur|)
  }

  ghost predicate Inv(cfg: Config, s: State) {
    Structure(cfg, s) && LogInv(cfg, s) && OrderInv(s)
  }

  // ---- Each step refines one FIFO per series ----

  /** What a step does to the queue of waiting samples as seen from outside. */
  datatype Effect = Accept(e: Entry) | Attempt(batch: seq<Entry>) | Internal

  function Observe(s: State, step: Step): Effect {
    match step
    case AppendSend(e) => Accept(e)
    case Work(g, i, Return(_)) =>
      if i < |Shards(s, g)| && Shards(s, g)[i].worker.Sending? then Attempt(Shards(s, g)[i].worker.batch) else Internal
    case _ => Internal
  }

  /** Seen from one series the whole shard machinery is a FIFO: accepting a sample puts it at the back, a batch that
      has been attempted comes off the front, and every other step leaves the queue of the series as it is. */
  ghost predicate FifoStep(s: State, t: State, effect: Effect, h: nat) {
    match effect
    case Accept(e) =>
      t.accepted == s.accepted + [e] && t.sent == s.sent && Pending(t, h) == Pending(s, h) + Proj([e], h)
    case Attempt(batch) =>
      t.accepted == s.accepted && t.sent == s.sent + [batch] && Pending(s, h) == Proj(batch, h) + Pending(t, h)
    case Internal =>
      t.accepted == s.accepted && t.sent == s.sent && Pending(t, h) == Pending(s, h)
  }

  lemma HeldPut(shards: seq<Shard>, i: nat, sh: Shard, h: nat)
    requires i < |shards|
    ensures Held(shards[i := sh], h) == if h % |shards| == i then Proj(Content(sh), h) else Held(shards, h)
  {
  }

  /** A worker step passes on what the shard holds in order: a returning send takes its batch off the front. */
  lemma ActContent(cfg: Config, sh: Shard, act: Act)
    requires ActEnabled(sh, act) && ValidWorker(cfg, sh.worker)
    ensures Content(sh) == (if act.Return? then sh.worker.batch else []) + Content(ActOn(cfg, sh, act))
  {
    match act {
      case Receive => ReceiveKeeps(cfg, sh.worker, sh.queue[0]);
      case Fire => TimerKeeps(cfg, sh.worker);
      case SeeClosed => TimerKeeps(cfg, sh.worker);
      case Retry =>
      case Return(_) => SentKeeps(cfg, sh.worker);
    }
  }

  lemma ActKeeps(cfg: Config, sh: Shard, act: Act, i: nat, n: nat)
    requires 0 < n && ActEnabled(sh, act) && ValidShard(cfg, sh, i, n)
    ensures var t := ActOn(cfg, sh, act);
      && ValidShard(cfg, t, i, n)
      && t.closed == sh.closed && t.worker != Unstarted && sh.worker != Unstarted
  {
    match act {
      case Receive => ReceiveKeeps(cfg, sh.worker, sh.queue[0]);
      case Fire => TimerKeeps(cfg, sh.worker);
      case SeeClosed => TimerKeeps(cfg, sh.worker);
      case Retry =>
      case Return(_) => SentKeeps(cfg, sh.worker);
    }
    ActContent(cfg, sh, act);
    forall e <- Content(ActOn(cfg, sh, act)) ensures e in Content(sh) {}
  }

  lemma {:induction false} HeldWork(cfg: Config, shards: seq<Shard>, i: nat, act: Act, h: nat)
    requires i < |shards| && ActEnabled(shards[i], act) && ValidShard(cfg, shards[i], i, |shards|)
    ensures var out := if act.Return? then shards[i].worker.batch else [];
      Held(shards, h) == Proj(out, h) + Held(shards[i := ActOn(cfg, shards[i], act)], h)
  {
    var t := ActOn(cfg, shards[i], act);
    var out := if act.Return? then shards[i].worker.batch else [];
    HeldPut(shards, i, t, h);
    ActContent(cfg, shards[i], act);
    ProjConcat(out, Content(t), h);
    if h % |shards| != i {
      assert forall e <- out :: e in Content(shards[i]);
      ProjNone(out, h);
    }
  }

  lemma {:induction false} WorkRefinesPrev(cfg: Config, s: State, i: nat, act: Act, h: nat)
    requires WorkEnabled(s, Prev, i, act) && ValidShard(cfg, s.prev[i], i, |s.prev|)
    ensures var out := if act.Return? then s.prev[i].worker.batch else [];
      Pending(s, h) == Proj(out, h) + Pending(DoWork(cfg, s, Prev, i, act), h)
  {
    HeldWork(cfg, s.prev, i, act, h);
    var out := if act.Return? then s.prev[i].worker.batch else [];
    Assoc(Proj(out, h), Held(s.prev[i := ActOn(cfg, s.prev[i], act)], h), Held(s.cur, h));
  }

  lemma {:induction false} WorkRefinesCur(cfg: Config, s: State, i: nat, act: Act, h: nat)
    requires WorkEnabled(s, Cur, i, act) && ValidShard(cfg, s.cur[i], i, |s.cur|) && s.prev == []
    ensures var out := if act.Return? then s.cur[i].worker.batch else [];
      Pending(s, h) == Proj(out, h) + Pending(DoWork(cfg, s, Cur, i, act), h)
  {
    HeldWork(cfg, s.cur, i, act, h);
    assert Pending(s, h) == Held(s.cur, h);
    assert Pending(DoWork(cfg, s, Cur, i, act), h) == Held(s.cur[i := ActOn(cfg, s.cur[i], act)], h);
  }

  lemma {:induction false} WorkRefines(cfg: Config, s: State, g: Gen, i: nat, act: Act, h: nat)
    requires WorkEnabled(s, g, i, act) && ValidShard(cfg, Shards(s, g)[i], i, |Shards(s, g)|)
    requires g == Cur ==> s.prev == []
    ensures var effect := if act.Return? then Attempt(Shards(s, g)[i].worker.batch) else Internal;
      FifoStep(s, DoWork(cfg, s, g, i, act), effect, h)
  {
    if g == Prev {
      WorkRefinesPrev(cfg, s, i, act, h);
    } else {
      WorkRefinesCur(cfg, s, i, act, h);
    }
  }

  lemma PushKeeps(cfg: Config, sh: Shard, e: Entry, i: nat, n: nat)
    requires 0 < n && e.hash % n == i && ValidShard(cfg, sh, i, n) && CanPush(cfg, sh) && !sh.closed
    ensures var t := Push(cfg, sh, e);
      && Content(t) == Content(sh) + [e] && ValidShard(cfg, t, i, n)
      && t.closed == sh.closed && (t.worker == Unstarted <==> sh.worker == Unstarted)
  {
    if cfg.capacity == 0 {
      ReceiveKeeps(cfg, sh.worker, e);
      assert Content(Push(cfg, sh, e)) == Content(sh) + [e];
    } else {
      assert InHand(sh.worker) + (sh.queue + [e]) == Content(sh) + [e];
    }
  }

  lemma {:induction false} SendRefines(cfg: Config, s: State, e: Entry, h: nat)
    requires |s.cur| > 0 && SendEnabled(cfg, s, e)
    requires var i := e.hash % |s.cur|; ValidShard(cfg, s.cur[i], i, |s.cur|) && !s.cur[i].closed
    ensures FifoStep(s, Send(cfg, s, e), Accept(e), h)
  {
    var i := e.hash % |s.cur|;
    var c := s.cur[i];
    PushKeeps(cfg, c, e, i, |s.cur|);
    HeldPut(s.cur, i, Push(cfg, c, e), h);
    ProjConcat(Content(c), [e], h);
    if h % |s.cur| != i {
      ProjNone([e], h);
    }
  }

  lemma HeldSameContent(a: seq<Shard>, b: seq<Shard>, h: nat)
    requires |a| == |b| && forall i :: 0 <= i < |a| ==> Content(a[i]) == Content(b[i])
    ensures Held(a, h) == Held(b, h)
  {
  }

  lemma HeldDone(cfg: Config, shards: seq<Shard>, h: nat)
    requires ValidShards(cfg, shards) && AllDone(shards)
    ensures Held(shards, h) == []
  {
    if shards != [] {
      assert shards[h % |shards|] in shards;
    }
  }

  lemma ManageRefines(cfg: Config, s: State, step: Step, h: nat)
    requires Structure(cfg, s) && Enabled(cfg, s, step) && !step.Work? && !step.AppendSend?
    ensures FifoStep(s, Apply(cfg, s, step), Internal, h)
  {
    var t := Apply(cfg, s, step);
    if step.Drained? {
      if s.phase == Draining {
        HeldDone(cfg, s.prev, h);
      }
    } else if !step.Swap? {
      HeldSameContent(s.prev, t.prev, h);
      HeldSameContent(s.cur, t.cur, h);
    }
  }

  /** Every step of the protocol refines one step of the FIFO of each series. */
  lemma {:induction false} StepRefinesFifo(cfg: Config, s: State, step: Step, h: nat)
    requires Structure(cfg, s) && Enabled(cfg, s, step)
    ensures FifoStep(s, Apply(cfg, s, step), Observe(s, step), h)
  {
    match step {
      case AppendSend(e) => SendRefines(cfg, s, e, h);
      case Work(g, i, act) =>
        assert g == Cur ==> s.cur[i].worker != Unstarted;
        WorkRefines(cfg, s, g, i, act, h);
      case _ => ManageRefines(cfg, s, step, h);
    }
  }

  // ---- Every step keeps the invariant ----

  lemma FreshValid(cfg: Config, n: nat)
    ensures ValidShards(cfg, FreshShards(n)) && StartedTo(FreshShards(n), 0)
  {
  }

  lemma ValidPut(cfg: Config, shards: seq<Shard>, i: nat, sh: Shard)
    requires ValidShards(cfg, shards) && i < |shards| && ValidShard(cfg, sh, i, |shards|)
    ensures ValidShards(cfg, shards[i := sh])
  {
  }

  /** A step of a running worker of one shard set: other shards, closed queues and started workers stay as they are. */
  lemma WorkKeepsPhases(shards: seq<Shard>, i: nat, sh: Shard, k: nat)
    requires i < |shards| && shards[i].worker != Unstarted && sh.worker != Unstarted && sh.closed == shards[i].closed
    ensures StartedTo(shards, k) ==> StartedTo(shards[i := sh], k)
    ensures ClosedTo(shards, k) ==> ClosedTo(shards[i := sh], k)
  {
  }

  lemma WorkShards(cfg: Config, shards: seq<Shard>, i: nat, act: Act)
    requires ValidShards(cfg, shards) && i < |shards| && ActEnabled(shards[i], act)
    ensures var after := shards[i := ActOn(cfg, shards[i], act)];
      && ValidShards(cfg, after)
      && (forall k: nat :: StartedTo(shards, k) ==> StartedTo(after, k))
      && (forall k: nat :: ClosedTo(shards, k) ==> ClosedTo(after, k))
    ensures !AllDone(shards) && !StartedTo(shards, 0)
  {
    var sh := ActOn(cfg, shards[i], act);
    ActKeeps(cfg, shards[i], act, i, |shards|);
    ValidPut(cfg, shards, i, sh);
    forall k: nat ensures StartedTo(shards, k) ==> StartedTo(shards[i := sh], k)
      ensures ClosedTo(shards, k) ==> ClosedTo(shards[i := sh], k)
    {
      WorkKeepsPhases(shards, i, sh, k);
    }
    assert shards[i] in shards;
  }

  lemma {:induction false} WorkStructure(cfg: Config, s: State, g: Gen, i: nat, act: Act)
    requires Structure(cfg, s) && WorkEnabled(s, g, i, act)
    ensures Structure(cfg, DoWork(cfg, s, g, i, act))
  {
    WorkShards(cfg, Shards(s, g), i, act);
  }

  lemma SendStructure(cfg: Config, s: State, e: Entry)
    requires Structure(cfg, s) && SendEnabled(cfg, s, e)
    ensures Structure(cfg, Send(cfg, s, e))
  {
    var i := e.hash % |s.cur|;
    var c := s.cur[i];
    assert !c.closed;
    PushKeeps(cfg, c, e, i, |s.cur|);
    ValidPut(cfg, s.cur, i, Push(cfg, c, e));
  }

  lemma StartStructure(cfg: Config, s: State)
    requires Structure(cfg, s) && Enabled(cfg, s, StartWorker)
    ensures Structure(cfg, Apply(cfg, s, StartWorker))
  {
    var k := s.phase.next;
    ValidPut(cfg, s.cur, k, s.cur[k].(worker := STARTED));
  }

  lemma CloseStructure(cfg: Config, s: State)
    requires Structure(cfg, s) && Enabled(cfg, s, CloseQueue)
    ensures Structure(cfg, Apply(cfg, s, CloseQueue))
  {
    var k := s.phase.next;
    if s.phase.Closing? {
      ValidPut(cfg, s.prev, k, s.prev[k].(closed := true));
    } else {
      ValidPut(cfg, s.cur, k, s.cur[k].(closed := true));
    }
  }

  lemma SwapStructure(cfg: Config, s: State)
    requires Structure(cfg, s) && Enabled(cfg, s, Swap)
    ensures Structure(cfg, Apply(cfg, s, Swap))
  {
    FreshValid(cfg, s.phase.n);
  }

  lemma PhaseStructure(cfg: Config, s: State, step: Step)
    requires Structure(cfg, s) && Enabled(cfg, s, step)
    requires !step.AppendSend? && !step.Work? && !step.StartWorker? && !step.CloseQueue? && !step.Swap?
    ensures Structure(cfg, Apply(cfg, s, step))
  {
  }

  lemma {:induction false} StepStructure(cfg: Config, s: State, step: Step)
    requires Structure(cfg, s) && Enabled(cfg, s, step)
    ensures Structure(cfg, Apply(cfg, s, step))
  {
    match step {
      case AppendSend(e) => SendStructure(cfg, s, e);
      case Work(g, i, act) => WorkStructure(cfg, s, g, i, act);
      case StartWorker => StartStructure(cfg, s);
      case CloseQueue => CloseStructure(cfg, s);
      case Swap => SwapStructure(cfg, s);
      case _ => PhaseStructure(cfg, s, step);
    }
  }

  lemma ReturnLog(cfg: Config, s: State, g: Gen, i: nat, ok: bool)
    requires WorkEnabled(s, g, i, Return(ok)) && ValidWorker(cfg, Shards(s, g)[i].worker) && LogInv(cfg, s)
    ensures LogInv(cfg, DoWork(cfg, s, g, i, Return(ok)))
  {
    FlattenSnoc(s.sent, Shards(s, g)[i].worker.batch);
  }

  lemma QuietLog(cfg: Config, s: State, step: Step)
    requires |s.cur| > 0 && Enabled(cfg, s, step) && !(step.Work? && step.act.Return?)
    ensures var t := Apply(cfg, s, step); t.sent == s.sent && t.succeeded == s.succeeded && t.failed == s.failed
  {
  }

  lemma SameLog(cfg: Config, s: State, t: State)
    requires LogInv(cfg, s) && t.sent == s.sent && t.succeeded == s.succeeded && t.failed == s.failed
    ensures LogInv(cfg, t)
  {
  }

  lemma StepLog(cfg: Config, s: State, step: Step)
    requires Structure(cfg, s) && LogInv(cfg, s) && Enabled(cfg, s, step)
    ensures LogInv(cfg, Apply(cfg, s, step))
  {
    if step.Work? && step.act.Return? {
      assert ValidShard(cfg, Shards(s, step.g)[step.i], step.i, |Shards(s, step.g)|);
      ReturnLog(cfg, s, step.g, step.i, step.act.ok);
    } else {
      QuietLog(cfg, s, step);
      SameLog(cfg, s, Apply(cfg, s, step));
    }
  }

  ghost predicate OrderAt(s: State, h: nat) {
    Proj(s.accepted, h) == Proj(Attempted(s), h) + Pending(s, h)
  }

  lemma {:induction false} FifoOrder(s: State, t: State, effect: Effect, h: nat)
    requires FifoStep(s, t, effect, h) && OrderAt(s, h)
    ensures OrderAt(t, h)
  {
    match effect {
      case Accept(e) =>
        ProjConcat(s.accepted, [e], h);
        Assoc(Proj(Attempted(s), h), Pending(s, h), Proj([e], h));
      case Attempt(batch) =>
        FlattenSnoc(s.sent, batch);
        ProjConcat(Attempted(s), batch, h);
        Assoc(Proj(Attempted(s), h), Proj(batch, h), Pending(t, h));
      case Internal =>
    }
  }

  lemma {:induction false} StepOrder(cfg: Config, s: State, step: Step)
    requires Structure(cfg, s) && OrderInv(s) && Enabled(cfg, s, step)
    ensures OrderInv(Apply(cfg, s, step))
  {
    forall h: nat ensures OrderAt(Apply(cfg, s, step), h) {
      assert OrderAt(s, h);
      StepRefinesFifo(cfg, s, step, h);
      FifoOrder(s, Apply(cfg, s, step), Observe(s, step), h);
    }
  }

  lemma {:induction false} StepKeepsInv(cfg: Config, s: State, step: Step)
    requires Inv(cfg, s) && Enabled(cfg, s, step)
    ensures Inv(cfg, Apply(cfg, s, step))
  {
    StepStructure(cfg, s, step);
    StepLog(cfg, s, step);
    StepOrder(cfg, s, step);
  }

  lemma {:induction false} RunFromKeepsInv(cfg: Config, s: State, steps: seq<Step>)
    requires Inv(cfg, s) && RunFrom(cfg, s, steps).Some?
    ensures Inv(cfg, RunFrom(cfg, s, steps).value)
  {
    if steps != [] {
      var before := steps[..|steps| - 1];
      RunFromKeepsInv(cfg, s, before);
      StepKeepsInv(cfg, RunFrom(cfg, s, before).value, steps[|steps| - 1]);
    }
  }

  /** The invariant holds in every reachable state: any interleaving of appends, worker steps and any number of
      reshards to any shard counts. */
  lemma {:induction false} RunKeepsInv(cfg: Config, steps: seq<Step>)
    requires Run(cfg, steps).Some?
    ensures Inv(cfg, Run(cfg, steps).value)
  {
    FreshValid(cfg, 1);
    RunFromKeepsInv(cfg, Init(), steps);
  }

  // ---- What the protocol promises ----

  /** Some schedule leads to the state: any interleaving, any number of reshards to any shard counts. */
  ghost predicate Reachable(cfg: Config, s: State) {
    exists steps :: Run(cfg, steps) == Some(s)
  }

  lemma {:induction false} ReachableKeepsInv(cfg: Config, s: State)
    requires Reachable(cfg, s)
    ensures Inv(cfg, s)
  {
    var steps :| Run(cfg, steps) == Some(s);
    RunKeepsInv(cfg, steps);
  }

  lemma StoppedHoldsNothing(cfg: Config, s: State, h: nat)
    requires Structure(cfg, s) && s.phase == Stopped
    ensures Pending(s, h) == []
  {
    HeldDone(cfg, s.cur, h);
  }

  /** Samples of one series are attempted in the order they were appended, whatever the resharding in between,
      and all of them have been attempted once Stop has returned. */
  lemma {:induction false} OrderedDelivery(cfg: Config, s: State, h: nat)
    requires Reachable(cfg, s)
    ensures Proj(Attempted(s), h) <= Proj(s.accepted, h)
    ensures s.phase == Stopped ==> Proj(Attempted(s), h) == Proj(s.accepted, h)
  {
    ReachableKeepsInv(cfg, s);
    assert OrderAt(s, h);
    if s.phase == Stopped {
      StoppedHoldsNothing(cfg, s, h);
    }
  }

  function AllContent(shards: seq<Shard>): multiset<Entry> {
    if shards == [] then multiset{} else multiset(Content(shards[0])) + AllContent(shards[1..])
  }

  /** An entry that only shard i can hold is counted there. */
  lemma {:induction false} ContentCount(shards: seq<Shard>, i: nat, e: Entry)
    requires forall j :: 0 <= j < |shards| && j != i ==> e !in Content(shards[j])
    ensures AllContent(shards)[e] == if i < |shards| then multiset(Content(shards[i]))[e] else 0
    decreases shards
  {
    if shards != [] {
      var first, rest := Content(shards[0]), shards[1..];
      assert forall j :: 0 <= j < |rest| ==> rest[j] == shards[j + 1];
      if i == 0 {
        ContentCount(rest, |rest|, e);
      } else {
        assert e !in multiset(first);
        ContentCount(rest, i - 1, e);
      }
    }
  }

  lemma {:induction false} HeldCount(cfg: Config, shards: seq<Shard>, e: Entry)
    requires ValidShards(cfg, shards)
    ensures AllContent(shards)[e] == multiset(Held(shards, e.hash))[e]
  {
    if shards != [] {
      var i := e.hash % |shards|;
      forall j | 0 <= j < |shards| && j != i ensures e !in Content(shards[j]) {
        assert ValidShard(cfg, shards[j], j, |shards|);
      }
      ContentCount(shards, i, e);
      ProjCount(Content(shards[i]), e);
    }
  }

  lemma {:induction false} CountOne(cfg: Config, s: State, e: Entry)
    requires Inv(cfg, s)
    ensures multiset(s.accepted)[e] == multiset(Attempted(s))[e] + AllContent(s.prev)[e] + AllContent(s.cur)[e]
  {
    assert OrderAt(s, e.hash);
    ProjCount(s.accepted, e);
    ProjCount(Attempted(s), e);
    HeldCount(cfg, s.prev, e);
    HeldCount(cfg, s.cur, e);
  }

  lemma {:induction false} AllCounted(cfg: Config, s: State)
    requires Inv(cfg, s)
    ensures multiset(s.accepted) == multiset(Attempted(s)) + AllContent(s.prev) + AllContent(s.cur)
  {
    forall e: Entry ensures
      multiset(s.accepted)[e] == multiset(Attempted(s))[e] + AllContent(s.prev)[e] + AllContent(s.cur)[e]
    {
      CountOne(cfg, s, e);
    }
  }

  /** At every point each accepted sample is in exactly one place: in a queue, in a worker's hands or in the log of
      attempted batches. */
  lemma {:induction false} Conservation(cfg: Config, s: State)
    requires Reachable(cfg, s)
    ensures multiset(s.accepted) == multiset(Attempted(s)) + AllContent(s.prev) + AllContent(s.cur)
  {
    ReachableKeepsInv(cfg, s);
    AllCounted(cfg, s);
  }

  /** Once Stop has returned, every accepted sample has been attempted exactly once. */
  lemma {:induction false} StopLeavesNothing(cfg: Config, s: State)
    requires Reachable(cfg, s) && s.phase == Stopped
    ensures multiset(s.accepted) == multiset(Attempted(s))
  {
    ReachableKeepsInv(cfg, s);
    AllCounted(cfg, s);
    DoneContent(s.cur);
  }

  /** Every attempted sample is counted as succeeded or as failed, and as one of them only. */
  lemma {:induction false} CountersAddUp(cfg: Config, s: State)
    requires Reachable(cfg, s)
    ensures s.succeeded + s.failed == |Attempted(s)|
  {
    ReachableKeepsInv(cfg, s);
  }

  lemma {:induction false} DoneContent(shards: seq<Shard>)
    requires forall sh <- shards :: Content(sh) == []
    ensures AllContent(shards) == multiset{}
  {
    if shards != [] {
      DoneContent(shards[1..]);
    }
  }

  predicate Running(sh: Shard) {
    sh.worker.Waiting? || sh.worker.Sending?
  }

  /** At most one generation of workers runs, and the old one holds nothing when a new worker starts. */
  lemma {:induction false} OneGenerationRuns(cfg: Config, s: State)
    requires Reachable(cfg, s)
    ensures (exists sh <- s.prev :: Running(sh) || Content(sh) != []) ==> forall sh <- s.cur :: !Running(sh)
  {
    ReachableKeepsInv(cfg, s);
  }

  /** An appender that holds the read lock is alone with other appenders and never sends on a closed queue. */
  lemma {:induction false} NoSendOnClosed(cfg: Config, s: State, e: Entry)
    requires Reachable(cfg, s) && e in s.inflight
    ensures |s.cur| > 0 && !s.cur[e.hash % |s.cur|].closed && !WriteLocked(s.phase)
  {
    ReachableKeepsInv(cfg, s);
    assert !WriteLocked(s.phase) && s.phase != Stopped;
  }

  /** Every batch handed to the client is non-empty, within the limit and has pairwise distinct series. */
  lemma {:induction false} BatchesAreSendable(cfg: Config, s: State)
    requires Reachable(cfg, s)
    ensures forall b <- s.sent :: GoodBatch(cfg, b)
  {
    ReachableKeepsInv(cfg, s);
  }

  /** Unless a reshard to it is under way, the number of shards is the number last asked for. The controller stores that
      number after handing it over, so the swap may come first; in between its own count is the old one. */
  lemma {:induction false} ShardCountFollows(cfg: Config, s: State)
    requires Reachable(cfg, s)
    ensures |s.cur| >= 1
    ensures |s.cur| == Target(s) || s.phase == Requested(Target(s))
    ensures s.assigning.None? && !s.phase.Requested? ==> |s.cur| == s.numShards
  {
    ReachableKeepsInv(cfg, s);
  }

  // ---- Stopping a shard set ends ----

  function WorkerRank(w: Worker): nat {
    match w
    case Waiting(pending, _) => if pending == [] then 1 else 3
    case Sending(_, carry, last) => if last then 2 else if carry == [] then 2 else 4
    case _ => 0
  }

  /** How much a stopping shard still has to do. */
  function Rank(sh: Shard): nat {
    4 * |sh.queue| + WorkerRank(sh.worker)
  }

  predicate Idles(sh: Shard, act: Act) {
    act.Retry? || (act.Fire? && sh.worker.Waiting? && sh.worker.pending == [])
  }

  /** When no more samples arrive, every step of a worker other than a retry or an idle timer brings it closer to
      its end, and a running worker of a closed queue always has such a step: so a drain ends if the sends do. */
  lemma DrainDescends(cfg: Config, sh: Shard, i: nat, n: nat)
    requires 0 < n && ValidShard(cfg, sh, i, n)
    ensures forall act :: ActEnabled(sh, act) && !Idles(sh, act) ==> Rank(ActOn(cfg, sh, act)) < Rank(sh)
    ensures sh.closed && Running(sh) ==> exists act :: ActEnabled(sh, act) && !Idles(sh, act)
  {
    if Running(sh) && sh.closed {
      var act := if sh.worker.Sending? then Return(true) else if sh.queue != [] then Receive else SeeClosed;
      assert ActEnabled(sh, act) && !Idles(sh, act);
    }
  }

  /** A step that gets something done: new arrivals, retries and idle timers do not count. */
  predicate Advances(s: State, step: Step) {
    match step
    case AppendLock(_) => false
    case Request(_) => false
    case StopLock => false
    case Work(g, i, act) => i < |Shards(s, g)| && !Idles(Shards(s, g)[i], act)
    case _ => true
  }

  function TotalRank(shards: seq<Shard>): nat {
    if shards == [] then 0 else TotalRank(shards[..|shards| - 1]) + Rank(shards[|shards| - 1])
  }

  lemma {:induction false} TotalRankPut(shards: seq<Shard>, i: nat, sh: Shard)
    requires i < |shards|
    ensures TotalRank(shards[i := sh]) + Rank(shards[i]) == TotalRank(shards) + Rank(sh)
  {
    var init := shards[..|shards| - 1];
    if i < |shards| - 1 {
      TotalRankPut(init, i, sh);
      assert shards[i := sh][..|shards| - 1] == init[i := sh];
    } else {
      assert shards[i := sh][..|shards| - 1] == init;
    }
  }

  /** The steps of workers that get something done. */
  function Efforts(cfg: Config, s: State, steps: seq<Step>): nat
    requires |s.cur| > 0
  {
    if steps == [] then 0
    else
      var before, step := steps[..|steps| - 1], steps[|steps| - 1];
      var r := RunFrom(cfg, s, before);
      Efforts(cfg, s, before) + (if r.Some? && step.Work? && Advances(r.value, step) then 1 else 0)
  }

  /** The shard set that is being stopped, once all its queues are closed. */
  predicate Waits(s: State, g: Gen) {
    (g == Prev && s.phase == Draining) || (g == Cur && s.phase == Stopping)
  }

  lemma {:induction false} WaitWork(cfg: Config, s: State, g: Gen, i: nat, act: Act)
    requires Structure(cfg, s) && WorkEnabled(s, g, i, act)
    ensures var t := DoWork(cfg, s, g, i, act);
      && t.phase == s.phase
      && TotalRank(Shards(t, g)) + (if Idles(Shards(s, g)[i], act) then 0 else 1) <= TotalRank(Shards(s, g))
  {
    var sh := Shards(s, g)[i];
    assert ValidShard(cfg, sh, i, |Shards(s, g)|);
    TotalRankPut(Shards(s, g), i, ActOn(cfg, sh, act));
    if Idles(sh, act) {
      IdleKeepsRank(cfg, sh, act);
    } else {
      DrainDescends(cfg, sh, i, |Shards(s, g)|);
    }
  }

  /** While a shard set is waited for, the workers of the other one do not run and nothing else touches it. */
  lemma {:induction false} OnlyWork(cfg: Config, s: State, g: Gen, step: Step)
    requires Structure(cfg, s) && Waits(s, g) && Enabled(cfg, s, step) && !step.Drained?
    ensures step.Assign? || (step.Work? && step.g == g)
  {
  }

  lemma {:induction false} WaitStep(cfg: Config, s: State, g: Gen, step: Step)
    requires Structure(cfg, s) && Waits(s, g) && Enabled(cfg, s, step) && !step.Drained?
    ensures var t := Apply(cfg, s, step);
      && Waits(t, g)
      && TotalRank(Shards(t, g)) + (if step.Work? && Advances(s, step) then 1 else 0) <= TotalRank(Shards(s, g))
  {
    OnlyWork(cfg, s, g, step);
    if step.Work? {
      WaitWork(cfg, s, g, step.i, step.act);
    }
  }

  lemma IdleKeepsRank(cfg: Config, sh: Shard, act: Act)
    requires ActEnabled(sh, act) && Idles(sh, act)
    ensures ActOn(cfg, sh, act) == sh
  {
  }

  lemma {:induction false} DrainRun(cfg: Config, s: State, g: Gen, steps: seq<Step>)
    requires Inv(cfg, s) && Waits(s, g)
    requires RunFrom(cfg, s, steps).Some? && forall step <- steps :: !step.Drained?
    ensures var t := RunFrom(cfg, s, steps).value;
      && Inv(cfg, t) && Waits(t, g)
      && Efforts(cfg, s, steps) + TotalRank(Shards(t, g)) <= TotalRank(Shards(s, g))
  {
    RunFromKeepsInv(cfg, s, steps);
    if steps != [] {
      var before, step := steps[..|steps| - 1], steps[|steps| - 1];
      assert step in steps && forall x <- before :: x in steps;
      DrainRun(cfg, s, g, before);
      WaitStep(cfg, RunFrom(cfg, s, before).value, g, step);
    }
  }

  /** Some worker can get something done. */
  ghost predicate CanWork(cfg: Config, s: State)
    requires |s.cur| > 0
  {
    exists step :: Enabled(cfg, s, step) && step.Work? && Advances(s, step)
  }

  /** Stopping a shard set ends if the sends do: until the lock is released its workers take no more effective steps
      than the measure of what they hold, whatever else happens, and as long as one of them runs such a step is
      possible. */
  lemma {:induction false} DrainBounded(cfg: Config, s: State, g: Gen, steps: seq<Step>)
    requires Reachable(cfg, s) && |s.cur| > 0 && Waits(s, g)
    requires RunFrom(cfg, s, steps).Some? && forall step <- steps :: !step.Drained?
    ensures Efforts(cfg, s, steps) <= TotalRank(Shards(s, g))
    ensures var t := RunFrom(cfg, s, steps).value; AllDone(Shards(t, g)) || CanWork(cfg, t)
  {
    ReachableKeepsInv(cfg, s);
    DrainRun(cfg, s, g, steps);
    var t := RunFrom(cfg, s, steps).value;
    if !AllDone(Shards(t, g)) {
      var step := DrainStep(cfg, t, g);
    }
  }

  ghost function DrainStep(cfg: Config, s: State, g: Gen): (step: Step)
    requires Structure(cfg, s) && !AllDone(Shards(s, g)) && ClosedTo(Shards(s, g), |Shards(s, g)|)
    ensures Enabled(cfg, s, step) && step.Work? && Advances(s, step)
  {
    var shards := Shards(s, g);
    assert exists i: nat :: i < |shards| && shards[i].worker != Done;
    var i: nat :| i < |shards| && shards[i].worker != Done;
    DrainDescends(cfg, shards[i], i, |shards|);
    var act :| ActEnabled(shards[i], act) && !Idles(shards[i], act);
    Work(g, i, act)
  }

  ghost function RoomStep(cfg: Config, s: State): (step: Step)
    requires Structure(cfg, s) && StartedTo(s.cur, |s.cur|) && s.inflight != multiset{}
    ensures Enabled(cfg, s, step) && Advances(s, step)
  {
    var e :| e in s.inflight;
    var i := e.hash % |s.cur|;
    var sh := s.cur[i];
    assert ValidShard(cfg, sh, i, |s.cur|);
    if CanPush(cfg, sh) then AppendSend(e)
    else if sh.worker.Sending? then Work(Cur, i, Return(true)) else Work(Cur, i, Receive)
  }

  // ---- Before Start, and when nothing can happen ----

  /** Nothing is left to do: the workers run, and nobody holds a sample or a lock. */
  predicate AtRest(s: State) {
    && s.phase == Steady && s.assigning.None? && s.inflight == multiset{}
    && forall i :: 0 <= i < |s.cur| ==> Content(s.cur[i]) == []
  }

  /** A worker that has something goes on. */
  lemma {:induction false} HolderWorks(cfg: Config, s: State, i: nat)
    requires Structure(cfg, s) && s.phase == Steady && i < |s.cur| && Content(s.cur[i]) != []
    ensures exists step :: Enabled(cfg, s, step) && Advances(s, step)
  {
    var sh := s.cur[i];
    assert ValidShard(cfg, sh, i, |s.cur|);
    var act := if sh.worker.Sending? then Return(true) else if sh.queue != [] then Receive else Fire;
    assert Enabled(cfg, s, Work(Cur, i, act)) && Advances(s, Work(Cur, i, act));
  }

  /** The first queue is full, nobody reads it and an appender waits for room, with the read lock in its hands. */
  predicate Stuck(cfg: Config, s: State) {
    s.phase.Fresh? && s.inflight != multiset{} && |s.cur| == 1 && |s.cur[0].queue| >= cfg.capacity
  }

  /** Before Start there is one shard, and its queue is all that has been accepted. */
  predicate FreshShape(s: State) {
    s.phase.Fresh? ==> |s.cur| == 1 && s.accepted == s.cur[0].queue && s.cur[0].worker == Unstarted
  }

  lemma {:induction false} FreshStep(cfg: Config, s: State, step: Step)
    requires Structure(cfg, s) && FreshShape(s) && Enabled(cfg, s, step)
    ensures FreshShape(Apply(cfg, s, step))
    ensures Apply(cfg, s, step).phase.Fresh? ==> s.phase.Fresh? && (step.AppendLock? || step.AppendSend?)
  {
  }

  lemma {:induction false} FreshRun(cfg: Config, steps: seq<Step>)
    requires Run(cfg, steps).Some?
    ensures FreshShape(Run(cfg, steps).value)
  {
    if steps != [] {
      var before := steps[..|steps| - 1];
      FreshRun(cfg, before);
      RunKeepsInv(cfg, before);
      FreshStep(cfg, Run(cfg, before).value, steps[|steps| - 1]);
    }
  }

  lemma {:induction false} ReachableShape(cfg: Config, s: State)
    requires Reachable(cfg, s)
    ensures Inv(cfg, s) && FreshShape(s)
  {
    ReachableKeepsInv(cfg, s);
    var steps :| Run(cfg, steps) == Some(s);
    FreshRun(cfg, steps);
  }

  lemma {:induction false} FreshCannot(cfg: Config, s: State)
    requires Structure(cfg, s) && FreshShape(s) && Stuck(cfg, s)
    ensures forall step :: Enabled(cfg, s, step) ==> step.AppendLock?
  {
  }

  lemma {:induction false} FreshCan(cfg: Config, s: State)
    requires Structure(cfg, s) && FreshShape(s) && s.phase.Fresh? && !Stuck(cfg, s)
    ensures exists step :: Enabled(cfg, s, step) && Advances(s, step)
  {
    if s.inflight == multiset{} {
      assert Enabled(cfg, s, StartLock) && Advances(s, StartLock);
    } else {
      var e :| e in s.inflight;
      assert e.hash % 1 == 0;
      assert Enabled(cfg, s, AppendSend(e)) && Advances(s, AppendSend(e));
    }
  }

  /** After Start has got the lock the protocol never deadlocks: unless nothing is left to do, some step that gets
      something done is enabled. */
  lemma {:induction false} StartedNeverBlocks(cfg: Config, s: State)
    requires Structure(cfg, s) && !s.phase.Fresh? && !s.phase.Stopped? && !AtRest(s)
    ensures exists step :: Enabled(cfg, s, step) && Advances(s, step)
  {
    if s.phase == Steady && s.assigning.None? && s.inflight == multiset{} {
      var i: nat :| i < |s.cur| && Content(s.cur[i]) != [];
      HolderWorks(cfg, s, i);
      return;
    }
    var step: Step;
    if s.phase.Starting? || s.phase.Launching? {
      step := if s.phase.next < |s.cur| then StartWorker else StartDone;
    } else if s.phase.Closing? {
      step := if s.phase.next < |s.prev| then CloseQueue else CloseDone;
    } else if s.phase.StopClosing? {
      step := if s.phase.next < |s.cur| then CloseQueue else CloseDone;
    } else if s.phase == Draining {
      step := if AllDone(s.prev) then Drained else DrainStep(cfg, s, Prev);
    } else if s.phase == Stopping {
      step := if AllDone(s.cur) then Drained else DrainStep(cfg, s, Cur);
    } else if s.inflight != multiset{} {
      step := RoomStep(cfg, s);
    } else {
      step := if s.phase.Requested? then Swap else Assign;
    }
    assert Enabled(cfg, s, step) && Advances(s, step);
  }

  /** The protocol is deadlocked exactly when its first queue is full before Start and an appender waits for room: in
      every other reachable state in which something is left to do, a step that gets something done is enabled. */
  lemma {:induction false} DeadlockIffStuck(cfg: Config, s: State)
    requires Reachable(cfg, s) && !s.phase.Stopped? && !AtRest(s)
    ensures |s.cur| > 0 && (Stuck(cfg, s) <==> !exists step :: Enabled(cfg, s, step) && Advances(s, step))
  {
    ReachableShape(cfg, s);
    if Stuck(cfg, s) {
      FreshCannot(cfg, s);
    } else if s.phase.Fresh? {
      FreshCan(cfg, s);
    } else {
      StartedNeverBlocks(cfg, s);
    }
  }

  /** A deadlock is for good: on no continuation does Start get the lock or an appender its room. */
  lemma {:induction false} StuckStaysStuck(cfg: Config, s: State, steps: seq<Step>)
    requires Reachable(cfg, s) && |s.cur| > 0 && Stuck(cfg, s) && RunFrom(cfg, s, steps).Some?
    ensures var t := RunFrom(cfg, s, steps).value; t == s.(inflight := t.inflight) && s.inflight <= t.inflight
  {
    ReachableShape(cfg, s);
    StuckRun(cfg, s, steps);
  }

  lemma {:induction false} StuckRun(cfg: Config, s: State, steps: seq<Step>)
    requires Inv(cfg, s) && FreshShape(s) && Stuck(cfg, s) && RunFrom(cfg, s, steps).Some?
    ensures var t := RunFrom(cfg, s, steps).value; t == s.(inflight := t.inflight) && s.inflight <= t.inflight
    ensures Inv(cfg, RunFrom(cfg, s, steps).value)
  {
    RunFromKeepsInv(cfg, s, steps);
    if steps != [] {
      var before := steps[..|steps| - 1];
      StuckRun(cfg, s, before);
      FreshCannot(cfg, RunFrom(cfg, s, before).value);
    }
  }

  // ---- How many samples may be appended before Start ----

  /** The calls of Append. */
  function Calls(steps: seq<Step>): nat {
    if steps == [] then 0 else Calls(steps[..|steps| - 1]) + (if steps[|steps| - 1].AppendLock? then 1 else 0)
  }

  lemma CallStep(cfg: Config, s: State, step: Step)
    requires |s.cur| > 0 && Enabled(cfg, s, step)
    ensures var t := Apply(cfg, s, step);
      |t.accepted| + |t.inflight| == |s.accepted| + |s.inflight| + (if step.AppendLock? then 1 else 0)
  {
    if step.AppendSend? {
      assert s.inflight == s.inflight - multiset{step.e} + multiset{step.e};
    }
  }

  /** Each call has its sample accepted or waits with it. */
  lemma {:induction false} CallsAreCounted(cfg: Config, s: State, steps: seq<Step>)
    requires |s.cur| > 0 && RunFrom(cfg, s, steps).Some?
    ensures var t := RunFrom(cfg, s, steps).value;
      |t.accepted| + |t.inflight| == |s.accepted| + |s.inflight| + Calls(steps)
  {
    if steps != [] {
      var before := steps[..|steps| - 1];
      CallsAreCounted(cfg, s, before);
      CallStep(cfg, RunFrom(cfg, s, before).value, steps[|steps| - 1]);
    }
  }

  ghost predicate CanStart(cfg: Config, s: State)
    requires |s.cur| > 0
  {
    exists steps :: RunFrom(cfg, s, steps).Some? && !RunFrom(cfg, s, steps).value.phase.Fresh?
  }

  /** Start can get its lock exactly if no more than Capacity samples have been handed to Append before: one more and no
      continuation leads there. Up to that many, no call of Append has to wait for it either. */
  lemma {:induction false} StartIffRoom(cfg: Config, steps: seq<Step>)
    requires Run(cfg, steps).Some? && Run(cfg, steps).value.phase.Fresh?
    ensures var s := Run(cfg, steps).value;
      && (CanStart(cfg, s) <==> Calls(steps) <= cfg.capacity)
      && (Calls(steps) <= cfg.capacity ==> forall e <- s.inflight :: SendEnabled(cfg, s, e))
  {
    var s := Run(cfg, steps).value;
    FreshRun(cfg, steps);
    RunKeepsInv(cfg, steps);
    CallsAreCounted(cfg, Init(), steps);
    if Calls(steps) <= cfg.capacity {
      RoomToStart(cfg, s);
      forall e | e in s.inflight ensures SendEnabled(cfg, s, e) {
        assert e.hash % 1 == 0 && |s.inflight - multiset{e}| == |s.inflight| - 1;
      }
    } else {
      forall more | RunFrom(cfg, s, more).Some? ensures RunFrom(cfg, s, more).value.phase.Fresh? {
        NoRoomToStart(cfg, s, more);
      }
    }
  }

  lemma {:induction false} NoRoomToStart(cfg: Config, s: State, steps: seq<Step>)
    requires Inv(cfg, s) && FreshShape(s) && s.phase.Fresh? && |s.accepted| + |s.inflight| > cfg.capacity
    requires RunFrom(cfg, s, steps).Some?
    ensures var t := RunFrom(cfg, s, steps).value; t.phase.Fresh? && FreshShape(t) && Inv(cfg, t)
  {
    RunFromKeepsInv(cfg, s, steps);
    if steps != [] {
      var before := steps[..|steps| - 1];
      NoRoomToStart(cfg, s, before);
      var t := RunFrom(cfg, s, before).value;
      CallsAreCounted(cfg, s, before);
      assert ValidShard(cfg, t.cur[0], 0, 1);
      assert t.inflight != multiset{};
      FreshStep(cfg, t, steps[|steps| - 1]);
    }
  }

  lemma {:induction false} RoomToStart(cfg: Config, s: State)
    requires Structure(cfg, s) && FreshShape(s) && s.phase.Fresh? && |s.accepted| + |s.inflight| <= cfg.capacity
    ensures CanStart(cfg, s)
    decreases |s.inflight|
  {
    if s.inflight == multiset{} {
      OneStep(cfg, s, StartLock);
    } else {
      var e :| e in s.inflight;
      assert |s.inflight - multiset{e}| == |s.inflight| - 1;
      assert e.hash % 1 == 0 && SendEnabled(cfg, s, e);
      var t := Apply(cfg, s, AppendSend(e));
      StepStructure(cfg, s, AppendSend(e));
      FreshStep(cfg, s, AppendSend(e));
      RoomToStart(cfg, t);
      var rest :| RunFrom(cfg, t, rest).Some? && !RunFrom(cfg, t, rest).value.phase.Fresh?;
      OneStep(cfg, s, AppendSend(e));
      RunConcat(cfg, s, [AppendSend(e)], rest);
    }
  }

  lemma OneStep(cfg: Config, s: State, step: Step)
    requires |s.cur| > 0 && Enabled(cfg, s, step)
    ensures RunFrom(cfg, s, [step]) == Some(Apply(cfg, s, step))
  {
    assert [step][..0] == [];
  }

  lemma {:induction false} RunConcat(cfg: Config, s: State, a: seq<Step>, b: seq<Step>)
    requires |s.cur| > 0 && RunFrom(cfg, s, a).Some?
    ensures RunFrom(cfg, s, a + b) == RunFrom(cfg, RunFrom(cfg, s, a).value, b)
  {
    if b == [] {
      assert a + b == a;
    } else {
      RunConcat(cfg, s, a, b[..|b| - 1]);
      assert (a + b)[..|a + b| - 1] == a + b[..|b| - 1];
    }
  }

  lemma OneTooMany(cfg: Config, s: State, e: Entry)
    requires s.phase.Fresh? && |s.cur| == 1 && |s.cur[0].queue| == cfg.capacity
    ensures Enabled(cfg, s, AppendLock(e)) && Stuck(cfg, Apply(cfg, s, AppendLock(e)))
  {
    assert e in Apply(cfg, s, AppendLock(e)).inflight;
  }

  /** The deadlock is within reach for every capacity: one sample more than fits. */
  lemma {:induction false} QueueFillsBeforeStart(cfg: Config, e: Entry)
    ensures exists s :: Reachable(cfg, s) && Stuck(cfg, s)
  {
    var steps := Filling(cfg, e, cfg.capacity);
    var s := Run(cfg, steps).value;
    OneTooMany(cfg, s, e);
    Reaches(cfg, steps, AppendLock(e));
    assert Reachable(cfg, Apply(cfg, s, AppendLock(e)));
  }

  lemma Reaches(cfg: Config, steps: seq<Step>, step: Step)
    requires Run(cfg, steps).Some? && Enabled(cfg, Run(cfg, steps).value, step)
    ensures Run(cfg, steps + [step]) == Some(Apply(cfg, Run(cfg, steps).value, step))
    ensures Reachable(cfg, Apply(cfg, Run(cfg, steps).value, step))
  {
    assert (steps + [step])[..|steps|] == steps;
  }

  lemma {:induction false} Filling(cfg: Config, e: Entry, n: nat) returns (steps: seq<Step>)
    requires n <= cfg.capacity
    ensures var r := Run(cfg, steps);
      r.Some? && r.value.phase.Fresh? && |r.value.cur| == 1 && |r.value.cur[0].queue| == n
  {
    if n == 0 {
      steps := [];
    } else {
      var before := Filling(cfg, e, n - 1);
      var s := Run(cfg, before).value;
      OneStep(cfg, s, AppendLock(e));
      RunConcat(cfg, Init(), before, [AppendLock(e)]);
      var t := Apply(cfg, s, AppendLock(e));
      assert e.hash % 1 == 0 && SendEnabled(cfg, t, e);
      OneStep(cfg, t, AppendSend(e));
      RunConcat(cfg, Init(), before + [AppendLock(e)], [AppendSend(e)]);
      steps := before + [AppendLock(e)] + [AppendSend(e)];
    }
  }
}
