/** One shard's worker: batching, de-duplication and sending (stackdriver/queue_manager.go:438-545). */
module ShardWorker {
  import opened Common
  import opened Entries

  datatype Config = Config(capacity: nat, maxSamplesPerSend: nat)

  /** The most entries a batch can hold: a limit of zero still lets single samples through. */
  function BatchLimit(cfg: Config): (n: nat) {
    if cfg.maxSamplesPerSend == 0 then 1 else cfg.maxSamplesPerSend
  }

  /** Where the worker goroutine is. `Waiting` is blocked in its select, `Sending` is inside sendSamples
      with `carry` the sample to start the next batch with, and `last` set if the worker returns afterwards. */
  datatype Worker =
    | Unstarted
    | Waiting(pending: seq<Entry>, seen: set<nat>)
    | Sending(batch: seq<Entry>, carry: seq<Entry>, last: bool)
    | Done

  function InHand(w: Worker): seq<Entry> {
    match w
    case Waiting(pending, _) => pending
    case Sending(batch, carry, _) => batch + carry
    case _ => []
  }

  ghost predicate GoodBatch(cfg: Config, batch: seq<Entry>) {
    0 < |batch| <= BatchLimit(cfg) && DistinctHashes(batch)
  }

  ghost predicate ValidWorker(cfg: Config, w: Worker) {
    match w
    case Waiting(pending, seen) =>
      |pending| < BatchLimit(cfg) && DistinctHashes(pending) && seen == Hashes(pending)
    case Sending(batch, carry, last) =>
      && GoodBatch(cfg, batch) && |carry| <= 1
      && (carry != [] ==> BatchLimit(cfg) > 1 && !last)
    case _ => true
  }

  const STARTED := Waiting([], {})

  function OnReceive(cfg: Config, w: Worker, e: Entry): Worker
    requires w.Waiting?
  {
    if e.hash in w.seen then Sending(w.pending, [e], false)
    else if |w.pending| + 1 >= cfg.maxSamplesPerSend then Sending(w.pending + [e], [], false)
    else Waiting(w.pending + [e], w.seen + {e.hash})
  }

  function OnTimer(w: Worker): Worker
    requires w.Waiting?
  {
    if |w.pending| > 0 then Sending(w.pending, [], false) else w
  }

  function OnClosed(w: Worker): Worker
    requires w.Waiting?
  {
    if |w.pending| > 0 then Sending(w.pending, [], true) else Done
  }

  function OnSent(w: Worker): Worker
    requires w.Sending?
  {
    if w.last then Done else Waiting(w.carry, Hashes(w.carry))
  }

  lemma ReceiveKeeps(cfg: Config, w: Worker, e: Entry)
    requires ValidWorker(cfg, w) && w.Waiting?
    ensures ValidWorker(cfg, OnReceive(cfg, w, e))
    ensures InHand(OnReceive(cfg, w, e)) == InHand(w) + [e]
  {
    HashesSnoc(w.pending, e);
    if e.hash in w.seen {
      assert w.pending != [];
    } else {
      assert forall x <- w.pending :: x.hash in Hashes(w.pending);
    }
  }

  lemma TimerKeeps(cfg: Config, w: Worker)
    requires ValidWorker(cfg, w) && w.Waiting?
    ensures ValidWorker(cfg, OnTimer(w)) && InHand(OnTimer(w)) == InHand(w)
    ensures ValidWorker(cfg, OnClosed(w)) && InHand(OnClosed(w)) == InHand(w)
  {
  }

  lemma SentKeeps(cfg: Config, w: Worker)
    requires ValidWorker(cfg, w) && w.Sending?
    ensures ValidWorker(cfg, OnSent(w))
    ensures InHand(w) == w.batch + InHand(OnSent(w))
  {
  }

  // ---- The worker loop as the source writes it ----

  /** What the select in the worker's loop can deliver. */
  datatype Event = Recv(entry: Entry) | Timer | Closed

  /** The worker's state between two selects and the batches it has handed to sendSamples so far. */
  datatype Progress = Progress(worker: Worker, sent: seq<seq<Entry>>)

  /** A worker step followed by the sends it triggers. */
  function Settle(p: Progress, w: Worker): Progress {
    if w.Sending? then Progress(OnSent(w), p.sent + [w.batch]) else Progress(w, p.sent)
  }

  function React(cfg: Config, p: Progress, ev: Event): Progress
    requires p.worker.Waiting?
  {
    match ev
    case Recv(e) => Settle(p, OnReceive(cfg, p.worker, e))
    case Timer => Settle(p, OnTimer(p.worker))
    case Closed => Settle(p, OnClosed(p.worker))
  }

  /** The worker fed a finite script of events; after a `Closed` it has returned and ignores the rest. */
  function Follow(cfg: Config, events: seq<Event>): (p: Progress)
    ensures p.worker.Waiting? || p.worker.Done?
  {
    if events == [] then Progress(STARTED, [])
    else
      var p := Follow(cfg, events[..|events| - 1]);
      if p.worker.Waiting? then React(cfg, p, events[|events| - 1]) else p
  }

  /** The entries a script delivers before the queue closes. */
  function Received(events: seq<Event>): seq<Entry> {
    if events == [] || events[0].Closed? then []
    else (if events[0].Recv? then [events[0].entry] else []) + Received(events[1..])
  }

  lemma {:induction false} ReceivedSnoc(events: seq<Event>, ev: Event)
    ensures Received(events + [ev]) ==
      Received(events) + (if ev.Recv? && Closed !in events then [ev.entry] else [])
  {
    if events == [] {
      assert [ev][1..] == [];
    } else {
      assert (events + [ev])[1..] == events[1..] + [ev];
      ReceivedSnoc(events[1..], ev);
    }
  }

  ghost predicate ValidProgress(cfg: Config, p: Progress) {
    ValidWorker(cfg, p.worker) && forall b <- p.sent :: GoodBatch(cfg, b)
  }

  /** Everything the worker has taken from its queue, in the order it goes out. */
  function Taken(p: Progress): seq<Entry> {
    Flatten(p.sent) + InHand(p.worker)
  }

  /** Whatever the worker is fed: nothing is lost, duplicated or reordered between the queue and the batches,
      every batch is non-empty, within the limit and has at most one sample per series, and once the queue has
      closed everything received has been sent. */
  lemma {:induction false} FollowDelivers(cfg: Config, events: seq<Event>)
    ensures var p := Follow(cfg, events);
      && ValidProgress(cfg, p)
      && Taken(p) == Received(events)
      && (p.worker.Done? <==> Closed in events)
      && (Closed in events ==> Flatten(p.sent) == Received(events))
  {
    if events != [] {
      var before, ev := events[..|events| - 1], events[|events| - 1];
      assert events == before + [ev];
      FollowDelivers(cfg, before);
      ReceivedSnoc(before, ev);
      var p := Follow(cfg, before);
      if p.worker.Waiting? {
        ReactKeeps(cfg, p, ev);
      }
      assert Closed in events <==> Closed in before || ev == Closed;
    }
  }

  lemma ReactKeeps(cfg: Config, p: Progress, ev: Event)
    requires ValidProgress(cfg, p) && p.worker.Waiting?
    ensures var q := React(cfg, p, ev);
      && ValidProgress(cfg, q)
      && Taken(q) == Taken(p) + (if ev.Recv? then [ev.entry] else [])
      && (q.worker.Done? <==> ev.Closed?)
  {
    match ev {
      case Recv(e) => ReceiveKeeps(cfg, p.worker, e); SettleKeeps(cfg, p, OnReceive(cfg, p.worker, e));
      case Timer => TimerKeeps(cfg, p.worker); SettleKeeps(cfg, p, OnTimer(p.worker));
      case Closed => TimerKeeps(cfg, p.worker); SettleKeeps(cfg, p, OnClosed(p.worker));
    }
  }

  lemma SettleKeeps(cfg: Config, p: Progress, w: Worker)
    requires ValidWorker(cfg, w) && (forall b <- p.sent :: GoodBatch(cfg, b))
    ensures ValidProgress(cfg, Settle(p, w))
    ensures Taken(Settle(p, w)) == Flatten(p.sent) + InHand(w)
  {
    if w.Sending? {
      SentKeeps(cfg, w);
      FlattenSnoc(p.sent, w.batch);
    }
  }

  /** Once the worker has returned, what the script still holds changes nothing. */
  lemma {:induction false} FollowStopped(cfg: Config, events: seq<Event>, k: nat)
    requires k <= |events| && Follow(cfg, events[..k]).worker.Done?
    ensures Follow(cfg, events) == Follow(cfg, events[..k])
    decreases |events|
  {
    if k == |events| {
      assert events[..k] == events;
    } else {
      var before := events[..|events| - 1];
      assert before[..k] == events[..k];
      FollowStopped(cfg, before, k);
    }
  }

  lemma ClosedEnds(cfg: Config, events: seq<Event>, k: nat)
    requires k < |events| && events[k] == Closed && Follow(cfg, events[..k]).worker.Waiting?
    ensures Follow(cfg, events) == React(cfg, Follow(cfg, events[..k]), Closed)
    ensures Closed in events
  {
    assert events[..k + 1][..k] == events[..k];
    FollowDelivers(cfg, events[..k + 1]);
    assert events[..k + 1][k] == Closed;
    FollowStopped(cfg, events, k + 1);
  }

  // ---- When a batch goes out, in terms of what is received ----

  /** What is left of `all` when `gone` comes off its front. */
  function Left<T>(all: seq<T>, gone: seq<T>): seq<T> {
    if |gone| <= |all| then all[|gone|..] else []
  }

  /** Event k sends batch n: a full one together with the sample it delivers, one that already has a sample of the
      delivered series without it, and whatever there is when the timer fires or the queue is closed. */
  ghost predicate Cuts(cfg: Config, events: seq<Event>, sent: seq<seq<Entry>>, k: nat, n: nat)
    requires k < |events| && n < |sent|
  {
    && sent[n] != [] && DistinctHashes(sent[n]) && Closed !in events[..k]
    && match events[k]
       case Recv(e) =>
         || (|sent[n]| == BatchLimit(cfg) && Flatten(sent[..n]) + sent[n] == Received(events[..k]) + [e])
         || (e.hash in Hashes(sent[n]) && Flatten(sent[..n]) + sent[n] == Received(events[..k]))
       case _ => Flatten(sent[..n]) + sent[n] == Received(events[..k])
  }

  /** With n batches out after event k fewer samples wait than a batch holds, no two of one series, and none after a
      timer or a close. */
  ghost predicate Holds(cfg: Config, events: seq<Event>, sent: seq<seq<Entry>>, k: nat, n: nat)
    requires k < |events| && n <= |sent|
  {
    var all, gone := Received(events[..k + 1]), Flatten(sent[..n]);
    var rest := Left(all, gone);
    && all == gone + rest && |rest| < BatchLimit(cfg) && DistinctHashes(rest)
    && (!events[k].Recv? ==> rest == [])
  }

  /** `done[k]` batches have gone out with the first k events: at most one with each event, cut as it should be, and
      none is held back. */
  ghost predicate Batched(cfg: Config, events: seq<Event>, sent: seq<seq<Entry>>, done: seq<nat>) {
    && |done| == |events| + 1 && done[0] == 0 && done[|events|] == |sent|
    && forall k: nat :: k < |events| ==> BatchedAt(cfg, events, sent, done, k)
  }

  ghost predicate BatchedAt(cfg: Config, events: seq<Event>, sent: seq<seq<Entry>>, done: seq<nat>, k: nat)
    requires k < |events| && |done| == |events| + 1
  {
    && done[k] <= done[k + 1] <= done[k] + 1 && done[k + 1] <= |sent|
    && (done[k + 1] > done[k] ==> Cuts(cfg, events, sent, k, done[k]))
    && Holds(cfg, events, sent, k, done[k + 1])
  }

  lemma Cancel<T>(f: seq<T>, u: seq<T>, v: seq<T>)
    requires f + u == f + v
    ensures u == v
  {
    assert u == (f + u)[|f|..] && v == (f + v)[|f|..];
  }

  lemma ReceivedNext(events: seq<Event>, k: nat)
    requires k < |events|
    ensures Received(events[..k + 1]) ==
      Received(events[..k]) + (if events[k].Recv? && Closed !in events[..k] then [events[k].entry] else [])
  {
    assert events[..k + 1] == events[..k] + [events[k]];
    ReceivedSnoc(events[..k], events[k]);
  }

  lemma SeenTwice(batch: seq<Entry>, e: Entry)
    requires e.hash in Hashes(batch)
    ensures !DistinctHashes(batch + [e])
  {
    var x :| x in batch && x.hash == e.hash;
    var i :| 0 <= i < |batch| && batch[i] == x;
    assert (batch + [e])[i].hash == (batch + [e])[|batch|].hash;
  }

  /** Where a batch is to be sent it cannot be held back. */
  lemma {:induction false} CannotHold(cfg: Config, events: seq<Event>, a: seq<seq<Entry>>, b: seq<seq<Entry>>,
                                      k: nat, n: nat)
    requires k < |events| && n < |a| && n <= |b| && a[..n] == b[..n] && Cuts(cfg, events, a, k, n)
    ensures !Holds(cfg, events, b, k, n)
  {
    ReceivedNext(events, k);
    var f, x := Flatten(a[..n]), if events[k].Recv? then [events[k].entry] else [];
    var rest := Left(Received(events[..k + 1]), f);
    if Received(events[..k + 1]) == f + rest {
      if events[k].Recv? && f + a[n] == Received(events[..k]) && events[k].entry.hash in Hashes(a[n]) {
        Assoc(f, a[n], x);
        Cancel(f, rest, a[n] + x);
        SeenTwice(a[n], events[k].entry);
      } else {
        Cancel(f, rest, a[n]);
      }
    }
  }

  /** And there is only one batch to send. */
  lemma {:induction false} OneCut(cfg: Config, events: seq<Event>, a: seq<seq<Entry>>, b: seq<seq<Entry>>, k: nat,
                                  n: nat)
    requires k < |events| && n < |a| && n < |b| && a[..n] == b[..n]
    requires Cuts(cfg, events, a, k, n) && Cuts(cfg, events, b, k, n)
    ensures a[n] == b[n]
  {
    var f, all := Flatten(a[..n]), Received(events[..k]);
    if events[k].Recv? && f + a[n] != f + b[n] {
      var e := events[k].entry;
      if f + a[n] == all {
        NotBoth(f, a[n], b[n], all, e);
      } else {
        NotBoth(f, b[n], a[n], all, e);
      }
    }
    Cancel(f, a[n], b[n]);
  }

  lemma NotBoth(f: seq<Entry>, short: seq<Entry>, long: seq<Entry>, all: seq<Entry>, e: Entry)
    requires f + short == all && f + long == all + [e] && e.hash in Hashes(short)
    ensures !DistinctHashes(long)
  {
    Assoc(f, short, [e]);
    Cancel(f, long, short + [e]);
    SeenTwice(short, e);
  }

  /** After event k both have n batches out, or both one more. */
  lemma {:induction false} SameStep(cfg: Config, events: seq<Event>, a: seq<seq<Entry>>, b: seq<seq<Entry>>, k: nat,
                                    n: nat, i: nat, j: nat)
    requires k < |events| && n <= i <= n + 1 && n <= j <= n + 1 && i <= |a| && j <= |b| && a[..n] == b[..n]
    requires (i > n ==> Cuts(cfg, events, a, k, n)) && (j > n ==> Cuts(cfg, events, b, k, n))
    requires Holds(cfg, events, a, k, i) && Holds(cfg, events, b, k, j)
    ensures i == j && a[..i] == b[..j]
  {
    if i > n {
      CannotHold(cfg, events, a, b, k, n);
      OneCut(cfg, events, a, b, k, n);
      assert a[..i] == a[..n] + [a[n]] && b[..i] == b[..n] + [b[n]];
    } else if j > n {
      CannotHold(cfg, events, b, a, k, n);
    }
  }

  lemma {:induction false} SameUpTo(cfg: Config, events: seq<Event>, a: seq<seq<Entry>>, doneA: seq<nat>,
                                    b: seq<seq<Entry>>, doneB: seq<nat>, k: nat)
    requires Batched(cfg, events, a, doneA) && Batched(cfg, events, b, doneB) && k <= |events|
    ensures doneA[k] == doneB[k] && doneA[k] <= |a| && doneA[k] <= |b| && a[..doneA[k]] == b[..doneA[k]]
  {
    if k > 0 {
      SameUpTo(cfg, events, a, doneA, b, doneB, k - 1);
      assert BatchedAt(cfg, events, a, doneA, k - 1) && BatchedAt(cfg, events, b, doneB, k - 1);
      SameStep(cfg, events, a, b, k - 1, doneA[k - 1], doneA[k], doneB[k]);
    }
  }

  /** The rules leave a worker no choice: they determine when each batch goes out and what is in it. */
  lemma {:induction false} BatchingUnique(cfg: Config, events: seq<Event>, a: seq<seq<Entry>>, doneA: seq<nat>,
                                          b: seq<seq<Entry>>, doneB: seq<nat>)
    requires Batched(cfg, events, a, doneA) && Batched(cfg, events, b, doneB)
    ensures a == b && doneA == doneB
  {
    forall k: nat | k <= |events| ensures doneA[k] == doneB[k] {
      SameUpTo(cfg, events, a, doneA, b, doneB, k);
    }
    SameUpTo(cfg, events, a, doneA, b, doneB, |events|);
    assert a[..|a|] == a && b[..|b|] == b;
  }

  lemma KeepsBatched(cfg: Config, events: seq<Event>, sent: seq<seq<Entry>>, done: seq<nat>, ev: Event,
                     more: seq<seq<Entry>>, k: nat)
    requires |done| == |events| + 1 && k < |events| && BatchedAt(cfg, events, sent, done, k)
    ensures BatchedAt(cfg, events + [ev], sent + more, done + [|sent| + |more|], k)
  {
    assert (events + [ev])[..k] == events[..k] && (events + [ev])[..k + 1] == events[..k + 1];
    assert (sent + more)[..done[k]] == sent[..done[k]] && (sent + more)[..done[k + 1]] == sent[..done[k + 1]];
  }

  /** The worker follows the rules on every script. */
  lemma {:induction false} FollowIsBatched(cfg: Config, events: seq<Event>) returns (done: seq<nat>)
    ensures Batched(cfg, events, Follow(cfg, events).sent, done)
  {
    if events == [] {
      done := [0];
    } else {
      var before, ev := events[..|events| - 1], events[|events| - 1];
      var done0 := FollowIsBatched(cfg, before);
      var sent0, sent := Follow(cfg, before).sent, Follow(cfg, events).sent;
      assert events == before + [ev];
      var more := SendsLast(cfg, before, ev);
      done := done0 + [|sent|];
      forall k: nat | k < |events| ensures BatchedAt(cfg, events, sent, done, k) {
        if k < |before| {
          assert BatchedAt(cfg, before, sent0, done0, k);
          KeepsBatched(cfg, before, sent0, done0, ev, more, k);
        } else {
          assert events[..k] == before && events[..k + 1] == events;
          assert sent[..|sent|] == sent && sent[..|sent0|] == sent0;
        }
      }
    }
  }

  /** What the last event of a script sends. */
  lemma {:induction false} SendsLast(cfg: Config, before: seq<Event>, ev: Event) returns (more: seq<seq<Entry>>)
    ensures var events, sent0 := before + [ev], Follow(cfg, before).sent;
      var sent := Follow(cfg, events).sent;
      && sent == sent0 + more && |more| <= 1
      && sent[..|sent|] == sent && sent[..|sent0|] == sent0
      && events[..|before|] == before && events[..|events|] == events
      && (more != [] ==> Cuts(cfg, events, sent, |before|, |sent0|))
      && Holds(cfg, events, sent, |before|, |sent|)
  {
    var events := before + [ev];
    assert events[..|events| - 1] == before && events[..|events|] == events;
    FollowDelivers(cfg, before);
    FollowDelivers(cfg, events);
    var p, q := Follow(cfg, before), Follow(cfg, events);
    more := q.sent[|p.sent|..];
    assert q.sent == p.sent + more && q.sent[..|q.sent|] == q.sent && q.sent[..|p.sent|] == p.sent;
    assert Received(events) == Flatten(q.sent) + InHand(q.worker);
    assert Left(Received(events), Flatten(q.sent)) == InHand(q.worker);
    ReceivedNext(events, |before|);
    if p.worker.Waiting? && more != [] {
      LastCut(cfg, before, ev);
    }
  }

  /** The batch an event sends, if it sends one. */
  lemma {:induction false} SentBatch(cfg: Config, p: Progress, ev: Event) returns (batch: seq<Entry>)
    requires ValidProgress(cfg, p) && p.worker.Waiting? && React(cfg, p, ev).sent != p.sent
    ensures React(cfg, p, ev).sent == p.sent + [batch] && GoodBatch(cfg, batch)
    ensures match ev
      case Recv(e) =>
        || (batch == p.worker.pending && e.hash in Hashes(batch))
        || (batch == p.worker.pending + [e] && |batch| == BatchLimit(cfg))
      case _ => batch == p.worker.pending
  {
    ReactKeeps(cfg, p, ev);
    var sent := React(cfg, p, ev).sent;
    batch := sent[|p.sent|];
    assert batch in sent;
  }

  lemma {:induction false} LastCut(cfg: Config, before: seq<Event>, ev: Event)
    requires Follow(cfg, before).worker.Waiting?
    requires React(cfg, Follow(cfg, before), ev).sent != Follow(cfg, before).sent
    ensures var p, q := Follow(cfg, before), React(cfg, Follow(cfg, before), ev);
      && |q.sent| == |p.sent| + 1 && q.sent[..|p.sent|] == p.sent
      && Cuts(cfg, before + [ev], q.sent, |before|, |p.sent|)
  {
    FollowDelivers(cfg, before);
    var p := Follow(cfg, before);
    var batch := SentBatch(cfg, p, ev);
    CutsWith(cfg, before, ev, p.sent, p.worker.pending, batch);
  }

  lemma {:induction false} CutsWith(cfg: Config, before: seq<Event>, ev: Event, sent: seq<seq<Entry>>,
                                    pending: seq<Entry>, batch: seq<Entry>)
    requires Closed !in before && Flatten(sent) + pending == Received(before) && GoodBatch(cfg, batch)
    requires match ev
      case Recv(e) =>
        || (batch == pending && e.hash in Hashes(batch))
        || (batch == pending + [e] && |batch| == BatchLimit(cfg))
      case _ => batch == pending
    ensures Cuts(cfg, before + [ev], sent + [batch], |before|, |sent|)
  {
    assert (before + [ev])[..|before|] == before && (sent + [batch])[..|sent|] == sent;
    if ev.Recv? {
      Assoc(Flatten(sent), pending, [ev.entry]);
    }
  }

  /** runShard, with the channel and the timer replaced by a script of what the select delivers. */
  method RunShard(cfg: Config, events: seq<Event>)
    returns (sent: seq<seq<Entry>>, pendingSamples: seq<Entry>, returned: bool)
    ensures sent == Follow(cfg, events).sent
    ensures exists done :: Batched(cfg, events, sent, done)
    ensures returned <==> Closed in events
    ensures Flatten(sent) + pendingSamples == Received(events)
    ensures forall b <- sent :: GoodBatch(cfg, b)
    ensures returned ==> pendingSamples == []
  {
    sent, pendingSamples, returned := [], [], false;
    var seenSet: set<nat> := {};
    var k := 0;
    while k < |events|
      invariant 0 <= k <= |events|
      invariant Closed !in events[..k] && !returned
      invariant Follow(cfg, events[..k]) == Progress(Waiting(pendingSamples, seenSet), sent)
    {
      assert events[..k + 1][..k] == events[..k];
      match events[k] {
        case Recv(entry) =>
          var seen := entry.hash in seenSet;
          if !seen {
            pendingSamples := pendingSamples + [entry];
            seenSet := seenSet + {entry.hash};
          }
          if |pendingSamples| >= cfg.maxSamplesPerSend || seen {
            sent := sent + [pendingSamples];
            pendingSamples, seenSet := [], {};
          }
          if seen {
            pendingSamples := pendingSamples + [entry];
            seenSet := seenSet + {entry.hash};
          }
          assert Hashes([entry]) == {entry.hash};
        case Timer =>
          if |pendingSamples| > 0 {
            sent := sent + [pendingSamples];
            pendingSamples, seenSet := [], {};
          }
        case Closed =>
          ClosedEnds(cfg, events, k);
          if |pendingSamples| > 0 {
            sent := sent + [pendingSamples];
            pendingSamples := [];
          }
          returned := true;
          FollowDelivers(cfg, events);
          var done := FollowIsBatched(cfg, events);
          return;
      }
      k := k + 1;
    }
    assert events[..k] == events;
    FollowDelivers(cfg, events);
    var done := FollowIsBatched(cfg, events);
  }

  // ---- sendSamplesWithBackoff ----

  datatype Outcome = Stored | Recoverable | Fatal

  /** The length of the k-th sleep: the first is MinBackoff as it stands, each later one doubles up to MaxBackoff. */
  function Backoff(min: nat, max: nat, k: nat): nat {
    if k == 0 then min
    else if Backoff(min, max, k - 1) * 2 > max then max else Backoff(min, max, k - 1) * 2
  }

  function Doubled(n: nat, k: nat): nat {
    if k == 0 then n else 2 * Doubled(n, k - 1)
  }

  /** The closed form of the sleeps. The cap does not apply to the first one, so a minimum above the maximum is slept
      once. */
  lemma {:induction false} BackoffCaps(min: nat, max: nat, k: nat)
    ensures Backoff(min, max, k) == if k == 0 || Doubled(min, k) <= max then Doubled(min, k) else max
  {
    if k > 0 {
      BackoffCaps(min, max, k - 1);
    }
  }

  function Sleeps(min: nat, max: nat, n: nat): seq<nat> {
    seq(n, k requires 0 <= k < n => Backoff(min, max, k))
  }

  /** The first n outcomes ask for a retry. */
  ghost predicate AllRecoverable(outcomes: seq<Outcome>, n: nat) {
    n <= |outcomes| && forall i :: 0 <= i < n ==> outcomes[i] == Recoverable
  }

  /** Sends a batch until it is stored or fails for good. `outcomes` are the client's answers in order;
      each batch's retries are assumed to end. Every attempt sends the whole batch, and the batch is counted exactly
      once, whatever the number of retries. */
  method SendSamplesWithBackoff(minBackoff: nat, maxBackoff: nat, samples: seq<Entry>, outcomes: seq<Outcome>)
    returns (requests: seq<seq<Entry>>, sleeps: seq<nat>, succeeded: nat, failed: nat)
    requires !AllRecoverable(outcomes, |outcomes|)
    ensures 0 < |requests| <= |outcomes| && requests == seq(|requests|, _ => samples)
    ensures AllRecoverable(outcomes, |requests| - 1) && outcomes[|requests| - 1] != Recoverable
    ensures sleeps == Sleeps(minBackoff, maxBackoff, |requests| - 1)
    ensures succeeded + failed == |samples|
    ensures succeeded == if outcomes[|requests| - 1] == Stored then |samples| else 0
  {
    requests, sleeps, succeeded, failed := [], [], 0, 0;
    var backoff := minBackoff;
    while true
      invariant AllRecoverable(outcomes, |requests|)
      invariant requests == seq(|requests|, _ => samples)
      invariant sleeps == Sleeps(minBackoff, maxBackoff, |requests|)
      invariant backoff == Backoff(minBackoff, maxBackoff, |requests|)
      invariant succeeded == failed == 0
      decreases |outcomes| - |requests|
    {
      var outcome := outcomes[|requests|];
      requests := requests + [samples];
      if outcome == Stored {
        succeeded := succeeded + |samples|;
        return;
      }
      if outcome != Recoverable {
        break;
      }
      sleeps := sleeps + [backoff];
      backoff := backoff * 2;
      if backoff > maxBackoff {
        backoff := maxBackoff;
      }
    }
    failed := failed + |samples|;
  }
}
