/** How the client splits a batch into concurrent requests (stackdriver/client.go:163-249). */
module StoreChunks {
  import opened Common
  import opened Entries

  const MAX_TIMESERIESES_PER_REQUEST: nat := 200

  datatype Error = RecoverableError | OtherError

  datatype Result = Ok | Err(error: Error)

  /** What the Monitoring API answers to one request; only two status codes are worth a retry. */
  datatype Answer = Written | NoStatus | DeadlineExceeded | Unavailable | OtherCode

  /** How getConnection ends: with a connection, with the dial running into the request's deadline, or with any other
      error (credentials that cannot be loaded, a dial that fails). */
  datatype Dial = Connected | TimedOut | Failed

  predicate Worth(a: Answer) {
    a.DeadlineExceeded? || a.Unavailable?
  }

  function ChunkCount(n: nat): nat {
    (n + MAX_TIMESERIESES_PER_REQUEST - 1) / MAX_TIMESERIESES_PER_REQUEST
  }

  function ErrorCapacity(n: nat): nat {
    n / MAX_TIMESERIESES_PER_REQUEST + 1
  }

  /** A finishing order of n goroutines. */
  ghost predicate IsSchedule(order: seq<nat>, n: nat) {
    && |order| == n
    && (forall k :: 0 <= k < n ==> k in order)
    && (forall i :: 0 <= i < n ==> order[i] < n)
  }

  /** The j-th goroutine to finish is the first whose request failed. */
  ghost predicate FirstFailure(answers: seq<Answer>, order: seq<nat>, j: nat)
    requires IsSchedule(order, |answers|)
  {
    && j < |order|
    && (forall i :: 0 <= i < j ==> answers[order[i]] == Written)
    && answers[order[j]] != Written
  }

  /** The error channel has room for one error of each request, so no goroutine blocks on it. */
  lemma ErrorsFit(n: nat)
    ensures ChunkCount(n) <= ErrorCapacity(n)
    ensures 0 < n ==>
      (ChunkCount(n) - 1) * MAX_TIMESERIESES_PER_REQUEST < n <= ChunkCount(n) * MAX_TIMESERIESES_PER_REQUEST
  {
  }

  function Chunk<T>(tss: seq<T>, k: nat): seq<T>
    requires k < ChunkCount(|tss|)
  {
    var begin := k * MAX_TIMESERIESES_PER_REQUEST;
    tss[begin..if begin + MAX_TIMESERIESES_PER_REQUEST > |tss| then |tss| else begin + MAX_TIMESERIESES_PER_REQUEST]
  }

  /** The goroutines finish in the given order and send their errors; the first one sent is the one received. */
  method CollectErrors(answers: seq<Answer>, order: seq<nat>, capacity: nat) returns (result: Result)
    requires IsSchedule(order, |answers|) && |answers| <= capacity
    ensures result == Ok <==> forall a <- answers :: a == Written
    ensures result.Err? ==>
      exists j: nat ::
        && FirstFailure(answers, order, j)
        && (result.error.RecoverableError? <==> answers[order[j]] in {DeadlineExceeded, Unavailable})
  {
    var errors: seq<Error> := [];
    ghost var first: nat := 0;
    var j := 0;
    while j < |order|
      invariant 0 <= j <= |order| && |errors| <= j
      invariant errors == [] ==> forall k :: 0 <= k < j ==> answers[order[k]] == Written
      invariant errors != [] ==> FirstFailure(answers, order, first)
      invariant errors != [] ==> (errors[0].RecoverableError? <==> Worth(answers[order[first]]))
    {
      var answer := answers[order[j]];
      if answer != Written {
        assert |errors| < capacity;  // the send on the channel does not block
        if errors == [] {
          first := j;
        }
        errors := errors + [if Worth(answer) then RecoverableError else OtherError];
      }
      j := j + 1;
    }
    if |errors| > 0 {
      assert answers[order[first]] in answers;
      return Err(errors[0]);
    }
    AllWritten(answers, order);
    return Ok;
  }

  lemma AllWritten(answers: seq<Answer>, order: seq<nat>)
    requires IsSchedule(order, |answers|) && forall k :: 0 <= k < |order| ==> answers[order[k]] == Written
    ensures forall a <- answers :: a == Written
  {
    forall a <- answers ensures a == Written {
      var k :| 0 <= k < |answers| && answers[k] == a;
      assert k in order;
    }
  }

  /** The second result of getConnection: a dial that timed out is worth a retry, every other failure is final. */
  function DialError(dial: Dial): Result {
    match dial
    case Connected => Ok
    case TimedOut => Err(RecoverableError)
    case Failed => Err(OtherError)
  }

  /** Store, with the outcome of getConnection, the API's answers (one for each request) and the order in which the
      goroutines finish as parameters. The batch goes out cut into consecutive non-empty requests of at most 200, and
      Store succeeds just when every request does; otherwise it reports the error that was sent first. Without a
      connection nothing goes out and the error of the dial is the result. */
  method Store(tss: seq<Entry>, dial: Dial, answers: seq<Answer>, order: seq<nat>)
    returns (result: Result, requests: seq<seq<Entry>>)
    requires |answers| == ChunkCount(|tss|) && IsSchedule(order, |answers|)
    ensures if dial == Connected then Flatten(requests) == tss && |requests| == ChunkCount(|tss|) else requests == []
    ensures forall k :: 0 <= k < |requests| ==> requests[k] == Chunk(tss, k) && 0 < |requests[k]| <= 200
    ensures forall k :: 0 <= k < |requests| - 1 ==> |requests[k]| == 200
    ensures result == Ok <==> tss == [] || (dial == Connected && forall a <- answers :: a == Written)
    ensures tss != [] ==> (dial == TimedOut ==> result == Err(RecoverableError))
    ensures tss != [] ==> (dial == Failed ==> result == Err(OtherError))
    ensures dial == Connected && result.Err? ==>
      exists j: nat ::
        && FirstFailure(answers, order, j)
        && (result.error.RecoverableError? <==> answers[order[j]] in {DeadlineExceeded, Unavailable})
  {
    requests := [];
    if |tss| == 0 {
      return Ok, requests;
    }
    if dial != Connected {
      return DialError(dial), requests;
    }
    ErrorsFit(|tss|);
    var capacity := |tss| / MAX_TIMESERIESES_PER_REQUEST + 1;
    var i := 0;
    while i < |tss|
      invariant i == |requests| * MAX_TIMESERIESES_PER_REQUEST
      invariant |requests| <= ChunkCount(|tss|)
      invariant Flatten(requests) == tss[..if i > |tss| then |tss| else i]
      invariant forall k :: 0 <= k < |requests| ==> requests[k] == Chunk(tss, k) && 0 < |requests[k]| <= 200
    {
      var end := i + MAX_TIMESERIESES_PER_REQUEST;
      if end > |tss| {
        end := |tss|;
      }
      FlattenSnoc(requests, tss[i..end]);
      assert tss[..i] + tss[i..end] == tss[..end];
      requests := requests + [tss[i..end]];
      i := i + MAX_TIMESERIESES_PER_REQUEST;
    }
    result := CollectErrors(answers, order, capacity);
  }

  /** A batch without two samples of one series is cut into requests that share no series, so the requests that run
      concurrently never write to the same series. */
  lemma RequestsShareNoSeries(batch: seq<Entry>, j: nat, k: nat)
    requires DistinctHashes(batch) && j < k < ChunkCount(|batch|)
    ensures Hashes(Chunk(batch, j)) !! Hashes(Chunk(batch, k))
  {
    var b, c := Chunk(batch, j), Chunk(batch, k);
    forall p, q | 0 <= p < |b| && 0 <= q < |c| ensures b[p].hash != c[q].hash {
      assert b[p] == batch[j * 200 + p] && c[q] == batch[k * 200 + q];
    }
  }
}
