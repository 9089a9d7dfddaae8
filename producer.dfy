/**
 * The producer thread of `stream_chat` (bailian_service.py, lines 30-66):
 * up to `max_retries + 1` calls of the vendor API; every frame a call yields
 * is pushed onto the queue; a call that completes is followed by the `None`
 * sentinel; a call that raises is retried only when it yielded nothing and
 * attempts are left, and otherwise its exception is pushed.
 */
module Producer {
  import opened Wrappers
  import opened StreamTurn

  /** `max_retries` (line 31). */
  const MaxRetries: nat := 2

  /**
   * What one call of the API does: yields all its frames and completes, or
   * yields some frames and then raises.
   */
  datatype CallOutcome = Completed(frames: seq<Frame>) | Failed(before: seq<Frame>, error: string, requestId: Option<string>)

  /** What the `except` branch decides, or the sentinel after a completed call. */
  datatype Decision = Retry | PushError | PushSentinel

  /** Lines 55-66 (`has_yielded` is whether the call yielded a frame). */
  function Decide(attempt: nat, outcome: CallOutcome): (d: Decision)
    ensures d == Retry <==> outcome.Failed? && outcome.before == [] && attempt != MaxRetries
    ensures d == PushSentinel <==> outcome.Completed?
  {
    match outcome
    case Completed(_) => PushSentinel
    case Failed(before, _, _) => if before == [] && attempt != MaxRetries then Retry else PushError
  }

  /** The frames a call yielded before it ended. */
  function Yielded(outcome: CallOutcome): seq<Frame> {
    match outcome
    case Completed(frames) => frames
    case Failed(before, _, _) => before
  }

  /** Each yielded frame as a queue item, in order. */
  function Responses(frames: seq<Frame>): seq<QueueItem> {
    if frames == [] then []
    else Responses(frames[..|frames| - 1]) + [Response(frames[|frames| - 1])]
  }

  /**
   * The queue items pushed from attempt `attempt` on, and the number of calls
   * made; `call(a)` is the outcome of attempt `a`.
   */
  function ProduceFrom(call: nat -> CallOutcome, attempt: nat): (seq<QueueItem>, nat)
    requires attempt <= MaxRetries
    decreases MaxRetries - attempt
  {
    var o := call(attempt);
    match Decide(attempt, o)
    case Retry =>
      var rest := ProduceFrom(call, attempt + 1);
      (rest.0, rest.1 + 1)
    case PushError => (Responses(o.before) + [Raised(o.error, o.requestId)], 1)
    case PushSentinel => (Responses(o.frames) + [Sentinel], 1)
  }

  /** The producer: the retry loop, with the inner loop that pushes the frames of a call. */
  method Produce(call: nat -> CallOutcome) returns (pushed: seq<QueueItem>, calls: nat)
    ensures (pushed, calls) == ProduceFrom(call, 0)
  {
    pushed := [];
    calls := 0;
    var attempt := 0;
    var done := false;
    while !done
      invariant attempt <= MaxRetries
      invariant !done ==> (pushed == [] && calls == attempt
        && ProduceFrom(call, 0) == (ProduceFrom(call, attempt).0, ProduceFrom(call, attempt).1 + attempt))
      invariant done ==> (pushed, calls) == ProduceFrom(call, 0)
      decreases (if done then 0 else 1), MaxRetries - attempt
    {
      var outcome := call(attempt);
      calls := calls + 1;
      var hasYielded := false;
      var frames := Yielded(outcome);
      for i := 0 to |frames|
        invariant pushed == Responses(frames[..i])
        invariant hasYielded <==> i > 0
      {
        hasYielded := true;
        assert frames[..i + 1][..i] == frames[..i];
        pushed := pushed + [Response(frames[i])];
      }
      assert frames[..|frames|] == frames;
      if outcome.Completed? {
        pushed := pushed + [Sentinel];
        done := true;
      } else {
        var isLastAttempt := attempt == MaxRetries;
        if !hasYielded && !isLastAttempt {
          attempt := attempt + 1;
        } else {
          pushed := pushed + [Raised(outcome.error, outcome.requestId)];
          done := true;
        }
      }
    }
  }

  // ---------------------------------------------------------------------
  // What the producer promises.
  // ---------------------------------------------------------------------

  lemma {:induction false} ResponsesShape(frames: seq<Frame>)
    ensures |Responses(frames)| == |frames|
    ensures forall i :: 0 <= i < |frames| ==> Responses(frames)[i] == Response(frames[i])
  {
    if frames != [] {
      ResponsesShape(frames[..|frames| - 1]);
    }
  }

  predicate Terminal(q: QueueItem) {
    q.Sentinel? || q.Raised?
  }

  /**
   * From attempt `attempt` on: one attempt `a` ends the run; every attempt
   * before it raised without yielding; the items are the frames of attempt
   * `a` in order followed by one terminal item, the sentinel exactly when
   * that attempt completed.
   */
  lemma {:induction false} ProduceFromShape(call: nat -> CallOutcome, attempt: nat)
    requires attempt <= MaxRetries
    ensures exists a :: (attempt <= a <= MaxRetries
      && ProduceFrom(call, attempt).1 == a - attempt + 1
      && (forall b :: attempt <= b < a ==> call(b).Failed? && call(b).before == [])
      && ProduceFrom(call, attempt).0 ==
           Responses(Yielded(call(a))) + [if call(a).Completed? then Sentinel else Raised(call(a).error, call(a).requestId)]
      && (call(a).Failed? ==> call(a).before != [] || a == MaxRetries))
    decreases MaxRetries - attempt
  {
    var o := call(attempt);
    if Decide(attempt, o) == Retry {
      ProduceFromShape(call, attempt + 1);
      var a :| attempt + 1 <= a <= MaxRetries
        && ProduceFrom(call, attempt + 1).1 == a - (attempt + 1) + 1
        && (forall b :: attempt + 1 <= b < a ==> call(b).Failed? && call(b).before == [])
        && ProduceFrom(call, attempt + 1).0 ==
             Responses(Yielded(call(a))) + [if call(a).Completed? then Sentinel else Raised(call(a).error, call(a).requestId)]
        && (call(a).Failed? ==> call(a).before != [] || a == MaxRetries);
      assert forall b :: attempt <= b < a ==> call(b).Failed? && call(b).before == [];
    } else {
      assert attempt <= attempt <= MaxRetries;
    }
  }

  /**
   * The whole producer: at most three calls, the frames of the last call in
   * order, then exactly one terminal item, placed last; earlier calls failed
   * without output.
   */
  lemma ProduceShape(call: nat -> CallOutcome)
    ensures 1 <= ProduceFrom(call, 0).1 <= MaxRetries + 1
    ensures |ProduceFrom(call, 0).0| >= 1 && Terminal(ProduceFrom(call, 0).0[|ProduceFrom(call, 0).0| - 1])
    ensures forall i :: 0 <= i < |ProduceFrom(call, 0).0| - 1 ==> ProduceFrom(call, 0).0[i].Response?
    ensures forall b :: 0 <= b < ProduceFrom(call, 0).1 - 1 ==> call(b).Failed? && call(b).before == []
  {
    ProduceFromShape(call, 0);
    var a :| 0 <= a <= MaxRetries
      && ProduceFrom(call, 0).1 == a + 1
      && (forall b :: 0 <= b < a ==> call(b).Failed? && call(b).before == [])
      && ProduceFrom(call, 0).0 ==
           Responses(Yielded(call(a))) + [if call(a).Completed? then Sentinel else Raised(call(a).error, call(a).requestId)]
      && (call(a).Failed? ==> call(a).before != [] || a == MaxRetries);
    ResponsesShape(Yielded(call(a)));
  }

  /** A first call that completes is the only call, and its frames are pushed then the sentinel. */
  lemma FirstCallCompletes(call: nat -> CallOutcome, frames: seq<Frame>)
    requires call(0) == Completed(frames)
    ensures ProduceFrom(call, 0) == (Responses(frames) + [Sentinel], 1)
  {
  }

  /** A call that fails after yielding is not retried: its error follows its frames. */
  lemma PartialOutputIsNotRetried(call: nat -> CallOutcome, before: seq<Frame>, error: string, requestId: Option<string>)
    requires call(0) == Failed(before, error, requestId) && before != []
    ensures ProduceFrom(call, 0) == (Responses(before) + [Raised(error, requestId)], 1)
  {
  }

  /** Three silent failures make three calls and push only the last error. */
  lemma ThreeSilentFailures(call: nat -> CallOutcome)
    requires forall a: nat :: a <= MaxRetries ==> call(a).Failed? && call(a).before == []
    ensures ProduceFrom(call, 0) == ([Raised(call(MaxRetries).error, call(MaxRetries).requestId)], 3)
  {
    assert Responses([]) == [];
    assert call(2).Failed? && call(2).before == [];
    assert Decide(2, call(2)) == PushError;
    assert Responses(call(2).before) == [];
    assert Responses(call(2).before) + [Raised(call(2).error, call(2).requestId)] == [Raised(call(2).error, call(2).requestId)];
    assert ProduceFrom(call, 2) == ([Raised(call(2).error, call(2).requestId)], 1);
    assert ProduceFrom(call, 1) == ([Raised(call(2).error, call(2).requestId)], 2);
  }
}
