/**
 * What a turn of `stream_chat` promises: the finish flag is honoured at most
 * once, usage/latency/evidence ride only on the finishing event, the emitted
 * texts are the deltas of the recovered text, and the workflow watermark
 * drops replayed messages.
 */
module TurnProperties {
  import opened Wrappers
  import opened Json
  import opened PartialJson
  import opened Smoothing
  import opened StreamTurn

  function B(b: bool): nat {
    if b then 1 else 0
  }

  /** The number of events whose `is_finish` is true. */
  function FinishCount(out: seq<Emitted>): nat {
    if out == [] then 0
    else FinishCount(out[..|out| - 1]) + (if out[|out| - 1].Chunk? && out[|out| - 1].event.isFinish then 1 else 0)
  }

  /** The concatenated `text` of the chunk events. */
  function Texts(out: seq<Emitted>): string {
    if out == [] then ""
    else Texts(out[..|out| - 1]) + (if out[|out| - 1].Chunk? then out[|out| - 1].event.text else "")
  }

  /** An event that is not finishing carries no usage, no latency and no evidence. */
  predicate Quiet(m: Emitted) {
    m.Chunk? && !m.event.isFinish ==>
      m.event.usage.None? && m.event.latency.None? && m.event.ragResult == JNull && m.event.webResult == JNull
  }

  predicate AllQuiet(out: seq<Emitted>) {
    forall k :: 0 <= k < |out| ==> Quiet(out[k])
  }

  lemma {:induction false} FinishCountAppend(a: seq<Emitted>, b: seq<Emitted>)
    ensures FinishCount(a + b) == FinishCount(a) + FinishCount(b)
    decreases |b|
  {
    if b == [] {
      assert a + b == a;
    } else {
      var b' := b[..|b| - 1];
      var last := b[|b| - 1];
      assert (a + b)[..|a + b| - 1] == a + b';
      assert (a + b)[|a + b| - 1] == last;
      FinishCountAppend(a, b');
    }
  }

  lemma {:induction false} TextsAppend(a: seq<Emitted>, b: seq<Emitted>)
    ensures Texts(a + b) == Texts(a) + Texts(b)
    decreases |b|
  {
    if b == [] {
      assert a + b == a;
    } else {
      var b' := b[..|b| - 1];
      var last := b[|b| - 1];
      var piece := if last.Chunk? then last.event.text else "";
      assert (a + b)[..|a + b| - 1] == a + b';
      assert (a + b)[|a + b| - 1] == last;
      assert Texts(a + b) == Texts(a + b') + piece;
      TextsAppend(a, b');
      assert Texts(b) == Texts(b') + piece;
    }
  }

  lemma CountsAppend(a: seq<Emitted>, b: seq<Emitted>)
    ensures FinishCount(a + b) == FinishCount(a) + FinishCount(b)
    ensures Texts(a + b) == Texts(a) + Texts(b)
  {
    FinishCountAppend(a, b);
    TextsAppend(a, b);
  }

  lemma EventCounts(m: Emitted)
    ensures FinishCount([m]) == (if m.Chunk? && m.event.isFinish then 1 else 0)
    ensures Texts([m]) == (if m.Chunk? then m.event.text else "")
  {
    assert [m][..0] == [];
  }

  lemma MakeEventQuiet(text: string, finish: bool, ctx: FrameCtx)
    ensures Quiet(MakeEvent(text, finish, ctx))
    ensures MakeEvent(text, finish, ctx).event.isFinish == finish
    ensures FinishCount([MakeEvent(text, finish, ctx)]) == B(finish)
    ensures Texts([MakeEvent(text, finish, ctx)]) == text
  {
    EventCounts(MakeEvent(text, finish, ctx));
  }

  // ---------------------------------------------------------------------
  // Smoothing and the single event.
  // ---------------------------------------------------------------------

  /**
   * The smoothing loop honours the finish at most once and only when none was
   * emitted before; its texts are the rest of the delta.
   */
  /** The finish flag of the smoothing loop: honoured at most once, and only when none was emitted before. */
  lemma {:induction false} SmoothFromFlag(delta: string, step: nat, curr: nat, ctx: FrameCtx, finished: bool)
    requires step > 0 && curr <= |delta|
    ensures FinishCount(SmoothFrom(delta, step, curr, ctx, finished).0) + B(finished)
      <= B(SmoothFrom(delta, step, curr, ctx, finished).1)
    ensures finished ==> SmoothFrom(delta, step, curr, ctx, finished).1
    ensures !ctx.isFinish ==> SmoothFrom(delta, step, curr, ctx, finished).1 == finished
    ensures ctx.isFinish && !finished && curr < |delta| ==>
      FinishCount(SmoothFrom(delta, step, curr, ctx, finished).0) == 1
    decreases |delta| - curr
  {
    if curr < |delta| {
      var e := Min(curr + step, |delta|);
      var want := ctx.isFinish && e >= |delta|;
      var rest := SmoothFrom(delta, step, e, ctx, finished || want);
      var head := MakeEvent(delta[curr..e], want && !finished, ctx);
      assert SmoothFrom(delta, step, curr, ctx, finished) == ([head] + rest.0, rest.1);
      SmoothFromFlag(delta, step, e, ctx, finished || want);
      MakeEventQuiet(delta[curr..e], want && !finished, ctx);
      FinishCountAppend([head], rest.0);
      if e >= |delta| {
        assert rest.0 == [];
      }
    }
  }

  /** The smoothed events are quiet and their texts are the rest of the delta. */
  lemma {:induction false} SmoothFromTexts(delta: string, step: nat, curr: nat, ctx: FrameCtx, finished: bool)
    requires step > 0 && curr <= |delta|
    ensures AllQuiet(SmoothFrom(delta, step, curr, ctx, finished).0)
    ensures Texts(SmoothFrom(delta, step, curr, ctx, finished).0) == delta[curr..]
    decreases |delta| - curr
  {
    if curr < |delta| {
      var e := Min(curr + step, |delta|);
      var want := ctx.isFinish && e >= |delta|;
      var rest := SmoothFrom(delta, step, e, ctx, finished || want);
      var head := MakeEvent(delta[curr..e], want && !finished, ctx);
      var out := [head] + rest.0;
      assert SmoothFrom(delta, step, curr, ctx, finished).0 == out;
      SmoothFromTexts(delta, step, e, ctx, finished || want);
      MakeEventQuiet(delta[curr..e], want && !finished, ctx);
      TextsAppend([head], rest.0);
      assert delta[curr..] == delta[curr..e] + delta[e..];
      forall k | 0 <= k < |out| ensures Quiet(out[k]) {
        if k > 0 {
          assert out[k] == rest.0[k - 1];
        }
      }
    }
  }

  /**
   * The smoothing loop honours the finish at most once and only when none was
   * emitted before; its texts are the rest of the delta.
   */
  lemma SmoothFromFacts(delta: string, step: nat, curr: nat, ctx: FrameCtx, finished: bool)
    requires step > 0 && curr <= |delta|
    ensures FinishCount(SmoothFrom(delta, step, curr, ctx, finished).0) + B(finished)
      <= B(SmoothFrom(delta, step, curr, ctx, finished).1)
    ensures finished ==> SmoothFrom(delta, step, curr, ctx, finished).1
    ensures !ctx.isFinish ==> SmoothFrom(delta, step, curr, ctx, finished).1 == finished
    ensures ctx.isFinish && !finished && curr < |delta| ==>
      FinishCount(SmoothFrom(delta, step, curr, ctx, finished).0) == 1
    ensures AllQuiet(SmoothFrom(delta, step, curr, ctx, finished).0)
    ensures Texts(SmoothFrom(delta, step, curr, ctx, finished).0) == delta[curr..]
  {
    SmoothFromFlag(delta, step, curr, ctx, finished);
    SmoothFromTexts(delta, step, curr, ctx, finished);
  }

  /**
   * The smoothed events are the sub-chunks of the delta in order, each with the
   * frame's shared fields, and no event but the last is finishing.
   */
  lemma {:induction false} SmoothEventsAreChunks(delta: string, step: nat, curr: nat, ctx: FrameCtx, finished: bool)
    requires step > 0
    ensures |SmoothFrom(delta, step, curr, ctx, finished).0| == |ChunksFrom(delta, step, curr)|
    ensures forall k :: 0 <= k < |ChunksFrom(delta, step, curr)| ==>
      SmoothFrom(delta, step, curr, ctx, finished).0[k].Chunk? &&
      SmoothFrom(delta, step, curr, ctx, finished).0[k]
        == MakeEvent(ChunksFrom(delta, step, curr)[k], SmoothFrom(delta, step, curr, ctx, finished).0[k].event.isFinish, ctx)
    ensures forall k :: 0 <= k < |ChunksFrom(delta, step, curr)| - 1 ==>
      SmoothFrom(delta, step, curr, ctx, finished).0[k].Chunk? &&
      !SmoothFrom(delta, step, curr, ctx, finished).0[k].event.isFinish
    decreases |delta| - curr
  {
    if curr < |delta| {
      var e := Min(curr + step, |delta|);
      var want := ctx.isFinish && e >= |delta|;
      SmoothEventsAreChunks(delta, step, e, ctx, finished || want);
      var out := SmoothFrom(delta, step, curr, ctx, finished).0;
      var rest := SmoothFrom(delta, step, e, ctx, finished || want).0;
      var chunks := ChunksFrom(delta, step, curr);
      assert out[1..] == rest;
      assert chunks[1..] == ChunksFrom(delta, step, e);
      forall k | 0 <= k < |chunks| - 1
        ensures out[k].Chunk? && !out[k].event.isFinish
      {
        if k == 0 {
          assert ChunksFrom(delta, step, e) != [];
        } else {
          assert out[k] == rest[k - 1];
        }
      }
    }
  }

  /** The events of one delta: finish at most once, quiet otherwise, texts equal to the delta. */
  lemma EmitDeltaFacts(delta: string, newLen: nat, ctx: FrameCtx, finished: bool)
    ensures FinishCount(EmitDelta(delta, newLen, ctx, finished).0) + B(finished) <= B(EmitDelta(delta, newLen, ctx, finished).1)
    ensures finished ==> EmitDelta(delta, newLen, ctx, finished).1
    ensures ctx.isFinish && !finished ==> FinishCount(EmitDelta(delta, newLen, ctx, finished).0) == 1
    ensures AllQuiet(EmitDelta(delta, newLen, ctx, finished).0)
    ensures Texts(EmitDelta(delta, newLen, ctx, finished).0) == delta
  {
    if |delta| > SmoothThreshold {
      SmoothFromFacts(delta, Step(|delta|), 0, ctx, finished);
    } else if delta != "" || ctx.isFinish || (ctx.sources.Some? && newLen == 0) {
      MakeEventQuiet(delta, ctx.isFinish && !finished, ctx);
    }
  }

  // ---------------------------------------------------------------------
  // One frame.
  // ---------------------------------------------------------------------

  /**
   * The `full_text` recovered from an OK frame, `None` for an error frame, a
   * workflow message that raises, or a failed recovery.
   */
  function FrameText(s: TurnState, f: Frame, codec: Codec): Option<string> {
    if !f.statusOk then None
    else match ReadWorkflow(f.workflowMessage, s.lastSeqId)
    case Failure(_) => None
    case Success(wf) =>
      match Recover(ParseSource(Accumulate(s.workflowBuffer, s.lastSeqId, wf).0, f.text), codec)
      case Success(rc) => Some(rc.fullText)
      case Failure(_) => None
  }

  /**
   * One frame never emits a second finish, keeps `finished_emitted` once set,
   * sends usage, latency and evidence only on the finishing event, and never
   * lowers the watermark or shortens the workflow buffer.
   */
  lemma StepFrameFinishes(s: TurnState, f: Frame, codec: Codec, now: int)
    ensures FinishCount(StepFrame(s, f, codec, now).out) + B(s.finishedEmitted) <= B(StepFrame(s, f, codec, now).state.finishedEmitted)
    ensures s.finishedEmitted ==> StepFrame(s, f, codec, now).state.finishedEmitted
    ensures AllQuiet(StepFrame(s, f, codec, now).out)
    ensures StepFrame(s, f, codec, now).state.lastSeqId >= s.lastSeqId
    ensures s.workflowBuffer <= StepFrame(s, f, codec, now).state.workflowBuffer
  {
    if !f.statusOk {
      EventCounts(Error(ErrorMessage(f), None));
    } else {
      match ReadWorkflow(f.workflowMessage, s.lastSeqId)
      case Failure(e) =>
        EventCounts(Error(e, None));
      case Success(wf) =>
        var acc := Accumulate(s.workflowBuffer, s.lastSeqId, wf);
        AccumulateWatermark(s.workflowBuffer, s.lastSeqId, wf);
        match Recover(ParseSource(acc.0, f.text), codec)
        case Failure(e) =>
          EventCounts(Error(e, None));
        case Success(rc) =>
          EmitDeltaFacts(Delta(rc.fullText, s.lastTextLen), |rc.fullText|, FrameContext(f, rc, now), s.finishedEmitted);
    }
  }

  /**
   * The texts a frame emits are its delta: the recovered text past the old
   * `last_text_len`, after which `last_text_len` is the recovered length.
   * Error frames, workflow messages that raise and failed recoveries emit no
   * text and leave the length.
   */
  lemma StepFrameTexts(s: TurnState, f: Frame, codec: Codec, now: int)
    ensures FrameText(s, f, codec).Some? ==>
      Texts(StepFrame(s, f, codec, now).out) == Delta(FrameText(s, f, codec).value, s.lastTextLen)
      && StepFrame(s, f, codec, now).state.lastTextLen == |FrameText(s, f, codec).value|
      && !StepFrame(s, f, codec, now).stop
    ensures FrameText(s, f, codec).None? ==>
      Texts(StepFrame(s, f, codec, now).out) == ""
      && StepFrame(s, f, codec, now).state.lastTextLen == s.lastTextLen
  {
    if !f.statusOk {
      EventCounts(Error(ErrorMessage(f), None));
    } else {
      match ReadWorkflow(f.workflowMessage, s.lastSeqId)
      case Failure(e) =>
        EventCounts(Error(e, None));
      case Success(wf) =>
        var acc := Accumulate(s.workflowBuffer, s.lastSeqId, wf);
        match Recover(ParseSource(acc.0, f.text), codec)
        case Failure(e) =>
          EventCounts(Error(e, None));
        case Success(rc) =>
          EmitDeltaFacts(Delta(rc.fullText, s.lastTextLen), |rc.fullText|, FrameContext(f, rc, now), s.finishedEmitted);
    }
  }

  /** The first finishing frame of a turn whose text is recovered emits exactly one finishing event. */
  lemma FirstFinishIsEmitted(s: TurnState, f: Frame, codec: Codec, now: int)
    requires !s.finishedEmitted && IsFinish(f.finishReason) && FrameText(s, f, codec).Some?
    ensures FinishCount(StepFrame(s, f, codec, now).out) == 1
    ensures StepFrame(s, f, codec, now).state.finishedEmitted
  {
    var acc := Accumulate(s.workflowBuffer, s.lastSeqId, ReadWorkflow(f.workflowMessage, s.lastSeqId).value);
    var rc := Recover(ParseSource(acc.0, f.text), codec).value;
    EmitDeltaFacts(Delta(rc.fullText, s.lastTextLen), |rc.fullText|, FrameContext(f, rc, now), s.finishedEmitted);
    StepFrameFinishes(s, f, codec, now);
  }

  /** Once a finish has been emitted, a later finishing frame is sent with `is_finish` false. */
  lemma LaterFinishSuppressed(s: TurnState, f: Frame, codec: Codec, now: int)
    requires s.finishedEmitted
    ensures FinishCount(StepFrame(s, f, codec, now).out) == 0
    ensures forall k :: 0 <= k < |StepFrame(s, f, codec, now).out| && StepFrame(s, f, codec, now).out[k].Chunk? ==>
      StepFrame(s, f, codec, now).out[k].event.latency.None?
  {
    var out := StepFrame(s, f, codec, now).out;
    StepFrameFinishes(s, f, codec, now);
    forall k | 0 <= k < |out| && out[k].Chunk?
      ensures out[k].event.latency.None?
    {
      NoFinishAnywhere(out, k);
    }
  }

  lemma {:induction false} NoFinishAnywhere(out: seq<Emitted>, k: nat)
    requires FinishCount(out) == 0 && k < |out| && out[k].Chunk?
    ensures !out[k].event.isFinish
  {
    CountsAppend(out[..k], out[k..]);
    CountsAppend([out[k]], out[k + 1..]);
    assert out[k..] == [out[k]] + out[k + 1..];
    assert out == out[..k] + out[k..];
    EventCounts(out[k]);
  }

  /** A recovered text shorter than the last one emits nothing and lowers `last_text_len`. */
  lemma ShrinkingTextEmitsNoText(s: TurnState, f: Frame, codec: Codec, now: int)
    requires FrameText(s, f, codec).Some? && |FrameText(s, f, codec).value| < s.lastTextLen
    ensures Texts(StepFrame(s, f, codec, now).out) == ""
    ensures StepFrame(s, f, codec, now).state.lastTextLen < s.lastTextLen
  {
    StepFrameTexts(s, f, codec, now);
  }

  // ---------------------------------------------------------------------
  // The workflow watermark.
  // ---------------------------------------------------------------------

  /**
   * Content is appended exactly when it is non-empty and its id is above the
   * watermark or -1; the watermark moves exactly when the id is above it.
   */
  lemma AccumulateWatermark(buf: string, last: int, wf: Option<WorkflowMessage>)
    ensures Accumulate(buf, last, wf).1 >= last
    ensures buf <= Accumulate(buf, last, wf).0
    ensures Accumulate(buf, last, wf).0 != buf <==>
      wf.Some? && wf.value.content != "" && (wf.value.seqId > last || wf.value.seqId == -1)
    ensures Accumulate(buf, last, wf).0 != buf ==> Accumulate(buf, last, wf).0 == buf + wf.value.content
    ensures Accumulate(buf, last, wf).1 != last <==> wf.Some? && wf.value.content != "" && wf.value.seqId > last
  {
    if wf.Some? && wf.value.content != "" && (wf.value.seqId > last || wf.value.seqId == -1) {
      assert |Accumulate(buf, last, wf).0| > |buf|;
    }
  }

  /** A numbered message delivered twice is appended once. */
  lemma ReplayedMessageIgnored(buf: string, last: int, w: WorkflowMessage)
    requires w.seqId != -1
    ensures Accumulate(Accumulate(buf, last, Some(w)).0, Accumulate(buf, last, Some(w)).1, Some(w))
      == Accumulate(buf, last, Some(w))
  {
  }

  /** A message without a sequence id is appended every time it arrives. */
  lemma UnnumberedMessageRepeats(buf: string, last: int, content: string)
    requires content != "" && last >= -1
    ensures Accumulate(Accumulate(buf, last, Some(WorkflowMessage(-1, content))).0, last,
                       Some(WorkflowMessage(-1, content))).0 == buf + content + content
  {
  }

  /**
   * Reading a workflow message raises exactly when its content is truthy and
   * either its sequence id is not a number or its content is not a string
   * and would be appended (id above the watermark, or -1).
   */
  lemma ReadWorkflowRaisesIff(raw: Option<RawWorkflowMessage>, last: int)
    ensures ReadWorkflow(raw, last).Failure? <==>
      raw.Some? && Truthy(raw.value.content) &&
      (raw.value.seqId.None? ||
       (!raw.value.content.JStr? && (raw.value.seqId.value > last || raw.value.seqId.value == -1)))
    ensures ReadWorkflow(raw, last).Failure? && raw.value.seqId.None? ==> ReadWorkflow(raw, last).error == SeqIdNotComparable
    ensures ReadWorkflow(raw, last).Failure? && raw.value.seqId.Some? ==> ReadWorkflow(raw, last).error == ContentNotAString
  {
  }

  /**
   * A numbered message with non-empty string content is accumulated as that content;
   * an absent, empty or null content is skipped whatever its sequence id.
   */
  lemma StringContentIsRead(raw: Option<RawWorkflowMessage>, last: int)
    ensures raw.Some? && raw.value.seqId.Some? && raw.value.content.JStr? && raw.value.content.s != "" ==>
      ReadWorkflow(raw, last) == Success(Some(WorkflowMessage(raw.value.seqId.value, raw.value.content.s)))
    ensures raw.Some? && !Truthy(raw.value.content) ==> ReadWorkflow(raw, last) == Success(None)
  {
  }

  /**
   * A workflow message that raises ends the turn with one error event without
   * a request id, and the turn state is left as it was.
   */
  lemma WorkflowErrorEndsTurn(s: TurnState, f: Frame, codec: Codec, now: int)
    requires f.statusOk && ReadWorkflow(f.workflowMessage, s.lastSeqId).Failure?
    ensures StepFrame(s, f, codec, now) == StepResult(s, [Error(ReadWorkflow(f.workflowMessage, s.lastSeqId).error, None)], true)
    ensures FrameText(s, f, codec).None?
  {
  }

  /** Line 112: the exception's own `request_id` is reported when it has one, else `unknown`. */
  lemma RaisedEventRequestId(error: string, requestId: Option<string>)
    ensures RaisedEvent(error, requestId).Error?
    ensures RaisedEvent(error, requestId).error == error
    ensures requestId.Some? ==> RaisedEvent(error, requestId).requestId == requestId
    ensures requestId.None? ==> RaisedEvent(error, requestId).requestId == Some(UnknownRequest)
  {
  }

  // ---------------------------------------------------------------------
  // The whole turn.
  // ---------------------------------------------------------------------

  /** Across the rest of a turn at most one finishing event is sent, none once one was. */
  lemma {:induction false} RunFinishesAtMostOnce(s: TurnState, items: seq<QueueItem>, k: nat, codec: Codec, clock: nat -> int)
    ensures FinishCount(RunFrom(s, items, k, codec, clock)) + B(s.finishedEmitted) <= 1
    ensures AllQuiet(RunFrom(s, items, k, codec, clock))
    decreases |items| - k
  {
    if k < |items| {
      match items[k]
      case Sentinel =>
      case Raised(e, rid) =>
        EventCounts(RaisedEvent(e, rid));
      case Response(f) =>
        var r := StepFrame(s, f, codec, clock(k));
        StepFrameFinishes(s, f, codec, clock(k));
        var rest := if r.stop then [] else RunFrom(r.state, items, k + 1, codec, clock);
        if !r.stop {
          RunFinishesAtMostOnce(r.state, items, k + 1, codec, clock);
        }
        CountsAppend(r.out, rest);
        QuietAppend(r.out, rest);
    }
  }

  lemma QuietAppend(a: seq<Emitted>, b: seq<Emitted>)
    requires AllQuiet(a) && AllQuiet(b)
    ensures AllQuiet(a + b)
  {
    forall k | 0 <= k < |a + b| ensures Quiet((a + b)[k]) {
      if k >= |a| {
        assert (a + b)[k] == b[k - |a|];
      }
    }
  }

  /**
   * The whole generator: at most one event has `is_finish` true, and usage,
   * latency, `rag_result` and `web_result` are set only on that event.
   */
  lemma TurnFinishesAtMostOnce(items: seq<QueueItem>, codec: Codec, clock: nat -> int)
    ensures FinishCount([Init] + RunFrom(Start, items, 0, codec, clock)) <= 1
    ensures AllQuiet([Init] + RunFrom(Start, items, 0, codec, clock))
  {
    RunFinishesAtMostOnce(Start, items, 0, codec, clock);
    EventCounts(Init);
    CountsAppend([Init], RunFrom(Start, items, 0, codec, clock));
    QuietAppend([Init], RunFrom(Start, items, 0, codec, clock));
  }

  /** Every frame's recovered text extends the one before it, starting from `prev`. */
  predicate Extending(s: TurnState, items: seq<QueueItem>, k: nat, prev: string, codec: Codec, clock: nat -> int)
    decreases |items| - k
  {
    if k >= |items| || !items[k].Response? then true
    else
      var f := items[k].frame;
      var r := StepFrame(s, f, codec, clock(k));
      var t := FrameText(s, f, codec);
      if r.stop then true
      else if t.Some? then prev <= t.value && Extending(r.state, items, k + 1, t.value, codec, clock)
      else Extending(r.state, items, k + 1, prev, codec, clock)
  }

  /** The last text the turn recovers, `prev` when no later frame recovers one. */
  function LastText(s: TurnState, items: seq<QueueItem>, k: nat, prev: string, codec: Codec, clock: nat -> int): string
    decreases |items| - k
  {
    if k >= |items| || !items[k].Response? then prev
    else
      var f := items[k].frame;
      var r := StepFrame(s, f, codec, clock(k));
      var t := FrameText(s, f, codec);
      if r.stop then prev
      else LastText(r.state, items, k + 1, if t.Some? then t.value else prev, codec, clock)
  }

  /** A frame that does not stop the run, unfolded: its events, its text and the rest of the run. */
  lemma RunStep(s: TurnState, items: seq<QueueItem>, k: nat, prev: string, codec: Codec, clock: nat -> int)
    requires k < |items| && items[k].Response?
    requires !StepFrame(s, items[k].frame, codec, clock(k)).stop
    requires s.lastTextLen == |prev| && Extending(s, items, k, prev, codec, clock)
    ensures var r := StepFrame(s, items[k].frame, codec, clock(k));
      var t := FrameText(s, items[k].frame, codec);
      var next := if t.Some? then t.value else prev;
      && RunFrom(s, items, k, codec, clock) == r.out + RunFrom(r.state, items, k + 1, codec, clock)
      && LastText(s, items, k, prev, codec, clock) == LastText(r.state, items, k + 1, next, codec, clock)
      && Extending(r.state, items, k + 1, next, codec, clock)
      && r.state.lastTextLen == |next|
      && prev + Texts(r.out) == next
  {
    var f := items[k].frame;
    StepFrameTexts(s, f, codec, clock(k));
    var t := FrameText(s, f, codec);
    if t.Some? {
      assert t.value[..|prev|] == prev;
    }
  }

  /**
   * When each recovered text extends the previous one, the texts the turn
   * emits concatenate to the last recovered text.
   */
  lemma {:induction false} RunTextsReconstruct(s: TurnState, items: seq<QueueItem>, k: nat, prev: string,
                                               codec: Codec, clock: nat -> int)
    requires s.lastTextLen == |prev| && Extending(s, items, k, prev, codec, clock)
    ensures prev + Texts(RunFrom(s, items, k, codec, clock)) == LastText(s, items, k, prev, codec, clock)
    decreases |items| - k
  {
    if k < |items| {
      match items[k]
      case Sentinel =>
      case Raised(e, rid) =>
        EventCounts(RaisedEvent(e, rid));
      case Response(f) =>
        var r := StepFrame(s, f, codec, clock(k));
        if r.stop {
          StepFrameTexts(s, f, codec, clock(k));
          assert RunFrom(s, items, k, codec, clock) == r.out;
        } else {
          var t := FrameText(s, f, codec);
          var next := if t.Some? then t.value else prev;
          var rest := RunFrom(r.state, items, k + 1, codec, clock);
          RunStep(s, items, k, prev, codec, clock);
          RunTextsReconstruct(r.state, items, k + 1, next, codec, clock);
          TextsAppend(r.out, rest);
        }
    }
  }

  /** The texts of a whole turn whose recovered texts only grow concatenate to its final text. */
  lemma TurnTextsReconstruct(items: seq<QueueItem>, codec: Codec, clock: nat -> int)
    requires Extending(Start, items, 0, "", codec, clock)
    ensures Texts([Init] + RunFrom(Start, items, 0, codec, clock)) == LastText(Start, items, 0, "", codec, clock)
  {
    RunTextsReconstruct(Start, items, 0, "", codec, clock);
    EventCounts(Init);
    CountsAppend([Init], RunFrom(Start, items, 0, codec, clock));
  }
}
