/**
 * The consumer side of `BailianService.stream_chat`
 * (bailian_service.py, lines 73-535): the turn-local state machine that
 * turns the vendor's queue of frames into the JSON events sent to the
 * router. Each frame is folded into four counters (`last_text_len`,
 * `finished_emitted`, `accumulated_workflow_content`,
 * `last_workflow_seq_id`); its text is recovered, cut into a delta,
 * possibly smoothed into sub-chunks, and decorated with sources, usage,
 * latency and evidence, with the finish flag honoured once per turn.
 */
module StreamTurn {
  import opened Wrappers
  import opened Json
  import opened PyText
  import opened PartialJson
  import opened ServiceSources
  import opened TokenUsage
  import opened Smoothing

  // ---------------------------------------------------------------------
  // Frames, queue items and events.
  // ---------------------------------------------------------------------

  /**
   * `output.workflow_message` when it is a dict, as the SDK gives it: its
   * `node_msg_seq_id` (default -1; `None` when the value is not a number,
   * such as `None`) and its `message.content` (`JNull` when the message is
   * not a dict or has no content).
   */
  datatype RawWorkflowMessage = RawWorkflowMessage(seqId: Option<int>, content: JsonValue)

  /** A workflow message whose non-empty string content the accumulation can append. */
  datatype WorkflowMessage = WorkflowMessage(seqId: int, content: string)

  /**
   * One vendor frame. `text` is `output.text` with `None` read as `""`;
   * `finishReason` is `""` when missing; `ragAttr`/`webAttr` are the
   * `rag_result`/`web_result` attributes of `output` (`JNull` when absent);
   * `usage` is `None` when the frame has no usage object.
   */
  datatype Frame = Frame(
    statusOk: bool,
    code: string,
    message: string,
    requestId: string,
    text: string,
    workflowMessage: Option<RawWorkflowMessage>,
    finishReason: string,
    docReferences: seq<JsonValue>,
    ragAttr: JsonValue,
    webAttr: JsonValue,
    usage: Option<UsageObject>)

  /** What the producer thread puts on the queue: a frame, the `None` sentinel, or an exception. */
  datatype QueueItem = Response(frame: Frame) | Sentinel | Raised(error: string, requestId: Option<string>)

  /** The `chunk_data` dictionary of one event; `JNull` stands for `None`. */
  datatype Event = Event(
    text: string,
    isFinish: bool,
    sources: Option<seq<JsonValue>>,
    requestId: string,
    usage: Option<UsageInfo>,
    latency: Option<int>,
    ragResult: JsonValue,
    webResult: JsonValue)

  /**
   * What the generator yields: the keep-alive event, a chunk event, or an
   * `{"error": ...}` event (with `request_id` when it reports a producer
   * exception).
   */
  datatype Emitted = Init | Chunk(event: Event) | Error(error: string, requestId: Option<string>)

  /** `getattr(item, 'request_id', 'unknown')` on an exception. */
  const UnknownRequest: string := "unknown"

  /** Line 112: the error event of a producer exception, with its own `request_id` when it has one. */
  function RaisedEvent(error: string, requestId: Option<string>): Emitted {
    Error(error, Some(requestId.GetOr(UnknownRequest)))
  }

  // ---------------------------------------------------------------------
  // The turn state and the pieces of one frame.
  // ---------------------------------------------------------------------

  datatype TurnState = TurnState(lastTextLen: nat, finishedEmitted: bool, workflowBuffer: string, lastSeqId: int)

  /** Lines 76-86. */
  const Start: TurnState := TurnState(0, false, "", -1)

  /**
   * Lines 147-166: non-empty content is appended when its sequence id is
   * above the watermark, which then moves to it, or when the id is -1, which
   * leaves the watermark alone. Returns the new buffer and watermark.
   */
  function Accumulate(buf: string, last: int, wf: Option<WorkflowMessage>): (string, int) {
    if wf.None? || wf.value.content == "" then (buf, last)
    else if wf.value.seqId > last then (buf + wf.value.content, wf.value.seqId)
    else if wf.value.seqId == -1 then (buf + wf.value.content, last)
    else (buf, last)
  }

  /** `None > last_workflow_seq_id` (line 157) raises a `TypeError`. */
  const SeqIdNotComparable: string := "'>' not supported between instances of 'NoneType' and 'int'"
  /** `accumulated_workflow_content += content_str` with a non-string (line 158 or 162) raises a `TypeError`. */
  const ContentNotAString: string := "can only concatenate str to str"

  /**
   * Lines 143-162 before anything is appended: the message to accumulate, or
   * the `TypeError` that ends the turn. Falsy content is skipped before the
   * sequence id is read; a non-string content raises only on the branches
   * that append it.
   */
  function ReadWorkflow(raw: Option<RawWorkflowMessage>, last: int): Result<Option<WorkflowMessage>, string> {
    if raw.None? || !Truthy(raw.value.content) then Success(None)
    else if raw.value.seqId.None? then Failure(SeqIdNotComparable)
    else
      var id := raw.value.seqId.value;
      if raw.value.content.JStr? then Success(Some(WorkflowMessage(id, raw.value.content.s)))
      else if id > last || id == -1 then Failure(ContentNotAString)
      else Success(None)
  }

  /** Line 165: the buffer, once non-empty, replaces the raw text as the parse source. */
  function ParseSource(buf: string, text: string): string {
    if buf != "" then buf else text
  }

  /** Lines 169-172. */
  predicate IsFinish(reason: string) {
    reason != "" && reason != "null"
  }

  /** `full_text[last_text_len:]`: Python's slice is empty past the end. */
  function Delta(full: string, last: nat): (d: string)
    ensures last <= |full| ==> full[..last] + d == full
    ensures last > |full| ==> d == ""
  {
    if last <= |full| then full[last..] else ""
  }

  /** `is_workflow_json_stream` (line 346), computed on the raw text. */
  predicate WorkflowJsonStream(raw: string) {
    StartsWith(Strip(raw), "{") && Contains(raw, LlmKey)
  }

  /** What every event of one frame shares. */
  datatype FrameCtx = FrameCtx(
    isFinish: bool,
    sources: Option<seq<JsonValue>>,
    requestId: string,
    usage: Option<UsageInfo>,
    now: int,
    rag: JsonValue,
    web: JsonValue)

  /**
   * Lines 340-443: the evidence falls back to the frame's own attributes
   * unless the raw text is a workflow JSON stream; the sources are built; the
   * usage is read when the frame has a usage object.
   */
  function FrameContext(f: Frame, rc: Recovered, now: int): FrameCtx {
    var wjs := WorkflowJsonStream(f.text);
    var rag := if !Truthy(rc.rag) && !wjs then f.ragAttr else rc.rag;
    var web := if !Truthy(rc.web) && !wjs then f.webAttr else rc.web;
    var sources := BuildSources(f.docReferences, rag, web);
    FrameCtx(IsFinish(f.finishReason), if sources == [] then None else Some(sources), f.requestId,
             if f.usage.Some? then Some(Usage(f.usage.value)) else None, now, rag, WrapWeb(web))
  }

  /**
   * One event; `finish` is the flag after the exactly-once rule. Usage,
   * latency and evidence ride only on a finishing event (lines 479-488, 506-515).
   */
  function MakeEvent(text: string, finish: bool, ctx: FrameCtx): Emitted {
    Chunk(Event(text, finish, ctx.sources, ctx.requestId,
                if finish then ctx.usage else None,
                if finish then Some(ctx.now) else None,
                if finish && Truthy(ctx.rag) then ctx.rag else JNull,
                if finish && Truthy(ctx.web) then ctx.web else JNull))
  }

  /**
   * The smoothing loop from index `curr` on (lines 459-491): each sub-chunk
   * becomes an event; only the last may want the finish, which is honoured
   * unless a finish was already emitted. Returns the events and the new
   * `finished_emitted`.
   */
  function SmoothFrom(delta: string, step: nat, curr: nat, ctx: FrameCtx, finished: bool): (seq<Emitted>, bool)
    requires step > 0
    decreases |delta| - curr
  {
    if curr >= |delta| then ([], finished)
    else
      var e := Min(curr + step, |delta|);
      var want := ctx.isFinish && e >= |delta|;
      var rest := SmoothFrom(delta, step, e, ctx, finished || want);
      ([MakeEvent(delta[curr..e], want && !finished, ctx)] + rest.0, rest.1)
  }

  /**
   * Lines 449-516: a delta over the threshold is smoothed; otherwise one event
   * is sent when there is text, a finish, or sources before any text.
   */
  function EmitDelta(delta: string, newLen: nat, ctx: FrameCtx, finished: bool): (seq<Emitted>, bool) {
    if |delta| > SmoothThreshold then SmoothFrom(delta, Step(|delta|), 0, ctx, finished)
    else if delta != "" || ctx.isFinish || (ctx.sources.Some? && newLen == 0) then
      ([MakeEvent(delta, ctx.isFinish && !finished, ctx)], finished || ctx.isFinish)
    else ([], finished)
  }

  /** `"Error: <code> - <message>"` for a frame whose status is not OK (line 532). */
  function ErrorMessage(f: Frame): string {
    "Error: " + f.code + " - " + f.message
  }

  datatype StepResult = StepResult(state: TurnState, out: seq<Emitted>, stop: bool)

  /**
   * One frame of the `while True` loop. A frame whose status is not OK yields
   * an error event and the loop goes on; a recovery that raises ends the
   * loop through the outer `except` with an error event.
   */
  function StepFrame(s: TurnState, f: Frame, codec: Codec, now: int): StepResult {
    if !f.statusOk then StepResult(s, [Error(ErrorMessage(f), None)], false)
    else match ReadWorkflow(f.workflowMessage, s.lastSeqId)
    case Failure(e) => StepResult(s, [Error(e, None)], true)
    case Success(wf) =>
      var acc := Accumulate(s.workflowBuffer, s.lastSeqId, wf);
      match Recover(ParseSource(acc.0, f.text), codec)
      case Failure(e) => StepResult(s.(workflowBuffer := acc.0, lastSeqId := acc.1), [Error(e, None)], true)
      case Success(rc) =>
        var em := EmitDelta(Delta(rc.fullText, s.lastTextLen), |rc.fullText|,
                            FrameContext(f, rc, now), s.finishedEmitted);
        StepResult(TurnState(|rc.fullText|, em.1, acc.0, acc.1), em.0, false)
  }

  /**
   * The events of the loop from queue position `k` on, `clock(k)` being the
   * elapsed milliseconds read while handling item `k`. The sentinel ends the
   * turn; an exception yields its error event and ends it.
   */
  function RunFrom(s: TurnState, items: seq<QueueItem>, k: nat, codec: Codec, clock: nat -> int): seq<Emitted>
    decreases |items| - k
  {
    if k >= |items| then []
    else match items[k]
      case Sentinel => []
      case Raised(e, rid) => [RaisedEvent(e, rid)]
      case Response(f) =>
        var r := StepFrame(s, f, codec, clock(k));
        r.out + (if r.stop then [] else RunFrom(r.state, items, k + 1, codec, clock))
  }

  /** The run ends at the end of the queue, at the sentinel, and after an exception. */
  lemma RunFromEnds(prefix: seq<Emitted>, s: TurnState, items: seq<QueueItem>, k: nat, codec: Codec,
                    clock: nat -> int, total: seq<Emitted>)
    requires prefix + RunFrom(s, items, k, codec, clock) == total
    ensures k >= |items| ==> prefix == total
    ensures k < |items| && items[k].Sentinel? ==> prefix == total
    ensures k < |items| && items[k].Raised? ==> prefix + [RaisedEvent(items[k].error, items[k].requestId)] == total
  {
    if k >= |items| || items[k].Sentinel? {
      assert prefix + [] == prefix;
    }
  }

  /** One frame of the run: its events, then the rest of the run unless it stops. */
  lemma RunFromResponse(prefix: seq<Emitted>, s: TurnState, items: seq<QueueItem>, k: nat, codec: Codec,
                        clock: nat -> int, total: seq<Emitted>, next: TurnState, events: seq<Emitted>, stop: bool)
    requires k < |items| && items[k].Response?
    requires prefix + RunFrom(s, items, k, codec, clock) == total
    requires StepFrame(s, items[k].frame, codec, clock(k)) == StepResult(next, events, stop)
    ensures stop ==> prefix + events == total
    ensures !stop ==> (prefix + events) + RunFrom(next, items, k + 1, codec, clock) == total
  {
    if stop {
      assert events + [] == events;
    } else {
      assert (prefix + events) + RunFrom(next, items, k + 1, codec, clock)
        == prefix + (events + RunFrom(next, items, k + 1, codec, clock));
    }
  }

  /** Lines 340-443 as the code runs them: evidence fallback, the source list, the usage. */
  method FrameEvidence(f: Frame, rc: Recovered, now: int) returns (ctx: FrameCtx)
    ensures ctx == FrameContext(f, rc, now)
  {
    var isWorkflowJsonStream := StartsWith(Strip(f.text), "{") && Contains(f.text, LlmKey);
    var ragRes := rc.rag;
    var webRes := rc.web;
    if !Truthy(ragRes) && !isWorkflowJsonStream {
      ragRes := f.ragAttr;
    }
    if !Truthy(webRes) && !isWorkflowJsonStream {
      webRes := f.webAttr;
    }
    var sourcesList, webAfter := CollectSources(f.docReferences, ragRes, webRes);
    var currentSources := if sourcesList != [] then Some(sourcesList) else None;
    var usageInfo: Option<UsageInfo> := None;
    if f.usage.Some? {
      var u := ComputeUsage(f.usage.value);
      usageInfo := Some(u);
    }
    ctx := FrameCtx(IsFinish(f.finishReason), currentSources, f.requestId, usageInfo, now, ragRes, webAfter);
  }

  // ---------------------------------------------------------------------
  // The imperative turn.
  // ---------------------------------------------------------------------

  /** The four turn-local variables of `stream_chat`, updated frame by frame. */
  /** One round of the sub-chunk loop. */
  lemma SmoothFromUnfold(delta: string, step: nat, curr: nat, ctx: FrameCtx, finished: bool)
    requires step > 0 && curr < |delta|
    ensures var e := Min(curr + step, |delta|);
      var want := ctx.isFinish && e >= |delta|;
      var rest := SmoothFrom(delta, step, e, ctx, finished || want);
      SmoothFrom(delta, step, curr, ctx, finished) == ([MakeEvent(delta[curr..e], want && !finished, ctx)] + rest.0, rest.1)
  {
  }

  class Turn {
    var lastTextLen: nat
    var finishedEmitted: bool
    var workflowBuffer: string
    var lastSeqId: int

    function State(): TurnState
      reads this
    {
      TurnState(lastTextLen, finishedEmitted, workflowBuffer, lastSeqId)
    }

    constructor()
      ensures State() == Start
    {
      lastTextLen := 0;
      finishedEmitted := false;
      workflowBuffer := "";
      lastSeqId := -1;
    }

    /** Lines 142-162; `err` is the `TypeError` raised, if any, and then nothing has changed. */
    method AccumulateWorkflow(raw: Option<RawWorkflowMessage>) returns (err: Option<string>)
      modifies this
      ensures ReadWorkflow(raw, old(lastSeqId)).Failure? ==>
        err == Some(ReadWorkflow(raw, old(lastSeqId)).error) && State() == old(State())
      ensures ReadWorkflow(raw, old(lastSeqId)).Success? ==>
        err.None? && (workflowBuffer, lastSeqId) == Accumulate(old(workflowBuffer), old(lastSeqId), ReadWorkflow(raw, old(lastSeqId)).value)
      ensures lastTextLen == old(lastTextLen) && finishedEmitted == old(finishedEmitted)
    {
      err := None;
      if raw.Some? {
        var contentStr := raw.value.content;
        if Truthy(contentStr) {
          if raw.value.seqId.None? {
            return Some(SeqIdNotComparable);
          }
          var seqId := raw.value.seqId.value;
          if seqId > lastSeqId {
            if !contentStr.JStr? {
              return Some(ContentNotAString);
            }
            workflowBuffer := workflowBuffer + contentStr.s;
            lastSeqId := seqId;
          } else if seqId == -1 {
            if !contentStr.JStr? {
              return Some(ContentNotAString);
            }
            workflowBuffer := workflowBuffer + contentStr.s;
          }
        }
      }
    }

    /** The sub-chunk loop (lines 454-491). */
    method EmitSmoothed(delta: string, ctx: FrameCtx) returns (out: seq<Emitted>)
      requires |delta| > SmoothThreshold
      modifies this
      ensures (out, finishedEmitted) == SmoothFrom(delta, Step(|delta|), 0, ctx, old(finishedEmitted))
      ensures lastTextLen == old(lastTextLen) && workflowBuffer == old(workflowBuffer) && lastSeqId == old(lastSeqId)
    {
      var step := Step(|delta|);
      var totalLen := |delta|;
      var currIdx := 0;
      out := [];
      ghost var total := SmoothFrom(delta, step, 0, ctx, finishedEmitted);
      while currIdx < totalLen
        invariant currIdx <= totalLen
        invariant out + SmoothFrom(delta, step, currIdx, ctx, finishedEmitted).0 == total.0
        invariant SmoothFrom(delta, step, currIdx, ctx, finishedEmitted).1 == total.1
        invariant lastTextLen == old(lastTextLen) && workflowBuffer == old(workflowBuffer) && lastSeqId == old(lastSeqId)
        decreases totalLen - currIdx
      {
        ghost var before := finishedEmitted;
        ghost var from := currIdx;
        var endIdx := Min(currIdx + step, totalLen);
        var subChunk := delta[currIdx..endIdx];
        currIdx := endIdx;
        var isLastSub := currIdx >= totalLen;
        var subIsFinish := ctx.isFinish && isLastSub;
        if subIsFinish {
          if finishedEmitted {
            subIsFinish := false;
          } else {
            finishedEmitted := true;
          }
        }
        SmoothFromUnfold(delta, step, from, ctx, before);
        assert subIsFinish == (ctx.isFinish && isLastSub && !before) && finishedEmitted == (before || (ctx.isFinish && isLastSub));
        out := out + [MakeEvent(subChunk, subIsFinish, ctx)];
      }
      assert SmoothFrom(delta, step, currIdx, ctx, finishedEmitted) == ([], finishedEmitted);
      assert out == total.0;
      assert finishedEmitted == total.1;
    }

    /** Lines 449-516 for the delta of one frame: smoothed, a single event, or nothing. */
    method EmitDeltaEvents(deltaText: string, ctx: FrameCtx) returns (out: seq<Emitted>)
      modifies this
      ensures (out, finishedEmitted) == EmitDelta(deltaText, old(lastTextLen), ctx, old(finishedEmitted))
      ensures lastTextLen == old(lastTextLen) && workflowBuffer == old(workflowBuffer) && lastSeqId == old(lastSeqId)
    {
      if |deltaText| > SmoothThreshold {
        out := EmitSmoothed(deltaText, ctx);
      } else if deltaText != "" || ctx.isFinish || (ctx.sources.Some? && lastTextLen == 0) {
        var finish := ctx.isFinish;
        if finish {
          if finishedEmitted {
            finish := false;
          } else {
            finishedEmitted := true;
          }
        }
        out := [MakeEvent(deltaText, finish, ctx)];
      } else {
        out := [];
      }
    }

    /** The body of the loop for one frame (lines 117-535). */
    method HandleFrame(f: Frame, codec: Codec, now: int) returns (out: seq<Emitted>, stop: bool)
      modifies this
      ensures StepResult(State(), out, stop) == StepFrame(old(State()), f, codec, now)
    {
      if !f.statusOk {
        out := [Error("Error: " + f.code + " - " + f.message, None)];
        stop := false;
        return;
      }
      var err := AccumulateWorkflow(f.workflowMessage);
      if err.Some? {
        out := [Error(err.value, None)];
        stop := true;
        return;
      }
      var parseSourceText := f.text;
      if workflowBuffer != "" {
        parseSourceText := workflowBuffer;
      }
      var rec := RecoverFields(parseSourceText, codec);
      if rec.Failure? {
        out := [Error(rec.error, None)];
        stop := true;
        return;
      }
      var fullText := rec.value.fullText;
      var oldLen := lastTextLen;
      var deltaText := if lastTextLen <= |fullText| then fullText[lastTextLen..] else "";
      lastTextLen := |fullText|;
      var ctx := FrameEvidence(f, rec.value, now);
      assert deltaText == Delta(fullText, oldLen);
      out := EmitDeltaEvents(deltaText, ctx);
      stop := false;
    }
  }

  /**
   * The generator: the keep-alive event, then the events of every queue item
   * up to the sentinel, an exception, or a recovery that raises.
   */
  method StreamChat(items: seq<QueueItem>, codec: Codec, clock: nat -> int) returns (out: seq<Emitted>)
    ensures out == [Init] + RunFrom(Start, items, 0, codec, clock)
  {
    out := [Init];
    var turn := new Turn();
    var k := 0;
    ghost var total := [Init] + RunFrom(Start, items, 0, codec, clock);
    while k < |items|
      invariant 0 <= k <= |items|
      invariant out + RunFrom(turn.State(), items, k, codec, clock) == total
      decreases |items| - k
    {
      var item := items[k];
      ghost var before := turn.State();
      ghost var prefix := out;
      if item.Sentinel? {
        RunFromEnds(prefix, before, items, k, codec, clock, total);
        return;
      }
      if item.Raised? {
        RunFromEnds(prefix, before, items, k, codec, clock, total);
        out := out + [Error(item.error, Some(if item.requestId.Some? then item.requestId.value else UnknownRequest))];
        return;
      }
      var events, stop := turn.HandleFrame(item.frame, codec, clock(k));
      RunFromResponse(prefix, before, items, k, codec, clock, total, turn.State(), events, stop);
      out := out + events;
      if stop {
        return;
      }
      k := k + 1;
    }
    RunFromEnds(out, turn.State(), items, k, codec, clock, total);
  }
}
