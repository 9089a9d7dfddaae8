/**
 * The `/ask` endpoint (chat.py, lines 42-122): the empty-question check, and
 * the `event_generator` that forwards every upstream JSON string as a
 * server-sent event while folding the decoded events into what is saved:
 * the concatenated text and the last truthy `sources`, `usage`, `latency`,
 * `rag_result`, `web_result` and request id.
 */
module ChatRouter {
  import opened Wrappers
  import opened Json
  import opened PyText

  /** Lines 47-48: a question that is empty after `strip()` is refused with status 400. */
  predicate QuestionAccepted(q: string) {
    Strip(q) != ""
  }

  const BadRequest: int := 400

  /** A question is refused exactly when it is all whitespace. */
  lemma QuestionRejectedIff(q: string)
    ensures !QuestionAccepted(q) <==> forall i :: 0 <= i < |q| ==> IsSpace(q[i])
  {
    StripEmptyIff(q);
  }

  /** The local variables of `event_generator` (lines 56-61); an unbound `final_request_id` is `None`. */
  datatype Captured = Captured(
    text: string,
    sources: JsonValue,
    usage: JsonValue,
    latency: JsonValue,
    rag: JsonValue,
    web: JsonValue,
    requestId: Option<JsonValue>)

  const Nothing: Captured := Captured("", JArr([]), JNull, JNull, JNull, JNull, None)

  /** `v` replaces `prev` when it is truthy. */
  function Keep(prev: JsonValue, v: JsonValue): JsonValue {
    if Truthy(v) then v else prev
  }

  /** Lines 74-87: the assignments after the text. */
  function CaptureFields(c: Captured, m: map<string, JsonValue>): Captured {
    var rid := Get(m, "request_id");
    Captured(c.text, Keep(c.sources, Get(m, "sources")), Keep(c.usage, Get(m, "usage")),
             Keep(c.latency, Get(m, "latency")), Keep(c.rag, Get(m, "rag_result")),
             Keep(c.web, Get(m, "web_result")),
             if Truthy(rid) && rid != JStr("init") then Some(rid) else c.requestId)
  }

  /**
   * Lines 70-89 for one decoded event. Only a dict is read (on anything else
   * the lookups raise or find nothing); a truthy non-string `text` makes
   * `+=` raise, which skips the rest of the event.
   */
  function Capture(c: Captured, data: Option<JsonValue>): Captured {
    match data
    case Some(JObj(m)) =>
      var t := Get(m, "text");
      if Truthy(t) && !t.JStr? then c
      else CaptureFields(c.(text := if Truthy(t) then c.text + t.s else c.text), m)
    case _ => c
  }

  /** The fold over the upstream strings. */
  function Fold(upstream: seq<string>, codec: Codec): Captured {
    if upstream == [] then Nothing
    else Capture(Fold(upstream[..|upstream| - 1], codec), codec.loads(upstream[|upstream| - 1]))
  }

  /** Line 91: each upstream string as one server-sent event. */
  function Wire(upstream: seq<string>): seq<string> {
    if upstream == [] then []
    else Wire(upstream[..|upstream| - 1]) + ["data: " + upstream[|upstream| - 1] + "\n\n"]
  }

  /** Line 94. */
  const Done: string := "data: [DONE]\n\n"

  /** The row written by lines 103-115. */
  datatype SavedLog = SavedLog(
    requestId: JsonValue,
    sessionId: Option<string>,
    userQuery: string,
    aiResponse: string,
    sources: JsonValue,
    metadata: JsonValue)

  /**
   * Line 98: nothing is saved without text or sources; reading an unbound
   * `final_request_id` (line 99) raises before the save.
   */
  datatype SaveOutcome = NotSaved | Saved(log: SavedLog) | UnboundRequestId

  function SaveDecision(c: Captured, question: string, sessionId: Option<string>): SaveOutcome {
    if c.text == "" && !Truthy(c.sources) then NotSaved
    else if c.requestId.None? then UnboundRequestId
    else Saved(SavedLog(c.requestId.value, sessionId, question, c.text, c.sources,
                        JObj(map["usage" := c.usage, "latency" := c.latency,
                                 "rag_result" := c.rag, "web_result" := c.web])))
  }

  /** Lines 70-89: the body of the `try` for one decoded event, updating the captured variables. */
  method CaptureEvent(c: Captured, decoded: Option<JsonValue>) returns (next: Captured)
    ensures next == Capture(c, decoded)
  {
    next := c;
    if decoded.Some? && decoded.value.JObj? {
      var data := decoded.value.fields;
      var text := Get(data, "text");
      if Truthy(text) && !text.JStr? {
        return;
      }
      if Truthy(text) {
        next := next.(text := next.text + text.s);
      }
      if Truthy(Get(data, "sources")) {
        next := next.(sources := data["sources"]);
      }
      if Truthy(Get(data, "usage")) {
        next := next.(usage := data["usage"]);
      }
      if Truthy(Get(data, "latency")) {
        next := next.(latency := data["latency"]);
      }
      if Truthy(Get(data, "rag_result")) {
        next := next.(rag := data["rag_result"]);
      }
      if Truthy(Get(data, "web_result")) {
        next := next.(web := data["web_result"]);
      }
      if Truthy(Get(data, "request_id")) && data["request_id"] != JStr("init") {
        next := next.(requestId := Some(data["request_id"]));
      }
    }
  }

  /** `event_generator`: the forwarding loop, the `[DONE]` event, then the save decision. */
  method EventGenerator(question: string, sessionId: Option<string>, upstream: seq<string>, codec: Codec)
    returns (wire: seq<string>, outcome: SaveOutcome)
    ensures wire == Wire(upstream) + [Done]
    ensures outcome == SaveDecision(Fold(upstream, codec), question, sessionId)
  {
    var captured := Nothing;
    wire := [];
    for i := 0 to |upstream|
      invariant wire == Wire(upstream[..i])
      invariant captured == Fold(upstream[..i], codec)
    {
      var dataStr := upstream[i];
      assert upstream[..i + 1][..i] == upstream[..i];
      captured := CaptureEvent(captured, codec.loads(dataStr));
      wire := wire + ["data: " + dataStr + "\n\n"];
    }
    assert upstream[..|upstream|] == upstream;
    wire := wire + [Done];
    outcome := SaveDecision(captured, question, sessionId);
  }

  /** `ask_question`: status 400 for an empty question, else the stream and its save. */
  method AskQuestion(question: string, sessionId: Option<string>, upstream: seq<string>, codec: Codec)
    returns (r: Result<(seq<string>, SaveOutcome), int>)
    ensures !QuestionAccepted(question) ==> r == Failure(BadRequest)
    ensures QuestionAccepted(question) ==>
      r == Success((Wire(upstream) + [Done], SaveDecision(Fold(upstream, codec), question, sessionId)))
  {
    if Strip(question) == "" {
      return Failure(BadRequest);
    }
    var wire, outcome := EventGenerator(question, sessionId, upstream, codec);
    r := Success((wire, outcome));
  }

  // ---------------------------------------------------------------------
  // What the generator promises.
  // ---------------------------------------------------------------------

  /** Two folded stretches of the stream combine: texts concatenate, later truthy values win. */
  function Merge(x: Captured, y: Captured): Captured {
    Captured(x.text + y.text, Keep(x.sources, y.sources), Keep(x.usage, y.usage), Keep(x.latency, y.latency),
             Keep(x.rag, y.rag), Keep(x.web, y.web), if y.requestId.Some? then y.requestId else x.requestId)
  }

  lemma CaptureMerge(x: Captured, y: Captured, data: Option<JsonValue>)
    ensures Capture(Merge(x, y), data) == Merge(x, Capture(y, data))
  {
    match data
    case Some(JObj(m)) =>
      var t := Get(m, "text");
      if Truthy(t) && t.JStr? {
        assert x.text + (y.text + t.s) == (x.text + y.text) + t.s;
      }
    case _ =>
  }

  /**
   * Folding a stream in two parts: the saved text is the text of the first part
   * followed by that of the second, and each other field holds the last truthy
   * value, so a later value overwrites an earlier one and nothing is merged.
   */
  lemma {:induction false} FoldSplit(a: seq<string>, b: seq<string>, codec: Codec)
    ensures Fold(a + b, codec) == Merge(Fold(a, codec), Fold(b, codec))
    decreases |b|
  {
    if b == [] {
      assert a + b == a;
      var x := Fold(a, codec);
      assert Merge(x, Nothing) == x;
    } else {
      var b' := b[..|b| - 1];
      assert (a + b)[..|a + b| - 1] == a + b';
      assert (a + b)[|a + b| - 1] == b[|b| - 1];
      FoldSplit(a, b', codec);
      CaptureMerge(Fold(a, codec), Fold(b', codec), codec.loads(b[|b| - 1]));
    }
  }

  /** A last event with truthy sources decides the saved sources, whatever came before. */
  lemma LastSourcesWin(a: seq<string>, s: string, codec: Codec)
    requires Truthy(Fold([s], codec).sources)
    ensures Fold(a + [s], codec).sources == Fold([s], codec).sources
  {
    FoldSplit(a, [s], codec);
  }

  /** The captured request id is truthy and never the keep-alive `"init"`. */
  lemma {:induction false} RequestIdNeverInit(upstream: seq<string>, codec: Codec)
    ensures Fold(upstream, codec).requestId.Some? ==>
      Truthy(Fold(upstream, codec).requestId.value) && Fold(upstream, codec).requestId.value != JStr("init")
  {
    if upstream != [] {
      RequestIdNeverInit(upstream[..|upstream| - 1], codec);
    }
  }

  /** The text of one event: its `text` when it is a non-empty string. */
  lemma SingleEventText(s: string, codec: Codec, m: map<string, JsonValue>, t: string)
    requires codec.loads(s) == Some(JObj(m)) && Get(m, "text") == JStr(t)
    ensures Fold([s], codec).text == t
  {
    assert [s][..0] == [];
  }

  /** Every upstream string is forwarded once, in order, framed as `data: <s>` and a blank line. */
  lemma {:induction false} WireFraming(upstream: seq<string>)
    ensures |Wire(upstream)| == |upstream|
    ensures forall k :: 0 <= k < |upstream| ==> Wire(upstream)[k] == "data: " + upstream[k] + "\n\n"
  {
    if upstream != [] {
      WireFraming(upstream[..|upstream| - 1]);
    }
  }

  /** A record is attempted exactly when text or sources were captured; it needs a captured request id. */
  lemma SaveIff(c: Captured, question: string, sessionId: Option<string>)
    ensures SaveDecision(c, question, sessionId) != NotSaved <==> c.text != "" || Truthy(c.sources)
    ensures SaveDecision(c, question, sessionId).Saved? <==>
      (c.text != "" || Truthy(c.sources)) && c.requestId.Some?
    ensures SaveDecision(c, question, sessionId).Saved? ==>
      SaveDecision(c, question, sessionId).log.aiResponse == c.text
      && SaveDecision(c, question, sessionId).log.requestId == c.requestId.value
  {
  }
}
