/**
 * The `ChatLog.sources` property (chat_log.py, lines 15-70): the source list
 * of a stored answer, rebuilt from its `metadata_info` dictionary. The
 * knowledge-base records come first, tagged `"rag"`, then the web-search
 * records, tagged `"web"`; each is a copy of a dict item with a canonical
 * `title` and `url`.
 */
module ChatLogSources {
  import opened Wrappers
  import opened Json
  import opened ServiceSources

  /** `meta.get(...)` on a truthy value that is not a dict raises `AttributeError`. */
  const NotADict: string := "AttributeError: metadata_info has no attribute 'get'"
  /** `for item in chunks` over a value that is not iterable raises `TypeError`. */
  const NotIterable: string := "TypeError: chunkList is not iterable"

  /** `d.copy()` with `title`, `url` and `type` assigned. */
  function Tagged(m: map<string, JsonValue>, title: JsonValue, url: JsonValue, tag: string): JsonValue {
    JObj(m["title" := title]["url" := url]["type" := JStr(tag)])
  }

  /** Lines 41-46. */
  function RagLogRecord(m: map<string, JsonValue>): JsonValue {
    Tagged(m, Or(Get(m, "title"), Or(Get(m, "documentName"), JStr(RagPlaceholder))),
              Or(Get(m, "docUrl"), Or(Get(m, "url"), JStr(NoUrl))), "rag")
  }

  /** Lines 61-66. */
  function WebLogRecord(m: map<string, JsonValue>): JsonValue {
    Tagged(m, Or(Get(m, "title"), JStr(WebPlaceholder)),
              Or(Get(m, "link"), Or(Get(m, "url"), JStr(NoUrl))), "web")
  }

  /**
   * Lines 30-37: the value the knowledge-base loop iterates over. A
   * `chunkList` value is iterated whatever it is, so one that is not iterable
   * raises; a list is itself; any other dict is a one-element list; any
   * other truthy value contributes nothing.
   */
  function RagChunks(rag: JsonValue): Result<seq<JsonValue>, string> {
    if !Truthy(rag) then Success([])
    else if rag.JObj? && "chunkList" in rag.fields then
      (if Iterable(rag.fields["chunkList"]) then Success(DictCandidates(rag.fields["chunkList"]))
       else Failure(NotIterable))
    else if rag.JArr? then Success(rag.items)
    else if rag.JObj? then Success([rag])
    else Success([])
  }

  /** Lines 50-56: a list is itself, a dict a one-element list, anything else nothing. */
  function WebItems(web: JsonValue): seq<JsonValue> {
    if !Truthy(web) then []
    else if web.JArr? then web.items
    else if web.JObj? then [web]
    else []
  }

  /** The records of the dict items, in order; other items are skipped. */
  function RagLogRecords(items: seq<JsonValue>): seq<JsonValue> {
    if items == [] then []
    else
      var last := items[|items| - 1];
      RagLogRecords(items[..|items| - 1]) + (if last.JObj? then [RagLogRecord(last.fields)] else [])
  }

  function WebLogRecords(items: seq<JsonValue>): seq<JsonValue> {
    if items == [] then []
    else
      var last := items[|items| - 1];
      WebLogRecords(items[..|items| - 1]) + (if last.JObj? then [WebLogRecord(last.fields)] else [])
  }

  /** `web_result`, falling back to the misspelled `web_resul` (line 26). */
  function WebField(m: map<string, JsonValue>): JsonValue {
    Or(Get(m, "web_result"), Get(m, "web_resul"))
  }

  /** The property as a function of `metadata_info`. */
  function LogSources(meta: JsonValue): Result<seq<JsonValue>, string> {
    if !Truthy(meta) then Success([])
    else if !meta.JObj? then Failure(NotADict)
    else
      match RagChunks(Get(meta.fields, "rag_result"))
      case Failure(e) => Failure(e)
      case Success(chunks) => Success(RagLogRecords(chunks) + WebLogRecords(WebItems(WebField(meta.fields))))
  }

  /** The property as the code runs it: two loops appending to `sources_list`. */
  method Sources(metadataInfo: JsonValue) returns (r: Result<seq<JsonValue>, string>)
    ensures r == LogSources(metadataInfo)
  {
    var sourcesList: seq<JsonValue> := [];
    if !Truthy(metadataInfo) {
      return Success(sourcesList);
    }
    if !metadataInfo.JObj? {
      return Failure(NotADict);
    }
    var meta := metadataInfo.fields;
    var ragRes := Get(meta, "rag_result");
    var webRes := Or(Get(meta, "web_result"), Get(meta, "web_resul"));
    var chunks: seq<JsonValue> := [];
    if Truthy(ragRes) {
      if ragRes.JObj? && "chunkList" in ragRes.fields {
        var chunkList := ragRes.fields["chunkList"];
        if !Iterable(chunkList) {
          return Failure(NotIterable);
        }
        chunks := DictCandidates(chunkList);
      } else if ragRes.JArr? {
        chunks := ragRes.items;
      } else if ragRes.JObj? {
        chunks := [ragRes];
      }
    }
    assert RagChunks(ragRes) == Success(chunks);
    for i := 0 to |chunks|
      invariant sourcesList == RagLogRecords(chunks[..i])
    {
      var item := chunks[i];
      assert chunks[..i + 1][..i] == chunks[..i];
      if item.JObj? {
        sourcesList := sourcesList + [RagLogRecord(item.fields)];
      }
    }
    assert chunks[..|chunks|] == chunks;
    var items: seq<JsonValue> := [];
    if Truthy(webRes) {
      if webRes.JArr? {
        items := webRes.items;
      } else if webRes.JObj? {
        items := [webRes];
      }
    }
    ghost var ragPart := sourcesList;
    for i := 0 to |items|
      invariant sourcesList == ragPart + WebLogRecords(items[..i])
    {
      var item := items[i];
      assert items[..i + 1][..i] == items[..i];
      if item.JObj? {
        sourcesList := sourcesList + [WebLogRecord(item.fields)];
      }
    }
    assert items[..|items|] == items;
    r := Success(sourcesList);
  }

  // ---------------------------------------------------------------------
  // What the property promises.
  // ---------------------------------------------------------------------

  /** Falsy metadata gives no sources; truthy metadata that is not a dict raises. */
  lemma EmptyOrBadMetadata(meta: JsonValue)
    ensures !Truthy(meta) ==> LogSources(meta) == Success([])
    ensures Truthy(meta) && !meta.JObj? ==> LogSources(meta).Failure?
  {
  }

  /** The property fails only on metadata that is not a dict or on a `chunkList` that cannot be iterated. */
  lemma LogSourcesFailsOnlyOn(meta: JsonValue)
    ensures LogSources(meta).Failure? <==>
      Truthy(meta) && (!meta.JObj? || RagChunks(Get(meta.fields, "rag_result")).Failure?)
    ensures meta.JObj? && RagChunks(Get(meta.fields, "rag_result")).Failure? ==>
      var rag := Get(meta.fields, "rag_result");
      rag.JObj? && "chunkList" in rag.fields && !Iterable(rag.fields["chunkList"])
  {
  }

  /** A record keeps every field of its item except the three it sets, and carries their values. */
  predicate KeepsFieldsTagged(m: map<string, JsonValue>, r: JsonValue, tag: string) {
    && r.JObj?
    && r.fields.Keys == m.Keys + {"title", "url", "type"}
    && (forall k :: k in m && k != "title" && k != "url" && k != "type" ==> r.fields[k] == m[k])
    && Truthy(r.fields["title"]) && Truthy(r.fields["url"]) && r.fields["type"] == JStr(tag)
  }

  lemma RagLogRecordFields(m: map<string, JsonValue>)
    ensures KeepsFieldsTagged(m, RagLogRecord(m), "rag")
    ensures Resolves(m, ["title", "documentName"], JStr(RagPlaceholder), RagLogRecord(m).fields["title"])
    ensures Resolves(m, ["docUrl", "url"], JStr(NoUrl), RagLogRecord(m).fields["url"])
  {
    assert ["title", "documentName"][1..] == ["documentName"];
    assert ["docUrl", "url"][1..] == ["url"];
  }

  lemma WebLogRecordFields(m: map<string, JsonValue>)
    ensures KeepsFieldsTagged(m, WebLogRecord(m), "web")
    ensures Resolves(m, ["title"], JStr(WebPlaceholder), WebLogRecord(m).fields["title"])
    ensures Resolves(m, ["link", "url"], JStr(NoUrl), WebLogRecord(m).fields["url"])
  {
    assert ["link", "url"][1..] == ["url"];
  }

  /** One record per dict item, each tagged, in order. */
  lemma {:induction false} RagLogRecordsShape(items: seq<JsonValue>)
    ensures |RagLogRecords(items)| == CountDicts(items)
    ensures forall k :: 0 <= k < |RagLogRecords(items)| ==>
      RagLogRecords(items)[k].JObj? && Get(RagLogRecords(items)[k].fields, "type") == JStr("rag")
  {
    if items != [] {
      RagLogRecordsShape(items[..|items| - 1]);
    }
  }

  lemma {:induction false} WebLogRecordsShape(items: seq<JsonValue>)
    ensures |WebLogRecords(items)| == CountDicts(items)
    ensures forall k :: 0 <= k < |WebLogRecords(items)| ==>
      WebLogRecords(items)[k].JObj? && Get(WebLogRecords(items)[k].fields, "type") == JStr("web")
  {
    if items != [] {
      WebLogRecordsShape(items[..|items| - 1]);
    }
  }

  /**
   * Every knowledge-base record precedes every web record, and there are as
   * many records as dict items found in the two collections.
   */
  lemma RagBeforeWeb(meta: JsonValue)
    requires LogSources(meta).Success? && meta.JObj?
    ensures var r := LogSources(meta).value;
      var chunks := RagChunks(Get(meta.fields, "rag_result")).value;
      var n := CountDicts(chunks);
      && |r| == n + CountDicts(WebItems(WebField(meta.fields)))
      && (forall k :: 0 <= k < n ==> r[k].JObj? && Get(r[k].fields, "type") == JStr("rag"))
      && (forall k :: n <= k < |r| ==> r[k].JObj? && Get(r[k].fields, "type") == JStr("web"))
  {
    var chunks := RagChunks(Get(meta.fields, "rag_result")).value;
    var webs := WebItems(WebField(meta.fields));
    RagLogRecordsShape(chunks);
    WebLogRecordsShape(webs);
    var r := LogSources(meta).value;
    assert r == RagLogRecords(chunks) + WebLogRecords(webs);
    forall k | CountDicts(chunks) <= k < |r|
      ensures r[k].JObj? && Get(r[k].fields, "type") == JStr("web")
    {
      assert r[k] == WebLogRecords(webs)[k - CountDicts(chunks)];
    }
  }

  /** The misspelled key is read only when `web_result` is falsy. */
  lemma MisspelledWebKey(m: map<string, JsonValue>)
    ensures Truthy(Get(m, "web_result")) ==> WebField(m) == m["web_result"]
    ensures !Truthy(Get(m, "web_result")) ==> WebField(m) == Get(m, "web_resul")
  {
  }

  /** A single web dict is wrapped into one tagged record. */
  lemma SingleWebDict(w: map<string, JsonValue>)
    requires w != map[]
    ensures WebLogRecords(WebItems(JObj(w))) == [WebLogRecord(w)]
  {
    assert WebItems(JObj(w)) == [JObj(w)];
    assert [JObj(w)][..0] == [];
  }
}
