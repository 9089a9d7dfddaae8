/**
 * The source list `stream_chat` builds for each frame (lines 358-398): the
 * standard `doc_references`, then the knowledge-base records from
 * `rag_result` in one of three shapes, then the web-search records from
 * `web_result`. Each record is a copy of the original item with a canonical
 * `title` and `url`, each the first truthy value of an ordered list of
 * fields, else a placeholder.
 */
module ServiceSources {
  import opened Json

  const RagPlaceholder: string := "知识库文档"
  const WebPlaceholder: string := "网络搜索结果"
  const NoUrl: string := "#"

  /** `d.copy()` with `title` and `url` assigned. */
  function Retitled(m: map<string, JsonValue>, title: JsonValue, url: JsonValue): map<string, JsonValue> {
    m["title" := title]["url" := url]
  }

  /** A knowledge-base dict of the chunk-list or single-object shape: title → documentName, docUrl → url. */
  function RagDictRecord(m: map<string, JsonValue>): JsonValue {
    JObj(Retitled(m, Or(Get(m, "title"), Or(Get(m, "documentName"), JStr(RagPlaceholder))),
                     Or(Get(m, "docUrl"), Or(Get(m, "url"), JStr(NoUrl)))))
  }

  /** An entry of a `chunkList`: a dict is retitled, anything else is wrapped under `raw`. */
  function ChunkRecord(item: JsonValue): JsonValue {
    if item.JObj? then RagDictRecord(item.fields)
    else JObj(map["raw" := item, "title" := JStr(RagPlaceholder), "url" := JStr(NoUrl)])
  }

  /** A dict of the bare-list shape: title → doc_name, url → docUrl → doc_id. */
  function RagListRecord(m: map<string, JsonValue>): JsonValue {
    JObj(Retitled(m, Or(Get(m, "title"), Or(Get(m, "doc_name"), JStr(RagPlaceholder))),
                     Or(Get(m, "url"), Or(Get(m, "docUrl"), Or(Get(m, "doc_id"), JStr(NoUrl))))))
  }

  /** A web-search dict: title → placeholder, link → url → `#`. */
  function WebRecord(m: map<string, JsonValue>): JsonValue {
    JObj(Retitled(m, Or(Get(m, "title"), JStr(WebPlaceholder)),
                     Or(Get(m, "link"), Or(Get(m, "url"), JStr(NoUrl)))))
  }

  /** Every entry of a chunk list, in order. */
  function ChunkRecords(items: seq<JsonValue>): seq<JsonValue> {
    if items == [] then []
    else ChunkRecords(items[..|items| - 1]) + [ChunkRecord(items[|items| - 1])]
  }

  /** The dict entries of a bare list, in order; other entries are dropped. */
  function ListRecords(items: seq<JsonValue>): seq<JsonValue> {
    if items == [] then []
    else
      var last := items[|items| - 1];
      ListRecords(items[..|items| - 1]) + (if last.JObj? then [RagListRecord(last.fields)] else [])
  }

  /** The dict entries of a web list, in order. */
  function WebRecords(items: seq<JsonValue>): seq<JsonValue> {
    if items == [] then []
    else
      var last := items[|items| - 1];
      WebRecords(items[..|items| - 1]) + (if last.JObj? then [WebRecord(last.fields)] else [])
  }

  /** The knowledge-base records for `rag_res`, dispatching on its shape. */
  function RagSources(rag: JsonValue): seq<JsonValue> {
    if !Truthy(rag) then []
    else if rag.JObj? && "chunkList" in rag.fields then
      (if rag.fields["chunkList"].JArr? then ChunkRecords(rag.fields["chunkList"].items) else [])
    else if rag.JArr? then ListRecords(rag.items)
    else if rag.JObj? then [RagDictRecord(rag.fields)]
    else []
  }

  /** `web_res` after line 392: a truthy non-list value is wrapped in a list. */
  function WrapWeb(web: JsonValue): (r: JsonValue)
    ensures Truthy(web) ==> r.JArr? && Truthy(r)
    ensures Truthy(web) && web.JArr? ==> r == web
    ensures Truthy(web) && !web.JArr? ==> r.items == [web]
    ensures !Truthy(web) ==> r == web
  {
    if Truthy(web) && !web.JArr? then JArr([web]) else web
  }

  function WebSources(web: JsonValue): seq<JsonValue> {
    if !Truthy(web) then [] else WebRecords(WrapWeb(web).items)
  }

  /** `sources_list` for one frame. */
  function BuildSources(docRefs: seq<JsonValue>, rag: JsonValue, web: JsonValue): seq<JsonValue> {
    docRefs + RagSources(rag) + WebSources(web)
  }

  // ---------------------------------------------------------------------
  // The loops that build the list.
  // ---------------------------------------------------------------------

  method AppendChunkRecords(acc: seq<JsonValue>, items: seq<JsonValue>) returns (out: seq<JsonValue>)
    ensures out == acc + ChunkRecords(items)
  {
    out := acc;
    for i := 0 to |items|
      invariant out == acc + ChunkRecords(items[..i])
    {
      var item := items[i];
      var sItem := ChunkRecord(item);
      assert items[..i + 1][..i] == items[..i];
      out := out + [sItem];
    }
    assert items[..|items|] == items;
  }

  method AppendListRecords(acc: seq<JsonValue>, items: seq<JsonValue>) returns (out: seq<JsonValue>)
    ensures out == acc + ListRecords(items)
  {
    out := acc;
    for i := 0 to |items|
      invariant out == acc + ListRecords(items[..i])
    {
      var item := items[i];
      assert items[..i + 1][..i] == items[..i];
      if item.JObj? {
        out := out + [RagListRecord(item.fields)];
      }
    }
    assert items[..|items|] == items;
  }

  method AppendWebRecords(acc: seq<JsonValue>, items: seq<JsonValue>) returns (out: seq<JsonValue>)
    ensures out == acc + WebRecords(items)
  {
    out := acc;
    for i := 0 to |items|
      invariant out == acc + WebRecords(items[..i])
    {
      var item := items[i];
      assert items[..i + 1][..i] == items[..i];
      if item.JObj? {
        out := out + [WebRecord(item.fields)];
      }
    }
    assert items[..|items|] == items;
  }

  /**
   * Lines 358-398: the source list in the order doc references, knowledge
   * base, web; and `web_res` as it stands afterwards (wrapped in a list).
   */
  method CollectSources(docRefs: seq<JsonValue>, ragRes: JsonValue, webRes: JsonValue)
    returns (sourcesList: seq<JsonValue>, webAfter: JsonValue)
    ensures sourcesList == docRefs + RagSources(ragRes) + WebSources(webRes)
    ensures webAfter == WrapWeb(webRes)
  {
    sourcesList := [];
    if docRefs != [] {
      sourcesList := sourcesList + docRefs;
    }
    assert sourcesList == docRefs;
    if Truthy(ragRes) {
      if ragRes.JObj? && "chunkList" in ragRes.fields {
        var chunkList := ragRes.fields["chunkList"];
        if chunkList.JArr? {
          sourcesList := AppendChunkRecords(sourcesList, chunkList.items);
        }
      } else if ragRes.JArr? {
        sourcesList := AppendListRecords(sourcesList, ragRes.items);
      } else if ragRes.JObj? {
        sourcesList := sourcesList + [RagDictRecord(ragRes.fields)];
      }
    }
    assert sourcesList == docRefs + RagSources(ragRes);
    webAfter := webRes;
    if Truthy(webAfter) {
      if !webAfter.JArr? {
        webAfter := JArr([webAfter]);
      }
      sourcesList := AppendWebRecords(sourcesList, webAfter.items);
    }
  }

  // ---------------------------------------------------------------------
  // What the records are.
  // ---------------------------------------------------------------------

  /**
   * A retitled record keeps every original field except `title` and `url`,
   * which it always has, with truthy values.
   */
  predicate KeepsFields(m: map<string, JsonValue>, r: JsonValue) {
    && r.JObj?
    && r.fields.Keys == m.Keys + {"title", "url"}
    && (forall k :: k in m && k != "title" && k != "url" ==> r.fields[k] == m[k])
    && Truthy(r.fields["title"]) && Truthy(r.fields["url"])
  }

  /** `Resolves(m, keys, default, v)`: `v` is the first truthy field of `m` named in `keys`, else `default`. */
  predicate Resolves(m: map<string, JsonValue>, keys: seq<string>, default: JsonValue, v: JsonValue) {
    if keys == [] then v == default
    else if Truthy(Get(m, keys[0])) then v == m[keys[0]]
    else Resolves(m, keys[1..], default, v)
  }

  lemma RagDictRecordResolves(m: map<string, JsonValue>)
    ensures KeepsFields(m, RagDictRecord(m))
    ensures Resolves(m, ["title", "documentName"], JStr(RagPlaceholder), RagDictRecord(m).fields["title"])
    ensures Resolves(m, ["docUrl", "url"], JStr(NoUrl), RagDictRecord(m).fields["url"])
  {
    assert ["title", "documentName"][1..] == ["documentName"];
    assert ["docUrl", "url"][1..] == ["url"];
  }

  lemma RagListRecordResolves(m: map<string, JsonValue>)
    ensures KeepsFields(m, RagListRecord(m))
    ensures Resolves(m, ["title", "doc_name"], JStr(RagPlaceholder), RagListRecord(m).fields["title"])
    ensures Resolves(m, ["url", "docUrl", "doc_id"], JStr(NoUrl), RagListRecord(m).fields["url"])
  {
    assert ["title", "doc_name"][1..] == ["doc_name"];
    assert ["url", "docUrl", "doc_id"][1..] == ["docUrl", "doc_id"];
    assert ["docUrl", "doc_id"][1..] == ["doc_id"];
    var u := RagListRecord(m).fields["url"];
    if !Truthy(Get(m, "url")) && !Truthy(Get(m, "docUrl")) {
      assert Resolves(m, ["doc_id"], JStr(NoUrl), u);
      assert Resolves(m, ["docUrl", "doc_id"], JStr(NoUrl), u);
    }
  }

  lemma WebRecordResolves(m: map<string, JsonValue>)
    ensures KeepsFields(m, WebRecord(m))
    ensures Resolves(m, ["title"], JStr(WebPlaceholder), WebRecord(m).fields["title"])
    ensures Resolves(m, ["link", "url"], JStr(NoUrl), WebRecord(m).fields["url"])
  {
    assert ["link", "url"][1..] == ["url"];
  }

  /** A non-dict chunk becomes `{"raw": item}` with the placeholder title and `#`. */
  lemma NonDictChunkIsWrapped(item: JsonValue)
    requires !item.JObj?
    ensures ChunkRecord(item).fields.Keys == {"raw", "title", "url"}
    ensures ChunkRecord(item).fields["raw"] == item
    ensures ChunkRecord(item).fields["title"] == JStr(RagPlaceholder)
    ensures ChunkRecord(item).fields["url"] == JStr(NoUrl)
  {
  }

  /** The number of dicts in a list. */
  function CountDicts(items: seq<JsonValue>): nat {
    if items == [] then 0
    else CountDicts(items[..|items| - 1]) + (if items[|items| - 1].JObj? then 1 else 0)
  }

  /** A chunk list yields one record per entry, in order. */
  lemma {:induction false} ChunkRecordsOnePerEntry(items: seq<JsonValue>)
    ensures |ChunkRecords(items)| == |items|
    ensures forall i :: 0 <= i < |items| ==> ChunkRecords(items)[i] == ChunkRecord(items[i])
  {
    if items != [] {
      ChunkRecordsOnePerEntry(items[..|items| - 1]);
    }
  }

  /** A bare list yields one record per dict and every record comes from a dict of the list. */
  lemma {:induction false} ListRecordsFromDicts(items: seq<JsonValue>)
    ensures |ListRecords(items)| == CountDicts(items)
    ensures forall r :: r in ListRecords(items) ==>
      exists i :: 0 <= i < |items| && items[i].JObj? && r == RagListRecord(items[i].fields)
  {
    if items != [] {
      var init := items[..|items| - 1];
      ListRecordsFromDicts(init);
      forall r | r in ListRecords(items)
        ensures exists i :: 0 <= i < |items| && items[i].JObj? && r == RagListRecord(items[i].fields)
      {
        if r in ListRecords(init) {
          var i :| 0 <= i < |init| && init[i].JObj? && r == RagListRecord(init[i].fields);
          assert items[i] == init[i];
        } else {
          assert r == RagListRecord(items[|items| - 1].fields);
        }
      }
    }
  }

  /** A web list yields one record per dict. */
  lemma {:induction false} WebRecordsCount(items: seq<JsonValue>)
    ensures |WebRecords(items)| == CountDicts(items)
    ensures forall r :: r in WebRecords(items) ==>
      exists i :: 0 <= i < |items| && items[i].JObj? && r == WebRecord(items[i].fields)
  {
    if items != [] {
      var init := items[..|items| - 1];
      WebRecordsCount(init);
      forall r | r in WebRecords(items)
        ensures exists i :: 0 <= i < |items| && items[i].JObj? && r == WebRecord(items[i].fields)
      {
        if r in WebRecords(init) {
          var i :| 0 <= i < |init| && init[i].JObj? && r == WebRecord(init[i].fields);
          assert items[i] == init[i];
        } else {
          assert r == WebRecord(items[|items| - 1].fields);
        }
      }
    }
  }

  /** A single web dict is wrapped: it yields exactly its own record. */
  lemma SingleWebDictWrapped(m: map<string, JsonValue>)
    requires m != map[]
    ensures WebSources(JObj(m)) == [WebRecord(m)]
  {
    assert Truthy(JObj(m));
    assert WrapWeb(JObj(m)) == JArr([JObj(m)]);
    assert [JObj(m)][..0] == [];
    assert WebRecords([JObj(m)]) == WebRecords([]) + [WebRecord(m)];
  }

  /** A single knowledge-base dict without `chunkList` yields exactly its own record. */
  lemma SingleRagDict(m: map<string, JsonValue>)
    requires m != map[] && "chunkList" !in m
    ensures RagSources(JObj(m)) == [RagDictRecord(m)]
  {
  }
}
