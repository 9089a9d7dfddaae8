/**
 * The browser side of a turn (script.js): `escapeHtml` (lines 478-486), the
 * reading of one network chunk as server-sent events (lines 291-339) with
 * the text accumulation and the de-duplicating merge of sources, and the
 * token total shown under an answer (lines 380-383). Values are JSON as
 * `JSON.parse` returns them; JavaScript's own truthiness is `JsTruthy`.
 */
module Frontend {
  import opened Wrappers
  import opened Json
  import opened PyText
  import ChatRouter

  // ---------------------------------------------------------------------
  // escapeHtml
  // ---------------------------------------------------------------------

  /** `text.replace` on a truthy value that is not a string. */
  const NoReplace: string := "TypeError: text.replace is not a function"

  /** The five global replacements, `&` first. */
  function EscapeChain(s: string): string {
    ReplaceChar(ReplaceChar(ReplaceChar(ReplaceChar(ReplaceChar(s, '&', "&amp;"), '<', "&lt;"), '>', "&gt;"),
                            '"', "&quot;"), '\'', "&#039;")
  }

  /** `escapeHtml(text)`: falsy input gives `""`. */
  function EscapeHtml(text: JsonValue): Result<string, string> {
    if !JsTruthy(text) then Success("")
    else if text.JStr? then Success(EscapeChain(text.s))
    else Failure(NoReplace)
  }

  /** The entity of one character, the character itself when it needs none. */
  function Entity(c: char): string {
    if c == '&' then "&amp;"
    else if c == '<' then "&lt;"
    else if c == '>' then "&gt;"
    else if c == '"' then "&quot;"
    else if c == '\'' then "&#039;"
    else [c]
  }

  /** The reference definition: each character replaced by its entity. */
  function EscapeChars(s: string): string {
    if s == [] then "" else Entity(s[0]) + EscapeChars(s[1..])
  }

  lemma EscapeChainConcat(a: string, b: string)
    ensures EscapeChain(a + b) == EscapeChain(a) + EscapeChain(b)
  {
    var a1, b1 := ReplaceChar(a, '&', "&amp;"), ReplaceChar(b, '&', "&amp;");
    ReplaceCharConcat(a, b, '&', "&amp;");
    var a2, b2 := ReplaceChar(a1, '<', "&lt;"), ReplaceChar(b1, '<', "&lt;");
    ReplaceCharConcat(a1, b1, '<', "&lt;");
    var a3, b3 := ReplaceChar(a2, '>', "&gt;"), ReplaceChar(b2, '>', "&gt;");
    ReplaceCharConcat(a2, b2, '>', "&gt;");
    var a4, b4 := ReplaceChar(a3, '"', "&quot;"), ReplaceChar(b3, '"', "&quot;");
    ReplaceCharConcat(a3, b3, '"', "&quot;");
    ReplaceCharConcat(a4, b4, '\'', "&#039;");
  }

  /** One replacement on a one-character string, or on a string without the character. */
  lemma ReplaceStage(s: string, ch: char, rep: string)
    requires |s| == 1 || ch !in s
    ensures ReplaceChar(s, ch, rep) == (if s == [ch] then rep else s)
  {
    if ch in s {
      assert s == [s[0]] && s[1..] == [];
    } else {
      ReplaceCharAbsent(s, ch, rep);
    }
  }

  /** The four replacements after the first, on a string each leaves alone or maps whole. */
  function LaterStages(s: string): string {
    ReplaceChar(ReplaceChar(ReplaceChar(ReplaceChar(s, '<', "&lt;"), '>', "&gt;"), '"', "&quot;"), '\'', "&#039;")
  }

  lemma LaterStagesKeep(s: string)
    requires '<' !in s && '>' !in s && '"' !in s && '\'' !in s
    ensures LaterStages(s) == s
  {
    ReplaceCharAbsent(s, '<', "&lt;");
    ReplaceCharAbsent(s, '>', "&gt;");
    ReplaceCharAbsent(s, '"', "&quot;");
    ReplaceCharAbsent(s, '\'', "&#039;");
  }

  lemma EscapeAmp(c: char, e: string)
    requires c == '&' && e == "&amp;"
    ensures EscapeChain([c]) == e
  {
    var s1 := ReplaceChar([c], '&', e);
    ReplaceStage([c], '&', e);
    assert s1 == e;
    var s2 := ReplaceChar(s1, '<', "&lt;");
    assert '<' !in s1;
    ReplaceCharAbsent(s1, '<', "&lt;");
    assert s2 == e;
    var s3 := ReplaceChar(s2, '>', "&gt;");
    assert '>' !in s2;
    ReplaceCharAbsent(s2, '>', "&gt;");
    assert s3 == e;
    var s4 := ReplaceChar(s3, '"', "&quot;");
    assert '"' !in s3;
    ReplaceCharAbsent(s3, '"', "&quot;");
    assert s4 == e;
    var s5 := ReplaceChar(s4, '\'', "&#039;");
    assert '\'' !in s4;
    ReplaceCharAbsent(s4, '\'', "&#039;");
    assert s5 == e;
  }

  lemma EscapeLt(c: char, e: string)
    requires c == '<' && e == "&lt;"
    ensures EscapeChain([c]) == e
  {
    var s1 := ReplaceChar([c], '&', "&amp;");
    ReplaceStage([c], '&', "&amp;");
    assert s1 == [c];
    var s2 := ReplaceChar(s1, '<', e);
    ReplaceStage(s1, '<', e);
    assert s2 == e;
    var s3 := ReplaceChar(s2, '>', "&gt;");
    assert '>' !in s2;
    ReplaceCharAbsent(s2, '>', "&gt;");
    assert s3 == e;
    var s4 := ReplaceChar(s3, '"', "&quot;");
    assert '"' !in s3;
    ReplaceCharAbsent(s3, '"', "&quot;");
    assert s4 == e;
    var s5 := ReplaceChar(s4, '\'', "&#039;");
    assert '\'' !in s4;
    ReplaceCharAbsent(s4, '\'', "&#039;");
    assert s5 == e;
  }

  lemma EscapeGt(c: char, e: string)
    requires c == '>' && e == "&gt;"
    ensures EscapeChain([c]) == e
  {
    var s1 := ReplaceChar([c], '&', "&amp;");
    ReplaceStage([c], '&', "&amp;");
    assert s1 == [c];
    var s2 := ReplaceChar(s1, '<', "&lt;");
    ReplaceStage(s1, '<', "&lt;");
    assert s2 == [c];
    var s3 := ReplaceChar(s2, '>', e);
    ReplaceStage(s2, '>', e);
    assert s3 == e;
    var s4 := ReplaceChar(s3, '"', "&quot;");
    assert '"' !in s3;
    ReplaceCharAbsent(s3, '"', "&quot;");
    assert s4 == e;
    var s5 := ReplaceChar(s4, '\'', "&#039;");
    assert '\'' !in s4;
    ReplaceCharAbsent(s4, '\'', "&#039;");
    assert s5 == e;
  }

  lemma EscapeQuot(c: char, e: string)
    requires c == '"' && e == "&quot;"
    ensures EscapeChain([c]) == e
  {
    var s1 := ReplaceChar([c], '&', "&amp;");
    ReplaceStage([c], '&', "&amp;");
    assert s1 == [c];
    var s2 := ReplaceChar(s1, '<', "&lt;");
    ReplaceStage(s1, '<', "&lt;");
    assert s2 == [c];
    var s3 := ReplaceChar(s2, '>', "&gt;");
    ReplaceStage(s2, '>', "&gt;");
    assert s3 == [c];
    var s4 := ReplaceChar(s3, '"', e);
    ReplaceStage(s3, '"', e);
    assert s4 == e;
    var s5 := ReplaceChar(s4, '\'', "&#039;");
    assert '\'' !in s4;
    ReplaceCharAbsent(s4, '\'', "&#039;");
    assert s5 == e;
  }

  lemma EscapeApos(c: char, e: string)
    requires c == '\'' && e == "&#039;"
    ensures EscapeChain([c]) == e
  {
    var s1 := ReplaceChar([c], '&', "&amp;");
    ReplaceStage([c], '&', "&amp;");
    assert s1 == [c];
    var s2 := ReplaceChar(s1, '<', "&lt;");
    ReplaceStage(s1, '<', "&lt;");
    assert s2 == [c];
    var s3 := ReplaceChar(s2, '>', "&gt;");
    ReplaceStage(s2, '>', "&gt;");
    assert s3 == [c];
    var s4 := ReplaceChar(s3, '"', "&quot;");
    ReplaceStage(s3, '"', "&quot;");
    assert s4 == [c];
    var s5 := ReplaceChar(s4, '\'', e);
    ReplaceStage(s4, '\'', e);
    assert s5 == e;
  }

  lemma EscapePlain(c: char)
    requires c != '&' && c != '<' && c != '>' && c != '"' && c != '\''
    ensures EscapeChain([c]) == [c]
  {
    ReplaceStage([c], '&', "&amp;");
    LaterStagesKeep([c]);
  }

  /** No later replacement touches an entity written by an earlier one. */
  lemma EscapeChainOne(c: char)
    ensures EscapeChain([c]) == Entity(c)
  {
    if c == '&' {
      EscapeAmp(c, "&amp;");
    } else if c == '<' {
      EscapeLt(c, "&lt;");
    } else if c == '>' {
      EscapeGt(c, "&gt;");
    } else if c == '"' {
      EscapeQuot(c, "&quot;");
    } else if c == '\'' {
      EscapeApos(c, "&#039;");
    } else {
      EscapePlain(c);
    }
  }

  /** The chain of replacements is the per-character entity map. */
  lemma {:induction false} EscapeChainIsPerChar(s: string)
    ensures EscapeChain(s) == EscapeChars(s)
  {
    if s != [] {
      assert s == [s[0]] + s[1..];
      EscapeChainConcat([s[0]], s[1..]);
      EscapeChainOne(s[0]);
      EscapeChainIsPerChar(s[1..]);
    }
  }

  lemma {:induction false} EscapeCharsNoSpecials(s: string)
    ensures forall i :: 0 <= i < |EscapeChars(s)| ==>
      EscapeChars(s)[i] != '<' && EscapeChars(s)[i] != '>' && EscapeChars(s)[i] != '"' && EscapeChars(s)[i] != '\''
  {
    if s != [] {
      EscapeCharsNoSpecials(s[1..]);
      var e := Entity(s[0]);
      forall i | 0 <= i < |EscapeChars(s)|
        ensures EscapeChars(s)[i] != '<' && EscapeChars(s)[i] != '>' && EscapeChars(s)[i] != '"' && EscapeChars(s)[i] != '\''
      {
        if i >= |e| {
          assert EscapeChars(s)[i] == EscapeChars(s[1..])[i - |e|];
        }
      }
    }
  }

  /** The escaped text contains no raw `<`, `>`, `"` or `'`. */
  lemma EscapeHtmlNoSpecials(s: string)
    requires s != ""
    ensures EscapeHtml(JStr(s)).Success?
    ensures forall i :: 0 <= i < |EscapeHtml(JStr(s)).value| ==>
      var c := EscapeHtml(JStr(s)).value[i]; c != '<' && c != '>' && c != '"' && c != '\''
  {
    EscapeChainIsPerChar(s);
    EscapeCharsNoSpecials(s);
  }

  /** Reading the five entities back. */
  function UnescapeHtml(t: string): string
    decreases |t|
  {
    if t == [] then ""
    else if StartsWith(t, "&amp;") then "&" + UnescapeHtml(t[5..])
    else if StartsWith(t, "&lt;") then "<" + UnescapeHtml(t[4..])
    else if StartsWith(t, "&gt;") then ">" + UnescapeHtml(t[4..])
    else if StartsWith(t, "&quot;") then "\"" + UnescapeHtml(t[6..])
    else if StartsWith(t, "&#039;") then "'" + UnescapeHtml(t[6..])
    else [t[0]] + UnescapeHtml(t[1..])
  }

  /** An entity at the front is read back as its character; the other entities do not match there. */
  lemma UnescapeEntity(c: char, rest: string)
    ensures UnescapeHtml(Entity(c) + rest) == [c] + UnescapeHtml(rest)
  {
    var t := Entity(c) + rest;
    if c == '&' {
      assert t[..5] == "&amp;";
      assert t[5..] == rest;
    } else if c == '<' {
      assert t[1] == 'l' && !StartsWith(t, "&amp;");
      assert t[..4] == "&lt;";
      assert t[4..] == rest;
    } else if c == '>' {
      assert t[1] == 'g' && !StartsWith(t, "&amp;") && !StartsWith(t, "&lt;");
      assert t[..4] == "&gt;";
      assert t[4..] == rest;
    } else if c == '"' {
      assert t[1] == 'q' && !StartsWith(t, "&amp;") && !StartsWith(t, "&lt;") && !StartsWith(t, "&gt;");
      assert t[..6] == "&quot;";
      assert t[6..] == rest;
    } else if c == '\'' {
      assert t[1] == '#' && !StartsWith(t, "&amp;") && !StartsWith(t, "&lt;") && !StartsWith(t, "&gt;")
        && !StartsWith(t, "&quot;");
      assert t[..6] == "&#039;";
      assert t[6..] == rest;
    } else {
      assert t[0] == c && c != '&';
      assert !StartsWith(t, "&amp;") && !StartsWith(t, "&lt;") && !StartsWith(t, "&gt;")
        && !StartsWith(t, "&quot;") && !StartsWith(t, "&#039;");
      assert t[1..] == rest;
    }
  }

  /** Escaping loses nothing: unescaping gives the text back. */
  lemma {:induction false} UnescapeInvertsEscape(s: string)
    ensures UnescapeHtml(EscapeChars(s)) == s
  {
    if s != [] {
      UnescapeEntity(s[0], EscapeChars(s[1..]));
      UnescapeInvertsEscape(s[1..]);
      assert s == [s[0]] + s[1..];
    }
  }

  /** `escapeHtml` on a string is the entity map, and it can be undone. */
  lemma EscapeHtmlRoundTrip(s: string)
    requires s != ""
    ensures EscapeHtml(JStr(s)) == Success(EscapeChars(s))
    ensures UnescapeHtml(EscapeHtml(JStr(s)).value) == s
  {
    EscapeChainIsPerChar(s);
    UnescapeInvertsEscape(s);
  }

  /** Falsy input gives the empty string; a truthy value that is not a string throws. */
  lemma EscapeHtmlFalsy(v: JsonValue)
    ensures !JsTruthy(v) ==> EscapeHtml(v) == Success("")
    ensures JsTruthy(v) && !v.JStr? ==> EscapeHtml(v) == Failure(NoReplace)
    ensures EscapeHtml(v).Success? <==> !JsTruthy(v) || v.JStr?
  {
  }

  // ---------------------------------------------------------------------
  // The source merge (lines 316-324).
  // ---------------------------------------------------------------------

  /** Reading a property on `null` throws. */
  const NullProperty: string := "TypeError: cannot read properties of null"

  /** `v.key`: `undefined` is `None`; `null` throws; other primitives have no such property. */
  function Prop(v: JsonValue, key: string): Result<Option<JsonValue>, string> {
    if v.JNull? then Failure(NullProperty)
    else if v.JObj? then Success(if key in v.fields then Some(v.fields[key]) else None)
    else Success(None)
  }

  /** `===`: primitives by value, two parsed objects or arrays are never the same object. */
  predicate StrictEq(a: Option<JsonValue>, b: Option<JsonValue>) {
    match (a, b)
    case (None, None) => true
    case (Some(x), Some(y)) => !x.JArr? && !x.JObj? && x == y
    case _ => false
  }

  /** `s.url === n.url && s.title === n.title`, evaluated left to right. */
  function SameKey(s: JsonValue, n: JsonValue): Result<bool, string> {
    match (Prop(s, "url"), Prop(n, "url"))
    case (Failure(e), _) => Failure(e)
    case (_, Failure(e)) => Failure(e)
    case (Success(su), Success(nu)) =>
      if !StrictEq(su, nu) then Success(false)
      else
        match (Prop(s, "title"), Prop(n, "title"))
        case (Failure(e), _) => Failure(e)
        case (_, Failure(e)) => Failure(e)
        case (Success(st), Success(nt)) => Success(StrictEq(st, nt))
  }

  /** `acc.some(s => SameKey(s, n))` from index `j` on: stops at the first match or the first throw. */
  function AnyMatch(acc: seq<JsonValue>, n: JsonValue, j: nat): (r: Result<bool, string>)
    decreases |acc| - j
  {
    if j >= |acc| then Success(false)
    else match SameKey(acc[j], n)
      case Failure(e) => Failure(e)
      case Success(true) => Success(true)
      case Success(false) => AnyMatch(acc, n, j + 1)
  }

  /**
   * The `forEach` over the new sources from index `i` on: a source with no
   * match is pushed; a throw ends the loop, keeping what was pushed. Returns
   * the list and whether the loop ran to the end.
   */
  function MergeFrom(acc: seq<JsonValue>, news: seq<JsonValue>, i: nat): (seq<JsonValue>, bool)
    decreases |news| - i
  {
    if i >= |news| then (acc, true)
    else match AnyMatch(acc, news[i], 0)
      case Failure(_) => (acc, false)
      case Success(found) => MergeFrom(if found then acc else acc + [news[i]], news, i + 1)
  }

  method MergeSources(accumulated: seq<JsonValue>, news: seq<JsonValue>) returns (out: seq<JsonValue>, ok: bool)
    ensures (out, ok) == MergeFrom(accumulated, news, 0)
  {
    out := accumulated;
    for i := 0 to |news|
      invariant MergeFrom(out, news, i) == MergeFrom(accumulated, news, 0)
    {
      var newSource := news[i];
      var exists_ := AnyMatch(out, newSource, 0);
      if exists_.Failure? {
        return out, false;
      }
      if !exists_.value {
        out := out + [newSource];
      }
    }
    ok := true;
  }

  /** Existing entries are never removed or reordered, and only new sources are added. */
  lemma {:induction false} MergeKeepsPrefix(acc: seq<JsonValue>, news: seq<JsonValue>, i: nat)
    ensures acc <= MergeFrom(acc, news, i).0
    ensures forall x :: x in MergeFrom(acc, news, i).0 ==> x in acc || x in news
    decreases |news| - i
  {
    if i < |news| {
      match AnyMatch(acc, news[i], 0)
      case Failure(_) =>
      case Success(found) =>
        var next := if found then acc else acc + [news[i]];
        MergeKeepsPrefix(next, news, i + 1);
    }
  }

  /** No two entries share their (url, title) pair. */
  predicate NoDup(list: seq<JsonValue>) {
    forall i, j :: 0 <= i < j < |list| ==> SameKey(list[i], list[j]) == Success(false)
  }

  lemma {:induction false} AnyMatchFalse(acc: seq<JsonValue>, n: JsonValue, j: nat)
    requires AnyMatch(acc, n, j) == Success(false)
    ensures forall i :: j <= i < |acc| ==> SameKey(acc[i], n) == Success(false)
    decreases |acc| - j
  {
    if j < |acc| {
      AnyMatchFalse(acc, n, j + 1);
    }
  }

  /** A match reported by `some` is an accumulated source with the same url and title. */
  lemma {:induction false} AnyMatchTrue(acc: seq<JsonValue>, n: JsonValue, j: nat)
    requires AnyMatch(acc, n, j) == Success(true)
    ensures exists i :: j <= i < |acc| && SameKey(acc[i], n) == Success(true)
    decreases |acc| - j
  {
    if SameKey(acc[j], n) != Success(true) {
      AnyMatchTrue(acc, n, j + 1);
    }
  }

  /**
   * One new source is pushed exactly when no accumulated source has its url
   * and title, and the list is otherwise left as it was.
   */
  lemma MergeOne(acc: seq<JsonValue>, n: JsonValue)
    ensures AnyMatch(acc, n, 0) == Success(false) ==> MergeFrom(acc, [n], 0) == (acc + [n], true)
    ensures AnyMatch(acc, n, 0) == Success(true) ==> MergeFrom(acc, [n], 0) == (acc, true)
    ensures AnyMatch(acc, n, 0).Failure? ==> MergeFrom(acc, [n], 0) == (acc, false)
  {
  }

  /** A list without duplicates stays without duplicates. */
  lemma {:induction false} MergeKeepsNoDup(acc: seq<JsonValue>, news: seq<JsonValue>, i: nat)
    requires NoDup(acc)
    ensures NoDup(MergeFrom(acc, news, i).0)
    decreases |news| - i
  {
    if i < |news| {
      match AnyMatch(acc, news[i], 0)
      case Failure(_) =>
      case Success(found) =>
        if !found {
          AnyMatchFalse(acc, news[i], 0);
          var next := acc + [news[i]];
          forall a, b | 0 <= a < b < |next| ensures SameKey(next[a], next[b]) == Success(false) {
            if b == |acc| {
              assert next[b] == news[i];
            }
          }
          MergeKeepsNoDup(next, news, i + 1);
        } else {
          MergeKeepsNoDup(acc, news, i + 1);
        }
    }
  }

  /** Without `null` entries the merge never throws. */
  lemma {:induction false} AnyMatchNoNull(acc: seq<JsonValue>, n: JsonValue, j: nat)
    requires !n.JNull? && forall k :: 0 <= k < |acc| ==> !acc[k].JNull?
    ensures AnyMatch(acc, n, j).Success?
    decreases |acc| - j
  {
    if j < |acc| {
      AnyMatchNoNull(acc, n, j + 1);
    }
  }

  lemma {:induction false} MergeNoNull(acc: seq<JsonValue>, news: seq<JsonValue>, i: nat)
    requires forall k :: 0 <= k < |acc| ==> !acc[k].JNull?
    requires forall k :: 0 <= k < |news| ==> !news[k].JNull?
    ensures MergeFrom(acc, news, i).1
    decreases |news| - i
  {
    if i < |news| {
      AnyMatchNoNull(acc, news[i], 0);
      var found := AnyMatch(acc, news[i], 0).value;
      var next := if found then acc else acc + [news[i]];
      assert forall k :: 0 <= k < |next| ==> !next[k].JNull?;
      MergeNoNull(next, news, i + 1);
    }
  }

  /** Line 364: the label of a listed source (`source.title || source.url || 'Document'`). */
  function Label(source: JsonValue): JsonValue
    requires !source.JNull?
  {
    var m := if source.JObj? then source.fields else map[];
    var title := Get(m, "title");
    var url := Get(m, "url");
    if JsTruthy(title) then title else if JsTruthy(url) then url else JStr("Document")
  }

  /**
   * `updateMeta` after a merge (lines 349-369) throws when a listed source is
   * `null` or its label is a truthy value `escapeHtml` cannot handle.
   */
  predicate RenderFails(list: seq<JsonValue>) {
    exists k :: 0 <= k < |list| && (list[k].JNull? || EscapeHtml(Label(list[k])).Failure?)
  }

  // ---------------------------------------------------------------------
  // One chunk of the event stream (lines 291-339).
  // ---------------------------------------------------------------------

  /** The variables `sendMessage` folds the stream into. */
  datatype View = View(text: string, sources: seq<JsonValue>, usage: JsonValue, latency: JsonValue)

  const Fresh: View := View("", [], JNull, JNull)

  /** Line 303: the red warning appended for an error. */
  function ErrorBanner(error: string): string {
    "<br><span style=\"color:red\">⚠️ " + error + "</span>"
  }

  /** `accumulatedText += v` for a string `v`. */
  function AppendIf(text: string, v: Option<JsonValue>): string {
    if v.Some? && JsTruthy(v.value) && v.value.JStr? then text + v.value.s else text
  }

  /**
   * Lines 298-338 for one payload. What `JSON.parse` rejects, and `null`
   * (whose properties throw), change nothing; a throw in the merge or in rendering the
   * merged list skips the usage and latency of that event.
   */
  function HandleData(view: View, payload: string, codec: Codec): View {
    match codec.loads(payload)
    case None => view
    case Some(data) =>
      if data.JNull? then view
      else
        var m := if data.JObj? then data.fields else map[];
        var err := if "error" in m then Some(m["error"]) else None;
        var withError := if err.Some? && JsTruthy(err.value) && err.value.JStr? then view.text + ErrorBanner(err.value.s)
                         else view.text;
        var text := AppendIf(withError, if "text" in m then Some(m["text"]) else None);
        var src := Get(m, "sources");
        var merged := if JsTruthy(src) && src.JArr? then MergeFrom(view.sources, src.items, 0) else (view.sources, true);
        if !merged.1 || (JsTruthy(src) && src.JArr? && RenderFails(merged.0)) then View(text, merged.0, view.usage, view.latency)
        else View(text, merged.0, if JsTruthy(Get(m, "usage")) then m["usage"] else view.usage,
                  if JsTruthy(Get(m, "latency")) then m["latency"] else view.latency)
  }

  /** The payload of a `data: ` line (`line.slice(6)`). */
  function Payload(line: string): string
    requires StartsWith(line, "data: ")
  {
    line[6..]
  }

  /** The `for (const line of lines)` loop from index `i` on; `[DONE]` stops it. */
  function LinesFrom(view: View, lines: seq<string>, i: nat, codec: Codec): View
    decreases |lines| - i
  {
    if i >= |lines| then view
    else if !StartsWith(lines[i], "data: ") then LinesFrom(view, lines, i + 1, codec)
    else if Payload(lines[i]) == "[DONE]" then view
    else LinesFrom(HandleData(view, Payload(lines[i]), codec), lines, i + 1, codec)
  }

  /** One decoded network chunk: split on blank lines, then the line loop. */
  method HandleChunk(view: View, chunk: string, codec: Codec) returns (out: View)
    ensures out == LinesFrom(view, Split(chunk, "\n\n"), 0, codec)
  {
    var lines := Split(chunk, "\n\n");
    out := view;
    var i := 0;
    while i < |lines|
      invariant i <= |lines|
      invariant LinesFrom(out, lines, i, codec) == LinesFrom(view, lines, 0, codec)
      decreases |lines| - i
    {
      var line := lines[i];
      if StartsWith(line, "data: ") {
        var dataStr := line[6..];
        if dataStr == "[DONE]" {
          break;
        }
        out := HandleDataStep(out, dataStr, codec);
      }
      i := i + 1;
    }
  }

  /** The body of the `try` for one payload, as the code runs it. */
  method HandleDataStep(view: View, dataStr: string, codec: Codec) returns (out: View)
    ensures out == HandleData(view, dataStr, codec)
  {
    out := view;
    var parsed := codec.loads(dataStr);
    if parsed.None? || parsed.value.JNull? {
      return;
    }
    var data := parsed.value;
    var m := if data.JObj? then data.fields else map[];
    if "error" in m && JsTruthy(m["error"]) && m["error"].JStr? {
      out := out.(text := out.text + ErrorBanner(m["error"].s));
    }
    if "text" in m && JsTruthy(m["text"]) && m["text"].JStr? {
      out := out.(text := out.text + m["text"].s);
    }
    var src := Get(m, "sources");
    if JsTruthy(src) && src.JArr? {
      var merged, ok := MergeSources(out.sources, src.items);
      out := out.(sources := merged);
      if !ok || RenderFails(merged) {
        return;
      }
    }
    if JsTruthy(Get(m, "usage")) {
      out := out.(usage := m["usage"]);
    }
    if JsTruthy(Get(m, "latency")) {
      out := out.(latency := m["latency"]);
    }
  }

  /** HandleData over several payloads in order. */
  function HandleAll(view: View, payloads: seq<string>, codec: Codec): View
    decreases |payloads|
  {
    if payloads == [] then view else HandleAll(HandleData(view, payloads[0], codec), payloads[1..], codec)
  }

  /** A text event whose `error` is absent or falsy appends exactly its text. */
  lemma TextAccumulates(view: View, payload: string, codec: Codec, m: map<string, JsonValue>, t: string)
    requires codec.loads(payload) == Some(JObj(m)) && !JsTruthy(Get(m, "error")) && Get(m, "text") == JStr(t)
    ensures HandleData(view, payload, codec).text == view.text + t
  {
  }

  /** An event without `data: ` framing, or after `[DONE]`, is never handled. */
  lemma DoneStopsTheChunk(view: View, lines: seq<string>, i: nat, rest: seq<string>, codec: Codec)
    requires i < |lines| && lines[i] == "data: [DONE]"
    ensures LinesFrom(view, lines, i, codec) == view
  {
    assert StartsWith(lines[i], "data: ");
    assert Payload(lines[i]) == "[DONE]";
  }

  /** A piece framed by the router is split off at its blank line when it holds no newline. */
  lemma SplitFramed(x: string, rest: string)
    requires '\n' !in x
    ensures Split(x + "\n\n" + rest, "\n\n") == [x] + Split(rest, "\n\n")
  {
    var s := x + "\n\n" + rest;
    assert s[|x|..|x| + 2] == "\n\n";
    assert MatchAt(s, "\n\n", |x|);
    forall j | 0 <= j < |x| ensures !MatchAt(s, "\n\n", j) {
      assert s[j] == x[j];
    }
    assert s[..|x|] == x;
    assert s[|x| + 2..] == rest;
  }

  lemma WireFront(up: seq<string>)
    requires up != []
    ensures ChatRouter.Wire(up) == ["data: " + up[0] + "\n\n"] + ChatRouter.Wire(up[1..])
  {
    ChatRouter.WireFraming(up);
    ChatRouter.WireFraming(up[1..]);
    var r := ["data: " + up[0] + "\n\n"] + ChatRouter.Wire(up[1..]);
    assert |r| == |ChatRouter.Wire(up)|;
    forall k | 0 <= k < |r| ensures r[k] == ChatRouter.Wire(up)[k] {
      if k > 0 {
        assert r[k] == ChatRouter.Wire(up[1..])[k - 1];
        assert up[1..][k - 1] == up[k];
      }
    }
  }

  /**
   * When the router's whole stream arrives as one chunk, the page handles
   * exactly the upstream events, in order, and stops at `[DONE]`. JSON text
   * from `json.dumps` holds no raw newline.
   */
  lemma {:induction false} StreamRoundTrip(view: View, up: seq<string>, codec: Codec)
    requires forall k :: 0 <= k < |up| ==> '\n' !in up[k] && up[k] != "[DONE]"
    ensures LinesFrom(view, Split(Concat(ChatRouter.Wire(up) + [ChatRouter.Done]), "\n\n"), 0, codec)
      == HandleAll(view, up, codec)
    decreases |up|
  {
    var stream := Concat(ChatRouter.Wire(up) + [ChatRouter.Done]);
    if up == [] {
      assert ChatRouter.Wire(up) + [ChatRouter.Done] == [ChatRouter.Done];
      assert stream == "data: [DONE]" + "\n\n" + "" by {
        assert Concat([ChatRouter.Done]) == ChatRouter.Done + Concat([]);
      }
      SplitFramed("data: [DONE]", "");
      var lines := Split(stream, "\n\n");
      DoneStopsTheChunk(view, lines, 0, [], codec);
    } else {
      var line := "data: " + up[0];
      var tail := up[1..];
      var restStream := Concat(ChatRouter.Wire(tail) + [ChatRouter.Done]);
      WireFront(up);
      assert ChatRouter.Wire(up) + [ChatRouter.Done]
        == [line + "\n\n"] + (ChatRouter.Wire(tail) + [ChatRouter.Done]);
      assert stream == line + "\n\n" + restStream;
      SplitFramed(line, restStream);
      var lines := Split(stream, "\n\n");
      assert lines == [line] + Split(restStream, "\n\n");
      assert StartsWith(line, "data: ") && Payload(line) == up[0];
      var next := HandleData(view, up[0], codec);
      assert LinesFrom(view, lines, 0, codec) == LinesFrom(next, lines, 1, codec);
      LinesShift(next, line, Split(restStream, "\n\n"), codec);
      StreamRoundTrip(next, tail, codec);
    }
  }

  lemma LinesShift(view: View, first: string, rest: seq<string>, codec: Codec)
    ensures LinesFrom(view, [first] + rest, 1, codec) == LinesFrom(view, rest, 0, codec)
  {
    LinesShiftFrom(view, [first] + rest, rest, 1, codec);
  }

  lemma {:induction false} LinesShiftFrom(view: View, lines: seq<string>, rest: seq<string>, i: nat, codec: Codec)
    requires 1 <= i && 1 <= |lines| && lines[1..] == rest
    ensures LinesFrom(view, lines, i, codec) == LinesFrom(view, rest, i - 1, codec)
    decreases |lines| - i
  {
    if i < |lines| {
      assert lines[i] == rest[i - 1];
      if StartsWith(lines[i], "data: ") && Payload(lines[i]) != "[DONE]" {
        LinesShiftFrom(HandleData(view, Payload(lines[i]), codec), lines, rest, i + 1, codec);
      } else if !StartsWith(lines[i], "data: ") {
        LinesShiftFrom(view, lines, rest, i + 1, codec);
      }
    }
  }

  // ---------------------------------------------------------------------
  // The token total (lines 380-383).
  // ---------------------------------------------------------------------

  /** `usage.k || 0`. */
  function CountOr0(usage: JsonValue, k: string): JsonValue {
    var v := if usage.JObj? && k in usage.fields then usage.fields[k] else JNull;
    if JsTruthy(v) then v else JNum(0)
  }

  /** `input + output` when both are numbers; `None` when JavaScript's `+` would not add numbers. */
  function UsageTotal(usage: JsonValue): Option<int> {
    var i := CountOr0(usage, "input_tokens");
    var o := CountOr0(usage, "output_tokens");
    if i.JNum? && o.JNum? then Some(i.n + o.n) else None
  }

  /** The total is the sum of the two counts, a missing count being 0. */
  lemma UsageTotalSums(m: map<string, JsonValue>, a: Option<int>, b: Option<int>)
    requires (if a.Some? then "input_tokens" in m && m["input_tokens"] == JNum(a.value) else "input_tokens" !in m)
    requires (if b.Some? then "output_tokens" in m && m["output_tokens"] == JNum(b.value) else "output_tokens" !in m)
    ensures UsageTotal(JObj(m)) == Some(a.GetOr(0) + b.GetOr(0))
  {
  }
}
