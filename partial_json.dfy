/**
 * The incremental JSON field extractor of `BailianService.stream_chat`: it
 * recovers `llm_result`, `rag_result` and `web_result` from a buffer that is
 * complete JSON or a growing prefix of it. A full decode is tried first (the
 * decoder is an oracle); otherwise two hand-written scanners run: a
 * quoted-string scanner for `llm_result` and a balanced-bracket scanner for
 * the two evidence fields.
 */
module PartialJson {
  import opened Wrappers
  import opened Json
  import opened PyText

  const LlmKey: string := "\"llm_result\""
  const RagKey: string := "\"rag_result\""

  // ---------------------------------------------------------------------
  // The `llm_result` string scanner.
  // ---------------------------------------------------------------------

  /**
   * A piece of the `chars` list the scanner builds: one ordinary character
   * (neither a backslash nor a quote), or a backslash together with the
   * character after it.
   */
  predicate IsPiece(p: string) {
    (|p| == 1 && p[0] != '\\' && p[0] != '"') || (|p| == 2 && p[0] == '\\')
  }

  /** The pieces copied from `curr` on, and the index where copying stopped. */
  datatype QuotedScan = QuotedScan(pieces: seq<string>, stop: nat)

  /**
   * The scan of a string value from index `curr`: copy pieces until an
   * unescaped quote, the end of the buffer, or a backslash that is the last
   * character of the buffer.
   */
  function ScanQuoted(text: string, curr: nat): (r: QuotedScan)
    requires curr <= |text|
    ensures curr <= r.stop <= |text|
    decreases |text| - curr
  {
    if curr >= |text| then QuotedScan([], curr)
    else if text[curr] == '\\' then
      if curr + 1 < |text| then
        var rest := ScanQuoted(text, curr + 2);
        QuotedScan([['\\', text[curr + 1]]] + rest.pieces, rest.stop)
      else QuotedScan([], curr)
    else if text[curr] == '"' then QuotedScan([], curr)
    else
      var rest := ScanQuoted(text, curr + 1);
      QuotedScan([[text[curr]]] + rest.pieces, rest.stop)
  }

  /**
   * The scan copies the text verbatim, piece by piece, and stops only at an
   * unescaped quote, at the end of the buffer, or at a backslash that ends
   * the buffer.
   */
  lemma {:induction false} ScanQuotedText(text: string, curr: nat)
    requires curr <= |text|
    ensures Concat(ScanQuoted(text, curr).pieces) == text[curr..ScanQuoted(text, curr).stop]
    decreases |text| - curr
  {
    var r := ScanQuoted(text, curr);
    if curr < |text| {
      if text[curr] == '\\' && curr + 1 < |text| {
        ScanQuotedText(text, curr + 2);
        var rest := ScanQuoted(text, curr + 2);
        var head := ['\\', text[curr + 1]];
        assert r.pieces == [head] + rest.pieces;
        assert Concat(r.pieces) == head + Concat(rest.pieces) by {
          assert r.pieces[1..] == rest.pieces;
        }
        assert text[curr..r.stop] == head + text[curr + 2..r.stop];
      } else if text[curr] != '\\' && text[curr] != '"' {
        ScanQuotedText(text, curr + 1);
        var rest := ScanQuoted(text, curr + 1);
        var head := [text[curr]];
        assert r.pieces == [head] + rest.pieces;
        assert Concat(r.pieces) == head + Concat(rest.pieces) by {
          assert r.pieces[1..] == rest.pieces;
        }
        assert text[curr..r.stop] == head + text[curr + 1..r.stop];
      }
    }
  }

  lemma {:induction false} ScanQuotedPieces(text: string, curr: nat)
    requires curr <= |text|
    ensures forall k :: 0 <= k < |ScanQuoted(text, curr).pieces| ==> IsPiece(ScanQuoted(text, curr).pieces[k])
    ensures var r := ScanQuoted(text, curr);
      r.stop == |text| || text[r.stop] == '"' || (r.stop == |text| - 1 && text[r.stop] == '\\')
    decreases |text| - curr
  {
    var r := ScanQuoted(text, curr);
    if curr < |text| {
      if text[curr] == '\\' && curr + 1 < |text| {
        ScanQuotedPieces(text, curr + 2);
        var rest := ScanQuoted(text, curr + 2);
        assert r.pieces == [['\\', text[curr + 1]]] + rest.pieces;
        forall k | 1 <= k < |r.pieces| ensures IsPiece(r.pieces[k]) {
          assert r.pieces[k] == rest.pieces[k - 1];
        }
      } else if text[curr] != '\\' && text[curr] != '"' {
        ScanQuotedPieces(text, curr + 1);
        var rest := ScanQuoted(text, curr + 1);
        assert r.pieces == [[text[curr]]] + rest.pieces;
        forall k | 1 <= k < |r.pieces| ensures IsPiece(r.pieces[k]) {
          assert r.pieces[k] == rest.pieces[k - 1];
        }
      }
    }
  }

  /**
   * The scan copies the text verbatim, piece by piece, and stops only at an
   * unescaped quote, at the end of the buffer, or at a backslash that ends
   * the buffer.
   */
  lemma ScanQuotedCopies(text: string, curr: nat)
    requires curr <= |text|
    ensures var r := ScanQuoted(text, curr);
      && Concat(r.pieces) == text[curr..r.stop]
      && (forall k :: 0 <= k < |r.pieces| ==> IsPiece(r.pieces[k]))
      && (r.stop == |text| || text[r.stop] == '"' || (r.stop == |text| - 1 && text[r.stop] == '\\'))
  {
    ScanQuotedText(text, curr);
    ScanQuotedPieces(text, curr);
  }

  /** The scanner loop itself: `chars` and the final `curr`. */
  method ScanLlmValue(text: string, valStart: nat) returns (chars: seq<string>, curr: nat)
    requires valStart < |text|
    ensures QuotedScan(chars, curr) == ScanQuoted(text, valStart + 1)
    ensures curr <= |text|
  {
    ghost var total := ScanQuoted(text, valStart + 1);
    curr := valStart + 1;
    chars := [];
    while curr < |text|
      invariant valStart + 1 <= curr <= |text|
      invariant chars + ScanQuoted(text, curr).pieces == total.pieces
      invariant ScanQuoted(text, curr).stop == total.stop
      decreases |text| - curr
    {
      var c := text[curr];
      if c == '\\' {
        if curr + 1 < |text| {
          var nextC := text[curr + 1];
          assert ScanQuoted(text, curr).pieces == [['\\', nextC]] + ScanQuoted(text, curr + 2).pieces;
          chars := chars + [['\\', nextC]];
          curr := curr + 2;
        } else {
          break;
        }
      } else if c == '"' {
        break;
      } else {
        assert ScanQuoted(text, curr).pieces == [[c]] + ScanQuoted(text, curr + 1).pieces;
        chars := chars + [[c]];
        curr := curr + 1;
      }
    }
  }

  /**
   * The fallback unescaping applied when strict decoding of the captured
   * fragment fails: `\n`, `\t` and `\"` are rewritten, in that order, and
   * nothing else.
   */
  function Unescape(s: string): string {
    ReplacePair(ReplacePair(ReplacePair(s, '\\', 'n', '\n'), '\\', 't', '\t'), '\\', '"', '"')
  }

  /** Escaping the characters of `m`'s domain as a backslash and `m`'s letter. */
  function EscapeWith(x: string, m: map<char, char>): string {
    if x == [] then ""
    else (if x[0] in m then ['\\', m[x[0]]] else [x[0]]) + EscapeWith(x[1..], m)
  }

  /** The three escapes the fallback understands. */
  const FallbackEscapes: map<char, char> := map['\n' := 'n', '\t' := 't', '"' := '"']

  lemma ReplacePairAtEscape(k: char, c: char, rest: string)
    ensures ReplacePair(['\\', k] + rest, '\\', k, c) == [c] + ReplacePair(rest, '\\', k, c)
  {
    assert (['\\', k] + rest)[2..] == rest;
  }

  lemma ReplacePairOtherEscape(d: char, k: char, c: char, rest: string)
    requires d != k && d != '\\'
    ensures ReplacePair(['\\', d] + rest, '\\', k, c) == ['\\', d] + ReplacePair(rest, '\\', k, c)
  {
    var e := ['\\', d] + rest;
    assert e[1..] == [d] + rest;
    assert ([d] + rest)[1..] == rest;
    ReplacePairPlain(d, k, c, rest);
  }

  lemma ReplacePairPlain(d: char, k: char, c: char, rest: string)
    requires d != '\\'
    ensures ReplacePair([d] + rest, '\\', k, c) == [d] + ReplacePair(rest, '\\', k, c)
  {
    assert ([d] + rest)[1..] == rest;
  }

  /** One `replace` call undoes the escaping of exactly one character. */
  lemma {:induction false} ReplaceUndoesOneEscape(x: string, m: map<char, char>, c: char)
    requires '\\' !in x
    requires c in m && c != '\\'
    requires forall d :: d in m ==> m[d] != '\\'
    requires forall d :: d in m && d != c ==> m[d] != m[c]
    ensures ReplacePair(EscapeWith(x, m), '\\', m[c], c) == EscapeWith(x, m - {c})
  {
    if x != [] {
      var rest := EscapeWith(x[1..], m);
      ReplaceUndoesOneEscape(x[1..], m, c);
      var k := m[c];
      var x0 := x[0];
      assert EscapeWith(x, m - {c}) == (if x0 in m && x0 != c then ['\\', m[x0]] else [x0]) + EscapeWith(x[1..], m - {c});
      if x0 in m {
        assert EscapeWith(x, m) == ['\\', m[x0]] + rest;
        if x0 == c {
          ReplacePairAtEscape(k, c, rest);
        } else {
          ReplacePairOtherEscape(m[x0], k, c, rest);
        }
      } else {
        assert EscapeWith(x, m) == [x0] + rest;
        assert x0 != '\\';
        ReplacePairPlain(x0, k, c, rest);
      }
    }
  }

  lemma {:induction false} EscapeWithNothing(x: string)
    ensures EscapeWith(x, map[]) == x
  {
    if x != [] {
      EscapeWithNothing(x[1..]);
    }
  }

  /**
   * For text without backslashes, the fallback reverses the escaping of
   * newline, tab and quote.
   */
  lemma UnescapeInvertsEscape(x: string)
    requires '\\' !in x
    ensures Unescape(EscapeWith(x, FallbackEscapes)) == x
  {
    var m := FallbackEscapes;
    ReplaceUndoesOneEscape(x, m, '\n');
    var m1 := m - {'\n'};
    assert m1 == map['\t' := 't', '"' := '"'];
    ReplaceUndoesOneEscape(x, m1, '\t');
    var m2 := m1 - {'\t'};
    assert m2 == map['"' := '"'];
    ReplaceUndoesOneEscape(x, m2, '"');
    assert m2 - {'"'} == map[];
    EscapeWithNothing(x);
  }

  /**
   * The fallback does not know the escaped backslash: `\\n` (an escaped
   * backslash followed by `n`) comes out as a backslash and a newline, where
   * JSON means a backslash and the letter `n`.
   */
  lemma FallbackMisreadsEscapedBackslash()
    ensures Unescape(['\\', '\\', 'n']) == ['\\', '\n']
  {
    assert ReplacePair(['\\', '\\', 'n'], '\\', 'n', '\n') == ['\\', '\n'];
  }

  /** Strict decoding of the captured fragment, else the fallback. */
  function DecodeCaptured(codec: Codec, pieces: seq<string>): string {
    var body := Concat(pieces);
    match codec.loads("\"" + body + "\"")
    case Some(JStr(s)) => s
    case _ => Unescape(body)
  }

  /**
   * The manual `llm_result` extraction: find the key, then the next quote
   * after it, then scan. The empty string when either is missing.
   */
  function ManualLlm(text: string, codec: Codec): string {
    var m := Find(text, LlmKey, 0);
    if m == -1 then ""
    else
      var v := Find(text, "\"", m + |LlmKey|);
      if v == -1 then ""
      else DecodeCaptured(codec, ScanQuoted(text, v + 1).pieces)
  }

  method ExtractLlmResult(text: string, codec: Codec) returns (fullText: string)
    ensures fullText == ManualLlm(text, codec)
  {
    fullText := "";
    var matchStart := Find(text, LlmKey, 0);
    if matchStart != -1 {
      var valStart := Find(text, "\"", matchStart + |LlmKey|);
      if valStart != -1 {
        var chars, _ := ScanLlmValue(text, valStart);
        fullText := DecodeCaptured(codec, chars);
      }
    }
  }

  /** Where the key and the opening quote are found in the truncated buffer. */
  lemma TruncatedBufferOffsets(text: string)
    requires text == "{\"llm_result\": \"Hel"
    ensures Find(text, LlmKey, 0) == 1 && Find(text, "\"", 1 + |LlmKey|) == 15
  {
    assert text[0] != LlmKey[0];
    assert MatchAt(text, LlmKey, 1);
    assert !MatchAt(text, LlmKey, 0);
    assert text[13] == ':' && text[14] == ' ' && text[15] == '"';
    assert text[15..16] == "\"";
    assert MatchAt(text, "\"", 15);
    assert !MatchAt(text, "\"", 13) && !MatchAt(text, "\"", 14);
  }

  /** The scan after the opening quote copies the three characters left. */
  lemma TruncatedBufferScan(text: string)
    requires text == "{\"llm_result\": \"Hel"
    ensures Concat(ScanQuoted(text, 16).pieces) == "Hel"
  {
    ScanQuotedText(text, 16);
    assert ScanQuoted(text, 16).stop == 19 by {
      assert |text| == 19;
      assert ScanQuoted(text, 19).stop == 19;
      assert text[18] == 'l' && text[17] == 'e' && text[16] == 'H';
      assert ScanQuoted(text, 18).stop == 19;
      assert ScanQuoted(text, 17).stop == 19;
    }
    assert text[16..19] == "Hel";
  }

  lemma UnescapePlain(s: string)
    requires '\\' !in s
    ensures Unescape(s) == s
  {
    ReplacePairNoLead(s, '\\', 'n', '\n');
    ReplacePairNoLead(s, '\\', 't', '\t');
    ReplacePairNoLead(s, '\\', '"', '"');
  }

  /**
   * On the truncated buffer `{"llm_result": "Hel` the scan copies `Hel` and
   * stops at the end of the buffer; the answer is `Hel` whether strict
   * decoding of `"Hel"` succeeds or fails.
   */
  lemma TruncatedBufferYieldsPartialText(codec: Codec)
    requires codec.loads("\"Hel\"") == Some(JStr("Hel")) || codec.loads("\"Hel\"").None?
    ensures ManualLlm("{\"llm_result\": \"Hel", codec) == "Hel"
  {
    var text := "{\"llm_result\": \"Hel";
    TruncatedBufferOffsets(text);
    TruncatedBufferScan(text);
    var body := Concat(ScanQuoted(text, 16).pieces);
    assert "\"" + body + "\"" == "\"Hel\"";
    UnescapePlain(body);
  }

  // ---------------------------------------------------------------------
  // The balanced-bracket scanner (`extract_balanced_json`).
  // ---------------------------------------------------------------------

  /** The index just past a run of whitespace starting at `i` (`\s*`). */
  function SkipSpaces(text: string, i: nat): (j: nat)
    requires i <= |text|
    ensures i <= j <= |text|
    ensures forall k :: i <= k < j ==> IsSpace(text[k])
    ensures j == |text| || !IsSpace(text[j])
    decreases |text| - i
  {
    if i < |text| && IsSpace(text[i]) then SkipSpaces(text, i + 1) else i
  }

  /** Where the pattern `"key"\s*:\s*` ends when it matches at `p`. */
  function KeyPatternAt(text: string, key: string, p: nat): Option<nat> {
    var q := "\"" + key + "\"";
    if !MatchAt(text, q, p) then None
    else
      var i := SkipSpaces(text, p + |q|);
      if i < |text| && text[i] == ':' then Some(SkipSpaces(text, i + 1)) else None
  }

  /** `re.search`: the leftmost match at or after `p`, as (start, end). */
  function SearchKey(text: string, key: string, p: nat): (r: Option<(nat, nat)>)
    ensures r.Some? ==> p <= r.value.0 && KeyPatternAt(text, key, r.value.0) == Some(r.value.1)
    ensures forall q :: p <= q && (r.None? || q < r.value.0) ==> KeyPatternAt(text, key, q).None?
    decreases |text| + 1 - p
  {
    if p > |text| then None
    else match KeyPatternAt(text, key, p)
      case Some(e) => Some((p, e))
      case None => SearchKey(text, key, p + 1)
  }

  lemma KeyPatternEnd(text: string, key: string, p: nat)
    requires KeyPatternAt(text, key, p).Some?
    ensures KeyPatternAt(text, key, p).value <= |text|
  {
  }

  predicate IsOpener(c: char) {
    c == '{' || c == '['
  }

  function Closer(o: char): char {
    if o == '{' then '}' else ']'
  }

  /** The scanner's state: the bracket stack and the quote and escape flags. */
  datatype BracketState = BracketState(stack: seq<char>, inQuote: bool, escape: bool)

  /** One character of the scan (lines 268-289). */
  function BracketStep(st: BracketState, c: char): (r: BracketState)
    ensures st.inQuote ==> r.stack == st.stack
    ensures |r.stack| <= |st.stack| + 1
  {
    if !st.inQuote then
      if c == '"' then st.(inQuote := true)
      else if c == '{' || c == '[' then st.(stack := st.stack + [c])
      else if c == '}' || c == ']' then
        if st.stack != [] && ((st.stack[|st.stack| - 1] == '{' && c == '}') || (st.stack[|st.stack| - 1] == '[' && c == ']'))
        then st.(stack := st.stack[..|st.stack| - 1])
        else st
      else st
    else if st.escape then st.(escape := false)
    else if c == '\\' then st.(escape := true)
    else if c == '"' then st.(inQuote := false)
    else st
  }

  /** The scan loop from `curr` on: it runs while there is text and the stack is not empty. */
  function BalanceFrom(text: string, curr: nat, st: BracketState): (r: (nat, BracketState))
    requires curr <= |text|
    ensures curr <= r.0 <= |text|
    decreases |text| - curr
  {
    if curr < |text| && st.stack != [] then BalanceFrom(text, curr + 1, BracketStep(st, text[curr]))
    else (curr, st)
  }

  /** The stack is not empty, its bottom is the opening bracket `o`, and it holds only openers. */
  predicate WellStacked(st: BracketState, o: char) {
    |st.stack| >= 1 && st.stack[0] == o && forall k :: 0 <= k < |st.stack| ==> IsOpener(st.stack[k])
  }

  /**
   * A scan from a well-stacked state ends either with an empty stack just
   * after the closer matching the bottom opener, or at the end of the text
   * with the stack still open.
   */
  lemma {:induction false} BalanceFromEnds(text: string, curr: nat, st: BracketState, o: char)
    requires curr <= |text| && WellStacked(st, o)
    ensures var (e, fin) := BalanceFrom(text, curr, st);
      (fin.stack == [] ==> curr < e && text[e - 1] == Closer(o)) &&
      (fin.stack != [] ==> e == |text| && WellStacked(fin, o))
    decreases |text| - curr
  {
    if curr < |text| {
      var st' := BracketStep(st, text[curr]);
      if st'.stack == [] {
        assert |st.stack| == 1;
        assert BalanceFrom(text, curr + 1, st') == (curr + 1, st');
      } else {
        assert WellStacked(st', o);
        BalanceFromEnds(text, curr + 1, st', o);
      }
    }
  }

  /**
   * Once the stack has emptied at `e`, the characters after `e` play no
   * part: any text agreeing with this one up to `e` ends the scan the same way.
   */
  lemma {:induction false} BalanceFromIgnoresTail(text: string, other: string, curr: nat, st: BracketState)
    requires curr <= |text|
    requires BalanceFrom(text, curr, st).1.stack == []
    requires BalanceFrom(text, curr, st).0 <= |other|
    requires other[..BalanceFrom(text, curr, st).0] == text[..BalanceFrom(text, curr, st).0]
    ensures BalanceFrom(other, curr, st) == BalanceFrom(text, curr, st)
    decreases |text| - curr
  {
    var e := BalanceFrom(text, curr, st).0;
    if curr < |text| && st.stack != [] {
      assert curr < e;
      assert other[curr] == other[..e][curr] == text[..e][curr] == text[curr];
      BalanceFromIgnoresTail(text, other, curr + 1, BracketStep(st, text[curr]));
    }
  }

  /**
   * The characters of a string literal up to its closing quote, read with
   * the escape flag `escape`: no unescaped `"`, and no dangling `\\` that
   * would escape the closing quote.
   */
  predicate QuotedBody(b: string, escape: bool)
    decreases |b|
  {
    if b == [] then !escape
    else if escape then QuotedBody(b[1..], false)
    else b[0] != '"' && QuotedBody(b[1..], b[0] == '\\')
  }

  /** Inside a quote, a quoted body is consumed with the stack untouched and the quote still open. */
  lemma {:induction false} BalanceFromInsideQuote(text: string, curr: nat, st: BracketState, b: string)
    requires curr + |b| <= |text| && text[curr..curr + |b|] == b
    requires st.inQuote && st.stack != [] && QuotedBody(b, st.escape)
    ensures BalanceFrom(text, curr, st) == BalanceFrom(text, curr + |b|, st.(escape := false))
    decreases |b|
  {
    if b != [] {
      assert text[curr] == b[0];
      assert text[curr + 1..curr + |b|] == b[1..];
      var st' := BracketStep(st, text[curr]);
      assert st' == st.(escape := !st.escape && b[0] == '\\');
      BalanceFromInsideQuote(text, curr + 1, st', b[1..]);
    }
  }

  /**
   * Brackets inside a string literal do not count: from outside any quote, a
   * run `"` + b + `"` whose body ends the literal only at its last quote
   * leaves the bracket stack as it was and the scan outside quotes again.
   */
  lemma QuotedRunIsSkipped(text: string, curr: nat, st: BracketState, b: string)
    requires curr + |b| + 2 <= |text| && text[curr] == '"' && text[curr + 1..curr + |b| + 1] == b && text[curr + |b| + 1] == '"'
    requires !st.inQuote && !st.escape && st.stack != [] && QuotedBody(b, false)
    ensures BalanceFrom(text, curr, st) == BalanceFrom(text, curr + |b| + 2, st)
  {
    var open := st.(inQuote := true);
    assert BalanceFrom(text, curr, st) == BalanceFrom(text, curr + 1, open);
    BalanceFromInsideQuote(text, curr + 1, open, b);
  }

  /** The end of the balanced span that opens at `start`, if it closes. */
  function BalancedEnd(text: string, start: nat): (r: Option<nat>)
    requires start < |text| && IsOpener(text[start])
    ensures r.Some? ==> start < r.value <= |text| && text[r.value - 1] == Closer(text[start])
  {
    var (e, fin) := BalanceFrom(text, start + 1, BracketState([text[start]], false, false));
    BalanceFromEnds(text, start + 1, BracketState([text[start]], false, false), text[start]);
    if fin.stack == [] then Some(e) else None
  }

  /**
   * The span found in a buffer is found again, unchanged, in every longer
   * buffer that extends it: trailing content never alters a completed span.
   */
  lemma BalancedEndStableUnderExtension(text: string, more: string, start: nat)
    requires start < |text| && IsOpener(text[start])
    requires BalancedEnd(text, start).Some?
    ensures BalancedEnd(text + more, start) == BalancedEnd(text, start)
  {
    var st := BracketState([text[start]], false, false);
    var e := BalanceFrom(text, start + 1, st).0;
    assert (text + more)[..e] == text[..e];
    BalanceFromIgnoresTail(text, text + more, start + 1, st);
  }

  /** A span still open in a buffer is open in every prefix of that buffer long enough to hold its opener. */
  lemma BalancedEndAbsentInPrefix(text: string, n: nat, start: nat)
    requires start < n <= |text| && IsOpener(text[start])
    requires BalancedEnd(text, start).None?
    ensures BalancedEnd(text[..n], start).None?
  {
    if BalancedEnd(text[..n], start).Some? {
      assert text[..n] + text[n..] == text;
      BalancedEndStableUnderExtension(text[..n], text[n..], start);
    }
  }

  /** The balanced scan as the source runs it: a loop over the bracket stack. */
  method ScanBalanced(text: string, startIdx: nat) returns (curr: nat, stack: seq<char>)
    requires startIdx < |text| && IsOpener(text[startIdx])
    ensures var r := BalanceFrom(text, startIdx + 1, BracketState([text[startIdx]], false, false));
      curr == r.0 && stack == r.1.stack
  {
    ghost var total := BalanceFrom(text, startIdx + 1, BracketState([text[startIdx]], false, false));
    stack := [text[startIdx]];
    curr := startIdx + 1;
    var inQuote := false;
    var escape := false;
    while curr < |text| && stack != []
      invariant startIdx + 1 <= curr <= |text|
      invariant BalanceFrom(text, curr, BracketState(stack, inQuote, escape)) == total
      decreases |text| - curr
    {
      var c := text[curr];
      if !inQuote {
        if c == '"' {
          inQuote := true;
        } else if c == '{' || c == '[' {
          stack := stack + [c];
        } else if c == '}' || c == ']' {
          var last := stack[|stack| - 1];
          if (last == '{' && c == '}') || (last == '[' && c == ']') {
            stack := stack[..|stack| - 1];
          }
        }
      } else {
        if escape {
          escape := false;
        } else if c == '\\' {
          escape := true;
        } else if c == '"' {
          inQuote := false;
        }
      }
      curr := curr + 1;
    }
  }

  /** `extract_balanced_json(text, key)` as a value; `JNull` stands for "absent". */
  function ExtractBalanced(text: string, key: string, codec: Codec): JsonValue {
    match SearchKey(text, key, 0)
    case None => JNull
    case Some((_, s)) =>
      if s >= |text| || !IsOpener(text[s]) then JNull
      else match BalancedEnd(text, s)
        case None => JNull
        case Some(e) => codec.loads(text[s..e]).GetOr(JNull)
  }

  /**
   * The extractor only decodes a span that starts at the opening bracket
   * right after `"key"\s*:\s*` and ends at its matching closer; it returns
   * "absent" when the value does not start with a bracket or the span has not
   * closed yet.
   */
  lemma ExtractBalancedDecodesSpan(text: string, key: string, codec: Codec)
    requires ExtractBalanced(text, key, codec) != JNull
    ensures exists p: nat, s: nat, e: nat ::
      SearchKey(text, key, 0) == Some((p, s)) && s < e <= |text| && IsOpener(text[s])
      && text[e - 1] == Closer(text[s]) && BalancedEnd(text, s) == Some(e)
      && codec.loads(text[s..e]) == Some(ExtractBalanced(text, key, codec))
  {
    var (p, s) := SearchKey(text, key, 0).value;
    var e := BalancedEnd(text, s).value;
    assert SearchKey(text, key, 0) == Some((p, s));
  }

  /** The key pattern of the example below ends at its opening brace, index 14. */
  lemma ExampleKeyFound(text: string, key: string)
    requires text == "\"rag_result\": {\"a\":\"}\\\"]\"}, \"x\":1}" && key == "rag_result"
    ensures SearchKey(text, key, 0) == Some((0, 14))
  {
    var q := "\"" + key + "\"";
    assert |q| == 12;
    forall k | 0 <= k < 12
      ensures text[k] == q[k]
    {
    }
    assert text[0..12] == q;
    assert KeyPatternAt(text, key, 0) == Some(14) by {
      assert text[12] == ':' && text[13] == ' ' && text[14] == '{';
    }
  }

  /** In the example below, the key `"a"` and its colon leave the stack as it was. */
  lemma ExampleInnerKey(text: string, st: BracketState)
    requires text == "\"rag_result\": {\"a\":\"}\\\"]\"}, \"x\":1}" && st == BracketState(['{'], false, false)
    ensures BalanceFrom(text, 15, st) == BalanceFrom(text, 19, st)
  {
    assert text[16..17] == "a";
    QuotedRunIsSkipped(text, 15, st, "a");
    assert text[18] == ':';
  }

  /** In the example below, the string value `"}\\"]"` is skipped and the next `}` closes the span. */
  lemma ExampleInnerValue(text: string, st: BracketState)
    requires text == "\"rag_result\": {\"a\":\"}\\\"]\"}, \"x\":1}" && st == BracketState(['{'], false, false)
    ensures BalanceFrom(text, 19, st) == (26, BracketState([], false, false))
  {
    var inner := "}\\\"]";
    assert text[20..24] == inner;
    assert QuotedBody(inner, false);
    QuotedRunIsSkipped(text, 19, st, inner);
    assert text[25] == '}';
  }

  /** The span of the example below, opened at index 14, closes at index 26. */
  lemma ExampleSpanCloses(text: string)
    requires text == "\"rag_result\": {\"a\":\"}\\\"]\"}, \"x\":1}"
    ensures BalancedEnd(text, 14) == Some(26)
  {
    var st := BracketState(['{'], false, false);
    ExampleInnerKey(text, st);
    ExampleInnerValue(text, st);
    BalancedEndOfScan(text, 14, st, 26);
  }

  /** `BalancedEnd` is where a scan from just after the opener empties the stack. */
  lemma BalancedEndOfScan(text: string, start: nat, st: BracketState, e: nat)
    requires start < |text| && IsOpener(text[start]) && st == BracketState([text[start]], false, false)
    requires BalanceFrom(text, start + 1, st) == (e, BracketState([], false, false))
    ensures BalancedEnd(text, start) == Some(e)
  {
  }

  /**
   * A closer and an escaped quote inside a string value do not end the span:
   * in `"rag_result": {"a":"}\\"]"}, "x":1}` the span decoded is the whole
   * object `{"a":"}\\"]"}`, not the text up to the first `}`.
   */
  lemma BracketInStringExample(text: string, key: string, span: string, codec: Codec)
    requires text == "\"rag_result\": {\"a\":\"}\\\"]\"}, \"x\":1}" && key == "rag_result"
    requires span == "{\"a\":\"}\\\"]\"}"
    ensures ExtractBalanced(text, key, codec) == codec.loads(span).GetOr(JNull)
  {
    ExampleKeyFound(text, key);
    ExampleSpanCloses(text);
    assert text[14..26] == span;
  }

  method ExtractBalancedJson(text: string, key: string, codec: Codec) returns (r: JsonValue)
    ensures r == ExtractBalanced(text, key, codec)
  {
    var m := SearchKey(text, key, 0);
    if m.None? {
      return JNull;
    }
    var startIdx := m.value.1;
    if startIdx >= |text| {
      return JNull;
    }
    var startChar := text[startIdx];
    if !IsOpener(startChar) {
      return JNull;
    }
    var curr, stack := ScanBalanced(text, startIdx);
    if stack == [] {
      var jsonSubstr := text[startIdx..curr];
      r := codec.loads(jsonSubstr).GetOr(JNull);
    } else {
      r := JNull;
    }
  }

  // ---------------------------------------------------------------------
  // The whole recovery step (lines 174-308).
  // ---------------------------------------------------------------------

  /** What the recovery step leaves behind for the rest of the frame. */
  datatype Recovered = Recovered(fullText: string, jsonParsed: bool, rag: JsonValue, web: JsonValue)

  /** `is_workflow_like` (line 232). */
  predicate WorkflowLike(pst: string) {
    StartsWith(Strip(pst), "{") && (Contains(pst, LlmKey) || Contains(pst, RagKey))
  }

  const NotAString: string := "llm_result is not a string"

  /** The full-document decode (lines 175-193); `bad` when `llm_result` is truthy but not a string. */
  datatype FullParse = FullParse(text: string, parsed: bool, rag: JsonValue, web: JsonValue, bad: bool)

  function TryFullParse(pst: string, codec: Codec): FullParse {
    match codec.loads(pst)
    case Some(JObj(m)) =>
      var llm := Get(m, "llm_result");
      var rag := Get(m, "rag_result");
      var web := Get(m, "web_result");
      if !Truthy(llm) then FullParse("", false, rag, web, false)
      else if llm.JStr? then FullParse(llm.s, true, rag, web, false)
      else FullParse("", true, rag, web, true)
    case _ => FullParse("", false, JNull, JNull, false)
  }

  /** Steps 2 and 3: the manual scan when nothing was decoded, then the plain-text fallback. */
  function RecoverText(pst: string, codec: Codec, fp: FullParse): string {
    var manual := if !fp.parsed && pst != "" then ManualLlm(pst, codec) else fp.text;
    if manual == "" && !fp.parsed && !WorkflowLike(pst) then pst else manual
  }

  /** Step 4: the balanced scan for an evidence field still missing. */
  function RecoverEvidence(pst: string, codec: Codec, fp: FullParse, decoded: JsonValue, key: string): JsonValue {
    if !fp.parsed && pst != "" && !Truthy(decoded) then ExtractBalanced(pst, key, codec) else decoded
  }

  /**
   * The recovery of one frame's parse source: the full decode, else the
   * manual scan; the plain-text fallback; then the balanced scans for the
   * evidence fields that are still missing. A `llm_result` that decodes to a
   * truthy non-string makes the later slicing raise: `Failure`.
   */
  function Recover(pst: string, codec: Codec): Result<Recovered, string> {
    var fp := TryFullParse(pst, codec);
    if fp.bad then Failure(NotAString)
    else Success(Recovered(RecoverText(pst, codec, fp), fp.parsed,
                           RecoverEvidence(pst, codec, fp, fp.rag, "rag_result"),
                           RecoverEvidence(pst, codec, fp, fp.web, "web_result")))
  }

  method RecoverFields(pst: string, codec: Codec) returns (r: Result<Recovered, string>)
    ensures r == Recover(pst, codec)
  {
    var fp := TryFullParse(pst, codec);
    if fp.bad {
      return Failure(NotAString);
    }
    var fullText := fp.text;
    var isJsonParsed := fp.parsed;
    var ragRes := fp.rag;
    var webRes := fp.web;
    if !isJsonParsed && pst != "" {
      fullText := ExtractLlmResult(pst, codec);
    }
    var isWorkflowLike := StartsWith(Strip(pst), "{") && (Contains(pst, LlmKey) || Contains(pst, RagKey));
    if fullText == "" && !isJsonParsed && !isWorkflowLike {
      fullText := pst;
    }
    assert fullText == RecoverText(pst, codec, fp);
    if !isJsonParsed && pst != "" {
      if !Truthy(ragRes) {
        ragRes := ExtractBalancedJson(pst, "rag_result", codec);
      }
      if !Truthy(webRes) {
        webRes := ExtractBalancedJson(pst, "web_result", codec);
      }
    }
    r := Success(Recovered(fullText, isJsonParsed, ragRes, webRes));
  }

  /** A complete document whose `llm_result` is a non-empty string is read directly. */
  lemma FullDecodeWins(pst: string, codec: Codec, m: map<string, JsonValue>, s: string)
    requires codec.loads(pst) == Some(JObj(m))
    requires Get(m, "llm_result") == JStr(s) && s != ""
    ensures Recover(pst, codec) == Success(Recovered(s, true, Get(m, "rag_result"), Get(m, "web_result")))
  {
  }

  /**
   * Plain-chat mode: text that does not decode and carries no `llm_result`
   * key is itself the answer.
   */
  lemma PlainTextIsTheAnswer(pst: string, codec: Codec)
    requires codec.loads(pst).None?
    requires !Contains(pst, LlmKey) && !WorkflowLike(pst)
    ensures Recover(pst, codec).Success?
    ensures Recover(pst, codec).value.fullText == pst
  {
  }

  /** Recovery only fails on a decoded `llm_result` that is truthy and not a string; truncated input never does. */
  lemma RecoverFailsOnlyOnNonString(pst: string, codec: Codec)
    ensures Recover(pst, codec).Failure? <==>
      exists m :: codec.loads(pst) == Some(JObj(m)) && Truthy(Get(m, "llm_result")) && !Get(m, "llm_result").JStr?
  {
    if Recover(pst, codec).Failure? {
      var m := codec.loads(pst).value.fields;
      assert codec.loads(pst) == Some(JObj(m));
    }
  }
}
