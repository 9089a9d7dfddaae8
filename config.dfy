/**
 * `Settings.assemble_cors_origins` (config.py, lines 19-32): the value given
 * for `BACKEND_CORS_ORIGINS` before validation. A string that does not start
 * with `[` is a comma-separated list, each origin stripped; a string that
 * starts with `[` is JSON text, an empty list when it does not decode; a list
 * passes through; anything else is a `ValueError`.
 */
module CorsConfig {
  import opened Wrappers
  import opened Json
  import opened PyText

  const BadValue: string := "ValueError"

  /** `[i.strip() for i in pieces]`. */
  function Stripped(pieces: seq<string>): seq<JsonValue> {
    seq(|pieces|, k requires 0 <= k < |pieces| => JStr(Strip(pieces[k])))
  }

  function AssembleCorsOrigins(v: JsonValue, codec: Codec): Result<JsonValue, string> {
    if v.JStr? && !StartsWith(v.s, "[") then Success(JArr(Stripped(Split(v.s, ","))))
    else if v.JStr? then
      (match codec.loads(v.s) case Some(decoded) => Success(decoded) case None => Success(JArr([])))
    else if v.JArr? then Success(v)
    else Failure(BadValue)
  }

  /** The number of times `c` occurs in `s`. */
  function Occurrences(s: string, c: char): nat {
    if s == [] then 0 else (if s[0] == c then 1 else 0) + Occurrences(s[1..], c)
  }

  lemma {:induction false} OccurrencesConcat(a: string, b: string, c: char)
    ensures Occurrences(a + b, c) == Occurrences(a, c) + Occurrences(b, c)
  {
    if a == [] {
      assert a + b == b;
    } else {
      assert (a + b)[1..] == a[1..] + b;
      OccurrencesConcat(a[1..], b, c);
    }
  }

  lemma {:induction false} OccurrencesAbsent(s: string, c: char)
    requires forall j :: 0 <= j < |s| ==> s[j] != c
    ensures Occurrences(s, c) == 0
  {
    if s != [] {
      OccurrencesAbsent(s[1..], c);
    }
  }

  /** Splitting on one character gives one more piece than it has occurrences. */
  lemma {:induction false} SplitCount(s: string, c: char)
    ensures |Split(s, [c])| == Occurrences(s, c) + 1
    decreases |s|
  {
    var i := Find(s, [c], 0);
    forall j | 0 <= j < |s| && (i == -1 || j < i) ensures s[j] != c {
      assert !MatchAt(s, [c], j);
      assert s[j..j + 1] == [s[j]];
    }
    if i == -1 {
      OccurrencesAbsent(s, c);
    } else {
      var rest := s[i + 1..];
      assert s[i..i + 1] == [c];
      assert s == s[..i] + [c] + rest;
      OccurrencesConcat(s[..i] + [c], rest, c);
      OccurrencesConcat(s[..i], [c], c);
      OccurrencesAbsent(s[..i], c);
      SplitCount(rest, c);
    }
  }

  /**
   * A comma-separated string gives one origin per comma plus one; each is a
   * stripped piece containing no comma, and the pieces before stripping join
   * back to the string.
   */
  lemma CommaSeparated(s: string, codec: Codec)
    requires !StartsWith(s, "[")
    ensures var r := AssembleCorsOrigins(JStr(s), codec);
      && r.Success? && r.value.JArr?
      && |r.value.items| == |Split(s, ",")| == Occurrences(s, ',') + 1
      && (forall k :: 0 <= k < |r.value.items| ==> r.value.items[k] == JStr(Strip(Split(s, ",")[k])))
      && (forall k :: 0 <= k < |Split(s, ",")| ==> !Contains(Split(s, ",")[k], ","))
      && Join(Split(s, ","), ",") == s
  {
    SplitCount(s, ',');
    SplitPiecesFree(s, ",");
    JoinSplit(s, ",");
  }

  /** A single origin is kept, stripped. */
  lemma SingleOrigin(s: string, codec: Codec)
    requires !StartsWith(s, "[") && forall j :: 0 <= j < |s| ==> s[j] != ','
    ensures AssembleCorsOrigins(JStr(s), codec) == Success(JArr([JStr(Strip(s))]))
  {
    OccurrencesAbsent(s, ',');
    SplitCount(s, ',');
    JoinSplit(s, ",");
    var pieces := Split(s, ",");
    assert |pieces| == 1;
    assert Join(pieces, ",") == pieces[0];
    assert Stripped(pieces) == [JStr(Strip(s))];
  }

  /** JSON text is decoded, and text that does not decode gives no origins. */
  lemma JsonForm(s: string, codec: Codec)
    requires StartsWith(s, "[")
    ensures codec.loads(s).Some? ==> AssembleCorsOrigins(JStr(s), codec) == Success(codec.loads(s).value)
    ensures codec.loads(s).None? ==> AssembleCorsOrigins(JStr(s), codec) == Success(JArr([]))
  {
  }

  /** A list is returned unchanged; a value neither string nor list is refused. */
  lemma OtherInputs(v: JsonValue, codec: Codec)
    ensures v.JArr? ==> AssembleCorsOrigins(v, codec) == Success(v)
    ensures AssembleCorsOrigins(v, codec).Failure? <==> !v.JStr? && !v.JArr?
  {
  }
}
