/**
 * Token accounting of one frame (bailian_service.py, lines 414-443): the
 * direct `input_tokens`/`output_tokens` counts of the usage object, and, when
 * both are zero, the sum over its per-model `models` list.
 */
module TokenUsage {
  import opened Wrappers

  /** One entry of `usage.models`; a missing or `None` count is `None`. */
  datatype ModelUsage = ModelUsage(inputTokens: Option<int>, outputTokens: Option<int>)

  /**
   * The SDK's usage object. `models` is empty when the attribute is
   * missing, not a list, or an empty list: the code treats those alike.
   */
  datatype UsageObject = UsageObject(inputTokens: Option<int>, outputTokens: Option<int>, models: seq<ModelUsage>)

  /** The `usage` dictionary put on a finishing event. */
  datatype UsageInfo = UsageInfo(inputTokens: int, outputTokens: int)

  /** `get_token_count`: a missing or `None` attribute counts as 0. */
  function TokenCount(v: Option<int>): (r: int)
    ensures v.None? ==> r == 0
    ensures v.Some? ==> r == v.value
  {
    v.GetOr(0)
  }

  function SumIn(models: seq<ModelUsage>): int {
    if models == [] then 0
    else SumIn(models[..|models| - 1]) + TokenCount(models[|models| - 1].inputTokens)
  }

  function SumOut(models: seq<ModelUsage>): int {
    if models == [] then 0
    else SumOut(models[..|models| - 1]) + TokenCount(models[|models| - 1].outputTokens)
  }

  /** The usage the frame reports: the direct counts, unless both are 0. */
  function Usage(u: UsageObject): UsageInfo {
    var i := TokenCount(u.inputTokens);
    var o := TokenCount(u.outputTokens);
    if i == 0 && o == 0 then UsageInfo(SumIn(u.models), SumOut(u.models))
    else UsageInfo(i, o)
  }

  /** The code's accumulation: the direct counts, then the loop over `models`. */
  method ComputeUsage(u: UsageObject) returns (r: UsageInfo)
    ensures r == Usage(u)
  {
    var inTokens := TokenCount(u.inputTokens);
    var outTokens := TokenCount(u.outputTokens);
    if inTokens == 0 && outTokens == 0 {
      if |u.models| > 0 {
        for k := 0 to |u.models|
          invariant inTokens == SumIn(u.models[..k])
          invariant outTokens == SumOut(u.models[..k])
        {
          assert u.models[..k + 1][..k] == u.models[..k];
          inTokens := inTokens + TokenCount(u.models[k].inputTokens);
          outTokens := outTokens + TokenCount(u.models[k].outputTokens);
        }
        assert u.models[..|u.models|] == u.models;
      }
    }
    r := UsageInfo(inTokens, outTokens);
  }

  /** Summing two lists of models one after the other adds their sums. */
  lemma {:induction false} SumsSplit(a: seq<ModelUsage>, b: seq<ModelUsage>)
    ensures SumIn(a + b) == SumIn(a) + SumIn(b)
    ensures SumOut(a + b) == SumOut(a) + SumOut(b)
    decreases |b|
  {
    if b == [] {
      assert a + b == a;
    } else {
      var b' := b[..|b| - 1];
      assert (a + b)[..|a + b| - 1] == a + b';
      SumsSplit(a, b');
    }
  }

  /** Missing counts contribute nothing to the sums. */
  lemma {:induction false} MissingCountsAreZero(models: seq<ModelUsage>)
    requires forall k :: 0 <= k < |models| ==> models[k].inputTokens.None? && models[k].outputTokens.None?
    ensures SumIn(models) == 0 && SumOut(models) == 0
  {
    if models != [] {
      MissingCountsAreZero(models[..|models| - 1]);
    }
  }

  /** Non-zero direct counts are reported as they are, and the models list is ignored. */
  lemma DirectCountsWin(u: UsageObject)
    requires TokenCount(u.inputTokens) != 0 || TokenCount(u.outputTokens) != 0
    ensures Usage(u) == UsageInfo(TokenCount(u.inputTokens), TokenCount(u.outputTokens))
  {
  }

  /** With no direct counts, the per-model counts are summed. */
  lemma ModelsSummedWhenNoDirectCount(u: UsageObject, m: ModelUsage)
    requires u.inputTokens.None? && u.outputTokens == Some(0)
    requires u.models == [m]
    ensures Usage(u) == UsageInfo(TokenCount(m.inputTokens), TokenCount(m.outputTokens))
  {
    assert u.models[..|u.models| - 1] == [];
    assert SumIn(u.models) == TokenCount(m.inputTokens);
    assert SumOut(u.models) == TokenCount(m.outputTokens);
  }
}
