/**
 * The typing-effect smoothing of bailian_service.py (lines 449-462): a delta
 * longer than five characters is cut into consecutive sub-chunks of
 * `max(5, len / 20)` characters, the last one possibly shorter.
 */
module Smoothing {
  import opened PyText

  /** `SMOOTH_THRESHOLD`: deltas longer than this are split. */
  const SmoothThreshold: nat := 5

  /** `max(5, int(len(delta) / 20))`; `int` truncates the non-negative quotient. */
  function Step(n: nat): (r: nat)
    ensures r >= 5 && r >= n / 20
    ensures r == 5 || r == n / 20
  {
    if n / 20 > 5 then n / 20 else 5
  }

  function Min(a: nat, b: nat): nat {
    if a <= b then a else b
  }

  /** The sub-chunks the `while curr_idx < total_len` loop cuts from index `i` on. */
  function ChunksFrom(delta: string, step: nat, i: nat): seq<string>
    requires step > 0
    decreases |delta| - i
  {
    if i >= |delta| then []
    else [delta[i..Min(i + step, |delta|)]] + ChunksFrom(delta, step, Min(i + step, |delta|))
  }

  /** The sub-chunks of a delta. */
  function Chunks(delta: string): seq<string> {
    ChunksFrom(delta, Step(|delta|), 0)
  }

  /** The sub-chunks concatenate back to the rest of the delta. */
  lemma {:induction false} ChunksFromConcat(delta: string, step: nat, i: nat)
    requires step > 0 && i <= |delta|
    ensures Concat(ChunksFrom(delta, step, i)) == delta[i..]
    decreases |delta| - i
  {
    if i < |delta| {
      var e := Min(i + step, |delta|);
      ChunksFromConcat(delta, step, e);
      assert ChunksFrom(delta, step, i)[1..] == ChunksFrom(delta, step, e);
      assert delta[i..] == delta[i..e] + delta[e..];
    }
  }

  /** Every sub-chunk is non-empty and at most `step` long. */
  lemma {:induction false} ChunksFromBounded(delta: string, step: nat, i: nat)
    requires step > 0
    ensures forall k :: 0 <= k < |ChunksFrom(delta, step, i)| ==>
      0 < |ChunksFrom(delta, step, i)[k]| <= step
    decreases |delta| - i
  {
    if i < |delta| {
      var e := Min(i + step, |delta|);
      ChunksFromBounded(delta, step, e);
      assert ChunksFrom(delta, step, i)[1..] == ChunksFrom(delta, step, e);
    }
  }

  /** There is a sub-chunk exactly when part of the delta is left. */
  lemma ChunksFromEmptyIff(delta: string, step: nat, i: nat)
    requires step > 0
    ensures ChunksFrom(delta, step, i) == [] <==> i >= |delta|
  {
  }

  /**
   * The number of sub-chunks is the rest of the delta divided by the step,
   * rounded up: the chunks cover it, and one chunk fewer would not.
   */
  lemma {:induction false} ChunksFromCount(delta: string, step: nat, i: nat)
    requires step > 0 && i <= |delta|
    ensures |ChunksFrom(delta, step, i)| * step >= |delta| - i
    ensures i < |delta| ==> (|ChunksFrom(delta, step, i)| - 1) * step < |delta| - i
    decreases |delta| - i
  {
    if i < |delta| {
      var e := Min(i + step, |delta|);
      var c := |ChunksFrom(delta, step, e)|;
      ChunksFromCount(delta, step, e);
      assert |ChunksFrom(delta, step, i)| == c + 1;
      assert (c + 1) * step == c * step + step;
      if e == |delta| {
        assert c == 0;
      }
    }
  }

  /** The smoothed delta: a concatenation of non-empty pieces of at most `Step` characters. */
  lemma SmoothingReconstructs(delta: string)
    ensures Concat(Chunks(delta)) == delta
    ensures forall k :: 0 <= k < |Chunks(delta)| ==> 0 < |Chunks(delta)[k]| <= Step(|delta|)
    ensures |Chunks(delta)| * Step(|delta|) >= |delta|
    ensures delta != [] ==> (|Chunks(delta)| - 1) * Step(|delta|) < |delta|
  {
    ChunksFromConcat(delta, Step(|delta|), 0);
    ChunksFromBounded(delta, Step(|delta|), 0);
    ChunksFromCount(delta, Step(|delta|), 0);
  }

  /** A 47-character delta is cut into ten chunks of size 5 (the last one of 2). */
  lemma FortySevenCharacters(delta: string)
    requires |delta| == 47
    ensures Step(|delta|) == 5 && |Chunks(delta)| == 10
  {
    ChunksFromCount(delta, 5, 0);
  }
}
