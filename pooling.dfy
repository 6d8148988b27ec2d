// Masked mean pooling of the model's per-token output (Program.cs, lines
// 137-154). The output tensor `[1, seqLen, hidden]` is a sequence of seqLen
// rows of `hidden` reals; float arithmetic is modelled over `real`.

module Pooling {
  import opened TokenWindow

  /** Every row of the model output has `hidden` components. */
  predicate Rectangular(output: seq<seq<real>>, hidden: nat) {
    forall t :: 0 <= t < |output| ==> |output[t]| == hidden
  }

  /** The number of positions t < n whose mask entry is non-zero. */
  function ValidCount(mask: seq<int>, n: nat): (count: nat)
    requires n <= |mask|
    ensures count <= n
  {
    if n == 0 then 0 else ValidCount(mask, n - 1) + (if mask[n - 1] != 0 then 1 else 0)
  }

  /** The sum of component h of the rows t < n whose mask entry is non-zero. */
  function MaskedSum(mask: seq<int>, output: seq<seq<real>>, n: nat, h: nat): real
    requires n <= |mask| && n <= |output|
    requires forall t :: 0 <= t < n ==> h < |output[t]|
  {
    if n == 0 then 0.0
    else MaskedSum(mask, output, n - 1, h) + (if mask[n - 1] != 0 then output[n - 1][h] else 0.0)
  }

  /** With no valid position among the first n, nothing is summed. */
  lemma {:induction false} MaskedSumWithoutValidPositions(mask: seq<int>, output: seq<seq<real>>, n: nat, h: nat)
    requires n <= |mask| && n <= |output|
    requires forall t :: 0 <= t < n ==> h < |output[t]|
    requires ValidCount(mask, n) == 0
    ensures MaskedSum(mask, output, n, h) == 0.0
  {
    if n > 0 {
      MaskedSumWithoutValidPositions(mask, output, n - 1, h);
    }
  }

  /** The mean over the valid positions of each of the `hidden` components,
      or the zero vector when no position is valid. */
  function MeanPool(mask: seq<int>, output: seq<seq<real>>, hidden: nat): (pooled: seq<real>)
    requires |output| <= |mask| && Rectangular(output, hidden)
    ensures |pooled| == hidden
  {
    var denom := ValidCount(mask, |output|);
    seq(hidden, h requires 0 <= h < hidden =>
      if denom > 0 then MaskedSum(mask, output, |output|, h) / denom as real else 0.0)
  }

  lemma {:induction false} PrefixCountDetermines(mask: seq<int>, mask': seq<int>, n: nat)
    requires n <= |mask| && n <= |mask'|
    requires forall t :: 0 <= t < n ==> mask[t] == mask'[t]
    ensures ValidCount(mask, n) == ValidCount(mask', n)
  {
    if n > 0 {
      PrefixCountDetermines(mask, mask', n - 1);
    }
  }

  /** Pooling reads the mask and the output only at the first n positions. */
  lemma {:induction false} PrefixDetermines(mask: seq<int>, output: seq<seq<real>>,
                                            mask': seq<int>, output': seq<seq<real>>, n: nat, h: nat)
    requires n <= |mask| && n <= |output| && n <= |mask'| && n <= |output'|
    requires forall t :: 0 <= t < n ==> h < |output[t]| && h < |output'[t]|
    requires forall t :: 0 <= t < n ==> mask[t] == mask'[t] && output[t][h] == output'[t][h]
    ensures MaskedSum(mask, output, n, h) == MaskedSum(mask', output', n, h)
  {
    if n > 0 {
      PrefixDetermines(mask, output, mask', output', n - 1, h);
    }
  }

  /** Positions from n on whose mask entry is zero change neither the count
      nor the sums. */
  lemma {:induction false} MaskedTailNotCounted(mask: seq<int>, n: nat, m: nat)
    requires n <= m <= |mask|
    requires forall t :: n <= t < m ==> mask[t] == 0
    ensures ValidCount(mask, m) == ValidCount(mask, n)
  {
    if m > n {
      MaskedTailNotCounted(mask, n, m - 1);
    }
  }

  lemma {:induction false} MaskedTailNotSummed(mask: seq<int>, output: seq<seq<real>>, n: nat, m: nat, h: nat)
    requires n <= m <= |mask| && m <= |output|
    requires forall t :: 0 <= t < m ==> h < |output[t]|
    requires forall t :: n <= t < m ==> mask[t] == 0
    ensures MaskedSum(mask, output, m, h) == MaskedSum(mask, output, n, h)
  {
    if m > n {
      MaskedTailNotSummed(mask, output, n, m - 1, h);
    }
  }

  /** Padded positions never contribute: pooling over an encoding whose
      positions from n on are masked out equals pooling over its first n
      positions alone. */
  lemma PaddingDoesNotContribute(mask: seq<int>, output: seq<seq<real>>, hidden: nat, n: nat)
    requires n <= |output| <= |mask| && Rectangular(output, hidden)
    requires forall t :: n <= t < |output| ==> mask[t] == 0
    ensures MeanPool(mask, output, hidden) == MeanPool(mask[..n], output[..n], hidden)
  {
    var m := |output|;
    MaskedTailNotCounted(mask, n, m);
    PrefixCountDetermines(mask, mask[..n], n);
    forall h | 0 <= h < hidden
      ensures MaskedSum(mask, output, m, h) == MaskedSum(mask[..n], output[..n], n, h)
    {
      MaskedTailNotSummed(mask, output, n, m, h);
      PrefixDetermines(mask, output, mask[..n], output[..n], n, h);
    }
  }

  /** With no valid position the pooled vector is all zeros. */
  lemma NoValidPositionGivesZeroVector(mask: seq<int>, output: seq<seq<real>>, hidden: nat)
    requires |output| <= |mask| && Rectangular(output, hidden)
    requires forall t :: 0 <= t < |output| ==> mask[t] == 0
    ensures ValidCount(mask, |output|) == 0
    ensures forall h :: 0 <= h < hidden ==> MeanPool(mask, output, hidden)[h] == 0.0
  {
    MaskedTailNotCounted(mask, 0, |output|);
  }

  lemma {:induction false} MaskedSumAtLeast(mask: seq<int>, output: seq<seq<real>>, n: nat, h: nat, lo: real)
    requires n <= |mask| && n <= |output|
    requires forall t :: 0 <= t < n ==> h < |output[t]|
    requires forall t :: 0 <= t < n && mask[t] != 0 ==> lo <= output[t][h]
    ensures (ValidCount(mask, n) as real) * lo <= MaskedSum(mask, output, n, h)
  {
    if n > 0 {
      MaskedSumAtLeast(mask, output, n - 1, h, lo);
      if mask[n - 1] != 0 {
        OneMoreTerm(ValidCount(mask, n - 1), lo);
      }
    }
  }

  lemma {:induction false} MaskedSumAtMost(mask: seq<int>, output: seq<seq<real>>, n: nat, h: nat, hi: real)
    requires n <= |mask| && n <= |output|
    requires forall t :: 0 <= t < n ==> h < |output[t]|
    requires forall t :: 0 <= t < n && mask[t] != 0 ==> output[t][h] <= hi
    ensures MaskedSum(mask, output, n, h) <= (ValidCount(mask, n) as real) * hi
  {
    if n > 0 {
      MaskedSumAtMost(mask, output, n - 1, h, hi);
      if mask[n - 1] != 0 {
        OneMoreTerm(ValidCount(mask, n - 1), hi);
      }
    }
  }

  lemma OneMoreTerm(c: nat, x: real)
    ensures ((c + 1) as real) * x == (c as real) * x + x
  {
  }

  /** A masked mean lies between bounds on the values it averages. */
  lemma MeanBetween(mask: seq<int>, output: seq<seq<real>>, n: nat, h: nat, lo: real, hi: real)
    requires n <= |mask| && n <= |output|
    requires forall t :: 0 <= t < n ==> h < |output[t]|
    requires forall t :: 0 <= t < n && mask[t] != 0 ==> lo <= output[t][h] <= hi
    requires ValidCount(mask, n) > 0
    ensures lo <= MaskedSum(mask, output, n, h) / ValidCount(mask, n) as real <= hi
  {
    MaskedSumAtLeast(mask, output, n, h, lo);
    MaskedSumAtMost(mask, output, n, h, hi);
    DivisionBetween(MaskedSum(mask, output, n, h), ValidCount(mask, n) as real, lo, hi);
  }

  /** A pooled component is a mean: it lies between the least and the
      greatest value that component takes at the valid positions. */
  lemma MeanWithinBounds(mask: seq<int>, output: seq<seq<real>>, hidden: nat, h: nat, lo: real, hi: real)
    requires |output| <= |mask| && Rectangular(output, hidden) && h < hidden
    requires ValidCount(mask, |output|) > 0
    requires forall t :: 0 <= t < |output| && mask[t] != 0 ==> lo <= output[t][h] <= hi
    ensures lo <= MeanPool(mask, output, hidden)[h] <= hi
  {
    MeanBetween(mask, output, |output|, h, lo, hi);
  }

  lemma DivisionBetween(sum: real, c: real, lo: real, hi: real)
    requires c > 0.0
    requires c * lo <= sum
    requires sum <= c * hi
    ensures lo <= sum / c <= hi
  {
    assert sum / c * c == sum;
  }

  /** Pooling over the padded mask equals pooling over the natural encoding,
      and only over the rows of the positions it has. */
  lemma PaddedPoolsLikeUnpadded(att: seq<int>, output: seq<seq<real>>, hidden: nat)
    requires |att| <= MaxLength && |output| == MaxLength && Rectangular(output, hidden)
    ensures MeanPool(Fit(att), output, hidden) == MeanPool(att, output[..|att|], hidden)
  {
    var padded := Fit(att);
    assert padded[..|att|] == att;
    forall t | |att| <= t < MaxLength
      ensures padded[t] == 0
    {
      if |att| < MaxLength {
        assert padded[t] == Zeros(MaxLength - |att|)[t - |att|];
      }
    }
    PaddingDoesNotContribute(padded, output, hidden, |att|);
  }

  /** After truncation, the entries beyond MaxLength have no effect on pooling. */
  lemma TruncatedTailIgnored(att: seq<int>, att': seq<int>, output: seq<seq<real>>, hidden: nat)
    requires |att| >= MaxLength && |att'| >= MaxLength && att[..MaxLength] == att'[..MaxLength]
    requires |output| == MaxLength && Rectangular(output, hidden)
    ensures MeanPool(Fit(att), output, hidden) == MeanPool(Fit(att'), output, hidden)
  {
    assert Fit(att) == att[..MaxLength];
    assert Fit(att') == att'[..MaxLength];
  }

  /** The pooling loop: `pooled[h]` accumulates component h of every row whose
      mask entry is non-zero, `denom` counts those rows, and the sums are
      divided by `denom` only when it is positive. */
  method MaskedMeanPool(attentionMask: array<int>, output: seq<seq<real>>, hidden: nat)
    returns (pooled: array<real>, denom: real)
    requires |output| <= attentionMask.Length && Rectangular(output, hidden)
    ensures fresh(pooled) && pooled.Length == hidden
    ensures denom == ValidCount(attentionMask[..], |output|) as real
    ensures pooled[..] == MeanPool(attentionMask[..], output, hidden)
  {
    ghost var mask := attentionMask[..];
    var seqLen := |output|;
    pooled := new real[hidden](_ => 0.0);
    denom := 0.0;
    for t := 0 to seqLen
      invariant denom == ValidCount(mask, t) as real
      invariant forall k :: 0 <= k < hidden ==> pooled[k] == MaskedSum(mask, output, t, k)
    {
      if attentionMask[t] == 0 {
        continue;
      }
      denom := denom + 1.0;
      for h := 0 to hidden
        invariant forall k :: 0 <= k < h ==> pooled[k] == MaskedSum(mask, output, t + 1, k)
        invariant forall k :: h <= k < hidden ==> pooled[k] == MaskedSum(mask, output, t, k)
      {
        pooled[h] := pooled[h] + output[t][h];
      }
    }
    if denom > 0.0 {
      for h := 0 to hidden
        invariant forall k :: 0 <= k < h ==> pooled[k] == MaskedSum(mask, output, seqLen, k) / denom
        invariant forall k :: h <= k < hidden ==> pooled[k] == MaskedSum(mask, output, seqLen, k)
      {
        pooled[h] := pooled[h] / denom;
      }
    }
    if denom == 0.0 {
      forall k | 0 <= k < hidden
        ensures pooled[k] == 0.0
      {
        MaskedSumWithoutValidPositions(mask, output, seqLen, k);
      }
    }
    assert forall k :: 0 <= k < hidden ==> pooled[k] == MeanPool(mask, output, hidden)[k];
  }
}
