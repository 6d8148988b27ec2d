// Fixing the tokenizer's output to exactly MaxLength positions and copying
// it into the model's input tensors (Program.cs, lines 87-120).

module TokenWindow {
  import opened Common

  /** The fixed sequence length the model is fed. */
  const MaxLength: nat := 512

  /** `Enumerable.Repeat(0L, n)` */
  function Zeros(n: nat): (z: seq<int>)
    ensures |z| == n && forall i :: 0 <= i < n ==> z[i] == 0
  {
    seq(n, _ => 0)
  }

  /** The list after the truncate/pad step: the first MaxLength entries when
      there are more, the list right-padded with zeros when there are fewer. */
  function Fit(s: seq<int>): seq<int> {
    if |s| > MaxLength then s[..MaxLength]
    else if |s| < MaxLength then s + Zeros(MaxLength - |s|)
    else s
  }

  /** Fit is the one list of MaxLength entries that agrees with `s` on the
      positions `s` has and holds 0 on every position it lacks. */
  lemma FitIsDetermined(s: seq<int>, t: seq<int>)
    requires |t| == MaxLength
    requires forall i :: 0 <= i < MaxLength && i < |s| ==> t[i] == s[i]
    requires forall i :: |s| <= i < MaxLength ==> t[i] == 0
    ensures t == Fit(s)
  {
    var f := Fit(s);
    assert |f| == MaxLength;
    forall i | 0 <= i < MaxLength
      ensures t[i] == f[i]
    {
      if i >= |s| {
        assert f[i] == Zeros(MaxLength - |s|)[i - |s|];
      }
    }
  }

  /** Truncates or right-pads the token ids and the attention mask, which the
      tokenizer returns with equal lengths, to exactly MaxLength entries. */
  method FitToMaxLength(ids: seq<int>, att: seq<int>) returns (fitIds: seq<int>, fitAtt: seq<int>)
    requires |ids| == |att|
    ensures |fitIds| == MaxLength && |fitAtt| == MaxLength
    ensures forall i :: 0 <= i < MaxLength && i < |ids| ==> fitIds[i] == ids[i] && fitAtt[i] == att[i]
    ensures forall i :: |ids| <= i < MaxLength ==> fitIds[i] == 0 && fitAtt[i] == 0
    ensures fitIds == Fit(ids) && fitAtt == Fit(att)
  {
    fitIds, fitAtt := ids, att;
    if |fitIds| > MaxLength {
      fitIds := fitIds[..MaxLength];
      fitAtt := fitAtt[..MaxLength];
    } else if |fitIds| < MaxLength {
      var pad := MaxLength - |fitIds|;
      fitIds := fitIds + Zeros(pad);
      fitAtt := fitAtt + Zeros(pad);
    }
  }

  /** Copies the fixed-length lists into the `[1, MaxLength]` input tensors
      (the batch dimension, always 1, is left implicit) and, when the model
      takes token type ids, allocates that tensor filled with zeros. */
  method FillTensors(ids: seq<int>, att: seq<int>, useTokenTypeIds: bool)
    returns (inputIds: array<int>, attentionMask: array<int>, tokenTypeIds: Option<array<int>>)
    requires |ids| == MaxLength && |att| == MaxLength
    ensures fresh(inputIds) && fresh(attentionMask)
    ensures tokenTypeIds.Some? ==> fresh(tokenTypeIds.value)
    ensures inputIds.Length == MaxLength && attentionMask.Length == MaxLength
    ensures forall i :: 0 <= i < MaxLength ==> inputIds[i] == ids[i] && attentionMask[i] == att[i]
    ensures tokenTypeIds.Some? <==> useTokenTypeIds
    ensures tokenTypeIds.Some? ==>
              tokenTypeIds.value.Length == MaxLength
              && forall i :: 0 <= i < MaxLength ==> tokenTypeIds.value[i] == 0
  {
    inputIds := new int[MaxLength];
    attentionMask := new int[MaxLength];
    for i := 0 to MaxLength
      invariant forall k :: 0 <= k < i ==> inputIds[k] == ids[k] && attentionMask[k] == att[k]
    {
      inputIds[i] := ids[i];
      attentionMask[i] := att[i];
    }
    tokenTypeIds := None;
    if useTokenTypeIds {
      var zeros := new int[MaxLength](_ => 0);
      tokenTypeIds := Some(zeros);
    }
  }
}
