// EmbedText and the three embedding routes (Program.cs, lines 65-174). The
// tokenizer and the ONNX session are foreign code: the tokenizer is a
// function from the full text to its encoding, the session's forward pass a
// function from the input tensors to the `[seqLen, hidden]` output, and
// Math.Sqrt a function on reals.

module EmbeddingServer {
  import opened Common
  import opened TextRules
  import opened TokenWindow
  import opened Pooling
  import opened Normalization

  /** What `tokenizer.Encode(...).First()` yields: token ids and attention mask. */
  datatype Encoding = Encoding(ids: seq<int>, attentionMask: seq<int>)

  /** The loaded inference session: whether it takes `token_type_ids`, the
      hidden size of its output, and its forward pass. */
  datatype OnnxModel = OnnxModel(
    usesTokenTypeIds: bool,
    hidden: nat,
    forward: (seq<int>, seq<int>, Option<seq<int>>) -> seq<seq<real>>)

  /** The JSON body of the three routes. */
  datatype EmbedRequest = EmbedRequest(text: Option<string>, mode: Option<string>)

  /** `Results.BadRequest(new { error })` or `Results.Ok(new EmbedResponse { Dim, Vector })`. */
  datatype EmbedResult = BadRequest(error: string) | Ok(dim: int, vector: seq<real>)

  /** The tokenizer returns as many mask entries as token ids. */
  ghost predicate WellFormedTokenizer(tokenize: string -> Encoding) {
    forall s :: |tokenize(s).ids| == |tokenize(s).attentionMask|
  }

  /** The model returns one row of `hidden` components per input position. */
  ghost predicate WellShaped(model: OnnxModel) {
    forall ids, mask, typeIds ::
      |model.forward(ids, mask, typeIds)| == MaxLength
      && Rectangular(model.forward(ids, mask, typeIds), model.hidden)
  }

  /** The token type ids fed to the model: all zeros, when it takes them. */
  function TokenTypeIds(model: OnnxModel): Option<seq<int>> {
    if model.usesTokenTypeIds then Some(Zeros(MaxLength)) else None
  }

  /** The pooled vector before normalisation, for a text that is not blank. */
  function Pooled(text: string, mode: string, tokenize: string -> Encoding, model: OnnxModel): (pooled: seq<real>)
    requires WellShaped(model)
    ensures |pooled| == model.hidden
  {
    var enc := tokenize(PrefixFor(mode) + text);
    var att := Fit(enc.attentionMask);
    MeanPool(att, model.forward(Fit(enc.ids), att, TokenTypeIds(model)), model.hidden)
  }

  /** What EmbedText answers. */
  function Embed(text: Option<string>, mode: string, tokenize: string -> Encoding,
                 model: OnnxModel, sqrt: real -> real): EmbedResult
    requires WellShaped(model)
  {
    if IsNullOrWhiteSpace(text) then BadRequest("text is required")
    else
      var vector := L2Normalize(Pooled(text.value, mode, tokenize, model), sqrt);
      Ok(|vector|, vector)
  }

  /** Rejects blank text; otherwise prefixes the text by mode, tokenizes,
      fixes the length to MaxLength, runs the model, pools the valid
      positions and normalises the result. */
  method EmbedText(text: Option<string>, mode: string, tokenize: string -> Encoding,
                   model: OnnxModel, sqrt: real -> real) returns (r: EmbedResult)
    requires WellFormedTokenizer(tokenize) && WellShaped(model)
    ensures r.BadRequest? <==> IsNullOrWhiteSpace(text)
    ensures r.BadRequest? ==> r.error == "text is required"
    ensures r.Ok? ==> r.dim == |r.vector| == model.hidden
    ensures r == Embed(text, mode, tokenize, model, sqrt)
  {
    if IsNullOrWhiteSpace(text) {
      return BadRequest("text is required");
    }
    var normalizedMode := NormalizeMode(mode);
    var prefix := if normalizedMode == "query" then QueryPrefix else PassagePrefix;
    var fullText := prefix + text.value;

    var enc := tokenize(fullText);
    var ids, att := FitToMaxLength(enc.ids, enc.attentionMask);

    var inputIds, attentionMask, tokenTypeIds := FillTensors(ids, att, model.usesTokenTypeIds);
    assert inputIds[..] == ids && attentionMask[..] == att;
    var typeIds: Option<seq<int>> := None;
    if tokenTypeIds.Some? {
      typeIds := Some(tokenTypeIds.value[..]);
      assert typeIds.value == Zeros(MaxLength);
    }

    var output := model.forward(inputIds[..], attentionMask[..], typeIds);
    var pooled, denom := MaskedMeanPool(attentionMask, output, model.hidden);
    L2NormalizeInPlace(pooled, sqrt);
    r := Ok(pooled.Length, pooled[..]);
  }

  /** `POST /embed`: a missing mode means "passage". */
  method EmbedRoute(req: EmbedRequest, tokenize: string -> Encoding, model: OnnxModel, sqrt: real -> real)
    returns (r: EmbedResult)
    requires WellFormedTokenizer(tokenize) && WellShaped(model)
    ensures r == Embed(req.text, if req.mode.Some? then req.mode.value else "passage", tokenize, model, sqrt)
  {
    var mode := if req.mode.Some? then req.mode.value else "passage";
    r := EmbedText(req.text, mode, tokenize, model, sqrt);
  }

  /** `POST /embed-doc`: always passage mode. */
  method EmbedDocRoute(req: EmbedRequest, tokenize: string -> Encoding, model: OnnxModel, sqrt: real -> real)
    returns (r: EmbedResult)
    requires WellFormedTokenizer(tokenize) && WellShaped(model)
    ensures r == Embed(req.text, "passage", tokenize, model, sqrt)
  {
    r := EmbedText(req.text, "passage", tokenize, model, sqrt);
  }

  /** `POST /embed-search`: always query mode. */
  method EmbedSearchRoute(req: EmbedRequest, tokenize: string -> Encoding, model: OnnxModel, sqrt: real -> real)
    returns (r: EmbedResult)
    requires WellFormedTokenizer(tokenize) && WellShaped(model)
    ensures r == Embed(req.text, "query", tokenize, model, sqrt)
  {
    r := EmbedText(req.text, "query", tokenize, model, sqrt);
  }

  /** A blank text is answered with the same BadRequest whatever the
      tokenizer, the model and the square root: neither is consulted. */
  lemma BlankTextRejectedBeforeInference(text: Option<string>, mode: string, mode': string,
                                         tokenize: string -> Encoding, tokenize': string -> Encoding,
                                         model: OnnxModel, model': OnnxModel,
                                         sqrt: real -> real, sqrt': real -> real)
    requires WellShaped(model) && WellShaped(model')
    requires IsNullOrWhiteSpace(text)
    ensures Embed(text, mode, tokenize, model, sqrt) == BadRequest("text is required")
    ensures Embed(text, mode, tokenize, model, sqrt) == Embed(text, mode', tokenize', model', sqrt')
  {
  }

  /** The tokenizer is asked about one string only: the chosen prefix
      followed by the request text, unchanged. */
  lemma TokenizerSeesPrefixedText(text: string, mode: string, tokenize: string -> Encoding,
                                  tokenize': string -> Encoding, model: OnnxModel, sqrt: real -> real)
    requires WellShaped(model)
    requires tokenize(PrefixFor(mode) + text) == tokenize'(PrefixFor(mode) + text)
    ensures Embed(Some(text), mode, tokenize, model, sqrt) == Embed(Some(text), mode, tokenize', model, sqrt)
  {
  }

  /** `/embed-search` embeds with the query prefix. */
  lemma SearchRouteUsesQueryPrefix()
    ensures PrefixFor("query") == QueryPrefix
  {
    NormalizeModeOfPlainWord("query");
  }

  /** `/embed-doc`, and `/embed` without a mode, embed with the passage prefix. */
  lemma DocRouteUsesPassagePrefix()
    ensures PrefixFor("passage") == PassagePrefix
  {
    NormalizeModeOfPlainWord("passage");
  }

  /** With an exact square root, a successful answer is either a unit vector
      or the pooled vector left unchanged because its norm is below 1e-12. */
  lemma EmbeddingIsUnitOrBelowGuard(text: Option<string>, mode: string, tokenize: string -> Encoding,
                                    model: OnnxModel, sqrt: real -> real)
    requires WellShaped(model) && IsSqrt(sqrt)
    requires !IsNullOrWhiteSpace(text)
    ensures var r := Embed(text, mode, tokenize, model, sqrt);
      var pooled := Pooled(text.value, mode, tokenize, model);
      r.Ok? && r.dim == |r.vector| == model.hidden
      && (SumSquares(r.vector) == 1.0
          || (r.vector == pooled && SumSquares(pooled) < Epsilon * Epsilon))
  {
    var pooled := Pooled(text.value, mode, tokenize, model);
    GuardOnSumOfSquares(pooled, sqrt);
    if SumSquares(pooled) >= Epsilon * Epsilon {
      UnitNormAboveGuard(pooled, sqrt);
    }
  }

  /** When no position of the encoding that survives truncation is marked
      valid, the answer is still Ok, with the all-zero vector of the model's
      hidden size. */
  lemma NoValidTokenGivesZeroVector(text: string, mode: string, tokenize: string -> Encoding,
                                    model: OnnxModel, sqrt: real -> real)
    requires WellShaped(model)
    requires !IsNullOrWhiteSpace(Some(text))
    requires var mask := tokenize(PrefixFor(mode) + text).attentionMask;
      forall t :: 0 <= t < |mask| && t < MaxLength ==> mask[t] == 0
    ensures var r := Embed(Some(text), mode, tokenize, model, sqrt);
      r.Ok? && r.dim == model.hidden
      && forall h :: 0 <= h < model.hidden ==> r.vector[h] == 0.0
  {
    var enc := tokenize(PrefixFor(mode) + text);
    var att := Fit(enc.attentionMask);
    var output := model.forward(Fit(enc.ids), att, TokenTypeIds(model));
    forall t | 0 <= t < MaxLength
      ensures att[t] == 0
    {
      if t >= |enc.attentionMask| {
        assert att[t] == Zeros(MaxLength - |enc.attentionMask|)[t - |enc.attentionMask|];
      }
    }
    NoValidPositionGivesZeroVector(att, output, model.hidden);
    ZeroVectorStaysZero(Pooled(text, mode, tokenize, model), sqrt);
  }
}
