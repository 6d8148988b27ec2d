# Embedding server pipeline, modelled in Dafny

This project models the text-to-vector pipeline of the Shukachi seed agent's
embedding server: `EmbedText`, `L2NormalizeInPlace` and the mode defaults of
the `/embed`, `/embed-doc` and `/embed-search` routes in
`src/Shukachi.SeedAgent.EmbeddingServer/Program.cs`. For one request the pipeline does the following, in order:

1. It rejects a null or white-space-only text with `BadRequest("text is required")`.
2. It trims and lower-cases the mode. When the result is `"query"` it prepends `"query: "` to the text; otherwise it prepends `"passage: "`.
3. It tokenizes the prefixed text.
4. It truncates or right-pads the token ids and the attention mask to exactly `MaxLength` = 512 entries.
5. It copies both lists into the input tensors. When the model takes `token_type_ids`, that tensor is all zeros.
6. It runs the model.
7. It averages the output rows whose mask entry is non-zero. The division is skipped when there are none.
8. It L2-normalises the result in place. A norm below 1e-12 leaves the vector unchanged.

The files and modules:

- `text_rules.dfy`
  - `Common`: `Option`, the model of a C# reference that may be null.
  - `TextRules`: `string.IsNullOrWhiteSpace`, `String.Trim` (the forward and backward scans), the ASCII part of `ToLowerInvariant`, and the prefix rule.
- `token_window.dfy`, module `TokenWindow`: the truncate/pad step and the tensor fill.
- `pooling.dfy`, module `Pooling`: masked mean pooling. `MeanPool` is its specification, and `MaskedMeanPool` is the nested-loop method proved against it.
- `normalization.dfy`, module `Normalization`:
  - `L2Normalize` is the specification.
  - `SquaredNorm` and `L2NormalizeInPlace` are the loops, over an `array<real>` updated in place.
  - Lemmas cover the guard, the zero vector and the unit norm.
- `embedding_server.dfy`, module `EmbeddingServer`:
  - `EmbedText` runs the whole pipeline.
  - `Embed` is the specification that `EmbedText` is proved against.
  - There is one method per route.
  - Lemmas cover blank input, the prefixes, and the shape and norm of the answer.

The parts outside the model are treated as follows:

- **Tokenizer:** a function parameter from the full text to its ids and attention mask. `WellFormedTokenizer` states that these two have equal lengths.
- **ONNX session:** the datatype `OnnxModel`. It holds whether the model takes token type ids, its hidden size, and its forward pass as a function. `WellShaped` states that the forward pass returns `MaxLength` rows of `hidden` components.
- **`Math.Sqrt`:** a function parameter. `L2NormalizeInPlace`, `ZeroVectorStaysZero` and `ScaledByPositiveFactor` hold for every such function; `GuardOnSumOfSquares`, `UnitNormAboveGuard` and `EmbeddingIsUnitOrBelowGuard` assume it is exact (`IsSqrt`).

All arithmetic is over `real`.

## Model

| member | source | states |
|---|---|---|
| TextRules.IsWhiteSpace | src/Shukachi.SeedAgent.EmbeddingServer/Program.cs:67 | the characters char.IsWhiteSpace accepts: U+0009..U+000D, space, U+0085, U+00A0, U+1680, U+2000..U+200A, U+2028, U+2029, U+202F, U+205F, U+3000 |
| TextRules.IsNullOrWhiteSpace | src/Shukachi.SeedAgent.EmbeddingServer/Program.cs:67 | a text is blank when it is null or every character of it is white space, the empty text included |
| TextRules.Trim | src/Shukachi.SeedAgent.EmbeddingServer/Program.cs:70 | the mode with its leading and trailing white space removed (characterised by StripIsStrippedSlice and StripOfStrippedSlice) |
| TextRules.ToLowerInvariant | src/Shukachi.SeedAgent.EmbeddingServer/Program.cs:70 | every ASCII upper-case letter replaced by its lower-case letter, every other character kept, length unchanged |
| TextRules.NormalizeMode | src/Shukachi.SeedAgent.EmbeddingServer/Program.cs:70 | Trim followed by ToLowerInvariant on the ASCII letters |
| TextRules.PrefixFor | src/Shukachi.SeedAgent.EmbeddingServer/Program.cs:71 | "query: " when the normalised mode is "query", "passage: " otherwise (characterised by QueryPrefixIff) |
| TextRules.SkipForward | src/Shukachi.SeedAgent.EmbeddingServer/Program.cs:70 | the first index from k on whose character is not stripped; every character skipped is one that Trim removes |
| TextRules.SkipBackward | src/Shukachi.SeedAgent.EmbeddingServer/Program.cs:70 | the end of the kept slice; every character dropped from the end is one that Trim removes, and the scan never passes the start |
| TextRules.StripIsStrippedSlice | src/Shukachi.SeedAgent.EmbeddingServer/Program.cs:70 | Trim returns a slice of the mode with only white space before and after it, and no white space at its own ends |
| TextRules.StripOfStrippedSlice | src/Shukachi.SeedAgent.EmbeddingServer/Program.cs:70 | Trim's result is unique: any slice with only stripped characters around it and none at its own ends is what Trim returns |
| TextRules.NormalizeModeOfPlainWord | src/Shukachi.SeedAgent.EmbeddingServer/Program.cs:70 | a mode with no white space at its ends and no upper-case letter is unchanged by Trim().ToLowerInvariant() |
| TextRules.LowerIsQuery | src/Shukachi.SeedAgent.EmbeddingServer/Program.cs:70-71 | the lower-cased word equals "query" exactly when it spells "query" in some letter case |
| TextRules.NormalizedQueryIsPadded | src/Shukachi.SeedAgent.EmbeddingServer/Program.cs:70-71 | a mode that normalises to "query" is "query", in some letter case, with only white space around it |
| TextRules.PaddedQueryNormalizes | src/Shukachi.SeedAgent.EmbeddingServer/Program.cs:70-71 | "query" in any letter case, surrounded by any white space, normalises to "query" |
| TextRules.QueryPrefixIff | src/Shukachi.SeedAgent.EmbeddingServer/Program.cs:70-72 | the prefix is "query: " if and only if the mode is white space, "query" in any case, white space; every other mode, unknown ones included, gets "passage: " |
| TokenWindow.Zeros | src/Shukachi.SeedAgent.EmbeddingServer/Program.cs:100-101 | a list of exactly n zeros, as Enumerable.Repeat(0L, pad) appends |
| TokenWindow.Fit | src/Shukachi.SeedAgent.EmbeddingServer/Program.cs:92-102 | the first MaxLength entries when there are more, the list followed by zeros up to MaxLength when there are fewer, the list itself otherwise (characterised by FitIsDetermined) |
| TokenWindow.FitToMaxLength | src/Shukachi.SeedAgent.EmbeddingServer/Program.cs:91-102 | both lists come out with exactly MaxLength entries; the first min(n, MaxLength) entries are kept in order; every added entry is 0 |
| TokenWindow.FitIsDetermined | src/Shukachi.SeedAgent.EmbeddingServer/Program.cs:92-102 | the fitted list is the only list of MaxLength entries that agrees with the input where the input has entries and is 0 elsewhere |
| TokenWindow.FillTensors | src/Shukachi.SeedAgent.EmbeddingServer/Program.cs:104-120 | the tensors hold exactly the fitted ids and mask; a token type tensor exists exactly when the model uses one, and it is all zeros |
| Pooling.ValidCount | src/Shukachi.SeedAgent.EmbeddingServer/Program.cs:139-144 | the pooling denominator counts the positions whose mask is non-zero, and is at most seqLen |
| Pooling.MaskedSum | src/Shukachi.SeedAgent.EmbeddingServer/Program.cs:141-148 | the sum of component h over the rows t < n whose mask entry is non-zero |
| Pooling.MeanPool | src/Shukachi.SeedAgent.EmbeddingServer/Program.cs:137-154 | the pooled vector has one component per hidden unit |
| Pooling.MaskedMeanPool | src/Shukachi.SeedAgent.EmbeddingServer/Program.cs:137-154 | the loops leave denom equal to the count of non-zero mask positions, and pooled[h] equal to the masked sum of column h divided by denom, or 0 when denom is 0 |
| Pooling.MaskedSumWithoutValidPositions | src/Shukachi.SeedAgent.EmbeddingServer/Program.cs:141-148 | with no valid position, nothing is accumulated |
| Pooling.PrefixDetermines | src/Shukachi.SeedAgent.EmbeddingServer/Program.cs:141-148 | the accumulated sums depend only on the mask and the output at the positions scanned |
| Pooling.PrefixCountDetermines | src/Shukachi.SeedAgent.EmbeddingServer/Program.cs:141-144 | the denominator depends only on the mask entries at the positions scanned |
| Pooling.MaskedTailNotCounted | src/Shukachi.SeedAgent.EmbeddingServer/Program.cs:141-144 | positions with mask 0 add nothing to the denominator |
| Pooling.MaskedTailNotSummed | src/Shukachi.SeedAgent.EmbeddingServer/Program.cs:141-148 | positions with mask 0 add nothing to any sum |
| Pooling.PaddingDoesNotContribute | src/Shukachi.SeedAgent.EmbeddingServer/Program.cs:141-154 | pooling over an encoding whose tail is masked out equals pooling over its head alone |
| Pooling.PaddedPoolsLikeUnpadded | src/Shukachi.SeedAgent.EmbeddingServer/Program.cs:97-154 | pooling over the zero-padded mask equals pooling over the natural encoding and its own rows |
| Pooling.TruncatedTailIgnored | src/Shukachi.SeedAgent.EmbeddingServer/Program.cs:92-96 | mask entries beyond MaxLength, which truncation drops, cannot affect the pooled vector |
| Pooling.NoValidPositionGivesZeroVector | src/Shukachi.SeedAgent.EmbeddingServer/Program.cs:150-154 | with no valid position the denominator is 0 and the pooled vector is all zeros |
| Pooling.MaskedSumAtLeast | src/Shukachi.SeedAgent.EmbeddingServer/Program.cs:141-148 | a lower bound on every valid value, times the count, bounds the sum from below |
| Pooling.MaskedSumAtMost | src/Shukachi.SeedAgent.EmbeddingServer/Program.cs:141-148 | an upper bound on every valid value, times the count, bounds the sum from above |
| Pooling.MeanBetween | src/Shukachi.SeedAgent.EmbeddingServer/Program.cs:150-154 | a masked mean lies between the bounds of the values it averages |
| Pooling.MeanWithinBounds | src/Shukachi.SeedAgent.EmbeddingServer/Program.cs:137-154 | each pooled component lies between the least and greatest value of that component over the valid positions |
| Normalization.SumSquares | src/Shukachi.SeedAgent.EmbeddingServer/Program.cs:185-187 | the sum of the squares of the components, accumulated left to right |
| Normalization.Scale | src/Shukachi.SeedAgent.EmbeddingServer/Program.cs:193-194 | every component multiplied by the same factor c, length unchanged |
| Normalization.L2Normalize | src/Shukachi.SeedAgent.EmbeddingServer/Program.cs:183-195 | the vector unchanged when sqrt of its sum of squares is below 1e-12, otherwise every component times 1 / norm (the specification L2NormalizeInPlace is proved against) |
| Normalization.SquaredNorm | src/Shukachi.SeedAgent.EmbeddingServer/Program.cs:185-187 | the loop returns the sum of the squares of the components |
| Normalization.L2NormalizeInPlace | src/Shukachi.SeedAgent.EmbeddingServer/Program.cs:183-195 | the array becomes the input left unchanged when the norm is below 1e-12, and otherwise every component times 1 / norm |
| Normalization.SumSquaresNonNegative | src/Shukachi.SeedAgent.EmbeddingServer/Program.cs:185-187 | the sum of squares is never negative |
| Normalization.SumSquaresOfScaled | src/Shukachi.SeedAgent.EmbeddingServer/Program.cs:192-194 | multiplying every component by c multiplies the sum of squares by c * c |
| Normalization.GuardOnSumOfSquares | src/Shukachi.SeedAgent.EmbeddingServer/Program.cs:189-190 | with an exact square root, the guard fires exactly when the sum of squares is below 1e-24, and the vector is then unchanged |
| Normalization.ZeroVectorStaysZero | src/Shukachi.SeedAgent.EmbeddingServer/Program.cs:189-190 | an all-zero vector is returned unchanged |
| Normalization.ScaledByPositiveFactor | src/Shukachi.SeedAgent.EmbeddingServer/Program.cs:189-194 | whatever the square root returns, when the norm is at least 1e-12 every component is multiplied by the same positive factor 1 / norm |
| Normalization.UnitNormAboveGuard | src/Shukachi.SeedAgent.EmbeddingServer/Program.cs:189-194 | above the guard, with exact arithmetic, the result has sum of squares 1 |
| EmbeddingServer.TokenTypeIds | src/Shukachi.SeedAgent.EmbeddingServer/Program.cs:113-120 | the token type input: MaxLength zeros when the model takes token_type_ids, absent otherwise |
| EmbeddingServer.Embed | src/Shukachi.SeedAgent.EmbeddingServer/Program.cs:65-165 | the answer to a request: BadRequest for blank text, otherwise Ok with the normalised pooled vector and its length (the specification EmbedText is proved against) |
| EmbeddingServer.Pooled | src/Shukachi.SeedAgent.EmbeddingServer/Program.cs:75-154 | the pooled vector of a request has the model's hidden size |
| EmbeddingServer.EmbedText | src/Shukachi.SeedAgent.EmbeddingServer/Program.cs:65-165 | BadRequest("text is required") exactly for null or white-space text; otherwise Ok with Dim equal to the vector length and to hidden; the answer is the normalised mean pool of the prefixed, fitted encoding |
| EmbeddingServer.EmbedRoute | src/Shukachi.SeedAgent.EmbeddingServer/Program.cs:167-171 | /embed embeds with the request's mode, or "passage" when it is null |
| EmbeddingServer.EmbedDocRoute | src/Shukachi.SeedAgent.EmbeddingServer/Program.cs:173 | /embed-doc embeds in passage mode whatever the request says |
| EmbeddingServer.EmbedSearchRoute | src/Shukachi.SeedAgent.EmbeddingServer/Program.cs:174 | /embed-search embeds in query mode whatever the request says |
| EmbeddingServer.BlankTextRejectedBeforeInference | src/Shukachi.SeedAgent.EmbeddingServer/Program.cs:67-68 | blank text gets the same BadRequest whatever the mode, tokenizer, model and square root, so none of them is consulted |
| EmbeddingServer.TokenizerSeesPrefixedText | src/Shukachi.SeedAgent.EmbeddingServer/Program.cs:70-85 | the answer depends on the tokenizer only through its encoding of the prefix followed by the unchanged text |
| EmbeddingServer.SearchRouteUsesQueryPrefix | src/Shukachi.SeedAgent.EmbeddingServer/Program.cs:174 | mode "query" selects the "query: " prefix |
| EmbeddingServer.DocRouteUsesPassagePrefix | src/Shukachi.SeedAgent.EmbeddingServer/Program.cs:169-173 | mode "passage" selects the "passage: " prefix |
| EmbeddingServer.EmbeddingIsUnitOrBelowGuard | src/Shukachi.SeedAgent.EmbeddingServer/Program.cs:156-164 | with an exact square root, a non-blank text gets Ok with Dim = hidden, and the vector has unit norm or is the pooled vector left as is below the guard |
| EmbeddingServer.NoValidTokenGivesZeroVector | src/Shukachi.SeedAgent.EmbeddingServer/Program.cs:150-164 | when no position that survives truncation is valid, the answer is Ok with the all-zero vector of the hidden size |

## Left out

- The tokenizer and the ONNX inference session are foreign libraries. They are parameters: a function for the tokenizer, and the datatype `OnnxModel` for the session. The tokenizer's failure modes are not modelled.
- The model's output is assumed to have `seqLen == MaxLength` rows of `hidden` components (`WellShaped`). The choice of the output name is not modelled.
- Floating point is not modelled:
  - the arithmetic is exact over `real`;
  - `Math.Sqrt` is a parameter; `GuardOnSumOfSquares`, `UnitNormAboveGuard` and `EmbeddingIsUnitOrBelowGuard` assume it is exact;
  - the rounding of `(float)(1.0 / norm)` and the float/double mixing of the sums are left out.
- The `int` to `long` widening of the ids and the mask carries no meaning over unbounded `int`.
- The input tensors are one-dimensional arrays and the output tensor is a sequence of seqLen rows; the batch dimension, always 1, is dropped from all of them.
- TextRules.ToLowerInvariant lower-cases ASCII letters only. This does not affect the prefix choice: no character outside ASCII lower-cases to a letter of "query".
- The following web plumbing is left out because it has no logic to verify:
  - HTTP hosting and JSON serialisation;
  - Swagger;
  - the `/health` endpoint;
  - session disposal at shutdown.
- Concurrent requests sharing the inference session are not modelled.
- The API side of the repository is left out: the vector-store client, the HTTP embedding client, the controllers and the plugins. It is network glue, calls into an opaque language model, or holds one-line formatters.
- The API's text controller makes one chat-completion call and returns no references; there is no multi-round retrieval loop in the code to model.
- A request with no valid position is answered `Ok` with the all-zero vector; no invalid-embedding error exists (`NoValidTokenGivesZeroVector`).
- Pooling counts every position whose mask entry is non-zero, not only entries equal to 1.
- There is no separate document mode: every mode other than "query", "document" included, gets the passage prefix.
