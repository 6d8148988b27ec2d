// The pure text rules at the head of the embedding request: the blank-text
// check (string.IsNullOrWhiteSpace), the normalisation of the mode string
// (Trim, then ToLowerInvariant) and the choice of the e5 prefix.

module Common {
  /** A C# reference that may be null (`string?`). */
  datatype Option<T> = None | Some(value: T)
}

module TextRules {
  import opened Common

  /** char.IsWhiteSpace: U+0009..U+000D, U+0085 and the Unicode space, line
      and paragraph separators. */
  predicate IsWhiteSpace(c: char) {
    ('\U{9}' <= c <= '\U{D}') || c == ' ' || c == '\U{85}' || c == '\U{A0}' || c == '\U{1680}'
    || ('\U{2000}' <= c <= '\U{200A}') || c == '\U{2028}' || c == '\U{2029}'
    || c == '\U{202F}' || c == '\U{205F}' || c == '\U{3000}'
  }

  /** Every character of `s` is white space (true of the empty string). */
  predicate AllWhiteSpace(s: string) {
    forall i :: 0 <= i < |s| ==> IsWhiteSpace(s[i])
  }

  /** string.IsNullOrWhiteSpace: null, empty, or white space only. */
  predicate IsNullOrWhiteSpace(text: Option<string>) {
    match text
    case None => true
    case Some(s) => AllWhiteSpace(s)
  }

  /** The first index at or after `k` whose character does not satisfy `p`
      (|s| when there is none): the forward scan of String.Trim. */
  function SkipForward(s: string, p: char -> bool, k: nat): (i: nat)
    requires k <= |s|
    ensures k <= i <= |s|
    ensures forall m :: k <= m < i ==> p(s[m])
    ensures i == |s| || !p(s[i])
    decreases |s| - k
  {
    if k < |s| && p(s[k]) then SkipForward(s, p, k + 1) else k
  }

  /** The end of `s[i..k]` once its trailing characters satisfying `p` are
      dropped: the backward scan of String.Trim, which stops at `i`. */
  function SkipBackward(s: string, p: char -> bool, i: nat, k: nat): (j: nat)
    requires i <= k <= |s|
    ensures i <= j <= k
    ensures forall m :: j <= m < k ==> p(s[m])
    ensures j == i || !p(s[j - 1])
    decreases k
  {
    if k > i && p(s[k - 1]) then SkipBackward(s, p, i, k - 1) else k
  }

  /** `s` without the characters satisfying `p` at either end. */
  function Strip(s: string, p: char -> bool): string {
    var i := SkipForward(s, p, 0);
    s[i..SkipBackward(s, p, i, |s|)]
  }

  /** `s[i..j]` has only characters satisfying `p` on either side of it. */
  predicate PaddedBy(s: string, i: int, j: int, p: char -> bool) {
    0 <= i <= j <= |s|
    && (forall k :: 0 <= k < i ==> p(s[k]))
    && (forall k :: j <= k < |s| ==> p(s[k]))
  }

  /** `s[i..j]` is what remains of `s` once the characters satisfying `p` are
      taken off both ends: everything outside it satisfies `p`, and it
      neither starts nor ends with such a character. */
  predicate IsStrippedSlice(s: string, i: int, j: int, p: char -> bool) {
    PaddedBy(s, i, j, p) && (i == j || (!p(s[i]) && !p(s[j - 1])))
  }

  /** Strip returns a stripped slice of `s`. */
  lemma StripIsStrippedSlice(s: string, p: char -> bool)
    ensures var i := SkipForward(s, p, 0);
      var j := SkipBackward(s, p, i, |s|);
      Strip(s, p) == s[i..j] && IsStrippedSlice(s, i, j, p)
  {
  }

  /** The stripped slice is unique: whenever `s[i..j]` is one, Strip returns it. */
  lemma StripOfStrippedSlice(s: string, i: int, j: int, p: char -> bool)
    requires IsStrippedSlice(s, i, j, p)
    ensures Strip(s, p) == s[i..j]
  {
    var i' := SkipForward(s, p, 0);
    if i == j {
      assert i' == |s|;
    } else {
      assert i' == i;
    }
  }

  /** String.Trim(): drops the white space at both ends, and only that. */
  function Trim(s: string): string {
    Strip(s, IsWhiteSpace)
  }

  /** ToLowerInvariant on one character, for the ASCII letters. */
  function ToLowerAscii(c: char): char {
    if 'A' <= c <= 'Z' then (c as int - 'A' as int + 'a' as int) as char else c
  }

  function ToLowerInvariant(s: string): string {
    seq(|s|, i requires 0 <= i < |s| => ToLowerAscii(s[i]))
  }

  /** `mode.Trim().ToLowerInvariant()` */
  function NormalizeMode(mode: string): string {
    ToLowerInvariant(Trim(mode))
  }

  const QueryPrefix: string := "query: "
  const PassagePrefix: string := "passage: "

  /** The e5 instruction prefix chosen by the request mode. */
  function PrefixFor(mode: string): string {
    if NormalizeMode(mode) == "query" then QueryPrefix else PassagePrefix
  }

  /** `w` spells "query" in any mix of ASCII upper and lower case. */
  predicate IsQueryIgnoringCase(w: string) {
    |w| == 5 && forall k :: 0 <= k < 5 ==> ToLowerAscii(w[k]) == "query"[k]
  }

  /** `mode` is white space, then `mode[i..j]`, then white space, and the
      middle spells "query". */
  predicate IsPaddedQuery(mode: string, i: int, j: int) {
    PaddedBy(mode, i, j, IsWhiteSpace) && IsQueryIgnoringCase(mode[i..j])
  }

  /** A mode with no white space at either end and no upper-case ASCII
      letter is its own normal form. */
  lemma NormalizeModeOfPlainWord(w: string)
    requires w == [] || (!IsWhiteSpace(w[0]) && !IsWhiteSpace(w[|w| - 1]))
    requires forall i :: 0 <= i < |w| ==> !('A' <= w[i] <= 'Z')
    ensures NormalizeMode(w) == w
  {
    assert w[0..|w|] == w;
    StripOfStrippedSlice(w, 0, |w|, IsWhiteSpace);
  }

  lemma LowerIsQuery(w: string)
    ensures ToLowerInvariant(w) == "query" <==> IsQueryIgnoringCase(w)
  {
    if IsQueryIgnoringCase(w) {
      assert forall k :: 0 <= k < 5 ==> ToLowerInvariant(w)[k] == "query"[k];
    }
  }

  /** A mode that normalises to "query" is "query", in some letter case,
      padded with white space. */
  lemma NormalizedQueryIsPadded(mode: string)
    requires NormalizeMode(mode) == "query"
    ensures var i := SkipForward(mode, IsWhiteSpace, 0);
      IsPaddedQuery(mode, i, i + 5)
  {
    StripIsStrippedSlice(mode, IsWhiteSpace);
    LowerIsQuery(Trim(mode));
  }

  /** "query", in any letter case and padded with white space, normalises
      to "query". */
  lemma PaddedQueryNormalizes(mode: string, i: int, j: int)
    requires IsPaddedQuery(mode, i, j)
    ensures NormalizeMode(mode) == "query"
  {
    var w := mode[i..j];
    assert ToLowerAscii(w[0]) == 'q' && ToLowerAscii(w[4]) == 'y';
    assert IsStrippedSlice(mode, i, j, IsWhiteSpace);
    StripOfStrippedSlice(mode, i, j, IsWhiteSpace);
    LowerIsQuery(w);
  }

  /** The query prefix is chosen exactly when the mode, stripped of white
      space at both ends, spells "query" in any letter case; every other
      mode, including unknown ones, gets the passage prefix. */
  lemma QueryPrefixIff(mode: string)
    ensures PrefixFor(mode) == QueryPrefix <==> exists i, j :: IsPaddedQuery(mode, i, j)
    ensures PrefixFor(mode) == QueryPrefix || PrefixFor(mode) == PassagePrefix
  {
    if NormalizeMode(mode) == "query" {
      NormalizedQueryIsPadded(mode);
    }
    if i, j :| IsPaddedQuery(mode, i, j) {
      PaddedQueryNormalizes(mode, i, j);
    }
  }
}
