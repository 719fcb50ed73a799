/**
  The token-free form in which stream responses are cached: the two ordered replacements
  made on the way in and the two made on the way out.
 */
module StreamCache {
  import opened PercentEncoding
  import opened TextReplace

  const TOKEN_WORD := "PLEXIO_ACCESS_TOKEN"
  const ENCODED_WORD := "PLEXIO_ENCODED_ACCESS_TOKEN"
  const TOKEN_PLACEHOLDER := "__PLEXIO_ACCESS_TOKEN__"
  const ENCODED_PLACEHOLDER := "__PLEXIO_ENCODED_ACCESS_TOKEN__"

  // ---- writing and reading ----

  function Scrub(text: string, token: string): string {
    if token == "" then text else
    var encoded := NonEmptyQuote(token);
    var first := if encoded != token then Replace(text, encoded, ENCODED_PLACEHOLDER) else text;
    Replace(first, token, TOKEN_PLACEHOLDER)
  }

  function Unscrub(stored: string, token: string): string {
    if token == "" then stored else
    Replace(Replace(stored, TOKEN_PLACEHOLDER, token), ENCODED_PLACEHOLDER, Quote(token))
  }

  ghost predicate Plain(text: string) {
    !Contains(text, TOKEN_WORD) && !Contains(text, ENCODED_WORD)
  }

  // ---- the placeholders ----

  lemma WordFacts()
    ensures TOKEN_PLACEHOLDER == "__" + TOKEN_WORD + "__"
    ensures ENCODED_PLACEHOLDER == "__" + ENCODED_WORD + "__"
    ensures Wrapped(TOKEN_WORD) && Wrapped(ENCODED_WORD)
  {}

  /** Neither end is an underscore and no two underscores meet. */
  predicate Wrapped(w: string) {
    |w| > 0 && w[0] != '_' && w[|w| - 1] != '_'
    && forall i :: 0 <= i < |w| - 1 ==> w[i] != '_' || w[i + 1] != '_'
  }

  lemma WrappedBorders(w: string)
    requires Wrapped(w)
    ensures BordersAtMost("__" + w + "__", 2)
  {
    var p := "__" + w + "__";
    forall k | 2 < k < |p| ensures p[..k] != p[|p| - k..] {
      var j := |p| - k;
      assert p[..k][0] == '_' && p[..k][1] == '_';
      assert p[j..][0] == p[j] && p[j..][1] == p[j + 1];
      assert j >= 2 ==> p[j] == w[j - 2];
      assert j == |w| + 1 || p[j + 1] == w[j - 1];
    }
  }

  lemma WordsApart()
    ensures Disjoint(TOKEN_WORD, ENCODED_PLACEHOLDER)
  {
    var w, p := TOKEN_WORD, ENCODED_PLACEHOLDER;
    assert forall i :: 0 <= i < |p| && p[i] == 'P' ==> i == 2;
    WordFacts();
    forall i: nat ensures !At(p, w, i) {
      assert i == 2 ==> p[i..][7] != w[7];
      assert i + |w| <= |p| ==> p[i..i + |w|][0] == p[i] && p[i..i + |w|][7] == p[i + 7];
    }
    forall k | 1 <= k < |w| && k <= |p| ensures w[..k] != p[|p| - k..] {
      assert w[..k][0] == 'P' && p[|p| - k..][0] == p[|p| - k];
    }
    forall k | 1 <= k < |w| && k <= |p| ensures w[|w| - k..] != p[..k] {
      assert p[..k][0] == '_' && w[|w| - k..][0] == w[|w| - k];
      assert k >= 2 ==> p[..k][1] == '_' && w[|w| - k..][1] == w[|w| - k + 1];
    }
  }

  lemma PlainHasNoCore(text: string, w: string)
    requires !Contains(text, w)
    ensures var p := "__" + w + "__"; !Contains(text, p[..|p| - 2])
  {
    var p := "__" + w + "__";
    var core := p[..|p| - 2];
    assert core == "__" + w;
    assert At(core, w, 2);
    if Contains(text, core) { ContainsPart(text, core, w); }
  }

  // ---- the round trip ----

  /** Reading undoes writing on every text that does not spell a placeholder's word. */
  lemma ScrubRoundTrip(text: string, token: string)
    requires Plain(text)
    ensures Unscrub(Scrub(text, token), token) == text
  {
    if token != "" {
      var encoded := NonEmptyQuote(token);
      WordFacts();
      PassAmbiguity(text, encoded, ENCODED_WORD);
      RoundTripIff(text, encoded, ENCODED_PLACEHOLDER);
      if encoded != token {
        var first := Replace(text, encoded, ENCODED_PLACEHOLDER);
        WordsApart();
        if Contains(first, TOKEN_WORD) {
          NoNewOccurrence(text, encoded, ENCODED_PLACEHOLDER, TOKEN_WORD);
        }
        PassAmbiguity(first, token, TOKEN_WORD);
        RoundTripIff(first, token, TOKEN_PLACEHOLDER);
      } else {
        PassAmbiguity(text, token, TOKEN_WORD);
        RoundTripIff(text, token, TOKEN_PLACEHOLDER);
        PlaceholderAbsent(text, ENCODED_WORD);
        ReplaceAbsent(text, ENCODED_PLACEHOLDER, encoded);
      }
    }
  }

  lemma PassAmbiguity(text: string, a: string, w: string)
    requires a != "" && Wrapped(w) && !Contains(text, w)
    ensures Unambiguous(text, a, "__" + w + "__")
  {
    WrappedBorders(w);
    PlainHasNoCore(text, w);
    NoCoreUnambiguous(text, a, "__" + w + "__", 2);
  }

  lemma PlaceholderAbsent(text: string, w: string)
    requires !Contains(text, w)
    ensures !Contains(text, "__" + w + "__")
  {
    var p := "__" + w + "__";
    assert p[2..2 + |w|] == w;
    assert At(p, w, 2);
    if Contains(text, p) { ContainsPart(text, p, w); }
  }
}
