/** For which tokens the cache never holds the token or its encoded form. */
module ScrubLeaks {
  import opened PercentEncoding
  import opened TextReplace
  import opened StreamCache
  import opened ScrubExact
  import Utf8

  /** Neither form of the token is in what is stored for a response. */
  ghost predicate Clean(text: string, token: string) {
    !Contains(Scrub(text, token), token) && !Contains(Scrub(text, token), Quote(token))
  }

  /** The token overlaps its placeholder nowhere, nor does an encoded form of its own overlap either one. */
  ghost predicate Free(token: string) {
    && Disjoint(token, TOKEN_PLACEHOLDER)
    && (Quote(token) != token ==>
      Disjoint(Quote(token), TOKEN_PLACEHOLDER) && Disjoint(Quote(token), ENCODED_PLACEHOLDER))
  }

  /** A free token is never stored, in either form. */
  lemma NothingStored(text: string, token: string)
    requires token != "" && Free(token)
    ensures Clean(text, token)
  {
    var encoded := NonEmptyQuote(token);
    var first := if encoded != token then Replace(text, encoded, ENCODED_PLACEHOLDER) else text;
    NoLeak(first, token, TOKEN_PLACEHOLDER);
    if encoded != token {
      NoLeak(text, encoded, ENCODED_PLACEHOLDER);
      if Contains(Scrub(text, token), encoded) {
        NoNewOccurrence(first, token, TOKEN_PLACEHOLDER, encoded);
      }
    }
  }

  // ---- responses that leave a token that is not free ----

  /** The characters a leaking text is made of. */
  predicate MadeOf(text: string, token: string) {
    forall c :: c in text ==> c in token || c == '%' || IsUnreservedChar(c)
  }

  lemma QuoteMadeOf(text: string, token: string)
    requires forall c :: c in text ==> c in Quote(token)
    ensures MadeOf(text, token)
  {
    QuotedBytesCharacters(Utf8.Encode(token));
  }

  /** A text without percent signs cannot hold an encoded form that differs from the token. */
  lemma ScrubWithoutPercent(text: string, token: string)
    requires token != "" && '%' !in text
    ensures Scrub(text, token) == Replace(text, token, TOKEN_PLACEHOLDER)
  {
    var encoded := NonEmptyQuote(token);
    if encoded != token {
      PercentIfChanged(token);
      PartHasCharacter(text, encoded, '%');
      ReplaceAbsent(text, encoded, ENCODED_PLACEHOLDER);
    }
  }

  /** The token overlaps its placeholder. */
  lemma TokenLeaks(token: string) returns (text: string)
    requires token != "" && '%' !in token && !Disjoint(token, TOKEN_PLACEHOLDER)
    ensures !Clean(text, token) && MadeOf(text, token)
  {
    text := LeakingText(token, TOKEN_PLACEHOLDER);
    ScrubWithoutPercent(text, token);
  }

  /** The encoded form overlaps its own placeholder. */
  lemma EncodedLeaks(token: string) returns (text: string)
    requires token != "" && '%' !in token && Quote(token) != token && !Disjoint(Quote(token), ENCODED_PLACEHOLDER)
    ensures !Clean(text, token) && MadeOf(text, token)
  {
    var encoded := NonEmptyQuote(token);
    text := LeakingText(encoded, ENCODED_PLACEHOLDER);
    QuoteMadeOf(text, token);
    var first := Replace(text, encoded, ENCODED_PLACEHOLDER);
    var r := ForeignCharacter(token);
    PlaceholderCharacters(r);
    if r in first { CharactersAfter(text, encoded, ENCODED_PLACEHOLDER, r); }
    PartHasCharacter(first, token, r);
    ReplaceAbsent(first, token, TOKEN_PLACEHOLDER);
  }

  /** A character of the token that its encoded form lacks. */
  lemma ForeignCharacter(token: string) returns (r: char)
    requires '%' !in token && Quote(token) != token
    ensures r in token && r !in Quote(token) && !IsUnreservedChar(r)
  {
    r := ChangedCharacter(token);
    QuotedBytesCharacters(Utf8.Encode(token));
  }

  lemma FirstIndex(s: string, c: char) returns (q: nat)
    requires c in s
    ensures q < |s| && s[q] == c && forall j :: 0 <= j < q ==> s[j] != c
  {
    q := 0;
    while s[q] != c
      invariant q < |s| && forall j :: 0 <= j < q ==> s[j] != c
      decreases |s| - q
    {
      q := q + 1;
    }
  }

  lemma LastIndex(s: string, c: char) returns (q: nat)
    requires c in s
    ensures q < |s| && s[q] == c && forall j :: q < j < |s| ==> s[j] != c
  {
    q := |s| - 1;
    while s[q] != c
      invariant q < |s| && forall j :: q < j < |s| ==> s[j] != c
      decreases q
    {
      q := q - 1;
    }
  }

  lemma LetterAt(t: string, w: string, i: nat, k: nat)
    requires At(t, w, i) && k < |w|
    ensures i + k < |t| && t[i + k] == w[k]
  {
    assert t[i + k] == t[i..i + |w|][k];
  }

  /** A letter of a text in three parts. */
  lemma LetterOf(l: string, c: string, m: string, x: nat)
    requires x < |l| + |c| + |m|
    ensures var t := l + (c + m);
            t == l + c + m
            && t[x] == if x < |l| then l[x] else if x < |l| + |c| then c[x - |l|] else m[x - |l| - |c|]
  {}

  /** The token between two texts that lack one of its characters: only it is replaced. */
  lemma OnlyMatchReplaced(l: string, token: string, m: string, p: string, r: char)
    requires r in token && r !in l && r !in m
    ensures Replace(l + (token + m), token, p) == l + (p + m)
  {
    var t := l + (token + m);
    var q := FirstIndex(token, r);
    forall j: nat | j < |l| ensures !At(t, token, j) {
      if At(t, token, j) {
        LetterAt(t, token, j, q);
        LetterOf(l, token, m, j + q);
      }
    }
    ReplaceSkips(l, token + m, token, p);
    assert (token + m)[|token|..] == m;
    PartHasCharacter(m, token, r);
    ReplaceAbsent(m, token, p);
  }

  // ---- the encoded form overlaps the token's placeholder only ----

  /** The encoded form cut in three, around the part it shares with the placeholder. */
  ghost predicate Cut(token: string, l: string, c: string, m: string) {
    && Quote(token) == l + c + m && c != "" && '%' !in c
    && (l != "" ==> c[0] == '_') && (m != "" ==> c[|c| - 1] == '_')
  }

  /** With the token in the place of that part, the encoded form does not occur. */
  lemma CutHasNoEncoded(token: string, l: string, c: string, m: string)
    requires token != "" && '%' !in token && Quote(token) != token && Cut(token, l, c, m)
    requires Quote(token)[0] != '_' && Quote(token)[|Quote(token)| - 1] != '_'
    ensures !Contains(l + (token + m), Quote(token))
  {
    var t, encoded := l + (token + m), Quote(token);
    if Contains(t, encoded) {
      var i: nat :| At(t, encoded, i);
      PercentIfChanged(token);
      QuoteEnds(token);
      var r := ForeignCharacter(token);
      var q := FirstIndex(token, r);
      LetterOf(l, token, m, |l| + q);
      OccurrenceAvoids(t, encoded, i, |l| + q);
      if i + |encoded| <= |l| + q {
        OccurrenceBefore(token, l, c, m, i, q);
      } else {
        OccurrenceAfter(token, l, c, m, i, q);
      }
    }
  }

  lemma OccurrenceAvoids(t: string, w: string, i: nat, x: nat)
    requires At(t, w, i) && x < |t| && t[x] !in w
    ensures i + |w| <= x || x < i
  {
    if i <= x < i + |w| { LetterAt(t, w, i, x - i); }
  }

  lemma OccurrenceBefore(token: string, l: string, c: string, m: string, i: nat, q: nat)
    requires token != "" && '%' !in token && '%' in Quote(token) && Cut(token, l, c, m)
    requires q < |token| && At(l + (token + m), Quote(token), i) && i + |Quote(token)| <= |l| + q
    ensures token[0] == '_'
  {
    var t, w := l + (token + m), Quote(token);
    hide At, Quote;
    var e := LastIndex(w, '%');
    LetterAt(t, w, i, e);
    LetterOf(l, token, m, i + e);
    LetterOf(l, c, m, i + e);
    assert i == 0;
    LetterAt(t, w, 0, |l|);
    LetterOf(l, token, m, |l|);
    LetterOf(l, c, m, |l|);
  }

  lemma OccurrenceAfter(token: string, l: string, c: string, m: string, i: nat, q: nat)
    requires token != "" && '%' !in token && '%' in Quote(token) && Cut(token, l, c, m)
    requires q < |token| && At(l + (token + m), Quote(token), i) && |l| + q < i
    ensures token[|token| - 1] == '_'
  {
    var t, w := l + (token + m), Quote(token);
    hide At, Quote;
    var f := FirstIndex(w, '%');
    LetterAt(t, w, i, |w| - 1);
    LetterAt(t, w, i, f);
    LetterOf(l, token, m, i + f);
    LetterOf(l, c, m, |c| + i + f - |token|);
    assert i == |token| - |c|;
    LetterAt(t, w, i, |l| + |c| - 1);
    LetterOf(l, token, m, |l| + |token| - 1);
    LetterOf(l, c, m, |l| + |c| - 1);
  }

  /** A cut of the encoded form, and the placeholder in the place of the shared part spelling the whole again. */
  ghost predicate Cuts(token: string, p: string, l: string, c: string, m: string) {
    Cut(token, l, c, m) && Contains(l + (p + m), Quote(token))
  }

  /** The text of a placeholder: underscores around no percent sign. */
  predicate PlaceholderLike(p: string) {
    |p| >= 2 && '%' !in p && p[0] == '_' && p[|p| - 1] == '_'
  }

  lemma CutInside(token: string, p: string) returns (l: string, c: string, m: string)
    requires PlaceholderLike(p) && Contains(Quote(token), p)
    ensures Cuts(token, p, l, c, m)
  {
    var w := Quote(token);
    hide Quote;
    var i: nat :| At(w, p, i);
    l, c, m := w[..i], p, w[i + |p|..];
    assert w == w[..i] + w[i..i + |p|] + w[i + |p|..];
    assert l + (p + m) == w;
    ContainsItself(w);
  }

  lemma CutAhead(token: string, p: string, k: nat) returns (l: string, c: string, m: string)
    requires PlaceholderLike(p) && 1 <= k < |Quote(token)| && k <= |p| && Quote(token)[..k] == p[|p| - k..]
    ensures Cuts(token, p, l, c, m)
  {
    var w := Quote(token);
    hide Quote, Contains;
    l, c, m := "", w[..k], w[k..];
    OverlapJoins(w, p, k);
    assert l + (p + m) == p[..|p| - k] + w;
    ContainsItself(w);
    ContainsShift(w, p[..|p| - k], w);
    assert c[k - 1] == p[|p| - k..][k - 1];
    assert forall x :: x in c ==> x in p;
    assert w == l + c + m;
  }

  lemma CutBehind(token: string, p: string, k: nat) returns (l: string, c: string, m: string)
    requires PlaceholderLike(p) && 1 <= k < |Quote(token)| && k <= |p|
    requires Quote(token)[|Quote(token)| - k..] == p[..k]
    ensures Cuts(token, p, l, c, m)
  {
    var w := Quote(token);
    hide Quote;
    l, c, m := w[..|w| - k], p[..k], "";
    assert w == l + c + m;
    assert p == c + p[k..];
    assert l + (p + m) == w + p[k..];
    assert At(w + p[k..], w, 0);
    assert forall x :: x in c ==> x in p;
  }

  lemma CutOf(token: string, p: string) returns (l: string, c: string, m: string)
    requires PlaceholderLike(p) && '%' in Quote(token) && !Disjoint(Quote(token), p)
    ensures Cuts(token, p, l, c, m)
  {
    var w := Quote(token);
    hide Quote, Cuts, Contains;
    PartHasCharacter(p, w, '%');
    if Contains(w, p) {
      l, c, m := CutInside(token, p);
    } else if k :| 1 <= k < |w| && k <= |p| && w[..k] == p[|p| - k..] {
      l, c, m := CutAhead(token, p, k);
    } else {
      var k :| 1 <= k < |w| && k <= |p| && w[|w| - k..] == p[..k];
      l, c, m := CutBehind(token, p, k);
    }
  }

  /** The encoded form overlaps the token's placeholder, though not its own. */
  lemma PlaceholderLeaks(token: string) returns (text: string)
    requires token != "" && '%' !in token && Quote(token) != token
    requires Disjoint(Quote(token), ENCODED_PLACEHOLDER) && !Disjoint(Quote(token), TOKEN_PLACEHOLDER)
    ensures !Clean(text, token) && MadeOf(text, token)
  {
    var p, encoded := TOKEN_PLACEHOLDER, NonEmptyQuote(token);
    PercentIfChanged(token);
    PlaceholderCharacters('%');
    var l, c, m := CutOf(token, p);
    NoUnderscoreAtEnds(encoded);
    CutHasNoEncoded(token, l, c, m);
    var r := ForeignCharacter(token);
    text := l + (token + m);
    OnlyMatchReplaced(l, token, m, p, r);
    ReplaceAbsent(text, encoded, ENCODED_PLACEHOLDER);
    QuotedBytesCharacters(Utf8.Encode(token));
  }

  lemma NoUnderscoreAtEnds(w: string)
    requires |w| >= 2 && Disjoint(w, ENCODED_PLACEHOLDER)
    ensures w[0] != '_' && w[|w| - 1] != '_'
  {
    var q := ENCODED_PLACEHOLDER;
    assert w[..1] == [w[0]] && q[|q| - 1..] == "_" && q[..1] == "_" && w[|w| - 1..] == [w[|w| - 1]];
  }

  /** Every token without a percent sign that is not free is left in what some text is stored as. */
  lemma SomeTextLeaks(token: string) returns (text: string)
    requires token != "" && '%' !in token && !Free(token)
    ensures !Clean(text, token) && MadeOf(text, token)
  {
    if !Disjoint(token, TOKEN_PLACEHOLDER) {
      text := TokenLeaks(token);
    } else if !Disjoint(Quote(token), ENCODED_PLACEHOLDER) {
      text := EncodedLeaks(token);
    } else {
      text := PlaceholderLeaks(token);
    }
  }

  // ---- in a serialised response ----

  lemma StoredResponse(before: string, field: string, after: string, token: string) returns (u: string, v: string)
    requires '"' !in token
    ensures Scrub(Response(before, field, after), token) == u + (Scrub(field, token) + v)
  {
    hide Scrub;
    ScrubFramed("{" + before, field + ['"'] + (after + "}"), token);
    ScrubFramed(field, after + "}", token);
    u, v := Scrub("{" + before, token) + ['"'], ['"'] + Scrub(after + "}", token);
    var stored := Scrub(field, token);
    assert Response(before, field, after) == ("{" + before) + ['"'] + (field + ['"'] + (after + "}"));
    assert Scrub("{" + before, token) + ['"'] + (stored + ['"'] + Scrub(after + "}", token)) == u + (stored + v);
  }

  /** What a string field leaves in the cache, the response around it does too. */
  lemma FieldLeaks(before: string, field: string, after: string, token: string)
    requires '"' !in token && !Clean(field, token)
    ensures !Clean(Response(before, field, after), token)
  {
    hide Scrub, Response, Quote, Contains;
    var u, v := StoredResponse(before, field, after, token);
    var stored := Scrub(field, token);
    ContainsWithin(u, stored, v, if Contains(stored, token) then token else Quote(token));
  }

  lemma ContainsWithin(u: string, s: string, v: string, w: string)
    requires Contains(s, w)
    ensures Contains(u + (s + v), w)
  {
    var i: nat :| At(s, w, i);
    assert (s + v)[i..i + |w|] == s[i..i + |w|];
    assert At(s + v, w, i);
    ContainsShift(s + v, u, w);
  }

  /**
    Whatever else the response holds, a string field made of the token's own characters
    and of unreserved ones leaves the token, or its encoded form, in the cache.
   */
  lemma LeakingResponse(before: string, after: string, token: string) returns (field: string)
    requires token != "" && '%' !in token && '"' !in token && !Free(token)
    ensures !Clean(Response(before, field, after), token) && MadeOf(field, token)
  {
    field := SomeTextLeaks(token);
    FieldLeaks(before, field, after, token);
  }

  /**
    For every token without a percent sign: no text at all leaves the token or its encoded
    form in what is stored exactly when the token is free. For one without double quotes
    the same holds of responses, whatever stands around the field.
   */
  lemma NothingStoredIff(token: string, before: string, after: string)
    requires token != "" && '%' !in token
    ensures (forall text :: Clean(text, token)) <==> Free(token)
    ensures '"' !in token ==> ((forall field :: Clean(Response(before, field, after), token)) <==> Free(token))
  {
    if Free(token) {
      forall text ensures Clean(text, token) {
        NothingStored(text, token);
      }
    } else {
      var text := SomeTextLeaks(token);
      if '"' !in token { var field := LeakingResponse(before, after, token); }
    }
  }

  /** So a token with an underscore at either end can survive in a cached response. */
  lemma UnderscoreAtTheEdgeLeaks(before: string, after: string, token: string) returns (field: string)
    requires token != "" && '%' !in token && '"' !in token
    requires token[0] == '_' || token[|token| - 1] == '_'
    ensures !Clean(Response(before, field, after), token) && MadeOf(field, token)
  {
    var p := TOKEN_PLACEHOLDER;
    SingleInside(token, p);
    if token[0] == '_' {
      assert token[..1] == p[|p| - 1..] == "_";
    } else {
      assert token[|token| - 1..] == p[..1] == "_";
    }
    field := LeakingResponse(before, after, token);
  }
}
