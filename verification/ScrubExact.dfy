/** Exactly which responses come back from the cache as they went in. */
module ScrubExact {
  import opened PercentEncoding
  import opened TextReplace
  import opened StreamCache
  import Utf8

  /** A placeholder around a word, and the placeholder without its trailing underscores. */
  function Around(w: string): string {
    "__" + w + "__"
  }

  function Core(w: string): string {
    "__" + w
  }

  // ---- what reads as a placeholder ----

  /**
    A text reads as a placeholder exactly if it starts with it, or with it less one or two
    trailing underscores directly before the token.
   */
  lemma ReadsAsPlaceholderIff(s: string, token: string, w: string)
    requires token != "" && Wrapped(w) && s != "" && !(token <= s)
    ensures var p, n := Around(w), NextMatch(s, token);
            ReadsAs(s, token, p)
            <==> p <= s[..n] || (n < |s| && (n == |p| - 1 || n == |p| - 2) && s[..n] == p[..n])
  {
    var p, n := Around(w), NextMatch(s, token);
    WrappedBorders(w);
    if n < |p| {
      var k := |p| - n;
      assert p[n..] == p[|p| - k..];
      assert k > 2 ==> p[..k] != p[|p| - k..];
      assert k <= 2 ==> p[n..] == p[..k];
    }
  }

  // ---- placeholders cannot overlap except at their edges ----

  /** Inside a core two underscores only meet at its start, and it does not end in one. */
  lemma InsideCore(y: string, w: string, i: nat, k: nat)
    requires Wrapped(w) && At(y, Core(w), i) && 1 <= k < |Core(w)|
    ensures y[i + k] == '_' ==> k + 1 < |Core(w)| && y[i + k + 1] != '_'
  {
    var core := Core(w);
    assert core[k] == if k < 2 then '_' else w[k - 2];
    assert k + 1 < |core| ==> core[k + 1] == w[k - 1];
    assert y[i + k] == y[i..i + |core|][k];
    assert k + 1 < |core| ==> y[i + k + 1] == y[i..i + |core|][k + 1];
  }

  /** So after the start of a core they come no sooner than its end. */
  lemma NextUnderscores(y: string, w: string, i: nat, j: nat)
    requires Wrapped(w) && At(y, Core(w), i)
    requires i < j && j + 2 <= |y| && y[j] == '_' && y[j + 1] == '_'
    ensures j >= i + |Core(w)|
  {
    if j < i + |Core(w)| { InsideCore(y, w, i, j - i); }
  }

  lemma CoreAt(y: string, w: string, i: nat)
    requires At(y, Around(w), i) || At(y, Core(w), i)
    ensures At(y, Core(w), i) && i + 2 <= |y| && y[i] == '_' && y[i + 1] == '_'
  {
    var v := if At(y, Around(w), i) then Around(w) else Core(w);
    assert Core(w) == v[..|Core(w)|];
    assert y[i..i + |Core(w)|] == y[i..i + |v|][..|Core(w)|];
    assert y[i] == y[i..i + |v|][0] && y[i + 1] == y[i..i + |v|][1];
  }

  /** Of two texts at one place one is a prefix of the other. */
  lemma Comparable(y: string, v: string, w: string, i: nat)
    requires At(y, v, i) && At(y, w, i)
    ensures v <= w || w <= v
  {
    if |v| <= |w| {
      assert v == y[i..i + |w|][..|v|];
    } else {
      assert w == y[i..i + |v|][..|w|];
    }
  }

  /** Two texts that agree up to `n` hold the same things before it. */
  lemma SharedAt(y: string, y': string, n: nat, w: string, i: nat)
    requires n <= |y| && n <= |y'| && y[..n] == y'[..n]
    requires At(y, w, i) && i + |w| <= n
    ensures At(y', w, i)
  {
    assert y[i..i + |w|] == y[..n][i..i + |w|];
    assert y'[i..i + |w|] == y'[..n][i..i + |w|];
  }

  lemma CoreLetter(y: string, w: string, i: nat, k: nat)
    requires At(y, Core(w), i) && k < |w|
    ensures y[i + 2 + k] == w[k]
  {
    assert y[i + 2 + k] == y[i..i + |Core(w)|][2 + k];
  }

  // ---- two misreadings ----

  /** The first pass misreads before the second: then the token begins like its placeholder. */
  lemma TokenMisreadFirst(y1: string, y3: string, token: string, v: string, w: string, i: nat, j: nat)
    requires Wrapped(v) && At(y1, Core(v), i) && At(y3, token, i)
    requires i < j && At(y1, Core(w), j)
    requires j <= |y3| && y1[..j] == y3[..j]
    ensures token <= Core(v) || Core(v) <= token
  {
    CoreAt(y1, w, j);
    NextUnderscores(y1, v, i, j);
    SharedAt(y1, y3, j, Core(v), i);
    Comparable(y3, token, Core(v), i);
  }

  /** The second pass misreads first: then the encoded form begins like its placeholder. */
  lemma EncodedMisreadFirst(y1: string, y3: string, encoded: string, v: string, w: string, i: nat, j: nat)
    requires Wrapped(w) && At(y1, Core(v), i) && At(y1, Core(w), j)
    requires j < i <= |y3| && y1[..i] == y3[..i]
    requires !(Around(w) <= y3[j..]) && ReadsAs(y3[j..], Around(w), encoded)
    ensures encoded <= Core(w) || Core(w) <= encoded
  {
    CoreAt(y1, v, i);
    NextUnderscores(y1, w, j, i);
    SharedAt(y1, y3, i, Core(w), j);
    AtTail(y3, j, Core(w), 0);
    StartsWithCore(y3[j..], encoded, w);
  }

  /** A text that begins with a core, but not its placeholder, reads as nothing else. */
  lemma StartsWithCore(t: string, encoded: string, w: string)
    requires Wrapped(w) && At(t, Core(w), 0) && !(Around(w) <= t) && ReadsAs(t, Around(w), encoded)
    ensures encoded <= Core(w) || Core(w) <= encoded
  {
    var n := NextMatch(t, Around(w));
    NextMatchAt(t, Around(w));
    if n < |t| {
      CoreAt(t, w, n);
      NextUnderscores(t, w, 0, n);
    }
    var core := Core(w);
    assert core == t[0..|core|] == t[..n][..|core|];
    if encoded <= t[..n] {
      assert At(t[..n], encoded, 0) && At(t[..n], core, 0);
      Comparable(t[..n], encoded, core, 0);
    } else {
      assert encoded[..n] == t[..n];
      assert core == encoded[..n][..|core|] == encoded[..|core|];
    }
  }

  predicate Imitates(s: string, w: string) {
    s <= Core(w) || Core(w) <= s
  }

  lemma MisreadingsClash(
    y1: string, y3: string, token: string, encoded: string, v: string, w: string, u1: string, u2: string)
    requires Wrapped(v) && Wrapped(w) && |v| > 7 && |w| > 7 && v[7] != w[7]
    requires u1 <= y1 && Core(v) <= y1[|u1|..] && u1 + token <= y3
    requires u2 <= y3 && u2 + Around(w) <= y1
    requires !(Around(w) <= y3[|u2|..]) && ReadsAs(y3[|u2|..], Around(w), encoded)
    ensures Imitates(token, v) || Imitates(encoded, w)
  {
    var i, j := |u1|, |u2|;
    assert At(y1, Core(v), i) && At(y3, token, i) && At(y1, Around(w), j);
    CoreAt(y1, w, j);
    CoreLetter(y1, v, i, 7);
    CoreLetter(y1, w, j, 7);
    if i < j {
      assert y1[..j] == u2 == y3[..j];
      TokenMisreadFirst(y1, y3, token, v, w, i, j);
    } else if j < i {
      assert y1[..i] == u1 == y3[..i];
      EncodedMisreadFirst(y1, y3, encoded, v, w, i, j);
    }
  }

  /** If the way back of the inner passes goes wrong, the outer ones do not mend it. */
  lemma NotMended(text: string, token: string, encoded: string, v: string, w: string)
    requires token != "" && encoded != "" && Around(v) != "" && Around(w) != ""
    requires Wrapped(v) && Wrapped(w) && |v| > 7 && |w| > 7 && v[7] != w[7]
    requires !Imitates(token, v) && !Imitates(encoded, w)
    requires !Unambiguous(Replace(text, encoded, Around(w)), token, Around(v))
    ensures Replace(Back(Replace(text, encoded, Around(w)), token, Around(v)), Around(w), encoded) != text
  {
    var p, q := Around(v), Around(w);
    var y1 := Replace(text, encoded, q);
    var y3 := Back(y1, token, p);
    if Replace(y3, q, encoded) == text {
      assert Back(y3, q, encoded) == y1;
      RoundTripIff(y1, token, p);
      RoundTripIff(y3, q, encoded);
      var u1 := FirstMisreading(y1, token, p);
      var u2 := FirstMisreading(y3, q, encoded);
      WrappedBorders(v);
      ReadsCore(y1[|u1|..], token, p, 2);
      assert p[..|p| - 2] == Core(v);
      MisreadingsClash(y1, y3, token, encoded, v, w, u1, u2);
    }
  }

  lemma FourPassesIff(text: string, token: string, encoded: string, v: string, w: string)
    requires token != "" && encoded != "" && Around(v) != "" && Around(w) != ""
    requires Wrapped(v) && Wrapped(w) && |v| > 7 && |w| > 7 && v[7] != w[7]
    requires !Imitates(token, v) && !Imitates(encoded, w)
    ensures var first := Replace(text, encoded, Around(w));
            Replace(Back(first, token, Around(v)), Around(w), encoded) == text
            <==> Unambiguous(first, token, Around(v)) && Unambiguous(text, encoded, Around(w))
  {
    var first := Replace(text, encoded, Around(w));
    RoundTripIff(first, token, Around(v));
    RoundTripIff(text, encoded, Around(w));
    if !Unambiguous(first, token, Around(v)) { NotMended(text, token, encoded, v, w); }
  }

  // ---- a second reading of the same text ----

  /** Replacing `a` by a text not comparable with it changes every text that holds `a`. */
  lemma ReplaceFixedIff(s: string, a: string, p: string)
    requires a != "" && !(a <= p) && !(p <= a)
    ensures Replace(s, a, p) == s <==> !Contains(s, a)
  {
    if Contains(s, a) {
      NoMatchBefore(s, a);
      ReplaceToMatch(s, a, p);
      NextMatchAt(s, a);
    } else {
      ReplaceAbsent(s, a, p);
    }
  }

  lemma {:induction false} NoMatchBefore(s: string, a: string)
    requires a != ""
    ensures NextMatch(s, a) == |s| <==> !Contains(s, a)
  {
    if a <= s {
      assert At(s, a, 0);
    } else if s != "" {
      NoMatchBefore(s[1..], a);
      if Contains(s, a) {
        var i: nat :| At(s, a, i);
        AtTail(s, 1, a, i - 1);
      }
      if Contains(s[1..], a) { ContainsTail(s, 1, a); }
    }
  }

  /** The first reading goes wrong before the second finds anything. */
  lemma MisreadThenFound(text: string, once: string, t: string, v: string, w: string, i: nat, n: nat)
    requires Wrapped(v) && At(text, Core(v), i) && At(once, t, i) && !At(text, t, i)
    requires i < n && n <= |text| && n <= |once| && text[..n] == once[..n]
    requires At(text, t, n) && At(once, Around(w), n)
    ensures Core(v) <= t
  {
    var g := n - i;
    if g >= |t| {
      SharedAt(once, text, n, t, i);
    } else if g >= |Core(v)| {
      SharedAt(text, once, n, Core(v), i);
      Comparable(once, t, Core(v), i);
    } else {
      CoreAt(text, v, i);
      CoreAt(once, w, n);
      StartsWithUnderscores(text, once, t, i, n);
      InsideCore(text, v, i, g);
    }
  }

  lemma StartsWithUnderscores(text: string, once: string, t: string, i: nat, n: nat)
    requires At(once, t, i) && At(text, t, n) && i < n < i + |t|
    requires n < |text| && n < |once| && text[..n] == once[..n]
    requires text[i] == '_' && text[i + 1] == '_' && once[n] == '_'
    ensures n + 1 < |text| && text[n] == '_' && text[n + 1] == '_'
  {
    assert once[i] == once[..n][i] == text[..n][i] == text[i];
    assert once[i] == once[i..i + |t|][0] && once[i + 1] == once[i..i + |t|][1];
    assert i + 1 < n ==> once[i + 1] == once[..n][i + 1] == text[..n][i + 1] == text[i + 1];
    assert text[n] == text[n..n + |t|][0] && text[n + 1] == text[n..n + |t|][1];
  }

  /** The second reading finds something before the first goes wrong. */
  lemma FoundThenMisread(text: string, once: string, t: string, v: string, w: string, i: nat, n: nat)
    requires Wrapped(w) && At(text, Core(v), i) && At(once, t, i)
    requires n < i && i <= |text| && i <= |once| && text[..i] == once[..i]
    requires At(text, t, n) && At(once, Around(w), n)
    ensures Core(w) <= t || t <= Around(w)
  {
    var d := i - n;
    CoreAt(once, w, n);
    if d >= |t| {
      SharedAt(text, once, i, t, n);
      Comparable(once, t, Around(w), n);
      assert Around(w)[..|Core(w)|] == Core(w);
    } else if d >= |Core(w)| {
      SharedAt(once, text, i, Core(w), n);
      Comparable(text, t, Core(w), n);
    } else {
      CoreAt(text, v, i);
      StartsWithUnderscores(once, text, t, n, i);
      InsideCore(once, w, n, d);
    }
  }

  /** Where a round trip first goes wrong, the text holds the core and the result the token. */
  lemma MisreadPlace(text: string, t: string, v: string) returns (i: nat)
    requires t != "" && Wrapped(v) && Around(v) != "" && !Unambiguous(text, t, Around(v))
    ensures var once := Back(text, t, Around(v));
            i <= |text| && i <= |once| && text[..i] == once[..i]
            && At(text, Core(v), i) && At(once, t, i) && !At(text, t, i)
  {
    var p := Around(v);
    var u := FirstMisreading(text, t, p);
    hide Back, Unambiguous, ReadsAs, NextMatch, Wrapped, BordersAtMost;
    WrappedBorders(v);
    ReadsCore(text[|u|..], t, p, 2);
    assert p[..|p| - 2] == Core(v);
    Placed(text, Back(text, t, p), u, t, Core(v));
    i := |u|;
  }

  lemma Placed(text: string, once: string, u: string, t: string, core: string)
    requires u <= text && core <= text[|u|..] && !(t <= text[|u|..]) && u + t <= once
    ensures text[..|u|] == once[..|u|] && At(text, core, |u|) && At(once, t, |u|) && !At(text, t, |u|)
  {}

  /** Where a replacement finds its first match. */
  lemma FoundPlace(s: string, q: string, t: string) returns (n: nat)
    requires q != "" && Replace(s, q, t) != s
    ensures n <= |s| && n <= |Replace(s, q, t)| && s[..n] == Replace(s, q, t)[..n]
    ensures At(s, q, n) && At(Replace(s, q, t), t, n)
  {
    n := NextMatch(s, q);
    ReplaceToMatch(s, q, t);
    NextMatchAt(s, q);
  }

  lemma SecondReadingFinds(text: string, t: string, v: string, w: string)
    requires t != "" && Around(v) != "" && Around(w) != ""
    requires Wrapped(v) && Wrapped(w)
    requires !(Core(v) <= t) && !(Core(w) <= t) && !(t <= Around(w))
    requires !Unambiguous(text, t, Around(v))
    ensures Replace(Back(text, t, Around(v)), Around(w), t) != text
  {
    hide Replace, Back, Unambiguous, Around, Core, At, Wrapped;
    var once := Back(text, t, Around(v));
    RoundTripIff(text, t, Around(v));
    if Replace(once, Around(w), t) == text {
      var i := MisreadPlace(text, t, v);
      var n := FoundPlace(once, Around(w), t);
      if i < n {
        MisreadThenFound(text, once, t, v, w, i, n);
      } else if n < i {
        FoundThenMisread(text, once, t, v, w, i, n);
      }
    }
  }

  lemma ThreePassesIff(text: string, t: string, v: string, w: string)
    requires t != "" && Around(v) != "" && Around(w) != ""
    requires Wrapped(v) && Wrapped(w)
    requires !(Core(v) <= t) && !(Core(w) <= t) && !(t <= Around(w))
    ensures Replace(Back(text, t, Around(v)), Around(w), t) == text
            <==> Unambiguous(text, t, Around(v)) && !Contains(text, Around(w))
  {
    RoundTripIff(text, t, Around(v));
    if Unambiguous(text, t, Around(v)) {
      assert Around(w)[..|Core(w)|] == Core(w);
      ReplaceFixedIff(text, Around(w), t);
    } else {
      SecondReadingFinds(text, t, v, w);
    }
  }

  // ---- the round trip of a response ----

  /** A response as the cache gives it back. */
  function RoundTrip(text: string, token: string): string {
    Unscrub(Scrub(text, token), token)
  }

  /**
    Neither the token nor its encoded form begins with a placeholder less its trailing
    underscores, and the token is no beginning of the encoded form's placeholder.
   */
  predicate Clear(token: string) {
    !(Core(TOKEN_WORD) <= token) && !(Core(ENCODED_WORD) <= Quote(token)) && !(token <= ENCODED_PLACEHOLDER)
  }

  /** Some character that both placeholders hold equally often, and the token does not. */
  ghost predicate Distinctive(token: string) {
    exists c :: Occurrences(TOKEN_PLACEHOLDER, c) == Occurrences(ENCODED_PLACEHOLDER, c) != Occurrences(token, c)
  }

  lemma PlaceholderFacts()
    ensures TOKEN_PLACEHOLDER == Around(TOKEN_WORD) && ENCODED_PLACEHOLDER == Around(ENCODED_WORD)
    ensures Wrapped(TOKEN_WORD) && Wrapped(ENCODED_WORD)
    ensures |TOKEN_WORD| > 7 && |ENCODED_WORD| > 7 && TOKEN_WORD[7] != ENCODED_WORD[7]
  {
    WordFacts();
  }

  lemma PlaceholderCharacters(c: char)
    ensures c in TOKEN_PLACEHOLDER || c in ENCODED_PLACEHOLDER ==> IsUnreservedChar(c) && c != '%' && c != '"'
    ensures c in Core(TOKEN_WORD) || c in Core(ENCODED_WORD) ==> IsUnreservedChar(c) && c != '%'
  {}

  lemma ChangedImitatesNothing(token: string)
    requires token != "" && Quote(token) != token && Clear(token)
    ensures !Imitates(token, TOKEN_WORD) && !Imitates(Quote(token), ENCODED_WORD)
  {
    var r := ChangedCharacter(token);
    PercentIfChanged(token);
    PlaceholderCharacters(r);
    PlaceholderCharacters('%');
  }

  /**
    Exactly when reading undoes writing. For a token that percent-encoding leaves alone: no
    place that the scan for it leaves alone reads as its placeholder, and the other
    placeholder is absent. For one that it changes: no such place in either writing pass.
   */
  lemma ScrubRoundTripIff(text: string, token: string)
    requires token != "" && (Clear(token) || (Quote(token) == token && Distinctive(token)))
    ensures var encoded := NonEmptyQuote(token);
            RoundTrip(text, token) == text
            <==> if encoded == token
                 then Unambiguous(text, token, TOKEN_PLACEHOLDER) && !Contains(text, ENCODED_PLACEHOLDER)
                 else Unambiguous(text, encoded, ENCODED_PLACEHOLDER)
                      && Unambiguous(Replace(text, encoded, ENCODED_PLACEHOLDER), token, TOKEN_PLACEHOLDER)
  {
    var encoded := NonEmptyQuote(token);
    PlaceholderFacts();
    hide Unambiguous, Replace, Contains, Wrapped, Quote;
    if encoded != token {
      ChangedImitatesNothing(token);
      FourPassesIff(text, token, encoded, TOKEN_WORD, ENCODED_WORD);
    } else if Clear(token) {
      ThreePassesIff(text, token, TOKEN_WORD, ENCODED_WORD);
    } else {
      var c :| Occurrences(TOKEN_PLACEHOLDER, c) == Occurrences(ENCODED_PLACEHOLDER, c) != Occurrences(token, c);
      SecondReadingIdle(text, token, TOKEN_PLACEHOLDER, ENCODED_PLACEHOLDER, c);
    }
  }

  /** Any token that does not begin with an underscore is clear. */
  lemma OrdinaryTokensAreClear(token: string)
    requires token != "" && token[0] != '_'
    ensures Clear(token)
  {
    hide Quote;
    FirstQuoted(token);
  }

  /** Any token with a lower-case letter, a digit or a hyphen is distinctive. */
  lemma OrdinaryTokensAreDistinctive(token: string, c: char)
    requires c in token && ('a' <= c <= 'z' || '0' <= c <= '9' || c == '-')
    ensures Distinctive(token)
  {
    assert c !in TOKEN_PLACEHOLDER && c !in ENCODED_PLACEHOLDER;
    OccurrencesZeroIff(TOKEN_PLACEHOLDER, c);
    OccurrencesZeroIff(ENCODED_PLACEHOLDER, c);
    OccurrencesZeroIff(token, c);
  }

  /** For every token, the passes taken one by one: each is undone exactly when nothing it left alone misreads. */
  lemma PassesUndoneIff(text: string, token: string)
    requires token != ""
    ensures var encoded := NonEmptyQuote(token);
            var first := if encoded == token then text else Replace(text, encoded, ENCODED_PLACEHOLDER);
            && (Replace(Scrub(text, token), TOKEN_PLACEHOLDER, token) == first
                <==> Unambiguous(first, token, TOKEN_PLACEHOLDER))
            && (Back(text, encoded, ENCODED_PLACEHOLDER) == text <==> Unambiguous(text, encoded, ENCODED_PLACEHOLDER))
  {
    var encoded := NonEmptyQuote(token);
    var first := if encoded == token then text else Replace(text, encoded, ENCODED_PLACEHOLDER);
    RoundTripIff(text, encoded, ENCODED_PLACEHOLDER);
    RoundTripIff(first, token, TOKEN_PLACEHOLDER);
  }

  // ---- inside a serialised response ----

  /** A response with a string `field` in it; `before` and `after` stand for the rest. */
  function Response(before: string, field: string, after: string): string {
    ("{" + before) + ['"'] + (field + ['"'] + (after + "}"))
  }

  lemma ScrubFramed(u: string, v: string, token: string)
    requires '"' !in token
    ensures Scrub(u + ['"'] + v, token) == Scrub(u, token) + ['"'] + Scrub(v, token)
    ensures Unscrub(u + ['"'] + v, token) == Unscrub(u, token) + ['"'] + Unscrub(v, token)
  {
    if token != "" {
      var encoded := NonEmptyQuote(token);
      NoQuotes(token);
      ReplaceFramed(u, '"', v, encoded, ENCODED_PLACEHOLDER);
      var u', v' := if encoded != token then Replace(u, encoded, ENCODED_PLACEHOLDER) else u,
                    if encoded != token then Replace(v, encoded, ENCODED_PLACEHOLDER) else v;
      ReplaceFramed(u', '"', v', token, TOKEN_PLACEHOLDER);
      ReplaceFramed(u, '"', v, TOKEN_PLACEHOLDER, token);
      ReplaceFramed(Replace(u, TOKEN_PLACEHOLDER, token), '"', Replace(v, TOKEN_PLACEHOLDER, token),
                    ENCODED_PLACEHOLDER, encoded);
    }
  }

  lemma NoQuotes(token: string)
    ensures '"' !in Quote(token) && '"' !in TOKEN_PLACEHOLDER && '"' !in ENCODED_PLACEHOLDER
  {
    PlaceholderCharacters('"');
    QuotedBytesCharacters(Utf8.Encode(token));
  }

  lemma RoundTripFramed(u: string, v: string, token: string)
    requires '"' !in token
    ensures RoundTrip(u + ['"'] + v, token) == RoundTrip(u, token) + ['"'] + RoundTrip(v, token)
  {
    ScrubFramed(u, v, token);
    ScrubFramed(Scrub(u, token), Scrub(v, token), token);
  }

  lemma QuotesKept(text: string, token: string)
    requires '"' !in token
    ensures Occurrences(RoundTrip(text, token), '"') == Occurrences(text, '"')
  {
    if token != "" {
      var encoded := NonEmptyQuote(token);
      NoQuotes(token);
      var first := if encoded != token then Replace(text, encoded, ENCODED_PLACEHOLDER) else text;
      OccurrencesStay(text, encoded, ENCODED_PLACEHOLDER, '"');
      OccurrencesStay(first, token, TOKEN_PLACEHOLDER, '"');
      var stored := Replace(first, token, TOKEN_PLACEHOLDER);
      OccurrencesStay(stored, TOKEN_PLACEHOLDER, token, '"');
      OccurrencesStay(Replace(stored, TOKEN_PLACEHOLDER, token), ENCODED_PLACEHOLDER, encoded, '"');
    }
  }

  lemma OccurrencesStay(s: string, a: string, p: string, c: char)
    requires a != "" && c !in a && c !in p
    ensures Occurrences(Replace(s, a, p), c) == Occurrences(s, c)
  {
    OccurrencesAfter(s, a, p, c);
    OccurrencesZeroIff(a, c);
    OccurrencesZeroIff(p, c);
  }

  lemma StartsAtSeparator(u: string, v: string, d: char)
    ensures (u + [d] + v)[0] == if u == "" then d else u[0]
    ensures u == "" ==> (u + [d] + v)[1..] == v
  {}

  /** Splitting at a separator that has as many before it on both sides. */
  lemma {:induction false} SameSplit(u: string, v: string, u': string, v': string, d: char)
    requires u + [d] + v == u' + [d] + v' && Occurrences(u, d) == Occurrences(u', d)
    ensures u == u' && v == v'
  {
    var s, s' := u + [d] + v, u' + [d] + v';
    StartsAtSeparator(u, v, d);
    StartsAtSeparator(u', v', d);
    OccurrencesZeroIff(u, d);
    OccurrencesZeroIff(u', d);
    if u != "" && u' != "" {
      assert s[0] == u[0] && s'[0] == u'[0];
      assert s[1..] == u[1..] + [d] + v && s'[1..] == u'[1..] + [d] + v';
      SameSplit(u[1..], v, u'[1..], v', d);
    }
  }

  /** A response comes back unchanged exactly when each of its parts does. */
  lemma ResponseReturnsIff(before: string, field: string, after: string, token: string)
    requires '"' !in token
    ensures var text := Response(before, field, after);
            RoundTrip(text, token) == text
            <==> && RoundTrip("{" + before, token) == "{" + before
                 && RoundTrip(field, token) == field
                 && RoundTrip(after + "}", token) == after + "}"
  {
    hide RoundTrip;
    var u, v := "{" + before, after + "}";
    RoundTripFramed(u, field + ['"'] + v, token);
    RoundTripFramed(field, v, token);
    QuotesKept(u, token);
    QuotesKept(field, token);
    var field', v' := RoundTrip(field, token), RoundTrip(v, token);
    if RoundTrip(Response(before, field, after), token) == Response(before, field, after) {
      SameSplit(RoundTrip(u, token), field' + ['"'] + v', u, field + ['"'] + v, '"');
      SameSplit(field', v', field, v, '"');
    }
  }

  /** A response with a field that names the placeholder comes back changed, whatever else it holds. */
  lemma PlaceholderInResponseIsLost(before: string, after: string, token: string, c: char)
    requires '"' !in token && c in token && ('a' <= c <= 'z' || '0' <= c <= '9' || c == '-')
    ensures var text := Response(before, TOKEN_PLACEHOLDER, after); RoundTrip(text, token) != text
  {
    FieldIsLost(token, c);
    ResponseReturnsIff(before, TOKEN_PLACEHOLDER, after, token);
  }

  lemma FieldIsLost(token: string, c: char)
    requires c in token && ('a' <= c <= 'z' || '0' <= c <= '9' || c == '-')
    ensures RoundTrip(TOKEN_PLACEHOLDER, token) != TOKEN_PLACEHOLDER
  {
    hide Replace, Quote;
    var p, encoded := TOKEN_PLACEHOLDER, NonEmptyQuote(token);
    assert c !in p && c !in ENCODED_PLACEHOLDER;
    CharacterQuoted(token, c);
    PartHasCharacter(p, encoded, c);
    PartHasCharacter(p, token, c);
    ReplaceAbsent(p, encoded, ENCODED_PLACEHOLDER);
    ReplaceAbsent(p, token, p);
    ReplaceWhole(p, token);
    CharacterKept(token, ENCODED_PLACEHOLDER, encoded, c);
  }

  lemma ReplaceWhole(p: string, t: string)
    requires p != ""
    ensures Replace(p, p, t) == t
  {
    ReplaceLeading(p, "", t);
    assert p + "" == p && t + "" == t;
  }

  lemma CharacterQuoted(s: string, c: char)
    requires c in s && IsUnreservedChar(c)
    ensures c in Quote(s)
  {
    var i :| 0 <= i < |s| && s[i] == c;
    assert s == s[..i] + ([c] + s[i + 1..]);
    QuoteJoin(s[..i], [c] + s[i + 1..]);
    QuoteHead([c] + s[i + 1..]);
    UnreservedKept(c);
  }
}
