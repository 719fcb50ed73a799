/**
  Left-to-right, non-overlapping text replacement, as `str.replace` performs it, and
  the facts about undoing a replacement and about what survives one.
 */
module TextReplace {

  /** `w` occurs in `s` at index `i`. */
  predicate At(s: string, w: string, i: nat) {
    i + |w| <= |s| && s[i..i + |w|] == w
  }

  ghost predicate Contains(s: string, w: string) {
    exists i: nat :: At(s, w, i)
  }

  function Replace(s: string, pattern: string, repl: string): string
    requires pattern != ""
  {
    if s == "" then ""
    else if pattern <= s then repl + Replace(s[|pattern|..], pattern, repl)
    else [s[0]] + Replace(s[1..], pattern, repl)
  }

  /** Where the first match of `a` starts; the length of `s` if there is none. */
  function NextMatch(s: string, a: string): (n: nat)
    ensures n <= |s|
  {
    if s == "" || a <= s then 0 else 1 + NextMatch(s[1..], a)
  }

  /**
    `s` starts with `p` before any match of `a`, or with `p` less a border directly before
    a match. (A border of `p` is a suffix of it that is also a prefix.)
   */
  predicate ReadsAs(s: string, a: string, p: string) {
    var n := NextMatch(s, a);
    p <= s[..n] || (n < |s| && n < |p| && s[..n] == p[..n] && p[n..] == p[..|p| - n])
  }

  /** No position that a scan for `a` leaves alone reads as `p`. */
  predicate Unambiguous(s: string, a: string, p: string)
    requires a != ""
  {
    if s == "" then true
    else if a <= s then Unambiguous(s[|a|..], a, p)
    else !ReadsAs(s, a, p) && Unambiguous(s[1..], a, p)
  }

  /** Every proper border of `p` (prefix that is also a suffix) has at most `b` characters. */
  ghost predicate BordersAtMost(p: string, b: nat) {
    forall k {:trigger p[..k]} :: b < k < |p| ==> p[..k] != p[|p| - k..]
  }

  /** `w` and `p` share no characters however they are laid over each other in a text. */
  ghost predicate Disjoint(w: string, p: string) {
    && !Contains(p, w)
    && !Contains(w, p)
    && (forall k {:trigger w[..k]} :: 1 <= k < |w| && k <= |p| ==> w[..k] != p[|p| - k..])
    && (forall k {:trigger p[..k]} :: 1 <= k < |w| && k <= |p| ==> w[|w| - k..] != p[..k])
  }

  // ---- occurrences under concatenation ----

  lemma AtTail(s: string, n: nat, w: string, j: nat)
    requires n <= |s|
    ensures At(s[n..], w, j) <==> At(s, w, n + j)
  {
    if n + j + |w| <= |s| {
      assert s[n..][j..j + |w|] == s[n + j..n + j + |w|];
    }
  }

  lemma ContainsShift(s: string, u: string, w: string)
    requires Contains(s, w)
    ensures Contains(u + s, w)
  {
    var i: nat :| At(s, w, i);
    assert (u + s)[|u|..] == s;
    AtTail(u + s, |u|, w, i);
  }

  lemma ContainsPart(s: string, v: string, w: string)
    requires Contains(s, v) && Contains(v, w)
    ensures Contains(s, w)
  {
    var i: nat :| At(s, v, i);
    var j: nat :| At(v, w, j);
    forall k | 0 <= k < |w| ensures s[i + j + k] == w[k] {
      assert w[k] == v[j..j + |w|][k] == v[j + k];
      assert v[j + k] == s[i..i + |v|][j + k];
    }
    assert At(s, w, i + j);
  }

  lemma ContainsTail(s: string, n: nat, w: string)
    requires n <= |s| && Contains(s[n..], w)
    ensures Contains(s, w)
  {
    assert s == s[..n] + s[n..];
    ContainsShift(s[n..], s[..n], w);
  }

  lemma PartHasCharacter(text: string, w: string, c: char)
    requires c in w
    ensures Contains(text, w) ==> c in text
  {
    if Contains(text, w) {
      var i: nat :| At(text, w, i);
      var k :| 0 <= k < |w| && w[k] == c;
      assert text[i + k] == text[i..i + |w|][k];
    }
  }

  // ---- shape of a replacement ----

  /** Text before the first match is copied; the rest is replaced on its own. */
  lemma {:induction false} ReplaceSkips(u: string, z: string, a: string, p: string)
    requires a != ""
    requires forall j: nat :: j < |u| ==> !At(u + z, a, j)
    ensures Replace(u + z, a, p) == u + Replace(z, a, p)
  {
    if u == "" {
      assert u + z == z;
    } else {
      var s := u + z;
      assert !At(s, a, 0);
      assert s[1..] == u[1..] + z;
      forall j: nat | j < |u[1..]| ensures !At(u[1..] + z, a, j) {
        assert !At(s, a, j + 1);
        AtTail(s, 1, a, j);
      }
      ReplaceSkips(u[1..], z, a, p);
    }
  }

  lemma ScanSteps(s: string, a: string, p: string)
    requires a != ""
    ensures a <= s ==> NextMatch(s, a) == 0 && Replace(s, a, p) == p + Replace(s[|a|..], a, p)
    ensures s != "" && !(a <= s) ==>
              NextMatch(s, a) == 1 + NextMatch(s[1..], a) && Replace(s, a, p) == [s[0]] + Replace(s[1..], a, p)
    ensures s == "" ==> NextMatch(s, a) == 0 && Replace(s, a, p) == ""
  {}

  /** The head up to the next match is copied. */
  lemma {:induction false} ReplaceToMatch(s: string, a: string, p: string)
    requires a != ""
    ensures var n := NextMatch(s, a);
            if n == |s| then Replace(s, a, p) == s
            else n + |a| <= |s| && Replace(s, a, p) == s[..n] + (p + Replace(s[n + |a|..], a, p))
  {
    hide NextMatch, Replace;
    ScanSteps(s, a, p);
    if s != "" && !(a <= s) {
      ReplaceToMatch(s[1..], a, p);
      var n := NextMatch(s[1..], a);
      assert s == [s[0]] + s[1..];
      if n < |s[1..]| { LongerHead(s, n, |a|, p + Replace(s[1..][n + |a|..], a, p)); }
    } else if s != "" {
      assert s[..0] + (p + Replace(s[|a|..], a, p)) == p + Replace(s[|a|..], a, p);
    }
  }

  lemma LongerHead(s: string, n: nat, m: nat, z: string)
    requires s != "" && n + m <= |s[1..]|
    ensures s[1..][n + m..] == s[n + 1 + m..] && [s[0]] + (s[1..][..n] + z) == s[..n + 1] + z
  {
    assert s[..n + 1] == [s[0]] + s[1..][..n];
  }

  lemma {:induction false} NextMatchAt(s: string, a: string)
    requires a != ""
    ensures var n := NextMatch(s, a); n < |s| ==> At(s, a, n) && (n == 0 <==> a <= s)
  {
    if s != "" && !(a <= s) {
      NextMatchAt(s[1..], a);
      var n := NextMatch(s[1..], a);
      if n < |s[1..]| { AtTail(s, 1, a, n); }
    }
  }

  /** Splits a text at its first match: the untouched head, and whether a match follows it. */
  lemma FirstSegment(s: string, a: string, p: string) returns (u: string, rest: string, matched: bool)
    requires a != ""
    ensures matched ==> s == u + a + rest && Replace(s, a, p) == u + p + Replace(rest, a, p)
    ensures !matched ==> s == u && Replace(s, a, p) == u
    ensures matched && a <= s ==> u == ""
    ensures !(a <= s) && s != "" ==> u != ""
  {
    var n := NextMatch(s, a);
    ReplaceToMatch(s, a, p);
    NextMatchAt(s, a);
    hide Replace, NextMatch;
    u, matched := s[..n], n < |s|;
    rest := if matched then s[n + |a|..] else "";
    if matched {
      assert s == s[..n] + s[n..n + |a|] + s[n + |a|..];
      assert u + (p + Replace(rest, a, p)) == u + p + Replace(rest, a, p);
    }
  }

  /** What `ReadsAs` says of the text is what the scan that reads `p` back will find there. */
  lemma ReadsAsIff(s: string, a: string, p: string)
    requires a != "" && p != ""
    ensures ReadsAs(s, a, p) && !(a <= s) <==> p <= Replace(s, a, p) && !(a <= s)
  {
    ReplaceToMatch(s, a, p);
    var n := NextMatch(s, a);
    if n < |s| {
      PrefixOfSplit(p, s[..n], p + Replace(s[n + |a|..], a, p));
      if n < |p| { PrefixOfSplit(p[n..], p, Replace(s[n + |a|..], a, p)); }
    } else {
      assert s[..n] == s;
    }
  }

  lemma PrefixOfSplit(p: string, u: string, v: string)
    ensures |p| <= |u| ==> (p <= u + v <==> p <= u)
    ensures |p| > |u| ==> (p <= u + v <==> p[..|u|] == u && p[|u|..] <= v)
    ensures |p| <= |u| ==> (p <= u <==> p == u[..|p|])
  {
    if |p| > |u| {
      assert p == p[..|u|] + p[|u|..];
      if p <= u + v {
        assert p[|u|..] == (u + v)[|u|..|p|] == v[..|p| - |u|];
        assert p[..|u|] == (u + v)[..|u|] == u;
      }
    } else if p <= u + v {
      assert (u + v)[..|p|] == u[..|p|];
    }
  }

  /** A character that the pattern lacks splits the text for the scan. */
  lemma {:induction false} ReplaceFramed(u: string, d: char, v: string, a: string, p: string)
    requires a != "" && d !in a
    ensures Replace(u + [d] + v, a, p) == Replace(u, a, p) + [d] + Replace(v, a, p)
  {
    var s := u + [d] + v;
    PrefixAhead(u, d, v, a);
    if u == "" {
      assert s[0] == d && s[1..] == v;
    } else if a <= u {
      assert s[|a|..] == u[|a|..] + [d] + v;
      ReplaceFramed(u[|a|..], d, v, a, p);
    } else {
      assert s[0] == u[0] && s[1..] == u[1..] + [d] + v;
      ReplaceFramed(u[1..], d, v, a, p);
    }
  }

  lemma PrefixAhead(u: string, d: char, v: string, a: string)
    requires d !in a
    ensures a <= u + [d] + v <==> a <= u
  {
    var s := u + [d] + v;
    assert s[|u|] == d;
    if a <= s {
      assert forall i :: 0 <= i < |a| ==> a[i] == s[i];
      assert |a| <= |u|;
    }
  }

  lemma {:induction false} CharactersAfter(s: string, a: string, p: string, c: char)
    requires a != "" && c in Replace(s, a, p)
    ensures c in s || c in p
  {
    if a <= s {
      if c !in p { CharactersAfter(s[|a|..], a, p, c); }
    } else if c != s[0] {
      CharactersAfter(s[1..], a, p, c);
    }
  }

  lemma {:induction false} CharacterKept(s: string, a: string, p: string, c: char)
    requires a != "" && c in s && c !in a
    ensures c in Replace(s, a, p)
  {
    if a <= s {
      assert s == a + s[|a|..];
      CharacterKept(s[|a|..], a, p, c);
    } else if c != s[0] {
      assert s == [s[0]] + s[1..];
      CharacterKept(s[1..], a, p, c);
    }
  }

  // ---- undoing a replacement ----

  /** Writing `p` for `a`, then reading it back. */
  function Back(s: string, a: string, p: string): string
    requires a != "" && p != ""
  {
    Replace(Replace(s, a, p), p, a)
  }

  lemma BackOfNothing(a: string, p: string)
    requires a != "" && p != ""
    ensures Back("", a, p) == ""
  {}

  lemma SameHead(h: string, u: string, v: string)
    ensures h + u == h + v <==> u == v
  {
    assert (h + u)[|h|..] == u && (h + v)[|h|..] == v;
  }

  lemma BackSteps(s: string, a: string, p: string)
    requires a != "" && p != "" && s != ""
    ensures a <= s ==> Back(s, a, p) == a + Back(s[|a|..], a, p)
    ensures !(a <= s) && ReadsAs(s, a, p) ==> a <= Back(s, a, p)
    ensures !(a <= s) && !ReadsAs(s, a, p) ==> Back(s, a, p) == [s[0]] + Back(s[1..], a, p)
  {
    hide ReadsAs;
    if a <= s {
      var y := Replace(s[|a|..], a, p);
      assert (p + y)[|p|..] == y;
    } else {
      var y := Replace(s[1..], a, p);
      ReadsAsIff(s, a, p);
      assert ([s[0]] + y)[1..] == y;
    }
  }

  /**
    Replacing `a` by `p` and then `p` by `a` gives the text back exactly when no position
    that was left alone reads as `p`.
   */
  lemma {:induction false} RoundTripIff(s: string, a: string, p: string)
    requires a != "" && p != ""
    ensures Back(s, a, p) == s <==> Unambiguous(s, a, p)
  {
    hide ReadsAs, Back;
    if s == "" {
      BackOfNothing(a, p);
    } else {
      BackSteps(s, a, p);
      var n := if a <= s then |a| else 1;
      RoundTripIff(s[n..], a, p);
      SameHead(s[..n], Back(s[n..], a, p), s[n..]);
      assert s == s[..n] + s[n..];
      assert a <= s ==> s[..n] == a;
    }
  }

  /**
    A text without `p` less its last `b` characters is unambiguous, whatever `a` is, when
    no proper border of `p` is longer than `b`.
   */
  lemma {:induction false} NoCoreUnambiguous(s: string, a: string, p: string, b: nat)
    requires a != "" && b < |p| && BordersAtMost(p, b)
    requires !Contains(s, p[..|p| - b])
    ensures Unambiguous(s, a, p)
  {
    var core := p[..|p| - b];
    if s != "" {
      var n := if a <= s then |a| else 1;
      if Contains(s[n..], core) { ContainsTail(s, n, core); }
      NoCoreUnambiguous(s[n..], a, p, b);
      if !(a <= s) && ReadsAs(s, a, p) {
        ReadsCore(s, a, p, b);
        assert At(s, core, 0);
      }
    }
  }

  lemma BehindHead(h: string, s: string, u: string, back: string, a: string)
    requires u <= s && u + a <= back
    ensures h + u <= h + s && h + u + a <= h + back && (h + s)[|h + u|..] == s[|u|..]
  {}

  /** Where the round trip first goes wrong: `s` reads as `p` there, and comes back with `a` there. */
  lemma {:induction false} FirstMisreading(s: string, a: string, p: string) returns (u: string)
    requires a != "" && p != "" && !Unambiguous(s, a, p)
    ensures u <= s && !(a <= s[|u|..]) && ReadsAs(s[|u|..], a, p)
    ensures u + a <= Back(s, a, p)
  {
    hide Back, ReadsAs;
    BackSteps(s, a, p);
    if !(a <= s) && ReadsAs(s, a, p) {
      u := "";
      assert u + a == a && s[0..] == s;
    } else {
      var n := if a <= s then |a| else 1;
      u := FirstMisreading(s[n..], a, p);
      assert s == s[..n] + s[n..];
      BehindHead(s[..n], s[n..], u, Back(s[n..], a, p), a);
      u := s[..n] + u;
    }
  }

  /** Reading as `p` takes at least `p` without its longest border. */
  lemma ReadsCore(s: string, a: string, p: string, b: nat)
    requires b < |p| && BordersAtMost(p, b) && ReadsAs(s, a, p)
    requires s == "" || !(a <= s)
    ensures p[..|p| - b] <= s
  {
    var n := NextMatch(s, a);
    if p <= s[..n] {
      assert p[..|p| - b] <= s;
    } else {
      var k := |p| - n;
      assert p[n..] == p[|p| - k..];
      assert k <= b;
      assert p[..|p| - b] == s[..n][..|p| - b];
    }
  }

  // ---- what survives a replacement ----

  /**
    Text disjoint from the replacement that is found afterwards was already there, at a
    position the scan left alone.
   */
  lemma {:induction false} SurvivorWasThere(s: string, a: string, p: string, w: string, i: nat)
    returns (j: nat)
    requires a != "" && w != "" && Disjoint(w, p)
    requires At(Replace(s, a, p), w, i)
    ensures At(s, w, j) && !At(s, a, j)
  {
    var y := Replace(s, a, p);
    if s == "" {
      assert false;
    } else if a <= s {
      var y' := Replace(s[|a|..], a, p);
      if i < |p| {
        StartsInside(y', p, w, i);
        assert false;
      }
      assert y'[i - |p|..i - |p| + |w|] == y[i..i + |w|];
      j := SurvivorWasThere(s[|a|..], a, p, w, i - |p|);
      j := ShiftOccurrence(s, |a|, w, a, j);
    } else if i > 0 {
      var y' := Replace(s[1..], a, p);
      assert y'[i - 1..i - 1 + |w|] == y[i..i + |w|];
      j := SurvivorWasThere(s[1..], a, p, w, i - 1);
      j := ShiftOccurrence(s, 1, w, a, j);
    } else {
      var u, rest, matched := FirstSegment(s, a, p);
      if |u| < |w| && matched {
        EndsInside(u, Replace(rest, a, p), p, w);
        assert false;
      }
      assert w == y[..|w|] == s[0..|w|];
      j := 0;
    }
  }

  lemma ShiftOccurrence(s: string, n: nat, w: string, a: string, j: nat) returns (j': nat)
    requires n <= |s| && At(s[n..], w, j) && !At(s[n..], a, j)
    ensures At(s, w, j') && !At(s, a, j')
  {
    j' := j + n;
    AtTail(s, n, w, j);
    AtTail(s, n, a, j);
  }

  lemma StartsInside(y': string, p: string, w: string, i: nat)
    requires w != "" && i < |p| && At(p + y', w, i)
    ensures !Disjoint(w, p)
  {
    var y := p + y';
    if i + |w| <= |p| {
      assert p[i..i + |w|] == y[i..i + |w|];
      assert At(p, w, i);
    } else {
      var k := |p| - i;
      assert w[..k] == y[i..|p|] == p[|p| - k..];
    }
  }

  lemma EndsInside(u: string, y': string, p: string, w: string)
    requires u != "" && |u| < |w| && w <= u + p + y'
    ensures !Disjoint(w, p)
  {
    var y := u + p + y';
    var k := |w| - |u|;
    if k <= |p| {
      assert w[|u|..] == y[|u|..|w|] == p[..k];
      assert w[|w| - k..] == p[..k];
    } else {
      assert w[|u|..|u| + |p|] == y[|u|..|u| + |p|] == p;
      assert At(w, p, |u|);
    }
  }

  // ---- which replacements remove every trace of the replaced text ----

  lemma {:induction false} ReplaceShort(s: string, a: string, p: string)
    requires |s| < |a|
    ensures Replace(s, a, p) == s
  {
    if s != "" { ReplaceShort(s[1..], a, p); }
  }

  lemma ReplaceLeading(a: string, z: string, p: string)
    requires a != "" && |z| < |a|
    ensures Replace(a + z, a, p) == p + z
  {
    ReplaceShort(z, a, p);
    assert (a + z)[|a|..] == z;
  }

  /** In a head of `a` followed by `a`, an earlier match forces a repeated first character. */
  lemma EarlyMatchRepeats(a: string, m: nat, z: string, j: nat)
    requires j < m < |a|
    requires At(a[..m] + (a + z), a, j)
    ensures a[m] == a[0]
  {
    var s := a[..m] + (a + z);
    assert s[j] == a[j] && s[j + m] == a[j];
    assert a[0] == s[j..j + |a|][0] && a[m] == s[j..j + |a|][m];
  }

  /** The scan replaces the full copy of `a` and the head before it, the new text and the tail spell `a` again. */
  lemma HeadThenCopyLeaks(a: string, p: string, m: nat, z: string)
    requires m < |a| && a[m] != a[0] && |z| < |a|
    requires a <= a[..m] + p + z
    ensures Contains(Replace(a[..m] + (a + z), a, p), a)
  {
    var u := a[..m];
    forall j: nat | j < m ensures !At(u + (a + z), a, j) {
      if At(u + (a + z), a, j) { EarlyMatchRepeats(a, m, z, j); }
    }
    ReplaceSkips(u, a + z, a, p);
    ReplaceLeading(a, z, p);
    var y := Replace(u + (a + z), a, p);
    assert y == u + (p + z) == u + p + z;
    assert At(y, a, 0);
  }

  lemma CopyThenTailLeaks(a: string, p: string, k: nat)
    requires 1 <= k < |a| && k <= |p| && a[..k] == p[|p| - k..]
    ensures Contains(Replace(a + a[k..], a, p), a)
  {
    hide Replace, Contains;
    ReplaceLeading(a, a[k..], p);
    OverlapJoins(a, p, k);
    ContainsItself(a);
    ContainsShift(a, p[..|p| - k], a);
  }

  lemma ContainsItself(a: string)
    ensures Contains(a, a)
  {
    assert At(a, a, 0);
  }

  lemma OverlapJoins(a: string, p: string, k: nat)
    requires k <= |a| && k <= |p| && a[..k] == p[|p| - k..]
    ensures p + a[k..] == p[..|p| - k] + a
  {
    assert p == p[..|p| - k] + a[..k];
    assert a == a[..k] + a[k..];
  }

  /** Replacing `a` by `p` in `s` leaves `a` in the text. */
  ghost predicate Leaks(s: string, a: string, p: string)
    requires a != ""
  {
    Contains(Replace(s, a, p), a)
  }

  lemma SingleInside(a: string, p: string)
    requires a != "" && p != ""
    ensures |a| == 1 && a[0] == p[0] ==> Contains(p, a)
  {
    if |a| == 1 && a[0] == p[0] { assert At(p, a, 0); }
  }

  /** An overlap between `a` and its replacement gives a text in which `a` reappears. */
  lemma LeakingText(a: string, p: string) returns (s: string)
    requires a != "" && p != "" && p[0] == p[|p| - 1] && !Disjoint(a, p)
    ensures Leaks(s, a, p) && forall c :: c in s ==> c in a
  {
    hide Replace;
    SingleInside(a, p);
    if Contains(p, a) {
      s := a;
      ReplaceLeading(a, "", p);
      assert a + "" == a && p + "" == p;
    } else if a[0] == p[0] {
      assert a[..1] == p[|p| - 1..] == [a[0]];
      s := a + a[1..];
      CopyThenTailLeaks(a, p, 1);
    } else if k :| 1 <= k < |a| && k <= |p| && a[..k] == p[|p| - k..] {
      s := a + a[k..];
      CopyThenTailLeaks(a, p, k);
    } else {
      if Contains(a, p) {
        var i: nat :| At(a, p, i);
        s := a[..i] + (a + a[i + |p|..]);
        assert a[i] == a[i..i + |p|][0];
        assert a == a[..i] + a[i..i + |p|] + a[i + |p|..];
        HeadThenCopyLeaks(a, p, i, a[i + |p|..]);
      } else {
        var k :| 1 <= k < |a| && k <= |p| && a[|a| - k..] == p[..k];
        var m := |a| - k;
        s := a[..m] + (a + "");
        assert a[m] == a[m..][0] == p[..k][0];
        assert a == a[..m] + p[..k];
        HeadThenCopyLeaks(a, p, m, "");
      }
    }
  }

  /**
    For a replacement that starts and ends alike: no text leaks `a` exactly when `a` and
    the replacement do not overlap.
   */
  lemma NoLeakIff(a: string, p: string)
    requires a != "" && p != "" && p[0] == p[|p| - 1]
    ensures (forall s :: !Leaks(s, a, p)) <==> Disjoint(a, p)
  {
    if Disjoint(a, p) {
      forall s ensures !Leaks(s, a, p) {
        NoLeak(s, a, p);
      }
    } else {
      var s := LeakingText(a, p);
    }
  }

  lemma NoLeak(s: string, a: string, p: string)
    requires a != "" && Disjoint(a, p)
    ensures !Leaks(s, a, p)
  {
    if Leaks(s, a, p) {
      var i: nat :| At(Replace(s, a, p), a, i);
      var j := SurvivorWasThere(s, a, p, a, i);
    }
  }

  /** A replacement disjoint from `w` adds no occurrence of `w`. */
  lemma NoNewOccurrence(s: string, a: string, p: string, w: string)
    requires a != "" && w != "" && Disjoint(w, p)
    requires Contains(Replace(s, a, p), w)
    ensures Contains(s, w)
  {
    var i: nat :| At(Replace(s, a, p), w, i);
    var j := SurvivorWasThere(s, a, p, w, i);
  }

  // ---- counting ----

  /** How many matches a replacement of `a` replaces. */
  function Matches(s: string, a: string): nat
    requires a != ""
  {
    if s == "" then 0
    else if a <= s then 1 + Matches(s[|a|..], a)
    else Matches(s[1..], a)
  }

  function Occurrences(s: string, c: char): nat {
    if s == "" then 0 else (if s[0] == c then 1 else 0) + Occurrences(s[1..], c)
  }

  lemma {:induction false} OccurrencesConcat(s: string, z: string, c: char)
    ensures Occurrences(s + z, c) == Occurrences(s, c) + Occurrences(z, c)
  {
    if s == "" {
      assert s + z == z;
    } else {
      assert (s + z)[1..] == s[1..] + z;
      OccurrencesConcat(s[1..], z, c);
    }
  }

  /** A replacement changes the count of a character by the same amount at every match. */
  lemma {:induction false} OccurrencesAfter(s: string, a: string, p: string, c: char)
    requires a != ""
    ensures Occurrences(Replace(s, a, p), c)
            == Occurrences(s, c) + Matches(s, a) * (Occurrences(p, c) - Occurrences(a, c))
  {
    if s != "" {
      var n := if a <= s then |a| else 1;
      var head := if a <= s then p else [s[0]];
      OccurrencesAfter(s[n..], a, p, c);
      OccurrencesConcat(head, Replace(s[n..], a, p), c);
      OccurrencesConcat(s[..n], s[n..], c);
      assert s == s[..n] + s[n..];
      if a <= s {
        OneMore(Matches(s[n..], a), Occurrences(p, c) - Occurrences(a, c));
        assert s[..n] == a;
      } else {
        assert s[..n] == head;
      }
    }
  }

  lemma OneMore(m: int, d: int)
    ensures (1 + m) * d == d + m * d
  {}

  lemma {:induction false} OccurrencesZeroIff(s: string, c: char)
    ensures Occurrences(s, c) == 0 <==> c !in s
  {
    if s != "" { OccurrencesZeroIff(s[1..], c); }
  }

  lemma {:induction false} NoMatchesIff(s: string, a: string)
    requires a != ""
    ensures Matches(s, a) == 0 <==> !Contains(s, a)
  {
    if s != "" {
      NoMatchesIff(s[1..], a);
      assert At(s, a, 0) <==> a <= s;
      if !(a <= s) && Contains(s, a) {
        var i: nat :| At(s, a, i);
        AtTail(s, 1, a, i - 1);
      }
      if Contains(s[1..], a) { ContainsTail(s, 1, a); }
    }
  }

  /** Matching from the left finds as many disjoint matches as there are: text in front loses none. */
  lemma {:induction false} MatchesPrepend(u: string, s: string, a: string)
    requires a != ""
    ensures Matches(u + s, a) >= Matches(s, a)
    decreases |u| + |s|, 1
  {
    if u == "" {
      assert u + s == s;
    } else {
      var z := u + s;
      if a <= z {
        if |a| <= |u| {
          assert z[|a|..] == u[|a|..] + s;
          MatchesPrepend(u[|a|..], s, a);
        } else {
          assert z[|a|..] == s[|a| - |u|..];
          MatchesDrop(s, |a| - |u|, a);
        }
      } else {
        assert z[1..] == u[1..] + s;
        MatchesPrepend(u[1..], s, a);
      }
    }
  }

  /** Cutting off at most a pattern's length loses at most one match. */
  lemma {:induction false} MatchesDrop(s: string, k: nat, a: string)
    requires a != "" && k <= |a| && k <= |s|
    ensures Matches(s, a) <= 1 + Matches(s[k..], a)
    decreases |s|, 0
  {
    if k == 0 {
      assert s[k..] == s;
    } else if a <= s {
      assert s[k..] == s[k..|a|] + s[|a|..];
      MatchesPrepend(s[k..|a|], s[|a|..], a);
    } else {
      assert s[k..] == s[1..][k - 1..];
      MatchesDrop(s[1..], k - 1, a);
    }
  }

  /** However the inserted copies fall, matching finds at least as many as were inserted. */
  lemma {:induction false} MatchesNotLost(s: string, a: string, p: string)
    requires a != "" && p != ""
    ensures Matches(Replace(s, a, p), p) >= Matches(s, a)
  {
    if s != "" {
      if a <= s {
        MatchesNotLost(s[|a|..], a, p);
        var y := Replace(s[|a|..], a, p);
        assert (p + y)[|p|..] == y;
      } else {
        MatchesNotLost(s[1..], a, p);
        MatchesPrepend([s[0]], Replace(s[1..], a, p), p);
      }
    }
  }

  lemma {:induction false} ReplaceAbsent(s: string, a: string, p: string)
    requires a != "" && !Contains(s, a)
    ensures Replace(s, a, p) == s
  {
    if s != "" {
      assert a <= s ==> At(s, a, 0);
      if Contains(s[1..], a) { ContainsTail(s, 1, a); }
      ReplaceAbsent(s[1..], a, p);
      assert [s[0]] + s[1..] == s;
    }
  }

  /**
    Two readings undo one writing exactly when the first does and the second finds nothing,
    if some character tells the token from both placeholders.
   */
  lemma SecondReadingIdle(text: string, a: string, p: string, q: string, c: char)
    requires a != "" && p != "" && q != ""
    requires Occurrences(p, c) == Occurrences(q, c) != Occurrences(a, c)
    ensures Replace(Replace(Replace(text, a, p), p, a), q, a) == text
            <==> Unambiguous(text, a, p) && !Contains(text, q)
  {
    hide Replace, Occurrences, Matches, Contains, Unambiguous;
    var stored := Replace(text, a, p);
    var once := Replace(stored, p, a);
    RoundTripIff(text, a, p);
    if Unambiguous(text, a, p) && !Contains(text, q) {
      ReplaceAbsent(text, q, a);
    }
    if Replace(once, q, a) == text {
      CountsBalance(text, a, p, q, c);
      NoMatchesIff(once, q);
      ReplaceAbsent(once, q, a);
    }
  }

  lemma CountsBalance(text: string, a: string, p: string, q: string, c: char)
    requires a != "" && p != "" && q != ""
    requires Occurrences(p, c) == Occurrences(q, c) != Occurrences(a, c)
    requires Replace(Replace(Replace(text, a, p), p, a), q, a) == text
    ensures Matches(Replace(Replace(text, a, p), p, a), q) == 0
  {
    hide Replace, Occurrences, Matches;
    var stored := Replace(text, a, p);
    var once := Replace(stored, p, a);
    OccurrencesAfter(text, a, p, c);
    OccurrencesAfter(stored, p, a, c);
    OccurrencesAfter(once, q, a, c);
    MatchesNotLost(text, a, p);
    NothingExtra(Matches(text, a), Matches(stored, p), Matches(once, q), Occurrences(p, c), Occurrences(a, c));
  }

  lemma NothingExtra(written: nat, read: nat, readAgain: nat, x: int, y: int)
    requires x != y && written <= read && written * (x - y) + read * (y - x) + readAgain * (y - x) == 0
    ensures readAgain == 0
  {
    assert (written - read - readAgain) * (x - y) == 0;
  }
}
