/** Which header texts give a playback its total size and start offset, character by character. */
module Headers {
  import opened Wrappers
  import opened PyText
  import opened Position

  // ---- what `int` reads ----

  predicate Blank(c: char) {
    c in {' ', '\t', '\n', '\U{b}', '\U{c}', '\r', '\U{1c}', '\U{1d}', '\U{1e}', '\U{1f}'}
  }

  predicate AllBlank(s: string) {
    forall i :: 0 <= i < |s| ==> Blank(s[i])
  }

  /** A digit, or an underscore behind one and not at the end. */
  predicate InNumeral(s: string, i: nat)
    requires i < |s|
  {
    IsDigit(s[i]) || (s[i] == '_' && 0 < i < |s| - 1 && IsDigit(s[i - 1]))
  }

  /** Digits at both ends, and between them digits and underscores that do not meet. */
  predicate Numeral(s: string) {
    s != "" && forall i :: 0 <= i < |s| ==> InNumeral(s, i)
  }

  function WithoutUnderscores(s: string): string {
    if s == "" then "" else
    var n := |s| - 1;
    WithoutUnderscores(s[..n]) + if s[n] == '_' then "" else [s[n]]
  }

  ghost predicate Spells(s: string, n: nat) {
    var digits := WithoutUnderscores(s);
    Numeral(s) && AllDigits(digits) && DigitsValue(digits) == n
  }

  lemma {:induction false} NumeralDigits(s: string)
    requires forall i :: 0 <= i < |s| ==> IsDigit(s[i]) || s[i] == '_'
    ensures var digits := WithoutUnderscores(s);
            (forall i :: 0 <= i < |digits| ==> IsDigit(digits[i]))
            && (s != "" && IsDigit(s[|s| - 1]) ==> digits != "")
  {
    if s != "" { NumeralDigits(s[..|s| - 1]); }
  }

  lemma NumeralEnds(s: string)
    requires Numeral(s)
    ensures IsDigit(s[0]) && IsDigit(s[|s| - 1])
    ensures forall i :: 0 <= i < |s| ==> IsDigit(s[i]) || s[i] == '_'
  {
    assert InNumeral(s, 0) && InNumeral(s, |s| - 1);
    forall i | 0 <= i < |s| ensures IsDigit(s[i]) || s[i] == '_' {
      assert InNumeral(s, i);
    }
  }

  /** What `ParseDigits` reads next: the text without its last digit and the underscore before it. */
  function Shorter(s: string): string
    requires |s| > 1
  {
    if s[|s| - 2] == '_' then s[..|s| - 2] else s[..|s| - 1]
  }

  /** A numeral goes on from a shorter one by a digit, with or without an underscore before it. */
  lemma NumeralStep(s: string)
    requires |s| > 1 && IsDigit(s[|s| - 1])
    ensures Numeral(s) <==> Numeral(Shorter(s))
    ensures WithoutUnderscores(s) == WithoutUnderscores(Shorter(s)) + [s[|s| - 1]]
  {
    UnderscoresStep(s);
    hide WithoutUnderscores, Numeral, Shorter;
    if Numeral(s) { NumeralShorter(s); }
    if Numeral(Shorter(s)) { NumeralLonger(s); }
  }

  lemma UnderscoresStep(s: string)
    requires |s| > 1 && s[|s| - 1] != '_'
    ensures WithoutUnderscores(s) == WithoutUnderscores(Shorter(s)) + [s[|s| - 1]]
  {
    hide WithoutUnderscores;
    LastCharacter(s);
    var t := s[..|s| - 1];
    assert t[|t| - 1] == s[|s| - 2];
    LastCharacter(t);
    assert t[..|t| - 1] == s[..|s| - 2];
  }

  lemma LastCharacter(s: string)
    requires s != ""
    ensures s[|s| - 1] != '_' ==> WithoutUnderscores(s) == WithoutUnderscores(s[..|s| - 1]) + [s[|s| - 1]]
    ensures s[|s| - 1] == '_' ==> WithoutUnderscores(s) == WithoutUnderscores(s[..|s| - 1])
  {}

  lemma NumeralShorter(s: string)
    requires |s| > 1 && Numeral(s)
    ensures Numeral(Shorter(s))
  {
    var rest := Shorter(s);
    NumeralEnds(s);
    assert InNumeral(s, |s| - 2);
    forall i | 0 <= i < |rest| ensures InNumeral(rest, i) {
      assert InNumeral(s, i) && rest[i] == s[i] && (i > 0 ==> rest[i - 1] == s[i - 1]);
    }
  }

  lemma NumeralLonger(s: string)
    requires |s| > 1 && Numeral(Shorter(s)) && IsDigit(s[|s| - 1])
    ensures Numeral(s)
  {
    var rest := Shorter(s);
    NumeralEnds(rest);
    assert rest[|rest| - 1] == s[|rest| - 1];
    forall i | 0 <= i < |s| ensures InNumeral(s, i) {
      if i < |rest| { assert InNumeral(rest, i) && rest[i] == s[i] && (i > 0 ==> rest[i - 1] == s[i - 1]); }
    }
  }

  lemma {:induction false} ParseDigitsIff(s: string, n: nat)
    ensures ParseDigits(s) == Some(n) <==> Spells(s, n)
  {
    if Numeral(s) {
      NumeralEnds(s);
      NumeralDigits(s);
    }
    if |s| == 1 {
      if IsDigit(s[0]) { OneDigit(s); }
    } else if |s| > 1 && IsDigit(s[|s| - 1]) {
      NumeralStep(s);
      hide Numeral, WithoutUnderscores;
      var rest := Shorter(s);
      if Numeral(rest) {
        NumeralEnds(rest);
        NumeralDigits(rest);
        ParseDigitsIff(rest, DigitsValue(WithoutUnderscores(rest)));
        OneMoreDigit(WithoutUnderscores(rest), s[|s| - 1]);
      } else if ParseDigits(rest).Some? {
        ParseDigitsIff(rest, ParseDigits(rest).value);
      }
    }
  }

  lemma OneDigit(s: string)
    requires |s| == 1 && IsDigit(s[0])
    ensures Spells(s, DigitValue(s[0]))
  {
    assert s[..0] == "" && WithoutUnderscores(s) == "" + [s[0]] == s;
    assert DigitsValue(s) == DigitValue(s[0]);
    assert InNumeral(s, 0);
  }

  lemma OneMoreDigit(digits: string, c: char)
    requires (forall i :: 0 <= i < |digits| ==> IsDigit(digits[i])) && IsDigit(c)
    ensures AllDigits(digits + [c]) && DigitsValue(digits + [c]) == DigitsValue(digits) * 10 + DigitValue(c)
  {
    assert (digits + [c])[..|digits|] == digits;
  }

  lemma BlankIff(c: char)
    ensures IsSpace(c) <==> Blank(c)
  {
    if IsSpace(c) && c != ' ' {
      var n := c as int;
      assert 9 <= n <= 13 || 28 <= n <= 31;
      assert c == n as char;
    }
  }

  lemma {:induction false} StripsLeft(s: string) returns (left: string)
    ensures AllBlank(left) && s == left + StripLeft(s)
    ensures StripLeft(s) != "" ==> !Blank(StripLeft(s)[0])
  {
    left := "";
    if s != "" {
      BlankIff(s[0]);
      if IsSpace(s[0]) {
        var more := StripsLeft(s[1..]);
        left := [s[0]] + more;
        assert s == [s[0]] + s[1..];
      }
    }
  }

  lemma {:induction false} StripsRight(s: string) returns (right: string)
    ensures AllBlank(right) && s == StripRight(s) + right
    ensures StripRight(s) != "" ==> !Blank(StripRight(s)[|StripRight(s)| - 1])
  {
    right := "";
    if s != "" {
      BlankIff(s[|s| - 1]);
      if IsSpace(s[|s| - 1]) {
        var more := StripsRight(s[..|s| - 1]);
        right := more + [s[|s| - 1]];
        assert s == s[..|s| - 1] + [s[|s| - 1]];
      }
    }
  }

  lemma {:induction false} LeftStripped(left: string, t: string)
    requires AllBlank(left) && t != "" && !Blank(t[0])
    ensures StripLeft(left + t) == t
  {
    if left == "" {
      BlankIff(t[0]);
      assert left + t == t;
    } else {
      BlankIff(left[0]);
      assert (left + t)[1..] == left[1..] + t;
      LeftStripped(left[1..], t);
    }
  }

  lemma {:induction false} RightStripped(t: string, right: string)
    requires AllBlank(right) && t != "" && !Blank(t[|t| - 1])
    ensures StripRight(t + right) == t
  {
    if right == "" {
      BlankIff(t[|t| - 1]);
      assert t + right == t;
    } else {
      var n := |right| - 1;
      BlankIff(right[n]);
      assert (t + right)[..|t + right| - 1] == t + right[..n];
      RightStripped(t, right[..n]);
    }
  }

  /** A text that `int` reads: blanks around a sign, if any, and a numeral. */
  ghost predicate Reads(s: string, n: int, left: string, sign: string, body: string, right: string) {
    && s == left + sign + body + right && AllBlank(left) && AllBlank(right)
    && sign in {"", "+", "-"}
    && exists m: nat :: Spells(body, m) && n == if sign == "-" then 0 - m else m
  }

  /** `int` reads exactly those texts. */
  lemma ParseIntIff(s: string, n: int)
    ensures ParseInt(s) == Some(n) <==> exists left, sign, body, right :: Reads(s, n, left, sign, body, right)
  {
    if ParseInt(s) == Some(n) { IntRead(s, n); }
    if left, sign, body, right :| Reads(s, n, left, sign, body, right) { ReadInt(s, n, left, sign, body, right); }
  }

  lemma IntRead(s: string, n: int)
    requires ParseInt(s) == Some(n)
    ensures exists left, sign, body, right :: Reads(s, n, left, sign, body, right)
  {
    hide ParseDigits, Spells, StripLeft, StripRight, AllBlank, Blank, IsSpace;
    var left := StripsLeft(s);
    var inner := StripLeft(s);
    var right := StripsRight(inner);
    var t := StripRight(inner);
    var signed := t[0] == '-' || t[0] == '+';
    var sign, body := if signed then [t[0]] else "", if signed then t[1..] else t;
    assert t == sign + body;
    ParseDigitsIff(body, ParseDigits(body).value);
    assert s == left + sign + body + right;
    assert Reads(s, n, left, sign, body, right);
  }

  lemma ReadInt(s: string, n: int, left: string, sign: string, body: string, right: string)
    requires Reads(s, n, left, sign, body, right)
    ensures ParseInt(s) == Some(n)
  {
    hide Spells, AllBlank, ParseInt;
    var m: nat :| Spells(body, m) && n == if sign == "-" then 0 - m else m;
    SpellsEnds(body, m);
    Stripped(left, sign + body, right);
    assert s == left + (sign + body + right);
    ParseIntSigned(s, sign, body, m);
  }

  lemma SpellsEnds(body: string, m: nat)
    requires Spells(body, m)
    ensures ParseDigits(body) == Some(m) && body != "" && IsDigit(body[0]) && IsDigit(body[|body| - 1])
  {
    ParseDigitsIff(body, m);
    NumeralEnds(body);
  }

  lemma Stripped(left: string, t: string, right: string)
    requires AllBlank(left) && AllBlank(right) && t != "" && !Blank(t[0]) && !Blank(t[|t| - 1])
    ensures StripRight(StripLeft(left + (t + right))) == t
  {
    LeftStripped(left, t + right);
    RightStripped(t, right);
  }

  lemma ParseIntSigned(s: string, sign: string, body: string, m: nat)
    requires sign in {"", "+", "-"} && body != "" && IsDigit(body[0])
    requires StripRight(StripLeft(s)) == sign + body && ParseDigits(body) == Some(m)
    ensures ParseInt(s) == Some(if sign == "-" then 0 - m else m)
  {
    hide ParseDigits, StripLeft, StripRight;
    var t := sign + body;
    assert t[0] == if sign == "" then body[0] else sign[0];
    assert sign != "" ==> t[1..] == body;
    assert sign == "" ==> t == body;
  }

  // ---- the two headers ----

  /** A range value: a unit, a space, the first byte and anything behind a hyphen, a slash, the total. */
  ghost predicate Ranges(header: string, unit: string, first: string, more: string, t: string) {
    && header == unit + [' '] + first + more + ['/'] + t
    && ' ' !in unit && '-' !in first && '/' !in first && '/' !in more && '/' !in t
    && (more == "" || more[0] == '-')
  }

  /** Its total and offset are read exactly when both are numbers. */
  lemma ParseRangeIff(header: string, unit: string, first: string, more: string, t: string)
    requires Ranges(header, unit, first, more, t)
    ensures ParseRange(header)
            == if ParseInt(first).Some? && ParseInt(t).Some? then Some((ParseInt(t).value, ParseInt(first).value))
               else None
  {
    hide ParseInt, Split, SplitOnce;
    var range := first + more;
    var spec := range + ['/'] + t;
    assert header == unit + [' '] + spec;
    SplitOnceAtFirst(unit, ' ', spec);
    SplitAtFirst(range, '/', t);
    SplitWithout(t, '/');
    assert Split(spec, '/') == [range] + [t];
    FirstOfRange(first, more);
  }

  lemma FirstOfRange(first: string, more: string)
    requires '-' !in first && (more == "" || more[0] == '-')
    ensures Split(first + more, '-')[0] == first
  {
    if more == "" {
      assert first + more == first;
      SplitWithout(first, '-');
    } else {
      assert first + more == first + ['-'] + more[1..];
      SplitAtFirst(first, '-', more[1..]);
    }
  }

  /** And no other header is read as a range. */
  lemma OnlyRanges(header: string)
    requires ParseRange(header).Some?
    ensures exists unit, first, more, t :: Ranges(header, unit, first, more, t)
  {
    hide ParseInt, Split, SplitOnce;
    var (unit, rest) := SplitOnce(header, ' ');
    SplitOnceIff(header, ' ');
    var spec := rest.value;
    var parts := Split(spec, '/');
    SplitIff(spec, '/', parts);
    assert Join(parts, '/') == parts[0] + ['/'] + parts[1];
    var (first, after) := SplitOnce(parts[0], '-');
    SplitOnceIff(parts[0], '-');
    var more := match after case Some(tail) => ['-'] + tail case None => "";
    if after.Some? {
      assert SplitOnce(parts[0], '-') == (first, Some(after.value));
      assert parts[0] == first + ['-'] + after.value;
    } else {
      assert SplitOnce(parts[0], '-') == (first, None);
    }
    assert parts[0] == first + more;
    assert header == unit + [' '] + first + more + ['/'] + parts[1];
    assert Ranges(header, unit, first, more, parts[1]);
  }

  /** Without a readable range the length header gives the total, unless it is zero, absent or no number. */
  lemma LengthCounts(contentRange: Option<string>, contentLength: Option<string>, n: int)
    requires contentRange.None? || '/' !in contentRange.value || ParseRange(contentRange.value).None?
    ensures contentLength.Some? && ParseInt(contentLength.value) == Some(n) && n != 0 ==>
              TotalAndStart(contentRange, contentLength) == (Some(n), 0)
    ensures contentLength.None? || ParseInt(contentLength.value) == None || ParseInt(contentLength.value) == Some(0) ==>
              TotalAndStart(contentRange, contentLength) == (None, 0)
  {
    ParseIntDecimal(0);
    assert Decimal(0) == "0";
  }
}
