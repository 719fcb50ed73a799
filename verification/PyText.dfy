/** The string operations of the source language that the models share. */
module PyText {
  import opened Wrappers

  predicate IsDigit(c: char) {
    '0' <= c <= '9'
  }

  /** `isascii() and isdigit()`: false for the empty string. */
  predicate AllDigits(s: string) {
    s != "" && forall i :: 0 <= i < |s| ==> IsDigit(s[i])
  }

  /** `split(sep)` for a one-character separator. */
  function Split(s: string, sep: char): (parts: seq<string>)
    ensures parts != []
  {
    if s == "" then [""]
    else if s[0] == sep then [""] + Split(s[1..], sep)
    else
      var rest := Split(s[1..], sep);
      [[s[0]] + rest[0]] + rest[1..]
  }

  /** Splitting at the first separator: `split(sep, 1)`. */
  function SplitOnce(s: string, sep: char): (string, Option<string>) {
    if s == "" then ("", None)
    else if s[0] == sep then ("", Some(s[1..]))
    else
      var (head, tail) := SplitOnce(s[1..], sep);
      ([s[0]] + head, tail)
  }

  /** `str(n)` for a non-negative integer. */
  function Decimal(n: nat): (s: string)
    ensures AllDigits(s)
  {
    if n < 10 then [('0' as int + n) as char] else Decimal(n / 10) + Decimal(n % 10)
  }

  function DigitValue(c: char): nat
    requires IsDigit(c)
  {
    c as int - '0' as int
  }

  function DigitsValue(s: string): nat
    requires forall i :: 0 <= i < |s| ==> IsDigit(s[i])
  {
    if s == "" then 0 else DigitsValue(s[..|s| - 1]) * 10 + DigitValue(s[|s| - 1])
  }

  // ---- proofs ----

  lemma {:induction false} SplitWithout(s: string, sep: char)
    requires sep !in s
    ensures Split(s, sep) == [s]
  {
    if s != "" {
      SplitWithout(s[1..], sep);
      assert [s[0]] + s[1..] == s;
    }
  }

  lemma {:induction false} SplitAtFirst(u: string, sep: char, rest: string)
    requires sep !in u
    ensures Split(u + [sep] + rest, sep) == [u] + Split(rest, sep)
  {
    var s := u + [sep] + rest;
    if u == "" {
      assert s[1..] == rest;
    } else {
      assert s[1..] == u[1..] + [sep] + rest;
      SplitAtFirst(u[1..], sep, rest);
      assert [s[0]] + u[1..] == u;
    }
  }

  lemma {:induction false} SplitOnceAtFirst(u: string, sep: char, rest: string)
    requires sep !in u
    ensures SplitOnce(u + [sep] + rest, sep) == (u, Some(rest))
  {
    var s := u + [sep] + rest;
    if u == "" {
      assert s[1..] == rest;
    } else {
      assert s[1..] == u[1..] + [sep] + rest;
      SplitOnceAtFirst(u[1..], sep, rest);
      assert [s[0]] + u[1..] == u;
    }
  }

  /** `sep.join(parts)`. */
  function Join(parts: seq<string>, sep: char): string
    requires parts != []
  {
    if |parts| == 1 then parts[0] else parts[0] + [sep] + Join(parts[1..], sep)
  }

  /** Splitting gives the one list of parts without the separator that joins back to the text. */
  lemma SplitIff(s: string, sep: char, parts: seq<string>)
    ensures Split(s, sep) == parts
            <==> parts != [] && (forall i :: 0 <= i < |parts| ==> sep !in parts[i]) && Join(parts, sep) == s
  {
    SplitJoins(s, sep);
    if parts != [] && (forall i :: 0 <= i < |parts| ==> sep !in parts[i]) && Join(parts, sep) == s {
      JoinSplits(parts, sep);
    }
  }

  lemma {:induction false} SplitJoins(s: string, sep: char)
    ensures var parts := Split(s, sep);
            (forall i :: 0 <= i < |parts| ==> sep !in parts[i]) && Join(parts, sep) == s
  {
    var parts := Split(s, sep);
    if s != "" {
      var rest := Split(s[1..], sep);
      SplitJoins(s[1..], sep);
      assert s == [s[0]] + s[1..];
      if s[0] == sep {
        assert parts[1..] == rest;
        assert forall i :: 0 < i < |parts| ==> parts[i] == rest[i - 1];
      } else {
        assert parts[1..] == rest[1..];
        assert forall i :: 0 < i < |parts| ==> parts[i] == rest[i];
      }
    }
  }

  lemma {:induction false} JoinSplits(parts: seq<string>, sep: char)
    requires parts != [] && forall i :: 0 <= i < |parts| ==> sep !in parts[i]
    ensures Split(Join(parts, sep), sep) == parts
  {
    if |parts| == 1 {
      SplitWithout(parts[0], sep);
    } else {
      JoinSplits(parts[1..], sep);
      SplitAtFirst(parts[0], sep, Join(parts[1..], sep));
    }
  }

  /** Splitting once gives the text up to the first separator and what follows it, or the whole text alone. */
  lemma {:induction false} SplitOnceIff(s: string, sep: char)
    ensures forall u, v :: SplitOnce(s, sep) == (u, Some(v)) <==> sep !in u && s == u + [sep] + v
    ensures forall u :: SplitOnce(s, sep) == (u, None) <==> sep !in s && u == s
  {
    SplitOnceJoins(s, sep);
    forall u, v | sep !in u && s == u + [sep] + v ensures SplitOnce(s, sep) == (u, Some(v)) {
      SplitOnceAtFirst(u, sep, v);
    }
    if sep !in s { assert SplitOnce(s, sep).1.None?; }
  }

  lemma {:induction false} SplitOnceJoins(s: string, sep: char)
    ensures var (u, rest) := SplitOnce(s, sep);
            sep !in u && s == match rest case Some(v) => u + [sep] + v case None => u
  {
    if s != "" {
      SplitOnceJoins(s[1..], sep);
      assert s == [s[0]] + s[1..];
    }
  }

  /** A separator is found at the same place in equal texts, so the parts around it are equal. */
  lemma FirstSeparator(u: string, v: string, u': string, v': string, sep: char)
    requires sep !in u && sep !in u'
    requires u + [sep] + v == u' + [sep] + v'
    ensures u == u' && v == v'
  {
    SplitOnceAtFirst(u, sep, v);
    SplitOnceAtFirst(u', sep, v');
  }

  lemma LastSeparator(u: string, v: string, u': string, v': string, sep: char)
    requires sep !in v && sep !in v'
    requires u + [sep] + v == u' + [sep] + v'
    ensures u == u' && v == v'
  {
    if |u| < |u'| { SeparatorInTail(u, v, u', v', sep); }
    if |u'| < |u| { SeparatorInTail(u', v', u, v, sep); }
    var s := u + [sep] + v;
    assert s[..|u|] == u && s[..|u'|] == u';
    assert s[|u| + 1..] == v && s[|u'| + 1..] == v';
  }

  lemma SeparatorInTail(u: string, v: string, u': string, v': string, sep: char)
    requires |u| < |u'| && u + [sep] + v == u' + [sep] + v'
    ensures sep in v
  {
    assert (u + [sep] + v)[|u'|] == v[|u'| - |u| - 1];
  }

  lemma {:induction false} DecimalValue(n: nat)
    ensures DigitsValue(Decimal(n)) == n
  {
    if n >= 10 {
      var s := Decimal(n);
      DecimalValue(n / 10);
      assert |Decimal(n % 10)| == 1;
      assert s[..|s| - 1] == Decimal(n / 10);
    }
  }
}
