/** Percent-encoding with no extra safe characters, as `quote(s, safe='')` does it. */
module PercentEncoding {
  import opened Wrappers
  import Utf8

  predicate IsUnreserved(n: int) {
    'A' as int <= n <= 'Z' as int || 'a' as int <= n <= 'z' as int || '0' as int <= n <= '9' as int
    || n == '_' as int || n == '.' as int || n == '-' as int || n == '~' as int
  }

  function HexDigit(n: int): char
    requires 0 <= n < 16
  {
    if n < 10 then ('0' as int + n) as char else ('A' as int + n - 10) as char
  }

  function QuoteByte(b: Utf8.Byte): (r: string)
    ensures r != ""
  {
    if IsUnreserved(b) then [b as char] else ['%', HexDigit(b / 16), HexDigit(b % 16)]
  }

  function QuoteBytes(b: seq<Utf8.Byte>): (r: string)
    ensures |r| >= |b|
  {
    if b == [] then "" else QuoteByte(b[0]) + QuoteBytes(b[1..])
  }

  function Quote(s: string): string {
    QuoteBytes(Utf8.Encode(s))
  }

  function NonEmptyQuote(token: string): (r: string)
    requires token != ""
    ensures r == Quote(token) && r != ""
  {
    Quote(token)
  }

  predicate IsUnreservedChar(c: char) {
    IsUnreserved(c as int)
  }

  // ---- proofs ----

  lemma QuoteBytesStep(b: seq<Utf8.Byte>)
    ensures QuoteBytes(b) == if b == [] then "" else QuoteByte(b[0]) + QuoteBytes(b[1..])
  {}

  lemma {:induction false} QuoteConcat(a: seq<Utf8.Byte>, b: seq<Utf8.Byte>)
    ensures QuoteBytes(a + b) == QuoteBytes(a) + QuoteBytes(b)
  {
    hide QuoteByte, QuoteBytes;
    if a == [] {
      QuoteBytesStep(a);
      assert a + b == b;
    } else {
      QuoteBytesStep(a);
      QuoteBytesStep(a + b);
      QuoteConcat(a[1..], b);
      assert (a + b)[0] == a[0] && (a + b)[1..] == a[1..] + b;
      var first, rest, last := QuoteByte(a[0]), QuoteBytes(a[1..]), QuoteBytes(b);
      assert first + (rest + last) == first + rest + last;
    }
  }

  function QuoteChar(c: char): string {
    QuoteBytes(Utf8.EncodeChar(c))
  }

  lemma QuoteHead(s: string)
    requires s != ""
    ensures Quote(s) == QuoteChar(s[0]) + Quote(s[1..])
  {
    hide QuoteBytes, Utf8.EncodeChar;
    QuoteConcat(Utf8.EncodeChar(s[0]), Utf8.Encode(s[1..]));
  }

  lemma PercentInChar(c: char)
    ensures QuoteChar(c) == [c] || '%' in QuoteChar(c)
  {
    var head := Utf8.EncodeChar(c);
    assert QuoteBytes(head) == QuoteByte(head[0]) + QuoteBytes(head[1..]);
    if IsUnreserved(head[0]) {
      assert head == [c as int];
    } else {
      assert QuoteBytes(head)[0] == '%';
    }
  }

  lemma FirstQuoted(s: string)
    requires s != ""
    ensures Quote(s) != "" && Quote(s)[0] == if IsUnreservedChar(s[0]) then s[0] else '%'
  {
    var head := Utf8.EncodeChar(s[0]);
    assert QuoteBytes(head) == QuoteByte(head[0]) + QuoteBytes(head[1..]);
    QuoteHead(s);
  }

  /** A text that percent-encoding changes gets a percent sign. */
  lemma {:induction false} PercentIfChanged(s: string)
    ensures Quote(s) == s || '%' in Quote(s)
  {
    hide QuoteChar, Quote;
    if s == "" {
      QuoteNothing();
    } else {
      QuoteHead(s);
      PercentInChar(s[0]);
      PercentIfChanged(s[1..]);
      assert s == [s[0]] + s[1..];
    }
  }

  lemma QuoteNothing()
    ensures Quote("") == ""
  {}

  /** What it writes is unreserved characters and percent signs. */
  lemma {:induction false} QuotedBytesCharacters(b: seq<Utf8.Byte>)
    ensures forall c :: c in QuoteBytes(b) ==> c == '%' || IsUnreservedChar(c)
  {
    if b != [] {
      QuotedBytesCharacters(b[1..]);
      assert forall c :: c in QuoteByte(b[0]) ==> c == '%' || IsUnreservedChar(c);
    }
  }

  lemma UnreservedKept(c: char)
    requires IsUnreservedChar(c)
    ensures QuoteChar(c) == [c]
  {
    var head := Utf8.EncodeChar(c);
    assert head == [c as int];
    assert QuoteBytes(head) == QuoteByte(head[0]) + QuoteBytes(head[1..]);
  }

  /** A text of unreserved characters is left alone, so a changed one holds another. */
  lemma {:induction false} ChangedCharacter(s: string) returns (r: char)
    requires Quote(s) != s
    ensures r in s && !IsUnreservedChar(r)
  {
    hide QuoteChar, Quote;
    if s == "" { QuoteNothing(); }
    QuoteHead(s);
    r := s[0];
    if IsUnreservedChar(r) {
      UnreservedKept(r);
      assert s == [s[0]] + s[1..];
      r := ChangedCharacter(s[1..]);
    }
  }

  lemma {:induction false} QuoteJoin(a: string, b: string)
    ensures Quote(a + b) == Quote(a) + Quote(b)
  {
    hide QuoteChar, Quote;
    if a == "" {
      QuoteNothing();
      assert a + b == b;
    } else {
      QuoteHead(a);
      QuoteHead(a + b);
      QuoteJoin(a[1..], b);
      assert (a + b)[1..] == a[1..] + b;
    }
  }

  // ---- reading it back ----

  /** The value of an upper-case hexadecimal digit. */
  function HexValue(c: char): Option<nat> {
    if '0' <= c <= '9' then Some(c as int - '0' as int)
    else if 'A' <= c <= 'F' then Some(c as int - 'A' as int + 10)
    else None
  }

  function Put(b: Utf8.Byte, r: Option<seq<Utf8.Byte>>): Option<seq<Utf8.Byte>> {
    match r case None => None case Some(rest) => Some([b] + rest)
  }

  /** Percent-decoding (section 2.1 of RFC 3986): a percent sign and two digits are a byte, other characters ASCII. */
  function UnquoteBytes(s: string): Option<seq<Utf8.Byte>> {
    if s == "" then Some([])
    else if s[0] == '%' then
      if |s| < 3 || HexValue(s[1]).None? || HexValue(s[2]).None? then None
      else Put(HexValue(s[1]).value * 16 + HexValue(s[2]).value, UnquoteBytes(s[3..]))
    else if s[0] as int < 128 then Put(s[0] as int, UnquoteBytes(s[1..]))
    else None
  }

  function Unquote(s: string): Option<string> {
    match UnquoteBytes(s) case None => None case Some(b) => Utf8.Decode(b)
  }

  lemma UnquoteByte(b: Utf8.Byte, rest: string)
    ensures UnquoteBytes(QuoteByte(b) + rest) == Put(b, UnquoteBytes(rest))
  {
    var s := QuoteByte(b) + rest;
    if IsUnreserved(b) {
      assert s[0] == b as char && s[1..] == rest;
    } else {
      assert s[3..] == rest && s[1] == HexDigit(b / 16) && s[2] == HexDigit(b % 16);
    }
  }

  lemma {:induction false} UnquoteQuotedBytes(b: seq<Utf8.Byte>)
    ensures UnquoteBytes(QuoteBytes(b)) == Some(b)
  {
    hide QuoteByte, UnquoteBytes;
    if b == [] {
      EmptyUnquoted();
    } else {
      QuoteBytesStep(b);
      UnquoteQuotedBytes(b[1..]);
      UnquoteByte(b[0], QuoteBytes(b[1..]));
      assert [b[0]] + b[1..] == b;
    }
  }

  lemma EmptyUnquoted()
    ensures UnquoteBytes("") == Some([]) && QuoteBytes([]) == ""
  {}

  /** Percent-decoding reads back every text, so no two texts are encoded alike. */
  lemma UnquoteQuote(s: string)
    ensures Unquote(Quote(s)) == Some(s)
  {
    UnquoteQuotedBytes(Utf8.Encode(s));
    Utf8.DecodeIff(Utf8.Encode(s), s);
  }

  /** The characters that are left as they are: letters, digits and four marks. */
  lemma KeptIff(c: char)
    ensures Quote([c]) == [c]
            <==> 'A' <= c <= 'Z' || 'a' <= c <= 'z' || '0' <= c <= '9' || c in {'-', '.', '_', '~'}
  {
    QuoteHead([c]);
    QuoteNothing();
    assert [c][1..] == "";
    if IsUnreservedChar(c) { UnreservedKept(c); } else { FirstQuoted([c]); }
    if c == '%' {
      assert Utf8.EncodeChar(c) == [37];
      assert QuoteBytes([37]) == QuoteByte(37) + QuoteBytes([]);
    }
  }

  /** Unreserved characters at the ends stay there. */
  lemma QuoteEnds(s: string)
    requires s != ""
    ensures Quote(s) != ""
    ensures IsUnreservedChar(s[0]) ==> Quote(s)[0] == s[0]
    ensures IsUnreservedChar(s[|s| - 1]) ==> Quote(s)[|Quote(s)| - 1] == s[|s| - 1]
  {
    var last := s[|s| - 1];
    assert s == s[..|s| - 1] + [last];
    QuoteJoin(s[..|s| - 1], [last]);
    QuoteHead(s);
    QuoteHead([last]);
    QuoteNothing();
    assert NonEmptyQuote(s) != "";
    hide Quote, QuoteChar;
    if IsUnreservedChar(s[0]) { UnreservedKept(s[0]); }
    if IsUnreservedChar(last) { UnreservedKept(last); assert [last][1..] == ""; }
  }
}
