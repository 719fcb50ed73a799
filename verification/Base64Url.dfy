/**
  URL-safe base64 (sections 4 and 5 of RFC 4648) with the padding stripped on the way
  out and put back on the way in.
 */
module Base64Url {
  import opened Wrappers
  import opened Utf8

  type Sextet = n: int | 0 <= n < 64

  function ToChar(n: Sextet): char {
    if n < 26 then ('A' as int + n) as char
    else if n < 52 then ('a' as int + n - 26) as char
    else if n < 62 then ('0' as int + n - 52) as char
    else if n == 62 then '-' else '_'
  }

  /** The decoder maps `-` and `_` onto `+` and `/` and still takes those two as well. */
  function FromChar(c: char): Option<Sextet> {
    if 'A' <= c <= 'Z' then Some(c as int - 'A' as int)
    else if 'a' <= c <= 'z' then Some(c as int - 'a' as int + 26)
    else if '0' <= c <= '9' then Some(c as int - '0' as int + 52)
    else if c == '-' || c == '+' then Some(62)
    else if c == '_' || c == '/' then Some(63)
    else None
  }

  // The four sextets of three bytes; a short last group takes the missing bytes as zero.
  function First(b0: Byte): Sextet { b0 / 4 }
  function Second(b0: Byte, b1: Byte): Sextet { b0 % 4 * 16 + b1 / 16 }
  function Third(b1: Byte, b2: Byte): Sextet { b1 % 16 * 4 + b2 / 64 }
  function Fourth(b2: Byte): Sextet { b2 % 64 }

  /** `urlsafe_b64encode`. */
  function EncodePadded(b: seq<Byte>): string {
    if b == [] then ""
    else if |b| == 1 then [ToChar(First(b[0])), ToChar(Second(b[0], 0)), '=', '=']
    else if |b| == 2 then [ToChar(First(b[0])), ToChar(Second(b[0], b[1])), ToChar(Third(b[1], 0)), '=']
    else FullGroup(b[0], b[1], b[2]) + EncodePadded(b[3..])
  }

  function FullGroup(b0: Byte, b1: Byte, b2: Byte): (s: string)
    ensures |s| == 4
  {
    [ToChar(First(b0)), ToChar(Second(b0, b1)), ToChar(Third(b1, b2)), ToChar(Fourth(b2))]
  }

  /** `rstrip('=')`. */
  function StripPadding(s: string): string {
    if s != "" && s[|s| - 1] == '=' then StripPadding(s[..|s| - 1]) else s
  }

  function Encode(b: seq<Byte>): string {
    StripPadding(EncodePadded(b))
  }

  function Padding(n: nat): string {
    seq(n, _ => '=')
  }

  function RestorePadding(s: string): string {
    s + Padding(-|s| % 4)
  }

  /** Strict decoding of padded text: padding only in the last group, bits below it ignored. */
  function DecodePadded(s: string): Option<seq<Byte>> {
    if s == "" then Some([])
    else if |s| < 4 then None
    else
      match (FromChar(s[0]), FromChar(s[1]))
      case (Some(x), Some(y)) =>
        var first: Byte := x * 4 + y / 16;
        if |s| == 4 && s[2] == '=' && s[3] == '=' then Some([first]) else
        (match FromChar(s[2])
         case None => None
         case Some(z) =>
           var second: Byte := y % 16 * 16 + z / 4;
           if |s| == 4 && s[3] == '=' then Some([first, second]) else
           match (FromChar(s[3]), DecodePadded(s[4..]))
           case (Some(w), Some(rest)) => Some([first, second, z % 4 * 64 + w] + rest)
           case _ => None)
      case _ => None
  }

  function Decode(s: string): Option<seq<Byte>> {
    DecodePadded(RestorePadding(s))
  }

  /**
    The lenient decoding of `urlsafe_b64decode`: characters outside the alphabet are
    skipped, padding ends the text once it completes a group and is skipped otherwise, and
    an incomplete group at the end is an error. `group` holds the sextets of the group
    under way and `pads` the padding seen since the last of them.
   */
  function Scan(s: string, group: seq<Sextet>, pads: nat): Option<seq<Byte>>
    requires |group| < 4
  {
    if s == "" then if group == [] then Some([]) else None
    else if s[0] == '=' then
      if |group| < 2 then Scan(s[1..], group, pads)
      else if |group| + pads + 1 >= 4 then Some([])
      else Scan(s[1..], group, pads + 1)
    else
      match FromChar(s[0])
      case None => Scan(s[1..], group, pads)
      case Some(x) =>
        match Scan(s[1..], if |group| == 3 then [] else group + [x], 0)
        case None => None
        case Some(rest) => Some(Completed(group, x) + rest)
  }

  /** The byte that a sextet completes, if any. */
  function Completed(group: seq<Sextet>, x: Sextet): seq<Byte>
    requires |group| < 4
  {
    if |group| == 0 then [] else
    var last := group[|group| - 1];
    if |group| == 1 then [last * 4 + x / 16]
    else if |group| == 2 then [last % 16 * 16 + x / 4]
    else [last % 4 * 64 + x]
  }

  predicate IsAscii(s: string) {
    forall c :: c in s ==> c < 128 as char
  }

  /** Decoding of a path segment: its padding is restored first; only ASCII is accepted. */
  function DecodeLenient(s: string): Option<seq<Byte>> {
    if IsAscii(s) then Scan(RestorePadding(s), [], 0) else None
  }

  predicate IsUrlChar(c: char) {
    'A' <= c <= 'Z' || 'a' <= c <= 'z' || '0' <= c <= '9' || c == '-' || c == '_'
  }

  // ---- proofs ----

  lemma CharBack(n: Sextet)
    ensures FromChar(ToChar(n)) == Some(n) && IsUrlChar(ToChar(n))
  {}

  lemma SextetsBack(b0: Byte, b1: Byte, b2: Byte)
    ensures First(b0) * 4 + Second(b0, b1) / 16 == b0
    ensures Second(b0, b1) % 16 * 16 + Third(b1, b2) / 4 == b1
    ensures Third(b1, b2) % 4 * 64 + Fourth(b2) == b2
  {}

  lemma GroupChars(b0: Byte, b1: Byte, b2: Byte)
    ensures forall c :: c in FullGroup(b0, b1, b2) ==> IsUrlChar(c)
  {
    CharBack(First(b0));
    CharBack(Second(b0, b1));
    CharBack(Third(b1, b2));
    CharBack(Fourth(b2));
  }

  lemma {:induction false} StripStops(u: string, n: nat)
    requires u == "" || u[|u| - 1] != '='
    ensures StripPadding(u + Padding(n)) == u
  {
    if n == 0 {
      assert u + Padding(0) == u;
    } else {
      var s := u + Padding(n);
      assert s[..|s| - 1] == u + Padding(n - 1);
      StripStops(u, n - 1);
    }
  }

  /** What the encoder writes is URL characters followed by at most two padding characters. */
  lemma {:induction false} PaddedShape(b: seq<Byte>) returns (u: string, n: nat)
    ensures EncodePadded(b) == u + Padding(n) && n <= 2
    ensures (|u| + n) % 4 == 0
    ensures forall c :: c in u ==> IsUrlChar(c)
  {
    hide FullGroup, IsUrlChar, ToChar, EncodePadded;
    if b == [] {
      u, n := "", 0;
      EmptyPadded();
    } else if |b| <= 2 {
      u, n := LastGroupShape(b);
    } else {
      var rest;
      rest, n := PaddedShape(b[3..]);
      var group := FullGroup(b[0], b[1], b[2]);
      GroupChars(b[0], b[1], b[2]);
      GroupFirst(b);
      u := group + rest;
      assert group + (rest + Padding(n)) == u + Padding(n);
      assert |u| + n == 4 + (|rest| + n);
    }
  }

  lemma EmptyPadded()
    ensures EncodePadded([]) == "" + Padding(0)
  {}

  lemma GroupFirst(b: seq<Byte>)
    requires |b| >= 3
    ensures EncodePadded(b) == FullGroup(b[0], b[1], b[2]) + EncodePadded(b[3..])
  {}

  lemma LastGroupShape(b: seq<Byte>) returns (u: string, n: nat)
    requires 1 <= |b| <= 2
    ensures EncodePadded(b) == u + Padding(n) && n <= 2
    ensures (|u| + n) % 4 == 0
    ensures forall c :: c in u ==> IsUrlChar(c)
  {
    n := 3 - |b|;
    var b1 := if |b| == 2 then b[1] else 0;
    GroupChars(b[0], b1, 0);
    u := FullGroup(b[0], b1, 0)[..4 - n];
  }

  lemma {:induction false} PaddedRoundTrip(b: seq<Byte>)
    ensures DecodePadded(EncodePadded(b)) == Some(b)
  {
    hide DecodePadded, FullGroup, ToChar;
    if b == [] {
      EmptyBack();
    } else if |b| >= 3 {
      FullGroupBack(b[0], b[1], b[2], EncodePadded(b[3..]));
      PaddedRoundTrip(b[3..]);
      assert b == [b[0], b[1], b[2]] + b[3..];
    } else if |b| == 2 {
      TwoBytesBack(b[0], b[1]);
      assert b == [b[0], b[1]];
    } else if |b| == 1 {
      OneByteBack(b[0]);
      assert b == [b[0]];
    }
  }

  lemma EmptyBack()
    ensures DecodePadded("") == Some([])
  {}

  lemma FullGroupBack(b0: Byte, b1: Byte, b2: Byte, rest: string)
    ensures DecodePadded(FullGroup(b0, b1, b2) + rest) ==
            match DecodePadded(rest) case Some(r) => Some([b0, b1, b2] + r) case None => None
  {
    var s := FullGroup(b0, b1, b2) + rest;
    assert s[4..] == rest;
    CharBack(First(b0));
    CharBack(Second(b0, b1));
    CharBack(Third(b1, b2));
    CharBack(Fourth(b2));
    SextetsBack(b0, b1, b2);
  }

  lemma TwoBytesBack(b0: Byte, b1: Byte)
    ensures DecodePadded([ToChar(First(b0)), ToChar(Second(b0, b1)), ToChar(Third(b1, 0)), '=']) == Some([b0, b1])
  {
    CharBack(First(b0));
    CharBack(Second(b0, b1));
    CharBack(Third(b1, 0));
    SextetsBack(b0, b1, 0);
  }

  lemma OneByteBack(b0: Byte)
    ensures DecodePadded([ToChar(First(b0)), ToChar(Second(b0, 0)), '=', '=']) == Some([b0])
  {
    CharBack(First(b0));
    CharBack(Second(b0, 0));
    SextetsBack(b0, 0, 0);
  }

  /**
    For every byte string: the stripped text has URL characters only, is never one
    character over a multiple of four, gets exactly its own padding back, and decodes to
    the bytes.
   */
  lemma RoundTrip(b: seq<Byte>)
    ensures forall c :: c in Encode(b) ==> IsUrlChar(c)
    ensures |Encode(b)| % 4 != 1
    ensures RestorePadding(Encode(b)) == EncodePadded(b)
    ensures Decode(Encode(b)) == Some(b)
  {
    hide Encode, EncodePadded, DecodePadded, Padding, IsUrlChar;
    var n := EncodedShape(b);
    PaddingLength(|Encode(b)|, n);
    PaddedRoundTrip(b);
  }

  lemma PaddingLength(length: int, n: nat)
    requires length >= 0 && n <= 2 && (length + n) % 4 == 0
    ensures -length % 4 == n && length % 4 != 1
  {
    var groups := (length + n) / 4;
    assert length + n == 4 * groups;
    assert -length == 4 * (0 - groups) + n;
  }

  lemma EncodedShape(b: seq<Byte>) returns (n: nat)
    ensures EncodePadded(b) == Encode(b) + Padding(n) && n <= 2
    ensures (|Encode(b)| + n) % 4 == 0
    ensures forall c :: c in Encode(b) ==> IsUrlChar(c)
  {
    var u;
    u, n := PaddedShape(b);
    if u != "" { assert u[|u| - 1] in u; }
    StripStops(u, n);
  }

  // ---- lenient decoding ----

  lemma ScanOne(x: Sextet, rest: string, group: seq<Sextet>)
    requires |group| < 4
    ensures Scan([ToChar(x)] + rest, group, 0)
            == Prepend(Completed(group, x), Scan(rest, if |group| == 3 then [] else group + [x], 0))
  {
    CharBack(x);
    assert ([ToChar(x)] + rest)[1..] == rest;
  }

  function Prepend(b: seq<Byte>, r: Option<seq<Byte>>): Option<seq<Byte>> {
    match r case Some(rest) => Some(b + rest) case None => None
  }

  lemma PrependTwice(a: seq<Byte>, b: seq<Byte>, r: Option<seq<Byte>>)
    ensures Prepend(a, Prepend(b, r)) == Prepend(a + b, r)
  {
    if r.Some? { assert a + (b + r.value) == a + b + r.value; }
  }

  lemma ScanFour(x: Sextet, y: Sextet, z: Sextet, w: Sextet, rest: string)
    ensures Scan([ToChar(x)] + ([ToChar(y)] + ([ToChar(z)] + ([ToChar(w)] + rest))), [], 0)
            == Prepend([x * 4 + y / 16, y % 16 * 16 + z / 4, z % 4 * 64 + w], Scan(rest, [], 0))
  {
    hide Scan, ToChar, Prepend;
    var b0: seq<Byte>, b1: seq<Byte>, b2: seq<Byte> := [x * 4 + y / 16], [y % 16 * 16 + z / 4], [z % 4 * 64 + w];
    PrependTwice(b1, b2, Scan(rest, [], 0));
    PrependTwice(b0, b1 + b2, Scan(rest, [], 0));
    PrependTwice([], b0 + (b1 + b2), Scan(rest, [], 0));
    assert [] + (b0 + (b1 + b2)) == [b0[0], b1[0], b2[0]];
    ScanOne(w, rest, [x, y, z]);
    ScanOne(z, [ToChar(w)] + rest, [x, y]);
    ScanOne(y, [ToChar(z)] + ([ToChar(w)] + rest), [x]);
    ScanOne(x, [ToChar(y)] + ([ToChar(z)] + ([ToChar(w)] + rest)), []);
    assert [] + [x] == [x] && [x] + [y] == [x, y] && [x, y] + [z] == [x, y, z];
  }

  lemma ScanGroup(b0: Byte, b1: Byte, b2: Byte, rest: string)
    ensures Scan(FullGroup(b0, b1, b2) + rest, [], 0)
            == Prepend([b0, b1, b2], Scan(rest, [], 0))
  {
    hide Scan, ToChar;
    var x, y, z, w := First(b0), Second(b0, b1), Third(b1, b2), Fourth(b2);
    SextetsBack(b0, b1, b2);
    ScanFour(x, y, z, w, rest);
    assert FullGroup(b0, b1, b2) + rest == [ToChar(x)] + ([ToChar(y)] + ([ToChar(z)] + ([ToChar(w)] + rest)));
  }

  /** Padding that completes a group of two or three sextets. */
  lemma ScanPads(group: seq<Sextet>)
    requires 2 <= |group| < 4
    ensures Scan(Padding(4 - |group|), group, 0) == Some([])
  {
    assert Padding(1)[1..] == "";
    assert Padding(2)[1..] == Padding(1);
    assert Scan(Padding(1), group, 1) == Some([]);
  }

  lemma ScanOneByte(b0: Byte)
    ensures Scan([ToChar(First(b0)), ToChar(Second(b0, 0)), '=', '='], [], 0) == Some([b0])
  {
    var x, y := First(b0), Second(b0, 0);
    SextetsBack(b0, 0, 0);
    ScanPads([x, y]);
    hide Scan, ToChar, First, Second;
    ScanOne(y, Padding(2), [x]);
    ScanOne(x, [ToChar(y)] + Padding(2), []);
    assert [] + [x] == [x] && [x] + [y] == [x, y];
    assert Completed([x], y) == [b0];
    assert [] + ([b0] + []) == [b0];
    assert [ToChar(x)] + ([ToChar(y)] + Padding(2)) == [ToChar(x), ToChar(y), '=', '='];
  }

  lemma ScanTwoBytes(b0: Byte, b1: Byte)
    ensures Scan([ToChar(First(b0)), ToChar(Second(b0, b1)), ToChar(Third(b1, 0)), '='], [], 0) == Some([b0, b1])
  {
    var x, y, z := First(b0), Second(b0, b1), Third(b1, 0);
    SextetsBack(b0, b1, 0);
    ScanPads([x, y, z]);
    hide Scan, ToChar, First, Second, Third;
    ScanOne(z, Padding(1), [x, y]);
    ScanOne(y, [ToChar(z)] + Padding(1), [x]);
    ScanOne(x, [ToChar(y)] + ([ToChar(z)] + Padding(1)), []);
    assert [] + [x] == [x] && [x] + [y] == [x, y] && [x, y] + [z] == [x, y, z];
    assert [ToChar(x)] + ([ToChar(y)] + ([ToChar(z)] + Padding(1))) == [ToChar(x), ToChar(y), ToChar(z), '='];
    assert Completed([x], y) == [b0] && Completed([x, y], z) == [b1];
    assert [] + ([b0] + ([b1] + [])) == [b0, b1];
  }

  lemma {:induction false} ScanPadded(b: seq<Byte>)
    ensures Scan(EncodePadded(b), [], 0) == Some(b)
  {
    hide Scan, FullGroup, ToChar;
    if b == [] {
      ScanNothing();
    } else if |b| >= 3 {
      ScanGroup(b[0], b[1], b[2], EncodePadded(b[3..]));
      ScanPadded(b[3..]);
      assert b == [b[0], b[1], b[2]] + b[3..];
    } else {
      if |b| == 2 { ScanTwoBytes(b[0], b[1]); } else { ScanOneByte(b[0]); }
      assert b == if |b| == 2 then [b[0], b[1]] else [b[0]];
    }
  }

  lemma ScanNothing()
    ensures Scan("", [], 0) == Some([])
  {}

  /** What the encoder writes, the lenient decoder reads back as well. */
  lemma LenientRoundTrip(b: seq<Byte>)
    ensures DecodeLenient(Encode(b)) == Some(b)
  {
    RoundTrip(b);
    ScanPadded(b);
  }

  /** It reads the same text around characters that it skips, four by four. */
  lemma FourSkipped(s: string, c: char)
    requires FromChar(c) == None && c != '=' && c < 128 as char
    ensures DecodeLenient(s + [c, c, c, c]) == DecodeLenient(s)
  {
    var skipped := [c, c, c, c];
    assert IsAscii(s + skipped) <==> IsAscii(s) by {
      assert forall x :: x in s + skipped <==> x in s || x == c;
    }
    var pads := Padding(-|s| % 4);
    assert RestorePadding(s + skipped) == s + (skipped + pads);
    ScanSkips(s, skipped, pads, [], 0);
  }

  lemma {:induction false} ScanSkips(s: string, skipped: string, rest: string, group: seq<Sextet>, pads: nat)
    requires |group| < 4
    requires forall c :: c in skipped ==> FromChar(c) == None && c != '='
    ensures Scan(s + (skipped + rest), group, pads) == Scan(s + rest, group, pads)
    decreases |s| + |skipped|
  {
    if s != "" {
      assert (s + (skipped + rest))[1..] == s[1..] + (skipped + rest);
      assert (s + rest)[1..] == s[1..] + rest;
      if s[0] == '=' {
        ScanSkips(s[1..], skipped, rest, group, if |group| < 2 then pads else pads + 1);
      } else if FromChar(s[0]).Some? {
        ScanSkips(s[1..], skipped, rest, if |group| == 3 then [] else group + [FromChar(s[0]).value], 0);
      } else {
        ScanSkips(s[1..], skipped, rest, group, pads);
      }
    } else if skipped != "" {
      var t := "" + (skipped + rest);
      assert t[0] == skipped[0] && t[1..] == "" + (skipped[1..] + rest);
      ScanSkips("", skipped[1..], rest, group, pads);
    } else {
      assert s + (skipped + rest) == s + rest;
    }
  }

  /** The first character carries the top six bits of the first byte. */
  lemma FirstCharacter(b: seq<Byte>)
    requires b != []
    ensures Encode(b) != "" && FromChar(Encode(b)[0]) == Some(b[0] / 4)
  {
    RoundTrip(b);
    var s := Encode(b);
    assert DecodePadded(RestorePadding("")) == Some([]);
    assert RestorePadding(s)[0] == s[0];
    CharBack(First(b[0]));
  }
}
