/**
  UTF-8 as `str.encode()` writes it and `bytes.decode()` reads it back strictly
  (section 3 of RFC 3629).
 */
module Utf8 {
  import opened Wrappers

  type Byte = b: int | 0 <= b < 256

  function EncodeChar(c: char): (r: seq<Byte>)
    ensures 1 <= |r| <= 4
  {
    var n := c as int;
    if n < 0x80 then [n]
    else if n < 0x800 then [0xC0 + n / 64, 0x80 + n % 64]
    else if n < 0x10000 then [0xE0 + n / 64 / 64, 0x80 + n / 64 % 64, 0x80 + n % 64]
    else [0xF0 + n / 64 / 64 / 64, 0x80 + n / 64 / 64 % 64, 0x80 + n / 64 % 64, 0x80 + n % 64]
  }

  function Encode(s: string): seq<Byte> {
    if s == "" then [] else EncodeChar(s[0]) + Encode(s[1..])
  }

  predicate IsContinuation(b: Byte) {
    0x80 <= b < 0xC0
  }

  predicate IsScalar(n: int) {
    0 <= n < 0xD800 || 0xE000 <= n < 0x110000
  }

  /** One more six-bit group below the bits read so far. */
  function Extend(high: int, b: Byte): int {
    high * 64 + (b - 0x80)
  }

  /** Length and code point announced by the lead byte, before the range checks. */
  function Assemble(b: seq<Byte>): (r: Option<(nat, int)>)
    requires b != []
    ensures r.Some? ==> 1 <= r.value.0 <= |b|
  {
    var lead: int := b[0];
    if lead < 0x80 then Some((1, lead))
    else if lead < 0xC0 then None
    else if lead < 0xE0 then
      if |b| >= 2 && IsContinuation(b[1]) then Some((2, Extend(lead - 0xC0, b[1]))) else None
    else if lead < 0xF0 then
      if |b| >= 3 && IsContinuation(b[1]) && IsContinuation(b[2])
      then Some((3, Extend(Extend(lead - 0xE0, b[1]), b[2]))) else None
    else if lead < 0xF8 then
      if |b| >= 4 && IsContinuation(b[1]) && IsContinuation(b[2]) && IsContinuation(b[3])
      then Some((4, Extend(Extend(Extend(lead - 0xF0, b[1]), b[2]), b[3]))) else None
    else None
  }

  /** The smallest code point that needs `n` bytes: anything less is an overlong form. */
  function Smallest(n: nat): int {
    if n <= 1 then 0 else if n == 2 then 0x80 else if n == 3 then 0x800 else 0x10000
  }

  function Decode(b: seq<Byte>): Option<string> {
    if b == [] then Some("") else
    match Assemble(b)
    case None => None
    case Some((n, point)) =>
      if point < Smallest(n) || !IsScalar(point) then None else
      match Decode(b[n..])
      case None => None
      case Some(rest) => Some([point as char] + rest)
  }

  // ---- one character ----

  lemma AssembleEncoded(c: char, rest: seq<Byte>)
    ensures var r := EncodeChar(c);
            Assemble(r + rest) == Some((|r|, c as int)) && c as int >= Smallest(|r|)
  {
    var n := c as int;
    var r := EncodeChar(c);
    var b := r + rest;
    assert forall i :: 0 <= i < |r| ==> b[i] == r[i];
    ExtendBack(n);
    ExtendBack(n / 64);
    ExtendBack(n / 64 / 64);
  }

  lemma ExtendBack(n: nat)
    ensures Extend(n / 64, 0x80 + n % 64) == n
  {}

  lemma ExtendSplits(high: nat, b: Byte)
    requires IsContinuation(b)
    ensures Extend(high, b) / 64 == high && 0x80 + Extend(high, b) % 64 == b
  {}

  lemma EncodeAssembled(b: seq<Byte>)
    requires b != [] && Assemble(b).Some?
    requires Smallest(Assemble(b).value.0) <= Assemble(b).value.1 && IsScalar(Assemble(b).value.1)
    ensures EncodeChar(Assemble(b).value.1 as char) == b[..Assemble(b).value.0]
  {
    var (n, point) := Assemble(b).value;
    if n == 4 {
      ExtendSplits(b[0] - 0xF0, b[1]);
      ExtendSplits(Extend(b[0] - 0xF0, b[1]), b[2]);
      ExtendSplits(Extend(Extend(b[0] - 0xF0, b[1]), b[2]), b[3]);
      assert b[..n] == [b[0], b[1], b[2], b[3]];
    } else if n == 3 {
      ExtendSplits(b[0] - 0xE0, b[1]);
      ExtendSplits(Extend(b[0] - 0xE0, b[1]), b[2]);
      assert b[..n] == [b[0], b[1], b[2]];
    } else if n == 2 {
      ExtendSplits(b[0] - 0xC0, b[1]);
      assert b[..n] == [b[0], b[1]];
    }
  }

  /** The first byte of an encoded text is never a continuation byte. */
  lemma FirstByteLeads(s: string)
    requires s != ""
    ensures Encode(s) != [] && !IsContinuation(Encode(s)[0])
  {}

  // ---- whole texts ----

  /** Decoding accepts exactly the encodings of texts, and gives the text back. */
  lemma DecodeIff(b: seq<Byte>, s: string)
    ensures Decode(b) == Some(s) <==> b == Encode(s)
  {
    if b == Encode(s) { DecodeEncoded(s); }
    if Decode(b) == Some(s) { EncodeDecoded(b, s); }
  }

  lemma {:induction false} DecodeEncoded(s: string)
    ensures Decode(Encode(s)) == Some(s)
  {
    if s != "" {
      var r, rest := EncodeChar(s[0]), Encode(s[1..]);
      AssembleEncoded(s[0], rest);
      assert (r + rest)[|r|..] == rest;
      DecodeEncoded(s[1..]);
      assert r + rest != [];
      assert [s[0]] + s[1..] == s;
    }
  }

  lemma {:induction false} EncodeDecoded(b: seq<Byte>, s: string)
    requires Decode(b) == Some(s)
    ensures Encode(s) == b
  {
    hide Assemble, EncodeChar, IsScalar, Smallest;
    if b != [] {
      var (n, point) := Assemble(b).value;
      EncodeAssembled(b);
      EncodeDecoded(b[n..], s[1..]);
      assert b == b[..n] + b[n..];
    }
  }
}
