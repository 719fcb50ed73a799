/** Which texts the strict and the lenient base64 decoders accept. */
module Base64Texts {
  import opened Wrappers
  import Utf8
  import opened Base64Url

  /** A character that stands for six bits, by the alphabet or as one of the two older marks. */
  predicate Accepted(c: char) {
    IsUrlChar(c) || c == '+' || c == '/'
  }

  // ---- strictly ----

  /** Accepted characters with the last `k` replaced by padding. */
  predicate PaddedBy(t: string, k: nat) {
    k <= |t|
    && (forall i :: 0 <= i < |t| - k ==> Accepted(t[i]))
    && (forall i :: |t| - k <= i < |t| ==> t[i] == '=')
  }

  /** The strict decoder accepts exactly whole groups of four with at most two padding characters, at the end. */
  lemma {:induction false} PaddedIff(t: string)
    ensures DecodePadded(t).Some? <==> |t| % 4 == 0 && (PaddedBy(t, 0) || PaddedBy(t, 1) || PaddedBy(t, 2))
  {
    hide DecodePadded, Accepted;
    if |t| > 4 {
      PaddedIff(t[4..]);
      FirstGroup(t);
      if |t| % 4 == 0 {
        PaddedRest(t, 0);
        PaddedRest(t, 1);
        PaddedRest(t, 2);
      }
      assert |t[4..]| % 4 == |t| % 4;
    } else if |t| == 4 {
      LastGroup(t);
    } else {
      ShortText(t);
    }
  }

  lemma ShortText(t: string)
    requires |t| < 4
    ensures DecodePadded(t).Some? <==> |t| % 4 == 0 && PaddedBy(t, 0)
    ensures |t| == 0 ==> PaddedBy(t, 0)
  {}

  lemma PaddedRest(t: string, k: nat)
    requires |t| > 4 && k <= |t| - 4
    ensures PaddedBy(t, k) <==>
              Accepted(t[0]) && Accepted(t[1]) && Accepted(t[2]) && Accepted(t[3]) && PaddedBy(t[4..], k)
  {
    hide Accepted;
    assert forall i :: 4 <= i < |t| ==> t[i] == t[4..][i - 4];
  }

  lemma FirstGroup(t: string)
    requires |t| > 4
    ensures DecodePadded(t).Some?
            <==> Accepted(t[0]) && Accepted(t[1]) && Accepted(t[2]) && Accepted(t[3]) && DecodePadded(t[4..]).Some?
  {}

  lemma LastGroup(t: string)
    requires |t| == 4
    ensures DecodePadded(t).Some? <==> PaddedBy(t, 0) || PaddedBy(t, 1) || PaddedBy(t, 2)
  {
    assert t[4..] == "";
  }

  /** So unpadded text decodes exactly when all its characters are accepted and none is left over alone. */
  lemma UnpaddedIff(s: string)
    requires '=' !in s
    ensures Base64Url.Decode(s).Some? <==> |s| % 4 != 1 && forall i :: 0 <= i < |s| ==> Accepted(s[i])
  {
    var n := -|s| % 4;
    var t := s + Padding(n);
    PaddedIff(t);
    hide DecodePadded, Accepted;
    assert forall i :: 0 <= i < |s| ==> t[i] == s[i];
    assert forall i :: |s| <= i < |t| ==> t[i] == '=';
    assert |t| % 4 == 0;
    if n < 3 && forall i :: 0 <= i < |s| ==> Accepted(s[i]) { assert PaddedBy(t, n); }
    if k :| 0 <= k <= 2 && PaddedBy(t, k) {
      NoPaddingBefore(t, k);
      assert n > 0 ==> t[|s|] == '=';
      assert |t| - k <= |s| || n == 0;
      assert k == 0 || (t[|t| - k] == '=' && |t| - k >= |s|);
    }
  }

  lemma NoPaddingBefore(t: string, k: nat)
    requires PaddedBy(t, k)
    ensures forall i :: 0 <= i < |t| - k ==> t[i] != '='
  {}

  // ---- leniently ----

  /** How many characters a text has that stand for bits. */
  function Bits(s: string): nat {
    if s == "" then 0 else (if Accepted(s[0]) then 1 else 0) + Bits(s[1..])
  }

  predicate Completes(bits: nat, pads: nat) {
    bits % 4 == 0 || (bits % 4 == 2 && pads >= 2) || (bits % 4 == 3 && pads >= 1)
  }

  lemma {:induction false} PadsIff(n: nat, group: seq<Sextet>, pads: nat)
    requires |group| < 4 && |group| + pads < 4
    ensures Scan(Padding(n), group, pads).Some? <==> |group| == 0 || (|group| >= 2 && |group| + pads + n >= 4)
  {
    if n > 0 {
      assert Padding(n)[1..] == Padding(n - 1) && Padding(n)[0] == '=';
      if |group| < 2 {
        PadsIff(n - 1, group, pads);
      } else if |group| + pads + 1 < 4 {
        PadsIff(n - 1, group, pads + 1);
      }
    }
  }

  lemma {:induction false} ScanIff(s: string, n: nat, group: seq<Sextet>)
    requires '=' !in s && |group| < 4
    ensures Scan(s + Padding(n), group, 0).Some? <==> Completes(|group| + Bits(s), n)
  {
    var t := s + Padding(n);
    if s == "" {
      assert t == Padding(n);
      PadsIff(n, group, 0);
    } else {
      assert t[0] == s[0] && t[1..] == s[1..] + Padding(n);
      AcceptedChars(s[0]);
      if Accepted(s[0]) {
        ScanIff(s[1..], n, if |group| == 3 then [] else group + [FromChar(s[0]).value]);
      } else {
        ScanIff(s[1..], n, group);
      }
    }
  }

  lemma AcceptedChars(c: char)
    ensures Accepted(c) <==> FromChar(c).Some?
  {}

  lemma AsciiIff(s: string)
    ensures IsAscii(s) <==> forall i :: 0 <= i < |s| ==> s[i] as int < 128
  {
    if forall i :: 0 <= i < |s| ==> s[i] as int < 128 {
      forall c | c in s ensures c < 128 as char {
        var i :| 0 <= i < |s| && s[i] == c;
      }
    }
    if IsAscii(s) {
      forall i | 0 <= i < |s| ensures s[i] as int < 128 {
        assert s[i] in s;
      }
    }
  }

  /**
    The lenient decoder accepts an ASCII text exactly when the characters that stand for
    bits make whole groups, the padding of the whole text helping out.
   */
  lemma LenientIff(s: string)
    requires '=' !in s
    ensures DecodeLenient(s).Some?
            <==> (forall i :: 0 <= i < |s| ==> s[i] as int < 128) && Completes(Bits(s), -|s| % 4)
  {
    hide Scan, Bits, Completes, IsAscii;
    ScanIff(s, -|s| % 4, []);
    AsciiIff(s);
  }
}
