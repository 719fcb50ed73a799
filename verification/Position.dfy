/** Playback positions reported to Plex, and the headers they start from. */
module Position {
  import opened Wrappers
  import opened PyText

  /** `int(x)`: towards zero. */
  function Truncate(x: real): int {
    if x >= 0.0 then x.Floor else -((-x).Floor)
  }

  function Elapsed(startedAt: real, now: real): real {
    if now - startedAt > 0.0 then (now - startedAt) * 1000.0 else 0.0
  }

  /** `int(a / n * d)`. */
  function Share(a: int, n: int, d: int): int
    requires n != 0
  {
    Truncate(a as real / n as real * d as real)
  }

  function Initial(total: Option<int>, start: int, durationMs: int): int {
    if total.Some? && total.value != 0 then Share(start, total.value, durationMs) else 0
  }

  function PositionMs(total: Option<int>, start: int, durationMs: int, startedAt: real, now: real): int {
    if durationMs == 0 then 0 else
    var position := Truncate(Initial(total, start, durationMs) as real + Elapsed(startedAt, now));
    if position <= durationMs then position else durationMs
  }

  /** The time put into a timeline request. */
  function SentMs(positionMs: int): int {
    if positionMs > 0 then positionMs else 0
  }

  /** What a playback's headers must satisfy for positions to mean anything. */
  predicate WellFormed(total: Option<int>, start: int, durationMs: int) {
    0 <= start && 0 <= durationMs && (total.Some? ==> start <= total.value)
  }

  lemma InitialBounds(total: Option<int>, start: int, durationMs: int)
    requires WellFormed(total, start, durationMs)
    ensures 0 <= Initial(total, start, durationMs) <= durationMs
    ensures total.Some? && total.value > 0 ==> Initial(total, start, durationMs) == start * durationMs / total.value
    ensures total.None? || total.value == 0 ==> Initial(total, start, durationMs) == 0
  {
    hide Share;
    if total.Some? && total.value > 0 {
      ShareBounds(start, total.value, durationMs);
    }
  }

  lemma ShareBounds(a: int, n: int, d: int)
    requires 0 <= a <= n && 0 < n && 0 <= d
    ensures Share(a, n, d) == a * d / n && 0 <= Share(a, n, d) <= d
  {
    hide Share;
    ShareIsQuotient(a, n, d);
    Products(a, n, d);
    Quotient(a * d, n);
    QuotientAtMost(a * d, n, d);
  }

  lemma Products(a: int, b: int, c: int)
    requires 0 <= a <= b && 0 <= c
    ensures 0 <= a * c <= b * c
  {}

  lemma Quotient(m: int, n: int)
    requires 0 <= m && 0 < n
    ensures 0 <= m / n && m / n * n <= m < (m / n + 1) * n
  {}

  lemma QuotientAtMost(m: int, n: int, d: int)
    requires 0 <= m <= n * d && 0 < n
    ensures m / n <= d
  {
    if m / n > d { Products(d + 1, m / n, n); Quotient(m, n); }
  }

  lemma ShareIsQuotient(a: int, n: int, d: int)
    requires 0 <= a && 0 < n && 0 <= d
    ensures Share(a, n, d) == a * d / n
  {
    var x := a as real / n as real * d as real;
    var q := a * d / n;
    Quotient(a * d, n);
    DivideFirst(a as real, n as real, d as real);
    ProductCast(a, d);
    Between(a * d, q, n, x);
  }

  lemma Between(p: int, q: int, n: int, x: real)
    requires 0 < n && q * n <= p < (q + 1) * n && 0 <= q
    requires x * n as real == p as real
    ensures Truncate(x) == q
  {
    CastBounds(p, q, n);
    RealBetween(p as real, q as real, n as real, x);
    FloorIs(x, q);
  }

  lemma CastBounds(p: int, q: int, n: int)
    requires q * n <= p < (q + 1) * n
    ensures q as real * n as real <= p as real < (q as real + 1.0) * n as real
  {
    var below, above := q * n, (q + 1) * n;
    ProductCast(q, n);
    ProductCast(q + 1, n);
    assert below as real <= p as real < above as real;
    assert (q + 1) as real == q as real + 1.0;
  }

  lemma RealBetween(p: real, q: real, n: real, x: real)
    requires 0.0 < n && q * n <= p < (q + 1.0) * n && x * n == p
    ensures q <= x < q + 1.0
  {
    Cancel(q, x, n);
    Cancel(x, q + 1.0, n);
  }

  lemma FloorIs(x: real, q: int)
    requires 0 <= q && q as real <= x < (q + 1) as real
    ensures Truncate(x) == q
  {}

  lemma ProductCast(a: int, b: int)
    ensures (a * b) as real == a as real * b as real
  {}

  lemma DivideFirst(a: real, n: real, d: real)
    requires n > 0.0
    ensures a / n * d * n == a * d
  {
    var y := a / n;
    assert y * n == a;
    assert y * d * n == y * n * d;
  }

  lemma Cancel(x: real, y: real, n: real)
    requires n > 0.0
    ensures x * n <= y * n ==> x <= y
    ensures x * n < y * n ==> x < y
  {
    if x > y { assert (x - y) * n > 0.0; }
    if x == y { assert x * n == y * n; }
  }

  // ---- positions over time ----

  lemma TruncateBounds(x: real)
    requires x >= 0.0
    ensures 0 <= Truncate(x) && Truncate(x) as real <= x < Truncate(x) as real + 1.0
  {}

  /** Rounding is towards zero on either side of it. */
  lemma TruncatesBothWays(x: real)
    ensures Truncate(0.0 - x) == 0 - Truncate(x)
    ensures x >= 0.0 ==> Truncate(x) == x.Floor
  {}

  /** The position is the offset's share and the whole milliseconds gone by, up to the end. */
  lemma PositionIs(total: Option<int>, start: int, durationMs: int, startedAt: real, now: real)
    requires WellFormed(total, start, durationMs)
    ensures var gone := if now > startedAt then ((now - startedAt) * 1000.0).Floor else 0;
            var reached := Initial(total, start, durationMs) + gone;
            PositionMs(total, start, durationMs, startedAt, now)
            == if reached <= durationMs then reached else durationMs
  {
    InitialBounds(total, start, durationMs);
    var initial := Initial(total, start, durationMs);
    if now > startedAt {
      var ms := (now - startedAt) * 1000.0;
      assert (initial as real + ms).Floor == initial + ms.Floor;
    }
  }

  /** A playback starts at its byte offset's share of the duration. */
  lemma StartsAtOffset(total: Option<int>, start: int, durationMs: int, startedAt: real)
    requires WellFormed(total, start, durationMs)
    ensures PositionMs(total, start, durationMs, startedAt, startedAt) == Initial(total, start, durationMs)
  {
    InitialBounds(total, start, durationMs);
  }

  /** It stays within the duration, and within the offset plus the wall time gone by. */
  lemma PositionBounds(total: Option<int>, start: int, durationMs: int, startedAt: real, now: real)
    requires WellFormed(total, start, durationMs)
    ensures var p := PositionMs(total, start, durationMs, startedAt, now);
            && 0 <= p <= durationMs && SentMs(p) == p
            && p as real <= Initial(total, start, durationMs) as real + Elapsed(startedAt, now)
  {
    InitialBounds(total, start, durationMs);
    TruncateBounds(Initial(total, start, durationMs) as real + Elapsed(startedAt, now));
  }

  /** It never goes back, and `gap` seconds apart it moves by `gap` seconds or reaches the end. */
  lemma PositionAdvances(
    total: Option<int>, start: int, durationMs: int, startedAt: real, now: real, later: real, gap: nat)
    requires WellFormed(total, start, durationMs)
    requires startedAt <= now && now + gap as real <= later
    ensures var p, q := PositionMs(total, start, durationMs, startedAt, now),
                        PositionMs(total, start, durationMs, startedAt, later);
            p <= q && (q >= p + gap * 1000 || q == durationMs)
  {
    InitialBounds(total, start, durationMs);
    var i := Initial(total, start, durationMs) as real;
    TruncateBounds(i + Elapsed(startedAt, now));
    TruncateBounds(i + Elapsed(startedAt, later));
    assert Elapsed(startedAt, later) >= Elapsed(startedAt, now) + gap as real * 1000.0;
  }

  // ---- headers ----

  /** The ASCII characters that `int` strips. */
  predicate IsSpace(c: char) {
    c == ' ' || '\t' <= c <= '\r' || '\U{1c}' <= c <= '\U{1f}'
  }

  function StripLeft(s: string): string {
    if s != "" && IsSpace(s[0]) then StripLeft(s[1..]) else s
  }

  function StripRight(s: string): string {
    if s != "" && IsSpace(s[|s| - 1]) then StripRight(s[..|s| - 1]) else s
  }

  /** Digits, with single underscores allowed between them. */
  function ParseDigits(s: string): Option<nat> {
    if s == "" || !IsDigit(s[|s| - 1]) then None
    else if |s| == 1 then Some(DigitValue(s[0]))
    else
      var rest := if s[|s| - 2] == '_' then s[..|s| - 2] else s[..|s| - 1];
      match ParseDigits(rest)
      case None => None
      case Some(n) => Some(n * 10 + DigitValue(s[|s| - 1]))
  }

  /** `int(s)` on ASCII text; None stands for ValueError. */
  function ParseInt(s: string): Option<int> {
    var t := StripRight(StripLeft(s));
    if t == "" then None else
    var signed := t[0] == '-' || t[0] == '+';
    match ParseDigits(if signed then t[1..] else t)
    case None => None
    case Some(n) => Some(if t[0] == '-' then 0 - n else n)
  }

  /** Total size and start offset in a Content-Range value; None wherever reading it raises. */
  function ParseRange(header: string): Option<(int, int)> {
    match SplitOnce(header, ' ')
    case (_, None) => None
    case (_, Some(spec)) =>
      var parts := Split(spec, '/');
      if |parts| != 2 then None else
      match (ParseInt(parts[1]), ParseInt(Split(parts[0], '-')[0]))
      case (Some(total), Some(start)) => Some((total, start))
      case _ => None
  }

  function LengthOnly(contentLength: Option<string>): (Option<int>, int) {
    match ParseInt(if contentLength.Some? then contentLength.value else "0")
    case None => (None, 0)
    case Some(n) => (if n == 0 then None else Some(n), 0)
  }

  function TotalAndStart(contentRange: Option<string>, contentLength: Option<string>): (Option<int>, int) {
    if contentRange.Some? && '/' in contentRange.value then
      match ParseRange(contentRange.value)
      case Some((total, start)) => (Some(total), start)
      case None => LengthOnly(contentLength)
    else LengthOnly(contentLength)
  }

  lemma {:induction false} ParseDigitsDecimal(s: string)
    requires AllDigits(s)
    ensures ParseDigits(s) == Some(DigitsValue(s))
  {
    assert IsDigit(s[|s| - 1]);
    if |s| > 1 {
      assert IsDigit(s[|s| - 2]);
      ParseDigitsDecimal(s[..|s| - 1]);
    } else {
      assert s[..0] == "";
    }
  }

  lemma ParseIntDecimal(n: nat)
    ensures ParseInt(Decimal(n)) == Some(n)
  {
    var s := Decimal(n);
    assert IsDigit(s[0]) && IsDigit(s[|s| - 1]);
    ParseDigitsDecimal(s);
    DecimalValue(n);
  }

  /**
    The offset of a `bytes a-b/t` header (section 14.4 of RFC 9110) is recovered exactly
    when its total `t` reads as a number; otherwise only the length header counts.
   */
  lemma RangeHeader(a: nat, b: nat, t: string, contentLength: Option<string>)
    requires '/' !in t
    ensures var header := "bytes " + Decimal(a) + "-" + Decimal(b) + "/" + t;
            TotalAndStart(Some(header), contentLength)
            == match ParseInt(t) case Some(total) => (Some(total), a as int) case None => LengthOnly(contentLength)
  {
    hide Decimal, Split, SplitOnce, ParseInt, LengthOnly;
    var first, last := Decimal(a), Decimal(b);
    var range := first + "-" + last;
    var spec := range + ['/'] + t;
    var header := "bytes " + first + "-" + last + "/" + t;
    assert header == "bytes" + [' '] + spec;
    SplitOnceAtFirst("bytes", ' ', spec);
    assert header[|header| - |t| - 1] == '/';
    RangeSpec(a, b, t);
  }

  lemma RangeSpec(a: nat, b: nat, t: string)
    requires '/' !in t
    ensures var range := Decimal(a) + "-" + Decimal(b);
            Split(range + ['/'] + t, '/') == [range, t] && ParseInt(Split(range, '-')[0]) == Some(a)
  {
    var first, last := Decimal(a), Decimal(b);
    var range := first + "-" + last;
    assert forall i :: 0 <= i < |first| ==> IsDigit(first[i]);
    assert forall i :: 0 <= i < |last| ==> IsDigit(last[i]);
    SplitAtFirst(range, '/', t);
    SplitWithout(t, '/');
    SplitAtFirst(first, '-', last);
    ParseIntDecimal(a);
  }

  /** In particular for every total size. */
  lemma RangeHeaderWithTotal(a: nat, b: nat, n: nat, contentLength: Option<string>)
    ensures TotalAndStart(Some("bytes " + Decimal(a) + "-" + Decimal(b) + "/" + Decimal(n)), contentLength)
            == (Some(n as int), a as int)
  {
    var t := Decimal(n);
    assert forall i :: 0 <= i < |t| ==> IsDigit(t[i]);
    RangeHeader(a, b, t, contentLength);
    ParseIntDecimal(n);
  }
}
