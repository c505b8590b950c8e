/** Hexadecimal rendering and parsing of 64-bit seeds.

    Rendering is what an output stream does with `std::hex`,
    `std::setw(16)` and `std::setfill('0')`: sixteen lowercase digits,
    most significant first, zero padded.

    Parsing is what `std::stoull(field, nullptr, 16)` does, following the
    C library's `strtoull`: it skips leading white space, accepts one
    optional sign (a minus negates the value modulo 2^64), accepts an
    optional `0x`/`0X` prefix, then reads the longest run of hexadecimal
    digits and ignores whatever follows it. It fails when that run is
    empty (unless a `0x` prefix was read, which then counts as the digit
    0) and when the run's value does not fit in 64 bits. */
module HexCodec {
  import opened SeedTypes

  predicate IsHexDigit(c: char) {
    '0' <= c <= '9' || 'a' <= c <= 'f' || 'A' <= c <= 'F'
  }

  predicate IsLowerHexDigit(c: char) {
    '0' <= c <= '9' || 'a' <= c <= 'f'
  }

  /** The white space of the C locale: space, tab, line feed, vertical
      tab, form feed and carriage return. */
  predicate IsSpace(c: char) {
    c == ' ' || c == '\t' || c == '\n' || c == '\U{B}' || c == '\U{C}' || c == '\r'
  }

  function DigitValue(c: char): (d: nat)
    requires IsHexDigit(c)
    ensures d < 16
  {
    if '0' <= c <= '9' then c as int - '0' as int
    else if 'a' <= c <= 'f' then c as int - 'a' as int + 10
    else c as int - 'A' as int + 10
  }

  /** The lowercase digit for a value below 16. */
  function HexChar(d: nat): (c: char)
    requires d < 16
    ensures IsLowerHexDigit(c) && DigitValue(c) == d
  {
    if d < 10 then ('0' as int + d) as char else ('a' as int + d - 10) as char
  }

  const TwoTo64: nat := 0x1_0000_0000_0000_0000

  /** The value of a 64-bit word as an unbounded natural number. */
  function ToNat(v: bv64): (x: nat)
    ensures x < TwoTo64
  {
    v as nat
  }

  /** The 64-bit word holding a natural number below 2^64. */
  function FromNat(x: nat): (v: bv64)
    requires x < TwoTo64
  {
    x as bv64
  }

  /** The two conversions are inverse; kept as a lemma so the cast
      round trip is proved once, apart from the parsing proofs. */
  lemma FromToNat(v: bv64)
    ensures FromNat(ToNat(v)) == v
  {
  }

  function Pow16(n: nat): (p: nat)
    ensures p > 0
  {
    if n == 0 then 1 else 16 * Pow16(n - 1)
  }

  /** The `n` lowest hexadecimal digits of `x`, most significant first. */
  function Digits(x: nat, n: nat): (r: string)
    ensures |r| == n
    ensures forall i :: 0 <= i < n ==> IsLowerHexDigit(r[i])
  {
    if n == 0 then [] else Digits(x / 16, n - 1) + [HexChar(x % 16)]
  }

  /** A 64-bit value rendered as sixteen zero-padded lowercase digits. */
  function Hex16(v: bv64): (r: string)
    ensures |r| == 16
    ensures forall i :: 0 <= i < 16 ==> IsLowerHexDigit(r[i])
  {
    Digits(ToNat(v), 16)
  }

  /** The value of a string of hexadecimal digits, most significant first. */
  function HexValue(ds: string): nat
    requires forall i :: 0 <= i < |ds| ==> IsHexDigit(ds[i])
  {
    if ds == [] then 0 else HexValue(ds[..|ds| - 1]) * 16 + DigitValue(ds[|ds| - 1])
  }

  /** Length of the longest prefix of `s` whose characters all satisfy `p`. */
  function Span(s: string, p: char -> bool): (n: nat)
    ensures n <= |s|
    ensures forall i :: 0 <= i < n ==> p(s[i])
    ensures n < |s| ==> !p(s[n])
  {
    if s != [] && p(s[0]) then 1 + Span(s[1..], p) else 0
  }

  /** The unsigned part: optional `0x` prefix, then the digit run. */
  function ParseMagnitude(t: string): (r: Result<bv64>)
    ensures r.Err? ==> r.error == ParseError
  {
    var k := if |t| >= 2 && t[0] == '0' && (t[1] == 'x' || t[1] == 'X') then 2 else 0;
    var n := Span(t[k..], IsHexDigit);
    if n == 0 then
      if k == 2 then Ok(0) else Err(ParseError)
    else
      var value := HexValue(t[k..k + n]);
      if value >= TwoTo64 then Err(ParseError) else Ok(FromNat(value))
  }

  /** The optional sign, then the magnitude; a minus negates modulo 2^64. */
  function ParseSigned(t: string): (r: Result<bv64>)
    ensures r.Err? ==> r.error == ParseError
  {
    if t != [] && t[0] == '-' then
      match ParseMagnitude(t[1..])
      case Ok(v) => Ok(0 - v)
      case Err(e) => Err(e)
    else if t != [] && t[0] == '+' then ParseMagnitude(t[1..])
    else ParseMagnitude(t)
  }

  /** One field of an imported seed string, read as `std::stoull` with
      base 16 reads it. */
  function ParseHexField(s: string): (r: Result<bv64>)
    ensures r.Err? ==> r.error == ParseError
  {
    ParseSigned(s[Span(s, IsSpace)..])
  }

  // ---------------------------------------------------------------------
  // Rendering

  lemma Pow16Width()
    ensures Pow16(16) == TwoTo64
  {
    assert Pow16(2) == 0x100;
    assert Pow16(4) == 0x1_0000;
    assert Pow16(6) == 0x100_0000;
    assert Pow16(8) == 0x1_0000_0000;
    assert Pow16(10) == 0x100_0000_0000;
    assert Pow16(12) == 0x1_0000_0000_0000;
    assert Pow16(14) == 0x100_0000_0000_0000;
  }

  lemma {:induction false} DigitsValue(x: nat, n: nat)
    requires x < Pow16(n)
    ensures forall i :: 0 <= i < n ==> IsHexDigit(Digits(x, n)[i])
    ensures HexValue(Digits(x, n)) == x
  {
    if n > 0 {
      var r := Digits(x, n);
      assert x / 16 < Pow16(n - 1);
      DigitsValue(x / 16, n - 1);
      assert r[..n - 1] == Digits(x / 16, n - 1);
    }
  }

  /** Rendering zero-pads: a value below 16^k is `n - k` zeros followed by
      its `k`-digit rendering. */
  lemma {:induction false} DigitsPadding(x: nat, n: nat, k: nat)
    requires k <= n && x < Pow16(k)
    ensures Digits(x, n) == Digits(0, n - k) + Digits(x, k)
  {
    if n == k {
      assert Digits(0, 0) == [];
    } else if k == 0 {
      assert x == 0;
    } else {
      assert x / 16 < Pow16(k - 1);
      DigitsPadding(x / 16, n - 1, k - 1);
    }
  }

  lemma {:induction false} ZeroDigits(n: nat)
    ensures forall i :: 0 <= i < n ==> Digits(0, n)[i] == '0'
  {
    if n > 0 {
      ZeroDigits(n - 1);
    }
  }

  /** The value zero renders as sixteen zeros. */
  lemma Hex16Zero()
    ensures Hex16(0) == "0000000000000000"
  {
    ZeroDigits(16);
  }

  // ---------------------------------------------------------------------
  // Parsing

  /** The span stops exactly at the end of a prefix all of whose
      characters satisfy `p` when the next character does not. */
  lemma {:induction false} SpanStopsAfter(a: string, b: string, p: char -> bool)
    requires forall i :: 0 <= i < |a| ==> p(a[i])
    requires b == [] || !p(b[0])
    ensures Span(a + b, p) == |a|
  {
    if a != [] {
      assert (a + b)[1..] == a[1..] + b;
      SpanStopsAfter(a[1..], b, p);
    }
  }

  /** A character satisfying `p` in front of `s` lengthens the span by one. */
  lemma SpanSkipsOne(c: char, s: string, p: char -> bool)
    requires p(c)
    ensures Span([c] + s, p) == 1 + Span(s, p)
  {
    assert ([c] + s)[1..] == s;
  }

  /** The magnitude of a non-empty digit run with nothing after it. */
  lemma MagnitudeOfDigits(ds: string)
    requires |ds| > 0 && forall i :: 0 <= i < |ds| ==> IsHexDigit(ds[i])
    ensures ParseMagnitude(ds) ==
      if HexValue(ds) < TwoTo64 then Ok(FromNat(HexValue(ds))) else Err(ParseError)
  {
    assert !(|ds| >= 2 && ds[0] == '0' && (ds[1] == 'x' || ds[1] == 'X')) by {
      if |ds| >= 2 { assert IsHexDigit(ds[1]); }
    }
    assert ds[0..] == ds && ds + [] == ds;
    SpanStopsAfter(ds, [], IsHexDigit);
    assert ds[0..|ds|] == ds;
  }

  /** A field that starts with neither white space nor a sign is parsed
      by its magnitude alone. */
  lemma FieldIsMagnitude(s: string)
    requires s == [] || !(IsSpace(s[0]) || s[0] == '+' || s[0] == '-')
    ensures ParseHexField(s) == ParseMagnitude(s)
  {
    assert Span(s, IsSpace) == 0;
    assert s[0..] == s;
  }

  /** A non-empty run of hexadecimal digits and nothing else parses to its
      value exactly when that value fits in 64 bits, and fails otherwise;
      the number of digits does not matter, only the value. */
  lemma ParseDigits(ds: string)
    requires |ds| > 0 && forall i :: 0 <= i < |ds| ==> IsHexDigit(ds[i])
    ensures HexValue(ds) < TwoTo64 ==> ParseHexField(ds) == Ok(FromNat(HexValue(ds)))
    ensures HexValue(ds) >= TwoTo64 ==> ParseHexField(ds) == Err(ParseError)
  {
    FieldIsMagnitude(ds);
    MagnitudeOfDigits(ds);
  }

  /** Every rendered value parses back to itself. */
  lemma ParseHex16(v: bv64)
    ensures ParseHexField(Hex16(v)) == Ok(v)
  {
    Pow16Width();
    DigitsValue(ToNat(v), 16);
    ParseDigits(Hex16(v));
    FromToNat(v);
  }

  /** A field whose first character cannot start a number (not white
      space, not a sign, not a digit) is rejected; so is the empty field. */
  lemma ParseRejectsNonNumeric(s: string)
    requires s == [] || !(IsSpace(s[0]) || s[0] == '+' || s[0] == '-' || IsHexDigit(s[0]))
    ensures ParseHexField(s) == Err(ParseError)
  {
    FieldIsMagnitude(s);
    assert s[0..] == s;
  }

  /** Whatever follows the digit run is ignored: "12zz" reads as 0x12.
      (A lone "0" followed by an `x` would instead be read as a prefix.) */
  lemma ParseIgnoresTail(ds: string, tail: string)
    requires |ds| > 0 && forall i :: 0 <= i < |ds| ==> IsHexDigit(ds[i])
    requires tail == [] || !IsHexDigit(tail[0])
    requires ds == "0" ==> tail == [] || (tail[0] != 'x' && tail[0] != 'X')
    ensures ParseHexField(ds + tail) == ParseHexField(ds)
  {
    var s := ds + tail;
    FieldIsMagnitude(s);
    FieldIsMagnitude(ds);
    MagnitudeOfDigits(ds);
    assert !(|s| >= 2 && s[0] == '0' && (s[1] == 'x' || s[1] == 'X')) by {
      if |ds| >= 2 {
        assert s[1] == ds[1] && IsHexDigit(ds[1]);
      } else if |s| >= 2 && s[0] == '0' {
        assert ds == "0" && s[1] == tail[0];
      }
    }
    assert s[0..] == s;
    SpanStopsAfter(ds, tail, IsHexDigit);
    assert s[0..|ds|] == ds;
  }

  /** Leading white space is skipped. */
  lemma ParseSkipsSpace(c: char, s: string)
    requires IsSpace(c)
    ensures ParseHexField([c] + s) == ParseHexField(s)
  {
    SpanSkipsOne(c, s, IsSpace);
    assert ([c] + s)[Span([c] + s, IsSpace)..] == s[Span(s, IsSpace)..];
  }

  /** A leading minus before a digit run negates its value modulo 2^64,
      so "-1" reads as 0xffffffffffffffff. */
  lemma ParseNegative(ds: string)
    requires |ds| > 0 && forall i :: 0 <= i < |ds| ==> IsHexDigit(ds[i])
    requires HexValue(ds) < TwoTo64
    ensures ParseHexField("-" + ds) == Ok(0 - FromNat(HexValue(ds)))
  {
    var s := "-" + ds;
    assert Span(s, IsSpace) == 0;
    assert s[0..] == s && s[1..] == ds;
    MagnitudeOfDigits(ds);
  }

  /** A bare `0x` prefix without digits reads as zero. */
  lemma ParseBarePrefix(s: string)
    requires |s| >= 2 && s[0] == '0' && (s[1] == 'x' || s[1] == 'X')
    requires |s| == 2 || !IsHexDigit(s[2])
    ensures ParseHexField(s) == Ok(0)
  {
    assert Span(s, IsSpace) == 0;
    assert s[0..] == s;
  }
}
