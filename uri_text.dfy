/** The text of a search URL: `Uri.EscapeDataString` for the query and the
    decimal formatting of the page number in an interpolated string.

    `EscapeDataString` keeps the unreserved characters of RFC 3986
    (section 2.3: letters, digits, `-`, `.`, `_`, `~`) and writes every other
    character as the `%XX` escapes of its UTF-8 bytes, with upper-case hex.
    `DecodeDataString` is the decoding a server applies to such a segment; it
    is here as the partner that shows no query is lost in the escaping. */
module UriText {
  import opened Runtime

  predicate IsUnreserved(c: char) {
    || ('A' <= c <= 'Z') || ('a' <= c <= 'z') || ('0' <= c <= '9')
    || c == '-' || c == '.' || c == '_' || c == '~'
  }

  predicate IsHex(c: char) {
    ('0' <= c <= '9') || ('A' <= c <= 'F') || ('a' <= c <= 'f')
  }

  function HexDigit(d: int): (c: char)
    requires 0 <= d < 16
    ensures IsHex(c) && IsUnreserved(c)
  {
    if d < 10 then ('0' as int + d) as char else ('A' as int + d - 10) as char
  }

  function HexValue(c: char): (d: int)
    requires IsHex(c)
    ensures 0 <= d < 16
  {
    if '0' <= c <= '9' then c as int - '0' as int
    else if 'A' <= c <= 'F' then c as int - 'A' as int + 10
    else c as int - 'a' as int + 10
  }

  /** The UTF-8 encoding of one Unicode scalar value. */
  function Utf8Bytes(c: char): (bytes: seq<int>)
    ensures 1 <= |bytes| <= 4
    ensures forall i :: 0 <= i < |bytes| ==> 0 <= bytes[i] < 256
  {
    var cp := c as int;
    if cp < 0x80 then [cp]
    else if cp < 0x800 then [0xC0 + cp / 0x40, 0x80 + cp % 0x40]
    else if cp < 0x10000 then [0xE0 + cp / 0x1000, 0x80 + (cp / 0x40) % 0x40, 0x80 + cp % 0x40]
    else [0xF0 + cp / 0x40000, 0x80 + (cp / 0x1000) % 0x40, 0x80 + (cp / 0x40) % 0x40, 0x80 + cp % 0x40]
  }

  /** The escape `%XX` of one byte. */
  function Percent(b: int): (r: string)
    requires 0 <= b < 256
    ensures |r| == 3 && r[0] == '%' && IsHex(r[1]) && IsHex(r[2])
  {
    ['%', HexDigit(b / 16), HexDigit(b % 16)]
  }

  function PercentAll(bytes: seq<int>): (r: string)
    requires forall i :: 0 <= i < |bytes| ==> 0 <= bytes[i] < 256
    ensures |r| == 3 * |bytes|
    ensures forall i :: 0 <= i < |r| ==> r[i] == '%' || IsUnreserved(r[i])
    decreases |bytes|
  {
    if bytes == [] then [] else Percent(bytes[0]) + PercentAll(bytes[1..])
  }

  function EscapeChar(c: char): (r: string)
    ensures IsUnreserved(c) ==> r == [c]
    ensures !IsUnreserved(c) ==> 3 <= |r| <= 12 && r[0] == '%'
    ensures forall i :: 0 <= i < |r| ==> r[i] == '%' || IsUnreserved(r[i])
  {
    if IsUnreserved(c) then [c] else PercentAll(Utf8Bytes(c))
  }

  /** `Uri.EscapeDataString`. */
  function EscapeDataString(s: string): (r: string)
    // the result holds only unreserved characters and the `%` of escapes
    ensures forall i :: 0 <= i < |r| ==> r[i] == '%' || IsUnreserved(r[i])
    // a string of unreserved characters is left as it is
    ensures (forall i :: 0 <= i < |s| ==> IsUnreserved(s[i])) ==> r == s
    ensures |s| <= |r| <= 12 * |s|
    decreases |s|
  {
    if s == [] then [] else EscapeChar(s[0]) + EscapeDataString(s[1..])
  }

  // ----- Decoding -----

  /** The byte of a `%XX` escape at the start of `s`. */
  function PercentByte(s: string): (b: Option<int>)
    ensures b.Some? ==> |s| >= 3 && 0 <= b.value < 256
  {
    if |s| >= 3 && s[0] == '%' && IsHex(s[1]) && IsHex(s[2])
    then Some(HexValue(s[1]) * 16 + HexValue(s[2]))
    else None
  }

  predicate IsContinuation(b: int) {
    0x80 <= b < 0xC0
  }

  predicate IsScalar(cp: int) {
    (0 <= cp < 0xD800) || (0xE000 <= cp < 0x110000)
  }

  /** The character whose UTF-8 escapes start `s`, and how many characters of
      `s` they take. */
  function DecodeEscapedChar(s: string): (r: Option<(char, nat)>)
    ensures r.Some? ==> 3 <= r.value.1 <= |s|
  {
    var b0 := PercentByte(s);
    if b0.None? then None
    else if b0.value < 0x80 then Some((b0.value as char, 3))
    else
      var b1 := PercentByte(s[3..]);
      if b1.None? || !IsContinuation(b1.value) then None
      else if 0xC0 <= b0.value < 0xE0 then
        var cp := (b0.value - 0xC0) * 0x40 + (b1.value - 0x80);
        if IsScalar(cp) then Some((cp as char, 6)) else None
      else
        var b2 := PercentByte(s[6..]);
        if b2.None? || !IsContinuation(b2.value) then None
        else if 0xE0 <= b0.value < 0xF0 then
          var cp := (b0.value - 0xE0) * 0x1000 + (b1.value - 0x80) * 0x40 + (b2.value - 0x80);
          if IsScalar(cp) then Some((cp as char, 9)) else None
        else
          var b3 := PercentByte(s[9..]);
          if b3.None? || !IsContinuation(b3.value) || !(0xF0 <= b0.value < 0xF8) then None
          else
            var cp := (b0.value - 0xF0) * 0x40000 + (b1.value - 0x80) * 0x1000 + (b2.value - 0x80) * 0x40 + (b3.value - 0x80);
            if IsScalar(cp) then Some((cp as char, 12)) else None
  }

  /** Percent-decoding followed by UTF-8 decoding; `None` for a malformed
      escape. */
  function DecodeDataString(s: string): Option<string>
    decreases |s|
  {
    if s == [] then Some([])
    else if s[0] != '%' then
      match DecodeDataString(s[1..])
      case None => None
      case Some(rest) => Some([s[0]] + rest)
    else
      match DecodeEscapedChar(s)
      case None => None
      case Some((c, n)) =>
        match DecodeDataString(s[n..])
        case None => None
        case Some(rest) => Some([c] + rest)
  }

  lemma PercentDecodes(b: int, rest: string)
    requires 0 <= b < 256
    ensures PercentByte(Percent(b) + rest) == Some(b)
    ensures (Percent(b) + rest)[3..] == rest
  {
    var s := Percent(b) + rest;
    assert s[1] == HexDigit(b / 16) && s[2] == HexDigit(b % 16);
  }

  /** The escape of the `i`-th byte sits at position `3 * i`. */
  lemma {:induction false} PercentAllAt(bytes: seq<int>, rest: string, i: nat)
    requires forall j :: 0 <= j < |bytes| ==> 0 <= bytes[j] < 256
    requires i < |bytes|
    ensures PercentByte((PercentAll(bytes) + rest)[3 * i..]) == Some(bytes[i])
    decreases i
  {
    var tail := PercentAll(bytes[1..]) + rest;
    assert PercentAll(bytes) + rest == Percent(bytes[0]) + tail;
    PercentDecodes(bytes[0], tail);
    if i > 0 {
      PercentAllAt(bytes[1..], rest, i - 1);
      assert (PercentAll(bytes) + rest)[3 * i..] == tail[3 * (i - 1)..];
    }
  }

  /** Splitting a code point into 6-bit groups and joining them again. */
  lemma SixBitGroups(cp: nat)
    ensures cp == (cp / 0x40) * 0x40 + cp % 0x40
    ensures cp / 0x40 / 0x40 == cp / 0x1000
    ensures cp / 0x1000 / 0x40 == cp / 0x40000
  {
  }

  lemma DecodesTwoBytes(s: string, b0: int, b1: int)
    requires PercentByte(s) == Some(b0) && PercentByte(s[3..]) == Some(b1)
    requires 0xC0 <= b0 < 0xE0 && IsContinuation(b1) && IsScalar((b0 - 0xC0) * 0x40 + (b1 - 0x80))
    ensures DecodeEscapedChar(s) == Some((((b0 - 0xC0) * 0x40 + (b1 - 0x80)) as char, 6))
  {
  }

  lemma DecodesThreeBytes(s: string, b0: int, b1: int, b2: int)
    requires PercentByte(s) == Some(b0) && PercentByte(s[3..]) == Some(b1) && PercentByte(s[6..]) == Some(b2)
    requires 0xE0 <= b0 < 0xF0 && IsContinuation(b1) && IsContinuation(b2)
    requires IsScalar((b0 - 0xE0) * 0x1000 + (b1 - 0x80) * 0x40 + (b2 - 0x80))
    ensures DecodeEscapedChar(s) == Some((((b0 - 0xE0) * 0x1000 + (b1 - 0x80) * 0x40 + (b2 - 0x80)) as char, 9))
  {
  }

  lemma DecodesFourBytes(s: string, b0: int, b1: int, b2: int, b3: int)
    requires PercentByte(s) == Some(b0) && PercentByte(s[3..]) == Some(b1)
    requires PercentByte(s[6..]) == Some(b2) && PercentByte(s[9..]) == Some(b3)
    requires 0xF0 <= b0 < 0xF8 && IsContinuation(b1) && IsContinuation(b2) && IsContinuation(b3)
    requires IsScalar((b0 - 0xF0) * 0x40000 + (b1 - 0x80) * 0x1000 + (b2 - 0x80) * 0x40 + (b3 - 0x80))
    ensures DecodeEscapedChar(s) == Some((((b0 - 0xF0) * 0x40000 + (b1 - 0x80) * 0x1000 + (b2 - 0x80) * 0x40 + (b3 - 0x80)) as char, 12))
  {
  }

  /** The escapes of a character of two UTF-8 bytes decode to it. */
  lemma TwoByteCharInverts(c: char, rest: string)
    requires 0x80 <= c as int < 0x800
    ensures DecodeEscapedChar(PercentAll(Utf8Bytes(c)) + rest) == Some((c, 6))
  {
    var bytes := Utf8Bytes(c);
    var s := PercentAll(bytes) + rest;
    PercentAllAt(bytes, rest, 0);
    assert s[3 * 0..] == s;
    PercentAllAt(bytes, rest, 1);
    SixBitGroups(c as int);
    DecodesTwoBytes(s, bytes[0], bytes[1]);
  }

  /** The escapes of a character of three UTF-8 bytes decode to it. */
  lemma ThreeByteCharInverts(c: char, rest: string)
    requires 0x800 <= c as int < 0x10000
    ensures DecodeEscapedChar(PercentAll(Utf8Bytes(c)) + rest) == Some((c, 9))
  {
    var bytes := Utf8Bytes(c);
    var s := PercentAll(bytes) + rest;
    var cp := c as int;
    PercentAllAt(bytes, rest, 0);
    assert s[3 * 0..] == s;
    PercentAllAt(bytes, rest, 1);
    PercentAllAt(bytes, rest, 2);
    SixBitGroups(cp);
    SixBitGroups(cp / 0x40);
    DecodesThreeBytes(s, bytes[0], bytes[1], bytes[2]);
  }

  /** The escapes of a character of four UTF-8 bytes decode to it. */
  lemma FourByteCharInverts(c: char, rest: string)
    requires 0x10000 <= c as int
    ensures DecodeEscapedChar(PercentAll(Utf8Bytes(c)) + rest) == Some((c, 12))
  {
    var bytes := Utf8Bytes(c);
    var s := PercentAll(bytes) + rest;
    var cp := c as int;
    PercentAllAt(bytes, rest, 0);
    assert s[3 * 0..] == s;
    PercentAllAt(bytes, rest, 1);
    PercentAllAt(bytes, rest, 2);
    PercentAllAt(bytes, rest, 3);
    SixBitGroups(cp);
    SixBitGroups(cp / 0x40);
    SixBitGroups(cp / 0x1000);
    DecodesFourBytes(s, bytes[0], bytes[1], bytes[2], bytes[3]);
  }

  /** The escapes of one character decode to it, and take exactly its escapes. */
  lemma DecodeEscapedCharInverts(c: char, rest: string)
    requires !IsUnreserved(c)
    ensures DecodeEscapedChar(EscapeChar(c) + rest) == Some((c, |EscapeChar(c)|))
  {
    var cp := c as int;
    if cp < 0x80 {
      PercentAllAt(Utf8Bytes(c), rest, 0);
      assert (PercentAll(Utf8Bytes(c)) + rest)[3 * 0..] == PercentAll(Utf8Bytes(c)) + rest;
    } else if cp < 0x800 {
      TwoByteCharInverts(c, rest);
    } else if cp < 0x10000 {
      ThreeByteCharInverts(c, rest);
    } else {
      FourByteCharInverts(c, rest);
    }
  }

  /** No query is lost in the escaping: decoding gives it back. */
  lemma {:induction false} DecodeEscapeDataString(s: string)
    ensures DecodeDataString(EscapeDataString(s)) == Some(s)
    decreases |s|
  {
    if s != [] {
      var head := EscapeChar(s[0]);
      var rest := EscapeDataString(s[1..]);
      var e := head + rest;
      assert EscapeDataString(s) == e;
      DecodeEscapeDataString(s[1..]);
      if IsUnreserved(s[0]) {
        assert e[0] == s[0] && e[1..] == rest;
      } else {
        DecodeEscapedCharInverts(s[0], rest);
        assert e[|head|..] == rest;
      }
      assert [s[0]] + s[1..] == s;
    }
  }

  // ----- Integers -----

  function DigitChar(d: int): (c: char)
    requires 0 <= d < 10
    ensures '0' <= c <= '9'
  {
    ('0' as int + d) as char
  }

  predicate IsDigits(s: string) {
    forall i :: 0 <= i < |s| ==> '0' <= s[i] <= '9'
  }

  /** The decimal digits of a natural number, without leading zeros. */
  function NatToDigits(n: nat): (s: string)
    ensures |s| >= 1 && IsDigits(s)
    ensures s[0] == '0' ==> n == 0
    decreases n
  {
    if n < 10 then [DigitChar(n)] else NatToDigits(n / 10) + [DigitChar(n % 10)]
  }

  /** The number a string of decimal digits denotes. */
  function DigitsValue(s: string): nat
    requires IsDigits(s)
    decreases |s|
  {
    if s == [] then 0 else DigitsValue(s[..|s| - 1]) * 10 + (s[|s| - 1] as int - '0' as int)
  }

  /** `int.ToString()` of a page, as an interpolated `{page}` formats it. The
      handlers only pass non-negative pages, which every culture writes as
      ASCII digits; the `-` of a negative value stands in for the culture's
      negative sign. */
  function IntToString(i: int): (s: string)
    ensures |s| >= 1
    ensures forall k :: 0 <= k < |s| ==> s[k] == '-' || ('0' <= s[k] <= '9')
  {
    if i < 0 then "-" + NatToDigits(-i) else NatToDigits(i)
  }

  /** The number an `IntToString` result denotes. */
  function ParseInt(s: string): Option<int> {
    if |s| >= 1 && s[0] == '-' && IsDigits(s[1..]) then Some(-(DigitsValue(s[1..]) as int))
    else if IsDigits(s) then Some(DigitsValue(s))
    else None
  }

  lemma {:induction false} DigitsRoundTrip(n: nat)
    ensures DigitsValue(NatToDigits(n)) == n
    decreases n
  {
    if n >= 10 {
      var s := NatToDigits(n);
      assert s[..|s| - 1] == NatToDigits(n / 10);
      DigitsRoundTrip(n / 10);
    }
  }

  lemma ParsesNegative(d: string)
    requires IsDigits(d)
    ensures ParseInt("-" + d) == Some(-(DigitsValue(d) as int))
  {
    assert ("-" + d)[1..] == d;
  }

  lemma ParsesNonNegative(d: string)
    requires |d| >= 1 && IsDigits(d)
    ensures ParseInt(d) == Some(DigitsValue(d))
  {
    assert d[0] != '-';
  }

  /** The page number the server reads back is the page requested. */
  lemma IntToStringRoundTrip(i: int)
    ensures ParseInt(IntToString(i)) == Some(i)
  {
    if i < 0 {
      ParsesNegative(NatToDigits(-i));
      DigitsRoundTrip(-i);
    } else {
      ParsesNonNegative(NatToDigits(i));
      DigitsRoundTrip(i);
    }
  }
}
