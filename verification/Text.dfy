/** Text as bytes and numbers as text: character classes, trimming, UTF-8, and the decimal form of
    a 64-bit integer. */
module Text {
  import opened Wrappers

  // ---- Characters ----

  predicate IsDigit(c: char) { '0' <= c <= '9' }

  /** `char::is_ascii_hexdigit`. */
  predicate IsHexDigit(c: char)
  {
    '0' <= c <= '9' || 'a' <= c <= 'f' || 'A' <= c <= 'F'
  }

  /** `char::to_ascii_lowercase`. */
  function LowerChar(c: char): char
  {
    if 'A' <= c <= 'Z' then c - 'A' + 'a' else c
  }

  /** `char::is_whitespace`: the Unicode property White_Space. */
  predicate IsSpace(c: char)
  {
    || '\t' <= c <= '\r' || c == ' ' || c == '\U{85}' || c == '\U{A0}' || c == '\U{1680}'
    || '\U{2000}' <= c <= '\U{200A}' || c == '\U{2028}' || c == '\U{2029}' || c == '\U{202F}'
    || c == '\U{205F}' || c == '\U{3000}'
  }

  function TrimStart(s: string): string
  {
    if s != "" && IsSpace(s[0]) then TrimStart(s[1..]) else s
  }

  function TrimEnd(s: string): string
  {
    if s != "" && IsSpace(s[|s| - 1]) then TrimEnd(s[..|s| - 1]) else s
  }

  // ---- UTF-8 (`str::as_bytes`) ----

  function EncodeChar(c: char): (r: seq<Byte>)
    ensures 1 <= |r| <= 4
  {
    var n := c as int;
    if n < 0x80 then [n]
    else if n < 0x800 then [0xC0 + n / 0x40, 0x80 + n % 0x40]
    else if n < 0x10000 then [0xE0 + n / 0x1000, 0x80 + n / 0x40 % 0x40, 0x80 + n % 0x40]
    else [0xF0 + n / 0x40000, 0x80 + n / 0x1000 % 0x40, 0x80 + n / 0x40 % 0x40, 0x80 + n % 0x40]
  }

  function Utf8(s: string): seq<Byte>
  {
    if s == "" then [] else EncodeChar(s[0]) + Utf8(s[1..])
  }

  /** The leading byte fixes the width, so an encoded character can be split off. */
  lemma CharCancels(c: char, d: char, x: seq<Byte>, y: seq<Byte>)
    requires EncodeChar(c) + x == EncodeChar(d) + y
    ensures c == d && x == y
  {
    var u, v := EncodeChar(c) + x, EncodeChar(d) + y;
    assert u[0] == EncodeChar(c)[0] && v[0] == EncodeChar(d)[0];
    assert |EncodeChar(c)| == |EncodeChar(d)|;
    var w := |EncodeChar(c)|;
    assert EncodeChar(c) == u[..w] == v[..w] == EncodeChar(d);
    assert x == u[w..] && y == v[w..];
    SameEncoding(c, d);
  }

  lemma SixBitGroups(n: nat)
    ensures n == n / 0x1000 * 0x1000 + n / 0x40 % 0x40 * 0x40 + n % 0x40
    ensures n == n / 0x40000 * 0x40000 + n / 0x1000 % 0x40 * 0x1000 + n / 0x40 % 0x40 * 0x40 + n % 0x40
  {
    var k := n / 0x40;
    var j := k / 0x40;
    assert n / 0x1000 == j;
    assert n / 0x40000 == j / 0x40;
  }

  lemma SameEncoding(c: char, d: char)
    requires EncodeChar(c) == EncodeChar(d)
    ensures c == d
  {
    SixBitGroups(c as int);
    SixBitGroups(d as int);
    var e := EncodeChar(c);
    var w := |e|;
    assert c as int % 0x40 == d as int % 0x40 by {
      assert w == 1 || e[w - 1] == 0x80 + c as int % 0x40;
      assert w == 1 || e[w - 1] == 0x80 + d as int % 0x40;
    }
  }

  lemma {:induction false} Utf8Injective(s: string, t: string)
    requires Utf8(s) == Utf8(t)
    ensures s == t
  {
    if s != "" && t != "" {
      CharCancels(s[0], t[0], Utf8(s[1..]), Utf8(t[1..]));
      Utf8Injective(s[1..], t[1..]);
      assert s == [s[0]] + s[1..] && t == [t[0]] + t[1..];
    }
  }

  // ---- Decimal integers (`i64::to_string`, `str::parse::<i64>`) ----

  const I64_MIN: int := -0x8000_0000_0000_0000
  const I64_MAX: int := 0x7FFF_FFFF_FFFF_FFFF

  predicate IsI64(n: int) { I64_MIN <= n <= I64_MAX }

  function DigitChar(d: nat): (c: char)
    requires d < 10
    ensures IsDigit(c) && c as int - '0' as int == d
  {
    ('0' as int + d) as char
  }

  function Digits(n: nat): (s: string)
    ensures s != "" && forall c :: c in s ==> IsDigit(c)
  {
    if n < 10 then [DigitChar(n)] else Digits(n / 10) + [DigitChar(n % 10)]
  }

  function Decimal(n: int): (s: string)
    ensures s != "" && forall c :: c in s ==> IsDigit(c) || c == '-'
  {
    if n < 0 then "-" + Digits(-n) else Digits(n)
  }

  function ParseDigits(s: string): Option<nat>
  {
    if s == "" then None
    else
      var last := s[|s| - 1];
      if !IsDigit(last) then None
      else if |s| == 1 then Some(last as int - '0' as int)
      else
        match ParseDigits(s[..|s| - 1])
        case None => None
        case Some(n) => Some(10 * n + (last as int - '0' as int))
  }

  /** An optional sign, then at least one digit, within range. */
  function ParseI64(s: string): Option<int>
  {
    var magnitude := ParseDigits(if s != "" && s[0] in "+-" then s[1..] else s);
    if magnitude.None? then None
    else
      var n: int := if s != "" && s[0] == '-' then 0 - magnitude.value else magnitude.value;
      if IsI64(n) then Some(n) else None
  }

  lemma {:induction false} ParseDigitsOfDigits(n: nat)
    ensures ParseDigits(Digits(n)) == Some(n)
  {
    if n >= 10 {
      ParseDigitsOfDigits(n / 10);
      var s := Digits(n);
      assert s[..|s| - 1] == Digits(n / 10);
    }
  }

  /** Parsing what was printed gives the number back, exactly for the 64-bit range. */
  lemma ParseOfDecimal(n: int)
    ensures ParseI64(Decimal(n)) == if IsI64(n) then Some(n) else None
  {
    ParseDigitsOfDigits(if n < 0 then -n else n);
    if n < 0 {
      assert Decimal(n)[1..] == Digits(-n);
    } else {
      assert IsDigit(Digits(n)[0]);
    }
  }

  lemma DecimalInjective(m: int, n: int)
    requires IsI64(m) && IsI64(n) && Decimal(m) == Decimal(n)
    ensures m == n
  {
    ParseOfDecimal(m);
    ParseOfDecimal(n);
  }
}
