/**
 The JSON text the notifier posts. Python's `json.dumps` with its default
 settings (`ensure_ascii=True`, separators `", "` and `": "`) writes a string
 between double quotes and escapes `"`, `\`, the control characters and every
 character outside printable ASCII; a character beyond the Basic Multilingual
 Plane becomes a UTF-16 surrogate pair of `\uXXXX` escapes with lower-case hex.

 `Unescape` is an independent decoder of JSON string contents (section 7 of
 RFC 8259) that serves as the partner of `Escape`: decoding what was encoded
 gives back the original text.
 */
module JsonText {
  import opened Results

  /** Printable ASCII, the range `json.dumps` leaves as it is (apart from `"` and `\`). */
  predicate Printable(c: char) {
    ' ' <= c <= '~'
  }

  predicate AllPrintable(s: string) {
    forall i :: 0 <= i < |s| ==> Printable(s[i])
  }

  lemma PrintableConcat(a: string, b: string)
    requires AllPrintable(a) && AllPrintable(b)
    ensures AllPrintable(a + b)
  {
    forall i | 0 <= i < |a + b|
      ensures Printable((a + b)[i])
    {
      if i >= |a| {
        assert (a + b)[i] == b[i - |a|];
      }
    }
  }

  function HexDigit(d: int): (c: char)
    requires 0 <= d < 16
  {
    if d < 10 then ('0' as int + d) as char else ('a' as int + d - 10) as char
  }

  /** Four lower-case hex digits of a 16-bit code unit, most significant first. */
  function Hex4(n: int): (h: string)
    requires 0 <= n < 0x1_0000
  {
    [HexDigit(n / 0x1000), HexDigit(n / 0x100 % 16), HexDigit(n / 16 % 16), HexDigit(n % 16)]
  }

  function UnitEscape(n: int): (t: string)
    requires 0 <= n < 0x1_0000
  {
    "\\u" + Hex4(n)
  }

  /** The escape `json.dumps` writes for one character. */
  function EscapeChar(c: char): (t: string)
  {
    if c == '"' then "\\\""
    else if c == '\\' then "\\\\"
    else if c == '\U{0008}' then "\\b"
    else if c == '\U{000C}' then "\\f"
    else if c == '\n' then "\\n"
    else if c == '\r' then "\\r"
    else if c == '\t' then "\\t"
    else if Printable(c) then [c]
    else if c as int < 0x1_0000 then UnitEscape(c as int)
    else
      // Python computes 0xd800 | ((n >> 10) & 0x3ff) and 0xdc00 | (n & 0x3ff);
      // since n < 0x10_0000 these are the sums written here.
      var n := c as int - 0x1_0000;
      UnitEscape(0xD800 + n / 0x400) + UnitEscape(0xDC00 + n % 0x400)
  }

  /**
   The contents of the JSON string `json.dumps` writes for `s` (without the
   enclosing quotes). With `ensure_ascii` they are printable ASCII only, and
   the decoder reads them back as `s`, whatever characters `s` holds.
   */
  function Escape(s: string): (t: string)
    ensures AllPrintable(t)
    ensures Unescape(t) == Some(s)
  {
    if s == [] then []
    else
      var head, tail := EscapeChar(s[0]), Escape(s[1..]);
      EscapeCharPrintable(s[0]);
      PrintableConcat(head, tail);
      UnescapeEscapeChar(s[0], tail);
      assert [s[0]] + s[1..] == s;
      head + tail
  }

  // ---------------------------------------------------------------------
  // The decoder

  function HexValue(c: char): (r: Option<int>)
    ensures r.Some? ==> 0 <= r.value < 16
  {
    if '0' <= c <= '9' then Some(c as int - '0' as int)
    else if 'a' <= c <= 'f' then Some(c as int - 'a' as int + 10)
    else if 'A' <= c <= 'F' then Some(c as int - 'A' as int + 10)
    else None
  }

  function ParseHex4(t: string): (r: Option<int>)
    requires |t| == 4
    ensures r.Some? ==> 0 <= r.value < 0x1_0000
  {
    match (HexValue(t[0]), HexValue(t[1]), HexValue(t[2]), HexValue(t[3]))
    case (Some(a), Some(b), Some(c), Some(d)) => Some(((a * 16 + b) * 16 + c) * 16 + d)
    case _ => None
  }

  predicate IsHighSurrogate(n: int) { 0xD800 <= n < 0xDC00 }
  predicate IsLowSurrogate(n: int) { 0xDC00 <= n < 0xE000 }

  function Prepend(c: char, r: Option<string>): Option<string>
  {
    match r
    case Some(s) => Some([c] + s)
    case None => None
  }

  /** The character a high and a low surrogate stand for. */
  function Combine(hi: int, lo: int): (c: char)
    requires IsHighSurrogate(hi) && IsLowSurrogate(lo)
    ensures 0x1_0000 <= c as int
  {
    (0x1_0000 + (hi - 0xD800) * 0x400 + (lo - 0xDC00)) as char
  }

  /**
   Decodes the contents of a JSON string. It fails on an unescaped quote or
   control character, on an unknown escape and on a surrogate that is not part
   of a pair, since such a code unit is not a character.
   */
  function Unescape(t: string): (r: Option<string>)
    decreases |t|
  {
    if t == [] then Some([])
    else if t[0] == '\\' then
      if |t| < 2 then None
      else if t[1] == '"' then Prepend('"', Unescape(t[2..]))
      else if t[1] == '\\' then Prepend('\\', Unescape(t[2..]))
      else if t[1] == '/' then Prepend('/', Unescape(t[2..]))
      else if t[1] == 'b' then Prepend('\U{0008}', Unescape(t[2..]))
      else if t[1] == 'f' then Prepend('\U{000C}', Unescape(t[2..]))
      else if t[1] == 'n' then Prepend('\n', Unescape(t[2..]))
      else if t[1] == 'r' then Prepend('\r', Unescape(t[2..]))
      else if t[1] == 't' then Prepend('\t', Unescape(t[2..]))
      else if t[1] == 'u' && |t| >= 6 then
        match ParseHex4(t[2..6])
        case None => None
        case Some(n) =>
          if IsHighSurrogate(n) then
            if |t| >= 12 && t[6] == '\\' && t[7] == 'u' then
              match ParseHex4(t[8..12])
              case Some(m) =>
                if IsLowSurrogate(m) then Prepend(Combine(n, m), Unescape(t[12..])) else None
              case None => None
            else None
          else if IsLowSurrogate(n) then None
          else Prepend(n as char, Unescape(t[6..]))
      else None
    else if t[0] == '"' || t[0] as int < 0x20 then None
    else Prepend(t[0], Unescape(t[1..]))
  }

  // ---------------------------------------------------------------------
  // Properties

  lemma HexDigitRoundTrip(d: int)
    requires 0 <= d < 16
    ensures HexValue(HexDigit(d)) == Some(d)
  {
  }

  /** The four digits of `n`, most significant first, put back together give `n`. */
  lemma Hex4Digits(n: int)
    requires 0 <= n < 0x1_0000
    ensures ((n / 0x1000 * 16 + n / 0x100 % 16) * 16 + n / 16 % 16) * 16 + n % 16 == n
  {
    var q1 := n / 16;
    var q2 := q1 / 16;
    assert n / 0x100 == q2;
    assert n / 0x1000 == q2 / 16;
  }

  lemma Hex4RoundTrip(n: int)
    requires 0 <= n < 0x1_0000
    ensures ParseHex4(Hex4(n)) == Some(n)
  {
    var h := Hex4(n);
    var a, b, c, d := n / 0x1000, n / 0x100 % 16, n / 16 % 16, n % 16;
    HexDigitRoundTrip(a);
    HexDigitRoundTrip(b);
    HexDigitRoundTrip(c);
    HexDigitRoundTrip(d);
    Hex4Digits(n);
    assert HexValue(h[0]) == Some(a) && HexValue(h[1]) == Some(b);
    assert HexValue(h[2]) == Some(c) && HexValue(h[3]) == Some(d);
  }

  /** A surrogate pair written for a supplementary character decodes to that character. */
  lemma SurrogatePairRoundTrip(c: char)
    requires 0x1_0000 <= c as int
    ensures var n := c as int - 0x1_0000;
            IsHighSurrogate(0xD800 + n / 0x400) && IsLowSurrogate(0xDC00 + n % 0x400)
            && Combine(0xD800 + n / 0x400, 0xDC00 + n % 0x400) == c
  {
  }

  lemma UnescapeShortEscape(c: char, rest: string)
    requires c == '"' || c == '\\' || c == '\U{0008}' || c == '\U{000C}' || c == '\n' || c == '\r' || c == '\t'
    ensures Unescape(EscapeChar(c) + rest) == Prepend(c, Unescape(rest))
  {
    var t := EscapeChar(c) + rest;
    assert t[2..] == rest;
  }

  lemma UnescapeVerbatim(c: char, rest: string)
    requires Printable(c) && c != '"' && c != '\\'
    ensures Unescape(EscapeChar(c) + rest) == Prepend(c, Unescape(rest))
  {
    var t := EscapeChar(c) + rest;
    assert t[1..] == rest;
  }

  lemma UnescapeUnitEscape(c: char, rest: string)
    requires !Printable(c) && c as int < 0x1_0000
    requires c != '\U{0008}' && c != '\U{000C}' && c != '\n' && c != '\r' && c != '\t'
    ensures Unescape(EscapeChar(c) + rest) == Prepend(c, Unescape(rest))
  {
    var t := EscapeChar(c) + rest;
    var n := c as int;
    Hex4RoundTrip(n);
    assert t[0] == '\\' && t[1] == 'u' && |t| >= 6;
    assert t[2..6] == Hex4(n);
    assert !IsHighSurrogate(n) && !IsLowSurrogate(n);
    assert t[6..] == rest;
  }

  lemma UnescapePair(hi: int, lo: int, rest: string)
    requires IsHighSurrogate(hi) && IsLowSurrogate(lo)
    ensures Unescape(UnitEscape(hi) + UnitEscape(lo) + rest) == Prepend(Combine(hi, lo), Unescape(rest))
  {
    var t := UnitEscape(hi) + UnitEscape(lo) + rest;
    Hex4RoundTrip(hi);
    Hex4RoundTrip(lo);
    assert t[0] == '\\' && t[1] == 'u' && |t| >= 12;
    assert t[2..6] == Hex4(hi);
    assert t[6] == '\\' && t[7] == 'u';
    assert t[8..12] == Hex4(lo);
    assert t[12..] == rest;
  }

  lemma UnescapeSurrogatePair(c: char, rest: string)
    requires 0x1_0000 <= c as int
    ensures Unescape(EscapeChar(c) + rest) == Prepend(c, Unescape(rest))
  {
    var n := c as int - 0x1_0000;
    var hi, lo := 0xD800 + n / 0x400, 0xDC00 + n % 0x400;
    SurrogatePairRoundTrip(c);
    assert EscapeChar(c) == UnitEscape(hi) + UnitEscape(lo);
    UnescapePair(hi, lo, rest);
  }

  /** Decoding the escape of one character in front of any text yields that character in front of the decoded text. */
  lemma UnescapeEscapeChar(c: char, rest: string)
    ensures Unescape(EscapeChar(c) + rest) == Prepend(c, Unescape(rest))
  {
    if c == '"' || c == '\\' || c == '\U{0008}' || c == '\U{000C}' || c == '\n' || c == '\r' || c == '\t' {
      UnescapeShortEscape(c, rest);
    } else if Printable(c) {
      UnescapeVerbatim(c, rest);
    } else if c as int < 0x1_0000 {
      UnescapeUnitEscape(c, rest);
    } else {
      UnescapeSurrogatePair(c, rest);
    }
  }

  lemma EscapeCharPrintable(c: char)
    ensures AllPrintable(EscapeChar(c))
  {
  }

  // ---------------------------------------------------------------------
  // Where a string literal ends

  function Shift(k: nat, r: Option<nat>): Option<nat>
  {
    match r
    case Some(n) => Some(n + k)
    case None => None
  }

  /**
   The index of the quote that closes a JSON string literal whose contents
   start at the beginning of `t`, as a reader finds it: a backslash is skipped
   together with the character after it, and the first other double quote
   closes the literal.
   */
  function ClosingQuote(t: string): Option<nat>
    decreases |t|
  {
    if t == [] then None
    else if t[0] == '"' then Some(0)
    else if t[0] == '\\' then (if |t| < 2 then None else Shift(2, ClosingQuote(t[2..])))
    else Shift(1, ClosingQuote(t[1..]))
  }

  /** Text without quotes or backslashes is passed over character by character. */
  lemma {:induction false} ClosingQuotePlain(h: string, t: string)
    requires forall i :: 0 <= i < |h| ==> h[i] != '"' && h[i] != '\\'
    ensures ClosingQuote(h + t) == Shift(|h|, ClosingQuote(t))
  {
    if h != [] {
      assert (h + t)[0] == h[0];
      assert (h + t)[1..] == h[1..] + t;
      ClosingQuotePlain(h[1..], t);
    } else {
      assert h + t == t;
    }
  }

  lemma ClosingQuoteUnitEscape(n: int, t: string)
    requires 0 <= n < 0x1_0000
    ensures ClosingQuote(UnitEscape(n) + t) == Shift(6, ClosingQuote(t))
  {
    var h := Hex4(n);
    assert (UnitEscape(n) + t)[2..] == h + t;
    ClosingQuotePlain(h, t);
  }

  /** The escape of one character is passed over as a whole. */
  lemma ClosingQuoteEscapeChar(c: char, t: string)
    ensures ClosingQuote(EscapeChar(c) + t) == Shift(|EscapeChar(c)|, ClosingQuote(t))
  {
    var e := EscapeChar(c);
    if c == '"' || c == '\\' || c == '\U{0008}' || c == '\U{000C}' || c == '\n' || c == '\r' || c == '\t' {
      assert (e + t)[2..] == t;
    } else if Printable(c) {
      assert (e + t)[1..] == t;
    } else if c as int < 0x1_0000 {
      ClosingQuoteUnitEscape(c as int, t);
    } else {
      var n := c as int - 0x1_0000;
      var hi, lo := 0xD800 + n / 0x400, 0xDC00 + n % 0x400;
      assert e + t == UnitEscape(hi) + (UnitEscape(lo) + t);
      ClosingQuoteUnitEscape(hi, UnitEscape(lo) + t);
      ClosingQuoteUnitEscape(lo, t);
    }
  }

  lemma Regroup(a: string, b: string, c: string)
    ensures (a + b) + c == a + (b + c)
  {
  }

  /**
   The escaped text never closes the literal early: whatever follows the
   closing quote, a reader finds the end of the literal exactly there.
   */
  lemma {:induction false} EscapeEndsAtClosingQuote(s: string, rest: string)
    ensures ClosingQuote(Escape(s) + ("\"" + rest)) == Some(|Escape(s)|)
  {
    if s != [] {
      var e, t, q := EscapeChar(s[0]), Escape(s[1..]), "\"" + rest;
      assert Escape(s) == e + t;
      Regroup(e, t, q);
      EscapeEndsAtClosingQuote(s[1..], rest);
      ClosingQuoteEscapeChar(s[0], t + q);
    }
  }
}
