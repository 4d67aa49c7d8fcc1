/** The JSON text Python's `json.dumps` writes for the scalars of this model,
    with its default `ensure_ascii=True`: integers in decimal, `true`,
    `false`, `null`, and strings quoted with the escapes of section 7 of
    RFC 8259 (every character outside printable ASCII as `\uXXXX` in
    lower-case hex, a surrogate pair above U+FFFF). Each encoder has a
    decoder beside it, and the lemmas prove that decoding recovers the value. */
module Json {
  import opened Values

  /** The digit character for `d`, lower-case for the hex digits. */
  function DigitChar(d: nat): (c: char)
    requires d < 16
    ensures IsHexDigit(c) && DigitValue(c) == d
    ensures d < 10 <==> IsDecimalDigit(c)
  {
    if d < 10 then ('0' as int + d) as char else ('a' as int + d - 10) as char
  }

  predicate IsDecimalDigit(c: char)
  {
    '0' <= c <= '9'
  }

  predicate IsHexDigit(c: char)
  {
    '0' <= c <= '9' || 'a' <= c <= 'f' || 'A' <= c <= 'F'
  }

  predicate AllDecimal(s: string)
  {
    forall k | 0 <= k < |s| :: IsDecimalDigit(s[k])
  }

  predicate AllHex(s: string)
  {
    forall k | 0 <= k < |s| :: IsHexDigit(s[k])
  }

  /** The value of a decimal or hex digit of either case; 0 for any other
      character. */
  function DigitValue(c: char): (d: nat)
    ensures d < 16
    ensures IsDecimalDigit(c) ==> d < 10
  {
    if '0' <= c <= '9' then c as int - '0' as int
    else if 'a' <= c <= 'f' then c as int - 'a' as int + 10
    else if 'A' <= c <= 'F' then c as int - 'A' as int + 10
    else 0
  }

  /** `repr` of a non-negative Python int: its decimal digits, with no
      leading zero. */
  function Decimal(n: nat): (s: string)
    ensures |s| >= 1 && AllDecimal(s)
    ensures s[0] == '0' ==> n == 0
    decreases n
  {
    if n < 10 then [DigitChar(n)] else Decimal(n / 10) + [DigitChar(n % 10)]
  }

  /** The number a string of decimal digits denotes. */
  function DecimalValue(s: string): nat
    decreases |s|
  {
    if s == [] then 0 else DecimalValue(s[..|s| - 1]) * 10 + DigitValue(s[|s| - 1])
  }

  lemma {:induction false} DecimalRoundTrip(n: nat)
    ensures DecimalValue(Decimal(n)) == n
    decreases n
  {
    if n >= 10 {
      var s := Decimal(n);
      assert s[..|s| - 1] == Decimal(n / 10);
      DecimalRoundTrip(n / 10);
    }
  }

  /** Four lower-case hex digits of a UTF-16 code unit. */
  function Hex4(u: nat): (s: string)
    requires u < 0x10000
    ensures |s| == 4 && AllHex(s)
  {
    var a := u / 0x10;
    var b := a / 0x10;
    [DigitChar(b / 0x10), DigitChar(b % 0x10), DigitChar(a % 0x10), DigitChar(u % 0x10)]
  }

  /** The code unit four hex digits denote. */
  function Hex4Value(s: string): (u: nat)
    requires |s| == 4
    ensures u < 0x10000
  {
    ((DigitValue(s[0]) * 0x10 + DigitValue(s[1])) * 0x10 + DigitValue(s[2])) * 0x10 + DigitValue(s[3])
  }

  lemma Hex4RoundTrip(u: nat)
    requires u < 0x10000
    ensures Hex4Value(Hex4(u)) == u
  {
    var s := Hex4(u);
    var a := u / 0x10;
    var b := a / 0x10;
    assert u == a * 0x10 + u % 0x10;
    assert a == b * 0x10 + a % 0x10;
    assert b == b / 0x10 * 0x10 + b % 0x10;
    assert DigitValue(s[0]) == b / 0x10 && DigitValue(s[1]) == b % 0x10;
    assert DigitValue(s[2]) == a % 0x10 && DigitValue(s[3]) == u % 0x10;
    assert DigitValue(s[0]) * 0x10 + DigitValue(s[1]) == b;
    assert (DigitValue(s[0]) * 0x10 + DigitValue(s[1])) * 0x10 + DigitValue(s[2]) == a;
  }

  /** `\u` followed by the four hex digits of a code unit. */
  function UnicodeEscape(u: nat): (s: string)
    requires u < 0x10000
    ensures |s| == 6 && s[0] == '\\' && s[1] == 'u' && s[2..] == Hex4(u)
  {
    "\\u" + Hex4(u)
  }

  predicate Printable(c: char)
  {
    ' ' <= c <= '~'
  }

  /** How one character of a string appears inside the quotes. */
  function EscapeChar(c: char): (s: string)
    ensures 1 <= |s| && forall k | 0 <= k < |s| :: Printable(s[k])
    ensures c != ',' ==> ',' !in s
  {
    if c == '"' then "\\\""
    else if c == '\\' then "\\\\"
    else if c == '\n' then "\\n"
    else if c == '\r' then "\\r"
    else if c == '\t' then "\\t"
    else if c as int == 8 then "\\b"
    else if c as int == 12 then "\\f"
    else if Printable(c) then [c]
    else if c as int < 0x10000 then UnicodeEscape(c as int)
    else
      var m := c as int - 0x10000;
      UnicodeEscape(0xD800 + m / 0x400) + UnicodeEscape(0xDC00 + m % 0x400)
  }

  /** The characters of a string between the quotes of its JSON literal. */
  function EscapeString(s: string): (r: string)
    ensures forall k | 0 <= k < |r| :: Printable(r[k])
    ensures ',' !in s ==> ',' !in r
  {
    if s == [] then [] else EscapeChar(s[0]) + EscapeString(s[1..])
  }

  /** The characters that RFC 8259 lets follow a backslash, and what they stand for. */
  const ShortEscapes: map<char, char> :=
    map['"' := '"', '\\' := '\\', '/' := '/', 'b' := 8 as char, 'f' := 12 as char,
        'n' := '\n', 'r' := '\r', 't' := '\t']

  function Prepend(c: char, r: Option<string>): Option<string>
  {
    match r
    case None => None
    case Some(s) => Some([c] + s)
  }

  /** Undoes the escapes of a JSON string body; `None` for a malformed one. */
  function Unescape(t: string): Option<string>
    decreases |t|
  {
    if t == [] then Some([])
    else if t[0] != '\\' then Prepend(t[0], Unescape(t[1..]))
    else if |t| >= 2 && t[1] in ShortEscapes then Prepend(ShortEscapes[t[1]], Unescape(t[2..]))
    else if |t| >= 6 && t[1] == 'u' && AllHex(t[2..6]) then
      var hi := Hex4Value(t[2..6]);
      if hi < 0xD800 || 0xE000 <= hi then Prepend(hi as char, Unescape(t[6..]))
      else if hi < 0xDC00 && |t| >= 12 && t[6] == '\\' && t[7] == 'u' && AllHex(t[8..12])
              && 0xDC00 <= Hex4Value(t[8..12]) < 0xE000 then
        var lo := Hex4Value(t[8..12]);
        Prepend((0x10000 + (hi - 0xD800) * 0x400 + (lo - 0xDC00)) as char, Unescape(t[12..]))
      else None
    else None
  }

  predicate HasShortEscape(c: char)
  {
    c == '"' || c == '\\' || c == '\n' || c == '\r' || c == '\t' || c as int == 8 || c as int == 12
  }

  /** Unescaping the escape of one character gives that character back,
      whatever follows it. */
  lemma UnescapeChar(c: char, rest: string)
    ensures Unescape(EscapeChar(c) + rest) == Prepend(c, Unescape(rest))
  {
    if HasShortEscape(c) {
      UnescapeShort(c, rest);
    } else if Printable(c) {
      var t := EscapeChar(c) + rest;
      assert EscapeChar(c) == [c];
      assert t[0] == c && t[1..] == rest;
    } else if c as int < 0x10000 {
      assert EscapeChar(c) == UnicodeEscape(c as int);
      UnescapeBmp(c, rest);
    } else {
      UnescapePair(c, rest);
    }
  }

  lemma UnescapeShort(c: char, rest: string)
    requires HasShortEscape(c)
    ensures Unescape(EscapeChar(c) + rest) == Prepend(c, Unescape(rest))
  {
    var e := EscapeChar(c);
    var t := e + rest;
    assert |e| == 2 && e[0] == '\\' && e[1] in ShortEscapes && ShortEscapes[e[1]] == c;
    assert t[0] == e[0] && t[1] == e[1] && t[2..] == rest;
  }

  lemma UnescapeBmp(c: char, rest: string)
    requires c as int < 0x10000
    ensures Unescape(UnicodeEscape(c as int) + rest) == Prepend(c, Unescape(rest))
  {
    var u := c as int;
    var t := UnicodeEscape(u) + rest;
    assert t[0] == '\\' && t[1] == 'u' && t[1] !in ShortEscapes;
    assert t[2..6] == Hex4(u) && t[6..] == rest;
    Hex4RoundTrip(u);
  }

  lemma UnescapePair(c: char, rest: string)
    requires c as int >= 0x10000
    ensures Unescape(EscapeChar(c) + rest) == Prepend(c, Unescape(rest))
  {
    var m := c as int - 0x10000;
    var hi, lo := 0xD800 + m / 0x400, 0xDC00 + m % 0x400;
    SurrogateHalves(c);
    EscapeAstral(c);
    var t := EscapeChar(c) + rest;
    PairLayout(hi, lo, rest);
    assert t == UnicodeEscape(hi) + UnicodeEscape(lo) + rest;
    Hex4RoundTrip(hi);
    Hex4RoundTrip(lo);
    UnescapeSurrogates(t, hi, lo, c);
  }

  /** A character above U+FFFF is escaped as a surrogate pair. */
  lemma EscapeAstral(c: char)
    requires c as int >= 0x10000
    ensures var m := c as int - 0x10000;
      EscapeChar(c) == UnicodeEscape(0xD800 + m / 0x400) + UnicodeEscape(0xDC00 + m % 0x400)
  {
  }

  /** The two halves of a code point above U+FFFF, and how they recombine. */
  lemma SurrogateHalves(c: char)
    requires c as int >= 0x10000
    ensures var m := c as int - 0x10000;
      var hi, lo := 0xD800 + m / 0x400, 0xDC00 + m % 0x400;
      && 0xD800 <= hi < 0xDC00 && 0xDC00 <= lo < 0xE000
      && 0x10000 + (hi - 0xD800) * 0x400 + (lo - 0xDC00) == c as int
  {
  }

  /** Where the two escapes of a surrogate pair sit in front of the rest. */
  lemma PairLayout(hi: nat, lo: nat, rest: string)
    requires hi < 0x10000 && lo < 0x10000
    ensures var t := UnicodeEscape(hi) + UnicodeEscape(lo) + rest;
      && |t| >= 12 && t[0] == '\\' && t[1] == 'u' && t[6] == '\\' && t[7] == 'u'
      && t[2..6] == Hex4(hi) && t[8..12] == Hex4(lo) && t[12..] == rest
  {
    var t := UnicodeEscape(hi) + UnicodeEscape(lo) + rest;
    assert t[..6] == UnicodeEscape(hi) && t[6..12] == UnicodeEscape(lo);
  }

  /** A well-formed surrogate pair decodes to the character it encodes. */
  lemma UnescapeSurrogates(t: string, hi: nat, lo: nat, c: char)
    requires |t| >= 12 && t[0] == '\\' && t[1] == 'u' && t[6] == '\\' && t[7] == 'u'
    requires AllHex(t[2..6]) && Hex4Value(t[2..6]) == hi && 0xD800 <= hi < 0xDC00
    requires AllHex(t[8..12]) && Hex4Value(t[8..12]) == lo && 0xDC00 <= lo < 0xE000
    requires 0x10000 + (hi - 0xD800) * 0x400 + (lo - 0xDC00) == c as int
    ensures Unescape(t) == Prepend(c, Unescape(t[12..]))
  {
    assert t[1] !in ShortEscapes;
  }

  lemma {:induction false} UnescapeRoundTrip(s: string)
    ensures Unescape(EscapeString(s)) == Some(s)
  {
    if s != [] {
      UnescapeChar(s[0], EscapeString(s[1..]));
      UnescapeRoundTrip(s[1..]);
      assert [s[0]] + s[1..] == s;
    }
  }

  /** `json.dumps(v)` for a scalar of this model. */
  function Literal(v: Value): (t: string)
    ensures |t| >= 1 && forall k | 0 <= k < |t| :: Printable(t[k])
    ensures !v.Str? || ',' !in v.s ==> ',' !in t
  {
    match v
    case Int(i) => if i < 0 then "-" + Decimal(-i) else Decimal(i)
    case Bool(b) => if b then "true" else "false"
    case Null => "null"
    case Str(s) => "\"" + EscapeString(s) + "\""
  }

  /** Reads back a JSON literal of this model (`json.loads`); `None` for
      text that is not one. */
  function DecodeLiteral(t: string): Option<Value>
  {
    if t == "null" then Some(Null)
    else if t == "true" then Some(Bool(true))
    else if t == "false" then Some(Bool(false))
    else if |t| >= 2 && t[0] == '"' && t[|t| - 1] == '"' then
      match Unescape(t[1..|t| - 1])
      case None => None
      case Some(s) => Some(Str(s))
    else if |t| >= 2 && t[0] == '-' && AllDecimal(t[1..]) then Some(Int(0 - DecimalValue(t[1..])))
    else if |t| >= 1 && AllDecimal(t) then Some(Int(DecimalValue(t)))
    else None
  }

  /** Every literal the encoder writes reads back as the value it encodes. */
  lemma LiteralRoundTrip(v: Value)
    ensures DecodeLiteral(Literal(v)) == Some(v)
  {
    match v
    case Int(i) => IntLiteralRoundTrip(i);
    case Bool(b) =>
    case Null =>
    case Str(s) => StrLiteralRoundTrip(s);
  }

  lemma IntLiteralRoundTrip(i: int)
    ensures DecodeLiteral(Literal(Int(i))) == Some(Int(i))
  {
    var t := Literal(Int(i));
    assert t != "null" && t != "true" && t != "false" && t[0] != '"' by {
      assert IsDecimalDigit(t[0]) || t[0] == '-';
    }
    if i < 0 {
      assert t[0] == '-' && t[1..] == Decimal(-i);
      DecimalRoundTrip(-i);
    } else {
      assert t == Decimal(i);
      DecimalRoundTrip(i);
    }
  }

  lemma StrLiteralRoundTrip(s: string)
    ensures DecodeLiteral(Literal(Str(s))) == Some(Str(s))
  {
    var t := Literal(Str(s));
    assert t != "null" && t != "true" && t != "false" by {
      assert t[0] == '"';
    }
    assert t[0] == '"' && t[|t| - 1] == '"' && t[1..|t| - 1] == EscapeString(s);
    UnescapeRoundTrip(s);
  }
}
