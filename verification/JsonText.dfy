/**
 The part of Go's encoding/json that the audit hash preimage uses: string
 literals with HTML escaping on (the default of json.Marshal), and objects whose
 members are all strings. The decoder follows section 7 of RFC 8259, without
 surrogate pairs, which the encoder never writes.
 */
module JsonText {
  import opened Base

  const HEX := "0123456789abcdef"

  function HexDigit(n: nat): (c: char)
    requires n < 16
  {
    HEX[n]
  }

  function HexValue(c: char): (n: Option<nat>)
    ensures n.Some? ==> n.value < 16
  {
    if '0' <= c <= '9' then Some(c as int - '0' as int)
    else if 'a' <= c <= 'f' then Some(c as int - 'a' as int + 10)
    else if 'A' <= c <= 'F' then Some(c as int - 'A' as int + 10)
    else None
  }

  /** Four lower-case hexadecimal digits, most significant first. */
  function Hex4(n: nat): (s: string)
    requires n < 0x10000
  {
    [HexDigit(n / 4096), HexDigit(n / 256 % 16), HexDigit(n / 16 % 16), HexDigit(n % 16)]
  }

  /** Characters written as \uXXXX: the other controls, the HTML-sensitive ones and the two line separators. */
  predicate EscapedByCode(c: char) {
    c < ' ' || c in "<>&" || c == '\U{2028}' || c == '\U{2029}'
  }

  function EscapeChar(c: char): (s: string) {
    if c == '\"' then "\\\""
    else if c == '\\' then "\\\\"
    else if c == '\U{08}' then "\\b"
    else if c == '\U{0C}' then "\\f"
    else if c == '\n' then "\\n"
    else if c == '\r' then "\\r"
    else if c == '\t' then "\\t"
    else if EscapedByCode(c) then "\\u" + Hex4(c as int)
    else [c]
  }

  /** The body of a string literal, without its quotes. */
  function EscapeString(s: string): string {
    if s == [] then [] else EscapeChar(s[0]) + EscapeString(s[1..])
  }

  /** The character a two-character escape stands for. */
  function ShortEscape(c: char): Option<char> {
    match c
    case '\"' => Some('\"')
    case '\\' => Some('\\')
    case '/' => Some('/')
    case 'b' => Some('\U{08}')
    case 'f' => Some('\U{0C}')
    case 'n' => Some('\n')
    case 'r' => Some('\r')
    case 't' => Some('\t')
    case _ => None
  }

  function DecodeHex4(s: string): Option<char>
    requires |s| >= 4
  {
    match (HexValue(s[0]), HexValue(s[1]), HexValue(s[2]), HexValue(s[3]))
    case (Some(a), Some(b), Some(c), Some(d)) =>
      var n := a * 4096 + b * 256 + c * 16 + d;
      if n < 0xD800 || 0xE000 <= n then Some(n as char) else None
    case _ => None
  }

  /** Reads one character of a string literal: the character and the text after it. */
  function DecodeChar(s: string): (r: Option<(char, string)>)
    requires s != [] && s[0] != '\"'
    ensures r.Some? ==> |r.value.1| < |s|
  {
    if s[0] != '\\' then (if s[0] < ' ' then None else Some((s[0], s[1..])))
    else if |s| < 2 then None
    else if s[1] == 'u' then
      if |s| < 6 then None
      else match DecodeHex4(s[2..6]) case Some(c) => Some((c, s[6..])) case None => None
    else match ShortEscape(s[1]) case Some(c) => Some((c, s[2..])) case None => None
  }

  /** Reads the rest of a string literal up to its closing quote: the value and the text after the quote. */
  function DecodeString(s: string): (r: Option<(string, string)>)
    decreases |s|
  {
    if s == [] then None
    else if s[0] == '\"' then Some(("", s[1..]))
    else match DecodeChar(s)
      case None => None
      case Some((c, rest)) => Prepend(c, DecodeString(rest))
  }

  function Prepend(c: char, r: Option<(string, string)>): Option<(string, string)> {
    match r
    case None => None
    case Some((tail, after)) => Some(([c] + tail, after))
  }

  lemma HexDigitReads(n: nat)
    requires n < 16
    ensures HexValue(HexDigit(n)) == Some(n)
  {
  }

  lemma Hex4Reads(c: char)
    requires EscapedByCode(c)
    ensures DecodeHex4(Hex4(c as int)) == Some(c)
  {
    var n := c as int;
    HexDigitReads(n / 4096);
    HexDigitReads(n / 256 % 16);
    HexDigitReads(n / 16 % 16);
    HexDigitReads(n % 16);
    HexSplits(n);
  }

  lemma HexSplits(n: nat)
    requires n < 65536
    ensures n / 4096 < 16 && n / 4096 * 4096 + n / 256 % 16 * 256 + n / 16 % 16 * 16 + n % 16 == n
  {
    assert n / 4096 == n / 256 / 16 && n / 256 == n / 16 / 16;
  }

  /** No encoded character starts with the closing quote, and each reads back as itself. */
  lemma EscapedCharReads(c: char, rest: string)
    ensures EscapeChar(c) != [] && EscapeChar(c)[0] != '\"'
    ensures DecodeChar(EscapeChar(c) + rest) == Some((c, rest))
  {
    var code := EscapeChar(c);
    var s := code + rest;
    assert s[|code|..] == rest;
    if code[0] == '\\' && code[1] == 'u' {
      assert s[2..6] == Hex4(c as int);
      Hex4Reads(c);
    }
  }

  /** An encoded character is read before whatever follows it. */
  lemma EscapedCharThen(c: char, tail: string)
    ensures DecodeString(EscapeChar(c) + tail) == Prepend(c, DecodeString(tail))
  {
    EscapedCharReads(c, tail);
  }

  lemma LiteralParts(s: string, rest: string)
    ensures s == "" ==> EscapeString(s) + "\"" + rest == "\"" + rest
    ensures s != "" ==> EscapeString(s) + "\"" + rest == EscapeChar(s[0]) + (EscapeString(s[1..]) + "\"" + rest)
    ensures s != "" ==> [s[0]] + s[1..] == s
  {
  }

  /** A string literal reads back as the string it encodes, wherever it stands in a text. */
  lemma {:induction false} StringRoundTrip(s: string, rest: string)
    ensures DecodeString(EscapeString(s) + "\"" + rest) == Some((s, rest))
  {
    LiteralParts(s, rest);
    if s != "" {
      EscapedCharThen(s[0], EscapeString(s[1..]) + "\"" + rest);
      StringRoundTrip(s[1..], rest);
    }
  }

  // ---- What the encoder writes ------------------------------------------------------

  /** Characters that a literal shows as they are. */
  predicate Shown(c: char) {
    c >= ' ' && c != '\"' && c != '\\' && c !in "<>&" && c != '\U{2028}' && c != '\U{2029}'
  }

  /** What stands for a character in a literal: itself, one of seven short escapes, or its code in four lower-case hex digits. */
  ghost predicate IsEscape(c: char, code: string) {
    if Shown(c) then code == [c]
    else if c == '\"' then code == "\\\""
    else if c == '\\' then code == "\\\\"
    else if c == '\U{08}' then code == "\\b"
    else if c == '\U{0C}' then code == "\\f"
    else if c == '\n' then code == "\\n"
    else if c == '\r' then code == "\\r"
    else if c == '\t' then code == "\\t"
    else exists a, b, x, y :: code == ['\\', 'u', a, b, x, y] && IsCode(c, a, b, x, y)
  }

  predicate IsCode(c: char, a: char, b: char, x: char, y: char) {
    && a in "0123456789abcdef" && b in "0123456789abcdef" && x in "0123456789abcdef" && y in "0123456789abcdef"
    && DecodeHex4([a, b, x, y]) == Some(c)
  }

  lemma CodeIsHex(n: nat)
    requires n < 0x10000
    ensures var h := Hex4(n); |h| == 4 && forall i :: 0 <= i < 4 ==> h[i] in "0123456789abcdef"
  {
    forall d: nat | d < 16 ensures HexDigit(d) in "0123456789abcdef" {
    }
  }

  lemma CodeEscape(c: char)
    requires EscapedByCode(c)
    ensures exists a, b, x, y :: "\\u" + Hex4(c as int) == ['\\', 'u', a, b, x, y] && IsCode(c, a, b, x, y)
  {
    var h := Hex4(c as int);
    Hex4Reads(c);
    CodeIsHex(c as int);
    assert "\\u" + h == ['\\', 'u', h[0], h[1], h[2], h[3]];
    assert IsCode(c, h[0], h[1], h[2], h[3]);
  }

  lemma ShownIffPlain(c: char)
    ensures Shown(c) <==> c != '\"' && c != '\\' && !EscapedByCode(c)
  {
  }

  /** Every character of a literal is written as Go writes it. */
  lemma CharIsEscaped(c: char)
    ensures IsEscape(c, EscapeChar(c))
  {
    ShownIffPlain(c);
    if EscapedByCode(c) {
      CodeEscape(c);
    }
  }

  /** What precedes the value of an object member after the first: comma, key, colon, opening quote. */
  function Intro(key: string): string {
    ",\"" + key + "\":\""
  }

  function Members(keys: seq<string>, values: seq<string>): string
    requires |keys| == |values|
  {
    if keys == [] then [] else Intro(keys[0]) + (EscapeString(values[0]) + "\"" + Members(keys[1..], values[1..]))
  }

  /** Reads the given keys in order: their values and the text after the last one. */
  function DecodeMembers(keys: seq<string>, s: string): Option<(seq<string>, string)> {
    if keys == [] then Some(([], s))
    else if !(Intro(keys[0]) <= s) then None
    else match DecodeString(s[|Intro(keys[0])|..])
      case None => None
      case Some((value, rest)) =>
        match DecodeMembers(keys[1..], rest)
        case None => None
        case Some((values, after)) => Some(([value] + values, after))
  }

  lemma SplitPrefix(a: string, b: string)
    ensures a <= a + b && (a + b)[|a|..] == b
  {
  }

  /** The members of an object read back as the values written, so two different value lists never share a text. */
  lemma {:induction false} MembersRoundTrip(keys: seq<string>, values: seq<string>, rest: string)
    requires |keys| == |values|
    ensures DecodeMembers(keys, Members(keys, values) + rest) == Some((values, rest))
  {
    if keys == [] {
      assert Members(keys, values) + rest == rest;
    } else {
      var members := Members(keys[1..], values[1..]);
      var tail := members + rest;
      var literal := EscapeString(values[0]) + "\"" + tail;
      assert Members(keys, values) + rest == Intro(keys[0]) + literal;
      SplitPrefix(Intro(keys[0]), literal);
      StringRoundTrip(values[0], tail);
      MembersRoundTrip(keys[1..], values[1..], rest);
      assert [values[0]] + values[1..] == values;
    }
  }
}
