/**
  `JSON.stringify` applied to a string, as the compiler patcher uses it to embed
  file paths and a regular expression's source in generated code and messages.
  Strings are sequences of Unicode scalar values, so the lone-surrogate escape of
  ECMAScript's QuoteJSONString never arises.
*/
module JsonString {
  import opened Wrappers

  const HexDigits: string := "0123456789abcdef"

  /** The escape sequence, or the character itself, that QuoteJSONString emits for `c`. */
  function EscapeChar(c: char): (r: string)
    ensures |r| >= 1
  {
    if c == '\"' then "\\\""
    else if c == '\\' then "\\\\"
    else if c == '\U{8}' then "\\b"
    else if c == '\t' then "\\t"
    else if c == '\n' then "\\n"
    else if c == '\U{C}' then "\\f"
    else if c == '\r' then "\\r"
    else if (c as int) < 0x20 then
      "\\u00" + [HexDigits[(c as int) / 16], HexDigits[(c as int) % 16]]
    else [c]
  }

  function EscapeAll(s: string): string {
    if s == [] then [] else EscapeChar(s[0]) + EscapeAll(s[1..])
  }

  /** `JSON.stringify(s)` for a string `s`. */
  function Quote(s: string): (r: string)
    ensures |r| >= 2 && r[0] == '\"' && r[|r| - 1] == '\"'
  {
    "\"" + EscapeAll(s) + "\""
  }

  /** The value of a lower-case or upper-case hexadecimal digit. */
  function HexValue(c: char): (r: Option<nat>)
    ensures r.Some? ==> r.value < 16
  {
    if '0' <= c <= '9' then Some(c as int - '0' as int)
    else if 'a' <= c <= 'f' then Some(c as int - 'a' as int + 10)
    else if 'A' <= c <= 'F' then Some(c as int - 'A' as int + 10)
    else None
  }

  /** The code unit written as four hexadecimal digits. */
  function HexCode(h: string): (r: Option<nat>)
    requires |h| == 4
    ensures r.Some? ==> r.value < 0x10000
  {
    match (HexValue(h[0]), HexValue(h[1]), HexValue(h[2]), HexValue(h[3]))
    case (Some(a), Some(b), Some(c), Some(d)) =>
      var hi := a * 16 + b;
      assert hi < 256;
      var mid := hi * 16 + c;
      assert mid < 4096;
      Some(mid * 16 + d)
    case _ => None
  }

  /** The characters of a JSON string literal's body, or None when it is not well formed. */
  function Unescape(t: string): Option<string>
    decreases |t|
  {
    if t == [] then Some([])
    else if t[0] == '\"' || (t[0] as int) < 0x20 then None
    else if t[0] != '\\' then
      match Unescape(t[1..])
      case Some(rest) => Some([t[0]] + rest)
      case None => None
    else if |t| < 2 then None
    else
      var e := t[1];
      var simple :=
        if e == '\"' then Some('\"')
        else if e == '\\' then Some('\\')
        else if e == '/' then Some('/')
        else if e == 'b' then Some('\U{8}')
        else if e == 't' then Some('\t')
        else if e == 'n' then Some('\n')
        else if e == 'f' then Some('\U{C}')
        else if e == 'r' then Some('\r')
        else None;
      if simple.Some? then
        match Unescape(t[2..])
        case Some(rest) => Some([simple.value] + rest)
        case None => None
      else if e == 'u' && |t| >= 6 then
        match HexCode(t[2..6])
        case Some(n) =>
          if n < 0xD800 || 0xE000 <= n then
            match Unescape(t[6..])
            case Some(rest) => Some([n as char] + rest)
            case None => None
          else None
        case None => None
      else None
  }

  /** `JSON.parse` restricted to string literals. */
  function Unquote(t: string): Option<string> {
    if |t| >= 2 && t[0] == '\"' && t[|t| - 1] == '\"' then Unescape(t[1..|t| - 1]) else None
  }

  lemma HexDigitsDecode(n: nat)
    requires n < 16
    ensures HexValue(HexDigits[n]) == Some(n)
  {
  }

  /** A character QuoteJSONString writes with a two-character escape. */
  predicate HasShortEscape(c: char) {
    c == '\"' || c == '\\' || c == '\U{8}' || c == '\t' || c == '\n' || c == '\U{C}' || c == '\r'
  }

  lemma EscapeCharDecodes(c: char, rest: string)
    ensures Unescape(EscapeChar(c) + rest) ==
      match Unescape(rest)
      case Some(r) => Some([c] + r)
      case None => None
  {
    if HasShortEscape(c) {
      ShortEscapeDecodes(c, rest);
    } else if (c as int) < 0x20 {
      UnicodeEscapeDecodes(c, rest);
    } else {
      assert (EscapeChar(c) + rest)[1..] == rest;
    }
  }

  lemma ShortEscapeDecodes(c: char, rest: string)
    requires HasShortEscape(c)
    ensures Unescape(EscapeChar(c) + rest) ==
      match Unescape(rest)
      case Some(r) => Some([c] + r)
      case None => None
  {
    assert (EscapeChar(c) + rest)[2..] == rest;
  }

  lemma UnicodeEscapeDecodes(c: char, rest: string)
    requires !HasShortEscape(c) && (c as int) < 0x20
    ensures Unescape(EscapeChar(c) + rest) ==
      match Unescape(rest)
      case Some(r) => Some([c] + r)
      case None => None
  {
    var t := EscapeChar(c) + rest;
    var n := c as int;
    HexDigitsDecode(n / 16);
    HexDigitsDecode(n % 16);
    assert t[2..6] == ['0', '0', HexDigits[n / 16], HexDigits[n % 16]];
    assert HexCode(t[2..6]) == Some(n);
    assert t[6..] == rest;
  }

  lemma {:induction false} EscapeAllDecodes(s: string)
    ensures Unescape(EscapeAll(s)) == Some(s)
  {
    if s != [] {
      EscapeAllDecodes(s[1..]);
      EscapeCharDecodes(s[0], EscapeAll(s[1..]));
      assert [s[0]] + s[1..] == s;
    }
  }

  /** `JSON.parse(JSON.stringify(s)) === s`: the embedded literal denotes exactly `s`. */
  lemma {:induction false} QuoteRoundTrip(s: string)
    ensures Unquote(Quote(s)) == Some(s)
  {
    var q := Quote(s);
    assert q[1..|q| - 1] == EscapeAll(s);
    EscapeAllDecodes(s);
  }
}
