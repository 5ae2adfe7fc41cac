/** The compact JSON text that `JSON.stringify` writes for strings, arrays of strings and
    flat objects of strings, and `JSON.parse`'s reading of that layout. */
module Json {
  import opened Wrappers

  function HexDigit(n: nat): (c: char)
    requires n < 16
  {
    if n < 10 then ('0' as int + n) as char else ('a' as int + n - 10) as char
  }

  function HexValue(c: char): (r: Option<nat>)
    ensures r.Some? ==> r.value < 16
  {
    if '0' <= c <= '9' then Some(c as int - '0' as int)
    else if 'a' <= c <= 'f' then Some(c as int - 'a' as int + 10)
    else if 'A' <= c <= 'F' then Some(c as int - 'A' as int + 10)
    else None
  }

  /** The letter `JSON.stringify` writes after a backslash for the characters it escapes in short form. */
  function ShortEscape(c: char): Option<char> {
    if c == '"' then Some('"')
    else if c == '\\' then Some('\\')
    else if c == 8 as char then Some('b')
    else if c == '\t' then Some('t')
    else if c == '\n' then Some('n')
    else if c == 12 as char then Some('f')
    else if c == '\r' then Some('r')
    else None
  }

  /** The character `JSON.parse` reads for a backslash followed by `e` (other than `\u`). */
  function UnescapeLetter(e: char): Option<char> {
    if e == '"' then Some('"')
    else if e == '\\' then Some('\\')
    else if e == '/' then Some('/')
    else if e == 'b' then Some(8 as char)
    else if e == 't' then Some('\t')
    else if e == 'n' then Some('\n')
    else if e == 'f' then Some(12 as char)
    else if e == 'r' then Some('\r')
    else None
  }

  /** How `JSON.stringify` writes one character inside a string literal: a short escape,
      `\u00xx` for the other control characters, the character itself otherwise. */
  function EscapeChar(c: char): string {
    match ShortEscape(c)
    case Some(e) => ['\\', e]
    case None =>
      if (c as int) < 0x20 then ['\\', 'u', '0', '0', HexDigit(c as int / 16), HexDigit(c as int % 16)]
      else [c]
  }

  function EscapeBody(s: string): string {
    if s == [] then [] else EscapeChar(s[0]) + EscapeBody(s[1..])
  }

  /** `JSON.stringify(s)` for a string `s`. */
  function Quote(s: string): string {
    "\"" + EscapeBody(s) + "\""
  }

  /** Reads one escape sequence after a backslash: the character and how many characters it took. */
  function Unescape(t: string): (r: Option<(char, nat)>)
    ensures r.Some? ==> 1 <= r.value.1 <= |t|
  {
    if t == [] then None
    else if t[0] == 'u' then
      if |t| < 5 then None
      else
        match (HexValue(t[1]), HexValue(t[2]), HexValue(t[3]), HexValue(t[4]))
        case (Some(a), Some(b), Some(c), Some(d)) =>
          var v := ((a * 16 + b) * 16 + c) * 16 + d;
          if 0xD800 <= v < 0xE000 then None else Some((v as char, 5))
        case _ => None
    else
      match UnescapeLetter(t[0])
      case Some(c) => Some((c, 1))
      case None => None
  }

  /** Reads the inside of a string literal up to its closing quote: the string and the text after the quote.
      An unescaped control character or a missing closing quote is a syntax error. */
  function ParseBody(s: string): (r: Option<(string, string)>)
    ensures r.Some? ==> |r.value.1| < |s|
    decreases |s|
  {
    if s == [] then None
    else if s[0] == '"' then Some(([], s[1..]))
    else if s[0] == '\\' then
      match Unescape(s[1..])
      case None => None
      case Some(p) =>
        match ParseBody(s[1 + p.1..])
        case None => None
        case Some(q) => Some(([p.0] + q.0, q.1))
    else if (s[0] as int) < 0x20 then None
    else
      match ParseBody(s[1..])
      case None => None
      case Some(q) => Some(([s[0]] + q.0, q.1))
  }

  /** Reads a string literal at the start of `s`: the string and the text after it. */
  function ParseString(s: string): (r: Option<(string, string)>)
    ensures r.Some? ==> |r.value.1| < |s|
  {
    if |s| > 0 && s[0] == '"' then ParseBody(s[1..]) else None
  }

  /** A `\u00XX` escape of a control character reads back as that character and takes five characters. */
  lemma UnescapeControl(c: char, t: string)
    requires (c as int) < 0x20
    ensures Unescape(['u', '0', '0', HexDigit(c as int / 16), HexDigit(c as int % 16)] + t) == Some((c, 5))
  {
    var hi, lo := c as int / 16, c as int % 16;
    var u := ['u', '0', '0', HexDigit(hi), HexDigit(lo)] + t;
    assert u[0] == 'u' && u[1] == '0' && u[2] == '0' && u[3] == HexDigit(hi) && u[4] == HexDigit(lo);
    assert HexValue('0') == Some(0);
    assert HexValue(HexDigit(hi)) == Some(hi);
    assert HexValue(HexDigit(lo)) == Some(lo);
    assert ((0 * 16 + 0) * 16 + hi) * 16 + lo == c as int;
  }

  /** Reading one escaped character gives that character back, whatever follows. */
  lemma ParseEscapedChar(c: char, t: string)
    ensures ParseBody(EscapeChar(c) + t) ==
            match ParseBody(t)
            case None => None
            case Some(q) => Some(([c] + q.0, q.1))
  {
    var s := EscapeChar(c) + t;
    match ShortEscape(c)
    case Some(e) =>
      assert s == ['\\', e] + t;
      assert s[1..] == [e] + t;
      assert Unescape(s[1..]) == Some((c, 1));
      assert s[2..] == t;
    case None =>
      if (c as int) < 0x20 {
        var u := ['u', '0', '0', HexDigit(c as int / 16), HexDigit(c as int % 16)] + t;
        assert s == ['\\'] + u;
        assert s[1..] == u;
        UnescapeControl(c, t);
        assert s[6..] == t;
      } else {
        assert s == [c] + t;
        assert s[1..] == t;
      }
  }

  lemma {:induction false} ParseBodyOfEscaped(x: string, rest: string)
    ensures ParseBody(EscapeBody(x) + "\"" + rest) == Some((x, rest))
  {
    if x == [] {
      assert EscapeBody(x) + "\"" + rest == "\"" + rest;
    } else {
      var t := EscapeBody(x[1..]) + "\"" + rest;
      assert EscapeBody(x) + "\"" + rest == EscapeChar(x[0]) + t;
      ParseBodyOfEscaped(x[1..], rest);
      ParseEscapedChar(x[0], t);
      assert [x[0]] + x[1..] == x;
    }
  }

  /** `JSON.parse` reads back exactly the string `JSON.stringify` wrote, leaving what follows it. */
  lemma ParseQuoted(x: string, rest: string)
    ensures ParseString(Quote(x) + rest) == Some((x, rest))
  {
    var s := Quote(x) + rest;
    assert s[1..] == EscapeBody(x) + "\"" + rest;
    ParseBodyOfEscaped(x, rest);
  }

  /** The elements of a string array as `JSON.stringify` writes them, comma-separated. */
  function Elements(xs: seq<string>): string {
    if xs == [] then ""
    else if |xs| == 1 then Quote(xs[0])
    else Quote(xs[0]) + "," + Elements(xs[1..])
  }

  /** `JSON.stringify(xs)` for an array of strings. */
  function StringifyArray(xs: seq<string>): string {
    "[" + Elements(xs) + "]"
  }

  /** Reads one or more comma-separated string literals and the closing bracket, which must end the text. */
  function ParseElements(s: string): Option<seq<string>>
    decreases |s|
  {
    match ParseString(s)
    case None => None
    case Some(q) =>
      if q.1 == "]" then Some([q.0])
      else if |q.1| > 0 && q.1[0] == ',' then
        match ParseElements(q.1[1..])
        case None => None
        case Some(more) => Some([q.0] + more)
      else None
  }

  /** `JSON.parse` of an array of strings in the compact layout; `None` for any other text. */
  function ParseArray(s: string): Option<seq<string>> {
    if |s| >= 2 && s[0] == '[' && s[1] == ']' then
      (if |s| == 2 then Some([]) else None)
    else if |s| >= 1 && s[0] == '[' then ParseElements(s[1..])
    else None
  }

  /** A literal followed by a comma: the rest is read as further elements. */
  lemma ParseElementsCons(x: string, t: string)
    ensures ParseElements(Quote(x) + "," + t) ==
              match ParseElements(t)
              case None => None
              case Some(more) => Some([x] + more)
  {
    assert Quote(x) + "," + t == Quote(x) + ("," + t);
    ParseQuoted(x, "," + t);
    assert ("," + t)[0] == ',' && ("," + t)[1..] == t;
  }

  lemma {:induction false} ParseElementsRoundTrip(xs: seq<string>)
    requires xs != []
    ensures ParseElements(Elements(xs) + "]") == Some(xs)
  {
    if |xs| == 1 {
      ParseQuoted(xs[0], "]");
      assert Elements(xs) + "]" == Quote(xs[0]) + "]";
      assert xs == [xs[0]];
    } else {
      var tail := Elements(xs[1..]) + "]";
      var head := Quote(xs[0]) + ",";
      assert Elements(xs) == head + Elements(xs[1..]);
      assert Elements(xs) + "]" == head + tail;
      ParseElementsCons(xs[0], tail);
      ParseElementsRoundTrip(xs[1..]);
      assert ParseElements(head + tail) == Some([xs[0]] + xs[1..]);
      assert [xs[0]] + xs[1..] == xs;
    }
  }

  /** Parsing what `JSON.stringify` wrote for a string array gives the array back. */
  lemma ArrayRoundTrip(xs: seq<string>)
    ensures ParseArray(StringifyArray(xs)) == Some(xs)
  {
    var s := StringifyArray(xs);
    if xs == [] {
      assert s == "[]";
    } else {
      assert Quote(xs[0])[0] == '"';
      assert Elements(xs) == Quote(xs[0]) || Elements(xs) == Quote(xs[0]) + "," + Elements(xs[1..]);
      assert s[1] == '"';
      assert s[1..] == Elements(xs) + "]";
      ParseElementsRoundTrip(xs);
    }
  }

  /** Drops the literal `lit` from the start of `s`, if it is there. */
  function Strip(lit: string, s: string): (r: Option<string>)
    ensures r.Some? ==> s == lit + r.value
  {
    if |lit| <= |s| && s[..|lit|] == lit then Some(s[|lit|..]) else None
  }

  lemma StripPrefix(lit: string, t: string)
    ensures Strip(lit, lit + t) == Some(t)
  {
    assert (lit + t)[..|lit|] == lit;
    assert (lit + t)[|lit|..] == t;
  }
}
