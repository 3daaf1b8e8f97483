/**
 * The JSON text of an array of strings: what `JSON.stringify` writes for a
 * `string[]`, and what `JSON.parse` reads back when the text is such an array.
 */
module Json {
  import opened Wrappers

  /** A lower-case hexadecimal digit, as JSON.stringify writes them in `\u00XX`. */
  function HexDigit(d: nat): char
    requires d < 16
  {
    if d < 10 then ('0' as int + d) as char else ('a' as int + d - 10) as char
  }

  /** The value of a hexadecimal digit of either case. */
  function HexValue(c: char): (r: Option<nat>)
    ensures r.Some? ==> r.value < 16
  {
    if '0' <= c <= '9' then Some(c as int - '0' as int)
    else if 'a' <= c <= 'f' then Some(c as int - 'a' as int + 10)
    else if 'A' <= c <= 'F' then Some(c as int - 'A' as int + 10)
    else None
  }

  /** The code unit written by the four digits of a `\uXXXX` escape. */
  function Hex4Value(h: string): (r: Option<nat>)
    requires |h| == 4
    ensures r.Some? ==> r.value < 0x1_0000
  {
    var a :- HexValue(h[0]);
    var b :- HexValue(h[1]);
    var c :- HexValue(h[2]);
    var d :- HexValue(h[3]);
    Some(((a * 16 + b) * 16 + c) * 16 + d)
  }

  /** How JSON.stringify writes one character inside a string literal. */
  function EscapeChar(c: char): string
  {
    if c == '"' then "\\\""
    else if c == '\\' then "\\\\"
    else if c == '\U{8}' then "\\b"
    else if c == '\U{C}' then "\\f"
    else if c == '\n' then "\\n"
    else if c == '\r' then "\\r"
    else if c == '\t' then "\\t"
    else if c < ' ' then "\\u00" + [HexDigit(c as int / 16), HexDigit(c as int % 16)]
    else [c]
  }

  function EscapeBody(s: string): string
    decreases |s|
  {
    if s == [] then "" else EscapeChar(s[0]) + EscapeBody(s[1..])
  }

  /** `JSON.stringify(s)` for a string. */
  function Quote(s: string): string
  {
    "\"" + EscapeBody(s) + "\""
  }

  /** The quoted elements, separated by commas. */
  function Items(xs: seq<string>): string
    decreases |xs|
  {
    if xs == [] then ""
    else if |xs| == 1 then Quote(xs[0])
    else Quote(xs[0]) + "," + Items(xs[1..])
  }

  /** `JSON.stringify(xs)` for an array of strings (no white space is written). */
  function Stringify(xs: seq<string>): string
  {
    "[" + Items(xs) + "]"
  }

  /** The character a two-character escape `\e` stands for. */
  function Unescape(e: char): Option<char>
  {
    if e == '"' then Some('"')
    else if e == '\\' then Some('\\')
    else if e == '/' then Some('/')
    else if e == 'b' then Some('\U{8}')
    else if e == 'f' then Some('\U{C}')
    else if e == 'n' then Some('\n')
    else if e == 'r' then Some('\r')
    else if e == 't' then Some('\t')
    else None
  }

  predicate IsJsonSpace(c: char)
  {
    c == ' ' || c == '\t' || c == '\n' || c == '\r'
  }

  /** Skips the white space JSON allows between tokens. */
  function SkipWs(s: string): (r: string)
    ensures |r| <= |s| && r == s[|s| - |r|..]
    decreases |s|
  {
    if s != [] && IsJsonSpace(s[0]) then SkipWs(s[1..]) else s
  }

  function Prepend(c: char, r: Option<(string, string)>): Option<(string, string)>
  {
    match r
    case None => None
    case Some((body, rest)) => Some(([c] + body, rest))
  }

  /**
   * Reads the rest of a string literal whose opening quote is already
   * consumed: the decoded characters and the text after the closing quote.
   * A raw control character, an unknown escape, or an escaped surrogate
   * half is a syntax error.
   */
  function ParseStringBody(s: string): (r: Option<(string, string)>)
    ensures r.Some? ==> |r.value.1| < |s|
    decreases |s|
  {
    if s == [] then None
    else if s[0] == '"' then Some(("", s[1..]))
    else if s[0] == '\\' then
      if |s| < 2 then None
      else if s[1] == 'u' then
        if |s| < 6 then None
        else match Hex4Value(s[2..6])
          case None => None
          case Some(v) =>
            if 0xD800 <= v < 0xE000 then None
            else Prepend(v as char, ParseStringBody(s[6..]))
      else match Unescape(s[1])
        case None => None
        case Some(c) => Prepend(c, ParseStringBody(s[2..]))
    else if s[0] < ' ' then None
    else Prepend(s[0], ParseStringBody(s[1..]))
  }

  /**
   * Reads `value (, value)* ]` where every value is a string literal,
   * starting at the first value (white space before it already skipped);
   * returns the strings and the text after the closing bracket.
   */
  function ParseItems(s: string): Option<(seq<string>, string)>
    decreases |s|
  {
    if s == [] || s[0] != '"' then None
    else match ParseStringBody(s[1..])
      case None => None
      case Some((x, rest)) =>
        var t := SkipWs(rest);
        if t == [] then None
        else if t[0] == ']' then Some(([x], t[1..]))
        else if t[0] == ',' then ConsItem(x, ParseItems(SkipWs(t[1..])))
        else None
  }

  function ConsItem(x: string, r: Option<(seq<string>, string)>): Option<(seq<string>, string)>
  {
    match r
    case None => None
    case Some((ys, after)) => Some(([x] + ys, after))
  }

  /**
   * `JSON.parse(s)` when the result is an array of strings; `None` for a
   * syntax error (where JSON.parse throws) and for any other JSON value.
   */
  function ParseStringArray(s: string): Option<seq<string>>
  {
    var t := SkipWs(s);
    if t == [] || t[0] != '[' then None
    else
      var u := SkipWs(t[1..]);
      if u != [] && u[0] == ']' then
        if SkipWs(u[1..]) == [] then Some([]) else None
      else Finish(ParseItems(u))
  }

  /** Only white space may follow the closing bracket of the top-level array. */
  function Finish(r: Option<(seq<string>, string)>): Option<seq<string>>
  {
    match r
    case None => None
    case Some((xs, after)) => if SkipWs(after) == [] then Some(xs) else None
  }

  lemma HexRoundTrip(c: char)
    requires c < ' '
    ensures Hex4Value(['0', '0', HexDigit(c as int / 16), HexDigit(c as int % 16)]) == Some(c as int)
  {
  }

  lemma PlainStep(c: char, tail: string)
    requires c >= ' ' && c != '"' && c != '\\'
    ensures ParseStringBody([c] + tail) == Prepend(c, ParseStringBody(tail))
  {
    assert ([c] + tail)[1..] == tail;
  }

  lemma TwoCharEscapeStep(e: char, c: char, tail: string)
    requires e != 'u' && Unescape(e) == Some(c)
    ensures ParseStringBody(['\\', e] + tail) == Prepend(c, ParseStringBody(tail))
  {
    assert (['\\', e] + tail)[2..] == tail;
  }

  lemma UnicodeEscapeStep(c: char, tail: string)
    requires c < ' ' && c != '\U{8}' && c != '\U{C}' && c != '\n' && c != '\r' && c != '\t'
    ensures ParseStringBody(EscapeChar(c) + tail) == Prepend(c, ParseStringBody(tail))
  {
    var s := EscapeChar(c) + tail;
    assert EscapeChar(c) == "\\u00" + [HexDigit(c as int / 16), HexDigit(c as int % 16)];
    HexRoundTrip(c);
    assert s[2..6] == ['0', '0', HexDigit(c as int / 16), HexDigit(c as int % 16)];
    assert s[6..] == tail;
  }

  /** Reading one escaped character back gives that character, then continues after it. */
  lemma EscapeCharStep(c: char, tail: string)
    ensures ParseStringBody(EscapeChar(c) + tail) == Prepend(c, ParseStringBody(tail))
  {
    if c == '"' {
      TwoCharEscapeStep('"', c, tail);
    } else if c == '\\' {
      TwoCharEscapeStep('\\', c, tail);
    } else if c == '\U{8}' {
      TwoCharEscapeStep('b', c, tail);
    } else if c == '\U{C}' {
      TwoCharEscapeStep('f', c, tail);
    } else if c == '\n' {
      TwoCharEscapeStep('n', c, tail);
    } else if c == '\r' {
      TwoCharEscapeStep('r', c, tail);
    } else if c == '\t' {
      TwoCharEscapeStep('t', c, tail);
    } else if c < ' ' {
      UnicodeEscapeStep(c, tail);
    } else {
      PlainStep(c, tail);
    }
  }

  /** Reading back an escaped string body stops at its closing quote and returns the string. */
  lemma {:induction false} StringBodyRoundTrip(x: string, rest: string)
    ensures ParseStringBody(EscapeBody(x) + "\"" + rest) == Some((x, rest))
    decreases |x|
  {
    if x == [] {
      assert EscapeBody(x) + "\"" + rest == "\"" + rest;
    } else {
      var tail := EscapeBody(x[1..]) + "\"" + rest;
      StringBodyRoundTrip(x[1..], rest);
      assert EscapeBody(x) + "\"" + rest == EscapeChar(x[0]) + tail;
      EscapeCharStep(x[0], tail);
      assert x == [x[0]] + x[1..];
    }
  }

  lemma ItemsStart(xs: seq<string>)
    requires xs != []
    ensures Items(xs) != [] && Items(xs)[0] == '"'
  {
  }

  /** After a string literal and a closing bracket, the items end with that literal. */
  lemma ItemsAfterBracket(s: string, x: string, rest: string)
    requires s != [] && s[0] == '"' && ParseStringBody(s[1..]) == Some((x, [']'] + rest))
    ensures ParseItems(s) == Some(([x], rest))
  {
    var t := [']'] + rest;
    assert t[0] == ']' && !IsJsonSpace(t[0]);
    assert SkipWs(t) == t;
    assert t[1..] == rest;
  }

  lemma LastItemStep(x: string, rest: string)
    ensures ParseItems(Quote(x) + "]" + rest) == Some(([x], rest))
  {
    var s := Quote(x) + "]" + rest;
    var t := "]" + rest;
    StringBodyRoundTrip(x, t);
    var body := EscapeBody(x) + "\"" + t;
    assert s == ['"'] + body;
    ItemsAfterBracket(s, x, rest);
  }

  /** After a string literal and a comma, the items continue with what follows the comma. */
  lemma ItemsAfterComma(s: string, x: string, more: string)
    requires s != [] && s[0] == '"' && ParseStringBody(s[1..]) == Some((x, [','] + more))
    requires more != [] && !IsJsonSpace(more[0])
    ensures ParseItems(s) == ConsItem(x, ParseItems(more))
  {
    var t := [','] + more;
    assert t[0] == ',' && !IsJsonSpace(t[0]);
    assert SkipWs(t) == t;
    assert t[1..] == more;
    assert SkipWs(more) == more;
  }

  lemma NextItemStep(x: string, more: string)
    requires more != [] && more[0] == '"'
    ensures ParseItems(Quote(x) + "," + more) == ConsItem(x, ParseItems(more))
  {
    var s := Quote(x) + "," + more;
    var t := "," + more;
    StringBodyRoundTrip(x, t);
    var body := EscapeBody(x) + "\"" + t;
    assert s == ['"'] + body;
    ItemsAfterComma(s, x, more);
  }

  /** Reading back the comma-separated items stops at the closing bracket and returns them. */
  lemma {:induction false} ItemsRoundTrip(xs: seq<string>, rest: string)
    requires xs != []
    ensures ParseItems(Items(xs) + "]" + rest) == Some((xs, rest))
    decreases |xs|
  {
    if |xs| == 1 {
      assert Items(xs) == Quote(xs[0]) && [xs[0]] == xs;
      LastItemStep(xs[0], rest);
    } else {
      var more := Items(xs[1..]) + "]" + rest;
      ItemsStart(xs[1..]);
      assert Items(xs) + "]" + rest == Quote(xs[0]) + "," + more;
      calc {
        ParseItems(Items(xs) + "]" + rest);
        ParseItems(Quote(xs[0]) + "," + more);
        { NextItemStep(xs[0], more); }
        ConsItem(xs[0], ParseItems(more));
        { ItemsRoundTrip(xs[1..], rest); }
        ConsItem(xs[0], Some((xs[1..], rest)));
        { assert [xs[0]] + xs[1..] == xs; }
        Some((xs, rest));
      }
    }
  }

  lemma ArrayStep(s: string)
    requires |s| >= 2 && s[0] == '[' && s[1] == '"'
    ensures ParseStringArray(s) == Finish(ParseItems(s[1..]))
  {
    assert SkipWs(s) == s;
    assert SkipWs(s[1..]) == s[1..];
  }

  lemma EmptyRoundTrip()
    ensures ParseStringArray(Stringify([])) == Some([])
  {
    var s := Stringify([]);
    assert Items([]) == "";
    assert s == "[]";
    var close := s[1..];
    assert close == "]" && !IsJsonSpace(close[0]) && close[1..] == "";
    assert s != [] && s[0] == '[' && !IsJsonSpace(s[0]);
    assert SkipWs(s) == s;
    assert SkipWs(close) == close;
    assert SkipWs(close[1..]) == [];
  }

  lemma NonEmptyRoundTrip(xs: seq<string>)
    requires xs != []
    ensures ParseStringArray(Stringify(xs)) == Some(xs)
  {
    var s := Stringify(xs);
    ItemsStart(xs);
    assert s[1..] == Items(xs) + "]" + "";
    ArrayStep(s);
    ItemsRoundTrip(xs, "");
  }

  /** `JSON.parse(JSON.stringify(xs))` gives back `xs`, element for element and in order. */
  lemma RoundTrip(xs: seq<string>)
    ensures ParseStringArray(Stringify(xs)) == Some(xs)
  {
    if xs == [] {
      EmptyRoundTrip();
    } else {
      NonEmptyRoundTrip(xs);
    }
  }
}
