/**
 * The string operations of JavaScript that the sources rely on: `trim`,
 * the `\s` character class, `toLowerCase`/`toUpperCase`, `includes`,
 * `split` and `join` on one character, and number-to-string conversion.
 */
module Text {

  /** The characters that `String.prototype.trim` strips and that `\s` matches. */
  predicate IsJsSpace(c: char)
  {
    c == '\t' || c == '\n' || c == '\U{B}' || c == '\U{C}' || c == '\r' || c == ' '
    || c == '\U{A0}' || c == '\U{1680}' || ('\U{2000}' <= c <= '\U{200A}')
    || c == '\U{2028}' || c == '\U{2029}' || c == '\U{202F}' || c == '\U{205F}'
    || c == '\U{3000}' || c == '\U{FEFF}'
  }

  /** Drops leading white space: the result is the suffix that starts at the first other character. */
  function TrimStart(s: string): (r: string)
    ensures |r| <= |s| && r == s[|s| - |r|..]
    ensures forall k :: 0 <= k < |s| - |r| ==> IsJsSpace(s[k])
    ensures r != [] ==> !IsJsSpace(r[0])
    decreases |s|
  {
    if s != [] && IsJsSpace(s[0]) then TrimStart(s[1..]) else s
  }

  /** Drops trailing white space: the result is the prefix that ends at the last other character. */
  function TrimEnd(s: string): (r: string)
    ensures |r| <= |s| && r == s[..|r|]
    ensures forall k :: |r| <= k < |s| ==> IsJsSpace(s[k])
    ensures r != [] ==> !IsJsSpace(r[|r| - 1])
    decreases |s|
  {
    if s != [] && IsJsSpace(s[|s| - 1]) then TrimEnd(s[..|s| - 1]) else s
  }

  /** `s.trim()`. */
  function Trim(s: string): string
  {
    TrimEnd(TrimStart(s))
  }

  /** A string trims to nothing exactly when it is all white space. */
  lemma TrimEmpty(s: string)
    ensures Trim(s) == [] <==> forall k :: 0 <= k < |s| ==> IsJsSpace(s[k])
  {
  }

  /** Trimming leaves nothing to trim. */
  lemma TrimEnds(s: string)
    ensures Trim(s) != [] ==> !IsJsSpace(Trim(s)[0]) && !IsJsSpace(Trim(s)[|Trim(s)| - 1])
  {
    var t := TrimStart(s);
    var r := TrimEnd(t);
    if r != [] {
      assert r[0] == t[0];
    }
  }

  function LowerChar(c: char): char
  {
    if 'A' <= c <= 'Z' then (c as int + 32) as char else c
  }

  function UpperChar(c: char): char
  {
    if 'a' <= c <= 'z' then (c as int - 32) as char else c
  }

  /** `s.toLowerCase()`, for the letters A to Z. */
  function Lower(s: string): string
  {
    seq(|s|, i requires 0 <= i < |s| => LowerChar(s[i]))
  }

  /** `s.toUpperCase()`, for the letters a to z. */
  function Upper(s: string): string
  {
    seq(|s|, i requires 0 <= i < |s| => UpperChar(s[i]))
  }

  predicate StartsWith(s: string, prefix: string)
  {
    |prefix| <= |s| && s[..|prefix|] == prefix
  }

  /** `s.includes(sub)`: `sub` occurs in `s` at some position. */
  predicate Contains(s: string, sub: string)
    decreases |s|
  {
    StartsWith(s, sub) || (s != [] && Contains(s[1..], sub))
  }

  /** `includes` holds exactly when `sub` is found at some offset. */
  lemma {:induction false} ContainsAt(s: string, sub: string)
    ensures Contains(s, sub) <==> exists i :: 0 <= i <= |s| - |sub| && s[i..][..|sub|] == sub
    decreases |s|
  {
    assert s[0..] == s;
    if s != [] {
      ContainsAt(s[1..], sub);
      if Contains(s[1..], sub) {
        var i :| 0 <= i <= |s[1..]| - |sub| && s[1..][i..][..|sub|] == sub;
        assert s[i + 1..] == s[1..][i..];
      }
      if exists i :: 0 <= i <= |s| - |sub| && s[i..][..|sub|] == sub {
        var i :| 0 <= i <= |s| - |sub| && s[i..][..|sub|] == sub;
        if i > 0 {
          assert s[1..][i - 1..] == s[i..];
        }
      }
    }
  }

  /** Every string includes the empty string. */
  lemma ContainsEmpty(s: string)
    ensures Contains(s, "")
  {
  }

  /**
   * `parts.join(sep)`: the parts with `sep` between neighbours.
   */
  function Join(parts: seq<string>, sep: string): string
    decreases |parts|
  {
    if parts == [] then ""
    else if |parts| == 1 then parts[0]
    else parts[0] + sep + Join(parts[1..], sep)
  }

  /**
   * `s.split(sep)` for a one-character separator: the pieces contain no
   * separator, and joining them with the separator gives back `s`.
   */
  function Split(s: string, sep: char): (r: seq<string>)
    ensures |r| >= 1
    ensures forall i :: 0 <= i < |r| ==> sep !in r[i]
    ensures Join(r, [sep]) == s
    decreases |s|
  {
    if s == [] then [""]
    else
      var rest := Split(s[1..], sep);
      assert s == [s[0]] + s[1..];
      if s[0] == sep then
        [""] + rest
      else
        var r := [[s[0]] + rest[0]] + rest[1..];
        assert r[1..] == rest[1..];
        r
  }

  /** A piece with no separator splits to itself. */
  lemma {:induction false} SplitPlain(w: string, sep: char)
    requires sep !in w
    ensures Split(w, sep) == [w]
    decreases |w|
  {
    if w != [] {
      SplitPlain(w[1..], sep);
      assert w == [w[0]] + w[1..];
    }
  }

  /** Splitting at the first separator: the text before it is the first piece. */
  lemma {:induction false} SplitFirst(w: string, sep: char, t: string)
    requires sep !in w
    ensures Split(w + [sep] + t, sep) == [w] + Split(t, sep)
    decreases |w|
  {
    var s := w + [sep] + t;
    if w == [] {
      assert s == [sep] + t;
      SplitAtSeparator(sep, t);
    } else {
      SplitFirst(w[1..], sep, t);
      assert s == [w[0]] + (w[1..] + [sep] + t);
      SplitAtOther(w[0], sep, w[1..] + [sep] + t);
      assert [w[0]] + w[1..] == w;
    }
  }

  /** A leading separator ends an empty first piece. */
  lemma SplitAtSeparator(sep: char, t: string)
    ensures Split([sep] + t, sep) == [""] + Split(t, sep)
  {
    assert ([sep] + t)[1..] == t;
  }

  /** A leading character other than the separator joins the first piece. */
  lemma SplitAtOther(c: char, sep: char, t: string)
    requires c != sep
    ensures var rest := Split(t, sep); Split([c] + t, sep) == [[c] + rest[0]] + rest[1..]
  {
    assert ([c] + t)[1..] == t;
  }

  /** `parts.join(sep).split(sep)` gives back the parts when none holds the separator. */
  lemma {:induction false} SplitJoin(parts: seq<string>, sep: char)
    requires |parts| >= 1
    requires forall i :: 0 <= i < |parts| ==> sep !in parts[i]
    ensures Split(Join(parts, [sep]), sep) == parts
    decreases |parts|
  {
    if |parts| == 1 {
      SplitPlain(parts[0], sep);
    } else {
      SplitJoin(parts[1..], sep);
      SplitFirst(parts[0], sep, Join(parts[1..], [sep]));
      assert [parts[0]] + parts[1..] == parts;
    }
  }

  /** A join holds a character only if a part or the separator does. */
  lemma {:induction false} JoinAvoids(parts: seq<string>, sep: string, c: char)
    requires c !in sep
    requires forall i :: 0 <= i < |parts| ==> c !in parts[i]
    ensures c !in Join(parts, sep)
    decreases |parts|
  {
    if |parts| > 1 {
      JoinAvoids(parts[1..], sep, c);
    }
  }

  /** A string cannot include a text holding a character it lacks. */
  lemma {:induction false} NotContainsMissingChar(s: string, sub: string, c: char)
    requires c in sub && c !in s
    ensures !Contains(s, sub)
    decreases |s|
  {
    if s != [] {
      NotContainsMissingChar(s[1..], sub, c);
    }
  }

  /** A string includes its own prefix. */
  lemma ContainsPrefix(prefix: string, rest: string)
    ensures Contains(prefix + rest, prefix)
  {
    assert (prefix + rest)[..|prefix|] == prefix;
  }

  /** The last part of a join is what follows the last separator. */
  lemma {:induction false} JoinLast(parts: seq<string>, sep: string)
    requires |parts| >= 1
    ensures var s, last := Join(parts, sep), parts[|parts| - 1];
      |last| <= |s| && s[|s| - |last|..] == last
      && (|parts| > 1 ==> |last| + |sep| <= |s| && s[|s| - |last| - |sep|..|s| - |last|] == sep)
    decreases |parts|
  {
    if |parts| > 1 {
      JoinLast(parts[1..], sep);
      var s, t := Join(parts, sep), Join(parts[1..], sep);
      assert s == parts[0] + sep + t;
      if |parts| > 2 {
        assert parts[1..][|parts[1..]| - 1] == parts[|parts| - 1];
      }
    }
  }

  /**
   * `s.split(sep).pop()`: the text after the last separator, or all of `s`
   * when it holds none.
   */
  function LastPiece(s: string, sep: char): (r: string)
    ensures sep !in r
    ensures |r| <= |s| && s[|s| - |r|..] == r
    ensures |r| < |s| ==> s[|s| - |r| - 1] == sep
  {
    var parts := Split(s, sep);
    JoinLast(parts, [sep]);
    parts[|parts| - 1]
  }

  /** The last piece of `base + [sep] + tail` is `tail` when `tail` holds no separator. */
  lemma LastPieceOf(base: string, sep: char, tail: string)
    requires sep !in tail
    ensures LastPiece(base + [sep] + tail, sep) == tail
  {
    var s := base + [sep] + tail;
    assert s[|s| - |tail| - 1] == sep;
    assert s[|s| - |tail|..] == tail;
  }

  function DigitChar(d: nat): char
    requires d < 10
  {
    "0123456789"[d]
  }

  /** The decimal digits of `n`, most significant first, without leading zeros. */
  function NatToString(n: nat): (r: string)
    ensures |r| >= 1 && (|r| == 1 <==> n < 10)
    ensures forall i :: 0 <= i < |r| ==> '0' <= r[i] <= '9'
    decreases n
  {
    if n < 10 then [DigitChar(n)] else NatToString(n / 10) + [DigitChar(n % 10)]
  }

  /** Different numbers print differently. */
  lemma {:induction false} NatToStringInjective(a: nat, b: nat)
    requires NatToString(a) == NatToString(b)
    ensures a == b
    decreases a
  {
    if a >= 10 && b >= 10 {
      var sa, sb := NatToString(a), NatToString(b);
      assert sa[|sa| - 1] == sb[|sb| - 1];
      assert sa[..|sa| - 1] == NatToString(a / 10);
      assert sb[..|sb| - 1] == NatToString(b / 10);
      NatToStringInjective(a / 10, b / 10);
    }
  }

  /** `String(i)` for an integer. */
  function IntToString(i: int): string
  {
    if i < 0 then "-" + NatToString(-i) else NatToString(i)
  }
}
