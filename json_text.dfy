/** JSON text for the values an assignee column can hold: `Stringify` writes
    what `JSON.stringify` writes for them, and `Parse` reads exactly that
    output back (a reader for this grammar, not for JSON in general). */
module JsonText {
  import opened Wrappers
  import opened Js
  import opened Decimal

  function HexDigit(d: nat): (c: char)
    requires d < 16
  {
    if d < 10 then ('0' as int + d) as char else ('a' as int + d - 10) as char
  }

  function HexValue(c: char): Option<nat> {
    if '0' <= c <= '9' then Some(c as int - '0' as int)
    else if 'a' <= c <= 'f' then Some(c as int - 'a' as int + 10)
    else if 'A' <= c <= 'F' then Some(c as int - 'A' as int + 10)
    else None
  }

  /** How `JSON.stringify` writes one character inside a string literal. */
  function EscapeChar(c: char): string {
    if c == '"' then "\\\""
    else if c == '\\' then "\\\\"
    else if c == '\U{8}' then "\\b"
    else if c == '\t' then "\\t"
    else if c == '\n' then "\\n"
    else if c == '\U{C}' then "\\f"
    else if c == '\r' then "\\r"
    else if c < ' ' then "\\u00" + [HexDigit(c as int / 16), HexDigit(c as int % 16)]
    else [c]
  }

  function Escape(s: string): string {
    if s == [] then [] else EscapeChar(s[0]) + Escape(s[1..])
  }

  /** The character a one-letter escape sequence `\x` stands for. */
  function ShortEscape(x: char): Option<char> {
    if x == '"' then Some('"')
    else if x == '\\' then Some('\\')
    else if x == '/' then Some('/')
    else if x == 'b' then Some('\U{8}')
    else if x == 't' then Some('\t')
    else if x == 'n' then Some('\n')
    else if x == 'f' then Some('\U{C}')
    else if x == 'r' then Some('\r')
    else None
  }

  /** The character four hex digits `\uXXXX` stand for (surrogates excluded). */
  function HexQuad(q: string): Option<char>
    requires |q| == 4
  {
    match (HexValue(q[0]), HexValue(q[1]), HexValue(q[2]), HexValue(q[3]))
    case (Some(a), Some(b), Some(c), Some(d)) =>
      var v := a * 4096 + b * 256 + c * 16 + d;
      if v < 0xD800 || 0xE000 <= v < 0x11_0000 then Some(v as char) else None
    case _ => None
  }

  function Prepend(c: char, r: Option<(string, string)>): Option<(string, string)> {
    match r
    case None => None
    case Some((t, rest)) => Some(([c] + t, rest))
  }

  /** Reads the inside of a string literal up to its closing quote: the
      decoded text and what follows the quote. */
  function ReadString(s: string): Option<(string, string)>
    decreases |s|
  {
    if s == [] then None
    else if s[0] == '"' then Some(([], s[1..]))
    else if s[0] == '\\' && |s| >= 2 && ShortEscape(s[1]).Some? then
      Prepend(ShortEscape(s[1]).value, ReadString(s[2..]))
    else if s[0] == '\\' && |s| >= 6 && s[1] == 'u' && HexQuad(s[2..6]).Some? then
      Prepend(HexQuad(s[2..6]).value, ReadString(s[6..]))
    else if s[0] == '\\' || s[0] < ' ' then None
    else Prepend(s[0], ReadString(s[1..]))
  }

  lemma EscapeCharStep(c: char, tail: string)
    ensures ReadString(EscapeChar(c) + tail) == Prepend(c, ReadString(tail))
  {
    if c == '"' || c == '\\' || c == '\U{8}' || c == '\t' || c == '\n' || c == '\U{C}' || c == '\r' {
      ShortEscapeStep(c, tail);
    } else if c < ' ' {
      HexEscapeStep(c, tail);
    } else {
      var s := EscapeChar(c) + tail;
      assert s[0] == c && s[1..] == tail;
    }
  }

  lemma ShortEscapeStep(c: char, tail: string)
    requires c == '"' || c == '\\' || c == '\U{8}' || c == '\t' || c == '\n' || c == '\U{C}' || c == '\r'
    ensures ReadString(EscapeChar(c) + tail) == Prepend(c, ReadString(tail))
  {
    var s := EscapeChar(c) + tail;
    assert |EscapeChar(c)| == 2 && EscapeChar(c)[0] == '\\';
    assert s[0] == '\\' && ShortEscape(s[1]) == Some(c);
    assert s[2..] == tail;
  }

  lemma HexEscapeStep(c: char, tail: string)
    requires c < ' ' && c != '\U{8}' && c != '\t' && c != '\n' && c != '\U{C}' && c != '\r'
    ensures ReadString(EscapeChar(c) + tail) == Prepend(c, ReadString(tail))
  {
    var hi, lo := c as int / 16, c as int % 16;
    var q := ['0', '0', HexDigit(hi), HexDigit(lo)];
    assert EscapeChar(c) == "\\u00" + [HexDigit(hi), HexDigit(lo)];
    var s := EscapeChar(c) + tail;
    assert s[0] == '\\' && s[1] == 'u' && ShortEscape(s[1]).None?;
    assert s[2..6] == q;
    assert HexValue(HexDigit(hi)) == Some(hi) && HexValue(HexDigit(lo)) == Some(lo);
    assert HexQuad(q) == Some(c);
    assert s[6..] == tail;
  }

  /** Reading an escaped string literal gives back the text and what follows. */
  lemma {:induction false} ReadEscaped(t: string, rest: string)
    ensures ReadString(Escape(t) + "\"" + rest) == Some((t, rest))
  {
    if t == [] {
      assert Escape(t) + "\"" + rest == "\"" + rest;
    } else {
      var tail := Escape(t[1..]) + "\"" + rest;
      assert Escape(t) + "\"" + rest == EscapeChar(t[0]) + tail;
      EscapeCharStep(t[0], tail);
      ReadEscaped(t[1..], rest);
      assert [t[0]] + t[1..] == t;
    }
  }

  /** The items of an integer list, separated by commas. */
  function JoinInts(xs: seq<int>): string
    decreases |xs|
  {
    if xs == [] then ""
    else if |xs| == 1 then IntText(xs[0])
    else IntText(xs[0]) + "," + JoinInts(xs[1..])
  }

  /** The index of the first comma in `s`, or `|s|` when there is none. */
  function CommaIndex(s: string): (k: nat)
    ensures k <= |s|
  {
    if s == [] || s[0] == ',' then 0 else 1 + CommaIndex(s[1..])
  }

  lemma {:induction false} CommaIndexOfItem(n: int, rest: string)
    ensures CommaIndex(IntText(n) + rest) == |IntText(n)| + CommaIndex(rest)
  {
    CommaFree(IntText(n), rest);
  }

  lemma {:induction false} CommaFree(a: string, rest: string)
    requires forall i :: 0 <= i < |a| ==> a[i] != ','
    ensures CommaIndex(a + rest) == |a| + CommaIndex(rest)
  {
    if a != [] {
      assert (a + rest)[1..] == a[1..] + rest;
      CommaFree(a[1..], rest);
    } else {
      assert a + rest == rest;
    }
  }

  /** Reads comma-separated integer literals. */
  function ReadInts(s: string): Option<seq<int>>
    decreases |s|
  {
    var k := CommaIndex(s);
    match ParseIntLiteral(s[..k])
    case None => None
    case Some(n) =>
      if k == |s| then Some([n])
      else
        match ReadInts(s[k + 1..])
        case None => None
        case Some(ns) => Some([n] + ns)
  }

  lemma {:induction false} ReadJoined(xs: seq<int>)
    requires xs != []
    ensures ReadInts(JoinInts(xs)) == Some(xs)
    decreases |xs|
  {
    var a := IntText(xs[0]);
    IntTextRoundTrip(xs[0]);
    if |xs| == 1 {
      CommaIndexOfItem(xs[0], "");
      assert a + "" == a;
      assert a[..|a|] == a;
      assert JoinInts(xs) == a;
      assert CommaIndex(a) == |a|;
      assert [xs[0]] == xs;
    } else {
      var s := a + "," + JoinInts(xs[1..]);
      CommaIndexOfItem(xs[0], "," + JoinInts(xs[1..]));
      assert a + ("," + JoinInts(xs[1..])) == s;
      assert s[..|a|] == a;
      assert s[|a| + 1..] == JoinInts(xs[1..]);
      ReadJoined(xs[1..]);
      assert [xs[0]] + xs[1..] == xs;
    }
  }

  /** `JSON.stringify(v)`; never applied to `undefined`. */
  function Stringify(v: JsValue): string
    requires !v.JUndefined?
  {
    match v
    case JNull => "null"
    case JBool(b) => if b then "true" else "false"
    case JNum(n) => IntText(n)
    case JStr(t) => "\"" + Escape(t) + "\""
    case JList(xs) => "[" + JoinInts(xs) + "]"
  }

  /** `JSON.parse(s)` for the texts `Stringify` produces; `None` where
      `JSON.parse` would throw. */
  function Parse(s: string): Option<JsValue> {
    if s == "null" then Some(JNull)
    else if s == "true" then Some(JBool(true))
    else if s == "false" then Some(JBool(false))
    else if s != [] && s[0] == '"' then
      match ReadString(s[1..])
      case Some((t, rest)) => if rest == [] then Some(JStr(t)) else None
      case None => None
    else if |s| >= 2 && s[0] == '[' && s[|s| - 1] == ']' then
      var body := s[1..|s| - 1];
      if body == [] then Some(JList([]))
      else
        match ReadInts(body)
        case Some(xs) => Some(JList(xs))
        case None => None
    else
      match ParseIntLiteral(s)
      case Some(n) => Some(JNum(n))
      case None => None
  }

  /** Parsing what `Stringify` wrote gives back the value written. */
  lemma ParseStringify(v: JsValue)
    requires !v.JUndefined?
    ensures Parse(Stringify(v)) == Some(v)
  {
    var s := Stringify(v);
    match v
    case JNull =>
    case JBool(b) =>
    case JNum(n) =>
      assert s[0] != 'n' && s[0] != 't' && s[0] != 'f' && s[0] != '"' && s[0] != '[';
      IntTextRoundTrip(n);
    case JStr(t) =>
      assert s[1..] == Escape(t) + "\"" + [];
      ReadEscaped(t, []);
    case JList(xs) =>
      assert s[1..|s| - 1] == JoinInts(xs);
      if xs != [] {
        ReadJoined(xs);
      }
  }
}
