/** JSON text for strings as `JSON.stringify` writes it (QuoteJSONString of
    ECMA-262): the seven short escapes, `\u00xx` with lowercase digits for the
    remaining control characters, every other character verbatim. Dafny
    characters are Unicode scalar values, so the lone-surrogate escape of the
    standard cannot arise. `ReadString` is the matching reader. */
module JsonText {
  import opened Wrappers
  import Hex

  const Backspace: char := 8 as char
  const FormFeed: char := 12 as char

  /** True of the characters `JSON.stringify` does not copy verbatim. */
  predicate NeedsEscape(c: char) {
    c < ' ' || c == '"' || c == '\\'
  }

  /** The JSON text of one character inside a string literal. */
  function Escape(c: char): (e: string)
    ensures 1 <= |e| <= 6
    ensures NeedsEscape(c) <==> e[0] == '\\'
    ensures !NeedsEscape(c) ==> e == [c]
  {
    if c == Backspace then "\\b"
    else if c == '\t' then "\\t"
    else if c == '\n' then "\\n"
    else if c == FormFeed then "\\f"
    else if c == '\r' then "\\r"
    else if c == '"' then "\\\""
    else if c == '\\' then "\\\\"
    else if c < ' ' then "\\u00" + [Hex.DigitChar(c as int / 16), Hex.DigitChar(c as int % 16)]
    else [c]
  }

  function EscapeAll(s: string): (e: string)
    ensures |e| >= |s|
  {
    if s == [] then [] else Escape(s[0]) + EscapeAll(s[1..])
  }

  /** The JSON string literal for `s`. */
  function Quote(s: string): (q: string)
    ensures |q| >= |s| + 2 && q[0] == '"' && q[|q| - 1] == '"'
  {
    "\"" + EscapeAll(s) + "\""
  }

  /** A string with nothing to escape is copied between the quotes unchanged. */
  lemma {:induction false} QuotePlain(s: string)
    requires forall i :: 0 <= i < |s| ==> !NeedsEscape(s[i])
    ensures Quote(s) == "\"" + s + "\""
  {
    EscapeAllPlain(s);
  }

  lemma {:induction false} EscapeAllPlain(s: string)
    requires forall i :: 0 <= i < |s| ==> !NeedsEscape(s[i])
    ensures EscapeAll(s) == s
  {
    if s != [] {
      EscapeAllPlain(s[1..]);
      assert s == [s[0]] + s[1..];
    }
  }

  /** The value of a `\uXXXX` escape, when it names a scalar value. */
  function UnicodeEscapeValue(t: string): (r: Option<char>)
    requires |t| == 4
  {
    match (Hex.DigitValue(t[0]), Hex.DigitValue(t[1]), Hex.DigitValue(t[2]), Hex.DigitValue(t[3]))
    case (Some(a), Some(b), Some(c), Some(d)) =>
      var v := ((a * 16 + b) * 16 + c) * 16 + d;
      if 0xD800 <= v < 0xE000 then None else Some(v as char)
    case _ => None
  }

  /** Reads one character of a string body: the character and how many
      characters of text it took, or `None` for a closing quote, a raw control
      character, a bad escape or the end of the text. */
  function ReadChar(t: string): (r: Option<(char, nat)>)
    ensures r.Some? ==> 1 <= r.value.1 <= |t|
  {
    if t == [] || t[0] == '"' || t[0] < ' ' then None
    else if t[0] != '\\' then Some((t[0], 1))
    else if |t| < 2 then None
    else if t[1] == 'b' then Some((Backspace, 2))
    else if t[1] == 't' then Some(('\t', 2))
    else if t[1] == 'n' then Some(('\n', 2))
    else if t[1] == 'f' then Some((FormFeed, 2))
    else if t[1] == 'r' then Some(('\r', 2))
    else if t[1] == '"' then Some(('"', 2))
    else if t[1] == '\\' then Some(('\\', 2))
    else if t[1] == '/' then Some(('/', 2))
    else if t[1] == 'u' && |t| >= 6 then
      match UnicodeEscapeValue(t[2..6])
      case Some(c) => Some((c, 6))
      case None => None
    else None
  }

  /** Reads a string body up to its closing quote: the decoded string and the
      text after the quote. */
  function ReadBody(t: string): (r: Option<(string, string)>)
    ensures r.Some? ==> |r.value.1| < |t|
    decreases |t|
  {
    if t != [] && t[0] == '"' then Some(([], t[1..]))
    else match ReadChar(t)
      case None => None
      case Some((c, n)) =>
        match ReadBody(t[n..])
        case None => None
        case Some((s, rest)) => Some(([c] + s, rest))
  }

  /** Reads a JSON string literal at the start of `t`. */
  function ReadString(t: string): (r: Option<(string, string)>)
    ensures r.Some? ==> |r.value.1| < |t|
  {
    if t != [] && t[0] == '"' then ReadBody(t[1..]) else None
  }

  /** Each escaped character is read back as itself, consuming exactly its escape. */
  lemma ReadEscape(c: char, t: string)
    ensures ReadChar(Escape(c) + t) == Some((c, |Escape(c)|))
  {
    var e := Escape(c);
    if c < ' ' && c != Backspace && c != '\t' && c != '\n' && c != FormFeed && c != '\r' {
      var v := c as int;
      var u := (e + t)[2..6];
      assert u == ['0', '0', Hex.DigitChar(v / 16), Hex.DigitChar(v % 16)];
      Hex.DigitRoundTrip(v / 16);
      Hex.DigitRoundTrip(v % 16);
      assert UnicodeEscapeValue(u) == Some(c);
    }
  }

  /** Reading undoes escaping: the body of a quoted string reads back as the
      original string, leaving exactly the text that followed. */
  lemma {:induction false} ReadBodyEscapeAll(s: string, rest: string)
    ensures ReadBody(EscapeAll(s) + "\"" + rest) == Some((s, rest))
  {
    if s == [] {
      assert EscapeAll(s) + "\"" + rest == "\"" + rest;
    } else {
      var e := Escape(s[0]);
      var t := EscapeAll(s[1..]) + "\"" + rest;
      assert EscapeAll(s) + "\"" + rest == e + t;
      ReadEscape(s[0], t);
      assert (e + t)[|e|..] == t;
      ReadBodyEscapeAll(s[1..], rest);
      assert [s[0]] + s[1..] == s;
    }
  }

  /** `ReadString` is a left inverse of `Quote`, whatever text follows. */
  lemma ReadQuote(s: string, rest: string)
    ensures ReadString(Quote(s) + rest) == Some((s, rest))
  {
    assert (Quote(s) + rest)[1..] == EscapeAll(s) + "\"" + rest;
    ReadBodyEscapeAll(s, rest);
  }
}
