/**
 * `JSON.stringify` without a replacer (the SerializeJSONProperty algorithm of
 * ECMA-262, producing RFC 8259 text), as a partial function on JavaScript
 * values, and a parser for JSON string literals (section 7 of RFC 8259) that
 * undoes the quoting.
 */
module Json {
  import opened Wrappers
  import opened JsValue
  import Strings

  /** What `JSON.stringify` gives: a text, `undefined` (nothing to encode), or a thrown TypeError. */
  datatype Json = Text(s: string) | Absent | Throws

  const HexDigits: string := "0123456789abcdef"

  /** How QuoteJSONString writes one character; control characters get a lower-case `\u00XX`. */
  function EscapeChar(c: char): string
  {
    var n := c as int;
    if n == 0x08 then "\\b"
    else if n == 0x09 then "\\t"
    else if n == 0x0A then "\\n"
    else if n == 0x0C then "\\f"
    else if n == 0x0D then "\\r"
    else if c == '"' then "\\\""
    else if c == '\\' then "\\\\"
    else if n < 0x20 then "\\u00" + [HexDigits[n / 16], HexDigits[n % 16]]
    else [c]
  }

  /** QuoteJSONString's escaping of a string's characters. */
  function Escape(s: string): string
  {
    if s == [] then "" else EscapeChar(s[0]) + Escape(s[1..])
  }

  /** A JSON string literal for `s`. */
  function Quote(s: string): string
  {
    "\"" + Escape(s) + "\""
  }

  /** The text of an array whose elements serialised to `parts`; an absent element is written `null`. */
  function ArrayText(parts: seq<Json>): (r: Json)
    ensures r.Throws? <==> exists i :: 0 <= i < |parts| && parts[i].Throws?
    ensures !r.Absent?
  {
    if exists i :: 0 <= i < |parts| && parts[i].Throws? then Throws
    else Text("[" + Strings.Join(Elements(parts), ',') + "]")
  }

  function Elements(parts: seq<Json>): seq<string>
  {
    if parts == [] then []
    else [if parts[0].Text? then parts[0].s else "null"] + Elements(parts[1..])
  }

  /** The text of an object whose properties `keys` serialised to `parts`; absent values are left out. */
  function ObjectText(keys: seq<string>, parts: seq<Json>): (r: Json)
    requires |keys| == |parts|
    ensures r.Throws? <==> exists i :: 0 <= i < |parts| && parts[i].Throws?
  {
    if exists i :: 0 <= i < |parts| && parts[i].Throws? then Throws
    else Text("{" + Strings.Join(Members(keys, parts), ',') + "}")
  }

  function Members(keys: seq<string>, parts: seq<Json>): seq<string>
    requires |keys| == |parts|
  {
    if keys == [] then []
    else (if parts[0].Text? then [Quote(keys[0]) + ":" + parts[0].s] else []) + Members(keys[1..], parts[1..])
  }

  /**
   * `JSON.stringify(v)`: undefined and functions give nothing, a BigInt throws,
   * arrays and plain objects are written element by element, objects through
   * their own enumerable properties only.
   */
  function Stringify(v: Value): Json
  {
    match v
    case Undefined => Absent
    case Null => Text("null")
    case Bool(b) => Text(if b then "true" else "false")
    case Num(n) => Text(Strings.IntToString(n))
    case BigInt(_) => Throws
    case Str(s) => Text(Quote(s))
    case Arr(elems) => ArrayText(seq(|elems|, i requires 0 <= i < |elems| => Stringify(elems[i])))
    case Obj(own, _, callable, _, _, _) =>
      if callable then Absent
      else ObjectText(Keys(own), seq(|own|, i requires 0 <= i < |own| => Stringify(own[i].val)))
  }

  /** No BigInt is reachable through the elements and enumerable properties JSON.stringify visits. */
  predicate Serialisable(v: Value)
  {
    match v
    case BigInt(_) => false
    case Arr(elems) => forall i :: 0 <= i < |elems| ==> Serialisable(elems[i])
    case Obj(own, _, callable, _, _, _) => callable || forall i :: 0 <= i < |own| ==> Serialisable(own[i].val)
    case _ => true
  }

  /** JSON.stringify throws exactly on the values that reach a BigInt. */
  lemma {:induction false} StringifyThrowsIff(v: Value)
    ensures Stringify(v).Throws? <==> !Serialisable(v)
  {
    match v
    case Arr(elems) =>
      var parts := seq(|elems|, i requires 0 <= i < |elems| => Stringify(elems[i]));
      forall i | 0 <= i < |elems| ensures parts[i].Throws? <==> !Serialisable(elems[i]) {
        StringifyThrowsIff(elems[i]);
      }
      assert Stringify(v) == ArrayText(parts);
    case Obj(own, _, callable, _, _, _) =>
      var parts := seq(|own|, i requires 0 <= i < |own| => Stringify(own[i].val));
      forall i | 0 <= i < |own| ensures parts[i].Throws? <==> !Serialisable(own[i].val) {
        StringifyThrowsIff(own[i].val);
      }
      assert !callable ==> Stringify(v) == ObjectText(Keys(own), parts);
    case _ =>
  }

  /** JSON.stringify of an array of strings. */
  function StringArray(lines: seq<string>): Value
  {
    Arr(seq(|lines|, i requires 0 <= i < |lines| => Str(lines[i])))
  }

  /** An array of strings is always JSON text: its quoted elements, comma-separated, in brackets. */
  lemma StringifyStringArray(lines: seq<string>)
    ensures Stringify(StringArray(lines))
         == Text("[" + Strings.Join(seq(|lines|, i requires 0 <= i < |lines| => Quote(lines[i])), ',') + "]")
  {
    var elems := StringArray(lines).elems;
    var parts := seq(|elems|, i requires 0 <= i < |elems| => Stringify(elems[i]));
    var texts := seq(|lines|, i requires 0 <= i < |lines| => Quote(lines[i]));
    assert forall i :: 0 <= i < |parts| ==> parts[i] == Text(texts[i]);
    ElementsOfTexts(parts, texts);
    assert Stringify(StringArray(lines)) == ArrayText(parts);
  }

  lemma {:induction false} ElementsOfTexts(parts: seq<Json>, texts: seq<string>)
    requires |parts| == |texts|
    requires forall i :: 0 <= i < |parts| ==> parts[i] == Text(texts[i])
    ensures Elements(parts) == texts
  {
    if parts != [] {
      ElementsOfTexts(parts[1..], texts[1..]);
    }
  }

  // ---------------------------------------------------------------------
  // Reading a JSON string literal back

  function HexValue(c: char): Option<nat>
  {
    if '0' <= c <= '9' then Some(c as int - '0' as int)
    else if 'a' <= c <= 'f' then Some(c as int - 'a' as int + 10)
    else if 'A' <= c <= 'F' then Some(c as int - 'A' as int + 10)
    else None
  }

  /** The character a one-letter escape stands for (`\"`, `\\`, `\/`, `\b`, `\f`, `\n`, `\r`, `\t`). */
  function SimpleEscape(c: char): Option<char>
  {
    if c == '"' then Some('"')
    else if c == '\\' then Some('\\')
    else if c == '/' then Some('/')
    else if c == 'b' then Some(8 as char)
    else if c == 'f' then Some(12 as char)
    else if c == 'n' then Some('\n')
    else if c == 'r' then Some('\r')
    else if c == 't' then Some('\t')
    else None
  }

  function Prepend(c: char, r: Option<(string, string)>): Option<(string, string)>
  {
    match r
    case None => None
    case Some((body, after)) => Some(([c] + body, after))
  }

  /**
   * Read the characters of a string literal up to its closing quote: the decoded
   * contents and what follows the quote. A `\u` escape naming a surrogate half is
   * refused, since a model character is a whole scalar value.
   */
  function ParseStringBody(s: string): Option<(string, string)>
    decreases |s|
  {
    if s == [] then None
    else if s[0] == '"' then Some(("", s[1..]))
    else if s[0] == '\\' then
      if |s| < 2 then None
      else if s[1] == 'u' then
        if |s| < 6 then None
        else
          var h := [HexValue(s[2]), HexValue(s[3]), HexValue(s[4]), HexValue(s[5])];
          if h[0].None? || h[1].None? || h[2].None? || h[3].None? then None
          else
            var n := 4096 * h[0].value + 256 * h[1].value + 16 * h[2].value + h[3].value;
            if 0xD800 <= n < 0xE000 || n >= 0x11_0000 then None
            else Prepend(n as char, ParseStringBody(s[6..]))
      else match SimpleEscape(s[1])
        case None => None
        case Some(c) => Prepend(c, ParseStringBody(s[2..]))
    else if (s[0] as int) < 0x20 then None
    else Prepend(s[0], ParseStringBody(s[1..]))
  }

  /** Read a JSON string literal at the start of `s`: its value and the text after it. */
  function ParseString(s: string): Option<(string, string)>
  {
    if s != [] && s[0] == '"' then ParseStringBody(s[1..]) else None
  }

  lemma HexDigitValue(d: nat)
    requires d < 16
    ensures HexValue(HexDigits[d]) == Some(d)
  {
  }

  /** A character written as a two-character escape reads back. */
  lemma ShortEscapeParses(c: char, tail: string)
    requires var n := c as int; n == 0x08 || n == 0x09 || n == 0x0A || n == 0x0C || n == 0x0D || c == '"' || c == '\\'
    ensures ParseStringBody(EscapeChar(c) + tail) == Prepend(c, ParseStringBody(tail))
  {
    var t := EscapeChar(c) + tail;
    assert t[2..] == tail;
  }

  /** A control character written as `\u00XX` reads back. */
  lemma UnicodeEscapeParses(c: char, tail: string)
    requires var n := c as int; n < 0x20 && n != 0x08 && n != 0x09 && n != 0x0A && n != 0x0C && n != 0x0D
    ensures ParseStringBody(EscapeChar(c) + tail) == Prepend(c, ParseStringBody(tail))
  {
    var n := c as int;
    var t := EscapeChar(c) + tail;
    HexDigitValue(n / 16);
    HexDigitValue(n % 16);
    assert t[..6] == "\\u00" + [HexDigits[n / 16], HexDigits[n % 16]];
    assert t[6..] == tail;
    assert (n as char) == c;
  }

  lemma EscapeCharParses(c: char, tail: string)
    ensures ParseStringBody(EscapeChar(c) + tail) == Prepend(c, ParseStringBody(tail))
  {
    var n := c as int;
    if n == 0x08 || n == 0x09 || n == 0x0A || n == 0x0C || n == 0x0D || c == '"' || c == '\\' {
      ShortEscapeParses(c, tail);
    } else if n < 0x20 {
      UnicodeEscapeParses(c, tail);
    } else {
      assert (EscapeChar(c) + tail)[1..] == tail;
    }
  }

  /** The escaped characters and the closing quote read back as the original string. */
  lemma {:induction false} ParseEscaped(s: string, rest: string)
    ensures ParseStringBody(Escape(s) + "\"" + rest) == Some((s, rest))
  {
    if s == [] {
      assert Escape(s) + "\"" + rest == "\"" + rest;
    } else {
      ParseEscaped(s[1..], rest);
      EscapeCharParses(s[0], Escape(s[1..]) + "\"" + rest);
      assert Escape(s) + "\"" + rest == EscapeChar(s[0]) + (Escape(s[1..]) + "\"" + rest);
      assert [s[0]] + s[1..] == s;
    }
  }

  /** Quoting is undone by parsing: a JSON string literal determines its string. */
  lemma QuoteRoundTrip(s: string, rest: string)
    ensures ParseString(Quote(s) + rest) == Some((s, rest))
  {
    ParseEscaped(s, rest);
    assert (Quote(s) + rest)[1..] == Escape(s) + "\"" + rest;
  }

  /** Distinct strings have distinct JSON literals. */
  lemma QuoteInjective(s: string, t: string)
    requires Quote(s) == Quote(t)
    ensures s == t
  {
    QuoteRoundTrip(s, "");
    QuoteRoundTrip(t, "");
    assert Quote(s) + "" == Quote(t) + "";
  }
}
