/**
 * The JSON text the translator produces and consumes: `JSON.stringify` of a
 * batch (an object whose values are all empty strings), the string escaping it
 * uses, and the `{`...`}` slice cut out of a model response before it is
 * parsed. `JSON.parse` itself is a parameter.
 */
module JsonText {
  import opened Wrappers
  import opened JsObjects

  // ---------------------------------------------------------------------------
  // String escaping, as JSON.stringify writes a string

  function HexDigit(n: nat): (c: char)
    requires n < 16
  {
    "0123456789abcdef"[n]
  }

  /** The value of a hexadecimal digit of either case. */
  function HexValue(c: char): (r: Option<nat>)
    ensures r.Some? ==> r.value < 16
  {
    if '0' <= c <= '9' then Some(c as int - '0' as int)
    else if 'a' <= c <= 'f' then Some(c as int - 'a' as int + 10)
    else if 'A' <= c <= 'F' then Some(c as int - 'A' as int + 10)
    else None
  }

  /** One character as it appears inside a JSON string literal. */
  function EscapeChar(c: char): (r: string)
    ensures |r| >= 1
    ensures c != '"' && c != '\\' && c as int >= 0x20 ==> r == [c]
  {
    if c == '"' then "\\\""
    else if c == '\\' then "\\\\"
    else if c as int == 0x08 then "\\b"
    else if c as int == 0x0C then "\\f"
    else if c == '\n' then "\\n"
    else if c == '\r' then "\\r"
    else if c == '\t' then "\\t"
    else if c as int < 0x20 then "\\u00" + [HexDigit(c as int / 16), HexDigit(c as int % 16)]
    else [c]
  }

  function Escape(s: string): string {
    if s == [] then [] else EscapeChar(s[0]) + Escape(s[1..])
  }

  /** `JSON.stringify(s)` for a string `s`. */
  function Quote(s: string): (r: string)
    ensures |r| >= 2 && r[0] == '"' && r[|r| - 1] == '"'
  {
    "\"" + Escape(s) + "\""
  }

  /** Text without quotes, backslashes or control characters. */
  predicate Plain(s: string) {
    forall i | 0 <= i < |s| :: s[i] != '"' && s[i] != '\\' && s[i] as int >= 0x20
  }

  /** Plain text is written as it is. */
  lemma {:induction false} EscapePlain(s: string)
    requires Plain(s)
    ensures Escape(s) == s
  {
    if s != [] {
      EscapePlain(s[1..]);
      assert [s[0]] + s[1..] == s;
    }
  }

  // ---------------------------------------------------------------------------
  // Reading a JSON string literal back, the partner of Quote

  /** The character a one-letter escape `\e` stands for. */
  function SimpleUnescape(e: char): Option<char> {
    if e == '"' then Some('"')
    else if e == '\\' then Some('\\')
    else if e == '/' then Some('/')
    else if e == 'b' then Some(8 as char)
    else if e == 'f' then Some(12 as char)
    else if e == 'n' then Some('\n')
    else if e == 'r' then Some('\r')
    else if e == 't' then Some('\t')
    else None
  }

  /** Puts `c` in front of the characters read, keeping what follows the literal. */
  function Prepend(c: char, read: Option<(string, string)>): (r: Option<(string, string)>)
    ensures r.Some? <==> read.Some?
    ensures r.Some? ==> r.value == ([c] + read.value.0, read.value.1)
  {
    match read
    case None => None
    case Some((s, rest)) => Some(([c] + s, rest))
  }

  /** The number written by four hexadecimal digits. */
  function Hex4(h: string): (r: Option<nat>)
    requires |h| == 4
    ensures r.Some? ==> r.value < 0x10000
  {
    match (HexValue(h[0]), HexValue(h[1]), HexValue(h[2]), HexValue(h[3]))
    case (Some(a), Some(b), Some(c), Some(d)) => Some(((a * 16 + b) * 16 + c) * 16 + d)
    case _ => None
  }

  /**
   * Reads the body of a JSON string literal, after its opening quote, up to
   * its closing quote: the characters it denotes and the text after the
   * closing quote. None when the body is malformed (a raw control character,
   * a bad escape, no closing quote, or a `\u` escape of a surrogate, which
   * this model does not pair up).
   */
  function ReadString(t: string): (r: Option<(string, string)>)
    ensures r.Some? ==> |r.value.1| < |t|
    decreases |t|
  {
    if t == [] then None
    else if t[0] == '"' then Some(([], t[1..]))
    else if t[0] == '\\' then
      if |t| < 2 then None
      else if t[1] == 'u' then
        if |t| < 6 then None
        else
          match Hex4(t[2..6])
          case Some(n) =>
            if n < 0xD800 || 0xE000 <= n then Prepend(n as char, ReadString(t[6..])) else None
          case None => None
      else
        match SimpleUnescape(t[1])
        case None => None
        case Some(c) => Prepend(c, ReadString(t[2..]))
    else if t[0] as int < 0x20 then None
    else Prepend(t[0], ReadString(t[1..]))
  }

  /** The string a JSON string literal denotes, when the text is exactly one literal. */
  function Unquote(t: string): Option<string> {
    if t != [] && t[0] == '"' then
      match ReadString(t[1..])
      case Some((s, rest)) => if rest == [] then Some(s) else None
      case None => None
    else None
  }

  lemma HexRoundTrip(n: nat)
    requires n < 16
    ensures HexValue(HexDigit(n)) == Some(n)
  {
  }

  lemma {:induction false} ReadChar(c: char, rest: string)
    ensures ReadString(EscapeChar(c) + rest) == Prepend(c, ReadString(rest))
  {
    var t := EscapeChar(c) + rest;
    if c == '"' || c == '\\' || c as int == 0x08 || c as int == 0x0C || c == '\n' || c == '\r' || c == '\t' {
      assert t[2..] == rest;
    } else if c as int < 0x20 {
      ReadControl(c, rest);
    } else {
      assert t[1..] == rest;
    }
  }

  /** A control character without a short escape is written `\u00` and two digits, and read back. */
  lemma ReadControl(c: char, rest: string)
    requires c as int < 0x20
    requires c as int != 0x08 && c as int != 0x0C && c != '\n' && c != '\r' && c != '\t'
    ensures ReadString(EscapeChar(c) + rest) == Prepend(c, ReadString(rest))
  {
    var t := EscapeChar(c) + rest;
    var hi, lo := c as int / 16, c as int % 16;
    HexRoundTrip(hi);
    HexRoundTrip(lo);
    assert t[2..6] == "00" + [HexDigit(hi), HexDigit(lo)];
    assert Hex4(t[2..6]) == Some(c as int);
    assert t[6..] == rest;
  }

  /** Reading an escaped string and its closing quote gives back the string and stops right after the quote. */
  lemma {:induction false} ReadEscaped(s: string, rest: string)
    ensures ReadString(Escape(s) + "\"" + rest) == Some((s, rest))
  {
    if s == [] {
      assert Escape(s) + "\"" + rest == "\"" + rest;
      assert ("\"" + rest)[1..] == rest;
    } else {
      assert Escape(s) + "\"" + rest == EscapeChar(s[0]) + (Escape(s[1..]) + "\"" + rest);
      ReadChar(s[0], Escape(s[1..]) + "\"" + rest);
      ReadEscaped(s[1..], rest);
      assert [s[0]] + s[1..] == s;
    }
  }

  /** `JSON.parse(JSON.stringify(s)) === s` for every string `s`. */
  lemma QuoteRoundTrip(s: string)
    ensures Unquote(Quote(s)) == Some(s)
  {
    var t := Quote(s);
    assert t[1..] == Escape(s) + "\"" + [];
    ReadEscaped(s, []);
  }

  // ---------------------------------------------------------------------------
  // The text of a batch

  /** The members of a batch object, every value the empty string. */
  function Members(keys: seq<string>): string {
    if keys == [] then ""
    else if |keys| == 1 then Quote(keys[0]) + ":\"\""
    else Quote(keys[0]) + ":\"\"," + Members(keys[1..])
  }

  /** `JSON.stringify` of the object mapping each of `keys` to `""`, in that order. */
  function QueryText(keys: seq<string>): (r: string)
    ensures |r| >= 2 && r[0] == '{' && r[|r| - 1] == '}'
    ensures keys == [] <==> r == "{}"
    ensures ReadObject(r) == Some(keys)
  {
    ObjectReadBack(keys);
    "{" + Members(keys) + "}"
  }

  /** The text of a batch of one key. */
  lemma OneKeyText(key: string)
    ensures QueryText([key]) == "{" + Quote(key) + ":" + Quote("") + "}"
  {
    assert Escape("") == "";
  }

  /**
   * Reads members `"k":""`, separated by commas, up to the `}` that ends the
   * text: the keys, in order. None for any other text.
   */
  function ReadMembers(t: string): Option<seq<string>>
    decreases |t|
  {
    if t == [] || t[0] != '"' then None
    else
      match ReadString(t[1..])
      case None => None
      case Some((k, rest)) =>
        if |rest| < 3 || rest[..3] != ":\"\"" then None
        else if rest[3..] == "}" then Some([k])
        else if |rest| > 3 && rest[3] == ',' then
          match ReadMembers(rest[4..])
          case None => None
          case Some(ks) => Some([k] + ks)
        else None
  }

  /** Reads the text of an object whose values are all `""`: its keys, in order. */
  function ReadObject(t: string): Option<seq<string>> {
    if t == "{}" then Some([])
    else if t != [] && t[0] == '{' then ReadMembers(t[1..])
    else None
  }

  /** Reading one member: its key, then the closing `}` or a comma and the members after it. */
  lemma ReadMemberStep(t: string, k: string, rest: string)
    requires t != [] && t[0] == '"' && ReadString(t[1..]) == Some((k, rest))
    requires |rest| >= 3 && rest[..3] == ":\"\""
    ensures rest[3..] == "}" ==> ReadMembers(t) == Some([k])
    ensures rest[3..] != "}" && |rest| > 3 && rest[3] == ',' ==>
      ReadMembers(t) == match ReadMembers(rest[4..]) case None => None case Some(ks) => Some([k] + ks)
  {
  }

  /** The last member `"k":""}` reads as the key alone. */
  lemma ReadLastMember(k: string)
    ensures ReadMembers(Quote(k) + ":\"\"" + "}") == Some([k])
  {
    var t := Quote(k) + ":\"\"" + "}";
    var rest := ":\"\"" + "}";
    assert t[1..] == Escape(k) + "\"" + rest;
    ReadEscaped(k, rest);
    assert rest[..3] == ":\"\"" && rest[3..] == "}";
    ReadMemberStep(t, k, rest);
  }

  /** A member `"k":""` followed by a comma reads as the key, then the members after the comma. */
  lemma ReadMemberThen(k: string, more: string)
    ensures ReadMembers(Quote(k) + ":\"\"," + more) ==
      match ReadMembers(more) case None => None case Some(ks) => Some([k] + ks)
  {
    var t := Quote(k) + ":\"\"," + more;
    var rest := ":\"\"," + more;
    assert t[1..] == Escape(k) + "\"" + rest;
    ReadEscaped(k, rest);
    assert rest[..3] == ":\"\"" && rest[3] == ',' && rest[4..] == more;
    assert rest[3..][0] == ',';
    assert rest[3..] != "}";
    ReadMemberStep(t, k, rest);
  }

  lemma {:induction false} MembersReadBack(keys: seq<string>)
    requires keys != []
    ensures |Members(keys)| > 0
    ensures ReadMembers(Members(keys) + "}") == Some(keys)
  {
    var k := keys[0];
    if |keys| == 1 {
      ReadLastMember(k);
      assert [k] == keys;
    } else {
      var more := Members(keys[1..]) + "}";
      assert Members(keys) + "}" == Quote(k) + ":\"\"," + more;
      ReadMemberThen(k, more);
      MembersReadBack(keys[1..]);
      assert [k] + keys[1..] == keys;
    }
  }

  /** The object text of a batch reads back as the batch's keys. */
  lemma ObjectReadBack(keys: seq<string>)
    ensures ReadObject("{" + Members(keys) + "}") == Some(keys)
  {
    var t := "{" + Members(keys) + "}";
    if keys != [] {
      MembersReadBack(keys);
      assert t != "{}";
      assert t[1..] == Members(keys) + "}";
    }
  }

  // ---------------------------------------------------------------------------
  // Cutting the object out of a response

  /** `s.indexOf(c)`: the first position of `c`, or -1. */
  function IndexOf(s: string, c: char): (r: int)
    ensures -1 <= r < |s|
    ensures r >= 0 ==> s[r] == c
    ensures forall m | 0 <= m < |s| && (r == -1 || m < r) :: s[m] != c
  {
    if s == [] then -1
    else if s[0] == c then 0
    else
      var j := IndexOf(s[1..], c);
      if j < 0 then -1 else j + 1
  }

  /** `s.lastIndexOf(c)`: the last position of `c`, or -1. */
  function LastIndexOf(s: string, c: char): (r: int)
    ensures -1 <= r < |s|
    ensures r >= 0 ==> s[r] == c
    ensures forall m | r < m < |s| :: s[m] != c
  {
    if s == [] then -1
    else if s[|s| - 1] == c then |s| - 1
    else LastIndexOf(s[..|s| - 1], c)
  }

  /** `s.slice(start, end)`: negative positions count from the end. */
  function Slice(s: string, start: int, end: int): string {
    var from := if start < 0 then (if |s| + start < 0 then 0 else |s| + start)
                else if start > |s| then |s| else start;
    var to := if end < 0 then (if |s| + end < 0 then 0 else |s| + end)
              else if end > |s| then |s| else end;
    if from < to then s[from..to] else ""
  }

  /**
   * `response.slice(response.indexOf("{"), response.lastIndexOf("}") + 1)`.
   * Apart from the empty text and a lone `}` (a response with no `{` that
   * ends in `}`), this is the span from the first `{` to the last `}`.
   */
  function ObjectText(response: string): (t: string)
    ensures var f, l := IndexOf(response, '{'), LastIndexOf(response, '}');
      && (0 <= f < l ==> t == response[f..l + 1] && t[0] == '{' && t[|t| - 1] == '}')
      && (!(0 <= f < l) ==> t == "" || (t == "}" && f == -1))
  {
    Slice(response, IndexOf(response, '{'), LastIndexOf(response, '}') + 1)
  }

  /**
   * `JSON.parse` of the object text of a response: the parameter `parse` is
   * `JSON.parse` on a text that starts with `{` (whose result, if any, is an
   * object); the empty text and a lone `}` make `JSON.parse` throw.
   */
  function ParseResponse(response: string, parse: string -> Option<Dict>): (r: Option<Dict>)
    ensures var f, l := IndexOf(response, '{'), LastIndexOf(response, '}');
      && (0 <= f < l ==> r == parse(response[f..l + 1]))
      && (!(0 <= f < l) ==> r == None)
    ensures (forall i | 0 <= i < |response| :: response[i] != '{') ==> r == None
  {
    var t := ObjectText(response);
    if |t| > 0 && t[0] == '{' then parse(t) else None
  }

  /** The parser returns well-formed objects, as `JSON.parse` does. */
  ghost predicate ObjectParser(parse: string -> Option<Dict>) {
    forall t :: parse(t).Some? ==> parse(t).value.Valid()
  }
}
