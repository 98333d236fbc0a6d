/** JSON objects whose members are strings, as encoding/json writes them (with HTML escaping) and
    sections 2 to 7 of RFC 8259 read them. A member may also be null. */
module JsonText {
  import opened Wrappers

  // ---- writing ----

  function HexDigit(n: int): (c: char)
    requires 0 <= n < 16
    ensures HexValue(c) == Some(n)
  {
    if n < 10 then (n + 48) as char else (n + 87) as char
  }

  function Hex4(n: int): (s: string)
    requires 0 <= n < 0x1_0000
    ensures |s| == 4
  {
    [HexDigit(n / 4096), HexDigit(n / 256 % 16), HexDigit(n / 16 % 16), HexDigit(n % 16)]
  }

  predicate NeedsHex(c: char) {
    c < ' ' || c == '<' || c == '>' || c == '&' || c == '\U{2028}' || c == '\U{2029}'
  }

  function QuoteChar(c: char): (s: string)
    ensures s != ""
  {
    if c == '"' || c == '\\' then ['\\', c]
    else if c == '\U{0008}' then "\\b"
    else if c == '\U{000C}' then "\\f"
    else if c == '\n' then "\\n"
    else if c == '\r' then "\\r"
    else if c == '\t' then "\\t"
    else if NeedsHex(c) then "\\u" + Hex4(c as int)
    else [c]
  }

  function QuoteChars(s: string, rest: string): string {
    if s == "" then "\"" + rest else QuoteChar(s[0]) + QuoteChars(s[1..], rest)
  }

  /** The string literal for `s`, followed by `rest`. */
  function Quote(s: string, rest: string): string {
    "\"" + QuoteChars(s, rest)
  }

  type Member = (string, string)

  /** The members from the first on, up to the end of the object. */
  function WriteMembers(ms: seq<Member>): string
    requires ms != []
  {
    Quote(ms[0].0, ":" + Quote(ms[0].1, if |ms| == 1 then "}" else "," + WriteMembers(ms[1..])))
  }

  function WriteObject(ms: seq<Member>): string {
    if ms == [] then "{}" else "{" + WriteMembers(ms)
  }

  // ---- reading ----

  function SkipSpace(s: string): (r: string)
    ensures |r| <= |s|
  {
    if s != "" && (s[0] == ' ' || s[0] == '\t' || s[0] == '\n' || s[0] == '\r') then SkipSpace(s[1..]) else s
  }

  function HexValue(c: char): (r: Option<int>)
    ensures r.Some? ==> 0 <= r.value < 16
  {
    if '0' <= c <= '9' then Some(c as int - 48)
    else if 'a' <= c <= 'f' then Some(c as int - 87)
    else if 'A' <= c <= 'F' then Some(c as int - 55)
    else None
  }

  /** Four hexadecimal digits after "\u" at the front of `s`. */
  function TakeUnicode(s: string): (r: Option<(int, string)>)
    ensures r.Some? ==> 0 <= r.value.0 < 0x1_0000 && |r.value.1| < |s|
  {
    if |s| >= 6 && s[0] == '\\' && s[1] == 'u' then
      var a :- HexValue(s[2]);
      var b :- HexValue(s[3]);
      var c :- HexValue(s[4]);
      var d :- HexValue(s[5]);
      Some((a * 4096 + b * 256 + c * 16 + d, s[6..]))
    else None
  }

  /** One escape; a surrogate pair reads as one character, a lone surrogate as U+FFFD. */
  function TakeEscape(s: string): (r: Option<(char, string)>)
    ensures r.Some? ==> |r.value.1| < |s|
  {
    if |s| < 2 then None
    else if s[1] == 'u' then
      var (n, rest) :- TakeUnicode(s);
      if 0xD800 <= n < 0xE000 then
        var low := TakeUnicode(rest);
        if n < 0xDC00 && low.Some? && 0xDC00 <= low.value.0 < 0xE000 then
          Some((((n - 0xD800) * 1024 + (low.value.0 - 0xDC00) + 0x1_0000) as char, low.value.1))
        else Some(('\U{FFFD}', rest))
      else Some((n as char, rest))
    else
      var c :- Unescaped(s[1]);
      Some((c, s[2..]))
  }

  function Unescaped(c: char): Option<char> {
    if c == '"' || c == '\\' || c == '/' then Some(c)
    else if c == 'b' then Some('\U{0008}')
    else if c == 'f' then Some('\U{000C}')
    else if c == 'n' then Some('\n')
    else if c == 'r' then Some('\r')
    else if c == 't' then Some('\t')
    else None
  }

  /** One character of a literal, escaped or not; control characters are refused. */
  function TakeChar(s: string): (r: Option<(char, string)>)
    ensures r.Some? ==> |r.value.1| < |s|
  {
    if s == "" || s[0] == '"' || s[0] < ' ' then None
    else if s[0] == '\\' then TakeEscape(s)
    else Some((s[0], s[1..]))
  }

  function TakeChars(s: string): (r: Option<(string, string)>)
    ensures r.Some? ==> |r.value.1| < |s|
    decreases |s|
  {
    if s != "" && s[0] == '"' then Some(("", s[1..]))
    else
      var (c, rest) :- TakeChar(s);
      var (cs, rest) :- TakeChars(rest);
      Some(([c] + cs, rest))
  }

  function TakeString(s: string): (r: Option<(string, string)>)
    ensures r.Some? ==> |r.value.1| < |s|
  {
    if s != "" && s[0] == '"' then TakeChars(s[1..]) else None
  }

  /** A string, or None for null. */
  function TakeValue(s: string): (r: Option<(Option<string>, string)>)
    ensures r.Some? ==> |r.value.1| < |s|
  {
    if |s| >= 4 && s[..4] == "null" then Some((None, s[4..]))
    else
      var (v, rest) :- TakeString(s);
      Some((Some(v), rest))
  }

  function TakeMember(s: string): (r: Option<((string, Option<string>), string)>)
    ensures r.Some? ==> |r.value.1| < |s|
  {
    var (name, rest) :- TakeString(s);
    var rest := SkipSpace(rest);
    if rest == "" || rest[0] != ':' then None
    else
      var (value, rest) :- TakeValue(SkipSpace(rest[1..]));
      Some(((name, value), SkipSpace(rest)))
  }

  /** Members until the closing brace, and nothing but space after it. */
  function ReadMembers(s: string): Option<seq<(string, Option<string>)>>
    decreases |s|
  {
    var (m, rest) :- TakeMember(s);
    if rest == "" then None
    else if rest[0] == '}' then
      if SkipSpace(rest[1..]) == "" then Some([m]) else None
    else if rest[0] == ',' then
      var ms :- ReadMembers(SkipSpace(rest[1..]));
      Some([m] + ms)
    else None
  }

  function ReadObject(s: string): Option<seq<(string, Option<string>)>> {
    var s := SkipSpace(s);
    if s == "" || s[0] != '{' then None
    else
      var s := SkipSpace(s[1..]);
      if s != "" && s[0] == '}' then
        if SkipSpace(s[1..]) == "" then Some([]) else None
      else ReadMembers(s)
  }

  // ---- round trip ----

  lemma Hex4Reads(n: int, rest: string)
    requires 0 <= n < 0x1_0000
    ensures TakeUnicode("\\u" + Hex4(n) + rest) == Some((n, rest))
  {
    var s := "\\u" + Hex4(n) + rest;
    assert s[6..] == rest;
    assert n / 16 / 16 == n / 256 && n / 256 / 16 == n / 4096;
    assert n / 4096 * 4096 + n / 256 % 16 * 256 + n / 16 % 16 * 16 + n % 16 == n;
  }

  lemma CharReads(c: char, rest: string)
    ensures TakeChar(QuoteChar(c) + rest) == Some((c, rest))
    ensures QuoteChar(c)[0] != '"'
  {
    var s := QuoteChar(c) + rest;
    assert s[|QuoteChar(c)|..] == rest;
    if NeedsHex(c) && |QuoteChar(c)| != 2 {
      Hex4Reads(c as int, rest);
    }
  }

  lemma {:induction false} CharsRead(s: string, rest: string)
    ensures TakeChars(QuoteChars(s, rest)) == Some((s, rest))
  {
    if s != "" {
      var tail := QuoteChars(s[1..], rest);
      CharReads(s[0], tail);
      CharsRead(s[1..], rest);
      assert QuoteChars(s, rest)[0] == QuoteChar(s[0])[0];
      assert [s[0]] + s[1..] == s;
    } else {
      assert QuoteChars(s, rest)[1..] == rest;
    }
  }

  lemma QuotedReads(s: string, rest: string)
    ensures TakeString(Quote(s, rest)) == Some((s, rest))
    ensures Quote(s, rest)[0] == '"'
  {
    CharsRead(s, rest);
    assert Quote(s, rest)[1..] == QuoteChars(s, rest);
  }

  function Present(ms: seq<Member>): seq<(string, Option<string>)> {
    if ms == [] then [] else [(ms[0].0, Some(ms[0].1))] + Present(ms[1..])
  }

  lemma MemberReads(name: string, value: string, rest: string)
    requires rest != "" && (rest[0] == '}' || rest[0] == ',')
    ensures TakeMember(Quote(name, ":" + Quote(value, rest))) == Some(((name, Some(value)), rest))
  {
    var quoted := Quote(value, rest);
    QuotedReads(name, ":" + quoted);
    QuotedReads(value, rest);
    assert (":" + quoted)[1..] == quoted;
    assert |quoted| >= 4 ==> quoted[..4][0] == '"';
    assert TakeValue(quoted) == Some((Some(value), rest));
  }

  lemma {:induction false} MembersRead(ms: seq<Member>)
    requires ms != []
    ensures ReadMembers(WriteMembers(ms)) == Some(Present(ms))
    ensures WriteMembers(ms)[0] == '"'
  {
    if |ms| == 1 {
      MemberReads(ms[0].0, ms[0].1, "}");
      QuotedReads(ms[0].0, ":" + Quote(ms[0].1, "}"));
      assert "}"[1..] == "" && SkipSpace("") == "";
      assert ms[1..] == [] && Present(ms) == [(ms[0].0, Some(ms[0].1))];
    } else {
      var tail := WriteMembers(ms[1..]);
      MembersRead(ms[1..]);
      MemberReads(ms[0].0, ms[0].1, "," + tail);
      QuotedReads(ms[0].0, ":" + Quote(ms[0].1, "," + tail));
      assert ("," + tail)[1..] == tail;
      assert SkipSpace(tail) == tail;
    }
  }

  /** What is written reads back member by member. */
  lemma EmptyObjectReads()
    ensures ReadObject("{}") == Some([])
  {
    assert "{}"[1..] == "}" && "}"[1..] == "";
  }

  lemma ObjectReads(ms: seq<Member>)
    ensures ReadObject(WriteObject(ms)) == Some(Present(ms))
  {
    if ms == [] {
      EmptyObjectReads();
    } else {
      MembersRead(ms);
      assert WriteObject(ms)[1..] == WriteMembers(ms);
    }
  }

  // ---- escapes ----

  const HEX := "0123456789abcdef"

  /** Every character that is escaped, and how. */
  lemma EscapesWritten(c: char)
    ensures c == '"' ==> QuoteChar(c) == ['\\', '"']
    ensures c == '\\' ==> QuoteChar(c) == ['\\', '\\']
    ensures c == '\n' ==> QuoteChar(c) == "\\n"
    ensures c == '\r' ==> QuoteChar(c) == "\\r"
    ensures c == '\t' ==> QuoteChar(c) == "\\t"
    ensures c as int == 8 ==> QuoteChar(c) == "\\b"
    ensures c as int == 12 ==> QuoteChar(c) == "\\f"
    ensures c == '<' ==> QuoteChar(c) == "\\u003c"
    ensures c == '>' ==> QuoteChar(c) == "\\u003e"
    ensures c == '&' ==> QuoteChar(c) == "\\u0026"
    ensures c as int == 0x2028 ==> QuoteChar(c) == "\\u2028"
    ensures c as int == 0x2029 ==> QuoteChar(c) == "\\u2029"
  {
  }

  /** The other control characters, in hexadecimal. */
  lemma ControlsWritten(c: char)
    requires c < ' ' && c as int !in {8, 9, 10, 12, 13}
    ensures QuoteChar(c) == "\\u00" + [HEX[c as int / 16], HEX[c as int % 16]]
  {
    assert HEX[0] == '0' && HEX[1] == '1';
    LowHex(c as int % 16);
  }

  lemma LowHex(n: int)
    requires 0 <= n < 16
    ensures HexDigit(n) == HEX[n]
  {
  }

  /** Escapes as they are read, "\/" among them. */
  lemma EscapesRead(rest: string)
    ensures TakeChar("\\\"" + rest) == Some(('"', rest))
    ensures TakeChar("\\\\" + rest) == Some(('\\', rest))
    ensures TakeChar("\\/" + rest) == Some(('/', rest))
    ensures TakeChar("\\n" + rest) == Some(('\n', rest))
    ensures TakeChar("\\r" + rest) == Some(('\r', rest))
    ensures TakeChar("\\t" + rest) == Some(('\t', rest))
  {
  }

  /** A pair of surrogates reads as the one character it stands for. */
  lemma SurrogatesRead(c: char, rest: string)
    requires c as int >= 0x1_0000
    ensures var n := c as int - 0x1_0000;
      TakeChar("\\u" + Hex4(0xD800 + n / 1024) + ("\\u" + Hex4(0xDC00 + n % 1024) + rest)) == Some((c, rest))
  {
    var n := c as int - 0x1_0000;
    var low := "\\u" + Hex4(0xDC00 + n % 1024) + rest;
    Hex4Reads(0xD800 + n / 1024, low);
    Hex4Reads(0xDC00 + n % 1024, rest);
  }

  /** A surrogate on its own reads as U+FFFD. */
  lemma LoneSurrogateReads(n: int, rest: string)
    requires 0xD800 <= n < 0xE000 && (rest == "" || rest[0] != '\\')
    ensures TakeChar("\\u" + Hex4(n) + rest) == Some(('\U{FFFD}', rest))
  {
    Hex4Reads(n, rest);
  }
}
