/** The one JSON text the host writes itself: the JSON-RPC error response
    that `json.dumps` renders when a dispatched request raises. `json.dumps`
    runs with its defaults, so strings are quoted with `ensure_ascii`
    escaping and members are separated by `", "` and `": "`. A decoder for
    the escapes the encoder produces (the one `json.loads` applies to a
    string) is the encoder's partner. */
module JsonText {
  import opened Text

  /** What the fallback response's message starts with. */
  const InternalErrorPrefix := "Internal error: "

  /** Lower-case hexadecimal digit of `v`. */
  function HexDigit(v: int): (c: char)
    requires 0 <= v < 16
    ensures ' ' <= c <= '~'
  {
    if v < 10 then (48 + v) as char else (87 + v) as char
  }

  /** Value of a hexadecimal digit of either case. */
  function HexValue(c: char): (r: Option<int>)
    ensures r.Some? ==> 0 <= r.value < 16
  {
    if '0' <= c <= '9' then Some(c as int - 48)
    else if 'a' <= c <= 'f' then Some(c as int - 87)
    else if 'A' <= c <= 'F' then Some(c as int - 55)
    else None
  }

  /** `'\\u{0:04x}'.format(n)` */
  function UnicodeEscape(n: int): (r: string)
    requires 0 <= n < 0x10000
    ensures |r| == 6 && r[0] == '\\' && r[1] == 'u'
  {
    ['\\', 'u', HexDigit(n / 4096), HexDigit((n / 256) % 16), HexDigit((n / 16) % 16), HexDigit(n % 16)]
  }

  /** The escape `json.dumps` writes for one character: `"` and `\` and the
      five named control characters get a two-character escape, the other
      printable ASCII characters stand for themselves, and everything else
      becomes `\uXXXX`, as a UTF-16 surrogate pair above U+FFFF. */
  function EscapeChar(c: char): (r: string)
  {
    var n := c as int;
    if c == '\\' then "\\\\"
    else if c == '"' then "\\\""
    else if c == '\n' then "\\n"
    else if c == '\r' then "\\r"
    else if c == '\t' then "\\t"
    else if n == 8 then "\\b"
    else if n == 12 then "\\f"
    else if ' ' <= c <= '~' then [c]
    else if n < 0x10000 then UnicodeEscape(n)
    else
      var v := n - 0x10000;
      UnicodeEscape(0xD800 + v / 1024) + UnicodeEscape(0xDC00 + v % 1024)
  }

  function EscapeAll(s: string): string
  {
    if |s| == 0 then [] else EscapeChar(s[0]) + EscapeAll(s[1..])
  }

  /** `json.dumps(s)` for a string `s`. */
  function Quote(s: string): string
  {
    "\"" + EscapeAll(s) + "\""
  }

  predicate IsPrintableAscii(s: string) {
    forall k :: 0 <= k < |s| ==> ' ' <= s[k] <= '~'
  }

  /** Everything of the fallback response before the message literal, as
      `json.dumps` writes it: keys in insertion order, members separated by
      `", "`, key and value by `": "`, and the JSON-RPC code -32603
      (internal error). Spelled in short pieces so that proofs about it
      stay small. */
  function ErrorResponseHead(): string
  {
    "{\"jsonrpc\": " + "\"2.0\", " + "\"error\": {" + "\"code\": " + "-32603, " + "\"message\": "
  }

  /** Everything of the fallback response after the message literal: the
      close of the `error` object and `"id": null`. */
  function ErrorResponseTail(): string
  {
    "}, \"id\": null}"
  }

  /** `json.dumps({"jsonrpc": "2.0", "error": {"code": -32603, "message":
      "Internal error: " + str(e)}, "id": None})`. The prefix of the message
      needs no escape, so only the exception's text goes through the
      encoder (`ErrorResponseQuotesMessage` shows this is the message
      encoded whole). */
  function ErrorResponse(error: string): string
  {
    ErrorResponseHead() + "\"" + InternalErrorPrefix + EscapeAll(error) + "\"" + ErrorResponseTail()
  }

  /** The value of four hexadecimal digits at the start of `t`. */
  function Hex4(t: string): (r: Option<int>)
    ensures r.Some? ==> 0 <= r.value < 0x10000
  {
    if |t| < 4 then None
    else match (HexValue(t[0]), HexValue(t[1]), HexValue(t[2]), HexValue(t[3]))
      case (Some(a), Some(b), Some(c), Some(d)) => Some(a * 4096 + b * 256 + c * 16 + d)
      case _ => None
  }

  /** The character that the escape `\u` + four hex digits at the start of
      `t` stands for, reading a following low surrogate after a high one;
      `None` for a lone surrogate, which has no `char`. */
  function UnicodeUnescape(t: string): (r: Option<(char, nat)>)
    ensures r.Some? ==> 6 <= r.value.1 <= |t|
  {
    if |t| < 6 || t[0] != '\\' || t[1] != 'u' then None
    else match Hex4(t[2..])
      case None => None
      case Some(hi) =>
        if 0xD800 <= hi < 0xDC00 then
          if |t| < 12 || t[6] != '\\' || t[7] != 'u' then None
          else match Hex4(t[8..])
            case None => None
            case Some(lo) =>
              if 0xDC00 <= lo < 0xE000 then
                Some(((0x10000 + (hi - 0xD800) * 1024 + (lo - 0xDC00)) as char, 12))
              else None
        else if 0xDC00 <= hi < 0xE000 then None
        else Some((hi as char, 6))
  }

  /** The character at the start of the inside of a JSON string literal and
      how many characters it took; `None` at an unescaped quote, a raw
      control character or a malformed escape. */
  function UnescapeChar(t: string): (r: Option<(char, nat)>)
    ensures r.Some? ==> 1 <= r.value.1 <= |t|
  {
    if |t| == 0 || t[0] == '"' || (t[0] as int) < 0x20 then None
    else if t[0] != '\\' then Some((t[0], 1))
    else if |t| < 2 then None
    else if t[1] == '"' then Some(('"', 2))
    else if t[1] == '\\' then Some(('\\', 2))
    else if t[1] == '/' then Some(('/', 2))
    else if t[1] == 'b' then Some((8 as char, 2))
    else if t[1] == 'f' then Some((12 as char, 2))
    else if t[1] == 'n' then Some(('\n', 2))
    else if t[1] == 'r' then Some(('\r', 2))
    else if t[1] == 't' then Some(('\t', 2))
    else if t[1] == 'u' then
      UnicodeUnescape(t)
    else None
  }

  /** The characters the inside `t` of a JSON string literal denotes. */
  function Unescape(t: string): (r: Option<string>)
    decreases |t|
  {
    if |t| == 0 then Some([])
    else match UnescapeChar(t)
      case None => None
      case Some((c, k)) =>
        match Unescape(t[k..])
        case None => None
        case Some(rest) => Some([c] + rest)
  }

  /** The string a JSON string literal denotes. */
  function Unquote(t: string): (r: Option<string>)
  {
    if |t| < 2 || t[0] != '"' || t[|t| - 1] != '"' then None
    else Unescape(t[1..|t| - 1])
  }

  /** The text of `t` between a given head and tail. */
  function Between(t: string, head: string, tail: string): (r: Option<string>)
  {
    if |t| < |head| + |tail| || t[..|head|] != head || t[|t| - |tail|..] != tail then None
    else Some(t[|head|..|t| - |tail|])
  }

  /** The `message` member of an error response in the layout above. */
  function ErrorResponseMessage(t: string): (r: Option<string>)
  {
    match Between(t, ErrorResponseHead(), ErrorResponseTail())
    case None => None
    case Some(literal) => Unquote(literal)
  }

  lemma {:induction false} HexDigitValue(v: int)
    requires 0 <= v < 16
    ensures HexValue(HexDigit(v)) == Some(v)
  {
  }

  /** Four hexadecimal digits recombine to the number they were taken from. */
  lemma {:induction false} HexGroups(n: int)
    requires 0 <= n < 0x10000
    ensures n == (n / 4096) * 4096 + ((n / 256) % 16) * 256 + ((n / 16) % 16) * 16 + n % 16
  {
    var q := n / 16;
    assert n == q * 16 + n % 16;
    assert q / 16 == n / 256;
    assert q / 256 == n / 4096;
    assert q == (q / 256) * 256 + ((q / 16) % 16) * 16 + q % 16;
  }

  /** The four digits of `\uXXXX` read back as the number written. */
  lemma {:induction false} Hex4Escape(n: int, rest: string)
    requires 0 <= n < 0x10000
    ensures Hex4(UnicodeEscape(n)[2..] + rest) == Some(n)
  {
    var t := UnicodeEscape(n)[2..] + rest;
    HexDigitValue(n / 4096);
    HexDigitValue((n / 256) % 16);
    HexDigitValue((n / 16) % 16);
    HexDigitValue(n % 16);
    assert t[0] == HexDigit(n / 4096) && t[1] == HexDigit((n / 256) % 16);
    assert t[2] == HexDigit((n / 16) % 16) && t[3] == HexDigit(n % 16);
    HexGroups(n);
  }

  /** A `\uXXXX` escape of a character outside the surrogate range reads
      back as that character. */
  lemma {:induction false} UnicodeEscapeBmp(c: char, rest: string)
    requires (c as int) < 0x10000
    ensures UnicodeUnescape(UnicodeEscape(c as int) + rest) == Some((c, 6))
  {
    var t := UnicodeEscape(c as int) + rest;
    assert t[2..] == UnicodeEscape(c as int)[2..] + rest;
    Hex4Escape(c as int, rest);
  }

  /** A surrogate pair of escapes reads back as the character above U+FFFF
      it was made from. */
  lemma {:induction false} UnicodeEscapePair(c: char, rest: string)
    requires (c as int) >= 0x10000
    ensures var v := c as int - 0x10000;
            UnicodeUnescape(UnicodeEscape(0xD800 + v / 1024) + UnicodeEscape(0xDC00 + v % 1024) + rest)
              == Some((c, 12))
  {
    var v := c as int - 0x10000;
    var hi, lo := 0xD800 + v / 1024, 0xDC00 + v % 1024;
    var t := UnicodeEscape(hi) + UnicodeEscape(lo) + rest;
    assert t[2..] == UnicodeEscape(hi)[2..] + (UnicodeEscape(lo) + rest);
    Hex4Escape(hi, UnicodeEscape(lo) + rest);
    assert t[8..] == UnicodeEscape(lo)[2..] + rest;
    Hex4Escape(lo, rest);
    assert t[6] == '\\' && t[7] == 'u';
    assert 0x10000 + (hi - 0xD800) * 1024 + (lo - 0xDC00) == c as int;
  }

  /** The decoder reads back exactly the character the encoder escaped,
      whatever follows it. */
  lemma {:induction false} UnescapeEscapeChar(c: char, rest: string)
    ensures UnescapeChar(EscapeChar(c) + rest) == Some((c, |EscapeChar(c)|))
  {
    var n := c as int;
    var t := EscapeChar(c) + rest;
    if c == '\\' || c == '"' || c == '\n' || c == '\r' || c == '\t' || n == 8 || n == 12 {
      assert t[0] == '\\' && t[1] == EscapeChar(c)[1];
    } else if ' ' <= c <= '~' {
      assert t[0] == c;
    } else if n < 0x10000 {
      UnicodeEscapeBmp(c, rest);
    } else {
      UnicodeEscapePair(c, rest);
    }
  }

  /** `json.loads(json.dumps(s)) == s`, for the inside of the literal. */
  lemma {:induction false} UnescapeEscapeAll(s: string)
    ensures Unescape(EscapeAll(s)) == Some(s)
  {
    if |s| > 0 {
      UnescapeEscapeChar(s[0], EscapeAll(s[1..]));
      UnescapeEscapeAll(s[1..]);
      assert (EscapeChar(s[0]) + EscapeAll(s[1..]))[|EscapeChar(s[0])|..] == EscapeAll(s[1..]);
      assert [s[0]] + s[1..] == s;
    }
  }

  lemma {:induction false} AsciiConcat(a: string, b: string)
    requires IsPrintableAscii(a) && IsPrintableAscii(b)
    ensures IsPrintableAscii(a + b)
  {
    forall k | 0 <= k < |a + b|
      ensures ' ' <= (a + b)[k] <= '~'
    {
      if k >= |a| {
        assert (a + b)[k] == b[k - |a|];
      }
    }
  }

  /** With `ensure_ascii`, every escape is printable ASCII. */
  lemma {:induction false} EscapeCharAscii(c: char)
    ensures IsPrintableAscii(EscapeChar(c))
  {
    var n := c as int;
    if n >= 0x10000 {
      var v := n - 0x10000;
      AsciiConcat(UnicodeEscape(0xD800 + v / 1024), UnicodeEscape(0xDC00 + v % 1024));
    }
  }

  lemma {:induction false} EscapeAllAscii(s: string)
    ensures IsPrintableAscii(EscapeAll(s))
  {
    if |s| > 0 {
      EscapeAllAscii(s[1..]);
      EscapeCharAscii(s[0]);
      AsciiConcat(EscapeChar(s[0]), EscapeAll(s[1..]));
    }
  }

  /** `json.loads(json.dumps(s)) == s`, and the literal is printable ASCII. */
  lemma {:induction false} QuoteRoundTrip(s: string)
    ensures Unquote(Quote(s)) == Some(s)
    ensures IsPrintableAscii(Quote(s))
  {
    var q := Quote(s);
    assert q[1..|q| - 1] == EscapeAll(s);
    UnescapeEscapeAll(s);
    EscapeAllAscii(s);
    AsciiConcat("\"", EscapeAll(s));
    AsciiConcat("\"" + EscapeAll(s), "\"");
  }

  lemma {:induction false} HeadAscii()
    ensures IsPrintableAscii(ErrorResponseHead())
  {
    var p1, p2, p3 := "{\"jsonrpc\": ", "\"2.0\", ", "\"error\": {";
    var p4, p5, p6 := "\"code\": ", "-32603, ", "\"message\": ";
    assert IsPrintableAscii(p1) && IsPrintableAscii(p2) && IsPrintableAscii(p3);
    assert IsPrintableAscii(p4) && IsPrintableAscii(p5) && IsPrintableAscii(p6);
    AsciiConcat(p1, p2);
    AsciiConcat(p1 + p2, p3);
    AsciiConcat(p1 + p2 + p3, p4);
    AsciiConcat(p1 + p2 + p3 + p4, p5);
    AsciiConcat(p1 + p2 + p3 + p4 + p5, p6);
  }

  /** The fallback response is printable ASCII whatever the exception said. */
  lemma {:induction false} ErrorResponseAscii(error: string)
    ensures IsPrintableAscii(ErrorResponse(error))
  {
    ErrorResponseQuotesMessage(error);
    HeadAscii();
    assert IsPrintableAscii(ErrorResponseTail());
    QuoteRoundTrip(InternalErrorPrefix + error);
    AsciiConcat(ErrorResponseHead(), Quote(InternalErrorPrefix + error));
    AsciiConcat(ErrorResponseHead() + Quote(InternalErrorPrefix + error), ErrorResponseTail());
  }

  /** Text after a prefix of printable ASCII other than `"` and `\` is
      escaped on its own; the prefix is written as it stands. */
  lemma {:induction false} PlainPrefixEscape(prefix: string, s: string)
    requires forall k :: 0 <= k < |prefix| ==> ' ' <= prefix[k] <= '~' && prefix[k] != '"' && prefix[k] != '\\'
    ensures EscapeAll(prefix + s) == prefix + EscapeAll(s)
    decreases |prefix|
  {
    if |prefix| == 0 {
      assert prefix + s == s;
    } else {
      PlainPrefixEscape(prefix[1..], s);
      PlainPrefixStep(prefix, s);
    }
  }

  /** One step of `PlainPrefixEscape`: a plain first character is written
      as it stands in front of what the rest becomes. */
  lemma PlainPrefixStep(prefix: string, s: string)
    requires |prefix| > 0 && ' ' <= prefix[0] <= '~' && prefix[0] != '"' && prefix[0] != '\\'
    requires EscapeAll(prefix[1..] + s) == prefix[1..] + EscapeAll(s)
    ensures EscapeAll(prefix + s) == prefix + EscapeAll(s)
  {
    SplitHead(prefix, s);
    PlainFirstEscape(prefix[0], prefix[1..] + s);
    AppendAssociative([prefix[0]], prefix[1..], EscapeAll(s));
  }

  /** A plain character in front is written as it stands. */
  lemma PlainFirstEscape(c: char, rest: string)
    requires ' ' <= c <= '~' && c != '"' && c != '\\'
    ensures EscapeAll([c] + rest) == [c] + EscapeAll(rest)
  {
    assert ([c] + rest)[1..] == rest;
  }

  lemma SplitHead<T>(a: seq<T>, b: seq<T>)
    requires |a| > 0
    ensures a + b == [a[0]] + (a[1..] + b) && a == [a[0]] + a[1..]
  {
  }

  /** `json.dumps` of a message that starts with a plain prefix. */
  lemma QuotePlainPrefix(prefix: string, s: string)
    requires forall k :: 0 <= k < |prefix| ==> ' ' <= prefix[k] <= '~' && prefix[k] != '"' && prefix[k] != '\\'
    ensures Quote(prefix + s) == "\"" + prefix + EscapeAll(s) + "\""
  {
    PlainPrefixEscape(prefix, s);
  }

  /** The fallback response holds the whole message encoded by `json.dumps`. */
  lemma ErrorResponseQuotesMessage(error: string)
    ensures ErrorResponse(error) == ErrorResponseHead() + Quote(InternalErrorPrefix + error) + ErrorResponseTail()
  {
    QuotePlainPrefix(InternalErrorPrefix, error);
  }

  lemma {:induction false} BetweenConcat(head: string, middle: string, tail: string)
    ensures Between(head + middle + tail, head, tail) == Some(middle)
  {
    var t := head + middle + tail;
    assert t[..|head|] == head;
    assert t[|t| - |tail|..] == tail;
    assert t[|head|..|t| - |tail|] == middle;
  }

  /** The fallback response carries `"Internal error: " + str(e)` as its
      message, and the message can be read back from the text. */
  lemma {:induction false} ErrorResponseRoundTrip(error: string)
    ensures ErrorResponseMessage(ErrorResponse(error)) == Some(InternalErrorPrefix + error)
  {
    ErrorResponseQuotesMessage(error);
    QuoteRoundTrip(InternalErrorPrefix + error);
    BetweenConcat(ErrorResponseHead(), Quote(InternalErrorPrefix + error), ErrorResponseTail());
  }
}
