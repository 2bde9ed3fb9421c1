/** What the framing of `named_pipe.py` guarantees: a frame written by
    `write_message` is read back whole by `read_message` (even when its body
    holds `\r\n\r\n`), frames follow each other on the pipe, and each way a
    frame can be malformed ends in `None`. */
module NamedPipeProperties {
  import opened Text
  import opened Utf8
  import opened NamedPipe

  /** The header line without its line ends: `Content-Length: <n>`. */
  function LengthLine(n: nat): string {
    ContentLengthKey + " " + DecimalString(n)
  }

  lemma {:induction false} LengthLineChars(n: nat)
    ensures IsAscii(LengthLine(n))
    ensures forall k :: 0 <= k < |LengthLine(n)| ==> LengthLine(n)[k] != '\r'
    ensures HeaderText(n) == LengthLine(n) + "\r\n" + "\r\n"
  {
    var d := DecimalString(n);
    assert LengthLine(n) == ContentLengthKey + " " + d;
    forall k | 0 <= k < |LengthLine(n)|
      ensures (LengthLine(n)[k] as int) < 0x80 && LengthLine(n)[k] != '\r'
    {
      if k >= 16 {
        assert LengthLine(n)[k] == d[k - 16];
      }
    }
  }

  lemma {:induction false} TerminatorBytes()
    ensures Encode("\r\n\r\n") == Terminator
  {
    var s := "\r\n\r\n";
    assert Encode(s[3..]) == [10];
    assert Encode(s[2..]) == [13, 10];
    assert Encode(s[1..]) == [10, 13, 10];
  }

  /** The header bytes are the length line's bytes followed by the terminator,
      and no byte of the length line is a carriage return. */
  lemma {:induction false} HeaderBytes(n: nat)
    ensures Encode(HeaderText(n)) == Encode(LengthLine(n)) + Terminator
    ensures forall k :: 0 <= k < |Encode(LengthLine(n))| ==> Encode(LengthLine(n))[k] != 13
  {
    LengthLineChars(n);
    EncodeAppend(LengthLine(n), "\r\n\r\n");
    assert LengthLine(n) + "\r\n" + "\r\n" == LengthLine(n) + "\r\n\r\n";
    TerminatorBytes();
    EncodeAscii(LengthLine(n));
  }

  /** Bytes without a carriage return cannot hold the terminator, so the scan
      cannot stop before the terminator that follows them. */
  lemma {:induction false} NoTerminatorBefore(a: seq<byte>, rest: seq<byte>, k: nat)
    requires forall j :: 0 <= j < |a| ==> a[j] != 13
    requires k < |a| + 4
    ensures k <= |a + Terminator + rest| ==> !Contains((a + Terminator + rest)[..k], Terminator)
  {
    var s := a + Terminator + rest;
    if k <= |s| {
      forall i | 0 <= i <= |s[..k]|
        ensures !StartsWith(s[..k][i..], Terminator)
      {
        if i + 4 <= k {
          assert s[..k][i..][0] == a[i];
        }
      }
      ContainsNoWitness(s[..k], Terminator);
    }
  }

  /** The header scan from `e` stops at the first end whose gathered bytes
      hold the terminator, and finds nothing when no end does. */
  lemma {:induction false} ScanHeaderFirst(input: seq<byte>, e: nat)
    requires e <= |input|
    ensures ScanHeader(input, e).Some? ==> HeaderComplete(input, ScanHeader(input, e).value)
    ensures ScanHeader(input, e).Some? ==>
              forall k :: e <= k < ScanHeader(input, e).value ==> !HeaderComplete(input, k)
    ensures ScanHeader(input, e).None? ==> forall k :: e <= k <= |input| ==> !HeaderComplete(input, k)
    decreases |input| - e
  {
    if !HeaderComplete(input, e) && e < |input| {
      ScanHeaderFirst(input, e + 1);
    }
  }

  /** The header scan stops at the first end whose gathered bytes hold the
      terminator. */
  lemma {:induction false} ScanFinds(input: seq<byte>, e: nat)
    requires e <= |input| && HeaderComplete(input, e)
    requires forall k :: 0 <= k < e ==> !HeaderComplete(input, k)
    ensures ScanHeader(input, 0) == Some(e)
  {
    ScanHeaderFirst(input, 0);
  }

  /** On input holding `a`, then `\r\n\r\n`, with no carriage return in
      `a`, the header scan stops right after that terminator. */
  lemma {:induction false} ScanToTerminator(a: seq<byte>, tail: seq<byte>)
    requires forall j :: 0 <= j < |a| ==> a[j] != 13
    ensures |a + Terminator| <= |(a + Terminator) + tail|
    ensures ScanHeader((a + Terminator) + tail, 0) == Some(|a + Terminator|)
  {
    var s := (a + Terminator) + tail;
    var e := |a + Terminator|;
    assert s[..e][|a|..] == Terminator;
    ContainsAt(s[..e], Terminator, |a|);
    assert s == a + Terminator + tail;
    forall k | 0 <= k < e ensures !HeaderComplete(s, k) {
      NoTerminatorBefore(a, tail, k);
    }
    ScanFinds(s, e);
  }

  lemma {:induction false} StripLeadingSpace(d: string)
    requires |d| > 0 && !IsSpace(d[0]) && !IsSpace(d[|d| - 1])
    ensures Strip(" " + d) == d
  {
    var s := " " + d;
    assert LeadingSpaces(s) == 1 by {
      assert s[1..] == d;
    }
    assert !IsSpace(s[|s| - 1]);
  }

  /** The first line of the header text is the length line. */
  lemma {:induction false} LengthLineFirst(n: nat)
    ensures Split(HeaderText(n), "\r\n")[0] == LengthLine(n)
  {
    var line := LengthLine(n);
    LengthLineChars(n);
    forall k | 0 <= k < |line| ensures !StartsWith((line + "\r\n" + "\r\n")[k..], "\r\n") {
      assert (line + "\r\n" + "\r\n")[k..][0] == line[k];
    }
    SplitFirst(line, "\r\n", "\r\n");
  }

  /** The value after the key reads back as `n`. */
  lemma {:induction false} LengthValueParses(n: nat)
    requires FitsStr(n)
    ensures StartsWith(LengthLine(n), ContentLengthKey)
    ensures PyInt(Strip(LengthLine(n)[|ContentLengthKey|..])) == Some(n)
  {
    var d := DecimalString(n);
    assert LengthLine(n)[..|ContentLengthKey|] == ContentLengthKey;
    assert LengthLine(n)[|ContentLengthKey|..] == " " + d;
    StripLeadingSpace(d);
    IntStringRoundTrip(n);
  }

  /** The header `write_message` writes declares `n` to `read_message`. */
  lemma {:induction false} HeaderDeclares(n: nat)
    requires FitsStr(n)
    ensures HeaderLength(Encode(HeaderText(n))) == Some(n)
  {
    DecodeEncode(HeaderText(n));
    LengthLineFirst(n);
    LengthValueParses(n);
    var lines := Split(HeaderText(n), "\r\n");
    assert ContentLengthValue(lines) == Some(LengthLine(n)[|ContentLengthKey|..]);
  }

  /** Once the header is found and declares a length whose body step
      yields a message, `read_message` returns that message. */
  lemma {:induction false} ReadFrameWhole(input: seq<byte>, endError: int, e: nat, n: nat,
                                          message: string, used: nat)
    requires e <= |input|
    requires ScanHeader(input, 0) == Some(e)
    requires HeaderLength(input[..e]) == Some(n)
    requires ReadBody(input, e, endError, n) == (Some(message), used)
    ensures ReadFrame(input, endError) == (Some(message), used)
  {
    ReadFrameScan(input, 0, endError);
  }

  /** A frame of a non-empty message is a header line with no carriage
      return, the terminator, then a non-empty body; the header declares the
      body's length and the body decodes to the message. */
  lemma {:induction false} FrameLayout(message: string) returns (a: seq<byte>, body: seq<byte>)
    requires message != "" && LengthFits(message)
    ensures EncodeFrame(message) == a + Terminator + body
    ensures forall j :: 0 <= j < |a| ==> a[j] != 13
    ensures HeaderLength(a + Terminator) == Some(|body|)
    ensures 0 < |body| && Decode(body) == Some(message)
  {
    body := Encode(message);
    var n := |body|;
    HeaderBytes(n);
    HeaderDeclares(n);
    EncodeLength(message);
    DecodeEncode(message);
    a := Encode(LengthLine(n));
  }

  /** The header block `h` at the front of the input is its first `|h|` bytes. */
  lemma {:induction false} HeaderAt(h: seq<byte>, tail: seq<byte>, n: int)
    requires HeaderLength(h) == Some(n)
    ensures HeaderLength((h + tail)[..|h|]) == Some(n)
  {
    assert (h + tail)[..|h|] == h;
  }

  /** A non-empty body that decodes to `message`, after the header `h`, is
      read and decoded whole by the body step. */
  lemma {:induction false} BodyAt(h: seq<byte>, body: seq<byte>, rest: seq<byte>, endError: int, message: string)
    requires 0 < |body| && Decode(body) == Some(message)
    ensures ReadBody(h + (body + rest), |h|, endError, |body|) == (Some(message), |h| + |body|)
  {
    assert (h + (body + rest))[|h|..][..|body|] == body;
  }

  /** The same, for input that starts with a frame laid out as `a`, the
      terminator and `body`: the body step consumes the whole frame. */
  lemma {:induction false} BodyOfFrame(frame: seq<byte>, a: seq<byte>, body: seq<byte>, rest: seq<byte>,
                                       endError: int, message: string)
    requires frame == a + Terminator + body
    requires 0 < |body| && Decode(body) == Some(message)
    ensures ReadBody(frame + rest, |a + Terminator|, endError, |body|) == (Some(message), |frame|)
  {
    BodyAt(a + Terminator, body, rest, endError, message);
    Regroup(frame, a, body, rest);
  }

  /** Regrouping the input that starts with a frame laid out as `a`, the
      terminator and `body`. */
  lemma {:induction false} Regroup(frame: seq<byte>, a: seq<byte>, body: seq<byte>, rest: seq<byte>)
    requires frame == a + Terminator + body
    ensures frame + rest == (a + Terminator) + (body + rest)
    ensures |frame| == |a + Terminator| + |body|
  {
  }

  /** The three steps of `read_message` on input that starts with the frame
      of a non-empty message: where the header scan stops, what the header
      declares, and what the body step returns. */
  lemma {:induction false} FrameSteps(message: string, rest: seq<byte>, endError: int) returns (e: nat, n: nat)
    requires message != "" && LengthFits(message)
    ensures e <= |EncodeFrame(message) + rest|
    ensures ScanHeader(EncodeFrame(message) + rest, 0) == Some(e)
    ensures HeaderLength((EncodeFrame(message) + rest)[..e]) == Some(n)
    ensures ReadBody(EncodeFrame(message) + rest, e, endError, n) == (Some(message), |EncodeFrame(message)|)
  {
    var a, body := FrameLayout(message);
    ScanToTerminator(a, body + rest);
    HeaderAt(a + Terminator, body + rest, |body|);
    BodyOfFrame(EncodeFrame(message), a, body, rest, endError, message);
    Regroup(EncodeFrame(message), a, body, rest);
    e, n := |a + Terminator|, |body|;
  }

  /** Round trip: when the peer has sent the frame `write_message` built for
      a non-empty message, followed by anything, `read_message` returns that
      message and consumes exactly the frame, whatever the body holds
      (`\r\n\r\n` included). */
  lemma {:induction false} FrameRoundTrip(message: string, rest: seq<byte>, endError: int)
    requires message != "" && LengthFits(message)
    ensures ReadFrame(EncodeFrame(message) + rest, endError) == (Some(message), |EncodeFrame(message)|)
  {
    var e, n := FrameSteps(message, rest, endError);
    ReadFrameWhole(EncodeFrame(message) + rest, endError, e, n, message, |EncodeFrame(message)|);
  }

  /** Two frames written one after the other are read back in order: the
      first read consumes exactly the first frame and leaves the second. */
  lemma {:induction false} TwoFramesInOrder(first: string, second: string, rest: seq<byte>, endError: int)
    requires first != "" && second != "" && LengthFits(first) && LengthFits(second)
    ensures var input := EncodeFrame(first) + (EncodeFrame(second) + rest);
            var (m1, used1) := ReadFrame(input, endError);
            m1 == Some(first) && input[used1..] == EncodeFrame(second) + rest
            && ReadFrame(input[used1..], endError) == (Some(second), |EncodeFrame(second)|)
  {
    FrameRoundTrip(first, EncodeFrame(second) + rest, endError);
    FrameRoundTrip(second, rest, endError);
    assert (EncodeFrame(first) + (EncodeFrame(second) + rest))[|EncodeFrame(first)|..] == EncodeFrame(second) + rest;
  }

  /** The header scan consumes nothing past the first `\r\n\r\n`: where it
      stops, the gathered bytes end with the terminator. */
  lemma {:induction false} ScanStopsAtTerminator(input: seq<byte>, e: nat)
    requires ScanHeader(input, 0) == Some(e)
    ensures 4 <= e && input[e - 4..e] == Terminator
  {
    var s := input[..e];
    ScanHeaderFirst(input, 0);
    assert HeaderComplete(input, e);
    var i := ContainsWitness(s, Terminator);
    assert input[..i + 4] == s[..i + 4];
    assert s[..i + 4][i..] == s[i..][..4];
    ContainsAt(input[..i + 4], Terminator, i);
    assert HeaderComplete(input, i + 4);
    assert i + 4 == e;
    assert input[e - 4..e] == s[i..][..4];
  }

  lemma {:induction false} ContainsInPrefix(s: seq<byte>, k: nat)
    requires k <= |s| && Contains(s[..k], Terminator)
    ensures Contains(s, Terminator)
  {
    var i := ContainsWitness(s[..k], Terminator);
    assert s[i..][..4] == s[..k][i..][..4];
    ContainsAt(s, Terminator, i);
  }

  /** Input that ends before the header terminator gives `None`, and all of
      it is consumed. */
  lemma {:induction false} TruncatedHeader(input: seq<byte>, endError: int)
    requires !Contains(input, Terminator)
    ensures ReadFrame(input, endError) == (None, |input|)
  {
    ReadFrameScan(input, 0, endError);
    forall e | 0 <= e <= |input| ensures !HeaderComplete(input, e) {
      if Contains(input[..e], Terminator) {
        ContainsInPrefix(input, e);
      }
    }
    ScanHeaderFirst(input, 0);
  }

  /** A header block without a `Content-Length` line gives `None`. */
  lemma {:induction false} MissingContentLength(input: seq<byte>, endError: int, e: nat, text: string)
    requires ScanHeader(input, 0) == Some(e)
    requires Decode(input[..e]) == Some(text)
    requires forall line :: line in Split(text, "\r\n") ==> !StartsWith(line, ContentLengthKey)
    ensures ReadFrame(input, endError).0 == None
  {
    ReadFrameScan(input, 0, endError);
  }

  /** A `Content-Length` value that `int()` rejects gives `None`. */
  lemma {:induction false} MalformedContentLength(input: seq<byte>, endError: int, e: nat, text: string, v: string)
    requires ScanHeader(input, 0) == Some(e)
    requires Decode(input[..e]) == Some(text)
    requires ContentLengthValue(Split(text, "\r\n")) == Some(v) && PyInt(Strip(v)) == None
    ensures ReadFrame(input, endError).0 == None
  {
    ReadFrameScan(input, 0, endError);
  }

  /** Among several `Content-Length` lines the first one decides. */
  lemma {:induction false} FirstContentLengthWins(before: seq<string>, line: string, after: seq<string>)
    requires forall l :: l in before ==> !StartsWith(l, ContentLengthKey)
    requires StartsWith(line, ContentLengthKey)
    ensures ContentLengthValue(before + [line] + after) == Some(line[|ContentLengthKey|..])
  {
    if |before| > 0 {
      assert (before + [line] + after)[1..] == before[1..] + [line] + after;
      FirstContentLengthWins(before[1..], line, after);
    } else {
      assert (before + [line] + after)[0] == line;
    }
  }

  /** A body shorter than declared (the peer closed early) gives `None`. */
  lemma {:induction false} ShortBody(input: seq<byte>, endError: int, e: nat)
    requires ScanHeader(input, 0) == Some(e)
    requires HeaderLength(input[..e]).Some? && HeaderLength(input[..e]).value > |input| - e
    ensures ReadFrame(input, endError).0 == None
  {
    ReadFrameScan(input, 0, endError);
  }

  /** A zero-length body gives `None`, so the frame `write_message("")`
      produces is not read back. */
  lemma {:induction false} EmptyMessageNotReadBack(rest: seq<byte>, endError: int)
    ensures ReadFrame(EncodeFrame("") + rest, endError).0 == None
  {
    ReadFrameScan(EncodeFrame("") + rest, 0, endError);
    var e := EmptySteps(rest);
  }

  /** The header scan and the declared length on input that starts with the
      frame of the empty message. */
  lemma {:induction false} EmptySteps(rest: seq<byte>) returns (e: nat)
    ensures e <= |EncodeFrame("") + rest|
    ensures ScanHeader(EncodeFrame("") + rest, 0) == Some(e)
    ensures HeaderLength((EncodeFrame("") + rest)[..e]) == Some(0)
  {
    var a := EmptyLayout();
    ScanToTerminator(a, rest);
    HeaderAt(a + Terminator, rest, 0);
    e := |a + Terminator|;
  }

  /** The frame of the empty message is a header line with no carriage
      return and the terminator, declaring a body of length zero. */
  lemma {:induction false} EmptyLayout() returns (a: seq<byte>)
    ensures EncodeFrame("") == a + Terminator
    ensures forall j :: 0 <= j < |a| ==> a[j] != 13
    ensures HeaderLength(a + Terminator) == Some(0)
  {
    EmptyFrame();
    HeaderBytes(0);
    HeaderDeclares(0);
    a := Encode(LengthLine(0));
  }

  /** The frame of the empty message is the header declaring zero, alone. */
  lemma {:induction false} EmptyFrame()
    ensures EncodeFrame("") == Encode(HeaderText(0))
  {
    assert Encode("") == [];
    assert Encode(HeaderText(0)) + [] == Encode(HeaderText(0));
  }

  /** `read_message` never yields the empty string: a message it returns came
      from a non-empty body. */
  lemma {:induction false} ReadNeverEmpty(input: seq<byte>, endError: int)
    ensures ReadFrame(input, endError).0 != Some("")
  {
    ReadFrameScan(input, 0, endError);
  }

  /** The declared length counts UTF-8 bytes: it equals the number of
      characters exactly when the message is ASCII. */
  lemma {:induction false} DeclaredLengthCountsBytes(message: string)
    requires LengthFits(message)
    ensures HeaderLength(Encode(HeaderText(|Encode(message)|))) == Some(|Encode(message)|)
    ensures |Encode(message)| == |message| <==> IsAscii(message)
  {
    HeaderDeclares(|Encode(message)|);
    EncodeLength(message);
  }
}
