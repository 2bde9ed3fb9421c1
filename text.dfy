/** Python's `str` operations that the host package relies on, stated over
    Dafny sequences: `startswith`, `in`, `split`, `join`, `strip`, one-character
    `replace`, `int(...)` of a decimal literal and `str(...)` of an integer. */
module Text {

  datatype Option<T> = None | Some(value: T)

  /** `s.startswith(prefix)` */
  predicate StartsWith<T(==)>(s: seq<T>, prefix: seq<T>) {
    |prefix| <= |s| && s[..|prefix|] == prefix
  }

  /** `sub in s`: `sub` occurs in `s`, at its start or further on */
  predicate Contains<T(==)>(s: seq<T>, sub: seq<T>)
    decreases |s|
  {
    StartsWith(s, sub) || (|s| > 0 && Contains(s[1..], sub))
  }

  /** An occurrence at any position makes `sub in s` hold. */
  lemma {:induction false} ContainsAt<T>(s: seq<T>, sub: seq<T>, i: nat)
    requires i <= |s| && StartsWith(s[i..], sub)
    ensures Contains(s, sub)
    decreases i
  {
    if i > 0 {
      assert s[1..][i - 1..] == s[i..];
      ContainsAt(s[1..], sub, i - 1);
    }
  }

  /** `sub in s` holds only through an occurrence at some position. */
  lemma {:induction false} ContainsWitness<T>(s: seq<T>, sub: seq<T>) returns (i: nat)
    requires Contains(s, sub)
    ensures i <= |s| && StartsWith(s[i..], sub)
    decreases |s|
  {
    if StartsWith(s, sub) {
      i := 0;
    } else {
      var j := ContainsWitness(s[1..], sub);
      assert s[1..][j..] == s[j + 1..];
      i := j + 1;
    }
  }

  /** Conversely, `sub` is not in `s` when no suffix of `s` starts with it. */
  lemma {:induction false} ContainsNoWitness<T>(s: seq<T>, sub: seq<T>)
    requires forall i :: 0 <= i <= |s| ==> !StartsWith(s[i..], sub)
    ensures !Contains(s, sub)
    decreases |s|
  {
    assert s[0..] == s;
    if |s| > 0 {
      forall i | 0 <= i <= |s[1..]|
        ensures !StartsWith(s[1..][i..], sub)
      {
        assert s[1..][i..] == s[i + 1..];
      }
      ContainsNoWitness(s[1..], sub);
    }
  }

  /** Index of the first occurrence of a non-empty `sep` in `s` (`s.find(sep)`). */
  function IndexOf<T(==)>(s: seq<T>, sep: seq<T>): (r: Option<nat>)
    requires |sep| > 0
    ensures r.Some? ==> r.value + |sep| <= |s|
    decreases |s|
  {
    if StartsWith(s, sep) then Some(0)
    else if |s| == 0 then None
    else match IndexOf(s[1..], sep)
      case None => None
      case Some(i) => Some(i + 1)
  }

  /** `find` returns the first position where `sep` starts, and `None` only
      when it starts nowhere. */
  lemma {:induction false} IndexOfFirst<T>(s: seq<T>, sep: seq<T>)
    requires |sep| > 0
    ensures IndexOf(s, sep).Some? ==> var i := IndexOf(s, sep).value;
              s[i..i + |sep|] == sep && forall k :: 0 <= k < i ==> !StartsWith(s[k..], sep)
    ensures IndexOf(s, sep).None? ==> forall k :: 0 <= k <= |s| ==> !StartsWith(s[k..], sep)
  {
    if IndexOf(s, sep).Some? {
      IndexOfFound(s, sep);
    } else {
      IndexOfAbsent(s, sep);
    }
  }

  /** A position `find` returns holds `sep`, and no earlier one does. */
  lemma {:induction false} IndexOfFound<T>(s: seq<T>, sep: seq<T>)
    requires |sep| > 0 && IndexOf(s, sep).Some?
    ensures var i := IndexOf(s, sep).value;
              s[i..i + |sep|] == sep && forall k :: 0 <= k < i ==> !StartsWith(s[k..], sep)
    decreases |s|
  {
    if StartsWith(s, sep) {
      assert s[0..|sep|] == s[..|sep|];
    } else {
      var i := IndexOf(s[1..], sep).value;
      IndexOfFound(s[1..], sep);
      assert s[i + 1..i + 1 + |sep|] == s[1..][i..i + |sep|];
      assert s[0..] == s;
      forall k | 1 <= k < i + 1
        ensures !StartsWith(s[k..], sep)
      {
        assert s[k..] == s[1..][k - 1..];
      }
    }
  }

  /** When `find` returns `None`, `sep` starts at no position. */
  lemma {:induction false} IndexOfAbsent<T>(s: seq<T>, sep: seq<T>)
    requires |sep| > 0 && IndexOf(s, sep).None?
    ensures forall k :: 0 <= k <= |s| ==> !StartsWith(s[k..], sep)
    decreases |s|
  {
    assert s[0..] == s;
    if |s| > 0 {
      IndexOfAbsent(s[1..], sep);
      forall k | 1 <= k <= |s|
        ensures !StartsWith(s[k..], sep)
      {
        assert s[k..] == s[1..][k - 1..];
      }
    }
  }

  /** `s.split(sep)` for a non-empty separator: the pieces between
      non-overlapping occurrences of `sep`, scanned left to right. */
  function Split<T(==)>(s: seq<T>, sep: seq<T>): (r: seq<seq<T>>)
    requires |sep| > 0
    ensures |r| > 0
    decreases |s|
  {
    match IndexOf(s, sep)
    case None => [s]
    case Some(i) => [s[..i]] + Split(s[i + |sep|..], sep)
  }

  /** `sep.join(parts)` */
  function Join<T>(parts: seq<seq<T>>, sep: seq<T>): seq<T>
  {
    if |parts| == 0 then []
    else if |parts| == 1 then parts[0]
    else parts[0] + sep + Join(parts[1..], sep)
  }

  /** `sep.join(s.split(sep)) == s`: splitting loses nothing. */
  lemma {:induction false} JoinSplit<T>(s: seq<T>, sep: seq<T>)
    requires |sep| > 0
    ensures Join(Split(s, sep), sep) == s
    decreases |s|
  {
    IndexOfFirst(s, sep);
    match IndexOf(s, sep)
    case None =>
    case Some(i) =>
      var rest := s[i + |sep|..];
      JoinSplit(rest, sep);
      assert s == s[..i] + sep + rest;
  }

  /** A match inside the prefix `s[..i]` would be a match in `s`. */
  lemma {:induction false} PrefixMatch<T>(s: seq<T>, i: nat, sep: seq<T>, k: nat)
    requires k <= i <= |s| && StartsWith(s[..i][k..], sep)
    ensures StartsWith(s[k..], sep)
  {
    assert forall j :: 0 <= j < |sep| ==> s[..i][k..][j] == s[k..][j];
  }

  /** No piece produced by `split` contains the separator. */
  lemma {:induction false} SplitPiecesFree<T>(s: seq<T>, sep: seq<T>)
    requires |sep| > 0
    ensures forall p :: p in Split(s, sep) ==> !Contains(p, sep)
    decreases |s|
  {
    IndexOfFirst(s, sep);
    match IndexOf(s, sep)
    case None =>
      if Contains(s, sep) {
        var k := ContainsWitness(s, sep);
      }
    case Some(i) =>
      SplitPiecesFree(s[i + |sep|..], sep);
      if Contains(s[..i], sep) {
        var k := ContainsWitness(s[..i], sep);
        PrefixMatch(s, i, sep, k);
      }
  }

  /** When no separator starts inside `head`, `head` is the first piece. */
  lemma {:induction false} SplitFirst<T>(head: seq<T>, sep: seq<T>, tail: seq<T>)
    requires |sep| > 0
    requires forall k :: 0 <= k < |head| ==> !StartsWith((head + sep + tail)[k..], sep)
    ensures Split(head + sep + tail, sep)[0] == head
  {
    var s := head + sep + tail;
    assert s[|head|..][..|sep|] == sep;
    assert StartsWith(s[|head|..], sep);
    IndexOfFirst(s, sep);
    var j := IndexOf(s, sep).value;
    if j > |head| {
      assert false;
    }
    assert s[j..][..|sep|] == s[j..j + |sep|];
    assert s[..|head|] == head;
  }

  /** The characters Python's `str.isspace` accepts. */
  predicate IsSpace(c: char) {
    ('\t' <= c <= '\r') || ('\U{1C}' <= c <= ' ') || c == '\U{85}' || c == '\U{A0}'
    || c == '\U{1680}' || ('\U{2000}' <= c <= '\U{200A}') || c == '\U{2028}' || c == '\U{2029}'
    || c == '\U{202F}' || c == '\U{205F}' || c == '\U{3000}'
  }

  /** Number of leading whitespace characters. */
  function LeadingSpaces(s: string): (n: nat)
    ensures n <= |s|
    ensures n < |s| ==> !IsSpace(s[n])
  {
    if |s| > 0 && IsSpace(s[0]) then 1 + LeadingSpaces(s[1..]) else 0
  }

  /** Number of trailing whitespace characters. */
  function TrailingSpaces(s: string): (n: nat)
    ensures n <= |s|
    ensures n < |s| ==> !IsSpace(s[|s| - 1 - n])
  {
    if |s| > 0 && IsSpace(s[|s| - 1]) then 1 + TrailingSpaces(s[..|s| - 1]) else 0
  }

  /** The characters `LeadingSpaces` counts are all whitespace. */
  lemma {:induction false} LeadingSpacesAreSpaces(s: string)
    ensures forall k :: 0 <= k < LeadingSpaces(s) ==> IsSpace(s[k])
  {
    if |s| > 0 && IsSpace(s[0]) {
      LeadingSpacesAreSpaces(s[1..]);
      assert forall k :: 1 <= k < |s| ==> s[k] == s[1..][k - 1];
    }
  }

  /** The characters `TrailingSpaces` counts are all whitespace. */
  lemma {:induction false} TrailingSpacesAreSpaces(s: string)
    ensures forall k :: |s| - TrailingSpaces(s) <= k < |s| ==> IsSpace(s[k])
  {
    if |s| > 0 && IsSpace(s[|s| - 1]) {
      TrailingSpacesAreSpaces(s[..|s| - 1]);
      assert forall k :: 0 <= k < |s| - 1 ==> s[k] == s[..|s| - 1][k];
    }
  }

  /** `s.strip()`: what remains once the whitespace at both ends is removed.
      The result is a slice of `s`, starting after the leading whitespace,
      whose ends are not whitespace. */
  function Strip(s: string): (r: string)
    ensures LeadingSpaces(s) + |r| <= |s| && r == s[LeadingSpaces(s)..LeadingSpaces(s) + |r|]
    ensures |r| > 0 ==> !IsSpace(r[0]) && !IsSpace(r[|r| - 1])
  {
    var a := LeadingSpaces(s);
    if a == |s| then []
    else
      TrailingSpacesAreSpaces(s);
      s[a..|s| - TrailingSpaces(s)]
  }

  /** Everything `strip` cuts off, on either side, is whitespace. */
  lemma {:induction false} StripRemovesOnlySpaces(s: string)
    ensures forall k :: 0 <= k < LeadingSpaces(s) ==> IsSpace(s[k])
    ensures forall k :: LeadingSpaces(s) + |Strip(s)| <= k < |s| ==> IsSpace(s[k])
  {
    LeadingSpacesAreSpaces(s);
    TrailingSpacesAreSpaces(s);
  }

  /** `s.strip()` leaves a string alone whose ends are not whitespace. */
  lemma {:induction false} StripUnspaced(s: string)
    requires |s| > 0 && !IsSpace(s[0]) && !IsSpace(s[|s| - 1])
    ensures Strip(s) == s
  {
  }

  /** `s.replace(from, to)` for single characters: every `from` becomes `to`,
      every other character stays where it was. */
  function ReplaceChar(s: string, from: char, to: char): (r: string)
    ensures |r| == |s|
    ensures forall k :: 0 <= k < |s| && s[k] == from ==> r[k] == to
    ensures forall k :: 0 <= k < |s| && s[k] != from ==> r[k] == s[k]
  {
    if |s| == 0 then []
    else [if s[0] == from then to else s[0]] + ReplaceChar(s[1..], from, to)
  }

  /** After the replacement no `from` is left (when it differs from `to`). */
  lemma {:induction false} ReplaceCharRemoves(s: string, from: char, to: char)
    requires from != to
    ensures from !in ReplaceChar(s, from, to)
  {
    var r := ReplaceChar(s, from, to);
    forall k | 0 <= k < |r| ensures r[k] != from {
    }
  }

  predicate IsDigit(c: char) {
    '0' <= c <= '9'
  }

  function DigitChar(d: nat): (c: char)
    requires d < 10
    ensures IsDigit(c) && c as int - '0' as int == d
  {
    ('0' as int + d) as char
  }

  /** `str(n)` of a non-negative integer: its decimal digits, without a
      leading zero unless `n` is zero. */
  function DecimalString(n: nat): (r: string)
    ensures |r| > 0 && forall k :: 0 <= k < |r| ==> IsDigit(r[k])
    ensures r[0] == '0' ==> r == "0"
  {
    if n < 10 then [DigitChar(n)] else DecimalString(n / 10) + [DigitChar(n % 10)]
  }

  /** The number a string of decimal digits denotes, most significant first. */
  function DigitsValue(s: string): nat
    requires forall k :: 0 <= k < |s| ==> IsDigit(s[k])
  {
    if |s| == 0 then 0
    else
      assert IsDigit(s[|s| - 1]);
      DigitsValue(s[..|s| - 1]) * 10 + (s[|s| - 1] as int - '0' as int)
  }

  /** Reading back the digits `str(n)` produced gives `n`. */
  lemma {:induction false} DecimalStringValue(n: nat)
    ensures DigitsValue(DecimalString(n)) == n
  {
    if n >= 10 {
      DecimalStringValue(n / 10);
      var s := DecimalString(n);
      assert s[..|s| - 1] == DecimalString(n / 10);
    }
  }

  /** The most decimal digits CPython converts between `int` and `str`
      (`sys.int_max_str_digits`, 4300 unless configured); beyond it `int()`
      and `str()` raise `ValueError`. */
  const MaxStrDigits := 4300

  /** `str(n)` stays within the digit limit. */
  predicate FitsStr(n: nat) {
    |DecimalString(n)| <= MaxStrDigits
  }

  /** `str(i)` of an integer within the digit limit. */
  function IntString(i: int): (r: string)
    ensures i < 0 <==> |r| > 0 && r[0] == '-'
  {
    if i < 0 then "-" + DecimalString(-i) else DecimalString(i)
  }

  /** The digit part of a Python decimal integer literal: a digit, then
      digits each optionally preceded by a single `_`. */
  predicate IsDigitGroups(s: string)
    decreases |s|
  {
    && |s| > 0 && IsDigit(s[0])
    && (|s| == 1 || IsDigitGroups(if s[1] == '_' then s[2..] else s[1..]))
  }

  /** The digits of `s` in order, the `_` separators dropped. */
  function Digits(s: string): (r: string)
    ensures forall k :: 0 <= k < |r| ==> IsDigit(r[k])
    ensures (forall k :: 0 <= k < |s| ==> IsDigit(s[k])) ==> r == s
  {
    if |s| == 0 then []
    else (if IsDigit(s[0]) then [s[0]] else []) + Digits(s[1..])
  }

  /** `int(s)` on a string: surrounding whitespace, an optional sign, then
      digit groups; anything else raises `ValueError` (here `None`), and so
      do more digits than the limit, leading zeros counted and separators
      not. Only the ASCII digits are read. */
  function PyInt(s: string): (r: Option<int>)
  {
    var t := Strip(s);
    if |t| > 0 && (t[0] == '+' || t[0] == '-') then
      if IsDigitGroups(t[1..]) && |Digits(t[1..])| <= MaxStrDigits then
        var v: int := DigitsValue(Digits(t[1..]));
        Some(if t[0] == '-' then -v else v)
      else None
    else if IsDigitGroups(t) && |Digits(t)| <= MaxStrDigits then Some(DigitsValue(Digits(t)))
    else None
  }

  /** A plain run of digits is a valid digit-group literal with nothing
      to remove. */
  lemma {:induction false} PlainDigitGroups(d: string)
    requires |d| > 0 && forall k :: 0 <= k < |d| ==> IsDigit(d[k])
    ensures IsDigitGroups(d) && Digits(d) == d
    decreases |d|
  {
    if |d| > 1 {
      assert d[1] != '_' by { assert IsDigit(d[1]); }
      PlainDigitGroups(d[1..]);
    }
  }

  /** A plain run of digits reads back as its value, unless it has more
      digits than the limit. */
  lemma {:induction false} PyIntDigits(d: string)
    requires |d| > 0 && forall k :: 0 <= k < |d| ==> IsDigit(d[k])
    ensures PyInt(d) == if |d| <= MaxStrDigits then Some(DigitsValue(d) as int) else None
  {
    StripUnspaced(d);
    assert d[0] != '+' && d[0] != '-' by { assert IsDigit(d[0]); }
    UnsignedPyInt(d);
    PlainDigitGroups(d);
  }

  /** An unsigned literal with nothing to strip is read as its digits. */
  lemma UnsignedPyInt(t: string)
    requires Strip(t) == t && |t| > 0 && t[0] != '+' && t[0] != '-'
    ensures PyInt(t) == if IsDigitGroups(t) && |Digits(t)| <= MaxStrDigits then Some(DigitsValue(Digits(t)) as int) else None
  {
  }

  /** A minus sign and a run of digits read back as the negated value,
      unless there are more digits than the limit. */
  lemma {:induction false} PyIntNegatedDigits(d: string)
    requires |d| > 0 && forall k :: 0 <= k < |d| ==> IsDigit(d[k])
    ensures PyInt("-" + d) == if |d| <= MaxStrDigits then Some(-(DigitsValue(d) as int)) else None
  {
    var t := "-" + d;
    assert t[0] == '-' && t[1..] == d;
    StripUnspaced(t);
    PlainDigitGroups(t[1..]);
  }

  /** `int(str(i)) == i` for every `i` that `str` converts. */
  lemma {:induction false} IntStringRoundTrip(i: int)
    requires FitsStr(if i < 0 then -i else i)
    ensures PyInt(IntString(i)) == Some(i)
  {
    var n := if i < 0 then -i else i;
    DecimalStringValue(n);
    if i < 0 {
      PyIntNegatedDigits(DecimalString(n));
    } else {
      PyIntDigits(DecimalString(n));
    }
  }

  lemma AppendAssociative<T>(a: seq<T>, b: seq<T>, c: seq<T>)
    ensures a + b + c == a + (b + c)
  {
  }
}
