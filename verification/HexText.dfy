/** Hexadecimal text, as bytes and as Python's int() reads it. */
module HexText {
  import opened Bytes
  import opened Common

  // ----- Hexadecimal digits -----

  predicate IsHex(c: char) {
    '0' <= c <= '9' || 'a' <= c <= 'f' || 'A' <= c <= 'F'
  }

  function HexDigit(c: char): (v: nat)
    requires IsHex(c)
    ensures v < 16
  {
    if '0' <= c <= '9' then c as int - '0' as int
    else if 'a' <= c <= 'f' then c as int - 'a' as int + 10
    else c as int - 'A' as int + 10
  }

  predicate AllHex(s: string) {
    forall i :: 0 <= i < |s| ==> IsHex(s[i])
  }

  /** int(s, 16) */
  function HexValue(s: string): nat
    requires AllHex(s)
  {
    if s == [] then 0 else 16 * HexValue(s[..|s| - 1]) + HexDigit(s[|s| - 1])
  }

  /** The bytes that pairs of digits stand for. */
  function HexBytes(s: string): (b: seq<byte>)
    requires AllHex(s) && |s| % 2 == 0
    ensures |b| == |s| / 2
  {
    if s == [] then [] else [16 * HexDigit(s[0]) + HexDigit(s[1])] + HexBytes(s[2..])
  }

  lemma {:induction false} HexBytesAt(s: string, k: nat)
    requires AllHex(s) && |s| % 2 == 0 && 2 * k < |s|
    ensures HexBytes(s)[k] == 16 * HexDigit(s[2 * k]) + HexDigit(s[2 * k + 1])
    decreases |s|
  {
    if k > 0 {
      HexBytesAt(s[2..], k - 1);
    }
  }

  lemma HexValueOfTwo(s: string, d: char, e: char)
    requires AllHex(s) && IsHex(d) && IsHex(e)
    ensures HexValue(s + [d, e]) == 256 * HexValue(s) + 16 * HexDigit(d) + HexDigit(e)
  {
    var t := s + [d, e];
    assert t[..|t| - 1] == s + [d];
    assert (s + [d])[..|s|] == s;
  }

  /** Packing the number of eight digits gives the bytes of their pairs. */
  lemma WordOfEightDigits(s: string)
    requires AllHex(s) && |s| == 8
    ensures HexValue(s) < WORD32 && PackBE32(HexValue(s)) == HexBytes(s)
  {
    var w := HexBytes(s);
    HexBytesAt(s, 0);
    HexBytesAt(s, 1);
    HexBytesAt(s, 2);
    HexBytesAt(s, 3);
    ValueOfEight(s);
    BE32RoundTripBytes(w);
  }

  lemma ValueOfEight(s: string)
    requires AllHex(s) && |s| == 8
    ensures HexValue(s) == (((16 * HexDigit(s[0]) + HexDigit(s[1])) * 256
                             + 16 * HexDigit(s[2]) + HexDigit(s[3])) * 256
                            + 16 * HexDigit(s[4]) + HexDigit(s[5])) * 256
                           + 16 * HexDigit(s[6]) + HexDigit(s[7])
  {
    hide HexDigit;
    assert HexValue([]) == 0;
    HexValueOfTwo([], s[0], s[1]);
    assert [] + [s[0], s[1]] == s[..2];
    HexValueOfTwo(s[..2], s[2], s[3]);
    assert s[..2] + [s[2], s[3]] == s[..4];
    HexValueOfTwo(s[..4], s[4], s[5]);
    assert s[..4] + [s[4], s[5]] == s[..6];
    HexValueOfTwo(s[..6], s[6], s[7]);
    assert s[..6] + [s[6], s[7]] == s;
  }

  lemma {:induction false} HexBytesSplit(a: string, b: string)
    requires AllHex(a) && AllHex(b) && |a| % 2 == 0 && |b| % 2 == 0
    ensures HexBytes(a + b) == HexBytes(a) + HexBytes(b)
    decreases |a|
  {
    if a == [] {
      assert a + b == b;
    } else {
      assert (a + b)[2..] == a[2..] + b;
      HexBytesSplit(a[2..], b);
    }
  }

  /** The digits and their values. */
  lemma DigitTable(i: nat, c: char)
    requires i < 16
    ensures IsHex("0123456789abcdef"[i]) && HexDigit("0123456789abcdef"[i]) == i
    ensures IsHex("0123456789ABCDEF"[i]) && HexDigit("0123456789ABCDEF"[i]) == i
    ensures IsHex(c) <==> c in "0123456789abcdefABCDEF"
  {
  }

  lemma ValueDigitByDigit(p: string, c: char)
    requires AllHex(p) && IsHex(c)
    ensures HexValue([]) == 0 && HexValue(p + [c]) == 16 * HexValue(p) + HexDigit(c)
  {
    assert (p + [c])[..|p|] == p;
  }

  // ----- int(s, 16) -----

  function Trim(s: string): string {
    TrimEnd(SkipSpace(s))
  }

  function TrimEnd(s: string): string {
    if s != [] && IsSpace(s[|s| - 1]) then TrimEnd(s[..|s| - 1]) else s
  }

  /** Digits; with `grouping`, single underscores between them. */
  predicate IsDigitText(s: string, grouping: bool) {
    && s != [] && IsHex(s[0]) && IsHex(s[|s| - 1])
    && forall i :: 0 < i < |s| ==> IsHex(s[i]) || (grouping && s[i] == '_' && IsHex(s[i - 1]))
  }

  function OnlyDigits(s: string): (t: string)
    ensures AllHex(t) && |t| <= |s|
  {
    if s == [] then [] else (if IsHex(s[0]) then [s[0]] else []) + OnlyDigits(s[1..])
  }

  function AfterPrefix(s: string, grouping: bool): (t: string)
    ensures |t| <= |s|
  {
    if |s| < 2 || s[0] != '0' || (s[1] != 'x' && s[1] != 'X') then s
    else if grouping && |s| > 2 && s[2] == '_' then s[3..]
    else s[2..]
  }

  /** What int() makes of a text: blanks around it, a sign and a prefix 0x are accepted, and
      from Python 3.6 on, `grouping`, underscores. None is the ValueError. */
  function IntValue(s: string, grouping: bool): Option<int> {
    var t := Trim(s);
    var unsigned := if t != [] && (t[0] == '+' || t[0] == '-') then t[1..] else t;
    var digits := AfterPrefix(unsigned, grouping);
    if !IsDigitText(digits, grouping) then None
    else
      var value: int := HexValue(OnlyDigits(digits));
      Some(if t[0] == '-' then -value else value)
  }

  lemma {:induction false} TrimEndShortens(s: string)
    ensures |TrimEnd(s)| <= |s|
    decreases |s|
  {
    if s != [] {
      TrimEndShortens(s[..|s| - 1]);
    }
  }

  lemma {:induction false} SkipSpaceShortens(s: string)
    ensures |SkipSpace(s)| <= |s|
    decreases |s|
  {
    if s != [] {
      SkipSpaceShortens(s[1..]);
    }
  }

  function Pow16(k: nat): (p: nat)
    ensures p >= 1
  {
    if k == 0 then 1 else 16 * Pow16(k - 1)
  }

  lemma {:induction false} HexValueBound(s: string, k: nat)
    requires AllHex(s) && |s| <= k
    ensures HexValue(s) < Pow16(k)
    decreases k
  {
    if s != [] {
      HexValueBound(s[..|s| - 1], k - 1);
    }
  }

  /** Eight characters are no number beyond a word. */
  lemma IntValueFitsWord(s: string, grouping: bool)
    requires |s| == 8 && IntValue(s, grouping).Some?
    ensures IntValue(s, grouping).value < WORD32
  {
    var t := Trim(s);
    SkipSpaceShortens(s);
    TrimEndShortens(SkipSpace(s));
    var unsigned := if t != [] && (t[0] == '+' || t[0] == '-') then t[1..] else t;
    HexValueBound(OnlyDigits(AfterPrefix(unsigned, grouping)), 8);
    assert Pow16(4) == 0x1_0000 && Pow16(8) == 0x1_0000 * Pow16(4);
  }

  lemma {:induction false} OnlyDigitsOfHex(s: string)
    requires AllHex(s)
    ensures OnlyDigits(s) == s
    decreases |s|
  {
    if s != [] {
      OnlyDigitsOfHex(s[1..]);
      assert s == [s[0]] + s[1..];
    }
  }

  /** Plain digits are read as what they are. */
  lemma IntValueOfDigits(s: string, grouping: bool)
    requires AllHex(s) && s != []
    ensures IntValue(s, grouping) == Some(HexValue(s))
  {
    hide HexValue, OnlyDigits;
    assert IsHex(s[0]) && IsHex(s[|s| - 1]);
    assert Trim(s) == s;
    assert |s| >= 2 ==> IsHex(s[1]);
    OnlyDigitsOfHex(s);
  }

  // ----- What int() accepts -----

  /** Blanks, a sign, a prefix (with an underscore behind it, if underscores are allowed),
      digits, blanks. */
  predicate IntForm(b1: string, sign: string, prefix: string, digits: string, b2: string, grouping: bool) {
    && (forall i :: 0 <= i < |b1| ==> IsSpace(b1[i])) && (forall i :: 0 <= i < |b2| ==> IsSpace(b2[i]))
    && (sign == "" || sign == "+" || sign == "-")
    && (prefix == "" || prefix == "0x" || prefix == "0X" || (grouping && (prefix == "0x_" || prefix == "0X_")))
    && IsDigitText(digits, grouping)
  }

  lemma {:induction false} TrimsBlanks(text: string, ws: string)
    requires (forall i :: 0 <= i < |ws| ==> IsSpace(ws[i])) && (text != [] ==> !IsSpace(text[|text| - 1]))
    ensures TrimEnd(text + ws) == text
    decreases |ws|
  {
    if ws == [] {
      assert text + ws == text;
    } else {
      var s := text + ws;
      assert s[..|s| - 1] == text + ws[..|ws| - 1];
      TrimsBlanks(text, ws[..|ws| - 1]);
    }
  }

  lemma PrefixIsCut(prefix: string, digits: string, grouping: bool)
    requires IsDigitText(digits, grouping)
    requires prefix == "" || prefix == "0x" || prefix == "0X" || (grouping && (prefix == "0x_" || prefix == "0X_"))
    ensures AfterPrefix(prefix + digits, grouping) == digits
  {
    var s := prefix + digits;
    if prefix == "" {
      assert s == digits;
    } else if |prefix| == 2 {
      assert s[2..] == digits && s[2] == digits[0];
    } else {
      assert s[2] == '_' && s[3..] == digits;
    }
  }

  /** What int() makes of such a text: the number of its digits, with the sign. */
  lemma IntValueReads(b1: string, sign: string, prefix: string, digits: string, b2: string, grouping: bool)
    requires IntForm(b1, sign, prefix, digits, b2, grouping)
    ensures IntValue(b1 + (sign + (prefix + digits) + b2), grouping)
            == Some((if sign == "-" then -1 else 1) * HexValue(OnlyDigits(digits)) as int)
  {
    hide HexValue, OnlyDigits, AfterPrefix, SkipSpace, TrimEnd;
    var number := prefix + digits;
    var t := sign + number;
    assert IsHex(digits[0]) && IsHex(digits[|digits| - 1]);
    assert number[0] == if prefix == "" then digits[0] else '0';
    assert t[|t| - 1] == digits[|digits| - 1];
    assert t[0] == if sign == "" then number[0] else sign[0];
    SkipsBlanks(b1, t + b2);
    TrimsBlanks(t, b2);
    PrefixIsCut(prefix, digits, grouping);
    assert sign == "" ==> t == number;
    assert sign != "" ==> t[1..] == number;
  }

  lemma {:induction false} BlanksAtStart(s: string) returns (ws: string)
    ensures s == ws + SkipSpace(s) && forall i :: 0 <= i < |ws| ==> IsSpace(ws[i])
    decreases |s|
  {
    ws := [];
    if s != [] && IsSpace(s[0]) {
      var more := BlanksAtStart(s[1..]);
      ws := [s[0]] + more;
      assert s == [s[0]] + s[1..];
    }
  }

  lemma {:induction false} BlanksAtEnd(s: string) returns (ws: string)
    ensures s == TrimEnd(s) + ws && forall i :: 0 <= i < |ws| ==> IsSpace(ws[i])
    decreases |s|
  {
    ws := [];
    if s != [] && IsSpace(s[|s| - 1]) {
      var more := BlanksAtEnd(s[..|s| - 1]);
      ws := more + [s[|s| - 1]];
      assert s == s[..|s| - 1] + [s[|s| - 1]];
    }
  }

  /** And it makes something of nothing else. */
  lemma OnlyFormsAreRead(s: string, grouping: bool)
    returns (b1: string, sign: string, prefix: string, digits: string, b2: string)
    requires IntValue(s, grouping).Some?
    ensures IntForm(b1, sign, prefix, digits, b2, grouping) && s == b1 + (sign + (prefix + digits) + b2)
  {
    hide HexValue, OnlyDigits, SkipSpace, TrimEnd, IsDigitText, AfterPrefix;
    b1 := BlanksAtStart(s);
    b2 := BlanksAtEnd(SkipSpace(s));
    var t := Trim(s);
    var unsigned := t;
    sign := "";
    if t != [] && (t[0] == '+' || t[0] == '-') {
      sign, unsigned := [t[0]], t[1..];
    }
    digits := AfterPrefix(unsigned, grouping);
    prefix := CutPrefix(unsigned, grouping);
    assert t == sign + unsigned;
  }

  lemma CutPrefix(s: string, grouping: bool) returns (prefix: string)
    ensures s == prefix + AfterPrefix(s, grouping)
    ensures prefix == "" || prefix == "0x" || prefix == "0X" || (grouping && (prefix == "0x_" || prefix == "0X_"))
  {
    prefix := s[..|s| - |AfterPrefix(s, grouping)|];
    if |prefix| == 2 {
      assert prefix == [s[0], s[1]];
    } else if |prefix| == 3 {
      assert prefix == [s[0], s[1], s[2]];
    }
  }
}
