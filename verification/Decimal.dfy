/** my_itoa of common_hooks/src/utils.c (and its copy in aleph_bdev_drv/src/utils.c). */
module Decimal {

  import opened Common

  predicate IsDigit(c: char) {
    '0' <= c <= '9'
  }

  function DigitChar(d: nat): (c: char)
    requires d < 10
    ensures IsDigit(c) && DigitValue(c) == d
  {
    '0' + d as char
  }

  function DigitValue(c: char): (d: nat)
    requires IsDigit(c)
    ensures d < 10
  {
    c as int - '0' as int
  }

  predicate AllDigits(s: string) {
    forall i :: 0 <= i < |s| ==> IsDigit(s[i])
  }

  /** The digits of a positive number; nothing for 0. */
  function Digits(n: nat): (s: string)
    ensures AllDigits(s)
    ensures s == [] <==> n == 0
  {
    if n == 0 then [] else Digits(n / 10) + [DigitChar(n % 10)]
  }

  function ToDecimal(n: nat): (s: string)
    ensures AllDigits(s) && s != []
  {
    if n == 0 then ['0'] else Digits(n)
  }

  /** Reading decimal text, by Horner's rule from the left. */
  function Value(s: string): nat
    requires AllDigits(s)
  {
    if s == [] then 0 else 10 * Value(s[..|s| - 1]) + DigitValue(s[|s| - 1])
  }

  // ----- Laws -----

  lemma {:induction false} ValueOfDigits(n: nat)
    ensures Value(Digits(n)) == n
  {
    if n > 0 {
      ValueOfDigits(n / 10);
      var s := Digits(n);
      assert s[..|s| - 1] == Digits(n / 10);
    }
  }

  lemma {:induction false} DigitsStartNonZero(n: nat)
    requires n > 0
    ensures Digits(n)[0] != '0'
  {
    if n < 10 {
      assert Digits(n) == [DigitChar(n % 10)];
    } else {
      DigitsStartNonZero(n / 10);
    }
  }

  /** The printed text reads back as the number, and has no leading zero unless it is "0". */
  lemma PrintedTextIsExact(n: nat)
    ensures Value(ToDecimal(n)) == n
    ensures ToDecimal(n)[0] == '0' <==> n == 0
    ensures n == 0 ==> ToDecimal(n) == ['0']
  {
    if n == 0 {
      assert ['0'][..0] == [];
    } else {
      ValueOfDigits(n);
      DigitsStartNonZero(n);
    }
  }

  /** The text, digit by digit in base ten. */
  lemma DigitByDigit(n: nat)
    ensures n < 10 ==> ToDecimal(n) == ["0123456789"[n]]
    ensures 10 <= n ==> ToDecimal(n) == ToDecimal(n / 10) + ["0123456789"[n % 10]]
  {
    DigitNames(n % 10);
    if n < 10 {
      assert n > 0 ==> Digits(n) == [DigitChar(n)];
    }
  }

  lemma DigitNames(d: nat)
    requires d < 10
    ensures DigitChar(d) == "0123456789"[d] && DigitValue("0123456789"[d]) == d
  {
  }

  lemma PrintingIsInjective(a: nat, b: nat)
    requires ToDecimal(a) == ToDecimal(b)
    ensures a == b
  {
    PrintedTextIsExact(a);
    PrintedTextIsExact(b);
  }

  /** Digit text without a leading zero is the text of its own value: the printer produces
      every such text, and no two texts stand for one number. */
  lemma {:induction false} DigitsOfValue(s: string)
    requires AllDigits(s) && (s == [] || s[0] != '0')
    ensures Digits(Value(s)) == s
    decreases |s|
  {
    if s != [] {
      var front, d := s[..|s| - 1], DigitValue(s[|s| - 1]);
      DigitsOfValue(front);
      var v := Value(s);
      assert v / 10 == Value(front) && v % 10 == d;
      if front == [] {
        assert v == d > 0;
      } else {
        assert Value(front) > 0;
      }
      assert DigitChar(d) == s[|s| - 1];
    }
  }

  function Pow10(k: nat): (p: nat)
    ensures p >= 1
  {
    if k == 0 then 1 else 10 * Pow10(k - 1)
  }

  lemma {:induction false} DigitCount(n: nat, k: nat)
    requires n < Pow10(k)
    ensures |Digits(n)| <= k
    decreases k
  {
    if n > 0 {
      DigitCount(n / 10, k - 1);
    }
  }

  /** At most twenty digits for every uint64. */
  lemma TwentyDigits(n: nat)
    requires n < U64
    ensures |ToDecimal(n)| <= 20
  {
    assert Pow10(5) == 100_000;
    assert Pow10(10) == 10_000_000_000;
    assert Pow10(15) == 1_000_000_000_000_000;
    assert Pow10(20) == 100_000_000_000_000_000_000;
    DigitCount(n, 20);
  }

  // ----- The printer, through its scratch buffer of 64 digits -----

  method MyItoa(num: nat, str: array<char>)
    requires num < U64 && 21 <= str.Length
    modifies str
    ensures |ToDecimal(num)| < str.Length
    ensures str[..|ToDecimal(num)|] == ToDecimal(num) && str[|ToDecimal(num)|] == '\0'
    ensures forall x :: |ToDecimal(num)| < x < str.Length ==> str[x] == old(str[x])
  {
    TwentyDigits(num);
    var cp: nat := 0;
    if num == 0 {
      str[cp] := '0';
      cp := cp + 1;
    } else {
      var digits := new char[64];
      var dp := PutDigits(num, digits);
      ghost var text := Digits(num);
      while dp != 0
        invariant 0 <= dp && dp + cp == |text|
        invariant forall j :: 0 <= j < dp ==> digits[j] == text[|text| - 1 - j]
        invariant str[..cp] == text[..cp]
        invariant forall x :: cp <= x < str.Length ==> str[x] == old(str[x])
        decreases dp
      {
        dp := dp - 1;
        str[cp] := digits[dp];
        cp := cp + 1;
      }
    }
    str[cp] := '\0';
  }

  /** The first loop: the digits, least significant first. */
  method PutDigits(num: nat, digits: array<char>) returns (dp: nat)
    requires 0 < num < U64 && digits.Length == 64
    modifies digits
    ensures dp == |Digits(num)| <= 20
    ensures forall j :: 0 <= j < dp ==> digits[j] == Digits(num)[dp - 1 - j]
  {
    ghost var text := Digits(num);
    TwentyDigits(num);
    var n := num;
    dp := 0;
    while n != 0
      invariant dp + |Digits(n)| == |text|
      invariant Digits(n) == text[..|text| - dp]
      invariant forall j :: 0 <= j < dp ==> digits[j] == text[|text| - 1 - j]
      decreases n
    {
      digits[dp] := '0' + (n % 10) as char;
      dp := dp + 1;
      n := n / 10;
    }
  }
}
