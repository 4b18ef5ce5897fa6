/** parse_address_spec of tcp-tunnel/src/main.c, with strtok (section 7.24.5.8 of ISO C11)
    on ":" and strtoul with base 0 (section 7.22.1.4) and a 64-bit unsigned long. */
module AddressSpec {
  import opened Common
  import opened Decimal

  const IP_SIZE: nat := 30

  datatype Direction = DirIn | DirOut

  // ----- strtok -----

  /** The length of the colon-free run at the start of `s`. */
  function RunLength(s: string): (n: nat)
    ensures n <= |s|
    ensures forall i :: 0 <= i < n ==> s[i] != ':'
    ensures n < |s| ==> s[n] == ':'
  {
    if s == [] || s[0] == ':' then 0 else 1 + RunLength(s[1..])
  }

  /** The non-empty colon-free runs of a text. */
  function Tokens(s: string): seq<string>
    decreases |s|
  {
    if s == [] then []
    else if s[0] == ':' then Tokens(s[1..])
    else
      var n := RunLength(s);
      [s[..n]] + Tokens(s[n..])
  }

  lemma TokensSkip(s: string)
    requires s != [] && s[0] == ':'
    ensures Tokens(s) == Tokens(s[1..])
  {
  }

  lemma TokensTake(s: string)
    requires s != [] && s[0] != ':'
    ensures 0 < RunLength(s) && Tokens(s) == [s[..RunLength(s)]] + Tokens(s[RunLength(s)..])
  {
  }

  lemma NoTokens()
    ensures Tokens([]) == []
  {
  }

  /** The state that strtok keeps between calls. */
  class Tokenizer {
    const text: string
    var pos: nat

    constructor (text: string)
      ensures this.text == text && Valid() && Remaining() == Tokens(text)
    {
      this.text := text;
      pos := 0;
      new;
      assert text[0..] == text;
    }

    predicate Valid()
      reads this
    {
      pos <= |text|
    }

    function Remaining(): seq<string>
      requires Valid()
      reads this
    {
      Tokens(text[pos..])
    }

    method Next() returns (token: Option<string>)
      requires Valid()
      modifies this`pos
      ensures Valid()
      ensures token == if old(Remaining()) == [] then None else Some(old(Remaining())[0])
      ensures Remaining() == if old(Remaining()) == [] then [] else old(Remaining())[1..]
    {
      hide Tokens, RunLength;
      NoTokens();
      while pos < |text| && text[pos] == ':'
        invariant Valid() && Remaining() == old(Remaining())
        decreases |text| - pos
      {
        TokensSkip(text[pos..]);
        assert text[pos..][1..] == text[pos + 1..];
        pos := pos + 1;
      }
      if pos == |text| {
        return None;
      }
      var start := pos;
      ghost var rest := text[start..];
      ghost var n := RunLength(rest);
      TokensTake(rest);
      assert old(Remaining()) == [rest[..n]] + Tokens(rest[n..]);
      while pos < |text| && text[pos] != ':'
        invariant start <= pos <= start + n && Valid()
        decreases |text| - pos
      {
        assert text[pos] == rest[pos - start];
        pos := pos + 1;
      }
      assert pos < |text| ==> text[pos] == rest[pos - start];
      assert pos - start == n;
      assert rest[n..] == text[pos..] && rest[..n] == text[start..pos];
      token := Some(text[start..pos]);
      if pos < |text| {
        TokensSkip(text[pos..]);
        assert text[pos..][1..] == text[pos + 1..];
        pos := pos + 1;
      }
    }
  }

  // ----- strtoul(s, NULL, 0) -----

  /** The value of a digit or letter, 36 for anything else. */
  function CharValue(c: char): (v: nat)
    ensures IsDigit(c) ==> v == DigitValue(c)
    ensures v < 10 ==> IsDigit(c)
  {
    if '0' <= c <= '9' then c as int - '0' as int
    else if 'a' <= c <= 'z' then c as int - 'a' as int + 10
    else if 'A' <= c <= 'Z' then c as int - 'A' as int + 10
    else 36
  }

  /** The digits of base `base` at the start of `s`. */
  function Prefix(s: string, base: nat): (p: string)
    ensures p <= s
    ensures forall i :: 0 <= i < |p| ==> CharValue(p[i]) < base
  {
    if s == [] || CharValue(s[0]) >= base then []
    else [s[0]] + Prefix(s[1..], base)
  }

  function ValueIn(p: string, base: nat): nat {
    if p == [] then 0 else base * ValueIn(p[..|p| - 1], base) + CharValue(p[|p| - 1])
  }

  /** The magnitude of an unsigned subject sequence: hexadecimal after 0x with a digit
      behind it, octal after 0, else decimal. No digits mean 0. */
  function Magnitude(s: string): nat {
    if |s| >= 3 && s[0] == '0' && (s[1] == 'x' || s[1] == 'X') && CharValue(s[2]) < 16
    then ValueIn(Prefix(s[2..], 16), 16)
    else if s != [] && s[0] == '0' then ValueIn(Prefix(s, 8), 8)
    else ValueIn(Prefix(s, 10), 10)
  }

  /** Whether errno is set to ERANGE. */
  predicate OutOfRange(s: string) {
    Magnitude(Unsigned(s)) >= U64
  }

  function Unsigned(s: string): string {
    var t := SkipSpace(s);
    if t != [] && (t[0] == '+' || t[0] == '-') then t[1..] else t
  }

  predicate Negative(s: string) {
    var t := SkipSpace(s);
    t != [] && t[0] == '-'
  }

  function Strtoul(s: string): (v: nat)
    ensures v < U64
  {
    var m := Magnitude(Unsigned(s));
    if m >= U64 then U64 - 1
    else if Negative(s) then (U64 - m) % U64
    else m
  }

  function Port(s: string): nat {
    Strtoul(s) % WORD32
  }

  // ----- The parser -----

  /** strncpy: the text, cut at `n`, filled up with terminators. */
  function StrNCpy(s: string, n: nat): (r: seq<char>)
    ensures |r| == n
  {
    if |s| >= n then s[..n] else s + seq(n - |s|, _ => '\0')
  }

  /** A first token that begins with "out" or "in" names the direction. */
  predicate NamesDirection(ts: seq<string>) {
    ts != [] && ("out" <= ts[0] || "in" <= ts[0])
  }

  function DirectionOf(ts: seq<string>): Direction {
    if ts != [] && "out" <= ts[0] then DirOut else DirIn
  }

  function Operands(ts: seq<string>): seq<string> {
    if NamesDirection(ts) then ts[1..] else ts
  }

  /** A specification is rejected for a port out of range or for a fourth operand; missing
      operands are accepted and leave what was there. */
  predicate Rejected(ts: seq<string>) {
    var ops := Operands(ts);
    || (|ops| >= 1 && OutOfRange(ops[0]))
    || (|ops| >= 3 && OutOfRange(ops[2]))
    || |ops| >= 4
  }

  /** The function fills its output parameters, here in and out; `accepted` stands for a
      return value other than -1. */
  method ParseAddressSpec(spec: string, ip: array<char>, listenPort0: nat, targetPort0: nat)
    returns (accepted: bool, direction: Direction, listenPort: nat, targetPort: nat)
    requires ip.Length == IP_SIZE
    modifies ip
    ensures accepted <==> !Rejected(Tokens(spec))
    ensures direction == DirectionOf(Tokens(spec))
    ensures var ops := Operands(Tokens(spec));
            var reached := |ops| >= 1 && !OutOfRange(ops[0]);
            && listenPort == (if |ops| >= 1 then Port(ops[0]) else listenPort0)
            && ip[..] == (if reached && |ops| >= 2 then StrNCpy(ops[1], IP_SIZE) else old(ip[..]))
            && targetPort == (if reached && |ops| >= 3 then Port(ops[2]) else targetPort0)
    ensures var ts := Tokens(spec);
            var ops := if ts != [] && ("out" <= ts[0] || "in" <= ts[0]) then ts[1..] else ts;
            && direction == (if ts != [] && "out" <= ts[0] then DirOut else DirIn)
            && (accepted <==>
                && |ops| <= 3
                && (|ops| >= 1 ==> !OutOfRange(ops[0])) && (|ops| >= 3 ==> !OutOfRange(ops[2])))
            && (accepted ==>
                && (|ops| >= 1 ==> listenPort == Strtoul(ops[0]) % 0x1_0000_0000)
                && (|ops| >= 2 ==>
                      forall i :: 0 <= i < 30 ==> ip[i] == if i < |ops[1]| then ops[1][i] else '\0')
                && (|ops| >= 3 ==> targetPort == Strtoul(ops[2]) % 0x1_0000_0000))
  {
    hide OutOfRange, Strtoul, Tokens, StrNCpy;
    ghost var ops := Operands(Tokens(spec));
    if |ops| >= 2 {
      StrNCpyAt(ops[1]);
    }
    listenPort, targetPort, direction, accepted := listenPort0, targetPort0, DirIn, true;
    var tok := new Tokenizer(spec);
    var token := tok.Next();
    if token.Some? {
      if "out" <= token.value {
        direction := DirOut;
        token := tok.Next();
      } else if "in" <= token.value {
        direction := DirIn;
        token := tok.Next();
      }
    }
    assert token == (if ops == [] then None else Some(ops[0]));
    assert tok.Remaining() == if ops == [] then [] else ops[1..];
    if token.Some? {
      listenPort := Port(token.value);
      if OutOfRange(token.value) {
        accepted := false;
        return;
      }
      token := tok.Next();
    }
    assert |ops| >= 2 ==> ops[1..][1..] == ops[2..];
    assert token == if |ops| < 2 then None else Some(ops[1]);
    assert tok.Remaining() == if |ops| < 2 then [] else ops[2..];
    if token.Some? {
      CopyIp(token.value, ip);
      token := tok.Next();
    }
    assert |ops| >= 3 ==> ops[2..][1..] == ops[3..];
    assert token == if |ops| < 3 then None else Some(ops[2]);
    assert tok.Remaining() == if |ops| < 3 then [] else ops[3..];
    if token.Some? {
      targetPort := Port(token.value);
      if OutOfRange(token.value) {
        accepted := false;
        return;
      }
      token := tok.Next();
    }
    if token.Some? {
      accepted := false;
    }
  }

  lemma StrNCpyAt(s: string)
    ensures forall i :: 0 <= i < 30 ==> StrNCpy(s, IP_SIZE)[i] == if i < |s| then s[i] else '\0'
  {
  }

  method CopyIp(s: string, ip: array<char>)
    modifies ip
    ensures ip[..] == StrNCpy(s, ip.Length)
  {
    var i := 0;
    while i < ip.Length
      invariant i <= ip.Length && ip[..i] == StrNCpy(s, ip.Length)[..i]
    {
      ip[i] := if i < |s| then s[i] else '\0';
      i := i + 1;
    }
  }

  // ----- What the tokens are -----

  function WithoutColons(s: string): string {
    if s == [] then [] else (if s[0] == ':' then [] else [s[0]]) + WithoutColons(s[1..])
  }

  function Flatten(ts: seq<string>): string {
    if ts == [] then [] else ts[0] + Flatten(ts[1..])
  }

  /** The number of places where a colon-free run starts, given the character before. */
  function RunStarts(s: string, previous: char): nat {
    if s == [] then 0 else (if s[0] != ':' && previous == ':' then 1 else 0) + RunStarts(s[1..], s[0])
  }

  lemma {:induction false} RunText(s: string, n: nat)
    requires n <= |s| && forall i :: 0 <= i < n ==> s[i] != ':'
    ensures WithoutColons(s) == s[..n] + WithoutColons(s[n..])
    decreases n
  {
    if n == 0 {
      assert s[..0] == [] && s[0..] == s;
    } else {
      RunText(s[1..], n - 1);
      assert s[1..][n - 1..] == s[n..];
      assert s[..n] == [s[0]] + s[1..][..n - 1];
    }
  }

  lemma {:induction false} RunStartsOnce(s: string, n: nat)
    requires 0 < n <= |s| && forall i :: 0 <= i < n ==> s[i] != ':'
    ensures RunStarts(s[1..], s[0]) == RunStarts(s[n..], s[n - 1])
    decreases n
  {
    if n > 1 {
      RunStartsOnce(s[1..], n - 1);
      assert s[1..][n - 1..] == s[n..];
      assert s[1..][n - 2] == s[n - 1];
    }
  }

  /** The tokens are non-empty and without colons, together they are the text without its
      colons, and there are as many of them as colon-free runs. */
  lemma {:induction false} TokensAreTheRuns(s: string)
    ensures forall k :: 0 <= k < |Tokens(s)| ==> Tokens(s)[k] != "" && ':' !in Tokens(s)[k]
    ensures Flatten(Tokens(s)) == WithoutColons(s)
    ensures |Tokens(s)| == RunStarts(s, ':')
    decreases |s|
  {
    if s == [] {
    } else if s[0] == ':' {
      TokensAreTheRuns(s[1..]);
    } else {
      var n := RunLength(s);
      TokensAreTheRuns(s[n..]);
      RunText(s, n);
      RunStartsOnce(s, n);
      assert Tokens(s)[1..] == Tokens(s[n..]);
      StartsBehindRun(s, n);
    }
  }

  lemma StartsBehindRun(s: string, n: nat)
    requires 0 < n <= |s| && s[n - 1] != ':' && (n < |s| ==> s[n] == ':')
    ensures RunStarts(s[n..], s[n - 1]) == RunStarts(s[n..], ':')
  {
  }

  // ----- What strtoul reads -----

  lemma DigitValues(i: nat)
    requires i < 16
    ensures CharValue("0123456789abcdef"[i]) == i && CharValue("0123456789ABCDEF"[i]) == i
  {
  }

  lemma ValueDigitByDigit(p: string, c: char, base: nat)
    ensures ValueIn([], base) == 0
    ensures ValueIn(p + [c], base) == base * ValueIn(p, base) + CharValue(c)
  {
    assert (p + [c])[..|p|] == p;
  }

  lemma {:induction false} PrefixEnds(digits: string, tail: string, base: nat)
    requires forall i :: 0 <= i < |digits| ==> CharValue(digits[i]) < base
    requires tail == [] || CharValue(tail[0]) >= base
    ensures Prefix(digits + tail, base) == digits
    decreases |digits|
  {
    if digits == [] {
      assert digits + tail == tail;
    } else {
      assert (digits + tail)[1..] == digits[1..] + tail;
      PrefixEnds(digits[1..], tail, base);
      assert digits == [digits[0]] + digits[1..];
    }
  }

  /** The forms of a number with base 0: decimal digits that do not start with 0, octal digits
      that do, hexadecimal digits behind 0x. */
  predicate NumberForm(prefix: string, digits: string, tail: string, base: nat) {
    && (forall i :: 0 <= i < |digits| ==> CharValue(digits[i]) < base)
    && (tail == [] || CharValue(tail[0]) >= base)
    && digits != []
    && (|| (base == 10 && prefix == "" && digits[0] != '0')
        || (base == 8 && prefix == "" && digits[0] == '0'
            && (|digits| == 1 ==> tail == [] || (tail[0] != 'x' && tail[0] != 'X')))
        || (base == 16 && (prefix == "0x" || prefix == "0X")))
  }

  lemma MagnitudeOfForm(prefix: string, digits: string, tail: string, base: nat)
    requires NumberForm(prefix, digits, tail, base)
    ensures Magnitude(prefix + digits + tail) == ValueIn(digits, base)
  {
    hide Prefix, ValueIn;
    PrefixEnds(digits, tail, base);
    var s := prefix + digits + tail;
    if base == 16 {
      assert s[2..] == digits + tail && s[2] == digits[0];
      assert s[0] == '0' && s[1] == prefix[1];
    } else {
      assert s == digits + tail;
      if base == 8 {
        assert |digits| > 1 ==> s[1] == digits[1];
        assert |digits| == 1 && tail != [] ==> s[1] == tail[0];
      }
    }
  }

  /** Blanks, a sign and one of the forms: what follows is not read. A number beyond 64 bits
      is out of range and reads as the largest; a minus sign counts down from 2^64. */
  lemma StrtoulReads(ws: string, sign: string, prefix: string, digits: string, tail: string, base: nat)
    requires forall i :: 0 <= i < |ws| ==> IsSpace(ws[i])
    requires sign == "" || sign == "+" || sign == "-"
    requires NumberForm(prefix, digits, tail, base)
    ensures var s := ws + (sign + (prefix + digits + tail));
            var m := ValueIn(digits, base);
            && (OutOfRange(s) <==> m >= 0x1_0000_0000_0000_0000)
            && Strtoul(s) == if m >= 0x1_0000_0000_0000_0000 then 0xFFFF_FFFF_FFFF_FFFF
                             else if sign == "-" && m > 0 then 0x1_0000_0000_0000_0000 - m
                             else m
  {
    hide Magnitude, ValueIn, SkipSpace;
    var number := prefix + digits + tail;
    var rest := sign + number;
    MagnitudeOfForm(prefix, digits, tail, base);
    FirstOfForm(prefix, digits, tail, base);
    SkipsBlanks(ws, rest);
    if sign == "" {
      assert rest == number;
    } else {
      assert rest[0] == sign[0] && rest[1..] == number;
    }
    assert Unsigned(ws + rest) == number;
    assert Negative(ws + rest) <==> sign == "-";
  }

  lemma FirstOfForm(prefix: string, digits: string, tail: string, base: nat)
    requires NumberForm(prefix, digits, tail, base)
    ensures var c := (prefix + digits + tail)[0];
            !IsSpace(c) && c != '+' && c != '-'
  {
    var c := (prefix + digits + tail)[0];
    assert c == if base == 16 then '0' else digits[0];
    assert CharValue(c) < 36;
  }

  // ----- Round trip -----

  /** How the direction may be written: not at all means inward. */
  datatype Spelling = Omitted | InColon | OutColon

  function Prefixed(sp: Spelling): string {
    match sp
    case Omitted => ""
    case InColon => "in:"
    case OutColon => "out:"
  }

  function Meant(sp: Spelling): Direction {
    if sp.OutColon? then DirOut else DirIn
  }

  function Joined(a: string, b: string, c: string): string {
    a + (":" + (b + (":" + c)))
  }

  function Print(sp: Spelling, listenPort: nat, ip: string, targetPort: nat): string {
    Prefixed(sp) + Joined(ToDecimal(listenPort), ip, ToDecimal(targetPort))
  }

  predicate ColonFree(s: string) {
    forall i :: 0 <= i < |s| ==> s[i] != ':'
  }

  lemma {:induction false} RunLengthIs(s: string, rest: string)
    requires ColonFree(s) && (rest == [] || rest[0] == ':')
    ensures RunLength(s + rest) == |s|
    decreases |s|
  {
    if s == [] {
      assert s + rest == rest;
    } else {
      assert (s + rest)[1..] == s[1..] + rest;
      RunLengthIs(s[1..], rest);
    }
  }

  lemma FirstToken(s: string, rest: string)
    requires ColonFree(s) && s != [] && (rest == [] || rest[0] == ':')
    ensures Tokens(s + rest) == [s] + Tokens(rest)
  {
    RunLengthIs(s, rest);
    assert (s + rest)[..|s|] == s && (s + rest)[|s|..] == rest;
  }

  lemma SkipColon(rest: string)
    ensures Tokens(":" + rest) == Tokens(rest)
  {
    assert (":" + rest)[1..] == rest;
  }

  /** Tokens separated by single colons are read back one by one. */
  lemma TokensOfOperands(a: string, b: string, c: string)
    requires ColonFree(a) && ColonFree(b) && ColonFree(c) && a != [] && b != [] && c != []
    ensures Tokens(Joined(a, b, c)) == [a, b, c]
  {
    assert Tokens([]) == [];
    hide Tokens, ColonFree;
    FirstToken(c, []);
    assert c + [] == c;
    FirstToken(b, ":" + c);
    FirstToken(a, ":" + (b + (":" + c)));
    SkipColon(c);
    SkipColon(b + (":" + c));
  }

  lemma {:induction false} DecimalPrefix(s: string, base: nat)
    requires forall i :: 0 <= i < |s| ==> CharValue(s[i]) < base
    ensures Prefix(s, base) == s
    decreases |s|
  {
    if s != [] {
      DecimalPrefix(s[1..], base);
      assert s == [s[0]] + s[1..];
    }
  }

  lemma {:induction false} DecimalValue(s: string)
    requires AllDigits(s)
    ensures ValueIn(s, 10) == Value(s)
    decreases |s|
  {
    if s != [] {
      DecimalValue(s[..|s| - 1]);
    }
  }

  /** strtoul reads the decimal text of a word back, although base 0 treats a leading 0
      specially: decimal text has one only for the number 0. */
  lemma DecimalReadsBack(n: nat)
    requires n < U64
    ensures !OutOfRange(ToDecimal(n)) && Strtoul(ToDecimal(n)) == n
  {
    var s := ToDecimal(n);
    PrintedTextIsExact(n);
    assert IsDigit(s[0]);
    assert SkipSpace(s) == s && Unsigned(s) == s && !Negative(s);
    if n == 0 {
      DecimalPrefix(s, 8);
      assert s == ['0'] && s[..0] == [];
      assert ValueIn(s, 8) == 8 * ValueIn(s[..0], 8) + 0;
    } else {
      DecimalPrefix(s, 10);
      DecimalValue(s);
    }
  }

  lemma DecimalIsNoDirection(n: nat)
    ensures ColonFree(ToDecimal(n)) && !NamesDirection([ToDecimal(n)])
  {
    assert IsDigit(ToDecimal(n)[0]);
  }

  function Spelled(sp: Spelling): seq<string> {
    match sp
    case Omitted => []
    case InColon => ["in"]
    case OutColon => ["out"]
  }

  lemma PrefixToken(sp: Spelling, tail: string)
    ensures Tokens(Prefixed(sp) + tail) == Spelled(sp) + Tokens(tail)
  {
    match sp
    case Omitted =>
      assert "" + tail == tail;
    case InColon =>
      assert "in:" + tail == "in" + (":" + tail);
      FirstToken("in", ":" + tail);
      SkipColon(tail);
    case OutColon =>
      assert "out:" + tail == "out" + (":" + tail);
      FirstToken("out", ":" + tail);
      SkipColon(tail);
  }

  lemma SpelledDirection(sp: Spelling, a: string, b: string, c: string)
    requires !NamesDirection([a])
    ensures Operands(Spelled(sp) + [a, b, c]) == [a, b, c]
    ensures DirectionOf(Spelled(sp) + [a, b, c]) == Meant(sp)
  {
    assert [a][0] == a;
    match sp
    case Omitted =>
      assert Spelled(sp) + [a, b, c] == [a, b, c];
    case InColon =>
      assert !("out" <= "in") && "in" <= "in";
      assert (["in"] + [a, b, c])[1..] == [a, b, c];
    case OutColon =>
      assert "out" <= "out";
      assert (["out"] + [a, b, c])[1..] == [a, b, c];
  }

  lemma PrintedTokens(sp: Spelling, listenPort: nat, ip: string, targetPort: nat)
    requires ColonFree(ip) && ip != []
    ensures Tokens(Print(sp, listenPort, ip, targetPort))
            == Spelled(sp) + [ToDecimal(listenPort), ip, ToDecimal(targetPort)]
  {
    var a, c := ToDecimal(listenPort), ToDecimal(targetPort);
    hide Tokens, Joined, Spelled, Prefixed;
    DecimalIsNoDirection(listenPort);
    DecimalIsNoDirection(targetPort);
    TokensOfOperands(a, ip, c);
    PrefixToken(sp, Joined(a, ip, c));
  }

  lemma ThreeOperandsAccepted(ts: seq<string>, a: string, b: string, c: string)
    requires Operands(ts) == [a, b, c] && !OutOfRange(a) && !OutOfRange(c)
    ensures !Rejected(ts)
  {
  }

  lemma StrNCpyTerminates(s: string, n: nat)
    requires |s| < n
    ensures StrNCpy(s, n)[..|s| + 1] == s + ['\0']
  {
  }

  /** Printing an address and parsing it gives back the direction, both ports and the
      address, for every port of 32 bits and every colon-free address that fits. */
  lemma RoundTrip(sp: Spelling, listenPort: nat, ip: string, targetPort: nat)
    requires listenPort < WORD32 && targetPort < WORD32
    requires ColonFree(ip) && 0 < |ip| < IP_SIZE
    ensures var ts := Tokens(Print(sp, listenPort, ip, targetPort));
            var ops := Operands(ts);
            && !Rejected(ts) && DirectionOf(ts) == Meant(sp)
            && |ops| == 3 && Port(ops[0]) == listenPort && Port(ops[2]) == targetPort
            && ops[1] == ip && StrNCpy(ops[1], IP_SIZE)[..|ip| + 1] == ip + ['\0']
  {
    hide Tokens, Print, OutOfRange, Strtoul, Operands, DirectionOf, Spelled, ColonFree, Rejected, StrNCpy;
    hide ToDecimal, NamesDirection;
    var a, c := ToDecimal(listenPort), ToDecimal(targetPort);
    DecimalIsNoDirection(listenPort);
    DecimalReadsBack(listenPort);
    DecimalReadsBack(targetPort);
    PrintedTokens(sp, listenPort, ip, targetPort);
    SpelledDirection(sp, a, ip, c);
    ThreeOperandsAccepted(Spelled(sp) + [a, ip, c], a, ip, c);
    StrNCpyTerminates(ip, IP_SIZE);
  }
}
