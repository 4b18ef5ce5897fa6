/** bootstrap_scripts/create_trustcache.py: a table of code hashes, built from hex text, that
    the kernel searches by bisection. */
module TrustCache {
  import opened Bytes
  import opened Common
  import opened HexText

  const DIGITS: nat := 40
  const KEY: nat := 20
  const RECORD: nat := 22
  const HEADER: nat := 32

  /** A number that a field cannot hold, the assertion on the length of a line, int() on a
      slice that is no hexadecimal number, or the table. */
  datatype Result = StructError | AssertionError | ValueError | Table(bytes: seq<byte>)

  // ----- The table -----

  /** A line of which the part that counts is digits only. */
  predicate GoodLine(s: string) {
    DIGITS <= |s| && AllHex(s[..DIGITS])
  }

  function KeyOf(s: string): (key: seq<byte>)
    requires GoodLine(s)
    ensures |key| == KEY
  {
    HexBytes(s[..DIGITS])
  }

  /** One word of a record; a slice that is no number, or a negative one, is an error. */
  function Word(s: string, grouping: bool): (r: Result)
    requires |s| == 8
    ensures r.Table? ==> |r.bytes| == 4
  {
    var number := IntValue(s, grouping);
    if number.None? then ValueError
    else if number.value < 0 then StructError
    else
      IntValueFitsWord(s, grouping);
      Table(PackBE32(number.value))
  }

  /** The words of all slices of eight characters; the first error decides. */
  function Words(text: string, grouping: bool): Result
    decreases |text|
  {
    if |text| < 8 then Table([])
    else
      var word := Word(text[..8], grouping);
      if word.Table? then Behind(word.bytes, Words(text[8..], grouping)) else word
  }

  /** The records of the lines: 20 bytes, a type, flags. Empty lines are skipped; the first
      bad line decides the error. */
  function Records(lines: seq<string>, grouping: bool): Result {
    if lines == [] then Table([])
    else if lines[0] == "" then Records(lines[1..], grouping)
    else if |lines[0]| < DIGITS then AssertionError
    else
      var words := Words(lines[0][..DIGITS], grouping);
      if words.Table? then Behind(words.bytes + [0, 0], Records(lines[1..], grouping)) else words
  }

  function Behind(front: seq<byte>, r: Result): Result {
    match r case Table(b) => Table(front + b) case _ => r
  }

  function Header(count: nat): (h: seq<byte>)
    requires count < WORD32
    ensures |h| == HEADER
  {
    PackLE32(1) + PackLE32(8) + PackLE32(1) + PackLE32(0) + PackLE32(0) + PackLE32(0) + PackLE32(0)
    + PackLE32(count)
  }

  function TableOf(lines: seq<string>, grouping: bool): Result {
    if |lines| >= WORD32 then StructError else Behind(Header(|lines|), Records(lines, grouping))
  }

  lemma {:induction false} WordsLength(text: string, n: nat, grouping: bool)
    requires |text| == 8 * n && Words(text, grouping).Table?
    ensures |Words(text, grouping).bytes| == 4 * n
    decreases n
  {
    hide Word;
    if n > 0 {
      WordsLength(text[8..], n - 1, grouping);
    }
  }

  lemma WordOfDigits(s: string, grouping: bool)
    requires AllHex(s) && |s| == 8
    ensures Word(s, grouping) == Table(HexBytes(s))
  {
    hide HexBytes, HexValue, IntValue, PackBE32;
    IntValueOfDigits(s, grouping);
    WordOfEightDigits(s);
  }

  lemma HexBytesOfNothing()
    ensures HexBytes([]) == []
  {
  }

  /** The words of a good line are the bytes of its digit pairs. */
  lemma {:induction false} WordsOfDigits(text: string, n: nat, grouping: bool)
    requires AllHex(text) && |text| == 8 * n
    ensures Words(text, grouping) == Table(HexBytes(text))
    decreases n
  {
    hide HexBytes, Word;
    if n == 0 {
      HexBytesOfNothing();
      assert text == [];
    } else {
      var eight := text[..8];
      WordOfDigits(eight, grouping);
      WordsOfDigits(text[8..], n - 1, grouping);
      HexBytesSplit(eight, text[8..]);
      assert text == eight + text[8..];
    }
  }

  /** create_tc: the table grows by one word, and then by one record, at a time. */
  method CreateTc(hashes: seq<string>, grouping: bool) returns (result: Result)
    ensures result == TableOf(hashes, grouping)
  {
    hide Header, PackLE32, Records, Words;
    var tc: seq<byte> := PackLE32(1);
    tc := tc + PackLE32(8);
    tc := tc + PackLE32(1);
    tc := tc + PackLE32(0);
    tc := tc + PackLE32(0);
    tc := tc + PackLE32(0);
    tc := tc + PackLE32(0);
    if |hashes| >= WORD32 {
      return StructError;
    }
    tc := tc + PackLE32(|hashes|);
    HeaderIs(|hashes|);
    var i := 0;
    assert hashes[0..] == hashes;
    while i < |hashes|
      invariant i <= |hashes|
      invariant Behind(tc, Records(hashes[i..], grouping)) == Behind(Header(|hashes|), Records(hashes, grouping))
    {
      var line := hashes[i];
      assert hashes[i..][0] == line && hashes[i..][1..] == hashes[i + 1..];
      RecordsStep(hashes[i..], grouping);
      if |line| != 0 {
        if |line| < DIGITS {
          return AssertionError;
        }
        var words := WordsOf(line[..DIGITS], grouping);
        if !words.Table? {
          return words;
        }
        BehindTwice(tc, words.bytes + [0, 0], Records(hashes[i + 1..], grouping));
        TypeAndFlags(tc, words.bytes);
        tc := tc + words.bytes + [0] + [0];
      }
      i := i + 1;
    }
    RecordsStep(hashes[i..], grouping);
    result := Table(tc);
    assert tc + [] == tc;
  }

  lemma HeaderIs(count: nat)
    requires count < WORD32
    ensures Header(count) == PackLE32(1) + PackLE32(8) + PackLE32(1) + PackLE32(0) + PackLE32(0) + PackLE32(0)
                             + PackLE32(0) + PackLE32(count)
  {
    hide PackLE32;
  }

  lemma TypeAndFlags(tc: seq<byte>, words: seq<byte>)
    ensures tc + words + [0] + [0] == tc + (words + [0, 0])
  {
  }

  lemma RecordsStep(lines: seq<string>, grouping: bool)
    ensures lines == [] ==> Records(lines, grouping) == Table([])
    ensures lines != [] ==>
              && (lines[0] == "" ==> Records(lines, grouping) == Records(lines[1..], grouping))
              && (0 < |lines[0]| < DIGITS ==> Records(lines, grouping) == AssertionError)
              && (DIGITS <= |lines[0]| ==>
                    Records(lines, grouping)
                    == match Words(lines[0][..DIGITS], grouping)
                       case Table(words) => Behind(words + [0, 0], Records(lines[1..], grouping))
                       case error => error)
  {
    hide Words;
  }

  lemma BehindTwice(a: seq<byte>, b: seq<byte>, r: Result)
    ensures Behind(a, Behind(b, r)) == Behind(a + b, r)
  {
    if r.Table? {
      assert a + (b + r.bytes) == a + b + r.bytes;
    }
  }

  /** The inner loop: five words of eight characters each. */
  method WordsOf(text: string, grouping: bool) returns (r: Result)
    requires |text| == DIGITS
    ensures r == Words(text, grouping)
    ensures AllHex(text) ==> r == Table(HexBytes(text))
  {
    hide AllHex, HexBytes, IntValue, PackBE32;
    if AllHex(text) {
      WordsOfDigits(text, 5, grouping);
    }
    var words := [];
    var i := 0;
    assert text[0..] == text;
    while i < 5
      invariant i <= 5
      invariant Behind(words, Words(text[i * 8..], grouping)) == Words(text, grouping)
    {
      var eight, rest := text[i * 8..(i + 1) * 8], text[(i + 1) * 8..];
      assert text[i * 8..][..8] == eight && text[i * 8..][8..] == rest;
      var number := IntValue(eight, grouping);
      if number.None? {
        return ValueError;
      }
      if number.value < 0 {
        return StructError;
      }
      IntValueFitsWord(eight, grouping);
      BehindTwice(words, PackBE32(number.value), Words(rest, grouping));
      words := words + PackBE32(number.value);
      i := i + 1;
    }
    assert words + [] == words;
    r := Table(words);
  }

  // ----- Reading the table -----

  function KeysFrom(bytes: seq<byte>): seq<seq<byte>>
    requires |bytes| % RECORD == 0
  {
    if bytes == [] then [] else [bytes[..KEY]] + KeysFrom(bytes[RECORD..])
  }

  /** The count field and the keys behind the header. */
  function Parse(bytes: seq<byte>): (r: (nat, seq<seq<byte>>))
    requires HEADER <= |bytes| && (|bytes| - HEADER) % RECORD == 0
  {
    (ReadLE32(bytes[HEADER - 4..HEADER]), KeysFrom(bytes[HEADER..]))
  }

  predicate AllGood(lines: seq<string>) {
    forall i :: 0 <= i < |lines| ==> GoodLine(lines[i])
  }

  function KeysOf(lines: seq<string>): (keys: seq<seq<byte>>)
    requires AllGood(lines)
    ensures |keys| == |lines|
    ensures forall i :: 0 <= i < |lines| ==> keys[i] == KeyOf(lines[i])
  {
    if lines == [] then [] else [KeyOf(lines[0])] + KeysOf(lines[1..])
  }

  lemma {:induction false} RecordsParse(lines: seq<string>, grouping: bool)
    requires AllGood(lines)
    ensures Records(lines, grouping).Table? && |Records(lines, grouping).bytes| == RECORD * |lines|
    ensures KeysFrom(Records(lines, grouping).bytes) == KeysOf(lines)
    decreases |lines|
  {
    hide HexBytes, Words;
    if lines != [] {
      RecordsParse(lines[1..], grouping);
      assert GoodLine(lines[0]);
      WordsOfDigits(lines[0][..DIGITS], 5, grouping);
      var rest := Records(lines[1..], grouping).bytes;
      var b := KeyOf(lines[0]) + [0, 0] + rest;
      assert Records(lines, grouping).bytes == b;
      assert b[..KEY] == KeyOf(lines[0]) && b[RECORD..] == rest;
    }
  }

  lemma WholeRecords(n: nat)
    ensures RECORD * n % RECORD == 0
    ensures RECORD * n / RECORD == n
  {
  }

  lemma HeaderFields(count: nat, body: seq<byte>)
    requires count < WORD32
    ensures var b := Header(count) + body;
            |b| == HEADER + |body| && b[HEADER..] == body && ReadLE32(b[HEADER - 4..HEADER]) == count
  {
    LE32RoundTrip(count);
    hide PackLE32, ReadLE32;
    assert (Header(count) + body)[HEADER - 4..HEADER] == PackLE32(count);
  }

  /** Parsing the table gives back the lines, in order, as keys, and their number. */
  lemma TableParses(lines: seq<string>, grouping: bool)
    requires AllGood(lines) && |lines| < WORD32
    ensures TableOf(lines, grouping).Table?
    ensures var b := TableOf(lines, grouping).bytes;
            && HEADER <= |b| && (|b| - HEADER) % RECORD == 0
            && Parse(b) == (|lines|, KeysOf(lines))
  {
    hide Records, KeysFrom, KeysOf, ReadLE32, AllGood, Header;
    RecordsParse(lines, grouping);
    var body := Records(lines, grouping).bytes;
    HeaderFields(|lines|, body);
    WholeRecords(|lines|);
    assert TableOf(lines, grouping).bytes == Header(|lines|) + body;
    assert Parse(Header(|lines|) + body) == (|lines|, KeysFrom(body));
  }

  function NonBlank(lines: seq<string>): (n: nat)
    ensures n <= |lines|
    ensures n == |lines| <==> "" !in lines
  {
    if lines == [] then 0 else (if lines[0] == "" then 0 else 1) + NonBlank(lines[1..])
  }

  lemma {:induction false} RecordsSize(lines: seq<string>, grouping: bool)
    requires Records(lines, grouping).Table?
    ensures |Records(lines, grouping).bytes| == RECORD * NonBlank(lines)
    decreases |lines|
  {
    hide Words;
    if lines != [] {
      if DIGITS <= |lines[0]| {
        WordsLength(lines[0][..DIGITS], 5, grouping);
      }
      RecordsSize(lines[1..], grouping);
    }
  }

  /** The header counts every line, the body skips the blank ones: the count is the number
      of records exactly when no line is blank. */
  lemma CountIsRightUnlessBlank(lines: seq<string>, grouping: bool)
    requires TableOf(lines, grouping).Table?
    ensures var b := TableOf(lines, grouping).bytes;
            && HEADER <= |b| && (|b| - HEADER) % RECORD == 0
            && (ReadLE32(b[HEADER - 4..HEADER]) == (|b| - HEADER) / RECORD <==> "" !in lines)
  {
    hide Records, ReadLE32, Header, NonBlank;
    RecordsSize(lines, grouping);
    var body, n := Records(lines, grouping).bytes, NonBlank(lines);
    assert TableOf(lines, grouping).bytes == Header(|lines|) + body;
    HeaderFields(|lines|, body);
    WholeRecords(n);
    assert |body| == RECORD * n;
  }

  // ----- The table in bytes -----

  lemma HeaderInBytes(count: nat)
    requires count < 0x1_0000_0000
    ensures var h := Header(count);
            && h[..28] == [1, 0, 0, 0, 8, 0, 0, 0, 1, 0, 0, 0, 0, 0, 0, 0, 0, 0, 0, 0, 0, 0, 0, 0, 0, 0, 0, 0]
            && h[28] as int + 0x100 * h[29] as int + 0x1_0000 * h[30] as int + 0x100_0000 * h[31] as int == count
  {
    var h, c := Header(count), PackLE32(count);
    assert h[28] == c[0] && h[29] == c[1] && h[30] == c[2] && h[31] == c[3];
    LE32RoundTrip(count);
  }

  lemma RecordsOfGoodLines(lines: seq<string>, grouping: bool)
    requires AllGood(lines) && lines != []
    ensures GoodLine(lines[0]) && Records(lines[1..], grouping).Table?
    ensures Records(lines, grouping) == Table(KeyOf(lines[0]) + [0, 0] + Records(lines[1..], grouping).bytes)
    ensures |Records(lines, grouping).bytes| == 22 * |lines|
  {
    hide HexBytes, Words, KeysFrom;
    assert GoodLine(lines[0]);
    RecordsParse(lines, grouping);
    RecordsParse(lines[1..], grouping);
    RecordsStep(lines, grouping);
    WordsOfDigits(lines[0][..DIGITS], 5, grouping);
  }

  /** The byte of the digits 2j and 2j + 1. */
  function PairValue(line: string, j: nat): nat
    requires GoodLine(line) && j < 20
  {
    16 * HexDigit(line[2 * j]) + HexDigit(line[2 * j + 1])
  }

  lemma KeyInBytes(line: string, j: nat)
    requires GoodLine(line) && j < 20
    ensures KeyOf(line)[j] == PairValue(line, j)
  {
    HexBytesAt(line[..DIGITS], j);
  }

  lemma {:induction false} RecordInBytes(lines: seq<string>, grouping: bool, i: nat, j: nat)
    requires AllGood(lines) && i < |lines| && j < 20
    ensures var r := Records(lines, grouping);
            && r.Table? && |r.bytes| == 22 * |lines| && 22 * i + 22 <= |r.bytes|
            && r.bytes[22 * i + j] == PairValue(lines[i], j)
            && r.bytes[22 * i + 20] == 0 && r.bytes[22 * i + 21] == 0
    decreases |lines|
  {
    hide KeyOf, PairValue, Records;
    RecordsOfGoodLines(lines, grouping);
    if i == 0 {
      KeyInBytes(lines[0], j);
    } else {
      RecordInBytes(lines[1..], grouping, i - 1, j);
    }
  }

  /** Every byte of the table: 28 fixed ones, the number of lines, least significant byte
      first, and for each line a record of 22: a byte for each pair of digits and two zeros. */
  lemma TableInBytes(lines: seq<string>, grouping: bool, i: nat, j: nat)
    requires AllGood(lines) && i < |lines| < 0x1_0000_0000 && j < 20
    ensures TableOf(lines, grouping).Table?
    ensures var b := TableOf(lines, grouping).bytes;
            && |b| == 32 + 22 * |lines| && 54 + 22 * i <= |b|
            && b[..28] == [1, 0, 0, 0, 8, 0, 0, 0, 1, 0, 0, 0, 0, 0, 0, 0, 0, 0, 0, 0, 0, 0, 0, 0, 0, 0, 0, 0]
            && b[28] as int + 0x100 * b[29] as int + 0x1_0000 * b[30] as int + 0x100_0000 * b[31] as int == |lines|
            && b[32 + 22 * i + j] == PairValue(lines[i], j)
            && b[52 + 22 * i] == 0 && b[53 + 22 * i] == 0
  {
    hide Records, Header, PairValue, AllGood;
    RecordInBytes(lines, grouping, i, j);
    HeaderInBytes(|lines|);
    var h, r := Header(|lines|), Records(lines, grouping).bytes;
    var b := TableOf(lines, grouping).bytes;
    assert b == h + r && b[..28] == h[..28];
    assert b[32 + 22 * i + j] == r[22 * i + j];
  }

  lemma TooManyLines(lines: seq<string>, grouping: bool)
    requires |lines| >= 0x1_0000_0000
    ensures TableOf(lines, grouping) == StructError
  {
  }

  // ----- Errors -----

  /** The first line that is neither blank nor good decides. */
  lemma {:induction false} FirstBadLineDecides(good: seq<string>, bad: string, rest: seq<string>, grouping: bool)
    requires forall i :: 0 <= i < |good| ==> good[i] == "" || GoodLine(good[i])
    requires bad != "" && (40 <= |bad| ==> !Words(bad[..40], grouping).Table?)
    ensures Records(good + [bad] + rest, grouping) == if |bad| < 40 then AssertionError else Words(bad[..40], grouping)
    decreases |good|
  {
    hide Words, HexBytes;
    var lines := good + [bad] + rest;
    RecordsStep(lines, grouping);
    if good != [] {
      assert lines[1..] == good[1..] + [bad] + rest;
      FirstBadLineDecides(good[1..], bad, rest, grouping);
      if good[0] != "" {
        assert GoodLine(good[0]);
        WordsOfDigits(good[0][..DIGITS], 5, grouping);
      }
    }
  }

  function SliceOf(text: string, k: nat): string
    requires 8 * k + 8 <= |text|
  {
    text[8 * k..8 * k + 8]
  }

  lemma NextSlice(text: string, j: nat)
    requires 8 * j + 16 <= |text|
    ensures SliceOf(text[8..], j) == SliceOf(text, j + 1)
  {
    var k := 8 * j;
    assert text[8..][k..k + 8] == text[k + 8..k + 16];
  }

  lemma {:induction false} WordsDecide(text: string, n: nat, k: nat, grouping: bool)
    requires |text| == 8 * n && k < n
    requires forall j :: 0 <= j < k ==>
                           IntValue(SliceOf(text, j), grouping).Some? && IntValue(SliceOf(text, j), grouping).value >= 0
    ensures var number := IntValue(SliceOf(text, k), grouping);
            && (number.None? ==> Words(text, grouping) == ValueError)
            && (number.Some? && number.value < 0 ==> Words(text, grouping) == StructError)
    decreases k
  {
    hide IntValue, PackBE32;
    assert SliceOf(text, 0) == text[..8];
    if k > 0 {
      forall j | 0 <= j < k
        ensures SliceOf(text[8..], j) == SliceOf(text, j + 1)
      {
        NextSlice(text, j);
      }
      NextSlice(text, k - 1);
      WordsDecide(text[8..], n - 1, k - 1, grouping);
    }
  }

  /** When int() accepts all slices, the words are their numbers, most significant byte first. */
  lemma {:induction false} WordsInBytes(text: string, n: nat, k: nat, grouping: bool)
    requires |text| == 8 * n && k < n
    requires forall j :: 0 <= j < n ==>
                           IntValue(SliceOf(text, j), grouping).Some? && IntValue(SliceOf(text, j), grouping).value >= 0
    ensures var r := Words(text, grouping);
            && r.Table? && |r.bytes| == 4 * n
            && 0x100_0000 * r.bytes[4 * k] as int + 0x1_0000 * r.bytes[4 * k + 1] as int
               + 0x100 * r.bytes[4 * k + 2] as int + r.bytes[4 * k + 3] as int
               == IntValue(SliceOf(text, k), grouping).value
    decreases n
  {
    hide IntValue, PackBE32;
    assert SliceOf(text, 0) == text[..8];
    forall j | 0 <= j < n - 1
      ensures SliceOf(text[8..], j) == SliceOf(text, j + 1)
    {
      NextSlice(text, j);
    }
    IntValueFitsWord(text[..8], grouping);
    var number := IntValue(text[..8], grouping).value;
    BE32RoundTrip(number);
    var word := PackBE32(number);
    if k > 0 {
      WordsInBytes(text[8..], n - 1, k - 1, grouping);
    } else if n > 1 {
      WordsInBytes(text[8..], n - 1, 0, grouping);
    } else {
      assert text[8..] == [] && Words([], grouping) == Table([]);
    }
    assert Words(text, grouping).bytes == word + Words(text[8..], grouping).bytes;
    assert k == 0 ==> Words(text, grouping).bytes[0] == word[0] && Words(text, grouping).bytes[1] == word[1]
                      && Words(text, grouping).bytes[2] == word[2] && Words(text, grouping).bytes[3] == word[3];
  }
}
