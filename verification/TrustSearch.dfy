/** Why the table of bootstrap_scripts/create_trustcache.py can be searched by bisection, and
    when not: its lines are sorted as text, the kernel compares bytes. */
module TrustSearch {
  import opened Bytes
  import opened Common
  import opened HexText
  import opened TrustCache

  // ----- Order -----

  /** The order of sorted() on text. */
  predicate TextLE(a: string, b: string) {
    a == [] || (b != [] && (a[0] < b[0] || (a[0] == b[0] && TextLE(a[1..], b[1..]))))
  }

  predicate BytesLE(a: seq<byte>, b: seq<byte>) {
    a == [] || (b != [] && (a[0] < b[0] || (a[0] == b[0] && BytesLE(a[1..], b[1..]))))
  }

  /** Both orders are lexicographic, by characters and by bytes: at the first difference the
      smaller one comes first, and a text comes before its continuations. */
  lemma {:induction false} TextOrderIsLexicographic(a: string, b: string)
    ensures TextLE(a, b) <==>
            a <= b || exists i :: 0 <= i < |a| && i < |b| && a[..i] == b[..i] && a[i] < b[i]
    decreases |a|
  {
    if a != [] && b != [] {
      TextOrderIsLexicographic(a[1..], b[1..]);
      if i :| 0 <= i < |a| && i < |b| && a[..i] == b[..i] && a[i] < b[i] {
        if i > 0 {
          assert a[0] == a[..i][0] == b[..i][0] == b[0];
          assert a[1..][..i - 1] == a[..i][1..] && b[1..][..i - 1] == b[..i][1..] && a[1..][i - 1] < b[1..][i - 1];
        }
      }
      if a[0] == b[0] {
        if i :| 0 <= i < |a| - 1 && i < |b| - 1 && a[1..][..i] == b[1..][..i] && a[1..][i] < b[1..][i] {
          assert a[..i + 1] == [a[0]] + a[1..][..i] && b[..i + 1] == [b[0]] + b[1..][..i] && a[i + 1] < b[i + 1];
        }
        assert a[1..] <= b[1..] <==> a <= b;
      } else if a[0] < b[0] {
        assert a[..0] == b[..0];
      }
    }
  }

  lemma {:induction false} ByteOrderIsLexicographic(a: seq<byte>, b: seq<byte>)
    ensures BytesLE(a, b) <==>
            a <= b || exists i :: 0 <= i < |a| && i < |b| && a[..i] == b[..i] && a[i] < b[i]
    decreases |a|
  {
    if a != [] && b != [] {
      ByteOrderIsLexicographic(a[1..], b[1..]);
      if i :| 0 <= i < |a| && i < |b| && a[..i] == b[..i] && a[i] < b[i] {
        if i > 0 {
          assert a[0] == a[..i][0] == b[..i][0] == b[0];
          assert a[1..][..i - 1] == a[..i][1..] && b[1..][..i - 1] == b[..i][1..] && a[1..][i - 1] < b[1..][i - 1];
        }
      }
      if a[0] == b[0] {
        if i :| 0 <= i < |a| - 1 && i < |b| - 1 && a[1..][..i] == b[1..][..i] && a[1..][i] < b[1..][i] {
          assert a[..i + 1] == [a[0]] + a[1..][..i] && b[..i + 1] == [b[0]] + b[1..][..i] && a[i + 1] < b[i + 1];
        }
        assert a[1..] <= b[1..] <==> a <= b;
      } else if a[0] < b[0] {
        assert a[..0] == b[..0];
      }
    }
  }

  lemma {:induction false} TextLETotal(a: string, b: string)
    ensures TextLE(a, b) || TextLE(b, a)
    decreases |a|
  {
    if a != [] && b != [] {
      TextLETotal(a[1..], b[1..]);
    }
  }

  lemma {:induction false} TextLETransitive(a: string, b: string, c: string)
    requires TextLE(a, b) && TextLE(b, c)
    ensures TextLE(a, c)
    decreases |a|
  {
    if a != [] && a[0] == b[0] == c[0] {
      TextLETransitive(a[1..], b[1..], c[1..]);
    }
  }

  predicate Sorted(lines: seq<string>) {
    forall i, j :: 0 <= i <= j < |lines| ==> TextLE(lines[i], lines[j])
  }

  function Insert(x: string, lines: seq<string>): seq<string> {
    if lines == [] || TextLE(x, lines[0]) then [x] + lines else [lines[0]] + Insert(x, lines[1..])
  }

  function Sort(lines: seq<string>): seq<string> {
    if lines == [] then [] else Insert(lines[0], Sort(lines[1..]))
  }

  lemma SortedFront(x: string, rest: seq<string>)
    requires Sorted(rest) && forall j :: 0 <= j < |rest| ==> TextLE(x, rest[j])
    ensures Sorted([x] + rest)
  {
    TextLETotal(x, x);
    hide TextLE;
    var r := [x] + rest;
    forall i, j | 0 <= i <= j < |r| ensures TextLE(r[i], r[j]) {
      if i > 0 {
        assert r[i] == rest[i - 1] && r[j] == rest[j - 1];
      } else if j > 0 {
        assert r[j] == rest[j - 1];
      }
    }
  }

  lemma {:induction false} InsertKeepsLines(x: string, lines: seq<string>)
    ensures multiset(Insert(x, lines)) == multiset(lines) + multiset{x}
    decreases |lines|
  {
    if lines != [] && !TextLE(x, lines[0]) {
      InsertKeepsLines(x, lines[1..]);
      assert lines == [lines[0]] + lines[1..];
    }
  }

  lemma {:induction false} InsertSorts(x: string, lines: seq<string>)
    requires Sorted(lines)
    ensures Sorted(Insert(x, lines))
    decreases |lines|
  {
    if lines == [] || TextLE(x, lines[0]) {
      forall j | 0 <= j < |lines| ensures TextLE(x, lines[j]) {
        TextLETransitive(x, lines[0], lines[j]);
      }
      SortedFront(x, lines);
    } else {
      TextLETotal(x, lines[0]);
      hide TextLE;
      var rest := Insert(x, lines[1..]);
      InsertSorts(x, lines[1..]);
      InsertKeepsLines(x, lines[1..]);
      forall j | 0 <= j < |rest| ensures TextLE(lines[0], rest[j]) {
        assert rest[j] in multiset(rest);
        assert rest[j] == x || rest[j] in lines[1..];
      }
      SortedFront(lines[0], rest);
    }
  }

  /** The result of sorted(): ordered, and the same lines. */
  lemma {:induction false} SortSorts(lines: seq<string>)
    ensures Sorted(Sort(lines)) && multiset(Sort(lines)) == multiset(lines)
    ensures |Sort(lines)| == |lines|
    decreases |lines|
  {
    if lines != [] {
      SortSorts(lines[1..]);
      InsertSorts(lines[0], Sort(lines[1..]));
      InsertKeepsLines(lines[0], Sort(lines[1..]));
      assert lines == [lines[0]] + lines[1..];
      assert |multiset(Sort(lines))| == |multiset(lines)|;
    }
  }

  lemma SortedTail(lines: seq<string>)
    requires Sorted(lines) && lines != []
    ensures Sorted(lines[1..]) && multiset(lines[1..]) == multiset(lines) - multiset{lines[0]}
  {
    hide TextLE;
    assert lines == [lines[0]] + lines[1..];
    forall i, j | 0 <= i <= j < |lines[1..]| ensures TextLE(lines[1..][i], lines[1..][j]) {
      assert lines[1..][i] == lines[i + 1] && lines[1..][j] == lines[j + 1];
    }
  }

  lemma FirstIsLeast(a: seq<string>, b: seq<string>)
    requires Sorted(a) && a != [] && b != [] && multiset(a) == multiset(b)
    ensures TextLE(a[0], b[0])
  {
    hide TextLE;
    assert b[0] in multiset(a);
    var i :| 0 <= i < |a| && a[i] == b[0];
    assert TextLE(a[0], a[i]);
  }

  /** There is one way to sort: whatever sorted() does, it comes to the result of Sort. */
  lemma {:induction false} SortIsUnique(a: seq<string>, b: seq<string>)
    requires Sorted(a) && Sorted(b) && multiset(a) == multiset(b)
    ensures a == b
    decreases |a|
  {
    hide TextLE, Sorted;
    assert |multiset(a)| == |a| && |multiset(b)| == |b|;
    if a != [] {
      FirstIsLeast(a, b);
      FirstIsLeast(b, a);
      TextLEAntisymmetric(a[0], b[0]);
      SortedTail(a);
      SortedTail(b);
      SortIsUnique(a[1..], b[1..]);
      assert a == [a[0]] + a[1..] && b == [b[0]] + b[1..];
    }
  }

  // ----- Text order is byte order -----

  /** All letters of one case. */
  predicate Lower(s: string) {
    forall i :: 0 <= i < |s| ==> !('A' <= s[i] <= 'F')
  }

  predicate Upper(s: string) {
    forall i :: 0 <= i < |s| ==> !('a' <= s[i] <= 'f')
  }

  predicate SameCase(a: string, b: string) {
    (Lower(a) && Lower(b)) || (Upper(a) && Upper(b))
  }

  predicate UniformCase(lines: seq<string>) {
    (forall i :: 0 <= i < |lines| ==> Lower(lines[i])) || (forall i :: 0 <= i < |lines| ==> Upper(lines[i]))
  }

  lemma {:induction false} HexOrder(a: string, b: string)
    requires AllHex(a) && AllHex(b) && SameCase(a, b) && |a| == |b| && |a| % 2 == 0
    requires TextLE(a, b)
    ensures BytesLE(HexBytes(a), HexBytes(b))
    decreases |a|
  {
    if a != [] {
      assert a[0] <= b[0] && (a[0] < b[0] ==> HexDigit(a[0]) < HexDigit(b[0]));
      if a[0] == b[0] {
        assert a[1..][0] == a[1] && b[1..][0] == b[1];
        assert a[1] < b[1] ==> HexDigit(a[1]) < HexDigit(b[1]);
        if a[1] == b[1] {
          assert a[1..][1..] == a[2..] && b[1..][1..] == b[2..];
          HexOrder(a[2..], b[2..]);
        }
      }
    }
  }

  lemma {:induction false} TruncationKeepsOrder(a: string, b: string, n: nat)
    requires TextLE(a, b) && n <= |a| && n <= |b|
    ensures TextLE(a[..n], b[..n])
    decreases n
  {
    if n > 0 {
      assert a[..n][1..] == a[1..][..n - 1] && b[..n][1..] == b[1..][..n - 1];
      if a[0] == b[0] {
        TruncationKeepsOrder(a[1..], b[1..], n - 1);
      }
    }
  }

  predicate KeysSorted(keys: seq<seq<byte>>) {
    forall i, j :: 0 <= i <= j < |keys| ==> BytesLE(keys[i], keys[j])
  }

  // ----- Mixed case: exactly when the sort is right -----

  function LowerChar(c: char): (d: char)
    requires IsHex(c)
    ensures IsHex(d) && HexDigit(d) == HexDigit(c) && !('A' <= d <= 'F')
  {
    if 'A' <= c <= 'F' then 'a' + (c - 'A') else c
  }

  function Lowered(s: string): (t: string)
    requires AllHex(s)
    ensures |t| == |s|
    ensures forall i :: 0 <= i < |s| ==> t[i] == LowerChar(s[i])
  {
    if s == [] then [] else [LowerChar(s[0])] + Lowered(s[1..])
  }

  lemma LoweredTwo(s: string)
    requires AllHex(s) && 2 <= |s|
    ensures Lowered(s) == [LowerChar(s[0]), LowerChar(s[1])] + Lowered(s[2..])
  {
    assert s[1..][1..] == s[2..];
  }

  /** Lower-casing does not change the bytes. */
  lemma {:induction false} LoweredBytes(s: string)
    requires AllHex(s) && |s| % 2 == 0
    ensures HexBytes(Lowered(s)) == HexBytes(s)
    decreases |s|
  {
    if s != [] {
      LoweredBytes(s[2..]);
      LoweredTwo(s);
      assert Lowered(s)[2..] == Lowered(s[2..]);
    }
  }

  lemma DigitsOfByte(c: char, d: char, c': char, d': char)
    requires IsHex(c) && IsHex(d) && IsHex(c') && IsHex(d')
    requires 16 * HexDigit(c) + HexDigit(d) == 16 * HexDigit(c') + HexDigit(d')
    ensures LowerChar(c) == LowerChar(c') && LowerChar(d) == LowerChar(d')
  {
    assert HexDigit(c) == HexDigit(c') && HexDigit(d) == HexDigit(d') by {
      hide HexDigit;
    }
  }

  lemma {:induction false} HexBytesInjective(a: string, b: string)
    requires AllHex(a) && AllHex(b) && |a| == |b| && |a| % 2 == 0 && HexBytes(a) == HexBytes(b)
    ensures Lowered(a) == Lowered(b)
    decreases |a|
  {
    if a != [] {
      var x, y := HexBytes(a), HexBytes(b);
      assert x[0] == y[0] && x[1..] == HexBytes(a[2..]) && y[1..] == HexBytes(b[2..]);
      hide HexDigit, LowerChar, Lowered;
      HexBytesInjective(a[2..], b[2..]);
      DigitsOfByte(a[0], a[1], b[0], b[1]);
      LoweredTwo(a);
      LoweredTwo(b);
    }
  }

  /** The keys of two lines are ordered as their digits are after lower-casing. */
  lemma KeyOrderIsLoweredOrder(a: string, b: string)
    requires GoodLine(a) && GoodLine(b)
    ensures BytesLE(KeyOf(a), KeyOf(b)) <==> TextLE(Lowered(a[..DIGITS]), Lowered(b[..DIGITS]))
  {
    var x, y := Lowered(a[..DIGITS]), Lowered(b[..DIGITS]);
    LoweredBytes(a[..DIGITS]);
    LoweredBytes(b[..DIGITS]);
    hide TextLE, BytesLE, Lowered;
    if TextLE(x, y) {
      HexOrder(x, y);
    } else {
      TextLETotal(x, y);
      HexOrder(y, x);
      if BytesLE(KeyOf(a), KeyOf(b)) {
        BytesLEAntisymmetric(KeyOf(a), KeyOf(b));
        HexBytesInjective(a[..DIGITS], b[..DIGITS]);
        TextLETotal(x, x);
      }
    }
  }

  /** Listed lines compare as their digits do after lower-casing. */
  predicate CaseAgrees(lines: seq<string>)
    requires AllGood(lines)
  {
    forall i, j :: 0 <= i < |lines| && 0 <= j < |lines| && TextLE(lines[i], lines[j]) ==>
                     TextLE(Lowered(lines[i][..DIGITS]), Lowered(lines[j][..DIGITS]))
  }

  lemma UniformCaseAgrees(lines: seq<string>)
    requires AllGood(lines) && UniformCase(lines)
    ensures CaseAgrees(lines)
  {
    hide TextLE, Lowered;
    forall i, j | 0 <= i < |lines| && 0 <= j < |lines| && TextLE(lines[i], lines[j])
      ensures TextLE(Lowered(lines[i][..DIGITS]), Lowered(lines[j][..DIGITS]))
    {
      TruncationKeepsOrder(lines[i], lines[j], DIGITS);
      HexOrder(lines[i][..DIGITS], lines[j][..DIGITS]);
      KeyOrderIsLoweredOrder(lines[i], lines[j]);
    }
  }

  predicate IsSortOf(hashes: seq<string>, lines: seq<string>) {
    Sorted(hashes) && multiset(hashes) == multiset(lines)
  }

  /** The sorted text has sorted keys exactly when case does not disturb the order. */
  lemma {:induction false} KeysSortedExactlyWhen(lines: seq<string>, hashes: seq<string>)
    requires AllGood(lines) && IsSortOf(hashes, lines)
    ensures AllGood(hashes) && (KeysSorted(KeysOf(hashes)) <==> CaseAgrees(lines))
  {
    SameLines(lines, hashes);
    hide TextLE, BytesLE, Lowered, GoodLine;
    if CaseAgrees(lines) {
      forall p, q | 0 <= p <= q < |hashes| ensures BytesLE(KeyOf(hashes[p]), KeyOf(hashes[q])) {
        assert hashes[p] in lines && hashes[q] in lines;
        KeyOrderIsLoweredOrder(hashes[p], hashes[q]);
      }
    }
    if KeysSorted(KeysOf(hashes)) {
      forall i, j | 0 <= i < |lines| && 0 <= j < |lines| && TextLE(lines[i], lines[j])
        ensures TextLE(Lowered(lines[i][..DIGITS]), Lowered(lines[j][..DIGITS]))
      {
        SortedKeysAgree(hashes, lines[i], lines[j]);
        KeyOrderIsLoweredOrder(lines[i], lines[j]);
      }
    }
  }

  lemma SortedKeysAgree(hashes: seq<string>, a: string, b: string)
    requires AllGood(hashes) && Sorted(hashes) && KeysSorted(KeysOf(hashes))
    requires a in hashes && b in hashes && TextLE(a, b)
    ensures BytesLE(KeyOf(a), KeyOf(b))
  {
    hide TextLE, BytesLE, GoodLine;
    var p :| 0 <= p < |hashes| && hashes[p] == a;
    var q :| 0 <= q < |hashes| && hashes[q] == b;
    assert KeysOf(hashes)[p] == KeyOf(a) && KeysOf(hashes)[q] == KeyOf(b);
    if q < p {
      TextLEAntisymmetric(a, b);
      BytesLETotal(KeyOf(a), KeyOf(a));
    }
  }

  lemma {:induction false} TextLEAntisymmetric(a: string, b: string)
    requires TextLE(a, b) && TextLE(b, a)
    ensures a == b
    decreases |a|
  {
    if a != [] {
      TextLEAntisymmetric(a[1..], b[1..]);
      assert a == [a[0]] + a[1..] && b == [b[0]] + b[1..];
    }
  }

  // ----- Searching -----

  /** A bisection, as the kernel runs it over the records; the keys need not be in order. */
  predicate Bisect(keys: seq<seq<byte>>, key: seq<byte>, lo: nat, hi: nat)
    requires lo <= hi <= |keys|
    decreases hi - lo
  {
    if lo == hi then false
    else
      var mid := (lo + hi) / 2;
      keys[mid] == key
      || (if BytesLE(keys[mid], key) then Bisect(keys, key, mid + 1, hi) else Bisect(keys, key, lo, mid))
  }

  method BinarySearch(keys: seq<seq<byte>>, key: seq<byte>) returns (found: bool)
    ensures found == Bisect(keys, key, 0, |keys|)
  {
    var lo, hi := 0, |keys|;
    while lo < hi
      invariant 0 <= lo <= hi <= |keys|
      invariant Bisect(keys, key, 0, |keys|) == Bisect(keys, key, lo, hi)
      decreases hi - lo
    {
      var mid := (lo + hi) / 2;
      if keys[mid] == key {
        return true;
      }
      if BytesLE(keys[mid], key) {
        lo := mid + 1;
      } else {
        hi := mid;
      }
    }
    found := false;
  }

  /** What is found is there. */
  lemma {:induction false} BisectFinds(keys: seq<seq<byte>>, key: seq<byte>, lo: nat, hi: nat) returns (i: nat)
    requires lo <= hi <= |keys| && Bisect(keys, key, lo, hi)
    ensures lo <= i < hi && keys[i] == key
    decreases hi - lo
  {
    hide BytesLE;
    var mid := (lo + hi) / 2;
    if keys[mid] == key {
      i := mid;
    } else if BytesLE(keys[mid], key) {
      i := BisectFinds(keys, key, mid + 1, hi);
    } else {
      i := BisectFinds(keys, key, lo, mid);
    }
  }

  /** In ordered keys, what is there is found. */
  lemma {:induction false} SortedIsFound(keys: seq<seq<byte>>, lo: nat, hi: nat, i: nat)
    requires KeysSorted(keys) && lo <= i < hi <= |keys|
    ensures Bisect(keys, keys[i], lo, hi)
    decreases hi - lo
  {
    hide BytesLE;
    var mid := (lo + hi) / 2;
    if keys[mid] != keys[i] {
      if i < mid {
        if BytesLE(keys[mid], keys[i]) {
          BytesLEAntisymmetric(keys[mid], keys[i]);
        }
        SortedIsFound(keys, lo, mid, i);
      } else {
        SortedIsFound(keys, mid + 1, hi, i);
      }
    }
  }

  predicate Distinct(keys: seq<seq<byte>>) {
    forall i, j :: 0 <= i < j < |keys| ==> keys[i] != keys[j]
  }

  predicate AllFound(keys: seq<seq<byte>>, lo: nat, hi: nat)
    requires lo <= hi <= |keys|
  {
    forall i :: lo <= i < hi ==> Bisect(keys, keys[i], lo, hi)
  }

  predicate SortedBetween(keys: seq<seq<byte>>, lo: nat, hi: nat)
    requires lo <= hi <= |keys|
  {
    forall i, j :: lo <= i <= j < hi ==> BytesLE(keys[i], keys[j])
  }

  /** When all keys of a range are found in it, each lies on the right side of its middle. */
  lemma FoundOnItsSide(keys: seq<seq<byte>>, lo: nat, hi: nat, i: nat)
    requires Distinct(keys) && lo <= i < hi <= |keys| && AllFound(keys, lo, hi)
    ensures var mid := (lo + hi) / 2;
            && (i < mid ==> BytesLE(keys[i], keys[mid]) && Bisect(keys, keys[i], lo, mid))
            && (i > mid ==> BytesLE(keys[mid], keys[i]) && Bisect(keys, keys[i], mid + 1, hi))
  {
    hide BytesLE;
    var mid := (lo + hi) / 2;
    BytesLETotal(keys[i], keys[mid]);
    if i != mid {
      assert keys[i] != keys[mid] && Bisect(keys, keys[i], lo, hi);
      if BytesLE(keys[mid], keys[i]) {
        var j := BisectFinds(keys, keys[i], mid + 1, hi);
        assert i == j;
      } else {
        var j := BisectFinds(keys, keys[i], lo, mid);
        assert i == j;
      }
    }
  }

  lemma {:induction false} AllFoundIsSorted(keys: seq<seq<byte>>, lo: nat, hi: nat)
    requires Distinct(keys) && lo <= hi <= |keys| && AllFound(keys, lo, hi)
    ensures SortedBetween(keys, lo, hi)
    decreases hi - lo
  {
    hide BytesLE, Bisect;
    if lo < hi {
      var mid := (lo + hi) / 2;
      forall i | lo <= i < hi
        ensures i < mid ==> BytesLE(keys[i], keys[mid]) && Bisect(keys, keys[i], lo, mid)
        ensures i > mid ==> BytesLE(keys[mid], keys[i]) && Bisect(keys, keys[i], mid + 1, hi)
      {
        FoundOnItsSide(keys, lo, hi, i);
      }
      AllFoundIsSorted(keys, lo, mid);
      AllFoundIsSorted(keys, mid + 1, hi);
      BytesLETotal(keys[mid], keys[mid]);
      forall i, j | lo <= i <= j < hi ensures BytesLE(keys[i], keys[j]) {
        if i <= mid <= j {
          BytesLETransitive(keys[i], keys[mid], keys[j]);
        }
      }
    }
  }

  /** Distinct keys are all found exactly when they are in order. */
  lemma {:induction false} AllFoundExactlyWhenSorted(keys: seq<seq<byte>>)
    requires Distinct(keys)
    ensures AllFound(keys, 0, |keys|) <==> KeysSorted(keys)
  {
    hide BytesLE, Bisect;
    if KeysSorted(keys) {
      forall i | 0 <= i < |keys| ensures Bisect(keys, keys[i], 0, |keys|) {
        SortedIsFound(keys, 0, |keys|, i);
      }
    }
    if AllFound(keys, 0, |keys|) {
      AllFoundIsSorted(keys, 0, |keys|);
    }
  }

  /** Each line is listed once, and no two lines have the same key. */
  predicate DistinctKeys(lines: seq<string>)
    requires AllGood(lines)
  {
    && (forall s :: s in lines ==> multiset(lines)[s] == 1)
    && (forall i, j :: 0 <= i < |lines| && 0 <= j < |lines| && KeyOf(lines[i]) == KeyOf(lines[j]) ==>
                         lines[i] == lines[j])
  }

  lemma OccursTwice(lines: seq<string>, i: nat, j: nat)
    requires i < j < |lines| && lines[i] == lines[j]
    ensures multiset(lines)[lines[i]] >= 2
  {
    assert lines == lines[..j] + lines[j..];
    assert lines[i] in lines[..j] && lines[j..][0] == lines[i];
    assert lines[i] in multiset(lines[..j]) && lines[i] in multiset(lines[j..]);
  }

  lemma SortKeepsKeysDistinct(lines: seq<string>, hashes: seq<string>)
    requires AllGood(lines) && AllGood(hashes) && DistinctKeys(lines) && multiset(hashes) == multiset(lines)
    ensures Distinct(KeysOf(hashes))
  {
    SameLines(lines, hashes);
    hide GoodLine;
    forall p, q | 0 <= p < q < |hashes| ensures KeyOf(hashes[p]) != KeyOf(hashes[q]) {
      assert hashes[p] in lines && hashes[q] in lines;
      if KeyOf(hashes[p]) == KeyOf(hashes[q]) {
        OccursTwice(hashes, p, q);
      }
    }
  }

  predicate Findable(lines: seq<string>, hashes: seq<string>)
    requires AllGood(lines) && AllGood(hashes)
  {
    forall i :: 0 <= i < |lines| ==> Bisect(KeysOf(hashes), KeyOf(lines[i]), 0, |hashes|)
  }

  /** With distinct keys, a bisection over the sorted table finds every listed hash exactly
      when case does not disturb the order. */
  lemma {:induction false} SearchableExactlyWhen(lines: seq<string>, hashes: seq<string>)
    requires AllGood(lines) && DistinctKeys(lines) && IsSortOf(hashes, lines)
    ensures AllGood(hashes) && (Findable(lines, hashes) <==> CaseAgrees(lines))
  {
    hide Bisect, CaseAgrees, DistinctKeys, GoodLine, KeysSorted, Sorted;
    SameLines(lines, hashes);
    KeysSortedExactlyWhen(lines, hashes);
    SortKeepsKeysDistinct(lines, hashes);
    AllFoundExactlyWhenSorted(KeysOf(hashes));
    var keys := KeysOf(hashes);
    if AllFound(keys, 0, |keys|) {
      forall i | 0 <= i < |lines| ensures Bisect(keys, KeyOf(lines[i]), 0, |keys|) {
        assert lines[i] in hashes;
        var j :| 0 <= j < |hashes| && hashes[j] == lines[i];
        assert keys[j] == KeyOf(lines[i]);
      }
    }
    if Findable(lines, hashes) {
      forall j | 0 <= j < |keys| ensures Bisect(keys, keys[j], 0, |keys|) {
        assert hashes[j] in lines;
        var i :| 0 <= i < |lines| && lines[i] == hashes[j];
        assert keys[j] == KeyOf(lines[i]);
      }
    }
  }

  /** With letters of one case every listed hash is found, although lines may go on behind
      their 40 digits, and although they may be listed twice. */
  lemma {:induction false} UniformCaseIsSearchable(lines: seq<string>, hashes: seq<string>)
    requires AllGood(lines) && UniformCase(lines) && IsSortOf(hashes, lines)
    ensures AllGood(hashes) && Findable(lines, hashes)
  {
    hide Bisect, CaseAgrees, GoodLine, KeysSorted, Sorted, UniformCase;
    UniformCaseAgrees(lines);
    SameLines(lines, hashes);
    KeysSortedExactlyWhen(lines, hashes);
    forall i | 0 <= i < |lines| ensures Bisect(KeysOf(hashes), KeyOf(lines[i]), 0, |hashes|) {
      assert lines[i] in hashes;
      var j :| 0 <= j < |hashes| && hashes[j] == lines[i];
      assert KeysOf(hashes)[j] == KeyOf(lines[i]);
      SortedIsFound(KeysOf(hashes), 0, |hashes|, j);
    }
  }

  lemma BisectOfTwo(keys: seq<seq<byte>>)
    requires |keys| == 2 && keys[0] != keys[1] && BytesLE(keys[1], keys[0])
    ensures !Bisect(keys, keys[0], 0, 2)
  {
  }

  lemma BisectOfThree(keys: seq<seq<byte>>)
    requires |keys| == 3 && keys[0] == keys[2] && !BytesLE(keys[1], keys[0])
    ensures AllFound(keys, 0, 3)
  {
    hide BytesLE;
    forall i | 0 <= i < 3 ensures Bisect(keys, keys[i], 0, 3) {
      assert Bisect(keys, keys[0], 0, 1);
    }
  }

  function Repeated(c: char): (s: string)
    ensures |s| == DIGITS && forall i :: 0 <= i < DIGITS ==> s[i] == c
  {
    seq(DIGITS, _ => c)
  }

  lemma RepeatedKey(c: char)
    requires IsHex(c)
    ensures GoodLine(Repeated(c)) && KeyOf(Repeated(c))[0] == 17 * HexDigit(c)
    ensures TextLE(Repeated(c), Repeated(c))
  {
    HexBytesAt(Repeated(c)[..DIGITS], 0);
    TextLETotal(Repeated(c), Repeated(c));
  }

  lemma RepeatedOrder(c: char, d: char)
    requires c < d
    ensures Repeated(c) != Repeated(d) && TextLE(Repeated(c), Repeated(d))
  {
    assert Repeated(c)[0] < Repeated(d)[0];
  }

  /** With both cases a listed hash can be missed: an upper-case B is a smaller character and
      a larger digit than a lower-case a. */
  lemma MixedCaseMissesAKey()
    ensures var lines := [Repeated('B'), Repeated('a')];
            && AllGood(lines) && DistinctKeys(lines) && Sorted(lines)
            && !Bisect(KeysOf(lines), KeyOf(lines[0]), 0, 2)
  {
    hide Bisect, GoodLine, KeyOf, Repeated, TextLE;
    var lines := [Repeated('B'), Repeated('a')];
    RepeatedKey('B');
    RepeatedKey('a');
    RepeatedOrder('B', 'a');
    var keys := KeysOf(lines);
    assert keys[1][0] < keys[0][0];
    BisectOfTwo(keys);
  }

  /** A key that is listed twice can hide the disorder: here case disturbs the order, and
      every listed hash is found all the same. */
  lemma DuplicatesHideDisorder()
    ensures var lines := [Repeated('A'), Repeated('B'), Repeated('a')];
            AllGood(lines) && Sorted(lines) && !CaseAgrees(lines) && Findable(lines, lines)
  {
    hide Bisect, CaseAgrees, GoodLine, KeyOf, Repeated, TextLE;
    var lines := [Repeated('A'), Repeated('B'), Repeated('a')];
    RepeatedKey('A');
    RepeatedKey('B');
    RepeatedKey('a');
    RepeatedOrder('A', 'B');
    RepeatedOrder('A', 'a');
    RepeatedOrder('B', 'a');
    var keys := KeysOf(lines);
    SameKey('A', 'a');
    assert keys[0][0] < keys[1][0] && !BytesLE(keys[1], keys[2]);
    BisectOfThree(keys);
    KeysSortedExactlyWhen(lines, lines);
  }

  lemma SameKey(c: char, d: char)
    requires IsHex(c) && IsHex(d) && HexDigit(c) == HexDigit(d)
    ensures GoodLine(Repeated(c)) && GoodLine(Repeated(d)) && KeyOf(Repeated(c)) == KeyOf(Repeated(d))
  {
    SameDigitsSameBytes(Repeated(c)[..DIGITS], Repeated(d)[..DIGITS]);
  }

  lemma {:induction false} SameDigitsSameBytes(a: string, b: string)
    requires AllHex(a) && AllHex(b) && |a| == |b| && |a| % 2 == 0
    requires forall i :: 0 <= i < |a| ==> HexDigit(a[i]) == HexDigit(b[i])
    ensures HexBytes(a) == HexBytes(b)
    decreases |a|
  {
    if a != [] {
      SameDigitsSameBytes(a[2..], b[2..]);
    }
  }

  lemma {:induction false} BytesLEAntisymmetric(a: seq<byte>, b: seq<byte>)
    requires BytesLE(a, b) && BytesLE(b, a)
    ensures a == b
    decreases |a|
  {
    if a != [] {
      BytesLEAntisymmetric(a[1..], b[1..]);
      assert a == [a[0]] + a[1..] && b == [b[0]] + b[1..];
    }
  }

  lemma {:induction false} BytesLETotal(a: seq<byte>, b: seq<byte>)
    ensures BytesLE(a, b) || BytesLE(b, a)
    decreases |a|
  {
    if a != [] && b != [] {
      BytesLETotal(a[1..], b[1..]);
    }
  }

  lemma {:induction false} BytesLETransitive(a: seq<byte>, b: seq<byte>, c: seq<byte>)
    requires BytesLE(a, b) && BytesLE(b, c)
    ensures BytesLE(a, c)
    decreases |a|
  {
    if a != [] && a[0] == b[0] == c[0] {
      BytesLETransitive(a[1..], b[1..], c[1..]);
    }
  }

  /** What the script's main part writes: the table of the sorted lines. A bisection over it
      finds nothing that was not listed and, if case does not disturb the order, everything
      that was. */
  method SearchInWrittenTable(lines: seq<string>, key: seq<byte>, grouping: bool) returns (found: bool)
    requires AllGood(lines) && |lines| < WORD32
    ensures found ==> exists i :: 0 <= i < |lines| && KeyOf(lines[i]) == key
    ensures CaseAgrees(lines) ==> (found <==> exists i :: 0 <= i < |lines| && KeyOf(lines[i]) == key)
  {
    hide BytesLE, CaseAgrees, GoodLine, KeysFrom, KeysSorted, Sort, Sorted;
    SortSorts(lines);
    var hashes := Sort(lines);
    SameLines(lines, hashes);
    var tc := CreateTc(hashes, grouping);
    TableParses(hashes, grouping);
    KeysSortedExactlyWhen(lines, hashes);
    var keys := Parse(tc.bytes).1;
    found := BinarySearch(keys, key);
    KeyListed(lines, hashes, key);
    if found {
      var i := BisectFinds(keys, key, 0, |keys|);
    } else if key in keys && CaseAgrees(lines) {
      var i :| 0 <= i < |keys| && keys[i] == key;
      SortedIsFound(keys, 0, |keys|, i);
    }
  }

  lemma KeyListed(lines: seq<string>, hashes: seq<string>, key: seq<byte>)
    requires AllGood(lines) && AllGood(hashes)
    requires forall s :: s in lines <==> s in hashes
    ensures key in KeysOf(hashes) <==> exists i :: 0 <= i < |lines| && KeyOf(lines[i]) == key
  {
    if key in KeysOf(hashes) {
      var j :| 0 <= j < |hashes| && KeysOf(hashes)[j] == key;
      assert hashes[j] in lines;
      var i :| 0 <= i < |lines| && lines[i] == hashes[j];
      assert KeyOf(lines[i]) == key;
    }
    if i :| 0 <= i < |lines| && KeyOf(lines[i]) == key {
      assert lines[i] in hashes;
      var j :| 0 <= j < |hashes| && hashes[j] == lines[i];
      assert KeysOf(hashes)[j] == key;
    }
  }

  lemma SameLines(lines: seq<string>, hashes: seq<string>)
    requires multiset(lines) == multiset(hashes)
    ensures forall s :: s in lines <==> s in hashes
    ensures AllGood(lines) ==> AllGood(hashes)
    ensures UniformCase(lines) ==> UniformCase(hashes)
  {
    assert forall s :: s in lines <==> s in multiset(lines);
    assert forall s :: s in hashes <==> s in multiset(hashes);
    assert forall i :: 0 <= i < |hashes| ==> hashes[i] in lines;
  }
}
