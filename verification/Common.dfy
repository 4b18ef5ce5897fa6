/** Types and constants that the models share. */
module Common {

  datatype Option<+T> = None | Some(value: T)

  const WORD32: nat := 0x1_0000_0000
  const U64: nat := 0x1_0000_0000_0000_0000

  type byte = n: int | 0 <= n < 256
  type u32 = n: int | 0 <= n < 0x1_0000_0000
  type u64 = n: int | 0 <= n < 0x1_0000_0000_0000_0000

  predicate IsSpace(c: char) {
    c == ' ' || '\t' <= c <= '\r'
  }

  lemma BlanksAre(c: char)
    ensures IsSpace(c) <==> c as int == 32 || 9 <= c as int <= 13
  {
  }

  lemma {:induction false} SkipsBlanks(ws: string, rest: string)
    requires (forall i :: 0 <= i < |ws| ==> IsSpace(ws[i])) && (rest != [] ==> !IsSpace(rest[0]))
    ensures SkipSpace(ws + rest) == rest
    decreases |ws|
  {
    if ws == [] {
      assert ws + rest == rest;
    } else {
      assert (ws + rest)[1..] == ws[1..] + rest;
      SkipsBlanks(ws[1..], rest);
    }
  }

  function SkipSpace(s: string): string {
    if s != [] && IsSpace(s[0]) then SkipSpace(s[1..]) else s
  }

  function Min(a: nat, b: nat): nat { if a <= b then a else b }

  // ----- Fields of a word -----

  lemma {:induction false} MultiplesAreSpaced(q: nat, q': nat, base: nat)
    requires q < q'
    ensures q * base + base <= q' * base
    decreases q'
  {
    assert q' * base == (q' - 1) * base + base;
    if q < q' - 1 {
      MultiplesAreSpaced(q, q' - 1, base);
    }
  }

  /** In base `base`, quotient and remainder are unique. */
  lemma DigitsAreUnique(q: nat, r: nat, q': nat, r': nat, base: nat)
    requires r < base && r' < base
    requires q * base + r == q' * base + r'
    ensures q == q' && r == r'
  {
    if q < q' {
      MultiplesAreSpaced(q, q', base);
    } else if q' < q {
      MultiplesAreSpaced(q', q, base);
    }
  }

  /** A field is read back from above the bits below it. */
  lemma Unpack(word: nat, rest: nat, field: nat, size: nat, low: nat, unit: nat)
    requires field < size && low < unit
    requires word == (rest * size + field) * unit + low
    ensures word / unit % size == field
  {
    var d := word / unit;
    assert word == d * unit + word % unit;
    DigitsAreUnique(rest * size + field, low, d, word % unit, unit);
    assert d == d / size * size + d % size;
    DigitsAreUnique(rest, field, d / size, d % size, size);
  }
}
