/** Decimal numerals: `strconv.Itoa`, `strconv.Atoi`, and the index in a chunk's name. */
module Decimal {
  import opened ByteStrings

  const ZERO: byte := 48
  const PLUS: byte := 43
  const MINUS: byte := 45
  const SLASH: byte := 47
  const BACKSLASH: byte := 92

  const MAX_INT := 0x7FFF_FFFF_FFFF_FFFF

  function Itoa(n: nat): (s: Bytes)
    ensures s != [] && forall i :: 0 <= i < |s| ==> ZERO <= s[i] < ZERO + 10
  {
    var digit := (ZERO as int + n % 10) as byte;
    if n < 10 then [digit] else Itoa(n / 10) + [digit]
  }

  /** The number written by a string of digits, if it is one. */
  function Digits(s: Bytes): Option<nat> {
    if s == [] then Some(0)
    else
      var n := |s| - 1;
      var high := Digits(s[..n]);
      if high.Some? && ZERO <= s[n] < ZERO + 10 then Some(high.value * 10 + (s[n] as int - ZERO as int)) else None
  }

  /** An optional sign and at least one digit, within 64 bits. */
  function Atoi(s: Bytes): Option<int> {
    var signed := s != [] && (s[0] == PLUS || s[0] == MINUS);
    var rest := if signed then s[1..] else s;
    var n := if rest == [] then None else Digits(rest);
    if n == None then None
    else if signed && s[0] == MINUS then if n.value <= MAX_INT + 1 then Some(-n.value) else None
    else if n.value <= MAX_INT then Some(n.value) else None
  }

  lemma {:induction false} DigitsOfItoa(n: nat)
    ensures Digits(Itoa(n)) == Some(n)
  {
    var s := Itoa(n);
    if n < 10 {
      assert s[..0] == [];
    } else {
      DigitsOfItoa(n / 10);
      assert s[..|s| - 1] == Itoa(n / 10);
    }
  }

  lemma AtoiOfItoa(n: nat)
    requires n <= MAX_INT
    ensures Atoi(Itoa(n)) == Some(n)
  {
    DigitsOfItoa(n);
    assert ZERO <= Itoa(n)[0] < ZERO + 10;
  }

  lemma ItoaInjective(m: nat, n: nat)
    requires Itoa(m) == Itoa(n)
    ensures m == n
  {
    DigitsOfItoa(m);
    DigitsOfItoa(n);
  }

  // ----- Chunk names -----

  predicate IsSeparator(b: byte) {
    b == SLASH || b == BACKSLASH
  }

  /** What follows the last separator. */
  function BaseName(name: Bytes): Bytes {
    if name == [] then []
    else
      var n := |name| - 1;
      if IsSeparator(name[n]) then [] else BaseName(name[..n]) + [name[n]]
  }

  /** `chunkIndexFromItemName`: older builders put a path in front, with either separator. */
  function ChunkIndex(name: Bytes): Option<int> {
    Atoi(BaseName(name))
  }

  lemma {:induction false} BaseNameOf(prefix: Bytes, base: Bytes)
    requires forall i :: 0 <= i < |base| ==> !IsSeparator(base[i])
    requires prefix == [] || IsSeparator(prefix[|prefix| - 1])
    ensures BaseName(prefix + base) == base
    decreases |base|
  {
    if base == [] {
      assert prefix + base == prefix;
    } else {
      var n := |base| - 1;
      assert (prefix + base)[..|prefix| + n] == prefix + base[..n];
      BaseNameOf(prefix, base[..n]);
      assert base == base[..n] + [base[n]];
    }
  }

  /** A chunk's index is read back from its name, bare or behind a path with either separator. */
  lemma ChunkIndexReadsBack(prefix: Bytes, index: nat)
    requires index <= MAX_INT
    requires prefix == [] || IsSeparator(prefix[|prefix| - 1])
    ensures ChunkIndex(prefix + Itoa(index)) == Some(index)
  {
    hide Atoi, Itoa;
    BaseNameOf(prefix, Itoa(index));
    AtoiOfItoa(index);
  }
}
