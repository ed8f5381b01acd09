/** The rolling hash in closed form, and boundaries in terms of it: each byte of the window contributes its
    gear word times a power of two that says how far back the byte is, modulo 2^64. */
module GearHash {
  import opened ByteStrings
  import opened FastCdc
  import opened ChunkLaws
  import S = MerkleSpec

  /** x added up n times, modulo 2^64. */
  function Times(n: nat, x: bv64): bv64 {
    if n == 0 then 0 else Plus(x, Times(n - 1, x))
  }

  /** The first n terms of the sum of gear[data[i]] * 2^(|data| - 1 - i), modulo 2^64. */
  function Terms(g: Gear, data: Bytes, n: nat): bv64
    requires n <= |data|
  {
    if n == 0 then 0 else Plus(Terms(g, data, n - 1), Times(S.Pow2(|data| - n), g[data[n - 1]]))
  }

  function GearSum(g: Gear, data: Bytes): bv64 {
    Terms(g, data, |data|)
  }

  /** The last 64 bytes, or all there are. */
  function Window(data: Bytes): Bytes {
    if |data| > 64 then data[|data| - 64..] else data
  }

  // ----- Additions, each fact stated once on variables -----

  lemma SumAssociates(x: bv64, y: bv64, z: bv64)
    ensures Plus(Plus(x, y), z) == Plus(x, Plus(y, z))
  {
    hide *;
    PlusIs(x, y);
    PlusIs(y, z);
    SumOfSums(x, y, z);
  }

  lemma SumOfSums(x: bv64, y: bv64, z: bv64)
    ensures Plus(x, y + z) == Plus(x + y, z)
  {
  }

  lemma SumCommutes(x: bv64, y: bv64)
    ensures Plus(x, y) == Plus(y, x)
  {
  }

  lemma SumWithNothing(x: bv64)
    ensures Plus(0, x) == x && Plus(x, 0) == x
  {
  }

  lemma TwiceIsSum(x: bv64)
    ensures Twice(x) == Plus(x, x)
  {
    hide *;
    TwiceIs(x);
    PlusIs(x, x);
    ShiftIsSum(x);
  }

  lemma ShiftIsSum(x: bv64)
    ensures x << 1 == x + x
  {
  }

  lemma TwiceOfSum(x: bv64, y: bv64)
    ensures Twice(Plus(x, y)) == Plus(Twice(x), Twice(y))
  {
    hide *;
    var z := Plus(x, y);
    TwiceIsSum(z);
    TwiceIsSum(x);
    TwiceIsSum(y);
    SumAssociates(x, y, z);
    SumAssociates(y, x, y);
    SumCommutes(y, x);
    SumAssociates(x, y, y);
    SumAssociates(x, x, Plus(y, y));
  }

  lemma TimesNext(n: nat, x: bv64)
    requires n > 0
    ensures Times(n, x) == Plus(x, Times(n - 1, x))
  {
    hide Plus;
  }

  lemma TermsNext(g: Gear, data: Bytes, n: nat)
    requires 0 < n <= |data|
    ensures Terms(g, data, n) == Plus(Terms(g, data, n - 1), Times(S.Pow2(|data| - n), g[data[n - 1]]))
  {
    hide Plus, Times;
  }

  lemma NoTimes(x: bv64)
    ensures Times(0, x) == 0 && Times(1, x) == x
  {
    assert Times(0, x) == 0;
    TimesNext(1, x);
    SumWithNothing(x);
  }

  lemma {:induction false} TimesAdds(m: nat, n: nat, x: bv64)
    ensures Times(m + n, x) == Plus(Times(m, x), Times(n, x))
  {
    hide Plus, Times;
    NoTimes(x);
    if m == 0 {
      SumWithNothing(Times(n, x));
    } else {
      TimesAdds(m - 1, n, x);
      TimesNext(m + n, x);
      TimesNext(m, x);
      SumAssociates(x, Times(m - 1, x), Times(n, x));
    }
  }

  lemma TwiceTimes(n: nat, x: bv64)
    ensures Twice(Times(n, x)) == Times(2 * n, x)
  {
    hide Plus, Twice, Times;
    TwiceIsSum(Times(n, x));
    TimesAdds(n, n, x);
  }

  /** One byte more doubles the terms of the bytes before it. */
  lemma {:induction false} TermsDouble(g: Gear, data: Bytes, b: byte, n: nat)
    requires n <= |data|
    ensures Terms(g, data + [b], n) == Twice(Terms(g, data, n))
  {
    if n == 0 {
      assert Terms(g, data + [b], 0) == 0 && Terms(g, data, 0) == 0;
      TwiceNothing();
    } else {
      hide Plus, Twice, Times, Terms;
      var longer := data + [b];
      TermsDouble(g, data, b, n - 1);
      TermsNext(g, longer, n);
      TermsNext(g, data, n);
      TwiceTimes(S.Pow2(|data| - n), g[data[n - 1]]);
      assert S.Pow2(|longer| - n) == 2 * S.Pow2(|data| - n);
      TwiceOfSum(Terms(g, data, n - 1), Times(S.Pow2(|data| - n), g[data[n - 1]]));
    }
  }

  lemma TwiceNothing()
    ensures Twice(0) == 0
  {
  }

  /** The hash of bytes from zero is the sum over the bytes. */
  lemma {:induction false} RollIsSum(g: Gear, data: Bytes)
    ensures Roll(g, 0, data) == GearSum(g, data)
    decreases |data|
  {
    if data == [] {
      assert Terms(g, data, 0) == 0;
    } else {
      hide Plus, Twice, Times, Terms, Roll;
      var n := |data| - 1;
      var before := data[..n];
      assert data == before + [data[n]];
      RollIsSum(g, before);
      RollPush(g, 0, data, 0, n);
      assert data[0..n + 1] == data && data[0..n] == before;
      TermsDouble(g, before, data[n], n);
      TermsNext(g, data, |data|);
      NoTimes(g[data[n]]);
      PushIs(g, Roll(g, 0, before), data[n]);
      assert S.Pow2(0) == 1;
    }
  }

  lemma PushIs(g: Gear, h: bv64, b: byte)
    ensures Push(g, h, b) == Plus(Twice(h), g[b])
  {
    hide Plus, Twice;
  }

  /** Only the last 64 bytes contribute. */
  lemma RollIsWindowSum(g: Gear, data: Bytes)
    ensures Roll(g, 0, data) == GearSum(g, Window(data))
  {
    hide Roll, GearSum;
    RollIsSum(g, Window(data));
    if |data| > 64 {
      var before, window := data[..|data| - 64], Window(data);
      assert data == before + window;
      RollConcat(g, 0, before, window);
      WindowOf64(g, Roll(g, 0, before), 0, window);
    }
  }

  // ----- Boundaries -----

  /** The bytes that byte i is judged with: at most 64, none before the minimum size. */
  function JudgedBytes(p: Params, data: Bytes, i: nat): Bytes
    requires p.min <= i < |data|
  {
    Window(data[p.min..i + 1])
  }

  /** The sum over the judged bytes is below 2^41 before the target size, below 2^45 from there on. */
  predicate SmallSum(p: Params, g: Gear, data: Bytes, i: nat)
    requires p.min <= i < |data|
  {
    GearSum(g, JudgedBytes(p, data, i)) < if i < p.target then 0x200_0000_0000 else 0x2000_0000_0000
  }

  lemma CutTestIsSmallSum(p: Params, g: Gear, data: Bytes, i: nat)
    requires p.min <= i < |data|
    ensures CutsAfter(p, g, data, i) <==> SmallSum(p, g, data, i)
  {
    hide StrictMatch, LooseMatch, Roll, GearSum, Window;
    RollIsWindowSum(g, data[p.min..i + 1]);
    MasksAreThresholds(Roll(g, 0, data[p.min..i + 1]));
  }

  /** The next chunk is the whole remainder when that is no longer than the minimum. Otherwise it is longer
      than the minimum, no longer than the maximum, and ends with the first byte whose sum is small, or at
      the maximum or the end of the data when there is none. */
  lemma BoundaryIsFirstSmallSum(p: Params, g: Gear, data: Bytes, c: nat)
    requires p.Valid()
    ensures
      c == Boundary(p, g, data) <==>
      if |data| <= p.min then c == |data|
      else
        && p.min < c <= |data| && c <= p.max
        && (forall i :: p.min <= i < c - 1 ==> !SmallSum(p, g, data, i))
        && (c < |data| && c < p.max ==> SmallSum(p, g, data, c - 1))
  {
    hide CutsAfter, SmallSum, Boundary;
    forall i | p.min <= i < |data|
      ensures CutsAfter(p, g, data, i) <==> SmallSum(p, g, data, i)
    {
      CutTestIsSmallSum(p, g, data, i);
    }
    if IsBoundary(p, g, data, c) {
      BoundaryUnique(p, g, data, c, Boundary(p, g, data));
    }
  }

  /** Every chunk of a buffer but the last ends with the first byte past the minimum whose sum, over the bytes
      of the chunk alone, is small, or at the maximum. */
  lemma {:induction false} ChunkEndsAtSmallSum(p: Params, g: Gear, data: Bytes, k: nat)
    requires p.Valid() && k + 1 < |Cuts(p, g, data)|
    ensures
      var chunk := Cuts(p, g, data)[k];
      && p.min < |chunk| <= p.max
      && (forall i :: p.min <= i < |chunk| - 1 ==> !SmallSum(p, g, chunk, i))
      && (|chunk| < p.max ==> SmallSum(p, g, chunk, |chunk| - 1))
    decreases k
  {
    hide SmallSum, Boundary, IsBoundary;
    var c := Boundary(p, g, data);
    BoundaryAdvances(p, g, data);
    if k > 0 {
      ChunkEndsAtSmallSum(p, g, data[c..], k - 1);
    } else {
      var chunk := data[..c];
      LaterChunks(p, g, data);
      BoundaryIsFirstSmallSum(p, g, data, c);
      forall i | p.min <= i < c
        ensures SmallSum(p, g, chunk, i) <==> SmallSum(p, g, data, i)
      {
        SameJudged(p, g, data, chunk, i);
      }
    }
  }

  lemma LaterChunks(p: Params, g: Gear, data: Bytes)
    requires p.Valid() && |Cuts(p, g, data)| > 1
    ensures Boundary(p, g, data) < |data|
  {
    hide Boundary, IsBoundary;
    BoundaryAdvances(p, g, data);
    assert data[|data|..] == [];
  }

  lemma SameJudged(p: Params, g: Gear, data: Bytes, chunk: Bytes, i: nat)
    requires p.min <= i < |chunk| <= |data| && chunk == data[..|chunk|]
    ensures SmallSum(p, g, chunk, i) == SmallSum(p, g, data, i)
  {
    hide GearSum, Window;
    assert chunk[p.min..i + 1] == data[p.min..i + 1];
  }

  // ----- An instance: the bytes decide -----

  const TINY := Params(1, 2, 3)

  /** Nothing for byte 0, the largest word for every other byte. */
  function TinyGear(): Gear {
    seq(0x100, i => if i == 0 then 0 else 0xFFFF_FFFF_FFFF_FFFF)
  }

  lemma OneTerm(g: Gear, data: Bytes)
    requires |data| == 1
    ensures GearSum(g, data) == g[data[0]]
  {
    TermsNext(g, data, 1);
    NoTimes(g[data[0]]);
    SumWithNothing(g[data[0]]);
    assert S.Pow2(0) == 1;
  }

  /** Zeros are cut at the first byte past the minimum, ones not before the maximum. */
  lemma BytesDecide()
    ensures Boundary(TINY, TinyGear(), [0, 0, 0, 0]) == 2
    ensures Boundary(TINY, TinyGear(), [1, 1, 1, 1]) == 3
  {
    hide Boundary, GearSum, TinyGear;
    var zeros: Bytes, ones: Bytes := [0, 0, 0, 0], [1, 1, 1, 1];
    TinyWords();
    OneTerm(TinyGear(), zeros[1..2]);
    OneTerm(TinyGear(), ones[1..2]);
    BoundaryIsFirstSmallSum(TINY, TinyGear(), zeros, 2);
    BoundaryIsFirstSmallSum(TINY, TinyGear(), ones, 3);
  }

  lemma TinyWords()
    ensures TinyGear()[0] == 0 && TinyGear()[1] == 0xFFFF_FFFF_FFFF_FFFF
  {
  }
}
