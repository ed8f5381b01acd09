/** Content-defined chunking (fastcdc-v1): the boundary function, the whole-buffer cutter and the
    streaming cutter. Sizes and the gear table are parameters. */
module FastCdc {
  import opened ByteStrings

  datatype Params = Params(min: nat, target: nat, max: nat) {
    predicate Valid() {
      0 < min < target < max
    }
  }

  type Gear = g: seq<bv64> | |g| == 0x100 witness seq(0x100, _ => 0)

  const STRICT_MASK: bv64 := 0xFFFF_FE00_0000_0000

  const LOOSE_MASK: bv64 := 0xFFFF_E000_0000_0000

  // ----- The rolling hash -----

  function Twice(x: bv64): bv64 {
    x << 1
  }

  /** Wrapping 64-bit arithmetic. */
  function Plus(x: bv64, y: bv64): bv64 {
    x + y
  }

  function Minus(x: bv64, y: bv64): bv64 {
    x - y
  }

  function Push(g: Gear, h: bv64, b: byte): bv64 {
    Plus(Twice(h), g[b])
  }

  function Roll(g: Gear, h: bv64, data: Bytes): bv64
    decreases |data|
  {
    if data == [] then h else Roll(g, Push(g, h, data[0]), data[1..])
  }

  predicate StrictMatch(h: bv64) {
    h & STRICT_MASK == 0
  }

  predicate LooseMatch(h: bv64) {
    h & LOOSE_MASK == 0
  }

  predicate Below41Bits(h: bv64) {
    h < 0x200_0000_0000
  }

  predicate Below45Bits(h: bv64) {
    h < 0x2000_0000_0000
  }

  /** The masks select the top 23 and 19 bits, so matching is being small, and the loose test
      accepts whatever the strict one does. */
  lemma MasksAreThresholds(h: bv64)
    ensures StrictMatch(h) <==> Below41Bits(h)
    ensures LooseMatch(h) <==> Below45Bits(h)
    ensures StrictMatch(h) ==> LooseMatch(h)
  {
  }

  lemma {:induction false} RollConcat(g: Gear, h: bv64, s: Bytes, t: Bytes)
    ensures Roll(g, h, s + t) == Roll(g, Roll(g, h, s), t)
    decreases |s|
  {
    if s == [] {
      assert s + t == t;
    } else {
      assert (s + t)[1..] == s[1..] + t;
      RollConcat(g, Push(g, h, s[0]), s[1..], t);
    }
  }

  lemma RollPush(g: Gear, h: bv64, data: Bytes, lo: nat, i: nat)
    requires lo <= i < |data|
    ensures Roll(g, h, data[lo..i + 1]) == Push(g, Roll(g, h, data[lo..i]), data[i])
  {
    assert data[lo..i + 1] == data[lo..i] + [data[i]];
    RollConcat(g, h, data[lo..i], [data[i]]);
    assert [data[i]][1..] == [];
  }

  function Doubled(x: bv64, times: nat): bv64
    decreases times
  {
    if times == 0 then x else Doubled(Twice(x), times - 1)
  }

  // The solver rewrites nested additions to a normal form, so each fact about them is stated once,
  // on variables, and combined with the function bodies hidden.

  lemma PlusIs(x: bv64, y: bv64)
    ensures Plus(x, y) == x + y
  {
  }

  lemma MinusIs(x: bv64, y: bv64)
    ensures Minus(x, y) == x - y
  {
  }

  lemma TwiceIs(x: bv64)
    ensures Twice(x) == x << 1
  {
  }

  lemma MinusOfSums(x: bv64, y: bv64, entry: bv64)
    ensures Minus(x + entry, y + entry) == Minus(x, y)
  {
  }

  lemma MinusOfShifts(x: bv64, y: bv64)
    ensures Minus(x << 1, y << 1) == (x - y) << 1
  {
  }

  lemma CommonTermCancels(x: bv64, y: bv64, entry: bv64)
    ensures Minus(Plus(x, entry), Plus(y, entry)) == Minus(x, y)
  {
    hide *;
    PlusIs(x, entry);
    PlusIs(y, entry);
    MinusOfSums(x, y, entry);
  }

  lemma TwiceDifference(x: bv64, y: bv64)
    ensures Minus(Twice(x), Twice(y)) == Twice(Minus(x, y))
  {
    hide *;
    TwiceIs(x);
    TwiceIs(y);
    MinusIs(x, y);
    TwiceIs(x - y);
    MinusOfShifts(x, y);
  }

  /** Pushing one byte onto two hashes doubles the difference between them, modulo 2^64. */
  lemma PushDoublesDifference(h: bv64, h': bv64, entry: bv64)
    ensures Minus(Plus(Twice(h), entry), Plus(Twice(h'), entry)) == Twice(Minus(h, h'))
  {
    hide *;
    CommonTermCancels(Twice(h), Twice(h'), entry);
    TwiceDifference(h, h');
  }

  /** Two hashes drift apart by doublings only, since they push the same bytes. */
  lemma {:induction false} RollDifference(g: Gear, h: bv64, h': bv64, data: Bytes)
    ensures Minus(Roll(g, h, data), Roll(g, h', data)) == Doubled(Minus(h, h'), |data|)
    decreases |data|
  {
    hide Plus, Twice, Minus;
    if data != [] {
      PushDoublesDifference(h, h', g[data[0]]);
      RollDifference(g, Push(g, h, data[0]), Push(g, h', data[0]), data[1..]);
    }
  }

  lemma {:induction false} DoubledSplit(x: bv64, m: nat, n: nat)
    ensures Doubled(x, m + n) == Doubled(Doubled(x, m), n)
    decreases m
  {
    hide Twice;
    if m > 0 {
      DoubledSplit(Twice(x), m - 1, n);
    }
  }

  function Times16(x: bv64): bv64 {
    x << 4
  }

  function Times65536(x: bv64): bv64 {
    x << 16
  }

  lemma ShiftsCompose(x: bv64)
    ensures Twice(Twice(Twice(Twice(x)))) == Times16(x)
    ensures Times16(Times16(Times16(Times16(x)))) == Times65536(x)
    ensures Times65536(Times65536(Times65536(Times65536(x)))) == 0
  {
  }

  lemma Doubled4(x: bv64)
    ensures Doubled(x, 4) == Times16(x)
  {
    ShiftsCompose(x);
    hide Twice, Times16;
    var x1 := Twice(x);
    var x2 := Twice(x1);
    var x3 := Twice(x2);
    assert Doubled(Twice(x3), 0) == Twice(x3);
    assert Doubled(x2, 2) == Doubled(x3, 1);
    assert Doubled(x, 4) == Doubled(x1, 3);
  }

  lemma Doubled16(x: bv64)
    ensures Doubled(x, 16) == Times65536(x)
  {
    ShiftsCompose(x);
    hide Doubled, Times16, Times65536, Twice;
    var x1 := Times16(x);
    var x2 := Times16(x1);
    var x3 := Times16(x2);
    DoubledSplit(x, 4, 12);
    DoubledSplit(x1, 4, 8);
    DoubledSplit(x2, 4, 4);
    Doubled4(x);
    Doubled4(x1);
    Doubled4(x2);
    Doubled4(x3);
  }

  lemma Doubled64(x: bv64)
    ensures Doubled(x, 64) == 0
  {
    ShiftsCompose(x);
    hide Doubled, Times16, Times65536, Twice;
    var x1 := Times65536(x);
    var x2 := Times65536(x1);
    var x3 := Times65536(x2);
    DoubledSplit(x, 16, 48);
    DoubledSplit(x1, 16, 32);
    DoubledSplit(x2, 16, 16);
    Doubled16(x);
    Doubled16(x1);
    Doubled16(x2);
    Doubled16(x3);
  }

  lemma {:induction false} DoubledVanishes(x: bv64, times: nat)
    requires times >= 64
    ensures Doubled(x, times) == 0
    decreases times
  {
    hide Twice;
    if times > 64 {
      DoubledVanishes(Twice(x), times - 1);
    } else {
      Doubled64(x);
    }
  }

  /** After 64 bytes nothing is left of the hash before them. */
  lemma WindowOf64(g: Gear, h: bv64, h': bv64, data: Bytes)
    requires |data| >= 64
    ensures Roll(g, h, data) == Roll(g, h', data)
  {
    hide Roll, Doubled;
    RollDifference(g, h, h', data);
    DoubledVanishes(Minus(h, h'), |data|);
    var a, b := Roll(g, h, data), Roll(g, h', data);
    assert a - b == 0 ==> a == b;
  }

  // ----- Boundaries -----

  /** The mask test on byte i of a chunk, strict before the target size. */
  predicate CutsAfter(p: Params, g: Gear, data: Bytes, i: nat)
    requires p.min <= i < |data|
  {
    var h := Roll(g, 0, data[p.min..i + 1]);
    if i < p.target then StrictMatch(h) else LooseMatch(h)
  }

  function Limit(p: Params, data: Bytes): nat {
    if |data| > p.max then p.max else |data|
  }

  /** c is the length of the next chunk: the whole remainder when it is no longer than the minimum,
      otherwise up to the first byte past the minimum that passes the test, or the maximum. */
  ghost predicate IsBoundary(p: Params, g: Gear, data: Bytes, c: nat)
    requires p.Valid()
  {
    if |data| <= p.min then c == |data|
    else
      && p.min < c <= Limit(p, data)
      && (forall i :: p.min <= i < c - 1 ==> !CutsAfter(p, g, data, i))
      && (c < Limit(p, data) ==> CutsAfter(p, g, data, c - 1))
  }

  function FirstCut(p: Params, g: Gear, data: Bytes, i: nat): (c: nat)
    requires p.Valid() && p.min <= i < Limit(p, data)
    ensures i < c <= Limit(p, data)
    ensures forall j :: i <= j < c - 1 ==> !CutsAfter(p, g, data, j)
    ensures c < Limit(p, data) ==> CutsAfter(p, g, data, c - 1)
    decreases Limit(p, data) - i
  {
    if CutsAfter(p, g, data, i) || i + 1 == Limit(p, data) then i + 1 else FirstCut(p, g, data, i + 1)
  }

  function Boundary(p: Params, g: Gear, data: Bytes): (c: nat)
    requires p.Valid()
    ensures IsBoundary(p, g, data, c)
  {
    if |data| <= p.min then |data| else FirstCut(p, g, data, p.min)
  }

  lemma BoundaryUnique(p: Params, g: Gear, data: Bytes, c: nat, c': nat)
    requires p.Valid() && IsBoundary(p, g, data, c) && IsBoundary(p, g, data, c')
    ensures c == c'
  {
    hide CutsAfter;
  }

  /** The boundary loop of the source: strict tests up to `normal`, loose ones up to the limit. */
  method FastCdcBoundary(p: Params, g: Gear, data: Bytes) returns (cut: nat)
    requires p.Valid()
    ensures cut == Boundary(p, g, data)
  {
    hide StrictMatch, LooseMatch, Push, Roll, Boundary;
    RollNothing(g);
    var n := |data|;
    if n <= p.min {
      BoundaryUnique(p, g, data, n, Boundary(p, g, data));
      return n;
    }
    var limit := n;
    if limit > p.max {
      limit := p.max;
    }
    var normal := p.target;
    if normal > limit {
      normal := limit;
    }
    var h: bv64 := 0;
    assert data[p.min..p.min] == [];
    for i := p.min to normal
      invariant h == Roll(g, 0, data[p.min..i])
      invariant forall j :: p.min <= j < i ==> !CutsAfter(p, g, data, j)
    {
      RollPush(g, 0, data, p.min, i);
      h := Push(g, h, data[i]);
      if StrictMatch(h) {
        BoundaryUnique(p, g, data, i + 1, Boundary(p, g, data));
        return i + 1;
      }
    }
    for i := normal to limit
      invariant h == Roll(g, 0, data[p.min..i])
      invariant forall j :: p.min <= j < i ==> !CutsAfter(p, g, data, j)
    {
      RollPush(g, 0, data, p.min, i);
      h := Push(g, h, data[i]);
      if LooseMatch(h) {
        BoundaryUnique(p, g, data, i + 1, Boundary(p, g, data));
        return i + 1;
      }
    }
    BoundaryUnique(p, g, data, limit, Boundary(p, g, data));
    return limit;
  }

  lemma RollNothing(g: Gear)
    ensures Roll(g, 0, []) == 0
  {
  }

  /** A test more than 64 bytes into the hashed part reads only the last 64 bytes. */
  lemma CutTestReadsWindow(p: Params, g: Gear, data: Bytes, i: nat)
    requires p.min + 63 <= i < |data|
    ensures
      var h := Roll(g, 0, data[i - 63..i + 1]);
      CutsAfter(p, g, data, i) <==> if i < p.target then Below41Bits(h) else Below45Bits(h)
  {
    hide StrictMatch, LooseMatch, Below41Bits, Below45Bits, Roll;
    var before, window := data[p.min..i - 63], data[i - 63..i + 1];
    assert data[p.min..i + 1] == before + window;
    RollConcat(g, 0, before, window);
    WindowOf64(g, Roll(g, 0, before), 0, window);
    MasksAreThresholds(Roll(g, 0, window));
  }

  /** A boundary that is not the end of the data depends only on the bytes up to it: any other data
      that starts with those bytes has the same boundary, as long as the maximum is not reached
      earlier. */
  lemma BoundaryIsLocal(p: Params, g: Gear, data: Bytes, data': Bytes)
    requires p.Valid()
    requires
      var c := Boundary(p, g, data);
      && (c < |data| || (|data| >= p.max && c <= |data|))
      && c <= |data'| && data[..c] == data'[..c]
    ensures Boundary(p, g, data') == Boundary(p, g, data)
  {
    hide StrictMatch, LooseMatch, Roll, Boundary;
    var c := Boundary(p, g, data);
    forall i | p.min <= i < c
      ensures CutsAfter(p, g, data, i) == CutsAfter(p, g, data', i)
    {
      assert data[p.min..i + 1] == data[..c][p.min..i + 1] == data'[..c][p.min..i + 1] == data'[p.min..i + 1];
    }
    BoundaryUnique(p, g, data', c, Boundary(p, g, data'));
  }

  // ----- Cutting a whole buffer -----

  function Cuts(p: Params, g: Gear, data: Bytes): seq<Bytes>
    requires p.Valid()
    decreases |data|
  {
    if data == [] then []
    else
      var c := Boundary(p, g, data);
      [data[..c]] + Cuts(p, g, data[c..])
  }

  function Slices(size: int, data: Bytes): seq<Bytes>
    decreases |data|
  {
    if size <= 0 || |data| <= size then [data] else [data[..size]] + Slices(size, data[size..])
  }

  /** The two chunking modes. */
  datatype Chunking = FastCdcV1(p: Params, g: Gear) | Fixed(size: int) {
    predicate Valid() {
      FastCdcV1? ==> p.Valid()
    }
  }

  function Chunks(mode: Chunking, data: Bytes): seq<Bytes>
    requires mode.Valid()
  {
    if data == [] then []
    else match mode
      case FastCdcV1(p, g) => Cuts(p, g, data)
      case Fixed(size) => Slices(size, data)
  }

  method CutChunks(mode: Chunking, data: Bytes) returns (chunks: seq<Bytes>)
    requires mode.Valid()
    ensures chunks == Chunks(mode, data)
  {
    if |data| == 0 {
      return [];
    }
    match mode {
      case Fixed(size) => chunks := SliceFixed(size, data);
      case FastCdcV1(p, g) => chunks := CutContent(p, g, data);
    }
  }

  method SliceFixed(size: int, data: Bytes) returns (chunks: seq<Bytes>)
    requires |data| > 0
    ensures chunks == Slices(size, data)
  {
    if size <= 0 || |data| <= size {
      return [data];
    }
    chunks := [];
    var offset := 0;
    assert data[0..] == data;
    while offset < |data|
      invariant 0 <= offset
      invariant offset < |data| ==> chunks + Slices(size, data[offset..]) == Slices(size, data)
      invariant offset >= |data| ==> chunks == Slices(size, data)
    {
      var end := offset + size;
      if end > |data| {
        end := |data|;
      }
      ghost var rest := data[offset..];
      if |rest| <= size {
        assert rest == data[offset..end];
      } else {
        assert rest[..size] == data[offset..end] && rest[size..] == data[end..];
        AppendFirst(chunks, rest[..size], Slices(size, rest[size..]));
      }
      chunks := chunks + [data[offset..end]];
      offset := offset + size;
    }
  }

  method CutContent(p: Params, g: Gear, data: Bytes) returns (chunks: seq<Bytes>)
    requires p.Valid()
    ensures chunks == Cuts(p, g, data)
  {
    hide Boundary, IsBoundary;
    chunks := [];
    var offset: nat := 0;
    assert data[0..] == data;
    while offset < |data|
      invariant offset <= |data|
      invariant chunks + Cuts(p, g, data[offset..]) == Cuts(p, g, data)
    {
      ghost var rest := data[offset..];
      BoundaryAdvances(p, g, rest);
      var cut := FastCdcBoundary(p, g, data[offset..]);
      assert rest[..cut] == data[offset..offset + cut] && rest[cut..] == data[offset + cut..];
      AppendFirst(chunks, rest[..cut], Cuts(p, g, rest[cut..]));
      chunks := chunks + [data[offset..offset + cut]];
      offset := offset + cut;
    }
  }

  lemma AppendFirst(s: seq<Bytes>, x: Bytes, t: seq<Bytes>)
    ensures s + ([x] + t) == s + [x] + t
  {
  }

  lemma BoundaryAdvances(p: Params, g: Gear, data: Bytes)
    requires p.Valid()
    ensures Boundary(p, g, data) <= |data|
    ensures data != [] ==> 0 < Boundary(p, g, data)
    ensures Boundary(p, g, data) <= p.max
    ensures Boundary(p, g, data) < |data| ==> p.min < Boundary(p, g, data)
  {
    hide CutsAfter;
  }
}
