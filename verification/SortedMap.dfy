/** The canonical CBOR writer: shortest heads, text and byte strings, maps with sorted keys, structs
    with their fields in declaration order. */
module SortedMap {
  import opened ByteStrings

  /** A value the writer encodes itself: a string, a byte slice, a map, or a struct. */
  datatype Value =
    | Text(text: Bytes)
    | NilSlice
    | Blob(bytes: Bytes)
    | NilMap
    | Dict(entries: map<Bytes, Value>)
    | Struct(fields: seq<(Bytes, Value)>)

  const CBOR_NULL: byte := 0xf6
  const MAJOR_BYTE_STRING: byte := 0x40
  const MAJOR_TEXT_STRING: byte := 0x60
  const MAJOR_MAP: byte := 0xa0

  const UINT64: nat := 0x1_0000_0000_0000_0000

  // ----- Heads -----

  /** The n low-order bytes of x, most significant first. */
  function BigEndian(x: nat, n: nat): (r: Bytes)
    ensures |r| == n
    decreases n
  {
    if n == 0 then [] else BigEndian(x / 0x100, n - 1) + [x % 0x100]
  }

  function FromBigEndian(s: Bytes): nat {
    if s == [] then 0 else FromBigEndian(s[..|s| - 1]) * 0x100 + s[|s| - 1]
  }

  function Pow256(n: nat): (r: nat)
    ensures r > 0
  {
    if n == 0 then 1 else 0x100 * Pow256(n - 1)
  }

  /** How many bytes follow the initial byte of a head. */
  function ArgumentLength(arg: nat): nat {
    if arg < 24 then 0
    else if arg <= 0xff then 1
    else if arg <= 0xffff then 2
    else if arg <= 0xffff_ffff then 4
    else 8
  }

  function LengthCode(n: nat): nat {
    if n == 1 then 24 else if n == 2 then 25 else if n == 4 then 26 else 27
  }

  function Head(major: byte, arg: nat): Bytes
    requires major % 32 == 0 && arg < UINT64
  {
    var n := ArgumentLength(arg);
    if n == 0 then [major + arg] else [major + LengthCode(n)] + BigEndian(arg, n)
  }

  lemma Bytes1(x: nat)
    ensures BigEndian(x, 1) == [x % 0x100]
  {
    assert BigEndian(x / 0x100, 0) == [];
  }

  lemma Bytes2(x: nat)
    ensures BigEndian(x, 2) == [x / 0x100 % 0x100, x % 0x100]
  {
    assert BigEndian(x / 0x100 / 0x100, 0) == [];
    assert BigEndian(x / 0x100, 1) == [x / 0x100 % 0x100];
  }

  lemma Bytes4(x: nat)
    ensures BigEndian(x, 4) == [x / 0x100_0000 % 0x100, x / 0x1_0000 % 0x100, x / 0x100 % 0x100, x % 0x100]
  {
    Bytes2(x / 0x1_0000);
    assert x / 0x100 / 0x100 == x / 0x1_0000 && x / 0x1_0000 / 0x100 == x / 0x100_0000;
    assert BigEndian(x / 0x100, 3) == BigEndian(x / 0x1_0000, 2) + [x / 0x100 % 0x100];
  }

  lemma Bytes8(x: nat)
    ensures
      BigEndian(x, 8)
      == [x / 0x100_0000_0000_0000 % 0x100, x / 0x1_0000_0000_0000 % 0x100,
          x / 0x100_0000_0000 % 0x100, x / 0x1_0000_0000 % 0x100,
          x / 0x100_0000 % 0x100, x / 0x1_0000 % 0x100, x / 0x100 % 0x100, x % 0x100]
  {
    Bytes4(x / 0x1_0000_0000);
    BigEndianSplit(x);
    Bytes4(x);
    var y := x / 0x1_0000_0000;
    assert y / 0x100 == x / 0x100_0000_0000;
    assert y / 0x1_0000 == x / 0x1_0000_0000_0000;
    assert y / 0x100_0000 == x / 0x100_0000_0000_0000;
  }

  lemma BigEndianSplit(x: nat)
    ensures BigEndian(x, 8) == BigEndian(x / 0x1_0000_0000, 4) + BigEndian(x, 4)
  {
    var x1, x2, x3 := x / 0x100, x / 0x1_0000, x / 0x100_0000;
    assert x1 / 0x100 == x2 && x2 / 0x100 == x3 && x3 / 0x100 == x / 0x1_0000_0000;
    assert BigEndian(x3, 5) == BigEndian(x / 0x1_0000_0000, 4) + [x3 % 0x100];
    assert BigEndian(x2, 6) == BigEndian(x3, 5) + [x2 % 0x100];
    assert BigEndian(x1, 7) == BigEndian(x2, 6) + [x1 % 0x100];
    assert BigEndian(x, 8) == BigEndian(x1, 7) + [x % 0x100];
    Bytes4(x);
  }

  lemma HeadSmall(major: byte, arg: nat)
    requires major % 32 == 0 && arg < 24
    ensures Head(major, arg) == [major + arg]
  {
  }

  lemma HeadParts(major: byte, arg: nat, n: nat)
    requires major % 32 == 0 && arg < UINT64 && ArgumentLength(arg) == n > 0
    ensures Head(major, arg) == [major + LengthCode(n)] + BigEndian(arg, n)
    ensures n == 1 ==> LengthCode(n) == 24
    ensures n == 2 ==> LengthCode(n) == 25
    ensures n == 4 ==> LengthCode(n) == 26
    ensures n == 8 ==> LengthCode(n) == 27
  {
  }

  method AppendHead(dst: Bytes, major: byte, arg: nat) returns (r: Bytes)
    requires major % 32 == 0 && arg < UINT64
    ensures r == dst + Head(major, arg)
  {
    hide BigEndian, LengthCode, Head;
    if arg < 24 {
      HeadSmall(major, arg);
      r := dst + [major + arg];
    } else if arg <= 0xff {
      Bytes1(arg);
      HeadParts(major, arg, 1);
      r := dst + [major + 24, arg % 0x100];
    } else if arg <= 0xffff {
      Bytes2(arg);
      HeadParts(major, arg, 2);
      r := dst + [major + 25, arg / 0x100 % 0x100, arg % 0x100];
    } else if arg <= 0xffff_ffff {
      Bytes4(arg);
      HeadParts(major, arg, 4);
      r := dst + [major + 26, arg / 0x100_0000 % 0x100, arg / 0x1_0000 % 0x100, arg / 0x100 % 0x100, arg % 0x100];
    } else {
      Bytes8(arg);
      HeadParts(major, arg, 8);
      r := dst + [major + 27,
                  arg / 0x100_0000_0000_0000 % 0x100, arg / 0x1_0000_0000_0000 % 0x100,
                  arg / 0x100_0000_0000 % 0x100, arg / 0x1_0000_0000 % 0x100,
                  arg / 0x100_0000 % 0x100, arg / 0x1_0000 % 0x100, arg / 0x100 % 0x100, arg % 0x100];
    }
  }

  // ----- Key order -----

  /** Length first, then bytewise. */
  predicate ShortLess(a: Bytes, b: Bytes) {
    if |a| != |b| then |a| < |b| else Less(a, b)
  }

  lemma ShortLessStrictOrder()
    ensures StrictOrder(ShortLess)
  {
    LessStrictOrder();
  }

  lemma {:induction false} BigEndianOrder(x: nat, y: nat, n: nat, s: Bytes, t: Bytes)
    requires x < y < Pow256(n)
    ensures Less(BigEndian(x, n) + s, BigEndian(y, n) + t)
    decreases n
  {
    var x', y' := x / 0x100, y / 0x100;
    var s', t' := [x % 0x100] + s, [y % 0x100] + t;
    assert BigEndian(x, n) + s == BigEndian(x', n - 1) + s';
    assert BigEndian(y, n) + t == BigEndian(y', n - 1) + t';
    if x' < y' {
      BigEndianOrder(x', y', n - 1, s', t');
    } else {
      assert x' == y' && x % 0x100 < y % 0x100;
      LessSamePrefix(BigEndian(x', n - 1), s', t');
    }
  }

  lemma Pow256Values()
    ensures Pow256(1) == 0x100 && Pow256(2) == 0x1_0000 && Pow256(4) == 0x1_0000_0000 && Pow256(8) == UINT64
  {
    assert Pow256(3) == 0x100_0000;
    assert Pow256(5) == 0x100_0000_0000;
    assert Pow256(6) == 0x1_0000_0000_0000;
    assert Pow256(7) == 0x100_0000_0000_0000;
  }

  lemma FirstByteDecides(a: Bytes, b: Bytes)
    requires a != [] && b != [] && a[0] < b[0]
    ensures Less(a, b)
  {
  }

  lemma SameLengthHeadOrder(major: byte, x: nat, y: nat, s: Bytes, t: Bytes)
    requires major % 32 == 0 && x < y < UINT64
    requires ArgumentLength(x) == ArgumentLength(y) > 0
    ensures Less(Head(major, x) + s, Head(major, y) + t)
  {
    hide Less, BigEndian, Pow256;
    var n := ArgumentLength(x);
    Pow256Values();
    BigEndianOrder(x, y, n, s, t);
    var initial := [major + LengthCode(n)];
    LessSamePrefix(initial, BigEndian(x, n) + s, BigEndian(y, n) + t);
    assert Head(major, x) + s == initial + (BigEndian(x, n) + s);
    assert Head(major, y) + t == initial + (BigEndian(y, n) + t);
  }

  /** A smaller argument has a bytewise smaller head, whatever follows. */
  lemma HeadOrder(major: byte, x: nat, y: nat, s: Bytes, t: Bytes)
    requires major % 32 == 0 && x < y < UINT64
    ensures Less(Head(major, x) + s, Head(major, y) + t)
  {
    hide Less, BigEndian;
    if ArgumentLength(x) == ArgumentLength(y) > 0 {
      SameLengthHeadOrder(major, x, y, s, t);
    } else {
      FirstByteDecides(Head(major, x) + s, Head(major, y) + t);
    }
  }

  function EncodeText(s: Bytes): Bytes
    requires |s| < UINT64
  {
    Head(MAJOR_TEXT_STRING, |s|) + s
  }

  /** Section 4.2.1 of RFC 8949 orders keys by their encoded bytes; that is the writer's order. */
  lemma KeyOrderIsEncodedOrder(a: Bytes, b: Bytes)
    requires |a| < UINT64 && |b| < UINT64
    ensures ShortLess(a, b) <==> Less(EncodeText(a), EncodeText(b))
  {
    hide Head, Less;
    if |a| == |b| {
      LessSamePrefix(Head(MAJOR_TEXT_STRING, |a|), a, b);
    } else if |a| < |b| {
      HeadOrder(MAJOR_TEXT_STRING, |a|, |b|, a, b);
    } else {
      HeadOrder(MAJOR_TEXT_STRING, |b|, |a|, b, a);
      LessStrictOrder();
    }
  }

  // ----- Values -----

  ghost function SomeOrder(keys: set<Bytes>): (r: seq<Bytes>)
    ensures forall k :: k in r <==> k in keys
  {
    if keys == {} then []
    else
      var k :| k in keys;
      [k] + SomeOrder(keys - {k})
  }

  /** A map's keys in the writer's order. */
  ghost function KeyList(keys: set<Bytes>): seq<Bytes> {
    SortedKeys(ShortLess, SomeOrder(keys))
  }

  lemma KeyListSorted(keys: set<Bytes>)
    ensures Elements(KeyList(keys)) == keys && Ascending(ShortLess, KeyList(keys))
    ensures |KeyList(keys)| == |keys|
  {
    ShortLessStrictOrder();
    assert Elements(SomeOrder(keys)) == keys;
    SortedKeysAscending(ShortLess, SomeOrder(keys));
    AscendingDistinct(ShortLess, KeyList(keys));
    DistinctCardinality(KeyList(keys));
  }

  /** Every length fits the 64-bit argument of a head, as Go's lengths do. */
  ghost predicate Encodable(v: Value)
    decreases v
  {
    match v
    case Text(s) => |s| < UINT64
    case NilSlice => true
    case Blob(b) => |b| < UINT64
    case NilMap => true
    case Dict(m) => |m| < UINT64 && forall k :: k in m ==> |k| < UINT64 && Encodable(m[k])
    case Struct(fields) => |fields| < UINT64 && forall i :: 0 <= i < |fields| ==>
         |fields[i].0| < UINT64 && Encodable(fields[i].1)
  }

  ghost function Encode(v: Value): Bytes
    requires Encodable(v)
    decreases v, 1, 0
  {
    match v
    case Text(s) => EncodeText(s)
    case NilSlice => [CBOR_NULL]
    case Blob(b) => Head(MAJOR_BYTE_STRING, |b|) + b
    case NilMap => [CBOR_NULL]
    case Dict(m) => KeyListSorted(m.Keys); Head(MAJOR_MAP, |m|) + EncodeEntries(v, KeyList(m.Keys))
    case Struct(fields) => Head(MAJOR_MAP, |fields|) + EncodeFields(v, fields)
  }

  ghost function EncodeEntries(v: Value, keys: seq<Bytes>): Bytes
    requires v.Dict? && Encodable(v) && Elements(keys) <= v.entries.Keys
    decreases v, 0, |keys|
  {
    if keys == [] then []
    else
      assert keys[0] in Elements(keys);
      EncodeText(keys[0]) + Encode(v.entries[keys[0]]) + EncodeEntries(v, keys[1..])
  }

  ghost function EncodeFields(v: Value, fields: seq<(Bytes, Value)>): Bytes
    requires v.Struct? && Encodable(v) && |fields| <= |v.fields| && fields == v.fields[|v.fields| - |fields|..]
    decreases v, 0, |fields|
  {
    if fields == [] then []
    else EncodeText(fields[0].0) + Encode(fields[0].1) + EncodeFields(v, fields[1..])
  }

  // ----- The writer -----

  method AppendTextString(dst: Bytes, s: Bytes) returns (r: Bytes)
    requires |s| < UINT64
    ensures r == dst + EncodeText(s)
  {
    hide Head;
    r := AppendHead(dst, MAJOR_TEXT_STRING, |s|);
    r := r + s;
  }

  /** Reads the keys in any order and sorts them. */
  method SortKeys(m: map<Bytes, Value>) returns (keys: seq<Bytes>)
    ensures keys == KeyList(m.Keys)
  {
    var found := [];
    var rest := m.Keys;
    while rest != {}
      invariant rest <= m.Keys
      invariant forall k :: k in found <==> k in m.Keys - rest
      decreases rest
    {
      var k :| k in rest;
      found, rest := found + [k], rest - {k};
    }
    keys := SortedKeys(ShortLess, found);
    ShortLessStrictOrder();
    assert Elements(found) == m.Keys == Elements(SomeOrder(m.Keys));
    SortedKeysOfSameSet(ShortLess, found, SomeOrder(m.Keys));
  }

  lemma AppendTwo(dst: Bytes, a: Bytes, b: Bytes)
    ensures dst + (a + b) == dst + a + b
  {
  }

  lemma AppendThree(dst: Bytes, a: Bytes, b: Bytes, c: Bytes)
    ensures dst + (a + b + c) == dst + a + b + c
  {
  }

  method AppendValue(dst: Bytes, v: Value) returns (r: Bytes)
    requires Encodable(v)
    ensures r == dst + Encode(v)
    decreases v, 1
  {
    hide Head;
    match v
    case Text(s) =>
      r := AppendTextString(dst, s);
    case NilSlice =>
      r := dst + [CBOR_NULL];
    case NilMap =>
      r := dst + [CBOR_NULL];
    case Blob(b) =>
      r := AppendHead(dst, MAJOR_BYTE_STRING, |b|);
      r := r + b;
    case Dict(m) =>
      r := AppendDict(dst, v);
    case Struct(fields) =>
      r := AppendStruct(dst, v);
  }

  lemma NoEntries(v: Value)
    requires v.Dict? && Encodable(v)
    ensures EncodeEntries(v, []) == []
  {
  }

  lemma EntriesStep(v: Value, keys: seq<Bytes>)
    requires v.Dict? && Encodable(v) && keys != [] && Elements(keys) <= v.entries.Keys
    ensures Elements(keys[1..]) <= v.entries.Keys
    ensures keys[0] in v.entries && |keys[0]| < UINT64 && Encodable(v.entries[keys[0]])
    ensures EncodeEntries(v, keys) == EncodeText(keys[0]) + Encode(v.entries[keys[0]]) + EncodeEntries(v, keys[1..])
  {
    assert keys[0] in Elements(keys);
  }

  method AppendDict(dst: Bytes, v: Value) returns (r: Bytes)
    requires v.Dict? && Encodable(v)
    ensures r == dst + Encode(v)
    decreases v, 0
  {
    hide Head, KeyList;
    var m := v.entries;
    var keys := SortKeys(m);
    KeyListSorted(m.Keys);
    r := AppendHead(dst, MAJOR_MAP, |keys|);
    AppendTwo(dst, Head(MAJOR_MAP, |m|), EncodeEntries(v, keys));
    assert keys[0..] == keys;
    hide Encode, EncodeEntries, EncodeText, Encodable;
    for i := 0 to |keys|
      invariant Elements(keys[i..]) <= m.Keys
      invariant r + EncodeEntries(v, keys[i..]) == dst + Encode(v)
    {
      EntriesStep(v, keys[i..]);
      assert keys[i..][1..] == keys[i + 1..];
      AppendThree(r, EncodeText(keys[i]), Encode(m[keys[i]]), EncodeEntries(v, keys[i + 1..]));
      r := AppendTextString(r, keys[i]);
      r := AppendValue(r, m[keys[i]]);
    }
    NoEntries(v);
    assert keys[|keys|..] == [] && r + [] == r;
  }

  method AppendStruct(dst: Bytes, v: Value) returns (r: Bytes)
    requires v.Struct? && Encodable(v)
    ensures r == dst + Encode(v)
    decreases v, 0
  {
    hide Head;
    var pairs := v.fields;
    r := AppendHead(dst, MAJOR_MAP, |pairs|);
    AppendTwo(dst, Head(MAJOR_MAP, |pairs|), EncodeFields(v, pairs));
    assert pairs[0..] == pairs;
    for i := 0 to |pairs|
      invariant r + EncodeFields(v, pairs[i..]) == dst + Encode(v)
    {
      assert pairs[i..][1..] == pairs[i + 1..] && pairs[i..][0] == pairs[i];
      AppendThree(r, EncodeText(pairs[i].0), Encode(pairs[i].1), EncodeFields(v, pairs[i + 1..]));
      r := AppendTextString(r, pairs[i].0);
      r := AppendValue(r, pairs[i].1);
    }
    assert EncodeFields(v, pairs[|pairs|..]) == [] && r + [] == r;
  }
}
