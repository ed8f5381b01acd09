/** A decoder for the subset of section 3 of RFC 8949 that the writer uses, written from the
    standard, and the proof that it reads back what the writer wrote. */
module CborDecoder {
  import opened ByteStrings
  import opened SortedMap

  /** What an encoding says. The wire knows no difference between a map and a struct, or between a
      nil slice and a nil map. */
  datatype Item = Null | TextItem(text: Bytes) | BytesItem(bytes: Bytes) | MapItem(pairs: seq<(Bytes, Item)>)

  datatype HeadParts = HeadParts(major: nat, info: nat, arg: nat, rest: Bytes)

  /** The initial byte and the argument it announces: in the low five bits, or in the next 1, 2, 4
      or 8 bytes. Any form is read, not only the shortest. */
  function DecodeHead(s: Bytes): (r: Option<HeadParts>)
    ensures r.Some? ==> |r.value.rest| < |s|
  {
    if s == [] then None
    else
      var major, info := s[0] / 32, s[0] % 32;
      if info < 24 then Some(HeadParts(major, info, info, s[1..]))
      else
        var n := if info == 24 then 1 else if info == 25 then 2 else if info == 26 then 4 else 8;
        if info > 27 || |s| < 1 + n then None
        else Some(HeadParts(major, info, FromBigEndian(s[1..1 + n]), s[1 + n..]))
  }

  function DecodeItem(s: Bytes): (r: Option<(Item, Bytes)>)
    ensures r.Some? ==> |r.value.1| < |s|
    decreases |s|, 0
  {
    var head := DecodeHead(s);
    if head == None then None
    else
      var HeadParts(major, info, arg, rest) := head.value;
      match major
      case 2 => if arg <= |rest| then Some((BytesItem(rest[..arg]), rest[arg..])) else None
      case 3 => if arg <= |rest| then Some((TextItem(rest[..arg]), rest[arg..])) else None
      case 5 =>
        var pairs := DecodePairs(rest, arg);
        if pairs == None then None else Some((MapItem(pairs.value.0), pairs.value.1))
      case 7 => if info == 22 then Some((Null, rest)) else None
      case _ => None
  }

  function DecodePairs(s: Bytes, n: nat): (r: Option<(seq<(Bytes, Item)>, Bytes)>)
    ensures r.Some? ==> |r.value.1| <= |s|
    decreases |s|, 1
  {
    if n == 0 then Some(([], s))
    else
      var key := DecodeItem(s);
      if key == None || !key.value.0.TextItem? then None
      else
        var value := DecodeItem(key.value.1);
        if value == None then None
        else
          var others := DecodePairs(value.value.1, n - 1);
          if others == None then None
          else Some(([(key.value.0.text, value.value.0)] + others.value.0, others.value.1))
  }

  // ----- Heads -----

  lemma {:induction false} BigEndianReadsBack(x: nat, n: nat)
    requires x < Pow256(n)
    ensures FromBigEndian(BigEndian(x, n)) == x
    decreases n
  {
    if n > 0 {
      var r := BigEndian(x, n);
      BigEndianReadsBack(x / 0x100, n - 1);
      assert r[..|r| - 1] == BigEndian(x / 0x100, n - 1);
    }
  }

  lemma {:induction false} FromBigEndianBound(s: Bytes)
    ensures FromBigEndian(s) < Pow256(|s|)
  {
    if s != [] {
      FromBigEndianBound(s[..|s| - 1]);
    }
  }

  lemma InitialByte(major: byte, code: nat)
    requires major % 32 == 0 && code < 32
    ensures major + code < 0x100 && (major + code) / 32 == major / 32 && (major + code) % 32 == code
  {
  }

  lemma HeadReadsBack(major: byte, arg: nat, rest: Bytes)
    requires major % 32 == 0 && arg < UINT64
    ensures
      var r := DecodeHead(Head(major, arg) + rest);
      r.Some? && r.value.major == major / 32 && r.value.arg == arg && r.value.rest == rest
  {
    hide Pow256, BigEndian, FromBigEndian;
    var n := ArgumentLength(arg);
    var s := Head(major, arg) + rest;
    if n == 0 {
      InitialByte(major, arg);
      assert s[1..] == rest;
    } else {
      Pow256Values();
      BigEndianReadsBack(arg, n);
      InitialByte(major, LengthCode(n));
      assert s[0] == major + LengthCode(n);
      assert s[1..1 + n] == BigEndian(arg, n) && s[1 + n..] == rest;
    }
  }

  /** No head that reads as the same argument is shorter than the writer's. */
  lemma HeadIsShortest(s: Bytes, major: byte)
    requires major % 32 == 0 && DecodeHead(s).Some?
    ensures
      var r := DecodeHead(s).value;
      r.arg < UINT64 && |Head(major, r.arg)| <= |s| - |r.rest|
  {
    var r := DecodeHead(s).value;
    var n := |s| - |r.rest| - 1;
    Pow256Values();
    if n > 0 {
      FromBigEndianBound(s[1..1 + n]);
    }
  }

  // ----- Values -----

  ghost function Wire(v: Value): Item
    decreases v, 1, 0
  {
    match v
    case Text(s) => TextItem(s)
    case NilSlice => Null
    case Blob(b) => BytesItem(b)
    case NilMap => Null
    case Dict(m) => KeyListSorted(m.Keys); MapItem(WireEntries(v, KeyList(m.Keys)))
    case Struct(fields) => MapItem(WireFields(v, fields))
  }

  ghost function WireEntries(v: Value, keys: seq<Bytes>): (r: seq<(Bytes, Item)>)
    requires v.Dict? && Elements(keys) <= v.entries.Keys
    ensures |r| == |keys|
    decreases v, 0, |keys|
  {
    if keys == [] then []
    else
      assert keys[0] in Elements(keys);
      [(keys[0], Wire(v.entries[keys[0]]))] + WireEntries(v, keys[1..])
  }

  ghost function WireFields(v: Value, fields: seq<(Bytes, Value)>): (r: seq<(Bytes, Item)>)
    requires v.Struct? && |fields| <= |v.fields| && fields == v.fields[|v.fields| - |fields|..]
    ensures |r| == |fields|
    decreases v, 0, |fields|
  {
    if fields == [] then []
    else
      [(fields[0].0, Wire(fields[0].1))] + WireFields(v, fields[1..])
  }

  lemma StringReadsBack(major: byte, s: Bytes, rest: Bytes)
    requires major == MAJOR_TEXT_STRING || major == MAJOR_BYTE_STRING
    requires |s| < UINT64
    ensures DecodeItem(Head(major, |s|) + s + rest)
         == Some((if major == MAJOR_TEXT_STRING then TextItem(s) else BytesItem(s), rest))
  {
    hide Head, DecodeHead;
    HeadReadsBack(major, |s|, s + rest);
    assert Head(major, |s|) + s + rest == Head(major, |s|) + (s + rest);
    assert (s + rest)[..|s|] == s && (s + rest)[|s|..] == rest;
  }

  lemma MapItemReadsBack(n: nat, body: Bytes, rest: Bytes, pairs: seq<(Bytes, Item)>)
    requires n < UINT64 && DecodePairs(body + rest, n) == Some((pairs, rest))
    ensures DecodeItem(Head(MAJOR_MAP, n) + body + rest) == Some((MapItem(pairs), rest))
  {
    hide Head, DecodeHead, DecodePairs;
    HeadReadsBack(MAJOR_MAP, n, body + rest);
    assert Head(MAJOR_MAP, n) + body + rest == Head(MAJOR_MAP, n) + (body + rest);
  }

  /** The decoder reads back exactly the value, and leaves exactly what followed it. */
  lemma {:induction false} ValueReadsBack(v: Value, rest: Bytes)
    requires Encodable(v)
    ensures DecodeItem(Encode(v) + rest) == Some((Wire(v), rest))
    decreases v, 1, 0
  {
    hide Head, DecodeHead, KeyList, DecodeItem, DecodePairs;
    match v
    case Text(s) => StringReadsBack(MAJOR_TEXT_STRING, s, rest);
    case NilSlice => NullReadsBack(rest);
    case NilMap => NullReadsBack(rest);
    case Blob(b) => StringReadsBack(MAJOR_BYTE_STRING, b, rest);
    case Dict(m) =>
      var keys := KeyList(m.Keys);
      KeyListSorted(m.Keys);
      EntriesReadBack(v, keys, rest);
      MapItemReadsBack(|m|, EncodeEntries(v, keys), rest, WireEntries(v, keys));
    case Struct(fields) =>
      FieldsReadBack(v, fields, rest);
      MapItemReadsBack(|fields|, EncodeFields(v, fields), rest, WireFields(v, fields));
  }

  lemma NullReadsBack(rest: Bytes)
    ensures DecodeItem([CBOR_NULL] + rest) == Some((Null, rest))
  {
    assert ([CBOR_NULL] + rest)[1..] == rest;
  }

  lemma PairReadsBack(key: Bytes, value: Bytes, item: Item, after: Bytes, n: nat, pairs: seq<(Bytes, Item)>,
                      rest: Bytes)
    requires |key| < UINT64
    requires DecodeItem(value + after) == Some((item, after))
    requires DecodePairs(after, n) == Some((pairs, rest))
    ensures DecodePairs(EncodeText(key) + value + after, n + 1) == Some(([(key, item)] + pairs, rest))
  {
    hide Head, DecodeHead, DecodeItem;
    StringReadsBack(MAJOR_TEXT_STRING, key, value + after);
    assert EncodeText(key) + value + after == EncodeText(key) + (value + after);
  }

  lemma {:induction false} EntriesReadBack(v: Value, keys: seq<Bytes>, rest: Bytes)
    requires v.Dict? && Encodable(v) && Elements(keys) <= v.entries.Keys
    ensures DecodePairs(EncodeEntries(v, keys) + rest, |keys|) == Some((WireEntries(v, keys), rest))
    decreases v, 0, |keys|
  {
    hide EncodeText, DecodeItem, DecodePairs, Encode, Encodable, Wire;
    if keys == [] {
      NoPairs(rest);
      assert EncodeEntries(v, keys) + rest == rest;
    } else {
      var k := keys[0];
      EntriesStep(v, keys);
      var value, others := Encode(v.entries[k]), EncodeEntries(v, keys[1..]);
      ValueReadsBack(v.entries[k], others + rest);
      EntriesReadBack(v, keys[1..], rest);
      PairReadsBack(k, value, Wire(v.entries[k]), others + rest, |keys| - 1, WireEntries(v, keys[1..]), rest);
      assert EncodeEntries(v, keys) + rest == EncodeText(k) + value + (others + rest);
    }
  }

  lemma NoPairs(rest: Bytes)
    ensures DecodePairs(rest, 0) == Some(([], rest))
  {
  }

  lemma {:induction false} FieldsReadBack(v: Value, fields: seq<(Bytes, Value)>, rest: Bytes)
    requires v.Struct? && Encodable(v) && |fields| <= |v.fields| && fields == v.fields[|v.fields| - |fields|..]
    ensures DecodePairs(EncodeFields(v, fields) + rest, |fields|) == Some((WireFields(v, fields), rest))
    decreases v, 0, |fields|
  {
    hide EncodeText, DecodeItem;
    if fields == [] {
      assert EncodeFields(v, fields) + rest == rest;
    } else {
      var k := fields[0].0;
      var value, others := Encode(fields[0].1), EncodeFields(v, fields[1..]);
      ValueReadsBack(fields[0].1, others + rest);
      FieldsReadBack(v, fields[1..], rest);
      PairReadsBack(k, value, Wire(fields[0].1), others + rest, |fields| - 1, WireFields(v, fields[1..]), rest);
      assert EncodeFields(v, fields) + rest == EncodeText(k) + value + (others + rest);
    }
  }

  // ----- What was read is the map that was written -----

  lemma {:induction false} WireEntryAt(v: Value, keys: seq<Bytes>, i: nat)
    requires v.Dict? && Elements(keys) <= v.entries.Keys && i < |keys|
    ensures keys[i] in v.entries && WireEntries(v, keys)[i] == (keys[i], Wire(v.entries[keys[i]]))
    decreases |keys|
  {
    assert keys[i] in Elements(keys);
    if i > 0 {
      WireEntryAt(v, keys[1..], i - 1);
    }
  }

  /** The pairs read from a map's encoding are its entries, each once, in the order of section
      4.2.1 of RFC 8949. */
  lemma MapReadsBack(m: map<Bytes, Value>, rest: Bytes)
    requires Encodable(Dict(m))
    ensures DecodeItem(Encode(Dict(m)) + rest).Some?
    ensures
      var (item, left) := DecodeItem(Encode(Dict(m)) + rest).value;
      && left == rest && item.MapItem? && |item.pairs| == |m|
      && (forall i :: 0 <= i < |item.pairs| ==>
                        item.pairs[i].0 in m && item.pairs[i].1 == Wire(m[item.pairs[i].0]))
      && (forall k :: k in m ==> exists i :: 0 <= i < |item.pairs| && item.pairs[i].0 == k)
      && (forall i, j :: 0 <= i < j < |item.pairs| ==> ShortLess(item.pairs[i].0, item.pairs[j].0))
  {
    hide Encode, DecodeItem, ShortLess, KeyList;
    var v := Dict(m);
    ValueReadsBack(v, rest);
    KeyListSorted(m.Keys);
    var keys := KeyList(m.Keys);
    var pairs := WireEntries(v, keys);
    forall i | 0 <= i < |pairs|
      ensures keys[i] in m && pairs[i] == (keys[i], Wire(m[keys[i]]))
    {
      WireEntryAt(v, keys, i);
    }
    forall k | k in m
      ensures exists i :: 0 <= i < |pairs| && pairs[i].0 == k
    {
      assert k in Elements(keys);
      var i :| 0 <= i < |keys| && keys[i] == k;
      assert pairs[i].0 == k;
    }
  }

  /** Two values with the same encoding say the same. */
  lemma EncodingDeterminesContent(v: Value, w: Value)
    requires Encodable(v) && Encodable(w) && Encode(v) == Encode(w)
    ensures Wire(v) == Wire(w)
  {
    ValueReadsBack(v, []);
    ValueReadsBack(w, []);
  }
}
