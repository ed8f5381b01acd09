/** What cutting promises: the chunks are the data, their sizes are bounded, and an edit leaves the
    chunks before it and, once the cutters agree on a boundary, the chunks after it unchanged. */
module ChunkLaws {
  import opened ByteStrings
  import opened FastCdc

  function Flatten(chunks: seq<Bytes>): Bytes {
    if chunks == [] then [] else chunks[0] + Flatten(chunks[1..])
  }

  lemma {:induction false} FlattenConcat(s: seq<Bytes>, t: seq<Bytes>)
    ensures Flatten(s + t) == Flatten(s) + Flatten(t)
  {
    if s == [] {
      assert s + t == t;
    } else {
      assert (s + t)[1..] == s[1..] + t;
      FlattenConcat(s[1..], t);
    }
  }

  /** In either mode the chunks concatenate to the data, and none is empty. */
  lemma ChunksAreTheData(mode: Chunking, data: Bytes)
    requires mode.Valid()
    ensures Flatten(Chunks(mode, data)) == data
    ensures forall k :: 0 <= k < |Chunks(mode, data)| ==> Chunks(mode, data)[k] != []
  {
    if data != [] {
      match mode {
        case FastCdcV1(p, g) => CutsAreTheData(p, g, data);
        case Fixed(size) => SlicesAreTheData(size, data);
      }
    }
  }

  lemma {:induction false} CutsAreTheData(p: Params, g: Gear, data: Bytes)
    requires p.Valid()
    ensures Flatten(Cuts(p, g, data)) == data
    ensures forall k :: 0 <= k < |Cuts(p, g, data)| ==> Cuts(p, g, data)[k] != []
    decreases |data|
  {
    hide Boundary, IsBoundary;
    if data != [] {
      var c := Boundary(p, g, data);
      BoundaryAdvances(p, g, data);
      CutsAreTheData(p, g, data[c..]);
      assert Cuts(p, g, data)[1..] == Cuts(p, g, data[c..]);
    }
  }

  lemma {:induction false} SlicesAreTheData(size: int, data: Bytes)
    requires data != []
    ensures Flatten(Slices(size, data)) == data
    ensures forall k :: 0 <= k < |Slices(size, data)| ==> Slices(size, data)[k] != []
    decreases |data|
  {
    if size <= 0 || |data| <= size {
      assert [data][1..] == [];
    } else {
      SlicesAreTheData(size, data[size..]);
      assert Slices(size, data)[1..] == Slices(size, data[size..]);
    }
  }

  /** Every chunk but the last is longer than the minimum; none is longer than the maximum. */
  lemma {:induction false} CutSizes(p: Params, g: Gear, data: Bytes, k: nat)
    requires p.Valid() && k < |Cuts(p, g, data)|
    ensures 0 < |Cuts(p, g, data)[k]| <= p.max
    ensures k + 1 < |Cuts(p, g, data)| ==> p.min < |Cuts(p, g, data)[k]|
    decreases |data|
  {
    hide Boundary, IsBoundary;
    var c := Boundary(p, g, data);
    BoundaryAdvances(p, g, data);
    if k > 0 {
      CutSizes(p, g, data[c..], k - 1);
    } else if c == |data| {
      assert Cuts(p, g, data[c..]) == [];
    }
  }

  /** Chunks that end within a common prefix are common, the final chunk excepted. */
  lemma {:induction false} PrefixKeepsChunks(p: Params, g: Gear, a: Bytes, b: Bytes, n: nat, k: nat)
    requires p.Valid() && n <= |a| && n <= |b| && a[..n] == b[..n]
    requires k < |Cuts(p, g, a)| && |Flatten(Cuts(p, g, a)[..k])| <= n
    ensures k <= |Cuts(p, g, b)| && Cuts(p, g, b)[..k] == Cuts(p, g, a)[..k]
    decreases k
  {
    hide Boundary, IsBoundary;
    if k > 0 {
      var c := Boundary(p, g, a);
      BoundaryAdvances(p, g, a);
      var rest := Cuts(p, g, a[c..]);
      assert Cuts(p, g, a)[..k] == [a[..c]] + rest[..k - 1];
      assert ([a[..c]] + rest[..k - 1])[1..] == rest[..k - 1];
      assert c < |a| && c <= n;
      assert a[..c] == a[..n][..c] == b[..n][..c] == b[..c];
      BoundaryIsLocal(p, g, a, b);
      assert a[c..][..n - c] == a[..n][c..] == b[..n][c..] == b[c..][..n - c];
      PrefixKeepsChunks(p, g, a[c..], b[c..], n - c, k - 1);
      assert Cuts(p, g, b) == [b[..c]] + Cuts(p, g, b[c..]);
    }
  }

  /** Once a boundary falls between x and y, the chunks that follow are those of y alone. */
  lemma {:induction false} BoundaryResynchronizes(p: Params, g: Gear, x: Bytes, y: Bytes, k: nat)
    requires p.Valid() && k <= |Cuts(p, g, x + y)| && Flatten(Cuts(p, g, x + y)[..k]) == x
    ensures Cuts(p, g, x + y)[k..] == Cuts(p, g, y)
    decreases k
  {
    hide Boundary, IsBoundary;
    var data := x + y;
    if k == 0 {
      assert data == y;
    } else {
      var c := Boundary(p, g, data);
      BoundaryAdvances(p, g, data);
      var rest := Cuts(p, g, data[c..]);
      assert Cuts(p, g, data) == [data[..c]] + rest;
      assert Cuts(p, g, data)[..k] == [data[..c]] + rest[..k - 1];
      assert ([data[..c]] + rest[..k - 1])[1..] == rest[..k - 1];
      assert x == data[..c] + Flatten(rest[..k - 1]);
      assert data[c..] == x[c..] + y && x[c..] == Flatten(rest[..k - 1]);
      BoundaryResynchronizes(p, g, x[c..], y, k - 1);
    }
  }

  /** Replacing the middle of some data keeps every chunk that ended before the edit, and, when both
      versions place a boundary at the same point after it, every chunk from that point on. */
  lemma EditKeepsChunks(p: Params, g: Gear, prefix: Bytes, removed: Bytes, inserted: Bytes, suffix: Bytes, i: nat,
                        j: nat, k: nat)
    requires p.Valid()
    requires
      var a, b := prefix + removed + suffix, prefix + inserted + suffix;
      && i < |Cuts(p, g, a)| && |Flatten(Cuts(p, g, a)[..i])| <= |prefix|
      && j <= |Cuts(p, g, a)| && Flatten(Cuts(p, g, a)[..j]) == prefix + removed
      && k <= |Cuts(p, g, b)| && Flatten(Cuts(p, g, b)[..k]) == prefix + inserted
    ensures
      var a, b := prefix + removed + suffix, prefix + inserted + suffix;
      && i <= |Cuts(p, g, b)| && Cuts(p, g, b)[..i] == Cuts(p, g, a)[..i]
      && Cuts(p, g, b)[k..] == Cuts(p, g, a)[j..]
  {
    hide Cuts;
    var a, b := prefix + removed + suffix, prefix + inserted + suffix;
    assert a[..|prefix|] == prefix == b[..|prefix|];
    PrefixKeepsChunks(p, g, a, b, |prefix|, i);
    BoundaryResynchronizes(p, g, prefix + removed, suffix, j);
    BoundaryResynchronizes(p, g, prefix + inserted, suffix, k);
  }

  /** With a fixed size every chunk but the last has that size and the last is no longer; without a positive
      size there is one chunk. */
  lemma {:induction false} FixedSizes(size: int, data: Bytes, k: nat)
    requires data != [] && k < |Chunks(Fixed(size), data)|
    ensures size <= 0 ==> |Chunks(Fixed(size), data)| == 1
    ensures
      var chunks := Chunks(Fixed(size), data);
      size > 0 ==> if k + 1 < |chunks| then |chunks[k]| == size else 0 < |chunks[k]| <= size
    decreases k
  {
    if size > 0 && |data| > size {
      assert Slices(size, data)[1..] == Slices(size, data[size..]);
      if k > 0 {
        FixedSizes(size, data[size..], k - 1);
      }
    }
  }
}
