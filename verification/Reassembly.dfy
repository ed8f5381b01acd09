/** `GetContentFromLeaf`: a file's bytes from its chunks, whatever order its links are in. */
module Reassembly {
  import opened ByteStrings
  import opened DagModel
  import opened Decimal
  import opened ChunkLaws

  /** `compareChunkItemNames`. */
  predicate NameBefore(a: Bytes, b: Bytes) {
    var m, n := ChunkIndex(a), ChunkIndex(b);
    if m == None || n == None then Less(a, b) else m.value < n.value
  }

  /** What `sort.Slice` does with a slice of leaves: an unstable sort, so any rearrangement that is in
      order when the comparison is by index throughout. */
  type Sorter = seq<Leaf> -> seq<Leaf>

  ghost predicate AllNumbered(items: seq<Leaf>) {
    forall i :: 0 <= i < |items| ==> ChunkIndex(items[i].itemName).Some?
  }

  ghost predicate InOrder(items: seq<Leaf>) {
    forall i, j :: 0 <= i < j < |items| ==> !NameBefore(items[j].itemName, items[i].itemName)
  }

  ghost predicate Sorts(sorter: Sorter) {
    forall items :: multiset(sorter(items)) == multiset(items) && (AllNumbered(items) ==> InOrder(sorter(items)))
  }

  function Contents(items: seq<Leaf>): Bytes {
    if items == [] then [] else items[0].content.GetOr([]) + Contents(items[1..])
  }

  ghost predicate AllLinked(leafs: map<Hash, Leaf>, links: seq<Hash>) {
    forall i :: 0 <= i < |links| ==> links[i] in leafs
  }

  function Linked(leafs: map<Hash, Leaf>, links: seq<Hash>): seq<Leaf>
    requires AllLinked(leafs, links)
  {
    seq(|links|, i requires 0 <= i < |links| => leafs[links[i]])
  }

  method GetContentFromLeaf(d: Dag, leaf: Leaf, sorter: Sorter) returns (r: Result<Bytes, Hash>)
    ensures r.Err? <==> !AllLinked(d.leafs, leaf.links)
    ensures r.Err? ==> r.error in leaf.links && r.error !in d.leafs
    ensures r.Ok? ==> r.value == if leaf.links == [] then leaf.content.GetOr([])
                                 else Contents(sorter(Linked(d.leafs, leaf.links)))
  {
    if |leaf.links| == 0 {
      return Ok(leaf.content.GetOr([]));
    }
    var links: seq<Leaf> := [];
    for i := 0 to |leaf.links|
      invariant |links| == i && forall j :: 0 <= j < i ==>
                leaf.links[j] in d.leafs && links[j] == d.leafs[leaf.links[j]]
    {
      if leaf.links[i] !in d.leafs {
        return Err(leaf.links[i]);
      }
      links := links + [d.leafs[leaf.links[i]]];
    }
    assert links == Linked(d.leafs, leaf.links);
    var sorted := sorter(links);
    var content: Bytes := [];
    assert sorted[0..] == sorted;
    for i := 0 to |sorted|
      invariant content + Contents(sorted[i..]) == Contents(sorted)
    {
      assert sorted[i..][1..] == sorted[i + 1..];
      content := content + sorted[i].content.GetOr([]);
    }
    r := Ok(content);
  }

  // ----- Reassembly -----

  /** The leaf is the chunk of its index: named by it, bare or behind a path, and holding its bytes. */
  ghost predicate IsChunk(l: Leaf, chunks: seq<Bytes>, index: nat) {
    && index < |chunks| && l.content == Some(chunks[index])
    && exists prefix :: && (prefix == [] || IsSeparator(prefix[|prefix| - 1]))
                        && l.itemName == prefix + Itoa(index)
  }

  /** The links of a file: each chunk once, in any order. */
  ghost predicate LinksChunks(leafs: map<Hash, Leaf>, links: seq<Hash>, chunks: seq<Bytes>, indices: seq<nat>) {
    && |links| == |chunks| == |indices| && Distinct(indices)
    && AllLinked(leafs, links)
    && forall i :: 0 <= i < |links| ==> IsChunk(leafs[links[i]], chunks, indices[i])
  }

  lemma IsChunkIndex(l: Leaf, chunks: seq<Bytes>, index: nat)
    requires IsChunk(l, chunks, index) && |chunks| <= MAX_INT
    ensures ChunkIndex(l.itemName) == Some(index) && l.content == Some(chunks[index])
  {
    hide ChunkIndex;
    var prefix :| (prefix == [] || IsSeparator(prefix[|prefix| - 1])) && l.itemName == prefix + Itoa(index);
    ChunkIndexReadsBack(prefix, index);
  }

  /** Leaves that carry the chunks named by their indices. */
  ghost predicate Numbered(items: seq<Leaf>, chunks: seq<Bytes>) {
    forall l :: l in items ==>
                  var n := ChunkIndex(l.itemName);
                  n.Some? && 0 <= n.value < |chunks| && l.content == Some(chunks[n.value])
  }

  function IndexOfLeaf(l: Leaf): int {
    ChunkIndex(l.itemName).GetOr(0)
  }

  function Indices(items: seq<Leaf>): seq<int> {
    seq(|items|, i requires 0 <= i < |items| => IndexOfLeaf(items[i]))
  }

  lemma {:induction false} SameMembers<T>(s: seq<T>, t: seq<T>)
    requires multiset(s) == multiset(t)
    ensures |s| == |t| && Elements(s) == Elements(t)
  {
    assert |multiset(s)| == |s| && |multiset(t)| == |t|;
    forall x
      ensures x in s <==> x in t
    {
      assert x in s <==> x in multiset(s);
      assert x in t <==> x in multiset(t);
    }
  }

  lemma {:induction false} ContentsOfChunks(items: seq<Leaf>, chunks: seq<Bytes>, k: nat)
    requires k <= |items| == |chunks| && forall i :: 0 <= i < |items| ==> items[i].content == Some(chunks[i])
    ensures Contents(items[k..]) == Flatten(chunks[k..])
    decreases |items| - k
  {
    if k < |items| {
      ContentsOfChunks(items, chunks, k + 1);
      assert items[k..][1..] == items[k + 1..] && chunks[k..][1..] == chunks[k + 1..];
    } else {
      assert items[k..] == [] && chunks[k..] == [];
    }
  }

  /** Members of a set of distinct items have distinct indices. */
  ghost predicate DistinctIndices(items: seq<Leaf>) {
    Distinct(Indices(items))
  }

  lemma DistinctBySet(s: seq<int>, t: seq<int>)
    requires Distinct(s) && |s| == |t| && Elements(s) == Elements(t)
    ensures Distinct(t)
  {
    DistinctCardinality(s);
    DistinctByCount(t);
  }

  lemma IndicesElements(items: seq<Leaf>, items': seq<Leaf>)
    requires Elements(items) == Elements(items')
    ensures Elements(Indices(items)) == Elements(Indices(items'))
  {
    hide IndexOfLeaf;
    forall x
      ensures x in Indices(items) <==> x in Indices(items')
    {
      if x in Indices(items) {
        var i :| 0 <= i < |items| && IndexOfLeaf(items[i]) == x;
        assert items[i] in Elements(items');
        var j :| 0 <= j < |items'| && items'[j] == items[i];
        assert Indices(items')[j] == x;
      }
      if x in Indices(items') {
        var i :| 0 <= i < |items'| && IndexOfLeaf(items'[i]) == x;
        assert items'[i] in Elements(items);
        var j :| 0 <= j < |items| && items[j] == items'[i];
        assert Indices(items)[j] == x;
      }
    }
  }

  /** Sorted, the leaves are the chunks in order. */
  lemma SortedChunks(sorter: Sorter, items: seq<Leaf>, chunks: seq<Bytes>)
    requires Sorts(sorter) && Numbered(items, chunks) && |items| == |chunks| && DistinctIndices(items)
    ensures
      var sorted := sorter(items);
      |sorted| == |chunks| && forall i :: 0 <= i < |sorted| ==> sorted[i].content == Some(chunks[i])
  {
    hide ChunkIndex, Less;
    var sorted := sorter(items);
    SameMembers(sorted, items);
    assert forall l :: l in sorted ==> l in Elements(items);
    assert Numbered(sorted, chunks);
    assert AllNumbered(items) by { assert forall i :: 0 <= i < |items| ==> items[i] in items; }
    IndicesElements(items, sorted);
    DistinctBySet(Indices(items), Indices(sorted));
    var s := Indices(sorted);
    forall i, j | 0 <= i < j < |s|
      ensures s[i] < s[j]
    {
      assert sorted[i] in sorted && sorted[j] in sorted;
      assert !NameBefore(sorted[j].itemName, sorted[i].itemName);
    }
    forall i | 0 <= i < |s|
      ensures 0 <= s[i] < |s|
    {
      assert sorted[i] in sorted;
    }
    AllBelow(s, |s|);
    forall i | 0 <= i < |sorted|
      ensures sorted[i].content == Some(chunks[i])
    {
      assert sorted[i] in sorted && s[i] == i;
    }
  }

  /** Naming chunks by index, sorting by the index read back and concatenating gives the original
      bytes, for every order of the links and even when chunks have the same bytes. */
  lemma ReassembledContent(leafs: map<Hash, Leaf>, links: seq<Hash>, chunks: seq<Bytes>, indices: seq<nat>,
                           sorter: Sorter)
    requires Sorts(sorter) && LinksChunks(leafs, links, chunks, indices) && |chunks| <= MAX_INT
    ensures Contents(sorter(Linked(leafs, links))) == Flatten(chunks)
  {
    hide ChunkIndex, IsChunk, Sorts, Flatten;
    var items := Linked(leafs, links);
    forall i | 0 <= i < |items|
      ensures indices[i] < |chunks|
      ensures ChunkIndex(items[i].itemName) == Some(indices[i]) && items[i].content == Some(chunks[indices[i]])
    {
      IsChunkIndex(leafs[links[i]], chunks, indices[i]);
      IsChunkBelow(leafs[links[i]], chunks, indices[i]);
    }
    assert Indices(items) == seq(|indices|, i requires 0 <= i < |indices| => indices[i] as int);
    SortedChunks(sorter, items, chunks);
    ContentsOfChunks(sorter(items), chunks, 0);
    assert sorter(items)[0..] == sorter(items) && chunks[0..] == chunks;
  }

  lemma IsChunkBelow(l: Leaf, chunks: seq<Bytes>, index: nat)
    requires IsChunk(l, chunks, index)
    ensures index < |chunks|
  {
  }
}
