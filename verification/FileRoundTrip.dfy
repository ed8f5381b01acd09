/** From a file's bytes to leaves and back. */
module FileRoundTrip {
  import opened ByteStrings
  import opened DagModel
  import opened Decimal
  import opened FastCdc
  import opened ChunkLaws
  import opened Reassembly
  import opened Builder
  import opened BuildLaws
  import opened ParallelBuild

  /** What `GetContentFromLeaf` hands back when no linked leaf is missing. */
  function ContentOf(leafs: map<Hash, Leaf>, l: Leaf, sorter: Sorter): Bytes
    requires AllLinked(leafs, l.links)
  {
    if l.links == [] then l.content.GetOr([]) else Contents(sorter(Linked(leafs, l.links)))
  }

  function Find(hashes: seq<Hash>, h: Hash): (i: nat)
    requires h in hashes
    ensures i < |hashes| && hashes[i] == h
  {
    if hashes[0] == h then 0 else 1 + Find(hashes[1..], h)
  }

  lemma DistinctPermutation<T>(s: seq<T>, t: seq<T>)
    requires Distinct(s) && multiset(t) == multiset(s)
    ensures Distinct(t) && |t| == |s| && Elements(t) == Elements(s)
  {
    SameMembers(t, s);
    DistinctCardinality(s);
    DistinctByCount(t);
  }

  /** The chunk leaves of a file have different hashes. */
  lemma ChunkHashesDistinct(e: Suite, chunks: seq<Bytes>)
    requires Consistent(Elements(ChunkLeaves(e, chunks)))
    ensures Distinct(HashesOf(ChunkLeaves(e, chunks)))
  {
    hide ChunkLeafOf, Itoa;
    var leaves := ChunkLeaves(e, chunks);
    forall i | 0 <= i < |leaves|
      ensures leaves[i] in Elements(leaves) && leaves[i].itemName == Itoa(i)
    {
      ChunkSound(e, chunks, i);
    }
    forall i, j | 0 <= i < j < |leaves|
      ensures leaves[i].itemName != leaves[j].itemName
    {
      if Itoa(i) == Itoa(j) {
        ItoaInjective(i, j);
      }
    }
    DistinctByName(leaves, Elements(leaves));
  }

  lemma ChunkLinks(e: Suite, chunks: seq<Bytes>, leafs: map<Hash, Leaf>, links: seq<Hash>) returns (indices: seq<nat>)
    requires Consistent(Elements(ChunkLeaves(e, chunks)))
    requires forall l :: l in ChunkLeaves(e, chunks) ==> l.hash in leafs && leafs[l.hash] == l
    requires multiset(links) == multiset(HashesOf(ChunkLeaves(e, chunks)))
    ensures LinksChunks(leafs, links, chunks, indices)
  {
    hide ChunkLeafOf, Itoa, IsChunk, Consistent;
    var leaves := ChunkLeaves(e, chunks);
    var hashes := HashesOf(leaves);
    ChunkHashesDistinct(e, chunks);
    DistinctPermutation(hashes, links);
    forall k | 0 <= k < |links|
      ensures links[k] in hashes
    {
      assert links[k] in links && links[k] in Elements(links);
    }
    indices := seq(|links|, k requires 0 <= k < |links| => Find(hashes, links[k]));
    forall k | 0 <= k < |links|
      ensures links[k] in leafs && IsChunk(leafs[links[k]], chunks, indices[k])
    {
      var i := indices[k];
      assert leaves[i] in leaves && leaves[i].hash == links[k];
      ChunkIsChunk(e, chunks, i);
    }
  }

  lemma ChunkIsChunk(e: Suite, chunks: seq<Bytes>, i: nat)
    requires i < |chunks|
    ensures IsChunk(ChunkLeaves(e, chunks)[i], chunks, i)
  {
    hide Itoa, ChunkLeafOf;
    ChunkSound(e, chunks, i);
    assert [] + Itoa(i) == Itoa(i);
  }

  /** Cutting a file into chunks, naming them by index and storing them, then sorting the linked leaves
      by index and concatenating, gives the file's bytes: for every content, in either way of cutting,
      for every order of the links, and also when chunks have the same bytes. */
  lemma FileRoundTrip(e: Suite, mode: Chunking, data: Bytes, name: Bytes, extra: map<Bytes, Bytes>,
                      leafs: map<Hash, Leaf>, links: seq<Hash>, sorter: Sorter)
    requires mode.Valid() && Sorts(sorter) && |Chunks(mode, data)| <= MAX_INT
    requires MadeFile(e, name, Chunks(mode, data), extra).Some?
    requires
      var m := MadeFile(e, name, Chunks(mode, data), extra).value;
      && Consistent(Elements(m.added)) && (forall l :: l in m.added ==> l.hash in leafs && leafs[l.hash] == l)
      && multiset(links) == multiset(m.leaf.links)
    ensures
      var l := MadeFile(e, name, Chunks(mode, data), extra).value.leaf.(links := links);
      AllLinked(leafs, links) && ContentOf(leafs, l, sorter) == data
  {
    hide Chunks, ChunkLeafOf, Sorts, Consistent, Contents, BuiltLeaf;
    var chunks := Chunks(mode, data);
    ChunksAreTheData(mode, data);
    FileLeaf(e, name, chunks, extra);
    var m := MadeFile(e, name, chunks, extra).value;
    if |chunks| <= 1 {
      SameMembers(links, m.leaf.links);
      FewChunks(chunks);
    } else {
      var indices := ChunkLinks(e, chunks, leafs, links);
      ReassembledContent(leafs, links, chunks, indices, sorter);
      assert |links| == |chunks|;
    }
  }

  lemma FewChunks(chunks: seq<Bytes>)
    requires |chunks| <= 1
    ensures Flatten(chunks) == if |chunks| == 1 then chunks[0] else []
  {
    if |chunks| == 1 {
      assert chunks[1..] == [] && chunks[0] + [] == chunks[0];
    }
  }

  lemma FileLeaf(e: Suite, name: Bytes, chunks: seq<Bytes>, extra: map<Bytes, Bytes>)
    requires MadeFile(e, name, chunks, extra).Some?
    ensures
      var m := MadeFile(e, name, chunks, extra).value;
      if |chunks| <= 1 then m.leaf.links == [] && m.leaf.content == (if |chunks| == 1 then Some(chunks[0]) else None)
      else m.added == ChunkLeaves(e, chunks) && m.leaf.links == HashesOf(m.added)
  {
    hide TreeRoot, LinksRoot, ChunkLeaves;
  }
}
