/** LeafSync in batches: the sender packs leaves into packets up to a size estimate and equips parents
    with the proofs their later children need. */
module Batches {
  import opened ByteStrings
  import opened MerkleSpec
  import opened MerkleTree
  import opened Sums
  import opened DagModel
  import opened LinkTree
  import opened DagVerify
  import opened BreadthFirst
  import opened Transmission
  import opened Greedy
  import B = MerkleBinding

  datatype Batch = Batch(leaves: seq<Leaf>, relationships: map<Hash, Hash>, packetIndex: nat, totalPackets: nat)

  // ----- Sizes -----

  function KindLength(kind: LeafType): nat {
    match kind
    case FileLeaf => |"file"|
    case ChunkLeaf => |"chunk"|
    case DirectoryLeaf => |"directory"|
  }

  ghost function DataLength(data: map<Bytes, Bytes>): nat {
    SumOver(data.Keys, k => |k| + if k in data then |data[k]| else 0)
  }

  const LINK_SIZE := 64
  const PROOF_SIZE := 320
  const NUMBERS_SIZE := 32
  const OVERHEAD := 100

  ghost function Estimate(l: Leaf): nat {
    |l.hash| + |l.itemName| + KindLength(l.kind) + ContentLength(l) + |l.contentHash.GetOr([])|
    + |l.classicMerkleRoot| + |l.links| * LINK_SIZE + DataLength(l.additionalData) + |l.proofs| * PROOF_SIZE
    + NUMBERS_SIZE + OVERHEAD
  }

  method EstimateSize(l: Leaf) returns (size: nat)
    ensures size == Estimate(l)
  {
    size := |l.hash| + |l.itemName| + KindLength(l.kind) + ContentLength(l) + |l.contentHash.GetOr([])|
    + |l.classicMerkleRoot| + |l.links| * LINK_SIZE;
    var data := l.additionalData;
    ghost var f: Bytes -> nat := k => |k| + if k in data then |data[k]| else 0;
    ghost var start := size;
    assert DataLength(data) == SumOver(data.Keys, f) by {
      SumCongruent(data.Keys, f, k => |k| + if k in data then |data[k]| else 0);
    }
    var rest := data.Keys;
    while rest != {}
      invariant rest <= data.Keys && size + SumOver(rest, f) == start + DataLength(data)
      decreases rest
    {
      var k :| k in rest;
      SumRemove(rest, f, k);
      size, rest := size + |k| + |data[k]|, rest - {k};
    }
    size := size + |l.proofs| * PROOF_SIZE + NUMBERS_SIZE + OVERHEAD;
  }

  ghost function EdgeSize(leafs: map<Hash, Leaf>): Edge -> nat {
    (edge: Edge) => if edge.child in leafs then Estimate(leafs[edge.child]) else 0
  }

  // ----- What the estimate counts -----

  function Blank(kind: LeafType): Leaf {
    Leaf([], [], kind, None, None, [], 0, 0, 0, 0, [], [], map[], map[])
  }

  /** A leaf of nothing but its kind. */
  lemma BlankEstimate()
    ensures Estimate(Blank(FileLeaf)) == 136 && Estimate(Blank(ChunkLeaf)) == 137
    ensures Estimate(Blank(DirectoryLeaf)) == 141
  {
  }

  /** The lengths of strings and byte slices count as they are. */
  lemma EstimateCountsBytes(l: Leaf, x: Bytes)
    ensures Estimate(l.(content := Some(x))) == Estimate(l.(content := None)) + |x|
    ensures Estimate(l.(contentHash := Some(x))) == Estimate(l.(contentHash := None)) + |x|
    ensures Estimate(l.(hash := x)) == Estimate(l.(hash := [])) + |x|
    ensures Estimate(l.(itemName := x)) == Estimate(l.(itemName := [])) + |x|
    ensures Estimate(l.(classicMerkleRoot := x)) == Estimate(l.(classicMerkleRoot := [])) + |x|
  {
    hide DataLength, KindLength;
  }

  /** Each link counts 64, each proof 320, and each entry of the additional data its key and its value. */
  lemma EstimateCountsEntries(l: Leaf, h: Hash, b: Branch, k: Bytes, v: Bytes)
    ensures Estimate(l.(links := l.links + [h])) == Estimate(l) + 64
    ensures h !in l.proofs ==> Estimate(l.(proofs := l.proofs[h := b])) == Estimate(l) + 320
    ensures k !in l.additionalData ==>
              Estimate(l.(additionalData := l.additionalData[k := v])) == Estimate(l) + |k| + |v|
  {
    hide KindLength, DataLength;
    if h !in l.proofs {
      var more := l.proofs[h := b];
      assert more.Keys == l.proofs.Keys + {h};
      assert |more| == |more.Keys| && |l.proofs| == |l.proofs.Keys|;
    }
    if k !in l.additionalData {
      DataLengthNext(l.additionalData, k, v);
    }
  }

  lemma DataLengthNext(data: map<Bytes, Bytes>, k: Bytes, v: Bytes)
    requires k !in data
    ensures DataLength(data[k := v]) == DataLength(data) + |k| + |v|
  {
    var more := data[k := v];
    assert more.Keys == data.Keys + {k};
    SumExtend(data.Keys, k, x => |x| + if x in more then |more[x]| else 0, x => |x| + if x in data then |data[x]|
        else 0);
  }

  /** Numbers and the parent hash count the same whatever they are. */
  lemma EstimateIgnoresNumbers(l: Leaf, a: int, b: int, c: int, d: int, p: Hash)
    ensures Estimate(l.(currentLinkCount := a, leafCount := b, contentSize := c, dagSize := d, parentHash := p)) ==
            Estimate(l)
  {
    hide KindLength, DataLength;
  }

  /** The bytes of a leaf that no estimate can do without: its content and name, 64 for each link, and 132. */
  function PlainBytes(l: Leaf): nat {
    (match l.content case Some(c) => |c| case None => 0) + |l.itemName| + 64 * |l.links| + 132
  }

  /** Added up over the leaves as the DAG holds them. */
  function PlainBytesOf(leafs: map<Hash, Leaf>, leaves: seq<Leaf>): nat {
    if leaves == [] then 0
    else (if leaves[0].hash in leafs then PlainBytes(leafs[leaves[0].hash]) else 0) + PlainBytesOf(leafs, leaves[1..])
  }

  lemma PlainBytesCounted(l: Leaf)
    ensures PlainBytes(l) <= Estimate(l)
  {
    hide KindLength, DataLength;
  }

  lemma {:induction false} PlainBytesWithin(leafs: map<Hash, Leaf>, leaves: seq<Leaf>, block: seq<Edge>)
    requires |leaves| == |block|
    requires forall i :: 0 <= i < |block| ==> leaves[i].hash == block[i].child && block[i].child in leafs
    ensures PlainBytesOf(leafs, leaves) <= Total(EdgeSize(leafs), block)
  {
    hide Estimate, PlainBytes;
    if block != [] {
      PlainBytesCounted(leafs[block[0].child]);
      PlainBytesWithin(leafs, leaves[1..], block[1..]);
    }
  }

  /** What a receiver is sent at a time: the batches are numbered, hold leaves of the DAG, and one of several
      leaves holds no more bytes than the batch size. */
  ghost predicate Sized(leafs: map<Hash, Leaf>, limit: int, batches: seq<Batch>) {
    forall i :: 0 <= i < |batches| ==>
                  && batches[i].packetIndex == i && batches[i].totalPackets == |batches|
                  && (forall l :: l in batches[i].leaves ==> l.hash in leafs)
                  && (|batches[i].leaves| > 1 ==> PlainBytesOf(leafs, batches[i].leaves) <= limit)
  }

  // ----- One batch -----

  ghost function Declared(block: seq<Edge>): map<Hash, Hash> {
    if block == [] then map[]
    else
      var n := |block| - 1;
      Declared(block[..n])[block[n].child := block[n].parent]
  }

  function ChildrenIn(relationships: map<Hash, Hash>, parent: Hash): set<Hash> {
    set c | c in relationships && relationships[c] == parent
  }

  function AllProofs(e: Suite, links: seq<Hash>): map<Hash, Branch> {
    map c | c in links :: LinkProof(e, links, c)
  }

  /** A parent all of whose children are declared in its batch needs no proofs; any other carries one
      for every child. A partial DAG's parents carry what they store. */
  function Finalized(e: Suite, partial: bool, l: Leaf, declared: nat): Leaf {
    if l.currentLinkCount <= 1 then l
    else if declared == l.currentLinkCount then l.(proofs := map[])
    else if partial || TreeRoot(e, l.links) == None then l
    else l.(proofs := l.proofs + AllProofs(e, l.links))
  }

  ghost predicate BlockThere(leafs: map<Hash, Leaf>, block: seq<Edge>) {
    forall i :: 0 <= i < |block| ==> block[i].child in leafs
  }

  ghost function RawLeaves(leafs: map<Hash, Leaf>, block: seq<Edge>): seq<Leaf>
    requires BlockThere(leafs, block)
  {
    seq(|block|, i requires 0 <= i < |block| => leafs[block[i].child])
  }

  function FinalizedLeaves(e: Suite, partial: bool, leaves: seq<Leaf>, relationships: map<Hash, Hash>): seq<Leaf> {
    seq(|leaves|, i requires 0 <= i < |leaves| =>
      Finalized(e, partial, leaves[i], |ChildrenIn(relationships, leaves[i].hash)|))
  }

  ghost function BatchOf(e: Suite, g: Graph, block: seq<Edge>, index: nat, total: nat): Batch
    requires BlockThere(g.leafs, block)
  {
    Batch(FinalizedLeaves(e, IsPartial(g), RawLeaves(g.leafs, block), Declared(block)), Declared(block), index, total)
  }

  ghost predicate TreeOver(e: Suite, links: seq<Hash>, keys: seq<Hash>, proofs: seq<Proof<Bytes>>) {
    && keys == TreeKeys(links) && |proofs| == |keys|
    && forall i :: 0 <= i < |keys| ==> proofs[i] == ProofOf(B.Node(Hasher(e)), B.KeyLeaves(Hasher(e), keys), i)
  }

  lemma TreeProof(e: Suite, links: seq<Hash>, keys: seq<Hash>, proofs: seq<Proof<Bytes>>, c: Hash, i: nat)
    requires TreeOver(e, links, keys, proofs) && c in links && i < |keys| && keys[i] == c
    ensures i < |proofs| && Branch(c, proofs[i]) == LinkProof(e, links, c)
  {
    hide SortedKeys, ProofOf;
    TreeKeysFacts(links);
    LessStrictOrder();
    AscendingDistinct(Less, keys);
    IndexUnique(keys, c, i);
  }

  lemma ProofsNext(e: Suite, links: seq<Hash>, sorted: seq<Hash>, i: nat, proofs: map<Hash, Branch>,
                   all: map<Hash, Branch>)
    requires (forall c :: c in sorted ==> c in links) && i < |sorted|
    requires all == proofs + ProofsOfSome(e, links, sorted[..i])
    ensures all[sorted[i] := LinkProof(e, links, sorted[i])] == proofs + ProofsOfSome(e, links, sorted[..i + 1])
  {
    hide LinkProof;
    assert sorted[..i + 1] == sorted[..i] + [sorted[i]];
  }

  function ProofsOfSome(e: Suite, links: seq<Hash>, some: seq<Hash>): map<Hash, Branch>
    requires forall c :: c in some ==> c in links
  {
    map c | c in some :: LinkProof(e, links, c)
  }

  method ReadLinkProof(e: Suite, links: seq<Hash>, t: Tree<Bytes>, link: Hash) returns (b: Branch)
    requires TreeOver(e, links, t.keys, t.proofs) && link in links
    ensures b == LinkProof(e, links, link)
  {
    hide SortedKeys, ProofOf, LinkProof;
    TreeKeysFacts(links);
    assert link in Elements(links);
    var index := t.GetIndexForKey(link);
    TreeProof(e, links, t.keys, t.proofs, link, index.value);
    b := Branch(link, t.proofs[index.value]);
  }

  /** The proofs of all links, added to those a parent has. */
  method AddAllProofs(e: Suite, links: seq<Hash>, proofs: map<Hash, Branch>, cpus: nat) returns (all: map<Hash, Branch>)
    requires cpus > 0 && |links| <= MAX_LINKS
    ensures all == if TreeRoot(e, links) == None then proofs else proofs + AllProofs(e, links)
  {
    hide SortedKeys, Root, ProofOf, LinkProof, ProofsOfSome;
    all := proofs;
    var tree := Build(e, links, cpus);
    if tree == None {
      return;
    }
    var t := tree.value;
    assert TreeOver(e, links, t.keys, t.proofs);
    hide TreeOver, TreeRoot;
    var sortedLinks := SortedKeys(Less, links);
    assert forall c :: c in sortedLinks <==> c in links;
    NoProofs(e, links, sortedLinks, proofs);
    for i := 0 to |sortedLinks|
      invariant all == proofs + ProofsOfSome(e, links, sortedLinks[..i])
      invariant TreeOver(e, links, t.keys, t.proofs)
    {
      var link := sortedLinks[i];
      assert link in sortedLinks;
      var branch := ReadLinkProof(e, links, t, link);
      ProofsNext(e, links, sortedLinks, i, proofs, all);
      all := all[link := branch];
    }
    EveryProof(e, links, sortedLinks);
  }

  lemma NoProofs(e: Suite, links: seq<Hash>, sorted: seq<Hash>, proofs: map<Hash, Branch>)
    ensures proofs == proofs + ProofsOfSome(e, links, sorted[..0])
  {
  }

  lemma EveryProof(e: Suite, links: seq<Hash>, sorted: seq<Hash>)
    requires forall c :: c in sorted <==> c in links
    ensures ProofsOfSome(e, links, sorted[..|sorted|]) == AllProofs(e, links)
  {
    hide LinkProof;
    assert sorted[..|sorted|] == sorted;
  }

  /** How many children each parent has in the batch. */
  method CountChildren(relationships: map<Hash, Hash>) returns (counts: map<Hash, nat>)
    ensures forall p :: p != [] ==> |ChildrenIn(relationships, p)| == if p in counts then counts[p] else 0
  {
    counts := map[];
    var rest := relationships.Keys;
    ghost var done: map<Hash, Hash> := map[];
    assert forall p :: ChildrenIn(done, p) == {};
    while rest != {}
      invariant rest <= relationships.Keys
      invariant done == map c | c in relationships && c !in rest :: relationships[c]
      invariant forall p :: p != [] ==> |ChildrenIn(done, p)| == if p in counts then counts[p] else 0
      decreases rest
    {
      var c :| c in rest;
      rest := rest - {c};
      var parent := relationships[c];
      ghost var before := done;
      done := done[c := parent];
      OneMoreChild(before, c, parent);
      if parent != [] {
        counts := counts[parent := (if parent in counts then counts[parent] else 0) + 1];
      }
    }
    assert done == relationships;
  }

  lemma OneMoreChild(relationships: map<Hash, Hash>, c: Hash, parent: Hash)
    requires c !in relationships
    ensures |ChildrenIn(relationships[c := parent], parent)| == |ChildrenIn(relationships, parent)| + 1
    ensures forall p :: p != parent ==> |ChildrenIn(relationships[c := parent], p)| == |ChildrenIn(relationships, p)|
  {
    assert ChildrenIn(relationships[c := parent], parent) == ChildrenIn(relationships, parent) + {c};
    forall p | p != parent
      ensures |ChildrenIn(relationships[c := parent], p)| == |ChildrenIn(relationships, p)|
    {
      assert ChildrenIn(relationships[c := parent], p) == ChildrenIn(relationships, p);
    }
  }

  /** One leaf of the batch. */
  method FinalizeLeaf(e: Suite, partial: bool, original: Leaf, declared: nat, cpus: nat) returns (l: Leaf)
    requires cpus > 0 && |original.links| <= MAX_LINKS
    ensures l == Finalized(e, partial, original, declared)
  {
    hide AllProofs, TreeRoot;
    l := original;
    if original.currentLinkCount <= 1 {
      return;
    }
    if declared == original.currentLinkCount {
      l := l.(proofs := map[]);
      return;
    }
    if partial {
      l := l.(proofs := l.proofs + original.proofs);
      assert original.proofs + original.proofs == original.proofs;
    } else {
      var proofs := AddAllProofs(e, original.links, l.proofs, cpus);
      l := l.(proofs := proofs);
    }
  }

  ghost predicate DistinctHashes(leaves: seq<Leaf>) {
    forall i, j :: 0 <= i < j < |leaves| ==> leaves[i].hash != leaves[j].hash
  }

  method IndexLeaves(leaves: seq<Leaf>) returns (index: map<Hash, nat>)
    requires DistinctHashes(leaves)
    ensures forall h :: h in index ==> index[h] < |leaves| && leaves[index[h]].hash == h
    ensures forall i :: 0 <= i < |leaves| ==> leaves[i].hash in index
  {
    index := map[];
    for i := 0 to |leaves|
      invariant forall h :: h in index ==> index[h] < i && leaves[index[h]].hash == h
      invariant forall j :: 0 <= j < i ==> leaves[j].hash in index
    {
      index := index[leaves[i].hash := i];
    }
  }

  /** The leaves of all parents but the rest are complete. */
  ghost predicate Finalizing(e: Suite, partial: bool, leaves: seq<Leaf>, relationships: map<Hash, Hash>,
                             rest: set<Hash>,
                             finalized: seq<Leaf>)
  {
    && |finalized| == |leaves|
    && forall i :: 0 <= i < |leaves| ==>
                     finalized[i] == if leaves[i].hash in rest then leaves[i]
                                     else Finalized(e, partial, leaves[i], |ChildrenIn(relationships, leaves[i].hash)|)
  }

  lemma FinalizeNext(e: Suite, partial: bool, leaves: seq<Leaf>, relationships: map<Hash, Hash>, rest: set<Hash>,
                     finalized: seq<Leaf>, i: nat)
    requires DistinctHashes(leaves) && Finalizing(e, partial, leaves, relationships, rest, finalized) && i < |leaves|
    ensures
      var l := Finalized(e, partial, leaves[i], |ChildrenIn(relationships, leaves[i].hash)|);
      Finalizing(e, partial, leaves, relationships, rest - {leaves[i].hash}, finalized[i := l])
  {
    hide Finalized, ChildrenIn;
  }

  /** `finalizeBatch`: goes through the batch's parents in any order and completes each where it stands. */
  method FinalizeBatch(e: Suite, d: Dag, leaves: seq<Leaf>, relationships: map<Hash, Hash>, parents: set<Hash>,
                       cpus: nat)
    returns (finalized: seq<Leaf>)
    requires cpus > 0 && FewLinks(d.leafs) && DistinctHashes(leaves)
    requires forall i :: 0 <= i < |leaves| ==> leaves[i].hash in d.leafs && leaves[i] == d.leafs[leaves[i].hash]
    requires forall i :: 0 <= i < |leaves| ==> leaves[i].hash in parents && leaves[i].hash != []
    ensures finalized == FinalizedLeaves(e, IsPartial(d.View()), leaves, relationships)
  {
    hide Finalized, ChildrenIn, Finalizing, DistinctHashes;
    var counts := CountChildren(relationships);
    var batchLeaves := IndexLeaves(leaves);
    var isPartial := IsPartial(d.View());
    finalized := leaves;
    var rest := parents;
    FinalizeNone(e, isPartial, leaves, relationships, parents);
    while rest != {}
      invariant rest <= parents
      invariant Finalizing(e, isPartial, leaves, relationships, rest, finalized) && |finalized| == |leaves|
      decreases rest
    {
      var parent :| parent in rest;
      if parent in batchLeaves {
        var i := batchLeaves[parent];
        var declared := if parent in counts then counts[parent] else 0;
        var l := FinalizeLeaf(e, isPartial, d.leafs[parent], declared, cpus);
        FinalizeNext(e, isPartial, leaves, relationships, rest, finalized, i);
        FinalizingSize(e, isPartial, leaves, relationships, rest - {parent}, finalized[i := l]);
        finalized := finalized[i := l];
      } else {
        NotInBatch(e, isPartial, leaves, relationships, rest, finalized, parent);
      }
      rest := rest - {parent};
    }
    FinalizedAll(e, isPartial, leaves, relationships, finalized);
  }

  lemma FinalizeNone(e: Suite, partial: bool, leaves: seq<Leaf>, relationships: map<Hash, Hash>, parents: set<Hash>)
    requires forall i :: 0 <= i < |leaves| ==> leaves[i].hash in parents
    ensures Finalizing(e, partial, leaves, relationships, parents, leaves)
  {
  }

  lemma FinalizingSize(e: Suite, partial: bool, leaves: seq<Leaf>, relationships: map<Hash, Hash>, rest: set<Hash>,
                       finalized: seq<Leaf>)
    requires Finalizing(e, partial, leaves, relationships, rest, finalized)
    ensures |finalized| == |leaves|
  {
  }

  lemma NotInBatch(e: Suite, partial: bool, leaves: seq<Leaf>, relationships: map<Hash, Hash>, rest: set<Hash>,
                   finalized: seq<Leaf>, parent: Hash)
    requires Finalizing(e, partial, leaves, relationships, rest, finalized)
    requires forall i :: 0 <= i < |leaves| ==> leaves[i].hash != parent
    ensures Finalizing(e, partial, leaves, relationships, rest - {parent}, finalized)
  {
    hide Finalized, ChildrenIn;
  }

  lemma FinalizedAll(e: Suite, partial: bool, leaves: seq<Leaf>, relationships: map<Hash, Hash>, finalized: seq<Leaf>)
    requires Finalizing(e, partial, leaves, relationships, {}, finalized)
    ensures finalized == FinalizedLeaves(e, partial, leaves, relationships)
  {
    hide Finalized, ChildrenIn;
  }

  // ----- The sender -----

  /** The batches of a sequence of blocks, not yet numbered. */
  ghost function Numbered(e: Suite, g: Graph, blocks: seq<seq<Edge>>, total: nat): seq<Batch>
    requires forall b :: b in blocks ==> BlockThere(g.leafs, b)
  {
    seq(|blocks|, i requires 0 <= i < |blocks| => BatchOf(e, g, blocks[i], i, total))
  }

  ghost function SendBlocks(g: Graph, limit: nat): seq<seq<Edge>> {
    Blocks(EdgeSize(g.leafs), limit, SendOrder(g, AnyServes()))
  }

  ghost predicate IsBatching(e: Suite, g: Graph, limit: nat, batches: seq<Batch>) {
    && (forall b :: b in SendBlocks(g, limit) ==> BlockThere(g.leafs, b))
    && batches == Numbered(e, g, SendBlocks(g, limit), |SendBlocks(g, limit)|)
  }

  /** One packet of one leaf, without the packet's proofs. */
  function Single(packet: Packet, index: nat, total: nat): Batch {
    Batch([packet.leaf], map[packet.leaf.hash := packet.parentHash], index, total)
  }

  function Singles(packets: seq<Packet>): seq<Batch> {
    seq(|packets|, i requires 0 <= i < |packets| => Single(packets[i], i, |packets|))
  }

  /** The batches closed so far, not yet numbered, and the batch being filled. */
  datatype Packed = Packed(batches: seq<Batch>, leaves: seq<Leaf>, relationships: map<Hash, Hash>, size: nat,
                           parents: set<Hash>)

  ghost function Unnumbered(e: Suite, g: Graph, blocks: seq<seq<Edge>>): seq<Batch>
    requires forall b :: b in blocks ==> BlockThere(g.leafs, b)
  {
    seq(|blocks|, i requires 0 <= i < |blocks| => BatchOf(e, g, blocks[i], 0, 0))
  }

  ghost predicate OpenBatch(leafs: map<Hash, Leaf>, block: seq<Edge>, s: Packed) {
    && block != [] && BlockThere(leafs, block) && s.leaves == RawLeaves(leafs, block)
    && s.relationships == Declared(block) && s.size == Total(EdgeSize(leafs), block) && s.parents == Sent(block)
    && DistinctHashes(s.leaves)
  }

  ghost predicate Packing(e: Suite, g: Graph, limit: nat, sent: seq<Edge>, s: Packed) {
    && sent != []
    && var f := Fill(EdgeSize(g.leafs), limit, sent);
       && (forall b :: b in f.done ==> BlockThere(g.leafs, b))
       && s.batches == Unnumbered(e, g, f.done) && OpenBatch(g.leafs, f.current, s)
  }

  function Opened(batches: seq<Batch>, l: Leaf, parent: Hash, size: nat): Packed {
    Packed(batches, [l], map[l.hash := parent], size, {l.hash})
  }

  function Joined(s: Packed, l: Leaf, parent: Hash, size: nat): Packed {
    s.(leaves := s.leaves + [l], relationships := s.relationships[l.hash := parent],
       size := s.size + size, parents := s.parents + {l.hash})
  }

  lemma OpenOne(leafs: map<Hash, Leaf>, edge: Edge, batches: seq<Batch>)
    requires edge.child in leafs && leafs[edge.child].hash == edge.child
    ensures OpenBatch(leafs, [edge], Opened(batches, leafs[edge.child], edge.parent, Estimate(leafs[edge.child])))
  {
    hide Estimate;
    var block := [edge];
    assert block[..0] == [] && block[1..] == [];
    assert Declared(block) == Declared(block[..0])[edge.child := edge.parent];
    assert Total(EdgeSize(leafs), block) == EdgeSize(leafs)(edge) + Total(EdgeSize(leafs), block[1..]);
    assert Sent(block) == {edge.child} + Sent(block[1..]);
  }

  lemma OpenMore(leafs: map<Hash, Leaf>, block: seq<Edge>, edge: Edge, s: Packed)
    requires OpenBatch(leafs, block, s) && edge.child in leafs && leafs[edge.child].hash == edge.child
    requires edge.child !in s.parents && Keyed(leafs)
    ensures OpenBatch(leafs, block + [edge], Joined(s, leafs[edge.child], edge.parent, Estimate(leafs[edge.child])))
  {
    hide Estimate;
    var more := block + [edge];
    assert more[..|block|] == block;
    TotalSnoc(EdgeSize(leafs), block, edge);
    SentConcat(block, [edge]);
    assert [edge][1..] == [];
    forall i | 0 <= i < |block|
      ensures s.leaves[i].hash != edge.child
    {
      SentMember(block, i);
    }
  }

  lemma {:induction false} SentMember(block: seq<Edge>, i: nat)
    requires i < |block|
    ensures block[i].child in Sent(block)
  {
    if i > 0 {
      SentMember(block[1..], i - 1);
    }
  }

  lemma UnnumberedNext(e: Suite, g: Graph, blocks: seq<seq<Edge>>, b: seq<Edge>)
    requires (forall b :: b in blocks ==> BlockThere(g.leafs, b)) && BlockThere(g.leafs, b)
    ensures forall b' :: b' in blocks + [b] ==> BlockThere(g.leafs, b')
    ensures Unnumbered(e, g, blocks + [b]) == Unnumbered(e, g, blocks) + [BatchOf(e, g, b, 0, 0)]
  {
    hide BatchOf, BlockThere;
  }

  /** The open batch's leaves are ones of the DAG, so it can be finalized. */
  lemma OpenLeaves(leafs: map<Hash, Leaf>, block: seq<Edge>, s: Packed)
    requires OpenBatch(leafs, block, s) && Keyed(leafs)
    ensures forall i :: 0 <= i < |s.leaves| ==>
                          && s.leaves[i].hash in leafs && s.leaves[i] == leafs[s.leaves[i].hash]
                          && s.leaves[i].hash in s.parents && s.leaves[i].hash != []
  {
    forall i | 0 <= i < |s.leaves|
      ensures s.leaves[i].hash in s.parents
    {
      SentMember(block, i);
    }
  }

  /** Adds a leaf to the open batch, or closes that and opens another when the leaf does not fit. */
  method AddLeaf(e: Suite, d: Dag, limit: nat, s: Packed, parent: Hash, child: Hash, cpus: nat, ghost sent: seq<Edge>)
    returns (next: Packed)
    requires cpus > 0 && FewLinks(d.leafs) && Keyed(d.leafs) && child in d.leafs && child !in s.parents
    requires Packing(e, d.View(), limit, sent, s)
    ensures Packing(e, d.View(), limit, sent + [Edge(parent, child)], next)
    ensures next.parents <= s.parents + {child}
  {
    hide Estimate, BatchOf, OpenBatch, Unnumbered, Total, Fill;
    ghost var g := d.View();
    ghost var edge, f := Edge(parent, child), Fill(EdgeSize(g.leafs), limit, sent);
    var leaf := d.leafs[child];
    var size := EstimateSize(leaf);
    FillSnoc(EdgeSize(g.leafs), limit, sent, edge);
    OpenParts(g.leafs, f.current, s);
    if s.size + size > limit {
      OpenLeaves(g.leafs, f.current, s);
      var leaves := FinalizeBatch(e, d, s.leaves, s.relationships, s.parents, cpus);
      UnnumberedNext(e, g, f.done, f.current);
      ClosedBatch(e, g, f.current, s, leaves);
      OpenOne(g.leafs, edge, s.batches + [Batch(leaves, s.relationships, 0, 0)]);
      next := Opened(s.batches + [Batch(leaves, s.relationships, 0, 0)], leaf, parent, size);
    } else {
      OpenMore(g.leafs, f.current, edge, s);
      next := Joined(s, leaf, parent, size);
    }
  }

  lemma OpenParts(leafs: map<Hash, Leaf>, block: seq<Edge>, s: Packed)
    requires OpenBatch(leafs, block, s)
    ensures BlockThere(leafs, block) && s.size == Total(EdgeSize(leafs), block) && DistinctHashes(s.leaves)
  {
  }

  lemma ClosedBatch(e: Suite, g: Graph, block: seq<Edge>, s: Packed, leaves: seq<Leaf>)
    requires OpenBatch(g.leafs, block, s) && leaves == FinalizedLeaves(e, IsPartial(g), s.leaves, s.relationships)
    ensures BatchOf(e, g, block, 0, 0) == Batch(leaves, s.relationships, 0, 0)
  {
  }

  /** The children of one parent. */
  method AddChildren(e: Suite, d: Dag, limit: nat, current: Hash, s: Packed, queue: seq<Hash>, visited: set<Hash>,
                     cpus: nat, ghost sent: seq<Edge>)
    returns (next: Packed, ghost kids: seq<Hash>, queue': seq<Hash>, seen: set<Hash>, ghost sorted: seq<Hash>)
    requires cpus > 0 && FewLinks(d.leafs) && Keyed(d.leafs) && current in d.leafs
    requires Packing(e, d.View(), limit, sent, s) && s.parents <= visited
    ensures Turn(d.leafs, AnyServes(), current, sorted, |sorted|, visited, kids, seen)
    ensures Packing(e, d.View(), limit, sent + EdgesTo(current, kids), next)
    ensures next.parents <= seen && queue' == queue + kids
  {
    hide SortedKeys, Turn, Packing, FewLinks;
    var sortedChildren := SortedKeys(Less, d.leafs[current].links);
    sorted := sortedChildren;
    next, kids, queue', seen := s, [], queue, visited;
    TurnStart(d.leafs, AnyServes(), current, sorted, visited);
    assert sent + EdgesTo(current, []) == sent;
    for j := 0 to |sortedChildren|
      invariant Turn(d.leafs, AnyServes(), current, sorted, j, visited, kids, seen)
      invariant Packing(e, d.View(), limit, sent + EdgesTo(current, kids), next)
      invariant next.parents <= seen && queue' == queue + kids
    {
      var child := sortedChildren[j];
      TurnStep(d.leafs, AnyServes(), current, sorted, j, visited, kids, seen);
      if child !in seen {
        if child in d.leafs {
          EdgesToSnoc(current, kids, child);
          next := AddLeaf(e, d, limit, next, current, child, cpus, sent + EdgesTo(current, kids));
          assert sent + EdgesTo(current, kids) + [Edge(current, child)] == sent + EdgesTo(current, kids + [child]);
          seen, queue', kids := seen + {child}, queue' + [child], kids + [child];
        }
      }
    }
  }

  method NumberBatches(batches: seq<Batch>) returns (numbered: seq<Batch>)
    ensures |numbered| == |batches|
    ensures forall i :: 0 <= i < |batches| ==> numbered[i] == batches[i].(packetIndex := i, totalPackets := |batches|)
  {
    numbered := batches;
    for i := 0 to |batches|
      invariant |numbered| == |batches|
      invariant forall j :: 0 <= j < i ==> numbered[j] == batches[j].(packetIndex := j, totalPackets := |batches|)
      invariant forall j :: i <= j < |batches| ==> numbered[j] == batches[j]
    {
      numbered := numbered[i := numbered[i].(packetIndex := i, totalPackets := |batches|)];
    }
  }

  lemma PackingDone(e: Suite, g: Graph, limit: nat, s: Packed, leaves: seq<Leaf>, numbered: seq<Batch>)
    requires g.root in g.leafs && Packing(e, g, limit, SendOrder(g, AnyServes()), s)
    requires leaves == FinalizedLeaves(e, IsPartial(g), s.leaves, s.relationships)
    requires
      var batches := s.batches + [Batch(leaves, s.relationships, 0, 0)];
      && |numbered| == |batches|
      && forall i :: 0 <= i < |batches| ==> numbered[i] == batches[i].(packetIndex := i, totalPackets := |batches|)
    ensures IsBatching(e, g, limit, numbered)
  {
    hide SendOrder, OpenBatch, Fill, Blocks, IsPartial;
    var f := Fill(EdgeSize(g.leafs), limit, SendOrder(g, AnyServes()));
    FillIsGreedy(EdgeSize(g.leafs), limit, SendOrder(g, AnyServes()));
    ClosedBatch(e, g, f.current, s, leaves);
    OpenParts(g.leafs, f.current, s);
    UnnumberedNext(e, g, f.done, f.current);
  }

  lemma PackingOpen(e: Suite, g: Graph, limit: nat, sent: seq<Edge>, s: Packed)
    requires Packing(e, g, limit, sent, s) && Keyed(g.leafs)
    ensures DistinctHashes(s.leaves)
    ensures forall i :: 0 <= i < |s.leaves| ==>
                          && s.leaves[i].hash in g.leafs && s.leaves[i] == g.leafs[s.leaves[i].hash]
                          && s.leaves[i].hash in s.parents && s.leaves[i].hash != []
  {
    hide OpenBatch, Fill;
    OpenLeaves(g.leafs, Fill(EdgeSize(g.leafs), limit, sent).current, s);
    OpenParts(g.leafs, Fill(EdgeSize(g.leafs), limit, sent).current, s);
  }

  lemma PackingStart(e: Suite, g: Graph, limit: nat, size: nat)
    requires g.root in g.leafs && Keyed(g.leafs) && size == Estimate(g.leafs[g.root])
    ensures Packing(e, g, limit, [Edge([], g.root)], Opened([], g.leafs[g.root], [], size))
  {
    hide OpenBatch;
    OpenOne(g.leafs, Edge([], g.root), []);
  }

  /** The batches for a positive batch size. */
  method BatchLeaves(e: Suite, d: Dag, limit: nat, cpus: nat) returns (batches: seq<Batch>)
    requires cpus > 0 && FewLinks(d.leafs) && Keyed(d.leafs)
    ensures IsBatching(e, d.View(), limit, batches)
  {
    hide Searching, Turn, Packing, Estimate, IsBatching, FewLinks;
    ghost var g := d.View();
    if d.root !in d.leafs {
      NoBatches(e, g, limit);
      return [];
    }
    var size := EstimateSize(d.leafs[d.root]);
    var s := Opened([], d.leafs[d.root], [], size);
    var visited, queue := {d.root}, [d.root];
    ghost var sent := [Edge([], d.root)];
    SearchStart(g, AnyServes());
    PackingStart(e, g, limit, size);
    while |queue| > 0
      invariant Searching(g, AnyServes(), sent, queue, visited)
      invariant Packing(e, g, limit, sent, s) && s.parents <= visited
      decreases d.leafs.Keys - visited, |queue|
    {
      QueueThere(g, sent, queue, visited);
      ghost var kids, sorted;
      var next, queue', seen;
      next, kids, queue', seen, sorted := AddChildren(e, d, limit, queue[0], s, queue[1..], visited, cpus, sent);
      SearchTurn(g, AnyServes(), sent, queue, visited, sorted, kids, seen);
      sent := sent + EdgesTo(queue[0], kids);
      s, queue, visited := next, queue', seen;
    }
    SearchDone(g, AnyServes(), sent, visited);
    PackingOpen(e, g, limit, sent, s);
    var leaves := FinalizeBatch(e, d, s.leaves, s.relationships, s.parents, cpus);
    batches := NumberBatches(s.batches + [Batch(leaves, s.relationships, 0, 0)]);
    PackingDone(e, g, limit, s, leaves, batches);
  }

  lemma QueueThere(g: Graph, sent: seq<Edge>, queue: seq<Hash>, seen: set<Hash>)
    requires Searching(g, AnyServes(), sent, queue, seen) && queue != []
    ensures queue[0] in g.leafs
  {
  }

  lemma NoBatches(e: Suite, g: Graph, limit: nat)
    requires g.root !in g.leafs
    ensures IsBatching(e, g, limit, [])
  {
  }

  lemma BatchesSized(e: Suite, g: Graph, limit: nat, batches: seq<Batch>)
    requires IsBatching(e, g, limit, batches) && Keyed(g.leafs)
    ensures Sized(g.leafs, limit, batches)
  {
    hide Blocks, SendOrder, Declared, PlainBytesOf, Finalized, ChildrenIn;
    var blocks := SendBlocks(g, limit);
    BlocksJoin(EdgeSize(g.leafs), limit, SendOrder(g, AnyServes()));
    forall i | 0 <= i < |batches|
      ensures forall l :: l in batches[i].leaves ==> l.hash in g.leafs
      ensures |batches[i].leaves| > 1 ==> PlainBytesOf(g.leafs, batches[i].leaves) <= limit
    {
      assert blocks[i] in blocks;
      BatchLeafHashes(e, g, blocks[i], i, |blocks|);
      PlainBytesWithin(g.leafs, batches[i].leaves, blocks[i]);
    }
  }

  lemma BatchLeafHashes(e: Suite, g: Graph, block: seq<Edge>, index: nat, total: nat)
    requires BlockThere(g.leafs, block) && Keyed(g.leafs)
    ensures
      var leaves := BatchOf(e, g, block, index, total).leaves;
      |leaves| == |block| && forall i :: 0 <= i < |block| ==>
        leaves[i].hash == block[i].child && block[i].child in g.leafs
  {
    hide Declared, ChildrenIn, AllProofs, TreeRoot;
  }

  /** `GetBatchedLeafSequence`: without a positive batch size, one leaf per packet and no proofs beside
      those the leaf carries. */
  method GetBatchedLeafSequence(e: Suite, d: Dag, batchSize: int, cpus: nat) returns (batches: seq<Batch>)
    requires cpus > 0 && FewLinks(d.leafs) && Keyed(d.leafs)
    ensures batchSize > 0 ==> IsBatching(e, d.View(), batchSize, batches) && Sized(d.leafs, batchSize, batches)
    ensures batchSize <= 0 ==>
              exists packets :: && IsSequence(e, !IsPartial(d.View()), d.View(), ServesOf(e, d.View()), packets)
                                && batches == Singles(packets)
  {
    hide IsBatching, Sized, IsSequence;
    if batchSize <= 0 {
      var packets := GetLeafSequence(e, d, cpus);
      batches := [];
      for i := 0 to |packets|
        invariant batches == Singles(packets)[..i]
      {
        batches := batches + [Single(packets[i], i, |packets|)];
      }
    } else {
      batches := BatchLeaves(e, d, batchSize, cpus);
      BatchesSized(e, d.View(), batchSize, batches);
    }
  }

  // ----- The receiver -----

  /** The batch's leaves by hash, later ones replacing earlier ones. */
  function ByHash(leaves: seq<Leaf>): map<Hash, Leaf> {
    if leaves == [] then map[]
    else
      var n := |leaves| - 1;
      ByHash(leaves[..n])[leaves[n].hash := leaves[n]]
  }

  /** How the parent of a leaf vouches for it. */
  predicate ChildOk(e: Suite, parent: Leaf, fromBatch: bool, child: Hash) {
    |parent.links| > 1 ==>
      if |parent.proofs| == 0 then ChildrenOk(e, parent)
      else if child in parent.proofs then BranchOk(e, parent, parent.proofs[child])
      else fromBatch
  }

  ghost predicate BatchLeafOk(e: Suite, leafs: map<Hash, Leaf>, batch: Batch, l: Leaf) {
    && l.hash in batch.relationships
    && var p := batch.relationships[l.hash];
       if p == [] then RootOk(e, l, Some(map[l.hash := l]))
       else
         && LeafOk(e, l)
         && var inBatch := ByHash(batch.leaves);
            if p in inBatch then ChildOk(e, inBatch[p], true, l.hash)
            else p in leafs && ChildOk(e, leafs[p], false, l.hash)
  }

  ghost predicate BatchOk(e: Suite, leafs: map<Hash, Leaf>, batch: Batch) {
    forall i :: 0 <= i < |batch.leaves| ==> BatchLeafOk(e, leafs, batch, batch.leaves[i])
  }

  /** Whatever batch is accepted, each of its leaves is sound and declares a parent that came with it or was
      there, or is the root. */
  lemma AcceptedBatchIsSound(e: Suite, leafs: map<Hash, Leaf>, batch: Batch)
    requires BatchOk(e, leafs, batch)
    ensures forall l :: l in batch.leaves ==>
                          && l.hash in batch.relationships && ReceivedSound(e, l, batch.relationships[l.hash])
                          && (batch.relationships[l.hash] != [] ==>
                                || batch.relationships[l.hash] in leafs
                                || exists k :: k in batch.leaves && k.hash == batch.relationships[l.hash])
  {
    hide ChildOk, RootOk, LeafOk, ReceivedSound, ByHash;
    forall l | l in batch.leaves
      ensures l.hash in batch.relationships && ReceivedSound(e, l, batch.relationships[l.hash])
      ensures batch.relationships[l.hash] != [] ==>
                || batch.relationships[l.hash] in leafs
                || exists k :: k in batch.leaves && k.hash == batch.relationships[l.hash]
    {
      var i :| 0 <= i < |batch.leaves| && batch.leaves[i] == l;
      assert BatchLeafOk(e, leafs, batch, batch.leaves[i]);
      BatchLeafSound(e, leafs, batch, l);
      if batch.relationships[l.hash] in ByHash(batch.leaves) {
        ByHashMember(batch.leaves, batch.relationships[l.hash]);
      }
    }
  }

  lemma BatchLeafSound(e: Suite, leafs: map<Hash, Leaf>, batch: Batch, l: Leaf)
    requires BatchLeafOk(e, leafs, batch, l)
    ensures l.hash in batch.relationships && ReceivedSound(e, l, batch.relationships[l.hash])
  {
    hide ChildOk, RootOk, LeafOk, CidHolds, RootCidHolds, ContentHashed;
    RootOkParts(e, l, Some(map[l.hash := l]));
    LeafOkParts(e, l);
  }

  lemma {:induction false} ByHashMember(leaves: seq<Leaf>, h: Hash)
    requires h in ByHash(leaves)
    ensures exists k :: k in leaves && k.hash == h
    decreases |leaves|
  {
    var n := |leaves| - 1;
    if leaves[n].hash == h {
      assert leaves[n] in leaves;
    } else {
      ByHashMember(leaves[..n], h);
      var k :| k in leaves[..n] && k.hash == h;
      assert k in leaves;
    }
  }

  /** The check of one child; parents whose children were checked before are not checked again. */
  method VerifyChild(e: Suite, parent: Leaf, parentHash: Hash, fromBatch: bool, child: Hash, verified: set<Hash>,
                     cpus: nat)
    returns (ok: bool, verified': set<Hash>)
    requires cpus > 0 && |parent.links| <= MAX_LINKS
    requires parentHash in verified ==> ChildrenOk(e, parent)
    ensures ok == ChildOk(e, parent, fromBatch, child)
    ensures verified' == verified || (verified' == verified + {parentHash} && ChildrenOk(e, parent))
  {
    hide ChildrenOk, BranchOk;
    ok, verified' := true, verified;
    if |parent.links| > 1 {
      if |parent.proofs| == 0 {
        if parentHash !in verified {
          ok := VerifyChildren(e, parent, cpus);
          if ok {
            verified' := verified + {parentHash};
          }
        }
        return;
      }
      if child !in parent.proofs {
        ok := fromBatch;
        return;
      }
      ok := VerifyBranch(e, parent, parent.proofs[child]);
    }
  }

  method IndexByHash(leaves: seq<Leaf>) returns (index: map<Hash, Leaf>)
    ensures index == ByHash(leaves)
  {
    index := map[];
    assert leaves[..0] == [];
    for i := 0 to |leaves|
      invariant index == ByHash(leaves[..i])
    {
      assert leaves[..i + 1][..i] == leaves[..i];
      index := index[leaves[i].hash := leaves[i]];
    }
    assert leaves[..|leaves|] == leaves;
  }

  /** The parent a batch's checks use. */
  function ParentOf(leafs: map<Hash, Leaf>, batchLeaves: map<Hash, Leaf>, p: Hash): Option<Leaf> {
    if p in batchLeaves then Some(batchLeaves[p]) else if p in leafs then Some(leafs[p]) else None
  }

  method VerifyBatchLeaf(e: Suite, leafs: map<Hash, Leaf>, batch: Batch, batchLeaves: map<Hash, Leaf>, l: Leaf,
                         verified: set<Hash>, cpus: nat)
    returns (ok: bool, verified': set<Hash>)
    requires cpus > 0 && FewLinks(leafs) && FewLinks(batchLeaves) && batchLeaves == ByHash(batch.leaves)
    requires forall p :: p in verified ==>
             ParentOf(leafs, batchLeaves, p).Some? && ChildrenOk(e, ParentOf(leafs, batchLeaves, p).value)
    ensures ok == BatchLeafOk(e, leafs, batch, l)
    ensures forall p :: p in verified' ==>
            ParentOf(leafs, batchLeaves, p).Some? && ChildrenOk(e, ParentOf(leafs, batchLeaves, p).value)
  {
    hide RootOk, LeafOk, ChildOk, ChildrenOk, ByHash;
    verified' := verified;
    if l.hash !in batch.relationships {
      return false, verified';
    }
    var p := batch.relationships[l.hash];
    if p == [] {
      ok := VerifyRootLeaf(e, l, Some(map[l.hash := l]));
      return;
    }
    if !LeafOk(e, l) {
      return false, verified';
    }
    if p in batchLeaves {
      ok, verified' := VerifyChild(e, batchLeaves[p], p, true, l.hash, verified, cpus);
    } else if p in leafs {
      ok, verified' := VerifyChild(e, leafs[p], p, false, l.hash, verified, cpus);
    } else {
      ok := false;
    }
  }

  lemma {:induction false} ByHashFew(leaves: seq<Leaf>)
    requires forall i :: 0 <= i < |leaves| ==> |leaves[i].links| <= MAX_LINKS
    ensures FewLinks(ByHash(leaves))
  {
    if leaves != [] {
      ByHashFew(leaves[..|leaves| - 1]);
    }
  }

  method VerifyBatchedTransmissionPacket(e: Suite, d: Dag, batch: Batch, cpus: nat) returns (ok: bool)
    requires cpus > 0 && FewLinks(d.leafs)
    requires forall i :: 0 <= i < |batch.leaves| ==> |batch.leaves[i].links| <= MAX_LINKS
    ensures ok == BatchOk(e, d.leafs, batch)
  {
    hide BatchLeafOk, ChildrenOk, ByHash, FewLinks, ParentOf;
    var batchLeaves := IndexByHash(batch.leaves);
    ByHashFew(batch.leaves);
    var verified: set<Hash> := {};
    for i := 0 to |batch.leaves|
      invariant forall j :: 0 <= j < i ==> BatchLeafOk(e, d.leafs, batch, batch.leaves[j])
      invariant forall p :: p in verified ==>
                ParentOf(d.leafs, batchLeaves, p).Some? && ChildrenOk(e, ParentOf(d.leafs, batchLeaves, p).value)
    {
      var leafOk;
      leafOk, verified := VerifyBatchLeaf(e, d.leafs, batch, batchLeaves, batch.leaves[i], verified, cpus);
      if !leafOk {
        return false;
      }
    }
    ok := true;
  }

  /** The links of an existing leaf, with those it lacks added in order. */
  function MergeLinks(links: seq<Hash>, more: seq<Hash>): seq<Hash>
    decreases |more|
  {
    if more == [] then links
    else MergeLinks(if more[0] in links then links else links + [more[0]], more[1..])
  }

  function MergeLeaf(existing: Leaf, l: Leaf): Leaf {
    existing.(links := MergeLinks(existing.links, l.links), proofs := existing.proofs + l.proofs)
  }

  function StoreLeaf(leafs: map<Hash, Leaf>, relationships: map<Hash, Hash>, l: Leaf): map<Hash, Leaf> {
    var stored := leafs[l.hash := if l.hash in leafs then MergeLeaf(leafs[l.hash], l) else l];
    if l.hash in relationships && relationships[l.hash] != [] && relationships[l.hash] in stored then
      var p := relationships[l.hash];
      if HasLink(stored[p], l.hash) then stored else stored[p := stored[p].(links := stored[p].links + [l.hash])]
    else stored
  }

  function StoreLeaves(leafs: map<Hash, Leaf>, relationships: map<Hash, Hash>, leaves: seq<Leaf>): map<Hash, Leaf>
    decreases |leaves|
  {
    if leaves == [] then leafs
    else
      var n := |leaves| - 1;
      StoreLeaf(StoreLeaves(leafs, relationships, leaves[..n]), relationships, leaves[n])
  }

  /** Merging keeps the links there were, in order, and adds those of the other leaf; its proofs win. */
  lemma {:induction false} MergeLinksFacts(links: seq<Hash>, more: seq<Hash>)
    ensures Elements(MergeLinks(links, more)) == Elements(links) + Elements(more) && links <= MergeLinks(links, more)
    decreases |more|
  {
    if more != [] {
      var next := if more[0] in links then links else links + [more[0]];
      MergeLinksFacts(next, more[1..]);
      assert Elements(next) == Elements(links) + {more[0]};
      assert Elements(more) == {more[0]} + Elements(more[1..]);
    }
  }

  /** What storing one leaf of a batch does: it is there, merged when it was known, its declared parent links
      it, and nothing else is touched. */
  lemma StoreLeafEffect(leafs: map<Hash, Leaf>, relationships: map<Hash, Hash>, l: Leaf)
    requires l.hash in relationships && relationships[l.hash] != l.hash
    ensures
      var h, p, after := l.hash, relationships[l.hash], StoreLeaf(leafs, relationships, l);
      && after.Keys == leafs.Keys + {h}
      && (h !in leafs ==> after[h] == l)
      && (h in leafs ==>
            && after[h] == leafs[h].(links := after[h].links, proofs := leafs[h].proofs + l.proofs)
            && Elements(after[h].links) == Elements(leafs[h].links) + Elements(l.links))
      && (p != [] && p in leafs ==>
            after[p] == leafs[p].(links := after[p].links)
              && Elements(after[p].links) == Elements(leafs[p].links) + {h})
      && forall k :: k in leafs && k != h && (k != p || p == []) ==> after[k] == leafs[k]
  {
    var h, p := l.hash, relationships[l.hash];
    if h in leafs {
      MergeLinksFacts(leafs[h].links, l.links);
    }
    if p != [] && p in leafs {
      assert h in leafs[p].links <==> h in Elements(leafs[p].links);
      assert Elements(leafs[p].links + [h]) == Elements(leafs[p].links) + {h};
    }
  }

  lemma StoreLeafSound(e: Suite, leafs: map<Hash, Leaf>, relationships: map<Hash, Hash>, l: Leaf)
    requires HeldSound(e, leafs) && l.hash in relationships && ReceivedSound(e, l, relationships[l.hash])
    ensures HeldSound(e, StoreLeaf(leafs, relationships, l))
  {
    hide CidHolds, RootCidHolds, ContentHashed;
    var h, p, after := l.hash, relationships[l.hash], StoreLeaf(leafs, relationships, l);
    var stored := leafs[h := if h in leafs then MergeLeaf(leafs[h], l) else l];
    if h in leafs {
      SameCommitments(e, leafs[h], MergeLinks(leafs[h].links, l.links), leafs[h].proofs + l.proofs);
    }
    assert HeldSound(e, stored);
    if p != [] && p in stored && h !in stored[p].links {
      SameCommitments(e, stored[p], stored[p].links + [h], stored[p].proofs);
      assert after[p] == stored[p].(links := stored[p].links + [h], proofs := stored[p].proofs);
    }
  }

  lemma {:induction false} StoreLeavesSound(e: Suite, leafs: map<Hash, Leaf>, relationships: map<Hash, Hash>,
                                            leaves: seq<Leaf>)
    requires HeldSound(e, leafs)
    requires forall l :: l in leaves ==> l.hash in relationships && ReceivedSound(e, l, relationships[l.hash])
    ensures HeldSound(e, StoreLeaves(leafs, relationships, leaves))
    decreases |leaves|
  {
    hide HeldSound, ReceivedSound, StoreLeaf;
    if leaves != [] {
      var n := |leaves| - 1;
      StoreLeavesSound(e, leafs, relationships, leaves[..n]);
      assert leaves[n] in leaves;
      StoreLeafSound(e, StoreLeaves(leafs, relationships, leaves[..n]), relationships, leaves[n]);
    }
  }

  method MergeInto(existing: Leaf, l: Leaf) returns (merged: Leaf)
    ensures merged == MergeLeaf(existing, l)
  {
    merged := existing;
    assert l.links[0..] == l.links;
    for i := 0 to |l.links|
      invariant merged == existing.(links := merged.links)
      invariant MergeLinks(merged.links, l.links[i..]) == MergeLinks(existing.links, l.links)
    {
      assert l.links[i..][1..] == l.links[i + 1..];
      if !HasLink(merged, l.links[i]) {
        merged := merged.(links := merged.links + [l.links[i]]);
      }
    }
    var linked := merged;
    var rest := l.proofs.Keys;
    while rest != {}
      invariant rest <= l.proofs.Keys
      invariant merged == linked.(proofs := linked.proofs + (l.proofs - rest))
      decreases rest
    {
      var k :| k in rest;
      assert l.proofs - (rest - {k}) == (l.proofs - rest)[k := l.proofs[k]];
      assert linked.proofs + (l.proofs - rest)[k := l.proofs[k]] ==
             (linked.proofs + (l.proofs - rest))[k := l.proofs[k]];
      merged := merged.(proofs := merged.proofs[k := l.proofs[k]]);
      rest := rest - {k};
    }
    assert l.proofs - {} == l.proofs;
  }

  method ApplyBatchedTransmissionPacket(d: Dag, batch: Batch)
    modifies d`leafs
    ensures d.leafs == StoreLeaves(old(d.leafs), batch.relationships, batch.leaves)
  {
    hide MergeLeaf;
    assert batch.leaves[..0] == [];
    for i := 0 to |batch.leaves|
      invariant d.leafs == StoreLeaves(old(d.leafs), batch.relationships, batch.leaves[..i])
    {
      var l := batch.leaves[i];
      assert batch.leaves[..i + 1][..i] == batch.leaves[..i];
      if l.hash in d.leafs {
        var merged := MergeInto(d.leafs[l.hash], l);
        d.leafs := d.leafs[l.hash := merged];
      } else {
        d.leafs := d.leafs[l.hash := l];
      }
      if l.hash in batch.relationships && batch.relationships[l.hash] != [] {
        var p := batch.relationships[l.hash];
        if p in d.leafs && !HasLink(d.leafs[p], l.hash) {
          d.leafs := d.leafs[p := d.leafs[p].(links := d.leafs[p].links + [l.hash])];
        }
      }
    }
    assert batch.leaves[..|batch.leaves|] == batch.leaves;
  }

  method ApplyAndVerifyBatchedTransmissionPacket(e: Suite, d: Dag, batch: Batch, cpus: nat) returns (ok: bool)
    requires cpus > 0 && FewLinks(d.leafs)
    requires forall i :: 0 <= i < |batch.leaves| ==> |batch.leaves[i].links| <= MAX_LINKS
    modifies d`leafs
    ensures ok == BatchOk(e, old(d.leafs), batch)
    ensures d.leafs == if ok then StoreLeaves(old(d.leafs), batch.relationships, batch.leaves) else old(d.leafs)
    ensures ok ==> forall l :: l in batch.leaves ==>
                                 l.hash in batch.relationships && ReceivedSound(e, l, batch.relationships[l.hash])
    ensures HeldSound(e, old(d.leafs)) ==> HeldSound(e, d.leafs)
  {
    hide BatchOk, StoreLeaves, ReceivedSound, HeldSound;
    ok := VerifyBatchedTransmissionPacket(e, d, batch, cpus);
    if ok {
      AcceptedBatchIsSound(e, d.leafs, batch);
      if HeldSound(e, d.leafs) {
        StoreLeavesSound(e, d.leafs, batch.relationships, batch.leaves);
      }
      ApplyBatchedTransmissionPacket(d, batch);
    }
  }

  /** What an empty receiver holds after accepting the batches in order, or none when it rejects one. */
  ghost function ReplayBatches(e: Suite, batches: seq<Batch>): Option<map<Hash, Leaf>>
    decreases |batches|
  {
    if batches == [] then Some(map[])
    else
      var n := |batches| - 1;
      var before := ReplayBatches(e, batches[..n]);
      if before.Some? && BatchOk(e, before.value, batches[n])
      then Some(StoreLeaves(before.value, batches[n].relationships, batches[n].leaves)) else None
  }
}
