/** The Merkle tree over a leaf's links, built by the engine, and the checks made with it. */
module LinkTree {
  import opened ByteStrings
  import opened MerkleSpec
  import opened MerkleTree
  import opened DagModel
  import B = MerkleBinding

  /** The default configuration. */
  function LinkConfig(e: Suite): Config<Bytes> {
    HashConfig(e.hash, false, false, ProofGen, false, 0)
  }

  method Build(e: Suite, links: seq<Hash>, cpus: nat) returns (tree: Option<Tree<Bytes>>)
    requires |links| <= WORD && cpus > 0
    ensures tree.Some? <==> TreeRoot(e, links).Some?
    ensures tree.Some? ==>
              var t := tree.value;
              && fresh(t) && t.root == TreeRoot(e, links)
              && t.keys == TreeKeys(links) && |t.proofs| == |t.keys|
              && forall i :: 0 <= i < |t.keys| ==>
                               t.proofs[i] == ProofOf(B.Node(Hasher(e)), B.KeyLeaves(Hasher(e), t.keys), i)
  {
    hide SortedKeys, Root, ProofOf;
    var blocks := map link | link in links :: link;
    assert blocks.Keys == Elements(links);
    TreeKeysFacts(links);
    ElementsAtMost(links);
    DistinctTreeKeys(links);
    assert |blocks| == |blocks.Keys|;
    var r := New(LinkConfig(e), blocks, cpus);
    if r.Err? {
      return None;
    }
    var t := r.value;
    SameKeys(t.keys, links);
    assert t.leaves == B.KeyLeaves(Hasher(e), t.keys);
    tree := Some(t);
  }

  lemma DistinctTreeKeys(links: seq<Hash>)
    ensures |TreeKeys(links)| == |Elements(links)|
  {
    LessStrictOrder();
    SortedKeysAscending(Less, links);
    AscendingDistinct(Less, TreeKeys(links));
    DistinctCardinality(TreeKeys(links));
  }

  lemma SameKeys(keys: seq<Hash>, links: seq<Hash>)
    requires Ascending(Less, keys) && Elements(keys) == Elements(links)
    ensures keys == TreeKeys(links)
  {
    LessStrictOrder();
    TreeKeysFacts(links);
    AscendingUnique(Less, keys, TreeKeys(links));
  }

  lemma IndexUnique(keys: seq<Hash>, key: Hash, i: nat)
    requires Distinct(keys) && i < |keys| && keys[i] == key
    ensures key in keys && IndexOf(keys, key) == i
  {
  }

  /** `proofForChild`: no proof is needed below a parent with at most one link. */
  method ProofForChild(e: Suite, parent: Leaf, child: Hash, cpus: nat) returns (r: Result<Option<Branch>, ()>)
    requires |parent.links| <= WORD && cpus > 0
    ensures |parent.links| <= 1 ==> r == Ok(None)
    ensures |parent.links| > 1 && TreeRoot(e, parent.links).Some? && child in parent.links ==>
              r == Ok(Some(LinkProof(e, parent.links, child)))
    ensures |parent.links| > 1 && (TreeRoot(e, parent.links) == None || child !in parent.links) ==> r.Err?
  {
    hide SortedKeys, Root, ProofOf;
    if |parent.links| <= 1 {
      return Ok(None);
    }
    var tree := Build(e, parent.links, cpus);
    if tree == None {
      return Err(());
    }
    TreeKeysFacts(parent.links);
    assert child in parent.links <==> child in Elements(parent.links);
    assert child in tree.value.keys <==> child in Elements(tree.value.keys);
    var index := tree.value.GetIndexForKey(child);
    if index == None {
      return Err(());
    }
    LessStrictOrder();
    AscendingDistinct(Less, tree.value.keys);
    IndexUnique(tree.value.keys, child, index.value);
    r := Ok(Some(Branch(child, tree.value.proofs[index.value])));
  }

  method VerifyChildren(e: Suite, l: Leaf, cpus: nat) returns (ok: bool)
    requires |l.links| <= WORD && cpus > 0
    ensures ok == ChildrenOk(e, l)
  {
    hide SortedKeys, Root, ProofOf;
    if l.currentLinkCount == 0 {
      return true;
    }
    if |l.links| != l.currentLinkCount {
      return false;
    }
    if l.currentLinkCount == 1 {
      return l.classicMerkleRoot == l.links[0];
    }
    var tree := Build(e, l.links, cpus);
    if tree == None {
      return false;
    }
    ok := tree.value.root == Some(l.classicMerkleRoot);
  }

  method VerifyBranch(e: Suite, l: Leaf, b: Branch) returns (ok: bool)
    ensures ok == BranchOk(e, l, b)
  {
    var r := Verify(LinkConfig(e), Some(b.leaf), Some(b.proof), l.classicMerkleRoot);
    ok := r.Ok?;
  }
}
