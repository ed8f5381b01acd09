/** Leaves, DAGs, and what it means for a full DAG to be well formed. A leaf is a value and a DAG's
    leaves are a map from hashes to leaves. */
module DagModel {
  import opened ByteStrings
  import opened MerkleSpec
  import opened Sums
  import B = MerkleBinding

  type Hash = Bytes

  datatype LeafType = FileLeaf | ChunkLeaf | DirectoryLeaf

  datatype Branch = Branch(leaf: Hash, proof: Proof<Bytes>)

  datatype Leaf = Leaf(
    hash: Hash,
    itemName: Bytes,
    kind: LeafType,
    contentHash: Option<Bytes>,
    content: Option<Bytes>,
    classicMerkleRoot: Bytes,
    currentLinkCount: int,
    leafCount: int,
    contentSize: int,
    dagSize: int,
    links: seq<Hash>,
    parentHash: Hash,
    additionalData: map<Bytes, Bytes>,
    proofs: map<Hash, Branch>)

  /** The fields a leaf's CID is computed from; the root's CID also commits to the totals. */
  datatype Identity =
    | LeafIdentity(itemName: Bytes, kind: LeafType, merkleRoot: Bytes, linkCount: int,
                   contentHash: Option<Bytes>, additionalData: map<Bytes, Bytes>)
    | RootIdentity(itemName: Bytes, kind: LeafType, merkleRoot: Bytes, linkCount: int, leafCount: int,
                   contentSize: int, dagSize: int,
                   contentHash: Option<Bytes>, additionalData: map<Bytes, Bytes>)

  /** The library functions the DAG code calls: the hash of a byte string, the CID of an identity,
      and the lengths of the serializations that `DagSize` adds up. */
  datatype Suite = Suite(hash: Bytes -> Bytes, digestLength: nat, cid: Identity -> Hash,
                         leafSize: Leaf -> nat, rootSize: Identity -> nat)

  function Hasher(e: Suite): B.Hasher {
    B.Hasher(e.hash, false, e.digestLength)
  }

  // ----- The Merkle tree over a leaf's links -----

  /** The keys of the tree over some links. */
  function TreeKeys(links: seq<Hash>): seq<Hash> {
    SortedKeys(Less, links)
  }

  /** Fails, like the builder, when there are fewer than two distinct links. */
  function TreeRoot(e: Suite, links: seq<Hash>): Option<Bytes> {
    if |TreeKeys(links)| <= 1 then None else Some(B.KeysRoot(Hasher(e), TreeKeys(links)))
  }

  function IndexOf(keys: seq<Hash>, key: Hash): nat
    requires key in keys
    ensures IndexOf(keys, key) < |keys| && keys[IndexOf(keys, key)] == key
  {
    if keys[0] == key then 0 else 1 + IndexOf(keys[1..], key)
  }

  /** The branch that proves `child` among the links. */
  function LinkProof(e: Suite, links: seq<Hash>, child: Hash): Branch
    requires child in links
  {
    var keys := TreeKeys(links);
    Branch(child, ProofOf(B.Node(Hasher(e)), B.KeyLeaves(Hasher(e), keys), IndexOf(keys, child)))
  }

  /** What a builder stores as the Merkle root of a leaf with the given links. */
  function LinksRoot(e: Suite, links: seq<Hash>): Bytes {
    if |links| == 0 then [] else if |links| == 1 then links[0] else TreeRoot(e, links).GetOr([])
  }

  // ----- Checks on one leaf -----

  function IdentityOf(l: Leaf): Identity {
    LeafIdentity(l.itemName, l.kind, l.classicMerkleRoot, l.currentLinkCount, l.contentHash, l.additionalData)
  }

  function RootIdentityOf(l: Leaf): Identity {
    RootIdentity(l.itemName, l.kind, l.classicMerkleRoot, l.currentLinkCount, l.leafCount,
                 l.contentSize, l.dagSize, l.contentHash, l.additionalData)
  }

  predicate ContentOk(e: Suite, l: Leaf) {
    l.content.Some? ==> l.contentHash.Some? && e.hash(l.content.value) == l.contentHash.value
  }

  /** `VerifyLeaf`. */
  predicate LeafOk(e: Suite, l: Leaf) {
    e.cid(IdentityOf(l)) == l.hash && ContentOk(e, l)
  }

  /** `VerifyChildrenAgainstMerkleRoot`. */
  predicate ChildrenOk(e: Suite, l: Leaf) {
    || l.currentLinkCount == 0
    || (&& |l.links| == l.currentLinkCount
        && if l.currentLinkCount == 1 then l.classicMerkleRoot == l.links[0]
           else TreeRoot(e, l.links) == Some(l.classicMerkleRoot))
  }

  /** `VerifyBranch`. */
  predicate BranchOk(e: Suite, l: Leaf, b: Branch) {
    Climb(B.Node(Hasher(e)), e.hash(b.leaf), b.proof.siblings, b.proof.path) == l.classicMerkleRoot
  }

  // ----- Totals -----

  function ContentLength(l: Leaf): nat {
    if l.content.Some? then |l.content.value| else 0
  }

  /** The part of a leaf whose serialization counts towards `DagSize`. */
  function Counted(l: Leaf): Leaf {
    l.(proofs := map[], parentHash := [], links := TreeKeys(l.links))
  }

  ghost function TotalContent(leafs: map<Hash, Leaf>): nat {
    SumOver(leafs.Keys, h => if h in leafs then ContentLength(leafs[h]) else 0)
  }

  function CountedSize(e: Suite, l: Leaf): nat {
    e.leafSize(Counted(l))
  }

  ghost function TotalSize(e: Suite, leafs: map<Hash, Leaf>, root: Hash): nat {
    SumOver(leafs.Keys - {root}, h => if h in leafs then CountedSize(e, leafs[h]) else 0)
  }

  /** All leaves are there, none pruned, none without its content. */
  ghost predicate CanTotal(leafs: map<Hash, Leaf>, root: Leaf) {
    && |leafs| == root.leafCount
    && (root.contentSize != 0 || root.dagSize != 0 || root.leafCount == 1)
    && (forall h :: h in leafs ==> |leafs[h].links| >= leafs[h].currentLinkCount)
    && (forall h :: h in leafs ==>
                      (leafs[h].contentHash.Some? && leafs[h].contentHash.value != [] ==> leafs[h].content.Some?))
  }

  ghost predicate TotalsOk(e: Suite, leafs: map<Hash, Leaf>, root: Leaf) {
    CanTotal(leafs, root) ==>
      && root.contentSize == TotalContent(leafs)
      && root.dagSize == TotalSize(e, leafs, root.hash) + e.rootSize(RootIdentityOf(root.(dagSize := 0)))
  }

  /** `VerifyRootLeaf`, given the DAG the root is in, or none. */
  ghost predicate RootOk(e: Suite, root: Leaf, leafs: Option<map<Hash, Leaf>>) {
    && (leafs.Some? ==> TotalsOk(e, leafs.value, root))
    && e.cid(RootIdentityOf(root)) == root.hash
    && ContentOk(e, root)
  }

  // ----- DAGs -----

  datatype Graph = Graph(root: Hash, leafs: map<Hash, Leaf>)

  /** A DAG held in memory; operations reassign its map of leaves. */
  class Dag {
    var root: Hash
    var leafs: map<Hash, Leaf>
    var labels: map<Bytes, Hash>

    function View(): Graph
      reads this
    {
      Graph(root, leafs)
    }

    constructor (root: Hash, leafs: map<Hash, Leaf>)
      ensures View() == Graph(root, leafs) && labels == map[]
    {
      this.root, this.leafs, labels := root, leafs, map[];
    }
  }

  predicate HasLink(l: Leaf, h: Hash) {
    h in l.links
  }

  predicate IsPartial(g: Graph) {
    g.root in g.leafs ==> |g.leafs| < g.leafs[g.root].leafCount
  }

  /** Links that lead to leaves of the set stay in the set. */
  ghost predicate ClosedUnderLinks(leafs: map<Hash, Leaf>, s: set<Hash>) {
    forall h, c :: h in s && h in leafs && c in leafs[h].links ==> c in s
  }

  /** h can be reached from `from` along links: it is in every set that contains `from` and is closed
      under links. */
  ghost predicate Reachable(leafs: map<Hash, Leaf>, from: Hash, h: Hash) {
    forall s: set<Hash> :: from in s && ClosedUnderLinks(leafs, s) ==> h in s
  }

  lemma ReachableStep(leafs: map<Hash, Leaf>, from: Hash, h: Hash, c: Hash)
    requires Reachable(leafs, from, h) && h in leafs && c in leafs[h].links
    ensures Reachable(leafs, from, c)
  {
  }

  /** Links lead to higher ranks, so there is no cycle. */
  ghost predicate Ranked(leafs: map<Hash, Leaf>, rank: map<Hash, nat>) {
    && leafs.Keys <= rank.Keys
    && forall h, c :: h in leafs && c in leafs && c in leafs[h].links ==> rank[h] < rank[c]
  }

  ghost predicate Acyclic(leafs: map<Hash, Leaf>) {
    exists rank :: Ranked(leafs, rank)
  }

  ghost predicate Keyed(leafs: map<Hash, Leaf>) {
    forall h :: h in leafs ==> leafs[h].hash == h && h != []
  }

  /** Links agree with the count and the root that the CID commits to. */
  ghost predicate LinksCommitted(e: Suite, l: Leaf) {
    && Distinct(l.links) && |l.links| <= 0x1_0000_0000
    && l.currentLinkCount == |l.links|
    && l.classicMerkleRoot == LinksRoot(e, l.links)
  }

  ghost predicate WellFormed(e: Suite, g: Graph) {
    && g.root in g.leafs && Keyed(g.leafs) && Acyclic(g.leafs)
    && (forall h :: h in g.leafs ==> LinksCommitted(e, g.leafs[h]))
    && (forall h, c :: h in g.leafs && c in g.leafs[h].links ==> c in g.leafs)
    && (forall h :: h in g.leafs ==> Reachable(g.leafs, g.root, h))
    && (forall h :: h in g.leafs && h != g.root ==> LeafOk(e, g.leafs[h]) && g.leafs[h].leafCount == 0)
    && g.leafs[g.root].leafCount == |g.leafs|
    && RootOk(e, g.leafs[g.root], Some(g.leafs))
  }

  /** Equality of leaves and DAGs up to the proofs they carry. */
  predicate SameLeaf(a: Leaf, b: Leaf) {
    a.(proofs := map[]) == b.(proofs := map[])
  }

  ghost predicate SameGraph(g: Graph, g': Graph) {
    && g.root == g'.root && g.leafs.Keys == g'.leafs.Keys
    && forall h :: h in g.leafs ==> SameLeaf(g.leafs[h], g'.leafs[h])
  }

  /** The proofs leaves carry verify. Well-formedness leaves this out: no CID commits to proofs. */
  ghost predicate ProofsSound(e: Suite, leafs: map<Hash, Leaf>) {
    forall h :: h in leafs ==> LeafProofsSound(e, leafs[h])
  }

  ghost predicate LeafProofsSound(e: Suite, l: Leaf) {
    forall c :: c in l.proofs ==> BranchOk(e, l, l.proofs[c])
  }

  // ----- Facts about one leaf -----

  lemma TreeKeysFacts(links: seq<Hash>)
    ensures Elements(TreeKeys(links)) == Elements(links) && Ascending(Less, TreeKeys(links))
    ensures Distinct(links) ==> |TreeKeys(links)| == |links|
    ensures |TreeKeys(links)| <= |links|
  {
    LessStrictOrder();
    SortedKeysAscending(Less, links);
    AscendingDistinct(Less, TreeKeys(links));
    DistinctCardinality(TreeKeys(links));
    if Distinct(links) {
      DistinctCardinality(links);
    }
    ElementsAtMost(links);
  }

  /** The proof of a link verifies against the root that was built from the links. */
  lemma LinkProofOk(e: Suite, l: Leaf, links: seq<Hash>, child: Hash)
    requires child in links && TreeRoot(e, links) == Some(l.classicMerkleRoot)
    ensures BranchOk(e, l, LinkProof(e, links, child))
  {
    var keys := TreeKeys(links);
    var i := IndexOf(keys, child);
    var leaves := B.KeyLeaves(Hasher(e), keys);
    assert leaves[i] == e.hash(child);
    ProofClimbsToRoot(B.Node(Hasher(e)), leaves, i);
  }

  lemma CommittedChildrenOk(e: Suite, l: Leaf)
    requires LinksCommitted(e, l)
    ensures ChildrenOk(e, l)
    ensures |l.links| > 1 ==> TreeRoot(e, l.links) == Some(l.classicMerkleRoot)
  {
    hide SortedKeys;
    TreeKeysFacts(l.links);
  }

  /** The children check accepts exactly the committed set of links, in any order, among the
      duplicate-free lists of the committed length. */
  lemma ChildrenCheckIsExact(e: Suite, l: Leaf, links: seq<Hash>)
    requires LinksCommitted(e, l) && Distinct(links) && |links| == |l.links|
    requires |links| > 1 ==>
               && B.FixedLength(Hasher(e))
               && B.NoCollision(Hasher(e), B.AllInputs(Hasher(e), TreeKeys(l.links))
                   + B.AllInputs(Hasher(e), TreeKeys(links)))
    ensures ChildrenOk(e, l.(links := links)) <==> Elements(links) == Elements(l.links)
  {
    hide SortedKeys;
    CommittedChildrenOk(e, l);
    TreeKeysFacts(links);
    TreeKeysFacts(l.links);
    if |links| == 1 {
      assert links == [links[0]] && l.links == [l.links[0]];
      assert links[0] in Elements(links) && l.links[0] in Elements(l.links);
    } else if |links| > 1 {
      B.RootBindsKeySet(Hasher(e), TreeKeys(l.links), TreeKeys(links));
    } else {
      assert links == [] && l.links == [];
    }
    if Elements(links) == Elements(l.links) && |links| > 1 {
      LessStrictOrder();
      AscendingUnique(Less, TreeKeys(links), TreeKeys(l.links));
    }
  }

  // ----- Facts about well-formed DAGs -----

  lemma WellFormedLeaf(e: Suite, g: Graph, h: Hash)
    requires WellFormed(e, g) && h in g.leafs
    ensures LinksCommitted(e, g.leafs[h]) && g.leafs[h].hash == h
  {
    hide RootOk, LeafOk, LinksCommitted, Reachable, Acyclic;
  }

  lemma WellFormedCount(e: Suite, g: Graph)
    requires WellFormed(e, g)
    ensures g.root in g.leafs && g.leafs[g.root].leafCount == |g.leafs|
  {
  }

  lemma SameLeafFields(e: Suite, a: Leaf, b: Leaf)
    requires SameLeaf(a, b)
    ensures a.links == b.links && a.hash == b.hash && a.leafCount == b.leafCount
            && a.currentLinkCount == b.currentLinkCount
    ensures a.classicMerkleRoot == b.classicMerkleRoot && a.contentSize == b.contentSize && a.dagSize == b.dagSize
    ensures a.content == b.content && a.contentHash == b.contentHash
    ensures Counted(a) == Counted(b) && RootIdentityOf(a) == RootIdentityOf(b)
    ensures RootIdentityOf(a.(dagSize := 0)) == RootIdentityOf(b.(dagSize := 0))
    ensures LeafOk(e, a) == LeafOk(e, b) && ContentOk(e, a) == ContentOk(e, b)
    ensures LinksCommitted(e, a) == LinksCommitted(e, b)
  {
    hide TreeRoot, LinksRoot, SortedKeys;
    var x, y := a.(proofs := map[]), b.(proofs := map[]);
    assert x.links == y.links && x.hash == y.hash && x.itemName == y.itemName && x.kind == y.kind;
    assert x.contentHash == y.contentHash && x.content == y.content && x.classicMerkleRoot == y.classicMerkleRoot;
    assert x.additionalData == y.additionalData && x.currentLinkCount == y.currentLinkCount;
    assert x.leafCount == y.leafCount && x.contentSize == y.contentSize && x.dagSize == y.dagSize;
  }

  /** Proofs play no part in well-formedness. */
  lemma SameGraphWellFormed(e: Suite, g: Graph, g': Graph)
    requires WellFormed(e, g) && SameGraph(g, g')
    ensures WellFormed(e, g')
  {
    hide SameLeaf, LinksCommitted, LeafOk, RootOk, Reachable, Acyclic;
    forall h | h in g.leafs
      ensures g.leafs[h].links == g'.leafs[h].links && g'.leafs[h].hash == g.leafs[h].hash
      ensures g.leafs[h].leafCount == g'.leafs[h].leafCount
      ensures LinksCommitted(e, g'.leafs[h]) && LeafOk(e, g'.leafs[h]) == LeafOk(e, g.leafs[h])
    {
      SameLeafFields(e, g.leafs[h], g'.leafs[h]);
    }
    SameReachable(g, g');
    SameRootOk(e, g, g');
    assert |g.leafs| == |g.leafs.Keys| && |g'.leafs| == |g'.leafs.Keys|;
  }

  lemma SameReachable(g: Graph, g': Graph)
    requires g.leafs.Keys == g'.leafs.Keys
    requires forall h :: h in g.leafs ==> g.leafs[h].links == g'.leafs[h].links
    ensures forall from, h :: Reachable(g.leafs, from, h) ==> Reachable(g'.leafs, from, h)
    ensures Acyclic(g.leafs) ==> Acyclic(g'.leafs)
  {
    assert forall s :: ClosedUnderLinks(g'.leafs, s) ==> ClosedUnderLinks(g.leafs, s);
    if Acyclic(g.leafs) {
      var rank :| Ranked(g.leafs, rank);
      assert Ranked(g'.leafs, rank);
    }
  }

  lemma SameRootOk(e: Suite, g: Graph, g': Graph)
    requires g.root in g.leafs && SameGraph(g, g') && RootOk(e, g.leafs[g.root], Some(g.leafs))
    ensures RootOk(e, g'.leafs[g.root], Some(g'.leafs))
  {
    hide CanTotal, TotalContent, TotalSize;
    SameLeafFields(e, g.leafs[g.root], g'.leafs[g.root]);
    SameCanTotal(e, g, g', g.leafs[g.root], g'.leafs[g.root]);
    SameTotals(e, g, g', g.leafs[g.root].hash);
  }

  lemma SameCanTotal(e: Suite, g: Graph, g': Graph, root: Leaf, root': Leaf)
    requires SameGraph(g, g') && SameLeaf(root, root')
    ensures CanTotal(g.leafs, root) == CanTotal(g'.leafs, root')
  {
    hide SameLeaf;
    forall h | h in g.leafs
      ensures |g.leafs[h].links| == |g'.leafs[h].links| && g.leafs[h].currentLinkCount == g'.leafs[h].currentLinkCount
      ensures g.leafs[h].content == g'.leafs[h].content && g.leafs[h].contentHash == g'.leafs[h].contentHash
    {
      SameLeafFields(e, g.leafs[h], g'.leafs[h]);
    }
    SameLeafFields(e, root, root');
    assert |g.leafs| == |g.leafs.Keys| && |g'.leafs| == |g'.leafs.Keys|;
  }

  lemma SameTotals(e: Suite, g: Graph, g': Graph, root: Hash)
    requires SameGraph(g, g')
    ensures TotalContent(g.leafs) == TotalContent(g'.leafs)
            && TotalSize(e, g.leafs, root) == TotalSize(e, g'.leafs, root)
  {
    hide SameLeaf, Counted, CountedSize, ContentLength;
    forall h | h in g.leafs
      ensures CountedSize(e, g.leafs[h]) == CountedSize(e, g'.leafs[h])
      ensures ContentLength(g.leafs[h]) == ContentLength(g'.leafs[h])
    {
      SameSizes(e, g.leafs[h], g'.leafs[h]);
    }
    SumCongruent(g.leafs.Keys, h => if h in g.leafs then ContentLength(g.leafs[h]) else 0,
                 h => if h in g'.leafs then ContentLength(g'.leafs[h]) else 0);
    SumCongruent(g.leafs.Keys - {root}, h => if h in g.leafs then CountedSize(e, g.leafs[h]) else 0,
                 h => if h in g'.leafs then CountedSize(e, g'.leafs[h]) else 0);
  }

  lemma SameSizes(e: Suite, a: Leaf, b: Leaf)
    requires SameLeaf(a, b)
    ensures CountedSize(e, a) == CountedSize(e, b) && ContentLength(a) == ContentLength(b)
  {
    SameLeafFields(e, a, b);
  }
}
