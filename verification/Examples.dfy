/** Properties that do not hold without their conditions, shown on a DAG of four leaves, a root that links
    three files, or on every well-formed DAG of some shape. */
module Examples {
  import opened ByteStrings
  import opened MerkleSpec
  import opened DagModel
  import opened ParentIndex
  import opened Traversal
  import opened DagVerify
  import opened Partial
  import opened PartialLaws
  import opened BreadthFirst
  import opened Transmission
  import opened TransmissionLaws
  import opened Batches
  import opened BatchLaws
  import opened VerifyLaws
  import opened Store

  const ROOT: Hash := [1]
  const LEFT: Hash := [2]
  const RIGHT: Hash := [3]
  const LAST: Hash := [4]

  function Links(): seq<Hash> {
    [LEFT, RIGHT, LAST]
  }

  function ExampleSuite(): Suite {
    Suite((x: Bytes) => x, 0, (id: Identity) => id.itemName, (l: Leaf) => 0, (id: Identity) => 0)
  }

  function File(h: Hash): Leaf {
    Leaf(h, h, FileLeaf, None, None, [], 0, 0, 0, 0, [], [], map[], map[])
  }

  function RootLeaf(proofs: map<Hash, Branch>): Leaf {
    Leaf(ROOT, ROOT, DirectoryLeaf, None, None, LinksRoot(ExampleSuite(), Links()), 3, 4, 0, 0, Links(), [], map[],
         proofs)
  }

  function Example(proofs: map<Hash, Branch>): Graph {
    Graph(ROOT, map[ROOT := RootLeaf(proofs), LEFT := File(LEFT), RIGHT := File(RIGHT), LAST := File(LAST)])
  }

  lemma ExampleLeaves(proofs: map<Hash, Branch>)
    ensures
      var g := Example(proofs);
      && g.root == ROOT && g.leafs.Keys == {ROOT, LEFT, RIGHT, LAST} && |g.leafs| == 4
      && g.leafs[ROOT] == RootLeaf(proofs) && g.leafs[LEFT] == File(LEFT) && g.leafs[RIGHT] == File(RIGHT)
      && g.leafs[LAST] == File(LAST)
  {
    hide RootLeaf, File;
    var g := Example(proofs);
    assert g.leafs.Keys == {ROOT, LEFT, RIGHT, LAST} && |g.leafs| == |g.leafs.Keys|;
  }

  lemma ExampleReachable(proofs: map<Hash, Branch>, h: Hash)
    requires h in Example(proofs).leafs
    ensures Reachable(Example(proofs).leafs, ROOT, h)
  {
    hide LinksRoot, Example;
    ExampleLeaves(proofs);
    var leafs := Example(proofs).leafs;
    assert leafs[ROOT].links[0] == LEFT && leafs[ROOT].links[1] == RIGHT && leafs[ROOT].links[2] == LAST;
    assert LEFT in leafs[ROOT].links && RIGHT in leafs[ROOT].links && LAST in leafs[ROOT].links;
  }

  lemma ExampleAcyclic(proofs: map<Hash, Branch>)
    ensures Acyclic(Example(proofs).leafs)
  {
    hide LinksRoot, Example;
    ExampleLeaves(proofs);
    assert Ranked(Example(proofs).leafs, map[ROOT := 0, LEFT := 1, RIGHT := 1, LAST := 1]);
  }

  lemma ExampleLeafOk(h: Hash)
    ensures LinksCommitted(ExampleSuite(), File(h)) && LeafOk(ExampleSuite(), File(h))
  {
    hide LinksRoot;
    NoLinksRoot(ExampleSuite());
  }

  lemma ExampleRootOk(proofs: map<Hash, Branch>)
    ensures LinksCommitted(ExampleSuite(), RootLeaf(proofs))
    ensures RootOk(ExampleSuite(), RootLeaf(proofs), Some(Example(proofs).leafs))
  {
    hide LinksRoot;
  }

  /** One leaf of the example. */
  lemma ExampleLeaf(proofs: map<Hash, Branch>, h: Hash)
    requires h in Example(proofs).leafs
    ensures
      var leafs := Example(proofs).leafs;
      var l := leafs[h];
      && LinksCommitted(ExampleSuite(), l) && l.hash == h && h != []
      && (h != ROOT ==> LeafOk(ExampleSuite(), l) && l.leafCount == 0)
      && forall c :: c in l.links ==> c in leafs
  {
    hide LinksRoot, LeafOk, RootOk, LinksCommitted, Example;
    ExampleLeaves(proofs);
    if h == ROOT {
      ExampleRootOk(proofs);
    } else {
      ExampleLeafOk(h);
    }
  }

  lemma ExampleWellFormed(proofs: map<Hash, Branch>)
    ensures WellFormed(ExampleSuite(), Example(proofs))
  {
    hide LinksRoot, LeafOk, RootOk, LinksCommitted, Reachable, Acyclic, Example, File, Links;
    ExampleLeaves(proofs);
    ExampleAcyclic(proofs);
    ExampleRootOk(proofs);
    forall h | h in Example(proofs).leafs
      ensures Reachable(Example(proofs).leafs, ROOT, h)
    {
      ExampleReachable(proofs, h);
    }
    forall h | h in Example(proofs).leafs
      ensures
        var l := Example(proofs).leafs[h];
        && LinksCommitted(ExampleSuite(), l) && l.hash == h && h != []
        && (h != ROOT ==> LeafOk(ExampleSuite(), l) && l.leafCount == 0)
        && forall c :: c in l.links ==> c in Example(proofs).leafs
    {
      ExampleLeaf(proofs, h);
    }
  }

  lemma NoLinksRoot(e: Suite)
    ensures LinksRoot(e, []) == []
  {
  }

  /** A partial of the root alone, with its links left in place, fails verification: none of the
      linked leaves is there and there is no proof to go by. */
  lemma RootAloneFails(order: Order, p: Graph)
    requires Rearranges(order) && IsPartialOf(ExampleSuite(), Example(map[]), [ROOT], false, p)
    ensures WellFormed(ExampleSuite(), Example(map[])) && !Passes(ExampleSuite(), order, p)
  {
    hide LinksRoot, WellFormed, Passes, IsPartialOf;
    ExampleWellFormed(map[]);
    PartialVerifies(ExampleSuite(), order, Example(map[]), [ROOT], false, p);
  }

  // ----- A stored proof that does not verify -----

  /** The root stores a proof of its left child that starts at something longer than the Merkle root and
      climbs nowhere. */
  function Misproven(): Graph {
    Example(map[LEFT := Branch(LinksRoot(ExampleSuite(), Links()) + [0], Proof([], 0))])
  }

  lemma MisprovenBranch()
    ensures
      var root := Misproven().leafs[ROOT];
      LEFT in root.proofs && !BranchOk(ExampleSuite(), root, root.proofs[LEFT])
  {
    hide LinksRoot;
    var top := LinksRoot(ExampleSuite(), Links());
    assert |top + [0]| != |top|;
  }

  lemma MisprovenLeaves()
    ensures
      var g := Misproven();
      && WellFormed(ExampleSuite(), g) && g.root == ROOT && g.leafs.Keys == {ROOT, LEFT, RIGHT, LAST}
      && g.leafs[ROOT].links == Links() && g.leafs[ROOT].proofs.Keys == {LEFT}
      && forall h :: h in g.leafs && h != ROOT ==> g.leafs[h].links == []
  {
    hide LinksRoot, WellFormed, Example, File;
    var proofs := map[LEFT := Branch(LinksRoot(ExampleSuite(), Links()) + [0], Proof([], 0))];
    ExampleLeaves(proofs);
    ExampleWellFormed(proofs);
    ExampleFile(LEFT);
    ExampleFile(RIGHT);
    ExampleFile(LAST);
  }

  lemma ExampleFile(h: Hash)
    ensures File(h).links == []
  {
  }

  /** From each file one step leads up to the root. */
  lemma MisprovenPath(h: Hash)
    requires h in Links()
    ensures
      var g := Misproven();
      && UpPath(g.leafs, g.root, [h, ROOT]) && IsMinParent(g.leafs, h, ROOT)
      && Touches(g, h, ROOT) && ChildBelow(g, h, ROOT) == Some(h)
      && forall k :: Above(g, h, k) <==> k == h || k == ROOT
  {
    hide WellFormed, Misproven;
    var g, path := Misproven(), [h, ROOT];
    MisprovenLeaves();
    assert IsMinParent(g.leafs, h, ROOT) by {
      forall q | q in g.leafs && h in g.leafs[q].links
        ensures q == ROOT
      {
      }
    }
    assert UpPath(g.leafs, g.root, path);
    PathBelow(g, path, ROOT);
    assert path[1] == ROOT && path[1 - 1] == h && ROOT in path[1..];
    forall k
      ensures Above(g, h, k) <==> k == h || k == ROOT
    {
      PathIsAbove(g, path, k);
      assert path[0] == h && (k in path <==> k == h || k == ROOT);
    }
  }

  /** What is kept of two files and the root, and which child comes last. */
  lemma MisprovenPartial(a: Hash, b: Hash, keys: set<Hash>)
    requires a in Links() && b in Links() && KeysOf(Misproven(), [a, b], keys)
    ensures keys == {ROOT, a, b} && LastChild(Misproven(), [a, b], ROOT) == Some(b)
  {
    hide Misproven, Above, Touches, ChildBelow;
    MisprovenPath(a);
    MisprovenPath(b);
    var g := Misproven();
    assert [a, b][0] == a && [a, b][1] == b;
    forall k
      ensures k in keys <==> k in {ROOT, a, b}
    {
      assert k in keys <==> IsKept(g, [a, b], k);
      if Above(g, a, k) {
        assert a in [a, b];
      }
      if Above(g, b, k) {
        assert b in [a, b];
      }
    }
  }

  /** The DAG passes `Verify`, which does not look at stored proofs; yet a partial of it for the left and
      then the right file fails: the root's copy that comes with the right file brings the bad proof back. */
  lemma StoredProofFails(order: Order, p: Graph)
    requires Rearranges(order) && IsPartialOf(ExampleSuite(), Misproven(), [LEFT, RIGHT], true, p)
    ensures WellFormed(ExampleSuite(), Misproven()) && FullPasses(ExampleSuite(), order, Misproven())
    ensures !Passes(ExampleSuite(), order, p)
  {
    hide WellFormed, Passes, FullPasses, PartialLeaf, Misproven, KeysOf, LastChild, BranchOk;
    var e, g, requested := ExampleSuite(), Misproven(), [LEFT, RIGHT];
    MisprovenLeaves();
    MisprovenBranch();
    MisprovenPath(LEFT);
    MisprovenPartial(LEFT, RIGHT, p.leafs.Keys);
    WellFormedPasses(e, order, g);
    PartialVerifies(e, order, g, requested, true, p);
    assert Links()[2] == LAST && LAST in g.leafs[ROOT].links && LAST !in p.leafs;
    assert !Vouched(e, g, requested, ROOT, LEFT);
    assert !StepServed(e, g, requested, p.leafs.Keys, ROOT, LEFT);
  }

  /** Requested the other way round, the new proof of the left file comes last, and the partial passes. */
  lemma OtherOrderPasses(order: Order, p: Graph)
    requires Rearranges(order) && IsPartialOf(ExampleSuite(), Misproven(), [RIGHT, LEFT], true, p)
    ensures Passes(ExampleSuite(), order, p)
  {
    hide WellFormed, Passes, PartialLeaf, Misproven, KeysOf, LastChild, BranchOk;
    var e, g, requested := ExampleSuite(), Misproven(), [RIGHT, LEFT];
    MisprovenLeaves();
    MisprovenPartial(RIGHT, LEFT, p.leafs.Keys);
    PartialVerifies(e, order, g, requested, true, p);
    forall c, k | c in p.leafs && c != g.root && IsMinParent(g.leafs, c, k)
      ensures StepServed(e, g, requested, p.leafs.Keys, k, c)
    {
      assert k == ROOT;
    }
  }

  // ----- Leaves that no CID commits to: on every well-formed DAG, for every suite -----

  /** A leaf that passes by itself, links nothing and is none of the DAG's. */
  ghost predicate Stranger(e: Suite, g: Graph, x: Leaf) {
    LeafOk(e, x) && x.links == [] && x.hash != [] && x.hash !in g.leafs
  }

  /** The DAG with one link of the root too many, to the stranger. */
  function Overlinked(g: Graph, x: Leaf): Graph
    requires g.root in g.leafs
  {
    Graph(g.root, g.leafs[g.root := WithExtra(g.leafs[g.root], x)][x.hash := x])
  }

  function WithExtra(root: Leaf, x: Leaf): Leaf {
    root.(links := root.links + [x.hash])
  }

  /** With other leaves about it than it counts, a root passes by the fields it commits to. */
  lemma RootElsewhere(e: Suite, root: Leaf, all: map<Hash, Leaf>, links: seq<Hash>, proofs: map<Hash, Branch>,
                      leafs: map<Hash, Leaf>)
    requires RootOk(e, root, Some(all)) && |leafs| != root.leafCount
    ensures RootOk(e, root.(links := links, proofs := proofs), Some(leafs))
  {
    hide CanTotal, TotalContent, TotalSize;
    NoTotals(leafs, root.(links := links, proofs := proofs));
  }

  lemma RootPasses(e: Suite, g: Graph)
    requires WellFormed(e, g)
    ensures g.root in g.leafs && g.leafs[g.root].leafCount == |g.leafs| && g.leafs[g.root].hash == g.root
            && g.root != []
    ensures RootOk(e, g.leafs[g.root], Some(g.leafs)) && Keyed(g.leafs)
  {
    hide RootOk, LeafOk, LinksCommitted, Reachable, Acyclic;
  }

  lemma OverlinkedRoot(e: Suite, g: Graph, x: Leaf)
    requires WellFormed(e, g) && Stranger(e, g, x)
    ensures g.root in g.leafs
    ensures
      var d := Overlinked(g, x);
      && d.leafs.Keys == g.leafs.Keys + {x.hash} && |d.leafs| == |g.leafs| + 1 && !IsPartial(d) && Keyed(d.leafs)
      && d.leafs[g.root] == WithExtra(g.leafs[g.root], x) && d.leafs[x.hash] == x
      && RootOk(e, d.leafs[g.root], Some(d.leafs))
  {
    hide WellFormed, RootOk, LeafOk, Overlinked, Keyed;
    RootPasses(e, g);
    OverlinkedShape(g, x);
    var root := g.leafs[g.root];
    RootElsewhere(e, root, g.leafs, root.links + [x.hash], root.proofs, Overlinked(g, x).leafs);
    assert root.(links := root.links + [x.hash], proofs := root.proofs) == WithExtra(root, x);
  }

  lemma OverlinkedShape(g: Graph, x: Leaf)
    requires g.root in g.leafs && Keyed(g.leafs) && x.hash !in g.leafs && x.hash != []
    ensures
      var d := Overlinked(g, x);
      && d.root == g.root && d.leafs.Keys == g.leafs.Keys + {x.hash} && |d.leafs| == |g.leafs| + 1 && Keyed(d.leafs)
      && d.leafs[g.root] == WithExtra(g.leafs[g.root], x) && d.leafs[x.hash] == x
  {
    var d := Overlinked(g, x);
    assert d.leafs.Keys == g.leafs.Keys + {x.hash};
    assert |d.leafs| == |d.leafs.Keys| && |g.leafs| == |g.leafs.Keys|;
  }

  lemma OverlinkedVisit(e: Suite, g: Graph, x: Leaf, v: Visit)
    requires WellFormed(e, g) && Stranger(e, g, x) && g.root in g.leafs
    requires v.hash in Overlinked(g, x).leafs && (v.parent == None ==> v.hash == g.root)
    requires v.parent.Some? ==>
               v.parent.value in Overlinked(g, x).leafs && v.hash in Overlinked(g, x).leafs[v.parent.value].links
    ensures VisitOk(e, Overlinked(g, x), v)
  {
    hide WellFormed, RootOk, LeafOk, LinksCommitted, ChildrenOk;
    OverlinkedRoot(e, g, x);
    RootPasses(e, g);
    RootCounts(e, g);
    if v.hash != g.root && v.hash != x.hash {
      InnerPasses(e, g, v.hash);
    }
    if v.parent.Some? && v.parent.value != g.root {
      var p := v.parent.value;
      assert p in g.leafs;
      WellFormedLeaf(e, g, p);
      CommittedChildrenOk(e, g.leafs[p]);
    }
  }

  lemma InnerPasses(e: Suite, g: Graph, h: Hash)
    requires WellFormed(e, g) && h in g.leafs && h != g.root
    ensures LeafOk(e, g.leafs[h])
  {
    hide RootOk, LeafOk, LinksCommitted, Reachable, Acyclic;
  }

  lemma RootCounts(e: Suite, g: Graph)
    requires WellFormed(e, g)
    ensures g.root in g.leafs && g.leafs[g.root].currentLinkCount == |g.leafs[g.root].links|
  {
  }

  /** Full verification passes over the children of a parent that has more links than it commits to: every
      well-formed DAG can be given one link more, to any stranger, and still passes. */
  lemma ExtraLinkPasses(e: Suite, order: Order, g: Graph, x: Leaf)
    requires WellFormed(e, g) && Stranger(e, g, x) && Rearranges(order)
    ensures g.root in g.leafs && Overlinked(g, x).root == g.root
    ensures Passes(e, order, Overlinked(g, x))
    ensures !Genuine(e, g, Overlinked(g, x)) && !NothingSkipped(e, order, Overlinked(g, x))
  {
    hide WellFormed, VisitOk, Walk, RootOk, LeafOk, Overlinked, WalkOf;
    OverlinkedRoot(e, g, x);
    RootCounts(e, g);
    var d := Overlinked(g, x);
    assert d.root == g.root by { OverlinkedTop(g, x); }
    WalkVisitsKnown(d, order);
    OverlinkedClosed(e, g, x);
    assert WalkOf(d, order).complete by { OverlinkedWalk(d, order); }
    var visits := WalkOf(d, order).visits;
    forall i | 0 <= i < |visits|
      ensures VisitOk(e, d, visits[i])
    {
      OverlinkedVisit(e, g, x, visits[i]);
    }
    assert x.hash in d.leafs && x.hash !in g.leafs;
  }

  lemma OverlinkedTop(g: Graph, x: Leaf)
    requires g.root in g.leafs
    ensures Overlinked(g, x).root == g.root
  {
  }

  lemma OverlinkedWalk(d: Graph, order: Order)
    requires Rearranges(order) && d.root in d.leafs
    requires forall h, c :: h in d.leafs && c in d.leafs[h].links ==> c in d.leafs
    ensures WalkOf(d, order).complete
  {
    hide Walk;
    ClosedIsComplete(d.leafs, order, [Visit(d.root, None)], {});
  }

  lemma OverlinkedClosed(e: Suite, g: Graph, x: Leaf)
    requires WellFormed(e, g) && Stranger(e, g, x) && g.root in g.leafs
    ensures
      var d := Overlinked(g, x);
      forall h, c :: h in d.leafs && c in d.leafs[h].links ==> c in d.leafs
  {
    hide RootOk, LeafOk, LinksCommitted, Reachable, Acyclic;
  }

  /** Of the DAG only the root, and below it the stranger, with the given links and proofs of the root. */
  function Stray(g: Graph, x: Leaf, links: seq<Hash>, proofs: map<Hash, Branch>): Graph
    requires g.root in g.leafs
  {
    Graph(g.root, map[g.root := g.leafs[g.root].(links := links, proofs := proofs), x.hash := x])
  }

  /** Such a partial passes when the step up to the root does, and it is not the DAG's. */
  lemma StrayPasses(e: Suite, order: Order, g: Graph, x: Leaf, links: seq<Hash>, proofs: map<Hash, Branch>)
    requires WellFormed(e, g) && Stranger(e, g, x) && |g.leafs| > 2 && g.root in g.leafs
    requires x.hash in links && |links| != g.leafs[g.root].currentLinkCount
    requires
      var root := g.leafs[g.root].(links := links, proofs := proofs);
      root.currentLinkCount > 1 ==> StoredProofOk(e, root, x.hash)
    ensures Passes(e, order, Stray(g, x, links, proofs)) && !Belongs(e, g, Stray(g, x, links, proofs))
  {
    hide WellFormed, RootOk, LeafOk, FullPasses, StoredProofOk, PathOk;
    RootPasses(e, g);
    var p := Stray(g, x, links, proofs);
    assert p.leafs.Keys == {g.root, x.hash};
    assert |p.leafs| == |p.leafs.Keys| == 2;
    RootElsewhere(e, g.leafs[g.root], g.leafs, links, proofs, p.leafs);
    StrayPath(e, g, x, links, proofs);
    assert x.hash in p.leafs && x.hash !in g.leafs;
  }

  lemma StrayPath(e: Suite, g: Graph, x: Leaf, links: seq<Hash>, proofs: map<Hash, Branch>)
    requires Stranger(e, g, x) && g.root in g.leafs
    requires x.hash in links && |links| != g.leafs[g.root].currentLinkCount
    requires
      var root := g.leafs[g.root].(links := links, proofs := proofs);
      root.currentLinkCount > 1 ==> StoredProofOk(e, root, x.hash)
    ensures PathOk(e, Stray(g, x, links, proofs), x.hash)
  {
    hide LeafOk, StoredProofOk;
    var p, path := Stray(g, x, links, proofs), [x.hash, g.root];
    assert IsMinParent(p.leafs, x.hash, g.root);
    assert UpStep(e, p, path[0], path[1]);
    assert CheckedPath(e, p, path) && path[0] == x.hash;
  }

  /** Partial verification does not compare a proof's own leaf with the child it is stored for: under the root
      of any well-formed DAG with several children, any stranger passes with the proof of any child. */
  lemma MisnamedProofPasses(e: Suite, order: Order, g: Graph, x: Leaf, c: Hash)
    requires WellFormed(e, g) && Stranger(e, g, x) && g.root in g.leafs
    requires |g.leafs[g.root].links| > 1 && c in g.leafs[g.root].links
    ensures
      var p := Stray(g, x, [x.hash], map[x.hash := LinkProof(e, g.leafs[g.root].links, c)]);
      p.root == g.root && Passes(e, order, p) && !Belongs(e, g, p)
  {
    hide WellFormed, LinkProof, Passes, Belongs, TreeRoot, LinksCommitted, BranchOk;
    var root := g.leafs[g.root];
    var proofs := map[x.hash := LinkProof(e, root.links, c)];
    WellFormedLeaf(e, g, g.root);
    RootCounts(e, g);
    CommittedChildrenOk(e, root);
    LinkProofOk(e, root.(links := [x.hash], proofs := proofs), root.links, c);
    ThreeLeaves(e, g);
    StrayPasses(e, order, g, x, [x.hash], proofs);
  }

  lemma ThreeLeaves(e: Suite, g: Graph)
    requires WellFormed(e, g) && |g.leafs[g.root].links| > 1
    ensures |g.leafs| > 2
  {
    hide RootOk, LeafOk, Reachable, Acyclic, LinksRoot;
    var links := g.leafs[g.root].links;
    RootHasNoParent(e, g);
    DistinctCardinality(links);
    assert forall c :: c in Elements(links) ==> c in links;
    SubsetSize(Elements(links) + {g.root}, g.leafs.Keys);
    assert |g.leafs| == |g.leafs.Keys|;
  }

  /** Nor does it check a step up to a parent that commits to one child and has more links: under the root of
      any such DAG of more than two leaves any stranger passes without a proof. */
  lemma UncheckedStepPasses(e: Suite, order: Order, g: Graph, x: Leaf)
    requires WellFormed(e, g) && Stranger(e, g, x) && g.root in g.leafs
    requires |g.leafs[g.root].links| == 1 && |g.leafs| > 2
    ensures
      var p := Stray(g, x, g.leafs[g.root].links + [x.hash], map[]);
      p.root == g.root && Passes(e, order, p) && !Belongs(e, g, p)
  {
    hide WellFormed, Passes, Belongs;
    RootCounts(e, g);
    StrayPasses(e, order, g, x, g.leafs[g.root].links + [x.hash], map[]);
  }

  /** Nor is every leaf of a batch proven: below a parent that came with it and stores proofs of other leaves only,
      any leaf that passes by itself is accepted. */
  lemma UnprovenSiblingAccepted(e: Suite, leafs: map<Hash, Leaf>, batch: Batch, l: Leaf, parent: Leaf)
    requires LeafOk(e, l) && l.hash in batch.relationships && batch.relationships[l.hash] == parent.hash != []
    requires parent.hash in ByHash(batch.leaves) && ByHash(batch.leaves)[parent.hash] == parent
    requires parent.proofs != map[] && l.hash !in parent.proofs
    ensures BatchLeafOk(e, leafs, batch, l)
  {
    hide LeafOk, ChildrenOk, BranchOk, ByHash;
    assert parent.proofs.Keys != {};
    assert |parent.proofs| == |parent.proofs.Keys|;
  }

  // ----- A total that is one too high -----

  /** The root of a well-formed DAG stating one byte more than there is, under the CID over that. */
  function Overstated(e: Suite, root: Leaf): Leaf {
    var size := root.contentSize + 1;
    root.(contentSize := size,
          hash := e.cid(RootIdentity(root.itemName, root.kind, root.classicMerkleRoot, root.currentLinkCount,
                                     root.leafCount, size, root.dagSize, root.contentHash, root.additionalData)))
  }

  /** No well-formed DAG with all its contents passes with a root that overstates its content, though that
      root's hash is its CID. */
  lemma OverstatedFails(e: Suite, order: Order, g: Graph)
    requires WellFormed(e, g) && Countable(g) && g.root in g.leafs
    requires Overstated(e, g.leafs[g.root]).hash !in g.leafs && Overstated(e, g.leafs[g.root]).hash != []
    ensures
      var root, others := g.leafs[g.root], g.leafs - {g.root};
      && Passes(e, order, Under(root, others)) == Passes(e, order, g)
      && RootCidHolds(e, Overstated(e, root)) && !Passes(e, order, Under(Overstated(e, root), others))
  {
    hide WellFormed, RootOk, Passes, ContentSum, SizeSum;
    var root, others := g.leafs[g.root], g.leafs - {g.root};
    var root' := Overstated(e, root);
    var d' := Under(root', others);
    RootPasses(e, g);
    assert Under(root, others) == g;
    RootPassesByTotals(e, g);
    SameContentSum(root, root', others);
    OverstatedCountable(e, g);
    if Passes(e, order, d') {
      PassingTotals(e, order, d');
    }
  }

  lemma OverstatedCountable(e: Suite, g: Graph)
    requires Countable(g) && g.root in g.leafs && Keyed(g.leafs) && g.leafs[g.root].contentSize >= 0
    requires Overstated(e, g.leafs[g.root]).hash !in g.leafs && Overstated(e, g.leafs[g.root]).hash != []
    ensures
      var d := Under(Overstated(e, g.leafs[g.root]), g.leafs - {g.root});
      Countable(d) && Keyed(d.leafs)
  {
    hide Overstated;
    var root, root' := g.leafs[g.root], Overstated(e, g.leafs[g.root]);
    OverstatedFields(e, root);
    RootReplaced(g, root');
  }

  lemma OverstatedFields(e: Suite, root: Leaf)
    ensures Overstated(e, root) == root.(hash := Overstated(e, root).hash, contentSize := root.contentSize + 1)
  {
  }

  /** Another root with the same counts and links in the root's place. */
  lemma RootReplaced(g: Graph, root': Leaf)
    requires Countable(g) && Keyed(g.leafs) && root'.hash !in g.leafs && root'.hash != []
    requires root' == g.leafs[g.root].(hash := root'.hash, contentSize := root'.contentSize) && root'.contentSize > 0
    ensures
      var d := Under(root', g.leafs - {g.root});
      Countable(d) && Keyed(d.leafs)
  {
    var leafs := (g.leafs - {g.root})[root'.hash := root'];
    assert leafs.Keys == g.leafs.Keys - {g.root} + {root'.hash};
    assert |leafs| == |leafs.Keys| && |g.leafs| == |g.leafs.Keys|;
    var root := g.leafs[g.root];
    assert root'.links == root.links && root'.currentLinkCount == root.currentLinkCount;
    assert root'.contentHash == root.contentHash && root'.content == root.content;
    forall h | h in leafs
      ensures leafs[h].hash == h && h != [] && |leafs[h].links| >= leafs[h].currentLinkCount
      ensures leafs[h].contentHash.GetOr([]) != [] ==> leafs[h].content.Some?
    {
      assert leafs[h] == if h == root'.hash then root' else g.leafs[h];
    }
  }

  // ----- A proof of one child only -----

  /** The root stores a valid proof of one of its three children. */
  function HalfProven(): Graph {
    Example(HalfProofs())
  }

  function HalfProofs(): map<Hash, Branch> {
    map[LEFT := LinkProof(ExampleSuite(), Links(), LEFT)]
  }

  lemma OnlyRootLinks(p: Hash)
    requires p in HalfProven().leafs && RIGHT in HalfProven().leafs[p].links
    ensures p == ROOT
  {
  }

  lemma HalfProvenRoot()
    ensures
      var root := HalfProven().leafs[ROOT];
      HalfProven().root == ROOT && |root.links| == 3 && |root.proofs| == 1 && RIGHT !in root.proofs
  {
  }

  /** Sent without a batch size, this well-formed DAG is rejected, though its proof is valid. */
  lemma HalfProvenRejected(packets: seq<Packet>)
    requires IsSequence(ExampleSuite(), true, HalfProven(), FullServes(ExampleSuite()), packets)
    ensures WellFormed(ExampleSuite(), HalfProven())
    ensures StoredProofOk(ExampleSuite(), RootLeaf(HalfProofs()), LEFT)
    ensures ReplayBatches(ExampleSuite(), Singles(packets)) == None
  {
    hide WellFormed, SendOrder, FullServes, ReplayBatches, LinkProof, LinksRoot, BranchOk, Singles, HalfProven;
    var e, g := ExampleSuite(), HalfProven();
    HalfProvenFacts();
    WellFormedAcyclic(e, g);
    WellFormedServes(e, g);
    NotPartial(e, g);
    SendsEachOnce(e, g, FullServes(e));
    var edges := SendOrder(g, FullServes(e));
    SentAt(edges, RIGHT);
    var m :| 0 <= m < |edges| && edges[m].child == RIGHT;
    EdgeFacts(g, FullServes(e), m);
    HalfProvenRoot();
    OnlyRootLinks(edges[m].parent);
    assert !EdgeServed(e, g.leafs, edges[m]);
    SinglesReplay(e, g, packets);
  }

  lemma HalfProvenFacts()
    ensures WellFormed(ExampleSuite(), HalfProven()) && RIGHT in HalfProven().leafs && ROOT in HalfProven().leafs
    ensures StoredProofOk(ExampleSuite(), RootLeaf(HalfProofs()), LEFT)
  {
    hide WellFormed, LinkProof, LinksRoot, BranchOk;
    var e, g := ExampleSuite(), HalfProven();
    ExampleWellFormed(g.leafs[ROOT].proofs);
    WellFormedLeaf(e, g, ROOT);
    CommittedChildrenOk(e, g.leafs[ROOT]);
    LinkProofOk(e, g.leafs[ROOT], Links(), LEFT);
  }

  // ----- Content that does not come back -----

  /** A leaf with content and no content hash is stored with its content apart and fetched without it. */
  lemma UnhashedContentLost()
    ensures
      var l := File(LEFT).(content := Some([0]));
      Fetched(map[LEFT := l.(content := None)], map[LEFT := [0]], true, LEFT) == Some(l.(content := None))
    ensures
      var l := File(LEFT).(content := Some([0]));
      Fetched(map[LEFT := l.(content := None)], map[LEFT := [0]], true, LEFT) != Some(l)
  {
    var l := File(LEFT).(content := Some([0]));
    assert l.content != l.(content := None).content;
  }
}
