/** What verification shows. A DAG that passes under the root of a well-formed DAG is that DAG exactly when
    the parents that full verification passes over would have passed as well; a partial DAG that passes
    belongs to that DAG exactly when each step up has all children to go by, or a proof of this very child,
    or the one child its parent commits to. Hashes are assumed not to collide on what occurs in the DAGs. */
module VerifyLaws {
  import opened ByteStrings
  import opened MerkleSpec
  import opened Sums
  import opened DagModel
  import opened ParentIndex
  import opened Traversal
  import opened DagVerify
  import opened PartialLaws
  import opened DeltaLaws
  import opened Transmission
  import opened Batches
  import B = MerkleBinding

  /** No link is as long as two digests, so none can be taken for the input of a node. */
  ghost predicate ShortLinks(e: Suite, leafs: map<Hash, Leaf>) {
    forall h, c :: h in leafs && c in leafs[h].links ==> |c| != 2 * e.digestLength
  }

  /** The same leaf as far as its CID says: same identity, same links up to order, and the same content when
      both have it at hand. */
  ghost predicate SameCommitted(e: Suite, g: Graph, d: Graph, h: Hash) {
    && h in g.leafs && h in d.leafs && IdOf(g, h) == IdOf(d, h)
    && Elements(g.leafs[h].links) == Elements(d.leafs[h].links) && |g.leafs[h].links| == |d.leafs[h].links|
    && (g.leafs[h].content.Some? && d.leafs[h].content.Some? ==> g.leafs[h].content == d.leafs[h].content)
  }

  ghost predicate Genuine(e: Suite, g: Graph, d: Graph) {
    d.root == g.root && d.leafs.Keys == g.leafs.Keys && forall h :: h in g.leafs ==> SameCommitted(e, g, d, h)
  }

  ghost predicate Visited(d: Graph, order: Order, h: Hash) {
    h in WalkOf(d, order).seen
  }

  /** Some leaf was first reached through h. */
  ghost predicate Led(d: Graph, order: Order, h: Hash) {
    exists i :: 0 <= i < |WalkOf(d, order).visits| && WalkOf(d, order).visits[i].parent == Some(h)
  }

  /** Every leaf is reached and has as many links as it commits to, and where no leaf was first reached
      through it, so that its children are never checked, they would have passed. */
  ghost predicate NothingSkipped(e: Suite, order: Order, d: Graph) {
    forall h :: h in d.leafs ==>
                  && Visited(d, order, h) && |d.leafs[h].links| == d.leafs[h].currentLinkCount
                  && (h != d.root && !Led(d, order, h) ==> ChildrenOk(e, d.leafs[h]))
  }

  // ----- One leaf -----

  /** Leaves of the same identity whose children check out have the same links. */
  lemma SameLinksByRoot(e: Suite, l: Leaf, l': Leaf)
    requires LinksCommitted(e, l) && ChildrenOk(e, l') && |l'.links| == l'.currentLinkCount
    requires l.classicMerkleRoot == l'.classicMerkleRoot && l.currentLinkCount == l'.currentLinkCount
    requires B.FixedLength(Hasher(e)) && TreesDiffer(e, l, l')
    requires forall c :: c in l.links || c in l'.links ==> |c| != 2 * e.digestLength
    ensures Elements(l.links) == Elements(l'.links)
  {
    hide SortedKeys, LinksRoot;
    CommittedChildrenOk(e, l);
    TreeKeysFacts(l.links);
    TreeKeysFacts(l'.links);
    if |l.links| == 1 {
      assert l.links == [l.links[0]] && l'.links == [l'.links[0]];
      CommittedOne(e, l);
    } else if |l.links| > 1 {
      var a, b := TreeKeys(l.links), TreeKeys(l'.links);
      assert forall key :: key in Elements(a) + Elements(b) ==> key in l.links || key in l'.links;
      B.RootBindsKeySet(Hasher(e), a, b);
    }
  }

  lemma CommittedOne(e: Suite, l: Leaf)
    requires LinksCommitted(e, l) && |l.links| == 1
    ensures l.classicMerkleRoot == l.links[0]
  {
  }

  lemma IdFields(e: Suite, g: Graph, d: Graph, h: Hash)
    requires h in g.leafs && h in d.leafs && d.root == g.root && IdOf(g, h) == IdOf(d, h)
    ensures
      var l, l' := g.leafs[h], d.leafs[h];
      && l.classicMerkleRoot == l'.classicMerkleRoot && l.currentLinkCount == l'.currentLinkCount
      && l.contentHash == l'.contentHash
  {
  }

  /** A leaf that passes by itself. */
  ghost predicate PassesAlone(e: Suite, d: Graph, h: Hash) {
    && h in d.leafs && d.leafs[h].hash == h
    && if h == d.root then RootOk(e, d.leafs[h], None) else LeafOk(e, d.leafs[h])
  }

  lemma GenuineAlone(e: Suite, g: Graph, h: Hash)
    requires WellFormed(e, g) && h in g.leafs
    ensures PassesAlone(e, g, h) && LinksCommitted(e, g.leafs[h])
  {
    hide LinksCommitted, Reachable, Acyclic, TotalsOk;
  }

  /** A leaf that passes by itself and occurs in the genuine DAG has its identity and content there. */
  lemma SameIdentityByCid(e: Suite, g: Graph, d: Graph, h: Hash)
    requires WellFormed(e, g) && d.root == g.root && NoClash(e, g, d)
    requires h in g.leafs && PassesAlone(e, d, h)
    ensures IdOf(g, h) == IdOf(d, h)
    ensures g.leafs[h].content.Some? && d.leafs[h].content.Some? ==> g.leafs[h].content == d.leafs[h].content
  {
    hide WellFormed, TreesDiffer, TotalsOk, LinksCommitted;
    GenuineAlone(e, g, h);
    assert e.cid(IdOf(g, h)) == h && e.cid(IdOf(d, h)) == h;
    IdFields(e, g, d, h);
    if g.leafs[h].content.Some? && d.leafs[h].content.Some? {
      SharedContent(e, g.leafs[h], d.leafs[h]);
    }
  }

  // ----- Full verification -----

  /** What full verification of all the leaves comes to when nothing is skipped. */
  ghost predicate Checked(e: Suite, d: Graph, h: Hash) {
    PassesAlone(e, d, h) && |d.leafs[h].links| == d.leafs[h].currentLinkCount && ChildrenOk(e, d.leafs[h])
  }

  lemma VisitedAlone(e: Suite, order: Order, d: Graph, h: Hash)
    requires FullPasses(e, order, d) && Keyed(d.leafs) && h in d.leafs && Visited(d, order, h)
    ensures PassesAlone(e, d, h)
  {
    hide Walk, LeafOk, ChildrenOk, TotalsOk;
    var w := WalkOf(d, order);
    SeenGrows(d.leafs, order, [Visit(d.root, None)], {});
    assert h in w.seen - {};
    var i :| 0 <= i < |w.visits| && w.visits[i].hash == h;
    assert VisitOk(e, d, w.visits[i]);
  }

  lemma RootVisitOk(e: Suite, order: Order, d: Graph)
    requires FullPasses(e, order, d) && d.root in d.leafs && Keyed(d.leafs)
    ensures
      var l := d.leafs[d.root];
      |l.links| == l.currentLinkCount ==> ChildrenOk(e, l)
  {
    hide Walk, LeafOk, TreeRoot, RootOk;
    FirstVisit(d, order);
    assert VisitOk(e, d, WalkOf(d, order).visits[0]);
  }

  lemma LedVisitOk(e: Suite, order: Order, d: Graph, h: Hash)
    requires FullPasses(e, order, d) && Led(d, order, h)
    ensures h in d.leafs && (|d.leafs[h].links| == d.leafs[h].currentLinkCount ==> ChildrenOk(e, d.leafs[h]))
  {
    hide Walk, LeafOk, TreeRoot, RootOk;
    var visits := WalkOf(d, order).visits;
    var i :| 0 <= i < |visits| && visits[i].parent == Some(h);
    assert VisitOk(e, d, visits[i]);
  }

  lemma NothingSkippedChecks(e: Suite, order: Order, d: Graph, h: Hash)
    requires FullPasses(e, order, d) && Keyed(d.leafs) && h in d.leafs && NothingSkipped(e, order, d)
    ensures Checked(e, d, h)
  {
    hide FullPasses, WalkOf, ChildrenOk, RootOk, LeafOk, Led, Visited;
    VisitedAlone(e, order, d, h);
    if h == d.root {
      RootVisitOk(e, order, d);
    } else if Led(d, order, h) {
      LedVisitOk(e, order, d, h);
    }
  }

  lemma CheckedIsGenuine(e: Suite, g: Graph, d: Graph, h: Hash)
    requires WellFormed(e, g) && d.root == g.root && NoClash(e, g, d) && h in g.leafs && Checked(e, d, h)
    requires ShortLinks(e, g.leafs) && ShortLinks(e, d.leafs)
    ensures SameCommitted(e, g, d, h)
  {
    hide WellFormed, RootOk, LeafOk, ChildrenOk, NoClash, ShortLinks, TreesDiffer, LinksCommitted;
    NoClashAt(e, g, d, h);
    SameIdentityByCid(e, g, d, h);
    GenuineAlone(e, g, h);
    IdFields(e, g, d, h);
    SameLinksByRoot(e, g.leafs[h], d.leafs[h]);
    CommittedSize(e, g.leafs[h]);
  }

  lemma CommittedSize(e: Suite, l: Leaf)
    requires LinksCommitted(e, l)
    ensures |l.links| == l.currentLinkCount
  {
  }

  lemma SameMembers(s: seq<Hash>, t: seq<Hash>, c: Hash)
    requires Elements(s) == Elements(t)
    ensures c in s <==> c in t
  {
    assert c in s <==> c in Elements(s);
    assert c in t <==> c in Elements(t);
  }

  /** Every reached leaf is one of the genuine DAG's, when reached leaves are the same in both. */
  lemma ReachedInGenuine(e: Suite, order: Order, g: Graph, d: Graph)
    requires WellFormed(e, g) && d.root == g.root && Rearranges(order)
    requires forall h :: h in g.leafs && h in d.leafs ==> SameCommitted(e, g, d, h)
    ensures WalkOf(d, order).seen <= g.leafs.Keys
  {
    hide RootOk, LeafOk, LinksCommitted, Reachable, Acyclic, Walk;
    forall h, c | h in g.leafs.Keys && h in d.leafs && c in d.leafs[h].links
      ensures c in g.leafs.Keys
    {
      assert SameCommitted(e, g, d, h);
      SameMembers(g.leafs[h].links, d.leafs[h].links, c);
    }
    VisitsStayIn(d.leafs, order, [Visit(d.root, None)], {}, g.leafs.Keys);
    assert {} + g.leafs.Keys == g.leafs.Keys;
  }

  /** A complete walk reaches all the genuine DAG's leaves, when those it reaches are the same in both. */
  lemma GenuineReached(e: Suite, order: Order, g: Graph, d: Graph)
    requires WellFormed(e, g) && d.root == g.root && Rearranges(order) && WalkOf(d, order).complete
    requires forall h :: h in g.leafs && h in d.leafs ==> SameCommitted(e, g, d, h)
    ensures g.leafs.Keys <= WalkOf(d, order).seen <= d.leafs.Keys
  {
    hide RootOk, LeafOk, LinksCommitted, Acyclic, Walk, SameCommitted;
    var todo := [Visit(d.root, None)];
    var seen := WalkOf(d, order).seen;
    SeenGrows(d.leafs, order, todo, {});
    CompleteIsClosed(d.leafs, order, todo, {});
    assert todo[0].hash in seen;
    assert seen - {} == seen;
    forall h, c | h in seen && h in g.leafs && c in g.leafs[h].links
      ensures c in seen
    {
      assert h in seen - {} && h in d.leafs;
      SameLinkSets(e, g, d, h);
      SameMembers(g.leafs[h].links, d.leafs[h].links, c);
    }
    assert ClosedUnderLinks(g.leafs, seen);
    forall h | h in g.leafs
      ensures h in seen
    {
      assert Reachable(g.leafs, g.root, h);
    }
    forall h | h in seen
      ensures h in d.leafs
    {
      assert h in seen - {};
    }
  }

  lemma SameLinkSets(e: Suite, g: Graph, d: Graph, h: Hash)
    requires SameCommitted(e, g, d, h)
    ensures h in g.leafs && h in d.leafs && Elements(g.leafs[h].links) == Elements(d.leafs[h].links)
  {
  }

  /** Leaves that are the same pass the children check in both. */
  lemma GenuineChildrenOk(e: Suite, g: Graph, d: Graph, h: Hash)
    requires WellFormed(e, g) && d.root == g.root && SameCommitted(e, g, d, h)
    ensures |d.leafs[h].links| == d.leafs[h].currentLinkCount && ChildrenOk(e, d.leafs[h])
  {
    hide WellFormed, LinksRoot, SortedKeys;
    WellFormedLeaf(e, g, h);
    IdFields(e, g, d, h);
    var l, l' := g.leafs[h], d.leafs[h];
    CommittedChildrenOk(e, l);
    LessStrictOrder();
    SortedKeysOfSameSet(Less, l.links, l'.links);
    if |l.links| == 1 {
      SameMembers(l.links, l'.links, l.links[0]);
    }
  }

  /** Full verification is exact but for what it passes over: a DAG that passes under a well-formed DAG's root
      is that DAG if and only if nothing that was skipped would have failed. */
  lemma FullVerificationIsSound(e: Suite, order: Order, g: Graph, d: Graph)
    requires WellFormed(e, g) && Keyed(d.leafs) && d.root == g.root && Rearranges(order)
    requires NoClash(e, g, d) && ShortLinks(e, g.leafs) && ShortLinks(e, d.leafs)
    requires FullPasses(e, order, d)
    ensures Genuine(e, g, d) <==> NothingSkipped(e, order, d)
  {
    hide WellFormed, NoClash, ShortLinks, FullPasses, SameCommitted, Checked, Led, ChildrenOk, WalkOf;
    assert WalkOf(d, order).complete by { PassingIsComplete(e, order, d); }
    if NothingSkipped(e, order, d) {
      forall h | h in g.leafs && h in d.leafs
        ensures SameCommitted(e, g, d, h)
      {
        NothingSkippedChecks(e, order, d, h);
        CheckedIsGenuine(e, g, d, h);
      }
      ReachedInGenuine(e, order, g, d);
      GenuineReached(e, order, g, d);
    }
    if Genuine(e, g, d) {
      GenuineReached(e, order, g, d);
      forall h | h in d.leafs
        ensures |d.leafs[h].links| == d.leafs[h].currentLinkCount && ChildrenOk(e, d.leafs[h])
      {
        GenuineChildrenOk(e, g, d, h);
      }
    }
  }

  lemma PassingIsComplete(e: Suite, order: Order, d: Graph)
    requires FullPasses(e, order, d)
    ensures WalkOf(d, order).complete
  {
  }

  // ----- Partial verification -----

  /** Every leaf of p is the one g has under its hash, and its lowest parent in p links it in g too. */
  ghost predicate Belongs(e: Suite, g: Graph, p: Graph) {
    && (forall h :: h in p.leafs ==> IsLeafOf(g, p, h))
    && (forall c, k :: c in p.leafs && c != p.root && IsMinParent(p.leafs, c, k) ==>
                         k in g.leafs && c in g.leafs[k].links)
  }

  ghost predicate IsLeafOf(g: Graph, p: Graph, h: Hash)
    requires h in p.leafs
  {
    && h in g.leafs && IdOf(g, h) == IdOf(p, h)
    && (g.leafs[h].content.Some? && p.leafs[h].content.Some? ==> g.leafs[h].content == p.leafs[h].content)
  }

  /** A proof of c, made of digests, that the parent accepts. */
  ghost predicate ProvesChild(e: Suite, g: Graph, k: Hash, l: Leaf, c: Hash, b: Branch) {
    b.leaf == c && BranchOk(e, l, b) && B.AreDigests(Hasher(e), b.proof.siblings) && ClimbNoClash(e, g, k, c, b)
  }

  /** Checking the proof hashes nothing that clashes with the genuine parent's tree. */
  ghost predicate ClimbNoClash(e: Suite, g: Graph, k: Hash, c: Hash, b: Branch) {
    k in g.leafs && |g.leafs[k].links| > 1 ==>
      B.NoCollision(Hasher(e), B.AllInputs(Hasher(e), TreeKeys(g.leafs[k].links)) + {c}
                               + B.ClimbInputs(Hasher(e), e.hash(c), b.proof.siblings, b.proof.path))
  }

  ghost predicate AllThere(p: Graph, k: Hash)
    requires k in p.leafs
  {
    |p.leafs[k].links| == p.leafs[k].currentLinkCount == Present(p.leafs, p.leafs[k].links)
  }

  /** What it takes to tell that k commits to c: all its children, a proof of c, or the commitment to c
      alone. */
  ghost predicate StepCovers(e: Suite, g: Graph, p: Graph, c: Hash, k: Hash)
    requires k in p.leafs
  {
    var l := p.leafs[k];
    || AllThere(p, k)
    || (l.currentLinkCount > 1 && exists b :: ProvesChild(e, g, k, l, c, b))
    || (l.currentLinkCount == 1 && l.classicMerkleRoot == c)
  }

  ghost predicate StepsCover(e: Suite, g: Graph, p: Graph) {
    forall c, k :: c in p.leafs && c != p.root && IsMinParent(p.leafs, c, k) ==> StepCovers(e, g, p, c, k)
  }

  /** Building the genuine trees hashes nothing that clashes. */
  ghost predicate TreesProper(e: Suite, g: Graph) {
    forall k :: k in g.leafs && |g.leafs[k].links| > 1 ==>
                  B.NoCollision(Hasher(e), B.AllInputs(Hasher(e), TreeKeys(g.leafs[k].links)))
  }

  lemma NoClashAt(e: Suite, g: Graph, p: Graph, k: Hash)
    requires NoClash(e, g, p) && k in g.leafs && k in p.leafs
    requires ShortLinks(e, g.leafs) && ShortLinks(e, p.leafs)
    ensures B.FixedLength(Hasher(e)) && TreesDiffer(e, g.leafs[k], p.leafs[k])
    ensures forall c :: c in g.leafs[k].links || c in p.leafs[k].links ==> |c| != 2 * e.digestLength
  {
    hide CidsDiffer, TreesDiffer;
  }

  /** A child that a covered step leads from to a genuine parent is one of that parent's children. */
  lemma StepIsGenuine(e: Suite, g: Graph, p: Graph, c: Hash, k: Hash)
    requires WellFormed(e, g) && p.root == g.root && NoClash(e, g, p) && k in g.leafs && k in p.leafs
    requires ShortLinks(e, g.leafs) && ShortLinks(e, p.leafs)
    requires IdOf(g, k) == IdOf(p, k) && c in p.leafs && c in p.leafs[k].links
    requires StepOk(e, p.leafs, p.leafs[k], c) && StepCovers(e, g, p, c, k)
    ensures c in g.leafs[k].links
  {
    hide WellFormed, NoClash, ShortLinks, TreesDiffer, LinksCommitted, ChildrenOk, ProvesChild, Present, IdOf, BranchOk;
    var l, l' := g.leafs[k], p.leafs[k];
    NoClashAt(e, g, p, k);
    WellFormedLeaf(e, g, k);
    CommittedSize(e, l);
    IdFields(e, g, p, k);
    if AllThere(p, k) {
      SomeLink(l'.links, c);
      SameLinksByRoot(e, l, l');
      SameMembers(l.links, l'.links, c);
    } else if l'.currentLinkCount == 1 {
      CommittedOne(e, l);
      assert l.links[0] in l.links;
    } else {
      var b :| ProvesChild(e, g, k, l', c, b);
      ProofIsGenuine(e, g, k, l', c, b);
    }
  }

  lemma SomeLink(links: seq<Hash>, c: Hash)
    requires c in links
    ensures |links| > 0
  {
  }

  lemma ProofIsGenuine(e: Suite, g: Graph, k: Hash, l': Leaf, c: Hash, b: Branch)
    requires k in g.leafs && LinksCommitted(e, g.leafs[k]) && |g.leafs[k].links| > 1
    requires g.leafs[k].classicMerkleRoot == l'.classicMerkleRoot
    requires B.FixedLength(Hasher(e)) && ProvesChild(e, g, k, l', c, b) && |c| != 2 * e.digestLength
    requires forall x :: x in g.leafs[k].links ==> |x| != 2 * e.digestLength
    ensures c in g.leafs[k].links
  {
    hide SortedKeys, LinksRoot;
    var l := g.leafs[k];
    var keys := TreeKeys(l.links);
    CommittedChildrenOk(e, l);
    TreeKeysFacts(l.links);
    forall i | 0 <= i < |keys|
      ensures |keys[i]| != 2 * e.digestLength
    {
      assert keys[i] in Elements(keys) && keys[i] in Elements(l.links);
    }
    B.ApartByLength(Hasher(e), keys, c, b.proof.siblings, b.proof.path);
    B.AcceptedKeyIsMember(Hasher(e), keys, c, b.proof.siblings, b.proof.path);
    assert c in Elements(keys);
  }

  /** A genuine child's step is covered: the proof built from the genuine links is accepted. */
  lemma GenuineStepCovers(e: Suite, g: Graph, p: Graph, c: Hash, k: Hash)
    requires WellFormed(e, g) && p.root == g.root && B.FixedLength(Hasher(e)) && TreesProper(e, g)
    requires k in g.leafs && k in p.leafs && IdOf(g, k) == IdOf(p, k) && c in g.leafs[k].links
    ensures StepCovers(e, g, p, c, k)
  {
    hide WellFormed, LinksCommitted, ProvesChild, LinkProof, IdOf, AllThere;
    var l, l' := g.leafs[k], p.leafs[k];
    WellFormedLeaf(e, g, k);
    CommittedSize(e, l);
    IdFields(e, g, p, k);
    SomeLink(l.links, c);
    if |l.links| == 1 {
      CommittedOne(e, l);
    } else {
      GenuineProof(e, g, k, l', c);
    }
  }

  lemma GenuineProof(e: Suite, g: Graph, k: Hash, l': Leaf, c: Hash)
    requires k in g.leafs && LinksCommitted(e, g.leafs[k]) && |g.leafs[k].links| > 1 && c in g.leafs[k].links
    requires g.leafs[k].classicMerkleRoot == l'.classicMerkleRoot
    requires B.FixedLength(Hasher(e)) && TreesProper(e, g)
    ensures ProvesChild(e, g, k, l', c, LinkProof(e, g.leafs[k].links, c))
  {
    hide SortedKeys, LinksRoot, BranchOk;
    var l := g.leafs[k];
    var keys := TreeKeys(l.links);
    var leaves, i := B.KeyLeaves(Hasher(e), keys), IndexOf(keys, c);
    CommittedChildrenOk(e, l);
    TreeKeysFacts(l.links);
    LinkProofOk(e, l', l.links, c);
    B.ProofSiblingsAreDigests(Hasher(e), leaves, i);
    B.ProofInputsAreTreeInputs(Hasher(e), leaves, i);
    var b := LinkProof(e, l.links, c);
    assert leaves[i] == e.hash(c) && c in Elements(keys);
    assert B.AllInputs(Hasher(e), keys) + {c} + B.ClimbInputs(Hasher(e), e.hash(c), b.proof.siblings, b.proof.path)
        == B.AllInputs(Hasher(e), keys);
  }

  /** Down a checked walk whose steps are covered every leaf is genuine. */
  lemma {:induction false} PathIsGenuine(e: Suite, g: Graph, p: Graph, path: seq<Hash>, i: nat)
    requires WellFormed(e, g) && Keyed(p.leafs) && p.root == g.root && p.root in p.leafs && NoClash(e, g, p)
    requires ShortLinks(e, g.leafs) && ShortLinks(e, p.leafs)
    requires StepsCover(e, g, p) && CheckedPath(e, p, path) && i < |path|
    requires forall h :: h in p.leafs ==> PassesAlone(e, p, h)
    requires path[0] in p.leafs
    ensures path[i] in p.leafs && IsLeafOf(g, p, path[i])
    ensures i < |path| - 1 ==> path[i + 1] in g.leafs && path[i] in g.leafs[path[i + 1]].links
    decreases |path| - i
  {
    hide WellFormed, NoClash, ShortLinks, StepCovers, StepOk, LeafOk, RootOk;
    if i == |path| - 1 {
      WellFormedCount(e, g);
      SameIdentityByCid(e, g, p, g.root);
    } else {
      PathIsGenuine(e, g, p, path, i + 1);
      var c, k := path[i], path[i + 1];
      assert UpStep(e, p, c, k);
      if i > 0 {
        assert UpStep(e, p, path[i - 1], c);
      }
      assert c in p.leafs && c in p.leafs[k].links;
      StepIsGenuine(e, g, p, c, k);
      LinkThere(e, g, k, c);
      SameIdentityByCid(e, g, p, c);
    }
  }

  lemma LinkThere(e: Suite, g: Graph, k: Hash, c: Hash)
    requires WellFormed(e, g) && k in g.leafs && c in g.leafs[k].links
    ensures c in g.leafs
  {
  }

  lemma PassingAlone(e: Suite, p: Graph, h: Hash)
    requires PartialPasses(e, p) && Keyed(p.leafs) && h in p.leafs
    ensures PassesAlone(e, p, h) && PathOk(e, p, h)
  {
    hide PathOk, LeafOk, RootStepOk, TotalsOk;
    PathAtRoot(e, p);
  }

  lemma PathFrom(e: Suite, p: Graph, h: Hash) returns (path: seq<Hash>)
    requires PathOk(e, p, h)
    ensures CheckedPath(e, p, path) && |path| > 0 && path[0] == h
  {
    hide UpStep;
    path :| CheckedPath(e, p, path) && path[0] == h;
  }

  /** A leaf of a passing partial whose steps are covered is genuine, and so is its step up. */
  lemma CoveredIsGenuine(e: Suite, g: Graph, p: Graph, h: Hash)
    requires WellFormed(e, g) && Keyed(p.leafs) && p.root == g.root
    requires NoClash(e, g, p) && ShortLinks(e, g.leafs) && ShortLinks(e, p.leafs)
    requires PartialPasses(e, p) && StepsCover(e, g, p) && h in p.leafs
    ensures IsLeafOf(g, p, h)
    ensures forall k :: h != p.root && IsMinParent(p.leafs, h, k) ==> k in g.leafs && h in g.leafs[k].links
  {
    hide WellFormed, NoClash, ShortLinks, StepsCover, PassesAlone, PathOk, IsLeafOf, IsMinParent, LeafOk, StepOk;
    forall k | k in p.leafs
      ensures PassesAlone(e, p, k) && PathOk(e, p, k)
    {
      PassingAlone(e, p, k);
    }
    assert p.root in p.leafs;
    var path := PathFrom(e, p, h);
    PathIsGenuine(e, g, p, path, 0);
    forall k | h != p.root && IsMinParent(p.leafs, h, k)
      ensures k in g.leafs && h in g.leafs[k].links
    {
      assert UpStep(e, p, path[0], path[1]);
      MinParentUnique(p.leafs, h, k, path[1]);
    }
  }

  /** Partial verification is exact but for steps it checks less than it takes: a partial DAG that passes
      under a well-formed DAG's root belongs to that DAG, leaf by leaf and step by step, if and only if every
      step is covered. */
  lemma PartialVerificationIsSound(e: Suite, g: Graph, p: Graph)
    requires WellFormed(e, g) && Keyed(p.leafs) && p.root == g.root
    requires NoClash(e, g, p) && TreesProper(e, g) && ShortLinks(e, g.leafs) && ShortLinks(e, p.leafs)
    requires PartialPasses(e, p)
    ensures Belongs(e, g, p) <==> StepsCover(e, g, p)
  {
    hide WellFormed, NoClash, ShortLinks, TreesProper, PartialPasses, StepCovers, IsMinParent;
    if StepsCover(e, g, p) {
      forall h | h in p.leafs
        ensures IsLeafOf(g, p, h)
        ensures forall k :: h != p.root && IsMinParent(p.leafs, h, k) ==> k in g.leafs && h in g.leafs[k].links
      {
        CoveredIsGenuine(e, g, p, h);
      }
    }
    if Belongs(e, g, p) {
      forall c, k | c in p.leafs && c != p.root && IsMinParent(p.leafs, c, k)
        ensures k in p.leafs && StepCovers(e, g, p, c, k)
      {
        MinParentThere(p.leafs, c, k);
        NoClashFixed(e, g, p);
        GenuineStepCovers(e, g, p, c, k);
      }
    }
  }

  lemma MinParentThere(leafs: map<Hash, Leaf>, c: Hash, k: Hash)
    requires IsMinParent(leafs, c, k)
    ensures k in leafs && c in leafs[k].links
  {
  }

  lemma NoClashFixed(e: Suite, g: Graph, p: Graph)
    requires NoClash(e, g, p)
    ensures B.FixedLength(Hasher(e))
  {
    hide CidsDiffer, TreesDiffer;
  }

  /** What a receiver can see to: at each step all children are there, or a stored proof names the child and
      is made of digests, or the child is the one its parent commits to. */
  ghost predicate ProofsName(e: Suite, g: Graph, p: Graph) {
    forall c, k :: c in p.leafs && c != p.root && IsMinParent(p.leafs, c, k) ==>
                     var l := p.leafs[k];
                     || AllThere(p, k)
                     || (l.currentLinkCount > 1
                         && (c in l.proofs ==>
                               && l.proofs[c].leaf == c && B.AreDigests(Hasher(e), l.proofs[c].proof.siblings)
                               && ClimbNoClash(e, g, k, c, l.proofs[c])))
                     || (l.currentLinkCount == 1 && l.classicMerkleRoot == c)
  }

  /** Where the proofs gone by name their children, a partial DAG that passes belongs to the genuine one. */
  lemma NamedProofsBelong(e: Suite, g: Graph, p: Graph)
    requires WellFormed(e, g) && Keyed(p.leafs) && p.root == g.root
    requires NoClash(e, g, p) && TreesProper(e, g) && ShortLinks(e, g.leafs) && ShortLinks(e, p.leafs)
    requires PartialPasses(e, p) && ProofsName(e, g, p)
    ensures Belongs(e, g, p)
  {
    hide WellFormed, NoClash, ShortLinks, TreesProper, Belongs, IsMinParent, LeafOk, RootOk, ClimbNoClash, BranchOk,
         ChildrenOk, AllThere;
    forall c, k | c in p.leafs && c != p.root && IsMinParent(p.leafs, c, k)
      ensures k in p.leafs && StepCovers(e, g, p, c, k)
    {
      MinParentThere(p.leafs, c, k);
      PathUnfold(e, p, c, k);
      NamedStepCovers(e, g, p, c, k);
    }
    PartialVerificationIsSound(e, g, p);
  }

  lemma NamedStepCovers(e: Suite, g: Graph, p: Graph, c: Hash, k: Hash)
    requires ProofsName(e, g, p) && c in p.leafs && c != p.root && IsMinParent(p.leafs, c, k) && UpStep(e, p, c, k)
    ensures k in p.leafs && StepCovers(e, g, p, c, k)
  {
    hide LeafOk, ClimbNoClash, BranchOk, ChildrenOk, Present;
    var l := p.leafs[k];
    if !AllThere(p, k) && l.currentLinkCount > 1 {
      assert StoredProofOk(e, l, c);
      assert ProvesChild(e, g, k, l, c, l.proofs[c]);
    }
  }

  // ----- Totals -----

  /** The DAG has exactly as many leaves as its root counts, none of them pruned or without its content, and the
      root states a size or is alone. */
  ghost predicate Countable(d: Graph) {
    && d.root in d.leafs
    && var root := d.leafs[d.root];
       && |d.leafs| == root.leafCount && (root.contentSize != 0 || root.dagSize != 0 || root.leafCount == 1)
       && (forall h :: h in d.leafs ==> |d.leafs[h].links| >= d.leafs[h].currentLinkCount)
       && (forall h :: h in d.leafs && d.leafs[h].contentHash.GetOr([]) != [] ==> d.leafs[h].content.Some?)
  }

  /** The lengths of all contents. */
  ghost function ContentSum(d: Graph): nat {
    SumOver(d.leafs.Keys, h => if h in d.leafs then |d.leafs[h].content.GetOr([])| else 0)
  }

  /** What is serialized of a leaf to measure it: all but proofs and parent hash, with its links sorted. */
  function Measured(l: Leaf): Leaf {
    l.(proofs := map[], parentHash := [], links := SortedKeys(Less, l.links))
  }

  function MeasuredSize(e: Suite, l: Leaf): nat {
    e.leafSize(Measured(l))
  }

  /** The lengths of all leaves as they are serialized, and that of the root, which is measured before its own
      total is known. */
  ghost function SizeSum(e: Suite, d: Graph): nat
    requires d.root in d.leafs
  {
    var root := d.leafs[d.root];
    SumOver(d.leafs.Keys - {d.root}, h => if h in d.leafs then MeasuredSize(e, d.leafs[h]) else 0)
    + e.rootSize(RootIdentity(root.itemName, root.kind, root.classicMerkleRoot, root.currentLinkCount, root.leafCount,
                              root.contentSize, 0, root.contentHash, root.additionalData))
  }

  /** A root passes exactly when its hash is its CID, its content hashes to its content hash, and the sizes it
      states are the sums, where they can be counted. */
  lemma RootPassesByTotals(e: Suite, d: Graph)
    requires d.root in d.leafs && d.leafs[d.root].hash == d.root
    ensures
      var root := d.leafs[d.root];
      RootOk(e, root, Some(d.leafs)) <==>
        && RootCidHolds(e, root) && ContentHashed(e, root)
        && (Countable(d) ==> root.contentSize == ContentSum(d) && root.dagSize == SizeSum(e, d))
  {
    var root := d.leafs[d.root];
    ContentSumIs(d);
    SizeSumIs(e, d);
    RootOkIs(e, root, Some(d.leafs));
    hide RootOk, RootCidHolds, ContentHashed, TotalContent, TotalSize, ContentSum, SizeSum;
  }

  lemma RootOkIs(e: Suite, root: Leaf, leafs: Option<map<Hash, Leaf>>)
    ensures RootOk(e, root, leafs) <==>
            RootCidHolds(e, root) && ContentHashed(e, root) && (leafs.Some? ==> TotalsOk(e, leafs.value, root))
  {
    hide TotalsOk;
  }

  lemma ContentSumIs(d: Graph)
    ensures TotalContent(d.leafs) == ContentSum(d)
  {
    SumCongruent(d.leafs.Keys, h => if h in d.leafs then ContentLength(d.leafs[h]) else 0,
                 h => if h in d.leafs then |d.leafs[h].content.GetOr([])| else 0);
  }

  lemma SizeSumIs(e: Suite, d: Graph)
    requires d.root in d.leafs
    ensures
      TotalSize(e, d.leafs, d.root) + e.rootSize(RootIdentityOf(d.leafs[d.root].(dagSize := 0))) == SizeSum(e, d)
  {
    SumCongruent(d.leafs.Keys - {d.root}, h => if h in d.leafs then CountedSize(e, d.leafs[h]) else 0,
                 h => if h in d.leafs then MeasuredSize(e, d.leafs[h]) else 0);
  }

  /** Verification rejects a DAG that can be counted and whose root states other totals than the sums. */
  lemma PassingTotals(e: Suite, order: Order, d: Graph)
    requires d.root in d.leafs && Keyed(d.leafs) && Passes(e, order, d) && Countable(d)
    ensures d.leafs[d.root].contentSize == ContentSum(d) && d.leafs[d.root].dagSize == SizeSum(e, d)
  {
    hide Walk, RootOk, LeafOk, ChildrenOk, ContentSum, SizeSum, PathOk, WalkOf, RootStepOk;
    RootPassesByTotals(e, d);
    assert RootOk(e, d.leafs[d.root], Some(d.leafs)) by {
      if !IsPartial(d) {
        PassingRootOk(e, order, d);
      }
    }
  }

  lemma PassingRootOk(e: Suite, order: Order, d: Graph)
    requires FullPasses(e, order, d) && d.root in d.leafs && Keyed(d.leafs)
    ensures RootOk(e, d.leafs[d.root], Some(d.leafs))
  {
    hide Walk, LeafOk, RootOk, ChildrenOk;
    FirstVisit(d, order);
    assert VisitOk(e, d, WalkOf(d, order).visits[0]);
  }

  /** The DAG of the given leaves under a root. */
  function Under(root: Leaf, others: map<Hash, Leaf>): Graph {
    Graph(root.hash, others[root.hash := root])
  }

  /** Of two roots over the same leaves that differ in the totals they state, and so in their CIDs, at most one
      passes. */
  lemma OneTotalPasses(e: Suite, order: Order, root: Leaf, root': Leaf, others: map<Hash, Leaf>)
    requires Keyed(others) && root.hash != [] && root'.hash != [] && root.hash !in others && root'.hash !in others
    requires root' == root.(hash := root'.hash, contentSize := root'.contentSize, dagSize := root'.dagSize)
    requires Countable(Under(root, others)) && Countable(Under(root', others))
    requires Passes(e, order, Under(root, others)) && Passes(e, order, Under(root', others))
    ensures root'.contentSize == root.contentSize && root'.dagSize == root.dagSize
  {
    hide Countable, Passes, ContentSum, SizeSum;
    var d, d' := Under(root, others), Under(root', others);
    PassingTotals(e, order, d);
    PassingTotals(e, order, d');
    SameContentSum(root, root', others);
    if root'.contentSize == root.contentSize {
      SameSizeSum(e, root, root', others);
    }
  }

  lemma ContentSumUnder(root: Leaf, others: map<Hash, Leaf>)
    requires root.hash !in others
    ensures
      var f: Hash -> nat := h => if h in others then |others[h].content.GetOr([])| else 0;
      ContentSum(Under(root, others)) == |root.content.GetOr([])| + SumOver(others.Keys, f)
  {
    var all := others[root.hash := root];
    assert all.Keys == others.Keys + {root.hash};
    SumExtend(others.Keys, root.hash, h => if h in all then |all[h].content.GetOr([])| else 0,
              h => if h in others then |others[h].content.GetOr([])| else 0);
  }

  lemma SameContentSum(root: Leaf, root': Leaf, others: map<Hash, Leaf>)
    requires root.hash !in others && root'.hash !in others && root.content == root'.content
    ensures ContentSum(Under(root, others)) == ContentSum(Under(root', others))
  {
    hide ContentSum, Under;
    ContentSumUnder(root, others);
    ContentSumUnder(root', others);
  }

  lemma SizeSumUnder(e: Suite, root: Leaf, others: map<Hash, Leaf>)
    requires root.hash !in others
    ensures
      var f: Hash -> nat := h => if h in others then MeasuredSize(e, others[h]) else 0;
      SizeSum(e, Under(root, others)) ==
      SumOver(others.Keys, f)
      + e.rootSize(RootIdentity(root.itemName, root.kind, root.classicMerkleRoot, root.currentLinkCount, root.leafCount,
                                root.contentSize, 0, root.contentHash, root.additionalData))
  {
    hide MeasuredSize;
    var all := others[root.hash := root];
    assert all.Keys - {root.hash} == others.Keys;
    SumCongruent(others.Keys, h => if h in all then MeasuredSize(e, all[h]) else 0,
                 h => if h in others then MeasuredSize(e, others[h]) else 0);
  }

  lemma SameSizeSum(e: Suite, root: Leaf, root': Leaf, others: map<Hash, Leaf>)
    requires root.hash !in others && root'.hash !in others
    requires root' == root.(hash := root'.hash, dagSize := root'.dagSize)
    ensures SizeSum(e, Under(root, others)) == SizeSum(e, Under(root', others))
  {
    hide SizeSum, Under, MeasuredSize;
    SizeSumUnder(e, root, others);
    SizeSumUnder(e, root', others);
  }

  // ----- Receiving -----

  /** The hash of a held leaf is no CID of the genuine leaf under it but by their being the same, and their
      contents' hashes do not clash. */
  ghost predicate HeldNoClash(e: Suite, g: Graph, l: Leaf)
    requires l.hash in g.leafs
  {
    && (e.cid(IdentityOf(l)) == e.cid(IdOf(g, l.hash)) ==> IdentityOf(l) == IdOf(g, l.hash))
    && (e.cid(RootIdentityOf(l)) == e.cid(IdOf(g, l.hash)) ==> RootIdentityOf(l) == IdOf(g, l.hash))
    && (l.content.Some? && g.leafs[l.hash].content.Some? ==>
          B.NoCollision(Hasher(e), {l.content.value, g.leafs[l.hash].content.value}))
  }

  /** A leaf whose hash is its CID is, field by field, the one a well-formed DAG has under that hash. */
  ghost predicate SameFields(g: Graph, l: Leaf)
    requires l.hash in g.leafs
  {
    var l' := g.leafs[l.hash];
    && l.itemName == l'.itemName && l.kind == l'.kind && l.classicMerkleRoot == l'.classicMerkleRoot
    && l.currentLinkCount == l'.currentLinkCount && l.contentHash == l'.contentHash
    && l.additionalData == l'.additionalData
    && (l.hash == g.root ==>
          l.leafCount == l'.leafCount && l.contentSize == l'.contentSize && l.dagSize == l'.dagSize)
    && (l.content.Some? && l'.content.Some? ==> l.content == l'.content)
  }

  lemma SoundIsGenuine(e: Suite, g: Graph, l: Leaf)
    requires WellFormed(e, g) && l.hash in g.leafs && HeldNoClash(e, g, l)
    requires ContentHashed(e, l) && (CidHolds(e, l) || RootCidHolds(e, l))
    ensures SameFields(g, l) && (RootCidHolds(e, l) && !CidHolds(e, l) ==> l.hash == g.root)
    ensures CidHolds(e, l) && !RootCidHolds(e, l) ==> l.hash != g.root
  {
    hide WellFormed, TotalsOk, LinksCommitted;
    GenuineAlone(e, g, l.hash);
    assert e.cid(IdOf(g, l.hash)) == l.hash;
    if l.content.Some? && g.leafs[l.hash].content.Some? {
      assert e.hash(l.content.value) == e.hash(g.leafs[l.hash].content.value);
    }
  }

  /** So an accepted packet's leaf, if its hash is one of a well-formed DAG's, is that DAG's leaf; it came as
      the root exactly when it is the root. */
  lemma AcceptedIsGenuine(e: Suite, g: Graph, leafs: map<Hash, Leaf>, packet: Packet)
    requires WellFormed(e, g) && PacketOk(e, leafs, packet)
    requires packet.leaf.hash in g.leafs && HeldNoClash(e, g, packet.leaf)
    ensures SameFields(g, packet.leaf) && (packet.parentHash == [] <==> packet.leaf.hash == g.root)
  {
    hide WellFormed, PacketOk, HeldNoClash, TotalsOk, LinksCommitted, SameFields;
    AcceptedIsSound(e, leafs, packet);
    SoundIsGenuine(e, g, packet.leaf);
    RootKnown(e, g, packet.leaf);
  }

  /** One hash is not the CID of both kinds of identity. */
  lemma RootKnown(e: Suite, g: Graph, l: Leaf)
    requires WellFormed(e, g) && l.hash in g.leafs && HeldNoClash(e, g, l)
    ensures CidHolds(e, l) ==> l.hash != g.root
    ensures RootCidHolds(e, l) ==> l.hash == g.root
  {
    hide WellFormed, TotalsOk, LinksCommitted;
    GenuineAlone(e, g, l.hash);
    assert e.cid(IdOf(g, l.hash)) == l.hash;
  }

  /** And the same of every leaf of an accepted batch. */
  lemma AcceptedBatchIsGenuine(e: Suite, g: Graph, leafs: map<Hash, Leaf>, batch: Batch, l: Leaf)
    requires WellFormed(e, g) && BatchOk(e, leafs, batch) && l in batch.leaves
    requires l.hash in g.leafs && HeldNoClash(e, g, l)
    ensures SameFields(g, l) && l.hash in batch.relationships
    ensures batch.relationships[l.hash] == [] <==> l.hash == g.root
  {
    hide WellFormed, BatchOk, HeldNoClash, TotalsOk, LinksCommitted, SameFields;
    AcceptedBatchIsSound(e, leafs, batch);
    SoundIsGenuine(e, g, l);
    RootKnown(e, g, l);
  }

  /** Whatever packets it was sent, a receiver holds no other leaf under a genuine DAG's hash than that DAG's. */
  lemma HeldIsGenuine(e: Suite, g: Graph, leafs: map<Hash, Leaf>, h: Hash)
    requires WellFormed(e, g) && HeldSound(e, leafs) && h in leafs && h in g.leafs
    requires leafs[h].hash == h ==> HeldNoClash(e, g, leafs[h])
    ensures leafs[h].hash == h && SameFields(g, leafs[h])
  {
    hide WellFormed, HeldNoClash, SameFields, CidHolds, RootCidHolds, ContentHashed;
    SoundIsGenuine(e, g, leafs[h]);
  }

  /** A proof that names the child it is for, and does not clash with the genuine parent's tree. */
  ghost predicate Names(e: Suite, g: Graph, p: Hash, c: Hash, b: Branch) {
    b.leaf == c && B.AreDigests(Hasher(e), b.proof.siblings) && ClimbNoClash(e, g, p, c, b)
  }

  /** A held parent that commits to what the genuine one of several children does. */
  ghost predicate Commits(e: Suite, g: Graph, p: Hash, l: Leaf) {
    && p in g.leafs && |g.leafs[p].links| > 1
    && l.classicMerkleRoot == g.leafs[p].classicMerkleRoot && l.currentLinkCount == g.leafs[p].currentLinkCount
    && forall c :: c in g.leafs[p].links ==> |c| != 2 * e.digestLength
  }

  /** The check of a packet's proof: a child accepted below a genuine parent, with a proof that names it, is one
      of that parent's children. */
  lemma AcceptedChildIsGenuine(e: Suite, g: Graph, leafs: map<Hash, Leaf>, packet: Packet)
    requires WellFormed(e, g) && PacketOk(e, leafs, packet) && B.FixedLength(Hasher(e))
    requires packet.parentHash != [] && packet.parentHash in leafs && |leafs[packet.parentHash].links| > 1
    requires Commits(e, g, packet.parentHash, leafs[packet.parentHash]) && |packet.leaf.hash| != 2 * e.digestLength
    requires packet.leaf.hash in packet.proofs ==>
               Names(e, g, packet.parentHash, packet.leaf.hash, packet.proofs[packet.leaf.hash])
    ensures packet.leaf.hash in g.leafs[packet.parentHash].links
  {
    hide WellFormed, LeafOk, ClimbNoClash, LinksCommitted, BranchOk;
    var p, c := packet.parentHash, packet.leaf.hash;
    WellFormedLeaf(e, g, p);
    assert ProvesChild(e, g, p, leafs[p], c, packet.proofs[c]);
    ProofIsGenuine(e, g, p, leafs[p], c, packet.proofs[c]);
  }

  /** The parent a batch's leaf is checked against. */
  ghost predicate ChecksAgainst(leafs: map<Hash, Leaf>, batch: Batch, l: Leaf, parent: Leaf) {
    l.hash in batch.relationships && ParentOf(leafs, ByHash(batch.leaves), batch.relationships[l.hash]) == Some(parent)
  }

  /** The check of a batch: a leaf accepted below a genuine parent that stores a proof naming it, or stores no
      proof and links it, is one of that parent's children. */
  lemma AcceptedBatchChildIsGenuine(e: Suite, g: Graph, leafs: map<Hash, Leaf>, batch: Batch, l: Leaf, parent: Leaf)
    requires WellFormed(e, g) && BatchOk(e, leafs, batch) && l in batch.leaves && B.FixedLength(Hasher(e))
    requires ChecksAgainst(leafs, batch, l, parent) && batch.relationships[l.hash] != [] && |parent.links| > 1
    requires Commits(e, g, batch.relationships[l.hash], parent) && |l.hash| != 2 * e.digestLength
    requires
      var p := batch.relationships[l.hash];
      || (parent.proofs == map[] && l.hash in parent.links && TreesDiffer(e, g.leafs[p], parent)
          && forall c :: c in parent.links ==> |c| != 2 * e.digestLength)
      || (l.hash in parent.proofs && Names(e, g, p, l.hash, parent.proofs[l.hash]))
    ensures l.hash in g.leafs[batch.relationships[l.hash]].links
  {
    hide WellFormed, LeafOk, ClimbNoClash, LinksCommitted, BranchOk, ByHash, TreesDiffer, ChildrenOk;
    var p, c := batch.relationships[l.hash], l.hash;
    WellFormedLeaf(e, g, p);
    var i :| 0 <= i < |batch.leaves| && batch.leaves[i] == l;
    assert BatchLeafOk(e, leafs, batch, batch.leaves[i]);
    assert |parent.proofs| == |parent.proofs.Keys|;
    if parent.proofs == map[] {
      CommittedSize(e, g.leafs[p]);
      ChildrenCounted(e, parent);
      SameLinksByRoot(e, g.leafs[p], parent);
      SameMembers(g.leafs[p].links, parent.links, c);
    } else {
      assert c in parent.proofs.Keys;
      assert ProvesChild(e, g, p, parent, c, parent.proofs[c]);
      ProofIsGenuine(e, g, p, parent, c, parent.proofs[c]);
    }
  }

  lemma ChildrenCounted(e: Suite, l: Leaf)
    requires ChildrenOk(e, l) && l.currentLinkCount != 0
    ensures |l.links| == l.currentLinkCount
  {
    hide TreeRoot;
  }
}
