/** Delta sync: from a partial DAG of the added leaves, a receiver that holds the old DAG finds the same
    differences as the sender and rebuilds the new DAG. Hashes are assumed not to collide on what
    occurs in the two DAGs. */
module DeltaLaws {
  import opened ByteStrings
  import opened DagModel
  import Sums
  import opened ParentIndex
  import opened Partial
  import opened PartialLaws
  import opened Diff
  import B = MerkleBinding

  // ----- Leaves that two DAGs share -----

  function IdOf(g: Graph, h: Hash): Identity
    requires h in g.leafs
  {
    if h == g.root then RootIdentityOf(g.leafs[h]) else IdentityOf(g.leafs[h])
  }

  ghost predicate CidsDiffer(e: Suite, a: Graph, b: Graph) {
    forall h, k :: h in a.leafs && k in b.leafs && e.cid(IdOf(a, h)) == e.cid(IdOf(b, k)) ==> IdOf(a, h) == IdOf(b, k)
  }

  ghost predicate TreesDiffer(e: Suite, l: Leaf, l': Leaf) {
    && (|l.links| > 1 && |l'.links| > 1 ==>
          B.NoCollision(Hasher(e), B.AllInputs(Hasher(e), TreeKeys(l.links))
              + B.AllInputs(Hasher(e), TreeKeys(l'.links))))
    && (l.content.Some? && l'.content.Some? ==> B.NoCollision(Hasher(e), {l.content.value, l'.content.value}))
  }

  /** No two different inputs that occur in the DAGs have the same hash or CID. */
  ghost predicate NoClash(e: Suite, a: Graph, b: Graph) {
    && CidsDiffer(e, a, b) && B.FixedLength(Hasher(e))
    && forall h :: h in a.leafs && h in b.leafs ==> TreesDiffer(e, a.leafs[h], b.leafs[h])
  }

  /** Leaves that agree on what their CID commits to: everything but proofs, the parent hash, the order
      of the links, and whether the content is at hand. */
  ghost predicate Agree(l: Leaf, l': Leaf) {
    && l.hash == l'.hash && IdentityOf(l) == IdentityOf(l') && l.leafCount == l'.leafCount
    && Elements(l.links) == Elements(l'.links) && |l.links| == |l'.links|
    && (l.content.Some? && l'.content.Some? ==> l.content == l'.content)
  }

  lemma SharedLinks(e: Suite, l: Leaf, l': Leaf)
    requires LinksCommitted(e, l) && LinksCommitted(e, l')
    requires IdentityOf(l) == IdentityOf(l') && B.FixedLength(Hasher(e)) && TreesDiffer(e, l, l')
    ensures Elements(l.links) == Elements(l'.links) && |l.links| == |l'.links|
  {
    hide TreeRoot, SortedKeys, LinksRoot;
    CommittedChildrenOk(e, l');
    assert l.classicMerkleRoot == l'.classicMerkleRoot && l.currentLinkCount == l'.currentLinkCount;
    ChildrenCheckIsExact(e, l, l'.links);
  }

  lemma SharedContent(e: Suite, l: Leaf, l': Leaf)
    requires ContentOk(e, l) && ContentOk(e, l') && l.contentHash == l'.contentHash && TreesDiffer(e, l, l')
    requires l.content.Some? && l'.content.Some?
    ensures l.content == l'.content
  {
  }

  /** A hash that occurs in both DAGs names the same leaf. */
  lemma SharedLeafAgrees(e: Suite, a: Graph, b: Graph, h: Hash)
    requires WellFormed(e, a) && WellFormed(e, b) && NoClash(e, a, b) && h in a.leafs && h in b.leafs
    ensures (h == a.root <==> h == b.root) && Agree(a.leafs[h], b.leafs[h])
  {
    hide LinksCommitted, Reachable, Acyclic, TotalsOk, TreesDiffer;
    var l, l' := a.leafs[h], b.leafs[h];
    assert e.cid(IdOf(a, h)) == h && e.cid(IdOf(b, h)) == h;
    assert IdOf(a, h) == IdOf(b, h);
    assert IdentityOf(l) == IdentityOf(l');
    SharedLinks(e, l, l');
    if l.content.Some? && l'.content.Some? {
      SharedContent(e, l, l');
    }
  }

  /** Different roots: the new root is among the added leaves. Same root: nothing is added. */
  lemma AddedIfRootDiffers(e: Suite, a: Graph, b: Graph)
    requires WellFormed(e, a) && WellFormed(e, b) && NoClash(e, a, b)
    ensures a.root != b.root ==> b.root !in a.leafs
    ensures a.root == b.root ==> b.leafs.Keys <= a.leafs.Keys
  {
    hide RootOk, LeafOk, LinksCommitted, NoClash, Acyclic;
    if b.root in a.leafs {
      SharedLeafAgrees(e, a, b, b.root);
    }
    if a.root == b.root {
      var shared := a.leafs.Keys * b.leafs.Keys;
      forall h, c | h in shared && h in b.leafs && c in b.leafs[h].links
        ensures c in shared
      {
        SharedLeafAgrees(e, a, b, h);
        assert c in Elements(b.leafs[h].links);
      }
      assert ClosedUnderLinks(b.leafs, shared);
      forall h | h in b.leafs
        ensures h in a.leafs
      {
        assert Reachable(b.leafs, b.root, h);
      }
    }
  }

  // ----- The partial DAG for the added leaves -----

  /** p is the unpruned partial of b for the leaves a lacks. */
  ghost predicate DeltaPartial(e: Suite, a: Graph, b: Graph, requested: seq<Hash>, p: Graph) {
    && Elements(requested) == b.leafs.Keys - a.leafs.Keys
    && IsPartialOf(e, b, requested, false, p)
  }

  /** Leaves with all their links, added ones among them. */
  ghost predicate Covers(a: Graph, b: Graph, p: Graph) {
    && p.root == b.root && b.root in p.leafs && b.leafs.Keys - a.leafs.Keys <= p.leafs.Keys <= b.leafs.Keys
    && forall h :: h in p.leafs ==> SameLeaf(b.leafs[h], p.leafs[h])
  }

  lemma DeltaCovers(e: Suite, a: Graph, b: Graph, requested: seq<Hash>, p: Graph)
    requires WellFormed(e, b) && DeltaPartial(e, a, b, requested, p) && b.root !in a.leafs && b.root in b.leafs
    ensures Covers(a, b, p)
  {
    hide WellFormed, IsPartialOf, Acyclic;
    PartialRoot(e, b, requested, false, p);
    forall h | h in b.leafs && h !in a.leafs
      ensures h in p.leafs && b.root in p.leafs
    {
      assert h in Elements(requested);
      RootRequested(e, b, requested, false, p, h);
    }
    forall h | h in p.leafs
      ensures SameLeaf(b.leafs[h], p.leafs[h])
    {
      UnprunedSame(e, b, requested, p, h);
    }
  }

  lemma UnprunedSame(e: Suite, g: Graph, requested: seq<Hash>, p: Graph, h: Hash)
    requires IsPartialOf(e, g, requested, false, p) && h in p.leafs
    ensures SameLeaf(g.leafs[h], p.leafs[h])
  {
    hide LinkProof, KeysOf, SameLeaf, LastChild;
    assert PartialLeaf(e, p.leafs.Keys, false, g.leafs[h], LastChild(g, requested, h), p.leafs[h]);
  }

  // ----- What the receiver finds -----

  /** Every leaf of b is in the pool, with the same set of links. */
  ghost predicate PoolOf(b: Graph, pool: map<Hash, Leaf>) {
    forall h :: h in b.leafs ==> h in pool && Agree(b.leafs[h], pool[h])
  }

  lemma AgreeSame(l: Leaf, l': Leaf)
    requires SameLeaf(l, l')
    ensures Agree(l, l')
  {
    var x, y := l.(proofs := map[]), l'.(proofs := map[]);
    assert x.hash == y.hash && x.itemName == y.itemName && x.kind == y.kind && x.links == y.links;
    assert x.contentHash == y.contentHash && x.content == y.content && x.leafCount == y.leafCount;
    assert x.classicMerkleRoot == y.classicMerkleRoot && x.currentLinkCount == y.currentLinkCount;
    assert x.additionalData == y.additionalData;
  }

  lemma AgreeLinks(l: Leaf, l': Leaf, c: Hash)
    requires Agree(l, l')
    ensures c in l.links <==> c in l'.links
  {
    assert c in l.links <==> c in Elements(l.links);
    assert c in l'.links <==> c in Elements(l'.links);
  }

  lemma PoolCovers(e: Suite, a: Graph, b: Graph, p: Graph, some: map<Hash, Leaf>)
    requires WellFormed(e, a) && WellFormed(e, b) && NoClash(e, a, b) && Covers(a, b, p)
    requires b.leafs.Keys - a.leafs.Keys <= some.Keys <= p.leafs.Keys
    requires forall h :: h in some ==> some[h] == p.leafs[h]
    ensures PoolOf(b, a.leafs + some)
  {
    hide WellFormed, NoClash, Agree, SameLeaf;
    var pool := a.leafs + some;
    forall h | h in b.leafs
      ensures h in pool && Agree(b.leafs[h], pool[h])
    {
      if h in some {
        AgreeSame(b.leafs[h], p.leafs[h]);
      } else {
        SharedLeafAgrees(e, a, b, h);
        AgreeSwap(a.leafs[h], b.leafs[h]);
      }
    }
  }

  lemma AgreeSwap(l: Leaf, l': Leaf)
    requires Agree(l, l')
    ensures Agree(l', l)
  {
  }

  /** The hashes reachable from the new root in the pool are those of the new DAG. */
  lemma PoolReaches(e: Suite, b: Graph, pool: map<Hash, Leaf>, h: Hash)
    requires WellFormed(e, b) && PoolOf(b, pool)
    ensures Reachable(pool, b.root, h) <==> h in b.leafs
  {
    hide RootOk, LeafOk, LinksCommitted, Acyclic;
    forall x, c | x in b.leafs && c in pool[x].links
      ensures c in b.leafs[x].links
    {
      assert c in Elements(pool[x].links);
    }
    assert ClosedUnderLinks(pool, b.leafs.Keys);
    if h in b.leafs {
      assert Reachable(b.leafs, b.root, h);
      forall s: set<Hash> | b.root in s && ClosedUnderLinks(pool, s)
        ensures h in s
      {
        var inB := s * b.leafs.Keys;
        forall x, c | x in inB && c in b.leafs[x].links
          ensures c in inB
        {
          assert c in Elements(b.leafs[x].links) && c in pool[x].links;
        }
        assert ClosedUnderLinks(b.leafs, inB);
      }
    }
  }

  /** Only the root of the partial has a leaf count. */
  lemma PartialHasOneRoot(e: Suite, a: Graph, b: Graph, p: Graph)
    requires WellFormed(e, b) && Covers(a, b, p)
    ensures forall h :: h in p.leafs ==> (p.leafs[h].leafCount > 0 <==> h == b.root)
  {
    hide RootOk, LeafOk, LinksCommitted, Acyclic, Reachable, SameLeaf;
    assert b.leafs.Keys != {};
    assert |b.leafs| == |b.leafs.Keys|;
    forall h | h in p.leafs
      ensures p.leafs[h].leafCount == b.leafs[h].leafCount
    {
      AgreeSame(b.leafs[h], p.leafs[h]);
    }
  }

  /** The receiver picks the new root, finds the same leaves added and the same leaves removed. */
  lemma ReceiverDiff(e: Suite, a: Graph, b: Graph, p: Graph, root: Option<Hash>, reached: set<Hash>)
    requires WellFormed(e, a) && WellFormed(e, b) && NoClash(e, a, b) && Covers(a, b, p)
    requires PickedRoot(p.leafs, root) && ReachedFrom(a.leafs + p.leafs, root, reached)
    ensures root == Some(b.root) && reached == b.leafs.Keys
    ensures (p.leafs - a.leafs.Keys).Keys == (b.leafs - a.leafs.Keys).Keys
    ensures a.leafs - reached == a.leafs - b.leafs.Keys
  {
    hide WellFormed, NoClash, Reachable, PoolOf, SameLeaf;
    PartialHasOneRoot(e, a, b, p);
    PoolCovers(e, a, b, p, p.leafs);
    forall h
      ensures h in reached <==> h in b.leafs
    {
      PoolReaches(e, b, a.leafs + p.leafs, h);
    }
  }

  /** The same changes, up to proofs of the leaves, and the same counts. */
  ghost predicate SameDiff(d: DagDiff, d': DagDiff) {
    && d.diffs.Keys == d'.diffs.Keys && d.added == d'.added && d.removed == d'.removed && d.total == d'.total
    && forall h :: h in d.diffs ==> SameEntry(d.diffs[h], d'.diffs[h])
  }

  lemma SameChanges(diff: DagDiff, diff': DagDiff, leafs: map<Hash, Leaf>, leafs': map<Hash, Leaf>, change: Change)
    requires SameDiff(diff, diff') && leafs.Keys == leafs'.Keys && forall h :: h in leafs ==>
             SameLeaf(leafs[h], leafs'[h])
    ensures SameDiff(Recorded(diff, leafs, change), Recorded(diff', leafs', change))
  {
    hide SameLeaf, Recorded, Changes, SameEntry;
    assert |leafs| == |leafs.Keys| && |leafs'| == |leafs'.Keys|;
    RecordedFields(diff, leafs, change);
    RecordedFields(diff', leafs', change);
    ChangesSame(leafs, leafs', change);
    SameUnion(diff.diffs, diff'.diffs, Changes(leafs, change), Changes(leafs', change));
  }

  lemma ChangesSame(leafs: map<Hash, Leaf>, leafs': map<Hash, Leaf>, change: Change)
    requires leafs.Keys == leafs'.Keys && forall h :: h in leafs ==> SameLeaf(leafs[h], leafs'[h])
    ensures Changes(leafs, change).Keys == Changes(leafs', change).Keys
    ensures forall h :: h in Changes(leafs, change) ==> SameEntry(Changes(leafs, change)[h], Changes(leafs', change)[h])
  {
    hide SameLeaf;
  }

  ghost predicate SameEntry(d: LeafDiff, d': LeafDiff) {
    d.change == d'.change && d.hash == d'.hash && SameLeaf(d.leaf, d'.leaf)
  }

  lemma SameUnion(d: map<Hash, LeafDiff>, d': map<Hash, LeafDiff>, c: map<Hash, LeafDiff>, c': map<Hash, LeafDiff>)
    requires d.Keys == d'.Keys && c.Keys == c'.Keys
    requires (forall h :: h in d ==> SameEntry(d[h], d'[h])) && (forall h :: h in c ==> SameEntry(c[h], c'[h]))
    ensures (d + c).Keys == (d' + c').Keys && forall h :: h in d + c ==> SameEntry((d + c)[h], (d' + c')[h])
  {
    hide SameEntry;
  }

  /** `DiffFromNewLeaves` on the partial's leaves gives what `Diff` gives on the DAGs. */
  lemma SameDifferences(e: Suite, a: Graph, b: Graph, p: Graph, root: Option<Hash>, reached: set<Hash>)
    requires WellFormed(e, a) && WellFormed(e, b) && NoClash(e, a, b) && Covers(a, b, p)
    requires PickedRoot(p.leafs, root) && ReachedFrom(a.leafs + p.leafs, root, reached)
    ensures SameDiff(DiffOf(a.leafs, b.leafs),
                     Recorded(Recorded(NO_DIFF, p.leafs - a.leafs.Keys, Added), a.leafs - reached, Removed))
  {
    hide WellFormed, NoClash, PickedRoot, ReachedFrom, Recorded, SameLeaf;
    ReceiverDiff(e, a, b, p, root, reached);
    forall h | h in a.leafs
      ensures SameLeaf(a.leafs[h], a.leafs[h])
    {
      SameRefl(a.leafs[h]);
    }
    var added, added' := b.leafs - a.leafs.Keys, p.leafs - a.leafs.Keys;
    assert forall h :: h in added ==> h in added' && SameLeaf(added[h], added'[h]);
    SameChanges(NO_DIFF, NO_DIFF, added, added', Added);
    SameChanges(Recorded(NO_DIFF, added, Added), Recorded(NO_DIFF, added', Added), a.leafs - b.leafs.Keys,
        a.leafs - reached, Removed);
  }

  lemma SameRefl(l: Leaf)
    ensures SameLeaf(l, l)
  {
  }

  // ----- What the receiver rebuilds -----

  /** The receiver's diff: the partial's new leaves added, what b lacks removed. */
  function ReceiverDelta(a: Graph, b: Graph, p: Graph): DagDiff {
    Recorded(Recorded(NO_DIFF, p.leafs - a.leafs.Keys, Added), a.leafs - b.leafs.Keys, Removed)
  }

  lemma DeltaParts(e: Suite, a: Graph, b: Graph, p: Graph)
    requires Covers(a, b, p) && b.root !in a.leafs
    ensures
      var diff := ReceiverDelta(a, b, p);
      && AddedLeaves(diff) == p.leafs - a.leafs.Keys && diff.added > 0
  {
    hide Recorded, SameLeaf, AddedLeaves;
    var added, removed := p.leafs - a.leafs.Keys, a.leafs - b.leafs.Keys;
    DiffParts(a.leafs, added, removed);
    assert b.root in added.Keys;
    assert |added| == |added.Keys|;
  }

  /** The only candidate for the new root is the new root. */
  lemma DeltaRoot(e: Suite, a: Graph, b: Graph, p: Graph, h: Hash)
    requires WellFormed(e, a) && WellFormed(e, b) && Covers(a, b, p) && b.root !in a.leafs
    ensures NewRoot(ReceiverDelta(a, b, p), a.leafs, h) <==> h == b.root
  {
    hide RootOk, LeafOk, LinksCommitted, Reachable, Acyclic, SameLeaf, AddedLeaves, ReceiverDelta;
    DeltaParts(e, a, b, p);
    PartialHasOneRoot(e, a, b, p);
    var diff := ReceiverDelta(a, b, p);
    var pool := Pool(diff, a.leafs);
    RootHasNoParent(e, b);
    forall k | k in pool
      ensures b.root !in pool[k].links
    {
      if k in p.leafs && k !in a.leafs {
        AgreeSame(b.leafs[k], p.leafs[k]);
        AgreeLinks(b.leafs[k], p.leafs[k], b.root);
      }
    }
  }

  /** Same root, same hashes, and leaf by leaf the same identity, links and content. */
  ghost predicate Rebuilds(b: Graph, r: Graph) {
    && r.root == b.root && r.leafs.Keys == b.leafs.Keys
    && forall h :: h in b.leafs ==> Agree(b.leafs[h], r.leafs[h])
  }

  /** Applying the receiver's diff to the old DAG gives the new one; no leaf is missing. */
  lemma DeltaApplies(e: Suite, a: Graph, b: Graph, p: Graph)
    requires WellFormed(e, a) && WellFormed(e, b) && NoClash(e, a, b) && Covers(a, b, p) && b.root !in a.leafs
    ensures
      var pool := Pool(ReceiverDelta(a, b, p), a.leafs);
      && (forall h :: Reachable(pool, b.root, h) ==> h in pool)
      && forall r: Graph :: r.root == b.root && Holds(pool, r) ==> Rebuilds(b, r)
  {
    hide WellFormed, NoClash, Reachable, Agree, ReceiverDelta, AddedLeaves, SameLeaf;
    DeltaParts(e, a, b, p);
    PoolCovers(e, a, b, p, p.leafs - a.leafs.Keys);
    var pool := Pool(ReceiverDelta(a, b, p), a.leafs);
    forall h
      ensures Reachable(pool, b.root, h) <==> h in b.leafs
    {
      PoolReaches(e, b, pool, h);
    }
  }

  // ----- The rebuilt DAG verifies -----

  /** Nothing but proofs, the parent hash and the order of the links differs. */
  ghost predicate SameBody(l: Leaf, l': Leaf) {
    Agree(l, l') && l.content == l'.content && l.contentSize == l'.contentSize && l.dagSize == l'.dagSize
  }

  /** The copies the two DAGs hold of a leaf do not differ in what no CID commits to: whether the
      content is at hand, and the sizes noted on a leaf that is not the root. */
  ghost predicate SharedBodies(a: Graph, b: Graph) {
    forall h :: h in a.leafs && h in b.leafs ==> SameBody(b.leafs[h], a.leafs[h])
  }

  lemma SameBodyFields(e: Suite, l: Leaf, l': Leaf)
    requires SameBody(l, l')
    ensures CountedSize(e, l) == CountedSize(e, l') && ContentLength(l) == ContentLength(l')
    ensures LeafOk(e, l) == LeafOk(e, l') && ContentOk(e, l) == ContentOk(e, l')
    ensures RootIdentityOf(l) == RootIdentityOf(l') && l.contentHash == l'.contentHash
    ensures RootIdentityOf(l.(dagSize := 0)) == RootIdentityOf(l'.(dagSize := 0))
    ensures l.currentLinkCount == l'.currentLinkCount
  {
    var i, i' := IdentityOf(l), IdentityOf(l');
    assert i.itemName == i'.itemName && i.kind == i'.kind && i.merkleRoot == i'.merkleRoot
           && i.linkCount == i'.linkCount;
    assert i.contentHash == i'.contentHash && i.additionalData == i'.additionalData;
    LessStrictOrder();
    SortedKeysOfSameSet(Less, l.links, l'.links);
    hide SortedKeys;
    assert Counted(l) == Counted(l');
  }

  lemma SameBodiesTotals(e: Suite, g: Graph, r: Graph, root: Hash)
    requires r.leafs.Keys == g.leafs.Keys && forall h :: h in g.leafs ==> SameBody(g.leafs[h], r.leafs[h])
    ensures TotalContent(g.leafs) == TotalContent(r.leafs) && TotalSize(e, g.leafs, root) == TotalSize(e, r.leafs, root)
  {
    hide SameBody, Counted, CountedSize, ContentLength;
    forall h | h in g.leafs
      ensures CountedSize(e, g.leafs[h]) == CountedSize(e, r.leafs[h])
      ensures ContentLength(g.leafs[h]) == ContentLength(r.leafs[h])
    {
      SameBodyFields(e, g.leafs[h], r.leafs[h]);
    }
    Sums.SumCongruent(g.leafs.Keys, h => if h in g.leafs then ContentLength(g.leafs[h]) else 0,
                      h => if h in r.leafs then ContentLength(r.leafs[h]) else 0);
    Sums.SumCongruent(g.leafs.Keys - {root}, h => if h in g.leafs then CountedSize(e, g.leafs[h]) else 0,
                      h => if h in r.leafs then CountedSize(e, r.leafs[h]) else 0);
  }

  lemma SameBodiesRootOk(e: Suite, g: Graph, r: Graph)
    requires g.root in g.leafs && r.leafs.Keys == g.leafs.Keys
    requires forall h :: h in g.leafs ==> SameBody(g.leafs[h], r.leafs[h])
    requires RootOk(e, g.leafs[g.root], Some(g.leafs))
    ensures RootOk(e, r.leafs[g.root], Some(r.leafs))
  {
    hide TotalContent, TotalSize, CanTotal;
    var root, root' := g.leafs[g.root], r.leafs[g.root];
    SameBodyFields(e, root, root');
    SameBodiesTotals(e, g, r, root.hash);
    SameBodiesCanTotal(e, g, r, root, root');
  }

  lemma SameBodiesCanTotal(e: Suite, g: Graph, r: Graph, root: Leaf, root': Leaf)
    requires r.leafs.Keys == g.leafs.Keys && forall h :: h in g.leafs ==> SameBody(g.leafs[h], r.leafs[h])
    requires SameBody(root, root')
    ensures CanTotal(g.leafs, root) == CanTotal(r.leafs, root')
  {
    forall h | h in g.leafs
      ensures |g.leafs[h].links| == |r.leafs[h].links| && g.leafs[h].currentLinkCount == r.leafs[h].currentLinkCount
      ensures g.leafs[h].content == r.leafs[h].content && g.leafs[h].contentHash == r.leafs[h].contentHash
    {
      SameBodyFields(e, g.leafs[h], r.leafs[h]);
    }
    hide SameBody;
    assert |g.leafs| == |g.leafs.Keys| && |r.leafs| == |r.leafs.Keys|;
  }

  lemma SameBodiesPool(g: Graph, r: Graph)
    requires r.leafs.Keys == g.leafs.Keys && forall h :: h in g.leafs ==> SameBody(g.leafs[h], r.leafs[h])
    ensures PoolOf(g, r.leafs)
    ensures forall h :: h in g.leafs ==>
            g.leafs[h].hash == r.leafs[h].hash && g.leafs[h].leafCount == r.leafs[h].leafCount
  {
  }

  lemma SameBodiesLinks(g: Graph, r: Graph)
    requires r.leafs.Keys == g.leafs.Keys && forall h :: h in g.leafs ==> SameBody(g.leafs[h], r.leafs[h])
    ensures forall h, c :: h in g.leafs && c in r.leafs[h].links ==> c in g.leafs[h].links
    ensures Acyclic(g.leafs) ==> Acyclic(r.leafs)
  {
    forall h, c | h in g.leafs && c in r.leafs[h].links
      ensures c in g.leafs[h].links
    {
      AgreeLinks(g.leafs[h], r.leafs[h], c);
    }
    hide SameBody;
    if Acyclic(g.leafs) {
      var rank :| Ranked(g.leafs, rank);
      assert Ranked(r.leafs, rank);
    }
  }

  lemma SameBodiesWellFormed(e: Suite, g: Graph, r: Graph)
    requires WellFormed(e, g) && r.root == g.root && r.leafs.Keys == g.leafs.Keys
    requires forall h :: h in g.leafs ==> SameBody(g.leafs[h], r.leafs[h]) && LinksCommitted(e, r.leafs[h])
    ensures WellFormed(e, r)
  {
    hide RootOk, LeafOk, LinksCommitted, Reachable, Acyclic, SameBody, Agree;
    SameBodiesRootOk(e, g, r);
    SameBodiesLinks(g, r);
    forall h | h in r.leafs
      ensures Reachable(r.leafs, g.root, h) && LeafOk(e, r.leafs[h]) == LeafOk(e, g.leafs[h])
      ensures r.leafs[h].hash == h && r.leafs[h].leafCount == g.leafs[h].leafCount
    {
      SameBodiesPool(g, r);
      PoolReaches(e, g, r.leafs, h);
      SameBodyFields(e, g.leafs[h], r.leafs[h]);
    }
    assert |g.leafs| == |g.leafs.Keys| && |r.leafs| == |r.leafs.Keys|;
  }

  lemma SameLeafBody(l: Leaf, l': Leaf)
    requires SameLeaf(l, l')
    ensures SameBody(l, l')
  {
    AgreeSame(l, l');
    var x, y := l.(proofs := map[]), l'.(proofs := map[]);
    assert x.content == y.content && x.contentSize == y.contentSize && x.dagSize == y.dagSize;
  }

  /** When the shared copies do not differ, what the receiver rebuilds is well formed. */
  lemma RebuiltWellFormed(e: Suite, a: Graph, b: Graph, p: Graph, r: Graph)
    requires WellFormed(e, a) && WellFormed(e, b) && NoClash(e, a, b) && Covers(a, b, p) && b.root !in a.leafs
    requires SharedBodies(a, b) && r.root == b.root && Holds(Pool(ReceiverDelta(a, b, p), a.leafs), r)
    ensures WellFormed(e, r)
  {
    hide WellFormed, NoClash, ReceiverDelta, AddedLeaves, SameLeaf, SameBody, LinksCommitted, Reachable, Holds,
         Rebuilds;
    DeltaParts(e, a, b, p);
    DeltaApplies(e, a, b, p);
    RebuildsKeys(b, r);
    forall h | h in b.leafs
      ensures SameBody(b.leafs[h], r.leafs[h]) && LinksCommitted(e, r.leafs[h])
    {
      HoldsAt(Pool(ReceiverDelta(a, b, p), a.leafs), r, h);
      if h in a.leafs {
        WellFormedLeaf(e, a, h);
      } else {
        SameLeafBody(b.leafs[h], p.leafs[h]);
        WellFormedLeaf(e, b, h);
        SameLeafFields(e, b.leafs[h], p.leafs[h]);
      }
    }
    SameBodiesWellFormed(e, b, r);
  }

  lemma RebuildsKeys(b: Graph, r: Graph)
    requires Rebuilds(b, r)
    ensures r.root == b.root && r.leafs.Keys == b.leafs.Keys
  {
  }

  lemma HoldsAt(pool: map<Hash, Leaf>, r: Graph, h: Hash)
    requires Holds(pool, r) && h in r.leafs
    ensures h in pool && r.leafs[h] == pool[h]
  {
  }

  /** Delta sync from end to end: the sender diffs the DAGs it holds and cuts the partial; the receiver,
      with the old DAG and the partial's leaves, works out the diff and applies it. */
  method DeltaSync(e: Suite, oldDag: Dag, newDag: Dag, cpus: nat) returns (rebuilt: Dag, sent: DagDiff, found: DagDiff)
    requires cpus > 0 && WellFormed(e, oldDag.View()) && WellFormed(e, newDag.View())
    requires NoClash(e, oldDag.View(), newDag.View()) && oldDag.root != newDag.root
    ensures sent == DiffOf(oldDag.leafs, newDag.leafs) && SameDiff(sent, found)
    ensures Rebuilds(newDag.View(), rebuilt.View())
    ensures SharedBodies(oldDag.View(), newDag.View()) ==> WellFormed(e, rebuilt.View())
    ensures ProofsSound(e, oldDag.leafs) && ProofsSound(e, newDag.leafs) ==> ProofsSound(e, rebuilt.leafs)
  {
    hide SharedBodies, ReceiverDelta, WellFormed, NoClash, Reachable, IsPartialOf, PickedRoot, ReachedFrom, NewRoot,
         Holds, Pool, Rebuilds, Recorded, AddedLeaves, SameDiff, Covers, Partialable, CanGet, ProofsSound;
    ghost var a, b := oldDag.View(), newDag.View();
    AddedIfRootDiffers(e, a, b);
    sent := DiffDags(oldDag, newDag);
    WellFormedCount(e, b);
    SentAdded(e, a, b);
    WellFormedPartialable(e, b);
    var partial;
    ghost var requested;
    partial, requested := CreatePartialDag(e, sent, newDag, cpus);
    SentThere(e, a, b, requested);
    ghost var p := partial.value.View();
    DeltaCovers(e, a, b, requested, p);
    ghost var root, reached;
    found, root, reached := DiffFromNewLeaves(oldDag, partial.value.leafs);
    SameDifferences(e, a, b, p, root, reached);
    ReceiverDiff(e, a, b, p, root, reached);
    DeltaParts(e, a, b, p);
    assert found == ReceiverDelta(a, b, p) by { DeltaIs(a, b, p); }
    DeltaRoot(e, a, b, p, b.root);
    DeltaApplies(e, a, b, p);
    var result := ApplyToDAG(found, oldDag);
    assert result.Ok? by {
      if result.Err? && result.error.MissingLeaf? {
        ghost var r :| NewRoot(found, a.leafs, r) && Reachable(Pool(found, a.leafs), r, result.error.hash);
        DeltaRoot(e, a, b, p, r);
      }
    }
    DeltaRoot(e, a, b, p, result.value.root);
    rebuilt := result.value;
    if SharedBodies(a, b) {
      RebuiltWellFormed(e, a, b, p, rebuilt.View());
    }
    if ProofsSound(e, a.leafs) && ProofsSound(e, b.leafs) {
      PartialKeepsSound(e, b, requested, false, p);
      RebuiltSound(e, a, b, p, rebuilt.View());
    }
  }

  lemma SentThere(e: Suite, a: Graph, b: Graph, requested: seq<Hash>)
    requires WellFormed(e, b) && requested != [] && Elements(requested) == b.leafs.Keys - a.leafs.Keys
    ensures CanGet(e, b, requested)
  {
    hide WellFormed, CanGet;
    WellFormedCanGet(e, b, requested);
    assert forall h :: h in requested ==> h in Elements(requested);
  }

  /** Each leaf of the rebuilt DAG is one of the old DAG or of the partial. */
  lemma RebuiltSound(e: Suite, a: Graph, b: Graph, p: Graph, r: Graph)
    requires Covers(a, b, p) && b.root !in a.leafs && Holds(Pool(ReceiverDelta(a, b, p), a.leafs), r)
    requires ProofsSound(e, a.leafs) && ProofsSound(e, p.leafs)
    ensures ProofsSound(e, r.leafs)
  {
    hide LeafProofsSound, Covers, ReceiverDelta, AddedLeaves, Reachable;
    DeltaParts(e, a, b, p);
  }

  lemma DeltaIs(a: Graph, b: Graph, p: Graph)
    ensures ReceiverDelta(a, b, p) ==
            Recorded(Recorded(NO_DIFF, p.leafs - a.leafs.Keys, Added), a.leafs - b.leafs.Keys, Removed)
  {
  }

  lemma SentAdded(e: Suite, a: Graph, b: Graph)
    requires b.root !in a.leafs && b.root in b.leafs
    ensures AddedLeaves(DiffOf(a.leafs, b.leafs)).Keys == b.leafs.Keys - a.leafs.Keys
    ensures AddedLeaves(DiffOf(a.leafs, b.leafs)) != map[]
  {
    hide Recorded, AddedLeaves;
    DiffParts(a.leafs, b.leafs - a.leafs.Keys, a.leafs - b.leafs.Keys);
    assert b.root in (b.leafs - a.leafs.Keys).Keys;
  }
}
