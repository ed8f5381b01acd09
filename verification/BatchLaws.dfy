/** Replaying a DAG's batches, and what the batches are cut from. */
module BatchLaws {
  import opened ByteStrings
  import opened DagModel
  import opened ParentIndex
  import opened Traversal
  import opened DagVerify
  import opened Partial
  import opened PartialLaws
  import opened BreadthFirst
  import opened Transmission
  import opened TransmissionLaws
  import opened Greedy
  import opened Batches

  // ----- The batches cut one fixed order, and no valid cut is shorter -----

  lemma {:induction false} SameBfs(leafs: map<Hash, Leaf>, serves: Serves, queue: seq<Hash>, seen: set<Hash>)
    requires forall h :: h in leafs ==> serves(leafs[h])
    ensures Bfs(leafs, serves, queue, seen) == Bfs(leafs, AnyServes(), queue, seen)
    decreases leafs.Keys - seen, |queue|
  {
    hide SortedKeys, Fresh;
    if queue != [] {
      var kids := Kids(leafs, serves, queue[0], seen);
      assert kids == Kids(leafs, AnyServes(), queue[0], seen);
      assert kids != [] ==> kids[0] in kids;
      SameBfs(leafs, serves, queue[1..] + kids, seen + Elements(kids));
    }
  }

  /** A well-formed full DAG is batched in the order it is sent leaf by leaf. */
  lemma SameOrder(e: Suite, g: Graph)
    requires WellFormed(e, g)
    ensures SendOrder(g, FullServes(e)) == SendOrder(g, AnyServes())
  {
    hide WellFormed, Bfs, FullServes;
    WellFormedServes(e, g);
    SameBfs(g.leafs, FullServes(e), [g.root], {g.root});
  }

  /** The batches, put together, are the breadth-first order; each holds one leaf or is within the
      limit; and no partition of the order into such blocks has fewer. */
  lemma BatchingIsOptimal(g: Graph, limit: nat, partition: seq<seq<Edge>>)
    ensures Join(SendBlocks(g, limit)) == SendOrder(g, AnyServes())
    ensures forall b :: b in SendBlocks(g, limit) ==> b != [] && Fits(EdgeSize(g.leafs), limit, b)
    ensures Join(partition) == SendOrder(g, AnyServes())
            && (forall b :: b in partition ==> Fits(EdgeSize(g.leafs), limit, b)) ==>
              |SendBlocks(g, limit)| <= |partition|
  {
    hide Blocks, SendOrder;
    BlocksJoin(EdgeSize(g.leafs), limit, SendOrder(g, AnyServes()));
    if Join(partition) == SendOrder(g, AnyServes())
       && forall b :: b in partition ==> Fits(EdgeSize(g.leafs), limit, b)
    {
      GreedyOptimal(EdgeSize(g.leafs), limit, SendOrder(g, AnyServes()), partition);
    }
  }

  // ----- One block -----

  /** A stretch of the order: each leaf is new and, but for the root, linked by a parent sent before. */
  ghost predicate Stretch(g: Graph, sent: set<Hash>, block: seq<Edge>) {
    forall i :: 0 <= i < |block| ==>
                  var Edge(p, c) := block[i];
                  && c in g.leafs && c !in sent && c !in Sent(block[..i])
                  && if c == g.root then p == []
                     else p in g.leafs && c in g.leafs[p].links && (p in sent || p in Sent(block[..i]))
  }

  /** A leaf that can be sent: a full DAG's parent can be given all its proofs; a partial DAG's parent
      stores one of each child that is there, valid or not. */
  ghost predicate SendableLeaf(e: Suite, g: Graph, l: Leaf) {
    && Distinct(l.links) && |l.links| <= l.currentLinkCount
    && (|l.links| == l.currentLinkCount ==> ChildrenOk(e, l))
    && if IsPartial(g) then
         |l.links| > 1 ==> forall c :: c in l.links && c in g.leafs ==> c in l.proofs
       else
         |l.links| == l.currentLinkCount && (|l.links| > 1 ==> TreeRoot(e, l.links) == Some(l.classicMerkleRoot))
  }

  ghost predicate Sendable(e: Suite, g: Graph) {
    && g.root in g.leafs && Keyed(g.leafs)
    && (forall h :: h in g.leafs ==> SoundLeaf(e, g.root, h, g.leafs[h]) && SendableLeaf(e, g, g.leafs[h]))
    && RootOk(e, g.leafs[g.root], Some(map[g.root := g.leafs[g.root]]))
  }

  lemma FullSendable(e: Suite, g: Graph)
    requires WellFormed(e, g)
    ensures Sendable(e, g) && !IsPartial(g)
  {
    hide LinksCommitted, LeafOk, RootOk, Reachable, Acyclic, SoundLeaf, ChildrenOk;
    NotPartial(e, g);
    forall h | h in g.leafs
      ensures SoundLeaf(e, g.root, h, g.leafs[h]) && SendableLeaf(e, g, g.leafs[h])
    {
      SoundLeaves(e, g, h);
      CommittedSendable(e, g, g.leafs[h]);
    }
    RootAloneOk(e, g);
  }

  lemma CommittedSendable(e: Suite, g: Graph, l: Leaf)
    requires LinksCommitted(e, l) && !IsPartial(g)
    ensures SendableLeaf(e, g, l)
  {
    hide TreeRoot, LinksRoot, IsPartial;
    CommittedChildrenOk(e, l);
  }

  /** The root passes against a DAG of its own. */
  lemma RootAloneOk(e: Suite, g: Graph)
    requires WellFormed(e, g)
    ensures RootOk(e, g.leafs[g.root], Some(map[g.root := g.leafs[g.root]]))
  {
    hide LeafOk, LinksCommitted, Reachable, Acyclic, CanTotal, TotalContent, TotalSize;
    var root := g.leafs[g.root];
    var alone := map[g.root := root];
    assert |alone| == 1;
    if root.leafCount == 1 {
      assert |g.leafs| == |g.leafs.Keys| == 1 && {g.root} <= g.leafs.Keys;
      SameSize({g.root}, g.leafs.Keys);
      assert g.leafs == alone;
    } else {
      NoTotals(alone, root);
    }
  }

  lemma NoTotals(leafs: map<Hash, Leaf>, root: Leaf)
    requires |leafs| != root.leafCount
    ensures !CanTotal(leafs, root)
  {
  }

  /** A partial DAG made by `GetPartial` can be sent. */
  lemma PartialSendable(e: Suite, g: Graph, requested: seq<Hash>, prune: bool, p: Graph)
    requires WellFormed(e, g) && IsPartialOf(e, g, requested, prune, p)
    requires p.root in p.leafs && IsPartial(p)
    ensures Sendable(e, p)
  {
    hide WellFormed, IsPartialOf, LeafOk, RootOk, SendableLeaf, SoundLeaf;
    PartialRoot(e, g, requested, prune, p);
    forall h | h in p.leafs
      ensures SoundLeaf(e, p.root, h, p.leafs[h]) && SendableLeaf(e, p, p.leafs[h])
      ensures p.leafs[h].hash == h && h != []
    {
      PartialSound(e, g, requested, prune, p, h);
      SoundHash(e, p.root, h, p.leafs[h]);
      WellFormedLeaf(e, g, h);
      PartialLeafFacts(e, g, requested, prune, p, h);
      PartialLeafSendable(e, g, requested, p, prune, h, p.leafs[h]);
    }
    PartialRootAlone(e, p);
  }

  lemma SoundHash(e: Suite, root: Hash, h: Hash, l: Leaf)
    requires SoundLeaf(e, root, h, l)
    ensures l.hash == h && h != [] && (h == root ==> RootOk(e, l, None))
  {
    hide RootOk, LeafOk;
  }

  lemma PartialRootAlone(e: Suite, p: Graph)
    requires p.root in p.leafs && IsPartial(p) && SoundLeaf(e, p.root, p.root, p.leafs[p.root])
    ensures RootOk(e, p.leafs[p.root], Some(map[p.root := p.leafs[p.root]]))
  {
    hide LeafOk, CanTotal;
    var alone := map[p.root := p.leafs[p.root]];
    assert |alone| == 1;
    assert |p.leafs| == |p.leafs.Keys| && {p.root} <= p.leafs.Keys;
    SubsetSize({p.root}, p.leafs.Keys);
    NoTotals(alone, p.leafs[p.root]);
  }

  lemma PartialLeafSendable(e: Suite, g: Graph, requested: seq<Hash>, p: Graph, prune: bool, h: Hash, l: Leaf)
    requires h in g.leafs && LinksCommitted(e, g.leafs[h]) && IsPartial(p)
    requires LeafFacts(e, g, requested, p.leafs.Keys, prune, h, l)
    ensures SendableLeaf(e, p, l)
  {
    hide LinksRoot, Kept, TreeRoot, BranchOk, IsPartial, Vouched;
    var was := g.leafs[h];
    KeptFacts(was.links, p.leafs.Keys);
    KeptDistinct(was.links, p.leafs.Keys);
    SameIdentityOk(e, was, l);
    if l.links == was.links {
      SameChildrenOk(e, was, l);
    }
  }

  lemma {:induction false} KeptDistinct(links: seq<Hash>, keys: set<Hash>)
    requires Distinct(links)
    ensures Distinct(Kept(links, keys))
  {
    if links != [] {
      KeptDistinct(links[1..], keys);
      KeptFacts(links[1..], keys);
      var rest := Kept(links[1..], keys);
      assert links[0] !in links[1..];
      assert Kept(links, keys) == if links[0] in keys then [links[0]] + rest else rest;
    }
  }

  /** A full DAG's parents received so far can vouch for children still to come: they hold a valid proof of
      each linked leaf, or all linked leaves have come. */
  ghost predicate Vouches(e: Suite, l: Leaf, received: set<Hash>) {
    |l.links| > 1 ==>
      || (forall c :: c in l.links ==> c in l.proofs && BranchOk(e, l, l.proofs[c]))
      || (forall c :: c in l.links ==> c in received)
  }

  ghost predicate LeafHeld(e: Suite, g: Graph, h: Hash, l: Leaf, sent: set<Hash>) {
    h in g.leafs && if IsPartial(g) then HeldAs(g.leafs[h], l, sent) else Vouches(e, l, sent)
  }

  ghost predicate Receiving(e: Suite, g: Graph, sent: set<Hash>, leafs: map<Hash, Leaf>) {
    Copies(g, sent, leafs) && forall h :: h in leafs ==> LeafHeld(e, g, h, leafs[h], sent)
  }

  lemma {:induction false} DeclaredEdge(block: seq<Edge>, c: Hash) returns (i: nat)
    requires c in Declared(block)
    ensures i < |block| && block[i] == Edge(Declared(block)[c], c)
    decreases |block|
  {
    var n := |block| - 1;
    i := n;
    if block[n].child != c {
      i := DeclaredEdge(block[..n], c);
    }
  }

  lemma {:induction false} DeclaredKeys(block: seq<Edge>)
    ensures Declared(block).Keys == Sent(block)
    decreases |block|
  {
    if block != [] {
      var n := |block| - 1;
      DeclaredKeys(block[..n]);
      SentNext(block, n);
      assert block[..n + 1] == block;
    }
  }

  lemma StretchDistinct(g: Graph, sent: set<Hash>, block: seq<Edge>, i: nat, j: nat)
    requires Stretch(g, sent, block) && i < j < |block|
    ensures block[i].child != block[j].child
  {
    hide Sent;
    assert block[..j][i] == block[i];
    SentMember(block[..j], i);
  }

  lemma DeclaredFacts(g: Graph, sent: set<Hash>, block: seq<Edge>)
    requires Stretch(g, sent, block)
    ensures Declared(block).Keys == Sent(block)
    ensures forall i :: 0 <= i < |block| ==>
                          block[i].child in Declared(block) && Declared(block)[block[i].child] == block[i].parent
    ensures forall c :: c in Declared(block) && c != g.root ==>
                          Declared(block)[c] in g.leafs && c in g.leafs[Declared(block)[c]].links
  {
    hide Declared, Sent, Stretch;
    DeclaredKeys(block);
    forall i | 0 <= i < |block|
      ensures block[i].child in Declared(block) && Declared(block)[block[i].child] == block[i].parent
    {
      DeclaredParent(g, sent, block, i);
    }
    forall c | c in Declared(block) && c != g.root
      ensures Declared(block)[c] in g.leafs && c in g.leafs[Declared(block)[c]].links
    {
      var j := DeclaredEdge(block, c);
      StretchEdge(g, sent, block, j);
    }
  }

  lemma DeclaredParent(g: Graph, sent: set<Hash>, block: seq<Edge>, i: nat)
    requires Stretch(g, sent, block) && i < |block|
    ensures block[i].child in Declared(block) && Declared(block)[block[i].child] == block[i].parent
  {
    hide Declared, Sent, Stretch;
    DeclaredKeys(block);
    SentMember(block, i);
    var j := DeclaredEdge(block, block[i].child);
    if i < j {
      StretchDistinct(g, sent, block, i, j);
    } else if j < i {
      StretchDistinct(g, sent, block, j, i);
    }
  }

  lemma StretchEdge(g: Graph, sent: set<Hash>, block: seq<Edge>, i: nat)
    requires Stretch(g, sent, block) && i < |block| && block[i].child != g.root
    ensures block[i].parent in g.leafs && block[i].child in g.leafs[block[i].parent].links
  {
    hide Sent;
  }

  /** The leaf sent for an edge of the block. */
  ghost function Equipped(e: Suite, g: Graph, block: seq<Edge>, c: Hash): Leaf
    requires c in g.leafs
  {
    Finalized(e, IsPartial(g), g.leafs[c], |ChildrenIn(Declared(block), c)|)
  }

  lemma EquippedSame(e: Suite, g: Graph, block: seq<Edge>, c: Hash)
    requires c in g.leafs
    ensures SameLeaf(g.leafs[c], Equipped(e, g, block, c))
  {
    hide ChildrenIn, TreeRoot, AllProofs;
  }

  /** A parent that is sent without proofs, with all its children in its block. */
  ghost predicate Cleared(g: Graph, block: seq<Edge>, h: Hash) {
    && h in Sent(block) && h in g.leafs && g.leafs[h].currentLinkCount > 1
    && |ChildrenIn(Declared(block), h)| == g.leafs[h].currentLinkCount
  }

  /** What the receiver asks of a child's parent in a partial DAG: that it has no other link, came without
      proofs together with all its children, or stores a valid proof of the child. */
  ghost predicate EdgeAccepted(e: Suite, g: Graph, block: seq<Edge>, edge: Edge) {
    IsPartial(g) && edge.parent in g.leafs && |g.leafs[edge.parent].links| > 1 && !Cleared(g, block, edge.parent) ==>
      StoredProofOk(e, g.leafs[edge.parent], edge.child)
  }

  /** A full DAG's equipped parent has valid proofs of all its children, or has none and all its children
      are in the block. A partial DAG's is as it was, or has none and all its children are in the block. */
  lemma EquippedVouches(e: Suite, g: Graph, sent: set<Hash>, block: seq<Edge>, h: Hash)
    requires Sendable(e, g) && Stretch(g, sent, block) && h in g.leafs && h in Sent(block)
    ensures
      var l := Equipped(e, g, block, h);
      && LeafHeld(e, g, h, l, Sent(block))
      && (|l.links| > 1 ==>
            if Cleared(g, block, h) then l.proofs == map[] && ChildrenOk(e, l)
            else if IsPartial(g) then l == g.leafs[h]
            else forall c :: c in l.links ==> c in l.proofs && BranchOk(e, l, l.proofs[c]))
  {
    hide Stretch, RootOk, SoundLeaf, LinkProof, BranchOk, TreeRoot, IsPartial, Sent;
    var was := g.leafs[h];
    var l := Equipped(e, g, block, h);
    assert SendableLeaf(e, g, was);
    if was.currentLinkCount > 1 {
      if |ChildrenIn(Declared(block), h)| == was.currentLinkCount {
        AllDeclared(e, g, sent, block, h);
      } else if !IsPartial(g) {
        forall c | c in l.links
          ensures c in l.proofs && BranchOk(e, l, l.proofs[c])
        {
          assert l.proofs[c] == LinkProof(e, was.links, c);
          LinkProofOk(e, l, was.links, c);
        }
      }
    }
  }

  /** As many children declared as there are links means all links. */
  lemma AllDeclared(e: Suite, g: Graph, sent: set<Hash>, block: seq<Edge>, h: Hash)
    requires h in g.leafs && h != [] && SendableLeaf(e, g, g.leafs[h]) && Stretch(g, sent, block)
    requires |ChildrenIn(Declared(block), h)| == g.leafs[h].currentLinkCount
    ensures (forall c :: c in g.leafs[h].links ==> c in Sent(block))
            && |g.leafs[h].links| == g.leafs[h].currentLinkCount
  {
    hide Stretch, TreeRoot, ChildrenOk, BranchOk, IsPartial;
    DeclaredFacts(g, sent, block);
    var links, kids := g.leafs[h].links, ChildrenIn(Declared(block), h);
    RootDeclared(g, sent, block);
    forall c | c in kids
      ensures c in Elements(links)
    {
    }
    DistinctCardinality(links);
    SameSize(kids, Elements(links));
    assert forall c :: c in links ==> c in Elements(links);
  }

  lemma RootDeclared(g: Graph, sent: set<Hash>, block: seq<Edge>)
    requires Stretch(g, sent, block)
    ensures g.root in Declared(block) ==> Declared(block)[g.root] == []
  {
    hide Declared;
    DeclaredFacts(g, sent, block);
    if g.root in Declared(block) {
      SentAt(block, g.root);
    }
  }

  lemma {:induction false} SentAt(block: seq<Edge>, h: Hash)
    ensures h in Sent(block) <==> exists i :: 0 <= i < |block| && block[i].child == h
  {
    if block != [] {
      SentAt(block[1..], h);
      if i :| 0 <= i < |block| && block[i].child == h {
        assert i > 0 ==> block[1..][i - 1].child == h;
      }
      if i :| 0 <= i < |block| - 1 && block[1..][i].child == h {
        assert block[i + 1].child == h;
      }
    }
  }

  // ----- One batch at the receiver -----

  lemma NotPartial(e: Suite, g: Graph)
    requires WellFormed(e, g)
    ensures !IsPartial(g) && Keyed(g.leafs) && g.root in g.leafs
  {
  }

  lemma SendableParts(e: Suite, g: Graph)
    requires Sendable(e, g)
    ensures Keyed(g.leafs) && g.root in g.leafs
  {
  }

  lemma StretchThere(g: Graph, sent: set<Hash>, block: seq<Edge>)
    requires Stretch(g, sent, block)
    ensures BlockThere(g.leafs, block)
  {
  }

  lemma BatchLeavesEquipped(e: Suite, g: Graph, sent: set<Hash>, block: seq<Edge>, index: nat, total: nat)
    requires Sendable(e, g) && Stretch(g, sent, block)
    ensures BlockThere(g.leafs, block)
    ensures
      var leaves := BatchOf(e, g, block, index, total).leaves;
      |leaves| == |block| && forall i :: 0 <= i < |leaves| ==> leaves[i] == Equipped(e, g, block, block[i].child)
  {
    hide Sendable, Stretch, Finalized, ChildrenIn, Declared, IsPartial;
    StretchThere(g, sent, block);
    SendableParts(e, g);
  }

  ghost predicate EquippedBy(e: Suite, g: Graph, block: seq<Edge>, leaves: seq<Leaf>)
  {
    && BlockThere(g.leafs, block) && |leaves| == |block|
    && forall i :: 0 <= i < |leaves| ==>
      leaves[i] == Equipped(e, g, block, block[i].child) && leaves[i].hash == block[i].child
  }

  lemma {:induction false} ByHashEquipped(e: Suite, g: Graph, block: seq<Edge>, leaves: seq<Leaf>, n: nat)
    requires EquippedBy(e, g, block, leaves) && n <= |block|
    ensures
      var index := ByHash(leaves[..n]);
      && index.Keys == Sent(block[..n]) && (forall h :: h in index ==> h in g.leafs)
      && forall h :: h in index ==> index[h] == Equipped(e, g, block, h)
  {
    hide Equipped;
    if n > 0 {
      ByHashEquipped(e, g, block, leaves, n - 1);
      SentNext(block, n - 1);
      assert leaves[..n][..n - 1] == leaves[..n - 1];
    }
  }

  /** A parent in the batch vouches for its child exactly when the edge is acceptable. */
  lemma ParentInBatch(e: Suite, g: Graph, sent: set<Hash>, block: seq<Edge>, p: Hash, c: Hash)
    requires Sendable(e, g) && Stretch(g, sent, block) && p in g.leafs && c in g.leafs && c in g.leafs[p].links
    requires p in Sent(block)
    ensures ChildOk(e, Equipped(e, g, block, p), true, c) <==> EdgeAccepted(e, g, block, Edge(p, c))
  {
    hide Stretch, Sendable, BranchOk, ChildrenOk, Finalized, Cleared, IsPartial, LeafHeld, Sent;
    EquippedVouches(e, g, sent, block, p);
    EquippedSame(e, g, block, p);
    SameLeafFields(e, g.leafs[p], Equipped(e, g, block, p));
    StoresProof(e, g, p, c);
  }

  /** A partial DAG's parent stores a proof of the child. */
  lemma StoresProof(e: Suite, g: Graph, p: Hash, c: Hash)
    requires Sendable(e, g) && p in g.leafs && c in g.leafs && c in g.leafs[p].links
    ensures IsPartial(g) && |g.leafs[p].links| > 1 ==> c in g.leafs[p].proofs
  {
    hide SoundLeaf, RootOk, BranchOk, ChildrenOk, IsPartial, TreeRoot;
    assert SendableLeaf(e, g, g.leafs[p]);
  }

  /** A parent received before vouches for a child that is new exactly when the edge is acceptable. */
  lemma ParentReceived(e: Suite, g: Graph, received: set<Hash>, block: seq<Edge>, l: Leaf, p: Hash, c: Hash)
    requires Sendable(e, g)
    requires p in g.leafs && c in g.leafs && SameLeaf(g.leafs[p], l) && LeafHeld(e, g, p, l, received)
    requires c in g.leafs[p].links && c !in received && p !in Sent(block)
    ensures ChildOk(e, l, false, c) <==> EdgeAccepted(e, g, block, Edge(p, c))
  {
    hide BranchOk, ChildrenOk, Sendable, IsPartial, Sent;
    SameLeafFields(e, g.leafs[p], l);
    StoresProof(e, g, p, c);
  }

  lemma LeafAccepted(e: Suite, g: Graph, sent: set<Hash>, leafs: map<Hash, Leaf>, block: seq<Edge>, batch: Batch,
                     i: nat)
    requires Sendable(e, g) && Stretch(g, sent, block) && Receiving(e, g, sent, leafs)
    requires EquippedBy(e, g, block, batch.leaves) && batch.relationships == Declared(block) && i < |block|
    ensures i < |batch.leaves|
    ensures BatchLeafOk(e, leafs, batch, batch.leaves[i]) <==> EdgeAccepted(e, g, block, block[i])
  {
    hide Sendable, RootOk, LeafOk, Finalized, Declared, ByHash, ChildOk, LeafHeld, BlockThere, EdgeAccepted;
    var Edge(p, c) := block[i];
    DeclaredFacts(g, sent, block);
    assert batch.leaves[..|block|] == batch.leaves && block[..|block|] == block;
    ByHashEquipped(e, g, block, batch.leaves, |block|);
    EquippedSame(e, g, block, c);
    SendableParts(e, g);
    if c == g.root {
      RootAccepted(e, g, batch.leaves[i]);
      NoParentEdge(e, g, block, block[i]);
    } else {
      SendableSound(e, g, c);
      SendableSound(e, g, p);
      SameLeafFields(e, g.leafs[c], batch.leaves[i]);
      if p in Sent(block) {
        ParentInBatch(e, g, sent, block, p, c);
      } else {
        SentPrefix(block, i, p);
        ParentReceived(e, g, sent, block, leafs[p], p, c);
      }
    }
  }

  lemma NoParentEdge(e: Suite, g: Graph, block: seq<Edge>, edge: Edge)
    requires Keyed(g.leafs) && edge.parent == []
    ensures EdgeAccepted(e, g, block, edge)
  {
  }

  lemma SendableSound(e: Suite, g: Graph, h: Hash)
    requires Sendable(e, g) && h in g.leafs
    ensures SoundLeaf(e, g.root, h, g.leafs[h])
  {
    hide SoundLeaf, SendableLeaf, RootOk;
  }

  lemma SentPrefix(block: seq<Edge>, i: nat, p: Hash)
    requires i <= |block|
    ensures p in Sent(block[..i]) ==> p in Sent(block)
  {
    assert block == block[..i] + block[i..];
    SentConcat(block[..i], block[i..]);
  }

  /** The root is checked against a DAG of its own. */
  lemma RootAccepted(e: Suite, g: Graph, l: Leaf)
    requires Sendable(e, g) && SameLeaf(g.leafs[g.root], l)
    ensures RootOk(e, l, Some(map[l.hash := l]))
  {
    hide SendableLeaf, SoundLeaf, RootOk, SameLeaf;
    var root := g.leafs[g.root];
    SameLeafFields(e, root, l);
    SameRootOk(e, Graph(g.root, map[g.root := root]), Graph(g.root, map[g.root := l]));
  }

  /** The receiver's leaves with the first n of the batch. */
  ghost function Extended(e: Suite, g: Graph, leafs: map<Hash, Leaf>, block: seq<Edge>, n: nat): map<Hash, Leaf>
    requires n <= |block| && BlockThere(g.leafs, block)
  {
    leafs + (map c | c in Sent(block[..n]) && c in g.leafs :: Equipped(e, g, block, c))
  }

  lemma {:induction false} StoredExtends(e: Suite, g: Graph, sent: set<Hash>, leafs: map<Hash, Leaf>, block: seq<Edge>,
                                         leaves: seq<Leaf>, n: nat)
    requires Sendable(e, g) && Stretch(g, sent, block) && Copies(g, sent, leafs)
    requires EquippedBy(e, g, block, leaves) && n <= |block|
    ensures StoreLeaves(leafs, Declared(block), leaves[..n]) == Extended(e, g, leafs, block, n)
  {
    hide Sendable, Stretch, Finalized, Declared, StoreLeaf, Equipped, EquippedBy, Copies;
    StretchThere(g, sent, block);
    EquippedSize(e, g, block, leaves);
    if n == 0 {
      NoneSent(block[..0]);
      assert leaves[..0] == [];
    } else {
      StoredExtends(e, g, sent, leafs, block, leaves, n - 1);
      assert leaves[..n][..n - 1] == leaves[..n - 1] && leaves[..n][n - 1] == leaves[n - 1];
      StoreNext(e, g, sent, leafs, block, leaves, n - 1);
    }
  }

  lemma EquippedSize(e: Suite, g: Graph, block: seq<Edge>, leaves: seq<Leaf>)
    requires EquippedBy(e, g, block, leaves)
    ensures |leaves| == |block|
  {
  }

  lemma StoreNext(e: Suite, g: Graph, sent: set<Hash>, leafs: map<Hash, Leaf>, block: seq<Edge>, leaves: seq<Leaf>,
                  i: nat)
    requires Sendable(e, g) && Stretch(g, sent, block) && Copies(g, sent, leafs)
    requires EquippedBy(e, g, block, leaves) && i < |block|
    ensures BlockThere(g.leafs, block)
    ensures StoreLeaf(Extended(e, g, leafs, block, i), Declared(block), leaves[i]) ==
            Extended(e, g, leafs, block, i + 1)
  {
    hide Sendable, Finalized, Declared, Equipped, SameLeaf, StoreLeaf, Extended;
    StretchThere(g, sent, block);
    var Edge(p, c) := block[i];
    DeclaredFacts(g, sent, block);
    RootDeclared(g, sent, block);
    ExtendedNext(e, g, sent, leafs, block, i);
    if c != g.root {
      ExtendedLinks(e, g, sent, leafs, block, i, p);
    }
    StoreLinked(Extended(e, g, leafs, block, i), Declared(block), leaves[i]);
  }

  lemma ExtendedNext(e: Suite, g: Graph, sent: set<Hash>, leafs: map<Hash, Leaf>, block: seq<Edge>, i: nat)
    requires Stretch(g, sent, block) && Copies(g, sent, leafs) && i < |block| && BlockThere(g.leafs, block)
    ensures block[i].child !in Extended(e, g, leafs, block, i)
    ensures Extended(e, g, leafs, block, i)[block[i].child := Equipped(e, g, block, block[i].child)] ==
            Extended(e, g, leafs, block, i + 1)
  {
    hide Equipped, SameLeaf, Sent;
    SentNext(block, i);
    assert block[i].child in g.leafs && block[i].child !in sent;
    hide Stretch;
  }

  lemma ExtendedLinks(e: Suite, g: Graph, sent: set<Hash>, leafs: map<Hash, Leaf>, block: seq<Edge>, i: nat, p: Hash)
    requires Copies(g, sent, leafs) && i < |block| && BlockThere(g.leafs, block)
    requires p in g.leafs && (p in sent || p in Sent(block[..i]))
    ensures p in Extended(e, g, leafs, block, i) && Extended(e, g, leafs, block, i)[p].links == g.leafs[p].links
  {
    hide Equipped, SameLeaf;
    EquippedSame(e, g, block, p);
    SameLeafFields(e, g.leafs[p], Extended(e, g, leafs, block, i)[p]);
  }

  /** A new leaf whose parent links it is just stored. */
  lemma StoreLinked(leafs: map<Hash, Leaf>, relationships: map<Hash, Hash>, l: Leaf)
    requires l.hash !in leafs && l.hash in relationships
    requires var p := relationships[l.hash]; p == [] || (p in leafs && l.hash in leafs[p].links)
    ensures StoreLeaf(leafs, relationships, l) == leafs[l.hash := l]
  {
  }

  ghost predicate BlockServed(e: Suite, g: Graph, block: seq<Edge>) {
    forall i :: 0 <= i < |block| ==> EdgeAccepted(e, g, block, block[i])
  }

  /** A batch made of a stretch of the order is accepted exactly when each of its edges is acceptable, which
      is always so for a full DAG; what it brings is stored as it is. */
  lemma BlockAccepted(e: Suite, g: Graph, sent: set<Hash>, leafs: map<Hash, Leaf>, block: seq<Edge>, index: nat,
                      total: nat)
    requires Sendable(e, g) && Stretch(g, sent, block) && Receiving(e, g, sent, leafs)
    ensures BlockThere(g.leafs, block) && (!IsPartial(g) ==> BlockServed(e, g, block))
    ensures
      var batch := BatchOf(e, g, block, index, total);
      && (BatchOk(e, leafs, batch) <==> BlockServed(e, g, block))
      && StoreLeaves(leafs, batch.relationships, batch.leaves) == Extended(e, g, leafs, block, |block|)
      && Receiving(e, g, sent + Sent(block), Extended(e, g, leafs, block, |block|))
  {
    hide Sendable, Stretch, Receiving, Finalized, Declared, StoreLeaves, BatchLeafOk, Equipped, FinalizedLeaves,
         EdgeAccepted, Extended, EquippedBy;
    StretchThere(g, sent, block);
    var batch := BatchOf(e, g, block, index, total);
    BlockEquipped(e, g, sent, block, index, total);
    EquippedSize(e, g, block, batch.leaves);
    forall i | 0 <= i < |block|
      ensures BatchLeafOk(e, leafs, batch, batch.leaves[i]) <==> EdgeAccepted(e, g, block, block[i])
      ensures !IsPartial(g) ==> EdgeAccepted(e, g, block, block[i])
    {
      LeafAccepted(e, g, sent, leafs, block, batch, i);
      FullAccepts(e, g, block, block[i]);
    }
    ReceivingCopies(e, g, sent, leafs);
    StoredExtends(e, g, sent, leafs, block, batch.leaves, |block|);
    assert batch.leaves[..|block|] == batch.leaves && block[..|block|] == block;
    ExtendedReceiving(e, g, sent, leafs, block);
  }

  lemma FullAccepts(e: Suite, g: Graph, block: seq<Edge>, edge: Edge)
    ensures !IsPartial(g) ==> EdgeAccepted(e, g, block, edge)
  {
  }

  lemma ReceivingCopies(e: Suite, g: Graph, sent: set<Hash>, leafs: map<Hash, Leaf>)
    requires Receiving(e, g, sent, leafs)
    ensures Copies(g, sent, leafs)
  {
  }

  lemma BlockEquipped(e: Suite, g: Graph, sent: set<Hash>, block: seq<Edge>, index: nat, total: nat)
    requires Sendable(e, g) && Stretch(g, sent, block)
    ensures BlockThere(g.leafs, block)
    ensures EquippedBy(e, g, block, BatchOf(e, g, block, index, total).leaves)
    ensures BatchOf(e, g, block, index, total).relationships == Declared(block)
  {
    hide Sendable, Stretch, Finalized, Declared, FinalizedLeaves, Equipped, SameLeaf;
    BatchLeavesEquipped(e, g, sent, block, index, total);
    SendableParts(e, g);
    var leaves := BatchOf(e, g, block, index, total).leaves;
    forall i | 0 <= i < |leaves|
      ensures leaves[i].hash == block[i].child
    {
      EquippedSame(e, g, block, block[i].child);
      SameLeafFields(e, g.leafs[block[i].child], leaves[i]);
    }
  }

  lemma ExtendedReceiving(e: Suite, g: Graph, sent: set<Hash>, leafs: map<Hash, Leaf>, block: seq<Edge>)
    requires Sendable(e, g) && Stretch(g, sent, block) && Receiving(e, g, sent, leafs)
    ensures BlockThere(g.leafs, block)
    ensures Receiving(e, g, sent + Sent(block), Extended(e, g, leafs, block, |block|))
  {
    hide Sendable, Stretch, Equipped, SameLeaf, LeafHeld, Extended, Sent;
    StretchThere(g, sent, block);
    SentThere(g, sent, block);
    ExtendedAt(e, g, leafs, block);
    var all, more := sent + Sent(block), Extended(e, g, leafs, block, |block|);
    forall h | h in more
      ensures h in g.leafs && SameLeaf(g.leafs[h], more[h]) && LeafHeld(e, g, h, more[h], all)
    {
      if h in Sent(block) {
        EquippedSame(e, g, block, h);
        EquippedVouches(e, g, sent, block, h);
        HeldMore(e, g, h, more[h], Sent(block), all);
      } else {
        HeldMore(e, g, h, more[h], sent, all);
      }
    }
  }

  lemma SentThere(g: Graph, sent: set<Hash>, block: seq<Edge>)
    requires Stretch(g, sent, block)
    ensures Sent(block) <= g.leafs.Keys
  {
    forall h | h in Sent(block)
      ensures h in g.leafs
    {
      SentAt(block, h);
    }
  }

  lemma ExtendedAt(e: Suite, g: Graph, leafs: map<Hash, Leaf>, block: seq<Edge>)
    requires BlockThere(g.leafs, block) && Sent(block) <= g.leafs.Keys
    ensures
      var more := Extended(e, g, leafs, block, |block|);
      && more.Keys == leafs.Keys + Sent(block)
      && forall h :: h in more ==> more[h] == if h in Sent(block) then Equipped(e, g, block, h) else leafs[h]
  {
    hide Equipped, Sent;
    assert block[..|block|] == block;
  }

  lemma HeldMore(e: Suite, g: Graph, h: Hash, l: Leaf, received: set<Hash>, more: set<Hash>)
    requires LeafHeld(e, g, h, l, received) && received <= more
    ensures LeafHeld(e, g, h, l, more)
  {
    hide BranchOk;
  }

  // ----- Batched replay -----

  lemma JoinNext<T>(blocks: seq<seq<T>>, k: nat)
    requires k < |blocks|
    ensures Join(blocks[..k + 1]) == Join(blocks[..k]) + blocks[k]
    ensures Join(blocks) == Join(blocks[..k + 1]) + Join(blocks[k + 1..])
  {
    hide *;
    TakeParts(blocks, k);
    JoinConcat(blocks[..k], [blocks[k]]);
    JoinOne(blocks[k]);
    JoinConcat(blocks[..k + 1], blocks[k + 1..]);
  }

  lemma TakeParts<T>(s: seq<T>, k: nat)
    requires k < |s|
    ensures s[..k + 1] == s[..k] + [s[k]] && s == s[..k + 1] + s[k + 1..]
  {
  }

  lemma JoinOne<T>(block: seq<T>)
    ensures Join([block]) == block
  {
    assert [block][1..] == [] && block + [] == block;
  }

  /** Every block is a stretch of the order after the blocks before it. */
  lemma BlockIsStretch(g: Graph, limit: nat, k: nat)
    requires g.root in g.leafs && k < |SendBlocks(g, limit)|
    ensures Stretch(g, Sent(Join(SendBlocks(g, limit)[..k])), SendBlocks(g, limit)[k])
  {
    hide SendOrder, SendBlocks, Join, Fits;
    var edges, blocks := SendOrder(g, AnyServes()), SendBlocks(g, limit);
    BatchingIsOptimal(g, limit, []);
    JoinNext(blocks, k);
    var before, block, after := Join(blocks[..k]), blocks[k], Join(blocks[k + 1..]);
    assert edges == before + block + after;
    forall i: nat | i < |block|
      ensures StretchAt(g, Sent(before), block, i)
    {
      EdgeInBlock(g, before, block, after, i);
    }
    EveryEdge(g, Sent(before), block);
  }

  lemma EveryEdge(g: Graph, sent: set<Hash>, block: seq<Edge>)
    requires forall i: nat :: i < |block| ==> StretchAt(g, sent, block, i)
    ensures Stretch(g, sent, block)
  {
    hide Sent;
    forall i | 0 <= i < |block|
      ensures
        var Edge(p, c) := block[i];
        && c in g.leafs && c !in sent && c !in Sent(block[..i])
        && if c == g.root then p == []
           else p in g.leafs && c in g.leafs[p].links && (p in sent || p in Sent(block[..i]))
    {
      assert StretchAt(g, sent, block, i);
    }
  }

  ghost predicate StretchAt(g: Graph, sent: set<Hash>, block: seq<Edge>, i: nat)
    requires i < |block|
  {
    var Edge(p, c) := block[i];
    && c in g.leafs && c !in sent && c !in Sent(block[..i])
    && if c == g.root then p == []
       else p in g.leafs && c in g.leafs[p].links && (p in sent || p in Sent(block[..i]))
  }

  lemma EdgeInBlock(g: Graph, before: seq<Edge>, block: seq<Edge>, after: seq<Edge>, i: nat)
    requires g.root in g.leafs && SendOrder(g, AnyServes()) == before + block + after && i < |block|
    ensures StretchAt(g, Sent(before), block, i)
  {
    hide SendOrder;
    var edges, n := SendOrder(g, AnyServes()), |before| + i;
    assert edges[n] == block[i] && edges[..n] == before + block[..i];
    SentConcat(before, block[..i]);
    EdgeFacts(g, AnyServes(), n);
    SendOrderFacts(g, AnyServes());
  }

  ghost predicate BlocksServed(e: Suite, g: Graph, blocks: seq<seq<Edge>>, k: nat)
    requires k <= |blocks|
  {
    forall m :: 0 <= m < k ==> BlockServed(e, g, blocks[m])
  }

  lemma {:induction false} ReplayBatchesPrefix(e: Suite, g: Graph, limit: nat, batches: seq<Batch>, k: nat)
    requires Sendable(e, g) && IsBatching(e, g, limit, batches) && k <= |batches|
    ensures
      var r := ReplayBatches(e, batches[..k]);
      && k <= |SendBlocks(g, limit)|
      && (r.Some? <==> BlocksServed(e, g, SendBlocks(g, limit), k))
      && (!IsPartial(g) ==> r.Some?)
      && (r.Some? ==> Receiving(e, g, Sent(Join(SendBlocks(g, limit)[..k])), r.value))
  {
    hide Sendable, SendBlocks, Join, Receiving, Stretch, BatchOk, StoreLeaves, BatchOf, BlockServed, IsPartial;
    var blocks := SendBlocks(g, limit);
    SendableParts(e, g);
    if k == 0 {
      NothingReceived(e, g, batches[..0], blocks[..0]);
    } else {
      ReplayBatchesPrefix(e, g, limit, batches, k - 1);
      ReplayBatchesNext(e, batches, k - 1);
      BlockIsStretch(g, limit, k - 1);
      JoinNext(blocks, k - 1);
      SentConcat(Join(blocks[..k - 1]), blocks[k - 1]);
      var before := ReplayBatches(e, batches[..k - 1]);
      if before.Some? {
        BlockAccepted(e, g, Sent(Join(blocks[..k - 1])), before.value, blocks[k - 1], k - 1, |blocks|);
      }
    }
  }

  lemma NothingReceived(e: Suite, g: Graph, batches: seq<Batch>, blocks: seq<seq<Edge>>)
    requires batches == [] && blocks == []
    ensures ReplayBatches(e, batches) == Some(map[]) && Receiving(e, g, Sent(Join(blocks)), map[])
  {
  }

  /** Whatever batches a receiver is sent, what it holds is sound. */
  lemma {:induction false} ReplayBatchesIsSound(e: Suite, batches: seq<Batch>)
    requires ReplayBatches(e, batches).Some?
    ensures HeldSound(e, ReplayBatches(e, batches).value)
    decreases |batches|
  {
    hide BatchOk, StoreLeaves, ReceivedSound, HeldSound;
    if batches == [] {
      NothingHeld(e);
    } else {
      var n := |batches| - 1;
      ReplayBatchesIsSound(e, batches[..n]);
      var before := ReplayBatches(e, batches[..n]).value;
      AcceptedBatchIsSound(e, before, batches[n]);
      StoreLeavesSound(e, before, batches[n].relationships, batches[n].leaves);
    }
  }

  lemma NothingHeld(e: Suite)
    ensures HeldSound(e, map[])
  {
  }

  // ----- Proofs stay valid -----

  /** The leaf sent for an edge carries valid proofs when the sender's leaf does. */
  lemma EquippedProofsSound(e: Suite, g: Graph, block: seq<Edge>, h: Hash)
    requires Sendable(e, g) && !IsPartial(g) && h in g.leafs && LeafProofsSound(e, g.leafs[h])
    ensures LeafProofsSound(e, Equipped(e, g, block, h))
  {
    hide RootOk, SoundLeaf, LinkProof, BranchOk, TreeRoot, IsPartial, ChildrenIn, ChildrenOk;
    var was, l := g.leafs[h], Equipped(e, g, block, h);
    assert SendableLeaf(e, g, was);
    SameBranches(e, was, l);
    forall c | c in l.proofs
      ensures BranchOk(e, l, l.proofs[c])
    {
      if c !in was.proofs || l.proofs[c] != was.proofs[c] {
        LinkProofOk(e, l, was.links, c);
      }
    }
  }

  lemma SameBranches(e: Suite, a: Leaf, b: Leaf)
    ensures a.classicMerkleRoot == b.classicMerkleRoot ==> forall x :: BranchOk(e, a, x) == BranchOk(e, b, x)
  {
  }

  lemma {:induction false} ReplayBatchesSound(e: Suite, g: Graph, limit: nat, batches: seq<Batch>, k: nat)
    requires Sendable(e, g) && !IsPartial(g) && IsBatching(e, g, limit, batches) && k <= |batches|
    requires ProofsSound(e, g.leafs)
    ensures
      var r := ReplayBatches(e, batches[..k]);
      r.Some? && ProofsSound(e, r.value)
  {
    hide Sendable, SendBlocks, Join, Receiving, Stretch, BatchOk, StoreLeaves, BatchOf, BlockServed, IsPartial,
         ProofsSound, Extended, EdgeAccepted;
    var blocks := SendBlocks(g, limit);
    SendableParts(e, g);
    ReplayBatchesPrefix(e, g, limit, batches, k);
    if k == 0 {
      NoBatchesSound(e, batches[..0]);
    } else {
      ReplayBatchesPrefix(e, g, limit, batches, k - 1);
      ReplayBatchesSound(e, g, limit, batches, k - 1);
      ReplayBatchesNext(e, batches, k - 1);
      BlockIsStretch(g, limit, k - 1);
      var before := ReplayBatches(e, batches[..k - 1]).value;
      BlockAccepted(e, g, Sent(Join(blocks[..k - 1])), before, blocks[k - 1], k - 1, |blocks|);
      ExtendedSound(e, g, Sent(Join(blocks[..k - 1])), before, blocks[k - 1]);
    }
  }

  lemma NoBatchesSound(e: Suite, batches: seq<Batch>)
    requires batches == []
    ensures ReplayBatches(e, batches) == Some(map[]) && ProofsSound(e, map[])
  {
  }

  lemma ExtendedSound(e: Suite, g: Graph, sent: set<Hash>, leafs: map<Hash, Leaf>, block: seq<Edge>)
    requires Sendable(e, g) && !IsPartial(g) && Stretch(g, sent, block)
    requires ProofsSound(e, g.leafs) && ProofsSound(e, leafs)
    ensures BlockThere(g.leafs, block) && ProofsSound(e, Extended(e, g, leafs, block, |block|))
  {
    hide Sendable, IsPartial, Stretch, Equipped, Extended, LeafProofsSound, Sent;
    StretchThere(g, sent, block);
    SentThere(g, sent, block);
    ExtendedAt(e, g, leafs, block);
    var more := Extended(e, g, leafs, block, |block|);
    forall h | h in more
      ensures LeafProofsSound(e, more[h])
    {
      if h in Sent(block) {
        EquippedProofsSound(e, g, block, h);
      }
    }
  }

  /** For every positive batch size, an empty receiver accepts every batch of a well-formed full DAG,
      in order, and ends with exactly the sender's leaves and links, in a DAG that passes `Verify`. Its
      stored proofs verify when the sender's do. */
  lemma BatchedReplay(e: Suite, order: Order, g: Graph, limit: nat, batches: seq<Batch>)
    requires WellFormed(e, g) && IsBatching(e, g, limit, batches) && Rearranges(order)
    ensures
      var r := ReplayBatches(e, batches);
      && r.Some? && SameGraph(g, Graph(g.root, r.value))
      && WellFormed(e, Graph(g.root, r.value)) && FullPasses(e, order, Graph(g.root, r.value))
      && (ProofsSound(e, g.leafs) ==> ProofsSound(e, r.value))
  {
    hide WellFormed, SendBlocks, Join, Fits, SendOrder, FullPasses, LeafHeld, FullServes, BatchOf, ProofsSound,
         BlocksServed, IsPartial;
    var blocks := SendBlocks(g, limit);
    FullSendable(e, g);
    ReplayBatchesPrefix(e, g, limit, batches, |batches|);
    assert batches[..|batches|] == batches && blocks[..|blocks|] == blocks;
    BatchingIsOptimal(g, limit, []);
    NotPartial(e, g);
    WellFormedAcyclic(e, g);
    WellFormedServes(e, g);
    SendsEachOnce(e, g, AnyServes());
    var got := Graph(g.root, ReplayBatches(e, batches).value);
    SameGraphWellFormed(e, g, got);
    WellFormedPasses(e, order, got);
    if ProofsSound(e, g.leafs) {
      ReplayBatchesSound(e, g, limit, batches, |batches|);
    }
  }

  lemma WellFormedAcyclic(e: Suite, g: Graph)
    requires WellFormed(e, g)
    ensures Acyclic(g.leafs)
  {
  }

  /** The leaves of the first k batches. */
  ghost function SentIn(g: Graph, limit: nat, k: nat): set<Hash>
    requires k <= |SendBlocks(g, limit)|
  {
    Sent(Join(SendBlocks(g, limit)[..k]))
  }

  /** The first k batches, k positive, hold a prefix of the order with the root in it. */
  lemma BatchesArePrefix(g: Graph, limit: nat, k: nat) returns (n: nat)
    requires g.root in g.leafs && 0 < k <= |SendBlocks(g, limit)|
    ensures 0 < n <= |SendOrder(g, AnyServes())| && SentIn(g, limit, k) == Sent(SendOrder(g, AnyServes())[..n])
  {
    hide SendOrder, SendBlocks, Join, Fits, Sent;
    var blocks, edges := SendBlocks(g, limit), SendOrder(g, AnyServes());
    BatchingIsOptimal(g, limit, []);
    JoinNext(blocks, k - 1);
    n := |Join(blocks[..k])|;
    Halves(Join(blocks[..k]), Join(blocks[k..]));
    assert blocks[k - 1] in blocks;
  }

  /** What the receiver asks of a child's declared parent: that it keeps no other link, came without proofs
      together with all its children, or vouches. */
  ghost predicate BatchEdgeVouched(e: Suite, g: Graph, requested: seq<Hash>, p: Graph, block: seq<Edge>, edge: Edge) {
    edge.parent in p.leafs && |p.leafs[edge.parent].links| > 1 && !Cleared(p, block, edge.parent) ==>
      Vouched(e, g, requested, edge.parent, edge.child)
  }

  ghost predicate BlockVouched(e: Suite, g: Graph, requested: seq<Hash>, p: Graph, block: seq<Edge>) {
    forall i :: 0 <= i < |block| ==> BatchEdgeVouched(e, g, requested, p, block, block[i])
  }

  ghost predicate BatchesVouched(e: Suite, g: Graph, requested: seq<Hash>, p: Graph, limit: nat, k: nat)
    requires k <= |SendBlocks(p, limit)|
  {
    forall m :: 0 <= m < k ==> BlockVouched(e, g, requested, p, SendBlocks(p, limit)[m])
  }

  /** In a partial made by `GetPartial` the stored proof of a child is valid when the parent vouches. */
  lemma VouchedStored(e: Suite, g: Graph, requested: seq<Hash>, prune: bool, p: Graph, q: Hash, c: Hash)
    requires WellFormed(e, g) && IsPartialOf(e, g, requested, prune, p)
    requires q in p.leafs && c in p.leafs && c in p.leafs[q].links && |p.leafs[q].links| > 1
    ensures StoredProofOk(e, p.leafs[q], c) <==> Vouched(e, g, requested, q, c)
  {
    hide WellFormed, IsPartialOf, BranchOk, Vouched, Kept;
    PartialLeafFacts(e, g, requested, prune, p, q);
    KeptFacts(g.leafs[q].links, p.leafs.Keys);
  }

  lemma BlocksVouched(e: Suite, g: Graph, requested: seq<Hash>, prune: bool, p: Graph, limit: nat, k: nat)
    requires WellFormed(e, g) && IsPartialOf(e, g, requested, prune, p) && IsPartial(p)
    requires p.root in p.leafs && Keyed(p.leafs) && k <= |SendBlocks(p, limit)|
    ensures BlocksServed(e, p, SendBlocks(p, limit), k) <==> BatchesVouched(e, g, requested, p, limit, k)
  {
    hide WellFormed, IsPartialOf, IsPartial, SendBlocks, Stretch, Cleared, Join, Vouched, StoredProofOk;
    var blocks := SendBlocks(p, limit);
    forall m | 0 <= m < k
      ensures BlockServed(e, p, blocks[m]) <==> BlockVouched(e, g, requested, p, blocks[m])
    {
      BlockIsStretch(p, limit, m);
      forall i: nat | i < |blocks[m]|
        ensures EdgeAccepted(e, p, blocks[m], blocks[m][i]) <==>
                BatchEdgeVouched(e, g, requested, p, blocks[m], blocks[m][i])
      {
        var Edge(q, c) := blocks[m][i];
        StretchLinks(p, Sent(Join(blocks[..m])), blocks[m], i);
        if q in p.leafs && |p.leafs[q].links| > 1 {
          VouchedStored(e, g, requested, prune, p, q, c);
        }
      }
    }
  }

  lemma StretchLinks(g: Graph, sent: set<Hash>, block: seq<Edge>, i: nat)
    requires Stretch(g, sent, block) && i < |block| && Keyed(g.leafs)
    ensures block[i].child in g.leafs
    ensures block[i].parent in g.leafs ==> block[i].child in g.leafs[block[i].parent].links
  {
    hide Sent;
  }

  /** For every positive batch size, while a receiver takes in a partial DAG made by `GetPartial` it
      accepts batches as long as each declared parent keeps no other link, comes with all its children or
      vouches. It then holds exactly the leaves sent so far, and what it holds passes `Verify` exactly when
      the root has a proof to go by and each held leaf is served by its lowest held parent. Only proofs
      made needless by a batch that holds a parent with all its children are dropped on the way. */
  lemma BatchedPartialSyncStaysValid(e: Suite, order: Order, g: Graph, requested: seq<Hash>, prune: bool, p: Graph,
                                     limit: nat, batches: seq<Batch>, k: nat)
    requires WellFormed(e, g) && Rearranges(order)
    requires requested != [] && (forall h :: h in requested ==> h in g.leafs)
    requires IsPartialOf(e, g, requested, prune, p) && IsPartial(p)
    requires IsBatching(e, p, limit, batches) && 0 < k <= |batches|
    ensures
      var r := ReplayBatches(e, batches[..k]);
      && k <= |SendBlocks(p, limit)| && (r.Some? <==> BatchesVouched(e, g, requested, p, limit, k))
      && (r.Some? ==>
            && PartOf(p, SentIn(p, limit, k), Graph(p.root, r.value))
            && (Passes(e, order, Graph(p.root, r.value)) <==>
                  RootServed(g, requested, prune) && PartServed(e, g, requested, SentIn(p, limit, k)))
            && (k == |batches| ==> SameGraph(p, Graph(p.root, r.value))))
  {
    hide WellFormed, IsPartialOf, SendOrder, SendBlocks, Sent, Join, RootServed, PartialPasses, FullPasses,
         RootStepOk, BatchOf, LinkedWithin, Sendable, HeldAs, PartServed, BlocksServed, BatchesVouched;
    RootRequested(e, g, requested, prune, p, requested[0]);
    PartialRoot(e, g, requested, prune, p);
    PartialSendable(e, g, requested, prune, p);
    SendableParts(e, p);
    ReplayBatchesPrefix(e, p, limit, batches, k);
    BlocksVouched(e, g, requested, prune, p, limit, k);
    var r := ReplayBatches(e, batches[..k]);
    if r.Some? {
      var n := BatchesArePrefix(p, limit, k);
      var s := SentIn(p, limit, k);
      var q := Graph(p.root, r.value);
      SentIsPart(p, n);
      ReceivedPart(e, p, s, q);
      PartIsPartial(p, s, q);
      PartRootStep(e, g, requested, prune, p, s, q);
      PartPasses(e, g, requested, prune, p, s, q);
      if k == |batches| {
        AllReceived(e, g, requested, prune, p, limit);
      }
    }
  }

  /** So, where all stored proofs verify, every batch is accepted, and what is held passes after each
      whenever the whole partial does. */
  lemma SoundBatchedSyncStaysValid(e: Suite, order: Order, g: Graph, requested: seq<Hash>, prune: bool, p: Graph,
                                   limit: nat, batches: seq<Batch>, k: nat)
    requires WellFormed(e, g) && ProofsSound(e, g.leafs) && Rearranges(order)
    requires requested != [] && (forall h :: h in requested ==> h in g.leafs)
    requires IsPartialOf(e, g, requested, prune, p) && IsPartial(p)
    requires IsBatching(e, p, limit, batches) && 0 < k <= |batches|
    ensures
      var r := ReplayBatches(e, batches[..k]);
      r.Some? && (Passes(e, order, Graph(p.root, r.value)) <==> Passes(e, order, p))
  {
    hide WellFormed, IsPartialOf, SendBlocks, SentIn, RootServed, Passes, KeptServed, PartServed, ProofsSound, PartOf,
         Vouched, Cleared, ReplayBatches;
    BatchedPartialSyncStaysValid(e, order, g, requested, prune, p, limit, batches, k);
    PartialVerifies(e, order, g, requested, prune, p);
    SoundServes(e, g, requested, p.leafs.Keys);
    SoundServes(e, g, requested, SentIn(p, limit, k));
    assert BatchesVouched(e, g, requested, p, limit, k);
  }

  lemma ReceivedPart(e: Suite, p: Graph, s: set<Hash>, q: Graph)
    requires Receiving(e, p, s, q.leafs) && q.root == p.root && IsPartial(p)
    requires p.root in s && LinkedWithin(p.leafs, p.root, s)
    ensures PartOf(p, s, q) && (s == p.leafs.Keys ==> SameGraph(p, q))
  {
    hide HeldAs, IsPartial;
  }

  lemma PartIsPartial(p: Graph, s: set<Hash>, q: Graph)
    requires IsPartial(p) && PartOf(p, s, q)
    ensures IsPartial(q)
  {
    hide HeldAs;
    HeldSame(p.leafs[p.root], q.leafs[p.root], s);
    SubsetSize(s, p.leafs.Keys);
    assert |q.leafs| == |q.leafs.Keys| && |p.leafs| == |p.leafs.Keys|;
  }

  lemma AllReceived(e: Suite, g: Graph, requested: seq<Hash>, prune: bool, p: Graph, limit: nat)
    requires WellFormed(e, g) && IsPartialOf(e, g, requested, prune, p) && p.root in p.leafs
    ensures SentIn(p, limit, |SendBlocks(p, limit)|) == p.leafs.Keys
  {
    hide WellFormed, IsPartialOf, SendOrder, SendBlocks, Sent, Join, Fits, LinkedWithin;
    PartialRoot(e, g, requested, prune, p);
    PartialAcyclic(e, g, requested, prune, p);
    PartialLinkedWithin(e, g, requested, prune, p);
    PartialServes(p);
    SendsEachOnce(e, p, AnyServes());
    BatchingIsOptimal(p, limit, []);
    var blocks := SendBlocks(p, limit);
    assert blocks[..|blocks|] == blocks;
  }

  // ----- Without a batch size -----

  /** What the receiver asks of a parent that came alone: that it stores no proof, or one of this
      child. */
  ghost predicate EdgeServed(e: Suite, leafs: map<Hash, Leaf>, edge: Edge) {
    edge.parent in leafs && |leafs[edge.parent].links| > 1 ==>
      var p := leafs[edge.parent];
      |p.proofs| == 0 || (edge.child in p.proofs && BranchOk(e, p, p.proofs[edge.child]))
  }

  ghost predicate EdgesServed(e: Suite, leafs: map<Hash, Leaf>, edges: seq<Edge>, n: nat)
    requires n <= |edges|
  {
    forall m :: 0 < m < n ==> EdgeServed(e, leafs, edges[m])
  }

  lemma SingleStep(e: Suite, g: Graph, sent: set<Hash>, p: Hash, c: Hash, batch: Batch)
    requires WellFormed(e, g) && sent <= g.leafs.Keys && p in sent && c !in sent && c in g.leafs && c != g.root
    requires c in g.leafs[p].links && batch.leaves == [g.leafs[c]] && batch.relationships == map[c := p]
    ensures BatchOk(e, Restrict(g.leafs, sent), batch) <==> EdgeServed(e, g.leafs, Edge(p, c))
    ensures StoreLeaves(Restrict(g.leafs, sent), batch.relationships, batch.leaves) == Restrict(g.leafs, sent + {c})
  {
    hide LeafOk, RootOk, Reachable, Acyclic, LinksCommitted, BranchOk, ChildrenOk;
    SoundLeaves(e, g, c);
    SoundLeaves(e, g, p);
    CommittedChildrenOk(e, g.leafs[p]);
    var l, leafs := g.leafs[c], Restrict(g.leafs, sent);
    assert batch.leaves[..0] == [];
    assert ByHash(batch.leaves) == map[c := l];
    assert BatchLeafOk(e, leafs, batch, l) <==> ChildOk(e, g.leafs[p], false, c);
    assert batch.leaves[0] == l;
    StoreLinked(leafs, batch.relationships, l);
    assert leafs[c := l] == Restrict(g.leafs, sent + {c});
  }

  lemma SingleRoot(e: Suite, g: Graph, batch: Batch)
    requires WellFormed(e, g) && batch.leaves == [g.leafs[g.root]] && batch.relationships == map[g.root := []]
    ensures BatchOk(e, Restrict(g.leafs, {}), batch)
    ensures StoreLeaves(Restrict(g.leafs, {}), batch.relationships, batch.leaves) == Restrict(g.leafs, {} + {g.root})
  {
    hide WellFormed, RootOk;
    NotPartial(e, g);
    RootAloneOk(e, g);
    assert batch.leaves[..0] == [];
    StoreLinked(Restrict(g.leafs, {}), batch.relationships, g.leafs[g.root]);
  }

  /** What the receiver holds after n packets. */
  ghost function AfterSingles(e: Suite, g: Graph, edges: seq<Edge>, n: nat): Option<map<Hash, Leaf>>
    requires n <= |edges|
  {
    if EdgesServed(e, g.leafs, edges, n) then Some(Restrict(g.leafs, Sent(edges[..n]))) else None
  }

  lemma ReplayBatchesNext(e: Suite, batches: seq<Batch>, n: nat)
    requires n < |batches|
    ensures
      var before := ReplayBatches(e, batches[..n]);
      ReplayBatches(e, batches[..n + 1]) ==
      if before.Some? && BatchOk(e, before.value, batches[n])
      then Some(StoreLeaves(before.value, batches[n].relationships, batches[n].leaves)) else None
  {
    assert batches[..n + 1][..n] == batches[..n];
  }

  lemma SinglesNext(e: Suite, g: Graph, packets: seq<Packet>, n: nat)
    requires WellFormed(e, g) && IsSequence(e, true, g, FullServes(e), packets) && n < |packets|
    requires Sent(SendOrder(g, FullServes(e))[..n]) <= g.leafs.Keys
    ensures
      var edges := SendOrder(g, FullServes(e));
      var batch := Singles(packets)[n];
      var leafs := Restrict(g.leafs, Sent(edges[..n]));
      && (BatchOk(e, leafs, batch) <==> (n > 0 ==> EdgeServed(e, g.leafs, edges[n])))
      && StoreLeaves(leafs, batch.relationships, batch.leaves) == Restrict(g.leafs, Sent(edges[..n + 1]))
  {
    hide WellFormed, SendOrder, FullServes, BatchOk, StoreLeaves, EdgeServed, Sent, PacketOf, Singles, Restrict;
    var edges, batches := SendOrder(g, FullServes(e)), Singles(packets);
    NotPartial(e, g);
    SentNext(edges, n);
    EdgeFacts(g, FullServes(e), n);
    SingleAt(e, g, packets, n);
    if n == 0 {
      SingleRoot(e, g, batches[0]);
    } else {
      SingleStep(e, g, Sent(edges[..n]), edges[n].parent, edges[n].child, batches[n]);
    }
  }

  lemma {:induction false} SinglesPrefix(e: Suite, g: Graph, packets: seq<Packet>, n: nat)
    requires WellFormed(e, g) && IsSequence(e, true, g, FullServes(e), packets) && n <= |packets|
    ensures
      var edges := SendOrder(g, FullServes(e));
      && n <= |edges| && Sent(edges[..n]) <= g.leafs.Keys
      && ReplayBatches(e, Singles(packets)[..n]) == AfterSingles(e, g, edges, n)
  {
    hide WellFormed, SendOrder, FullServes, BatchOk, StoreLeaves, EdgeServed, Sent, PacketOf, ReplayBatches, Restrict;
    var edges, batches := SendOrder(g, FullServes(e)), Singles(packets);
    NotPartial(e, g);
    if n == 0 {
      NoneSent(edges[..0]);
      NoSingles(e, g, batches[..0]);
    } else {
      SinglesPrefix(e, g, packets, n - 1);
      SentNext(edges, n - 1);
      EdgeFacts(g, FullServes(e), n - 1);
      ReplayBatchesNext(e, batches, n - 1);
      SinglesNext(e, g, packets, n - 1);
    }
  }

  lemma NoSingles(e: Suite, g: Graph, batches: seq<Batch>)
    requires batches == []
    ensures ReplayBatches(e, batches) == Some(Restrict(g.leafs, {}))
  {
  }

  lemma SingleAt(e: Suite, g: Graph, packets: seq<Packet>, m: nat)
    requires WellFormed(e, g) && IsSequence(e, true, g, FullServes(e), packets) && m < |packets|
    ensures m < |Singles(packets)|
    ensures
      var Edge(p, c) := SendOrder(g, FullServes(e))[m];
      && c in g.leafs && Singles(packets)[m].leaves == [g.leafs[c]]
      && Singles(packets)[m].relationships == map[c := if m == 0 then [] else p]
  {
    hide WellFormed, SendOrder, FullServes, SentProofs;
    NotPartial(e, g);
    EdgeFacts(g, FullServes(e), m);
  }

  /** With a batch size of zero or less the packets lose their proofs: an empty receiver accepts a
      well-formed full DAG exactly when each parent of several links stores no proof or a valid one of
      every child that is sent under it, and then holds the sender's leaves as they are. */
  lemma SinglesReplay(e: Suite, g: Graph, packets: seq<Packet>)
    requires WellFormed(e, g) && IsSequence(e, true, g, FullServes(e), packets)
    ensures
      var edges := SendOrder(g, FullServes(e));
      var r := ReplayBatches(e, Singles(packets));
      r == if EdgesServed(e, g.leafs, edges, |edges|) then Some(g.leafs) else None
  {
    hide WellFormed, SendOrder, EdgesServed, FullServes;
    var edges := SendOrder(g, FullServes(e));
    SinglesPrefix(e, g, packets, |packets|);
    assert Singles(packets)[..|packets|] == Singles(packets) && edges[..|edges|] == edges;
    WellFormedAcyclic(e, g);
    WellFormedServes(e, g);
    NotPartial(e, g);
    SendsEachOnce(e, g, FullServes(e));
    WholeIsPart(g);
  }

  /** One leaf of a partial DAG without a batch size: what the receiver asks of the parent, which stores a
      proof of every kept child when it keeps several links, is that this proof is valid. */
  lemma PartSingle(e: Suite, p: Graph, sent: set<Hash>, q: Hash, c: Hash, batch: Batch)
    requires sent <= p.leafs.Keys && q in sent && c in p.leafs && c !in sent && c in p.leafs[q].links
    requires SoundLeaf(e, p.root, c, p.leafs[c]) && c != p.root && q != []
    requires |p.leafs[q].links| > 1 ==> c in p.leafs[q].proofs
    requires batch.leaves == [p.leafs[c]] && batch.relationships == map[c := q]
    ensures BatchOk(e, Restrict(p.leafs, sent), batch) <==>
            (|p.leafs[q].links| > 1 ==> BranchOk(e, p.leafs[q], p.leafs[q].proofs[c]))
    ensures StoreLeaves(Restrict(p.leafs, sent), batch.relationships, batch.leaves) == Restrict(p.leafs, sent + {c})
  {
    hide LeafOk, RootOk, BranchOk, ChildrenOk;
    var l, leafs := p.leafs[c], Restrict(p.leafs, sent);
    assert batch.leaves[..0] == [];
    assert ByHash(batch.leaves) == map[c := l];
    assert BatchLeafOk(e, leafs, batch, l) <==> ChildOk(e, p.leafs[q], false, c);
    assert batch.leaves[0] == l;
    StoreLinked(leafs, batch.relationships, l);
    assert leafs[c := l] == Restrict(p.leafs, sent + {c});
  }

  lemma PartSingleRoot(e: Suite, p: Graph, batch: Batch)
    requires p.root in p.leafs && IsPartial(p) && SoundLeaf(e, p.root, p.root, p.leafs[p.root])
    requires batch.leaves == [p.leafs[p.root]] && batch.relationships == map[p.root := []]
    ensures BatchOk(e, Restrict(p.leafs, {}), batch)
    ensures StoreLeaves(Restrict(p.leafs, {}), batch.relationships, batch.leaves) == Restrict(p.leafs, {} + {p.root})
  {
    hide RootOk, IsPartial;
    PartialRootAlone(e, p);
    assert batch.leaves[..0] == [];
    StoreLinked(Restrict(p.leafs, {}), batch.relationships, p.leafs[p.root]);
  }

  lemma PartSingleAt(e: Suite, p: Graph, packets: seq<Packet>, m: nat)
    requires p.root in p.leafs && IsSequence(e, false, p, AnyServes(), packets) && m < |packets|
    ensures m < |Singles(packets)| && m < |SendOrder(p, AnyServes())|
    ensures
      var Edge(q, c) := SendOrder(p, AnyServes())[m];
      && c in p.leafs && (SoundLeaf(e, p.root, c, p.leafs[c]) ==>
            && Singles(packets)[m].leaves == [p.leafs[c]]
            && Singles(packets)[m].relationships == map[c := if m == 0 then [] else q])
  {
    hide SendOrder, SentProofs, RootOk, LeafOk;
    EdgeFacts(p, AnyServes(), m);
  }

  lemma PartSinglesNext(e: Suite, g: Graph, requested: seq<Hash>, prune: bool, p: Graph, packets: seq<Packet>, n: nat)
    requires WellFormed(e, g) && IsPartialOf(e, g, requested, prune, p) && IsPartial(p) && p.root in p.leafs
    requires IsSequence(e, false, p, AnyServes(), packets) && n < |packets|
    requires Sent(SendOrder(p, AnyServes())[..n]) <= p.leafs.Keys
    ensures
      var edges := SendOrder(p, AnyServes());
      var batch := Singles(packets)[n];
      var leafs := Restrict(p.leafs, Sent(edges[..n]));
      && (BatchOk(e, leafs, batch) <==> (n > 0 ==> EdgeVouched(e, g, requested, p, edges[n])))
      && StoreLeaves(leafs, batch.relationships, batch.leaves) == Restrict(p.leafs, Sent(edges[..n + 1]))
  {
    hide WellFormed, IsPartialOf, IsPartial, SendOrder, BatchOk, StoreLeaves, Sent, PacketOf, Singles, Restrict,
         Vouched, BranchOk, Kept;
    var edges, batches := SendOrder(p, AnyServes()), Singles(packets);
    SentNext(edges, n);
    EdgeFacts(p, AnyServes(), n);
    var Edge(q, c) := edges[n];
    PartialSound(e, g, requested, prune, p, c);
    PartSingleAt(e, p, packets, n);
    if n == 0 {
      PartSingleRoot(e, p, batches[0]);
    } else {
      PartialSound(e, g, requested, prune, p, q);
      PartialLeafFacts(e, g, requested, prune, p, q);
      KeptFacts(g.leafs[q].links, p.leafs.Keys);
      PartSingle(e, p, Sent(edges[..n]), q, c, batches[n]);
    }
  }

  /** Without a positive batch size a partial made by `GetPartial` is received as it is leaf by leaf: the same
      packets are accepted, and the same leaves are held after each. */
  lemma {:induction false} PartialSinglesReplay(e: Suite, g: Graph, requested: seq<Hash>, prune: bool, p: Graph,
                                                packets: seq<Packet>, n: nat)
    requires WellFormed(e, g) && IsPartialOf(e, g, requested, prune, p) && IsPartial(p) && p.root in p.leafs
    requires IsSequence(e, false, p, AnyServes(), packets) && n <= |packets|
    ensures n <= |Singles(packets)| && n <= |SendOrder(p, AnyServes())|
    ensures ReplayBatches(e, Singles(packets)[..n]) == HeldAfter(e, g, requested, p, n)
    ensures ReplayBatches(e, Singles(packets)[..n]) == Replay(e, packets[..n])
  {
    hide WellFormed, IsPartialOf, IsPartial, SendOrder, BatchOk, StoreLeaves, EdgeVouched, Sent, PacketOf,
         ReplayBatches,
         Restrict, Replay;
    var edges, batches := SendOrder(p, AnyServes()), Singles(packets);
    ReplayPartialPrefix(e, g, requested, prune, p, packets, n);
    if n == 0 {
      NoneSent(edges[..0]);
      NoSingles(e, p, batches[..0]);
    } else {
      PartialSinglesReplay(e, g, requested, prune, p, packets, n - 1);
      ReplayPartialPrefix(e, g, requested, prune, p, packets, n - 1);
      ReplayBatchesNext(e, batches, n - 1);
      PartSinglesNext(e, g, requested, prune, p, packets, n - 1);
    }
  }
}
