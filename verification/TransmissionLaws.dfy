/** Replaying a DAG's packets: an empty receiver accepts each in order and ends with the sender's
    leaves. While it receives a partial DAG, it is said exactly which packets it accepts and after which
    of them what it holds verifies. */
module TransmissionLaws {
  import opened ByteStrings
  import opened DagModel
  import opened ParentIndex
  import opened Traversal
  import opened DagVerify
  import opened Partial
  import opened PartialLaws
  import opened BreadthFirst
  import opened Transmission

  /** What makes a leaf pass where its packet arrives. */
  ghost predicate SoundLeaf(e: Suite, root: Hash, h: Hash, l: Leaf) {
    && l.hash == h && h != []
    && if h == root then RootOk(e, l, None) else LeafOk(e, l)
  }

  lemma SoundLeaves(e: Suite, g: Graph, h: Hash)
    requires WellFormed(e, g) && h in g.leafs
    ensures SoundLeaf(e, g.root, h, g.leafs[h])
  {
    hide LinksCommitted, Reachable, Acyclic, TotalsOk;
  }

  /** Well-formed parents have distinct links, so their trees can be built. */
  lemma WellFormedServes(e: Suite, g: Graph)
    requires WellFormed(e, g)
    ensures ServedWithin(g.leafs, FullServes(e), g.root) && ServedWithin(g.leafs, AnyServes(), g.root)
    ensures forall h :: h in g.leafs ==> FullServes(e)(g.leafs[h])
  {
    hide TreeRoot, RootOk, LeafOk, Reachable, Acyclic;
    forall h | h in g.leafs
      ensures FullServes(e)(g.leafs[h])
    {
      CommittedChildrenOk(e, g.leafs[h]);
    }
    forall h | h in g.leafs && h != g.root
      ensures exists q :: q in g.leafs && h in g.leafs[q].links && FullServes(e)(g.leafs[q])
    {
      NonRootHasParent(e, g, h);
    }
  }

  /** The n-th edge leads from a leaf already sent to one that is not. */
  lemma EdgeFacts(g: Graph, serves: Serves, n: nat)
    requires g.root in g.leafs && n < |SendOrder(g, serves)|
    ensures
      var edges := SendOrder(g, serves);
      var Edge(p, c) := edges[n];
      && c in g.leafs
      && if n == 0 then c == g.root && Sent(edges[..n]) == {}
         else && p in g.leafs && c in g.leafs[p].links && c != g.root && g.root in Sent(edges[..n])
              && p in Sent(edges[..n]) && c !in Sent(edges[..n])
  {
    hide SendOrder, Sequenced;
    SendOrderFacts(g, serves);
    var edges := SendOrder(g, serves);
    if n > 0 {
      SequencedAt(g.leafs, {g.root}, edges[1..], n - 1);
      assert edges[..n] == [edges[0]] + edges[1..][..n - 1];
      SentConcat([edges[0]], edges[1..][..n - 1]);
      assert [edges[0]][1..] == [];
    } else {
      assert edges[..n] == [];
    }
  }

  /** Each leaf is sent exactly once. */
  lemma SendsEachOnce(e: Suite, g: Graph, serves: Serves)
    requires g.root in g.leafs && Acyclic(g.leafs) && ServedWithin(g.leafs, serves, g.root)
    ensures Sent(SendOrder(g, serves)) == g.leafs.Keys && |SendOrder(g, serves)| == |g.leafs|
  {
    hide SendOrder, Sequenced;
    SendOrderFacts(g, serves);
    var edges := SendOrder(g, serves);
    SequencedSent(g.leafs, {g.root}, edges[1..]);
    assert edges == [edges[0]] + edges[1..] && Sent(edges) == {g.root} + Sent(edges[1..]);
    assert |g.leafs| == |g.leafs.Keys|;
  }

  lemma ReplayNext(e: Suite, packets: seq<Packet>, n: nat)
    requires n < |packets|
    ensures
      var before := Replay(e, packets[..n]);
      Replay(e, packets[..n + 1]) ==
      if before.Some? && PacketOk(e, before.value, packets[n]) then Some(Applied(before.value, packets[n])) else None
  {
    assert packets[..n + 1][..n] == packets[..n];
  }

  /** Whatever packets a receiver is sent, what it holds is sound. */
  lemma {:induction false} ReplayIsSound(e: Suite, packets: seq<Packet>)
    requires Replay(e, packets).Some?
    ensures HeldSound(e, Replay(e, packets).value)
    decreases |packets|
  {
    hide PacketOk, Applied;
    if packets != [] {
      var n := |packets| - 1;
      ReplayIsSound(e, packets[..n]);
      AcceptedIsSound(e, Replay(e, packets[..n]).value, packets[n]);
    }
  }

  // ----- Full DAGs -----

  /** The receiver's leaves so far are the sender's, up to proofs. */
  ghost predicate Copies(g: Graph, sent: set<Hash>, leafs: map<Hash, Leaf>) {
    leafs.Keys == sent && sent <= g.leafs.Keys && forall h :: h in leafs ==> SameLeaf(g.leafs[h], leafs[h])
  }

  /** One packet of a full DAG is accepted and copies one more leaf. */
  lemma CopyNext(e: Suite, g: Graph, sent: set<Hash>, leafs: map<Hash, Leaf>, p: Hash, c: Hash)
    requires WellFormed(e, g) && Copies(g, sent, leafs)
    requires p in sent && c in g.leafs[p].links && c !in sent && c != g.root
    ensures c in g.leafs && PacketOk(e, leafs, PacketOf(e, true, g.leafs, Edge(p, c)))
    ensures Copies(g, sent + {c}, Applied(leafs, PacketOf(e, true, g.leafs, Edge(p, c))))
  {
    hide LinksCommitted, Reachable, Acyclic, RootOk, LeafOk, TreeRoot, LinkProof, BranchOk;
    SoundLeaves(e, g, c);
    SoundLeaves(e, g, p);
    SameLeafFields(e, g.leafs[p], leafs[p]);
    if |g.leafs[p].links| > 1 {
      CommittedChildrenOk(e, g.leafs[p]);
      LinkProofOk(e, leafs[p], g.leafs[p].links, c);
    }
  }

  /** The prefix of a full DAG's packets is accepted and gives a prefix of its leaves. */
  lemma {:induction false} ReplayFullPrefix(e: Suite, g: Graph, packets: seq<Packet>, n: nat)
    requires WellFormed(e, g) && IsSequence(e, true, g, FullServes(e), packets) && n <= |packets|
    ensures
      var r := Replay(e, packets[..n]);
      r.Some? && Copies(g, Sent(SendOrder(g, FullServes(e))[..n]), r.value)
  {
    hide WellFormed, Replay, SendOrder, Copies, FullServes, PacketOk, Applied, PacketOf;
    var edges := SendOrder(g, FullServes(e));
    WellFormedCount(e, g);
    if n == 0 {
      NothingCopied(e, g, packets[..0], edges[..0]);
    } else {
      ReplayFullPrefix(e, g, packets, n - 1);
      ReplayNext(e, packets, n - 1);
      EdgeFacts(g, FullServes(e), n - 1);
      SentNext(edges, n - 1);
      var before := Replay(e, packets[..n - 1]).value;
      if n == 1 {
        CopyRoot(e, g, before);
      } else {
        CopiesParts(g, Sent(edges[..n - 1]), before);
        CopyNext(e, g, Sent(edges[..n - 1]), before, edges[n - 1].parent, edges[n - 1].child);
      }
    }
  }

  lemma NothingCopied(e: Suite, g: Graph, packets: seq<Packet>, edges: seq<Edge>)
    requires packets == [] && edges == []
    ensures Replay(e, packets) == Some(map[]) && Copies(g, Sent(edges), map[])
  {
  }

  lemma CopiesParts(g: Graph, sent: set<Hash>, leafs: map<Hash, Leaf>)
    requires Copies(g, sent, leafs)
    ensures sent <= g.leafs.Keys && leafs.Keys == sent
  {
  }

  lemma CopyRoot(e: Suite, g: Graph, leafs: map<Hash, Leaf>)
    requires WellFormed(e, g) && Copies(g, {}, leafs)
    ensures PacketOk(e, leafs, Packet(g.leafs[g.root], [], map[]))
    ensures Copies(g, {} + {g.root}, Applied(leafs, Packet(g.leafs[g.root], [], map[])))
  {
    hide LinksCommitted, Reachable, Acyclic, LeafOk, TotalsOk;
    SoundLeaves(e, g, g.root);
  }

  /** A packet of a full DAG adds a valid proof, if any. */
  lemma CopyNextSound(e: Suite, g: Graph, sent: set<Hash>, leafs: map<Hash, Leaf>, p: Hash, c: Hash)
    requires WellFormed(e, g) && Copies(g, sent, leafs) && ProofsSound(e, g.leafs) && ProofsSound(e, leafs)
    requires p in sent && c in g.leafs && c in g.leafs[p].links && c !in sent
    ensures ProofsSound(e, Applied(leafs, PacketOf(e, true, g.leafs, Edge(p, c))))
  {
    hide WellFormed, LinksCommitted, TreeRoot, LinkProof, BranchOk, SameLeaf;
    var packet := PacketOf(e, true, g.leafs, Edge(p, c));
    WellFormedLeaf(e, g, c);
    WellFormedLeaf(e, g, p);
    SameLeafFields(e, g.leafs[p], leafs[p]);
    if |g.leafs[p].links| > 1 {
      CommittedChildrenOk(e, g.leafs[p]);
      LinkProofOk(e, leafs[p], g.leafs[p].links, c);
    }
    var after := Applied(leafs, packet);
    forall h | h in after
      ensures LeafProofsSound(e, after[h])
    {
      if h == p && p != [] {
        StoredProofSound(e, leafs[p], after[p], packet, c);
      }
    }
  }

  lemma StoredProofSound(e: Suite, l: Leaf, after: Leaf, packet: Packet, c: Hash)
    requires LeafProofsSound(e, l) && after.classicMerkleRoot == l.classicMerkleRoot
    requires after.proofs == if c in packet.proofs then l.proofs[c := packet.proofs[c]] else l.proofs
    requires c in packet.proofs ==> BranchOk(e, l, packet.proofs[c])
    ensures LeafProofsSound(e, after)
  {
  }

  lemma {:induction false} ReplayFullSound(e: Suite, g: Graph, packets: seq<Packet>, n: nat)
    requires WellFormed(e, g) && IsSequence(e, true, g, FullServes(e), packets) && n <= |packets|
    requires ProofsSound(e, g.leafs)
    ensures Replay(e, packets[..n]).Some? && ProofsSound(e, Replay(e, packets[..n]).value)
  {
    hide WellFormed, Replay, SendOrder, Copies, FullServes, PacketOk, Applied, PacketOf, ProofsSound;
    var edges := SendOrder(g, FullServes(e));
    ReplayFullPrefix(e, g, packets, n);
    WellFormedCount(e, g);
    if n == 0 {
      NothingSound(e, packets[..0]);
    } else {
      ReplayFullPrefix(e, g, packets, n - 1);
      ReplayFullSound(e, g, packets, n - 1);
      ReplayNext(e, packets, n - 1);
      EdgeFacts(g, FullServes(e), n - 1);
      var before := Replay(e, packets[..n - 1]).value;
      if n == 1 {
        RootSound(e, g, before);
      } else {
        CopiesParts(g, Sent(edges[..n - 1]), before);
        CopyNextSound(e, g, Sent(edges[..n - 1]), before, edges[n - 1].parent, edges[n - 1].child);
      }
    }
  }

  lemma NothingSound(e: Suite, packets: seq<Packet>)
    requires packets == []
    ensures Replay(e, packets) == Some(map[]) && ProofsSound(e, map[])
  {
  }

  lemma RootSound(e: Suite, g: Graph, leafs: map<Hash, Leaf>)
    requires g.root in g.leafs && ProofsSound(e, g.leafs) && ProofsSound(e, leafs)
    ensures ProofsSound(e, Applied(leafs, Packet(g.leafs[g.root], [], map[])))
  {
    hide LeafProofsSound;
  }

  /** An empty receiver accepts every packet of a well-formed full DAG, in order, and ends with exactly
      the sender's leaves and links in a DAG that passes `Verify`. Its stored proofs verify when the
      sender's do. */
  lemma ReplayFull(e: Suite, order: Order, g: Graph, packets: seq<Packet>)
    requires WellFormed(e, g) && IsSequence(e, true, g, FullServes(e), packets) && Rearranges(order)
    ensures
      var r := Replay(e, packets);
      && r.Some? && SameGraph(g, Graph(g.root, r.value))
      && WellFormed(e, Graph(g.root, r.value)) && FullPasses(e, order, Graph(g.root, r.value))
      && |packets| == |g.leafs| && (ProofsSound(e, g.leafs) ==> ProofsSound(e, r.value))
  {
    hide Replay, SendOrder, FullPasses, FullServes, RootOk, LeafOk, LinksCommitted, Reachable, Acyclic, ProofsSound;
    var edges := SendOrder(g, FullServes(e));
    ReplayFullPrefix(e, g, packets, |packets|);
    assert packets[..|packets|] == packets && edges[..|edges|] == edges;
    WellFormedServes(e, g);
    SendsEachOnce(e, g, FullServes(e));
    var got := Graph(g.root, Replay(e, packets).value);
    SameGraphWellFormed(e, g, got);
    WellFormedPasses(e, order, got);
    if ProofsSound(e, g.leafs) {
      ReplayFullSound(e, g, packets, |packets|);
    }
  }

  // ----- Partial DAGs -----

  /** What the packets sent so far of a partial DAG amount to. */
  ghost function PartAfter(p: Graph, n: nat): Graph
    requires n <= |SendOrder(p, AnyServes())|
  {
    Graph(p.root, Restrict(p.leafs, Sent(SendOrder(p, AnyServes())[..n])))
  }

  lemma PartialSound(e: Suite, g: Graph, requested: seq<Hash>, prune: bool, p: Graph, h: Hash)
    requires WellFormed(e, g)
    requires IsPartialOf(e, g, requested, prune, p) && h in p.leafs
    ensures SoundLeaf(e, p.root, h, p.leafs[h])
  {
    hide WellFormed, IsPartialOf, IdentityOf;
    PartialRoot(e, g, requested, prune, p);
    PartSame(e, g, requested, prune, p, h);
    SoundLeaves(e, g, h);
    SameIdentityOk(e, g.leafs[h], p.leafs[h]);
  }

  /** The packet for a child carries the proof its parent stores, so the parent gains nothing. */
  lemma PartNext(e: Suite, p: Graph, sent: set<Hash>, q: Hash, c: Hash)
    requires sent <= p.leafs.Keys && q in sent && c in p.leafs && c !in sent && c in p.leafs[q].links
    requires SoundLeaf(e, p.root, c, p.leafs[c]) && c != p.root && q != []
    requires |p.leafs[q].links| > 1 ==> c in p.leafs[q].proofs
    ensures
      var packet := PacketOf(e, false, p.leafs, Edge(q, c));
      && (PacketOk(e, Restrict(p.leafs, sent), packet) <==>
            (|p.leafs[q].links| > 1 ==> BranchOk(e, p.leafs[q], p.leafs[q].proofs[c])))
      && Applied(Restrict(p.leafs, sent), packet) == Restrict(p.leafs, sent + {c})
  {
    hide RootOk, LeafOk, BranchOk;
    var packet := PacketOf(e, false, p.leafs, Edge(q, c));
    var stored := Restrict(p.leafs, sent)[c := p.leafs[c]];
    assert stored == Restrict(p.leafs, sent + {c});
    var parent := p.leafs[q];
    if c in parent.proofs {
      assert parent.proofs[c := parent.proofs[c]] == parent.proofs;
      assert parent.(proofs := parent.proofs[c := parent.proofs[c]]) == parent;
    }
    assert stored[q := parent] == stored;
  }

  /** What the receiver asks of a child's declared parent: that it keeps no other link, or vouches. */
  ghost predicate EdgeVouched(e: Suite, g: Graph, requested: seq<Hash>, p: Graph, edge: Edge) {
    edge.parent in p.leafs && |p.leafs[edge.parent].links| > 1 ==> Vouched(e, g, requested, edge.parent, edge.child)
  }

  ghost predicate EdgesVouched(e: Suite, g: Graph, requested: seq<Hash>, p: Graph, edges: seq<Edge>, n: nat)
    requires n <= |edges|
  {
    forall m :: 0 < m < n ==> EdgeVouched(e, g, requested, p, edges[m])
  }

  lemma PartEdge(e: Suite, g: Graph, requested: seq<Hash>, prune: bool, p: Graph, n: nat)
    requires WellFormed(e, g) && IsPartialOf(e, g, requested, prune, p)
    requires p.root in p.leafs && 0 < n < |SendOrder(p, AnyServes())|
    ensures
      var sent := Sent(SendOrder(p, AnyServes())[..n]);
      var Edge(q, c) := SendOrder(p, AnyServes())[n];
      sent <= p.leafs.Keys ==>
        && q in p.leafs && c in p.leafs
        && var packet := PacketOf(e, false, p.leafs, Edge(q, c));
           && (PacketOk(e, Restrict(p.leafs, sent), packet) <==> EdgeVouched(e, g, requested, p, Edge(q, c)))
           && Applied(Restrict(p.leafs, sent), packet) == Restrict(p.leafs, sent + {c})
  {
    hide WellFormed, IsPartialOf, SendOrder, Sent, PacketOf, PacketOk, Applied, BranchOk, Kept, Vouched;
    EdgeFacts(p, AnyServes(), n);
    var Edge(q, c) := SendOrder(p, AnyServes())[n];
    PartialSound(e, g, requested, prune, p, c);
    PartialSound(e, g, requested, prune, p, q);
    PartialLeafFacts(e, g, requested, prune, p, q);
    KeptFacts(g.leafs[q].links, p.leafs.Keys);
    if Sent(SendOrder(p, AnyServes())[..n]) <= p.leafs.Keys {
      PartNext(e, p, Sent(SendOrder(p, AnyServes())[..n]), q, c);
    }
  }

  /** What the receiver holds after n packets, if it accepts them. */
  ghost function HeldAfter(e: Suite, g: Graph, requested: seq<Hash>, p: Graph, n: nat): Option<map<Hash, Leaf>>
    requires n <= |SendOrder(p, AnyServes())|
  {
    if EdgesVouched(e, g, requested, p, SendOrder(p, AnyServes()), n) then Some(PartAfter(p, n).leafs) else None
  }

  lemma {:induction false} ReplayPartialPrefix(e: Suite, g: Graph, requested: seq<Hash>, prune: bool, p: Graph,
                                               packets: seq<Packet>, n: nat)
    requires WellFormed(e, g) && IsPartialOf(e, g, requested, prune, p)
    requires p.root in p.leafs && IsSequence(e, false, p, AnyServes(), packets) && n <= |packets|
    ensures Replay(e, packets[..n]) == HeldAfter(e, g, requested, p, n)
    ensures Sent(SendOrder(p, AnyServes())[..n]) <= p.leafs.Keys
  {
    hide WellFormed, IsPartialOf, Replay, SendOrder, PacketOf, PacketOk, Applied, Sent, EdgeVouched;
    var edges := SendOrder(p, AnyServes());
    if n == 0 {
      NothingCopied(e, p, packets[..0], edges[..0]);
      assert Sent(edges[..0]) == {} by { NoneSent(edges[..0]); }
    } else {
      ReplayPartialPrefix(e, g, requested, prune, p, packets, n - 1);
      ReplayNext(e, packets, n - 1);
      EdgeFacts(p, AnyServes(), n - 1);
      SentNext(edges, n - 1);
      if n == 1 {
        PartRoot(e, g, requested, prune, p);
      } else {
        PartEdge(e, g, requested, prune, p, n - 1);
      }
    }
  }

  lemma NoneSent(edges: seq<Edge>)
    requires edges == []
    ensures Sent(edges) == {}
  {
  }

  lemma PartRoot(e: Suite, g: Graph, requested: seq<Hash>, prune: bool, p: Graph)
    requires WellFormed(e, g) && IsPartialOf(e, g, requested, prune, p)
    requires p.root in p.leafs
    ensures
      var packet := Packet(p.leafs[p.root], [], map[]);
      && PacketOk(e, Restrict(p.leafs, {}), packet)
      && Applied(Restrict(p.leafs, {}), packet) == Restrict(p.leafs, {} + {p.root})
  {
    hide WellFormed, IsPartialOf, RootOk, LeafOk;
    PartialSound(e, g, requested, prune, p, p.root);
  }

  /** What was sent holds a parent of each of its leaves. */
  lemma SentIsPart(p: Graph, n: nat)
    requires p.root in p.leafs && 0 < n <= |SendOrder(p, AnyServes())|
    requires Sent(SendOrder(p, AnyServes())[..n]) <= p.leafs.Keys
    ensures PartOf(p, Sent(SendOrder(p, AnyServes())[..n]), PartAfter(p, n))
    decreases n
  {
    hide SendOrder, Sent;
    var edges := SendOrder(p, AnyServes());
    EdgeFacts(p, AnyServes(), n - 1);
    SentNext(edges, n - 1);
    if n > 1 {
      SentIsPart(p, n - 1);
    }
    var s := Sent(edges[..n]);
    assert forall h :: h in s ==> PartAfter(p, n).leafs[h] == p.leafs[h];
  }

  /** While a receiver takes in a partial DAG made by `GetPartial`, it accepts packets as long as each
      declared parent keeps no other link or vouches for the child. It then holds exactly the leaves sent
      so far, proofs included, and at the end the whole partial. What it holds passes `Verify` exactly
      when the root has a proof to go by and each held leaf is served by its lowest held parent. */
  lemma PartialSyncStaysValid(e: Suite, order: Order, g: Graph, requested: seq<Hash>, prune: bool, p: Graph,
                              packets: seq<Packet>, n: nat)
    requires WellFormed(e, g) && Rearranges(order)
    requires requested != [] && (forall h :: h in requested ==> h in g.leafs)
    requires IsPartialOf(e, g, requested, prune, p) && IsPartial(p)
    requires IsSequence(e, false, p, AnyServes(), packets) && 0 < n <= |packets|
    ensures Replay(e, packets[..n]) == HeldAfter(e, g, requested, p, n)
    ensures Passes(e, order, PartAfter(p, n)) <==>
              RootServed(g, requested, prune) && PartServed(e, g, requested, Sent(SendOrder(p, AnyServes())[..n]))
    ensures |packets| == |p.leafs| && PartAfter(p, |packets|) == p
  {
    hide WellFormed, IsPartialOf, Replay, SendOrder, Sent, RootServed, PartServed, PartialPasses, FullPasses,
         RootStepOk, LinkedWithin, EdgesVouched;
    RootRequested(e, g, requested, prune, p, requested[0]);
    PartialRoot(e, g, requested, prune, p);
    ReplayPartialPrefix(e, g, requested, prune, p, packets, n);
    var edges := SendOrder(p, AnyServes());
    var s := Sent(edges[..n]);
    SentIsPart(p, n);
    RestrictSize(p.leafs, s);
    PartRootStep(e, g, requested, prune, p, s, PartAfter(p, n));
    PartPasses(e, g, requested, prune, p, s, PartAfter(p, n));
    PartialAcyclic(e, g, requested, prune, p);
    PartialLinkedWithin(e, g, requested, prune, p);
    PartialServes(p);
    SendsEachOnce(e, p, AnyServes());
    assert edges[..|edges|] == edges;
    WholeIsPart(p);
  }

  /** So, where all stored proofs verify, every packet is accepted, and what is held passes after each
      whenever the whole partial does. */
  lemma SoundSyncStaysValid(e: Suite, order: Order, g: Graph, requested: seq<Hash>, prune: bool, p: Graph,
                            packets: seq<Packet>, n: nat)
    requires WellFormed(e, g) && ProofsSound(e, g.leafs) && Rearranges(order)
    requires requested != [] && (forall h :: h in requested ==> h in g.leafs)
    requires IsPartialOf(e, g, requested, prune, p) && IsPartial(p)
    requires IsSequence(e, false, p, AnyServes(), packets) && 0 < n <= |packets|
    ensures Replay(e, packets[..n]) == Some(PartAfter(p, n).leafs)
    ensures Passes(e, order, PartAfter(p, n)) <==> Passes(e, order, p)
  {
    hide WellFormed, IsPartialOf, Replay, SendOrder, Sent, RootServed, Passes, KeptServed, PartServed, ProofsSound,
         Vouched;
    PartialSyncStaysValid(e, order, g, requested, prune, p, packets, n);
    PartialVerifies(e, order, g, requested, prune, p);
    SoundServes(e, g, requested, p.leafs.Keys);
    SoundServes(e, g, requested, Sent(SendOrder(p, AnyServes())[..n]));
    assert EdgesVouched(e, g, requested, p, SendOrder(p, AnyServes()), n);
  }

  lemma PartialServes(p: Graph)
    requires LinkedWithin(p.leafs, p.root, p.leafs.Keys)
    ensures ServedWithin(p.leafs, AnyServes(), p.root)
  {
    forall h | h in p.leafs && h != p.root
      ensures exists q :: q in p.leafs && h in p.leafs[q].links && AnyServes()(p.leafs[q])
    {
      var q :| q in p.leafs.Keys && q in p.leafs && h in p.leafs[q].links;
      assert AnyServes()(p.leafs[q]);
    }
  }

  lemma RestrictSize(leafs: map<Hash, Leaf>, s: set<Hash>)
    ensures |Restrict(leafs, s)| <= |leafs|
  {
    assert |leafs| == |leafs.Keys| && |Restrict(leafs, s)| == |Restrict(leafs, s).Keys|;
    SubsetSize(Restrict(leafs, s).Keys, leafs.Keys);
  }

  lemma PartialAcyclic(e: Suite, g: Graph, requested: seq<Hash>, prune: bool, p: Graph)
    requires WellFormed(e, g) && IsPartialOf(e, g, requested, prune, p)
    ensures Acyclic(p.leafs)
  {
    hide IsPartialOf, RootOk, LeafOk, Reachable, LinksCommitted, Kept;
    PartialRoot(e, g, requested, prune, p);
    var rank :| Ranked(g.leafs, rank);
    forall h, c | h in p.leafs && c in p.leafs[h].links
      ensures h in g.leafs && c in g.leafs[h].links
    {
      PartialLeafFacts(e, g, requested, prune, p, h);
      KeptFacts(g.leafs[h].links, p.leafs.Keys);
    }
    assert Ranked(p.leafs, rank);
  }
}
