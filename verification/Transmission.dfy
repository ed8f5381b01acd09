/** LeafSync one leaf at a time: the packets a sender makes of a DAG, and what the receiver checks and
    stores for each. */
module Transmission {
  import opened ByteStrings
  import opened DagModel
  import opened LinkTree
  import opened DagVerify
  import opened BreadthFirst

  /** The root's packet has an empty parent hash. */
  datatype Packet = Packet(leaf: Leaf, parentHash: Hash, proofs: map<Hash, Branch>)

  // ----- Sending -----

  /** Proofs are built for the children of a full DAG; a parent whose tree cannot be built has its
      children skipped. */
  function FullServes(e: Suite): Serves {
    (l: Leaf) => |l.links| <= 1 || TreeRoot(e, l.links).Some?
  }

  /** A partial DAG sends whatever proofs its parents store. */
  function AnyServes(): Serves {
    (l: Leaf) => true
  }

  function SentProofs(e: Suite, full: bool, parent: Leaf, child: Hash): map<Hash, Branch> {
    if full then
      if |parent.links| > 1 && child in parent.links then map[child := LinkProof(e, parent.links, child)] else map[]
    else
      if child in parent.proofs then map[child := parent.proofs[child]] else map[]
  }

  function PacketOf(e: Suite, full: bool, leafs: map<Hash, Leaf>, edge: Edge): Packet
    requires edge.child in leafs && edge.parent in leafs
  {
    Packet(leafs[edge.child], edge.parent, SentProofs(e, full, leafs[edge.parent], edge.child))
  }

  ghost predicate AllThere(leafs: map<Hash, Leaf>, edges: seq<Edge>) {
    && (forall i :: 0 <= i < |edges| ==> edges[i].child in leafs)
    && forall i :: 0 < i < |edges| ==> edges[i].parent in leafs
  }

  ghost function Packets(e: Suite, full: bool, leafs: map<Hash, Leaf>, edges: seq<Edge>): seq<Packet>
    requires AllThere(leafs, edges)
  {
    seq(|edges|, i requires 0 <= i < |edges| =>
      if i == 0 then Packet(leafs[edges[0].child], [], map[]) else PacketOf(e, full, leafs, edges[i]))
  }

  /** Where the loop over one parent's sorted links is. */
  ghost predicate Turn(leafs: map<Hash, Leaf>, serves: Serves, parent: Hash, sorted: seq<Hash>, j: nat,
                       start: set<Hash>, kids: seq<Hash>, seen: set<Hash>)
    requires j <= |sorted|
  {
    && parent in leafs && sorted == TreeKeys(leafs[parent].links) && seen == start + Elements(kids)
    && (forall c :: c in kids ==> c in leafs)
    && if serves(leafs[parent]) then kids + Fresh(leafs, sorted[j..], seen) == Fresh(leafs, sorted, start)
       else kids == []
  }

  lemma TurnStart(leafs: map<Hash, Leaf>, serves: Serves, parent: Hash, sorted: seq<Hash>, start: set<Hash>)
    requires parent in leafs && sorted == TreeKeys(leafs[parent].links)
    ensures Turn(leafs, serves, parent, sorted, 0, start, [], start)
  {
    assert sorted[0..] == sorted && start + Elements([]) == start;
  }

  lemma TurnStep(leafs: map<Hash, Leaf>, serves: Serves, parent: Hash, sorted: seq<Hash>, j: nat,
                 start: set<Hash>, kids: seq<Hash>, seen: set<Hash>)
    requires j < |sorted| && Turn(leafs, serves, parent, sorted, j, start, kids, seen)
    ensures
      if sorted[j] in leafs && sorted[j] !in seen && serves(leafs[parent])
      then Turn(leafs, serves, parent, sorted, j + 1, start, kids + [sorted[j]], seen + {sorted[j]})
      else Turn(leafs, serves, parent, sorted, j + 1, start, kids, seen)
  {
    hide SortedKeys, Fresh;
    FreshStep(leafs, sorted, j, seen);
    var c := sorted[j];
    if c in leafs && c !in seen && serves(leafs[parent]) {
      var rest := Fresh(leafs, sorted[j + 1..], seen + {c});
      assert kids + [c] + rest == kids + ([c] + rest);
      assert Elements(kids + [c]) == Elements(kids) + {c};
    }
  }

  lemma TurnEnd(leafs: map<Hash, Leaf>, serves: Serves, queue: seq<Hash>, sorted: seq<Hash>,
                start: set<Hash>, kids: seq<Hash>, seen: set<Hash>)
    requires queue != [] && Turn(leafs, serves, queue[0], sorted, |sorted|, start, kids, seen)
    ensures Bfs(leafs, serves, queue, start) == EdgesTo(queue[0], kids) + Bfs(leafs, serves, queue[1..] + kids, seen)
    ensures leafs.Keys - seen <= leafs.Keys - start
    ensures kids != [] ==> leafs.Keys - seen != leafs.Keys - start
  {
    hide Bfs, SortedKeys;
    assert sorted[|sorted|..] == [];
    BfsStep(leafs, serves, queue, start);
    if kids != [] {
      assert kids[0] in kids && kids[0] in Elements(kids);
      assert Kids(leafs, serves, queue[0], start) == kids;
    }
  }

  lemma EdgesToSnoc(parent: Hash, kids: seq<Hash>, c: Hash)
    ensures EdgesTo(parent, kids + [c]) == EdgesTo(parent, kids) + [Edge(parent, c)]
  {
  }

  lemma PacketsSnoc(e: Suite, full: bool, leafs: map<Hash, Leaf>, edges: seq<Edge>, edge: Edge)
    requires AllThere(leafs, edges) && edges != [] && edge.parent in leafs && edge.child in leafs
    ensures AllThere(leafs, edges + [edge])
    ensures Packets(e, full, leafs, edges + [edge]) == Packets(e, full, leafs, edges) + [PacketOf(e, full, leafs, edge)]
  {
    hide PacketOf;
  }

  /** The edges sent so far and what is left of the search. */
  ghost predicate Searching(g: Graph, serves: Serves, sent: seq<Edge>, queue: seq<Hash>, seen: set<Hash>) {
    && sent + Bfs(g.leafs, serves, queue, seen) == SendOrder(g, serves)
    && sent != [] && AllThere(g.leafs, sent)
    && forall h :: h in queue ==> h in g.leafs
  }

  lemma SearchStart(g: Graph, serves: Serves)
    requires g.root in g.leafs
    ensures Searching(g, serves, [Edge([], g.root)], [g.root], {g.root})
  {
    hide Bfs;
  }

  lemma SearchTurn(g: Graph, serves: Serves, sent: seq<Edge>, queue: seq<Hash>, start: set<Hash>,
                   sorted: seq<Hash>, kids: seq<Hash>, seen: set<Hash>)
    requires Searching(g, serves, sent, queue, start) && queue != []
    requires Turn(g.leafs, serves, queue[0], sorted, |sorted|, start, kids, seen)
    ensures Searching(g, serves, sent + EdgesTo(queue[0], kids), queue[1..] + kids, seen)
    ensures g.leafs.Keys - seen <= g.leafs.Keys - start
    ensures kids != [] ==> g.leafs.Keys - seen != g.leafs.Keys - start
  {
    hide Bfs, SendOrder, AllThere;
    TurnEnd(g.leafs, serves, queue, sorted, start, kids, seen);
    var rest := Bfs(g.leafs, serves, queue[1..] + kids, seen);
    assert sent + (EdgesTo(queue[0], kids) + rest) == sent + EdgesTo(queue[0], kids) + rest;
    assert forall h :: h in queue[1..] ==> h in queue;
    hide Turn;
    assert AllThere(g.leafs, sent + EdgesTo(queue[0], kids)) && forall h :: h in kids ==> h in g.leafs by {
      TurnKids(g.leafs, serves, queue[0], sorted, start, kids, seen, sent);
    }
  }

  lemma TurnKids(leafs: map<Hash, Leaf>, serves: Serves, parent: Hash, sorted: seq<Hash>,
                 start: set<Hash>, kids: seq<Hash>, seen: set<Hash>, sent: seq<Edge>)
    requires Turn(leafs, serves, parent, sorted, |sorted|, start, kids, seen) && sent != [] && AllThere(leafs, sent)
    ensures forall h :: h in kids ==> h in leafs
    ensures AllThere(leafs, sent + EdgesTo(parent, kids))
  {
  }

  lemma SearchDone(g: Graph, serves: Serves, sent: seq<Edge>, seen: set<Hash>)
    requires Searching(g, serves, sent, [], seen)
    ensures sent == SendOrder(g, serves)
  {
    assert sent + [] == sent;
  }

  /** With the packets made for them. */
  ghost predicate Sending(e: Suite, full: bool, g: Graph, serves: Serves, sent: seq<Edge>, packets: seq<Packet>,
                          queue: seq<Hash>, seen: set<Hash>)
  {
    Searching(g, serves, sent, queue, seen) && packets == Packets(e, full, g.leafs, sent)
  }

  lemma SendingStart(e: Suite, full: bool, g: Graph, serves: Serves)
    requires g.root in g.leafs
    ensures Sending(e, full, g, serves, [Edge([], g.root)], [Packet(g.leafs[g.root], [], map[])], [g.root], {g.root})
  {
    SearchStart(g, serves);
  }

  /** The packets for the children of one parent, found in the links not seen yet. */
  ghost predicate TurnSent(e: Suite, full: bool, leafs: map<Hash, Leaf>, sent: seq<Edge>, parent: Hash, kids: seq<Hash>,
                           packets: seq<Packet>)
  {
    && sent != [] && AllThere(leafs, sent + EdgesTo(parent, kids))
    && packets == Packets(e, full, leafs, sent + EdgesTo(parent, kids))
  }

  lemma TurnSentStart(e: Suite, full: bool, leafs: map<Hash, Leaf>, sent: seq<Edge>, parent: Hash, packets: seq<Packet>)
    requires sent != [] && AllThere(leafs, sent) && packets == Packets(e, full, leafs, sent)
    ensures TurnSent(e, full, leafs, sent, parent, [], packets)
  {
    assert sent + EdgesTo(parent, []) == sent;
  }

  lemma TurnSentStep(e: Suite, full: bool, leafs: map<Hash, Leaf>, sent: seq<Edge>, parent: Hash, kids: seq<Hash>,
                     packets: seq<Packet>, c: Hash)
    requires TurnSent(e, full, leafs, sent, parent, kids, packets) && parent in leafs && c in leafs
    ensures TurnSent(e, full, leafs, sent, parent, kids + [c], packets + [PacketOf(e, full, leafs, Edge(parent, c))])
  {
    hide Packets, PacketOf, AllThere;
    EdgesToSnoc(parent, kids, c);
    assert sent + EdgesTo(parent, kids + [c]) == sent + EdgesTo(parent, kids) + [Edge(parent, c)];
    PacketsSnoc(e, full, leafs, sent + EdgesTo(parent, kids), Edge(parent, c));
  }

  /** The children of one parent of a partial DAG. */
  method SendStoredProofs(e: Suite, d: Dag, current: Hash, sequence: seq<Packet>, queue: seq<Hash>, visited: set<Hash>,
                          ghost sent: seq<Edge>)
    returns (packets: seq<Packet>, ghost kids: seq<Hash>, queue': seq<Hash>, seen: set<Hash>, ghost sorted: seq<Hash>)
    requires current in d.leafs && TurnSent(e, false, d.leafs, sent, current, [], sequence)
    ensures Turn(d.leafs, AnyServes(), current, sorted, |sorted|, visited, kids, seen)
    ensures TurnSent(e, false, d.leafs, sent, current, kids, packets) && queue' == queue + kids
  {
    hide SortedKeys, Turn, TurnSent;
    var leaf := d.leafs[current];
    var sortedLinks := SortedKeys(Less, leaf.links);
    sorted := sortedLinks;
    packets, kids, queue', seen := sequence, [], queue, visited;
    TurnStart(d.leafs, AnyServes(), current, sorted, visited);
    for j := 0 to |sortedLinks|
      invariant Turn(d.leafs, AnyServes(), current, sorted, j, visited, kids, seen)
      invariant TurnSent(e, false, d.leafs, sent, current, kids, packets) && queue' == queue + kids
    {
      var child := sortedLinks[j];
      TurnStep(d.leafs, AnyServes(), current, sorted, j, visited, kids, seen);
      if child !in seen {
        if child in d.leafs {
          var proofs := map[];
          if child in leaf.proofs {
            proofs := map[child := leaf.proofs[child]];
          }
          TurnSentStep(e, false, d.leafs, sent, current, kids, packets, child);
          packets := packets + [Packet(d.leafs[child], current, proofs)];
          seen, queue', kids := seen + {child}, queue' + [child], kids + [child];
        }
      }
    }
  }

  /** The children of one parent of a full DAG, each with a proof against that parent. */
  method SendBuiltProofs(e: Suite, d: Dag, current: Hash, sequence: seq<Packet>, queue: seq<Hash>, visited: set<Hash>,
                         ghost sent: seq<Edge>, cpus: nat)
    returns (packets: seq<Packet>, ghost kids: seq<Hash>, queue': seq<Hash>, seen: set<Hash>, ghost sorted: seq<Hash>)
    requires cpus > 0 && current in d.leafs && |d.leafs[current].links| <= MAX_LINKS
    requires TurnSent(e, true, d.leafs, sent, current, [], sequence)
    ensures Turn(d.leafs, FullServes(e), current, sorted, |sorted|, visited, kids, seen)
    ensures TurnSent(e, true, d.leafs, sent, current, kids, packets) && queue' == queue + kids
  {
    hide SortedKeys, Turn, TurnSent, LinkProof, TreeRoot;
    var leaf := d.leafs[current];
    var sortedLinks := SortedKeys(Less, leaf.links);
    sorted := sortedLinks;
    packets, kids, queue', seen := sequence, [], queue, visited;
    TurnStart(d.leafs, FullServes(e), current, sorted, visited);
    for j := 0 to |sortedLinks|
      invariant Turn(d.leafs, FullServes(e), current, sorted, j, visited, kids, seen)
      invariant TurnSent(e, true, d.leafs, sent, current, kids, packets) && queue' == queue + kids
    {
      var child := sortedLinks[j];
      assert child in leaf.links;
      TurnStep(d.leafs, FullServes(e), current, sorted, j, visited, kids, seen);
      if child !in seen {
        if child in d.leafs {
          var proof := ProofForChild(e, leaf, child, cpus);
          if proof.Ok? {
            var proofs := map[];
            if proof.value.Some? {
              proofs := map[child := proof.value.value];
            }
            TurnSentStep(e, true, d.leafs, sent, current, kids, packets, child);
            packets := packets + [Packet(d.leafs[child], current, proofs)];
            seen, queue', kids := seen + {child}, queue' + [child], kids + [child];
          }
        }
      }
    }
  }

  lemma SendingParts(e: Suite, full: bool, g: Graph, serves: Serves, sent: seq<Edge>, packets: seq<Packet>,
                     queue: seq<Hash>, seen: set<Hash>)
    requires Sending(e, full, g, serves, sent, packets, queue, seen)
    ensures queue != [] ==> queue[0] in g.leafs && TurnSent(e, full, g.leafs, sent, queue[0], [], packets)
    ensures queue == [] ==>
            AllThere(g.leafs, SendOrder(g, serves)) && packets == Packets(e, full, g.leafs, SendOrder(g, serves))
  {
    if queue != [] {
      TurnSentStart(e, full, g.leafs, sent, queue[0], packets);
    } else {
      SearchDone(g, serves, sent, seen);
    }
  }

  ghost predicate IsSequence(e: Suite, full: bool, g: Graph, serves: Serves, packets: seq<Packet>) {
    && AllThere(g.leafs, SendOrder(g, serves))
    && packets == Packets(e, full, g.leafs, SendOrder(g, serves))
  }

  lemma SendingTurn(e: Suite, full: bool, g: Graph, serves: Serves, sent: seq<Edge>, packets: seq<Packet>,
                    queue: seq<Hash>, start: set<Hash>, sorted: seq<Hash>, kids: seq<Hash>, seen: set<Hash>,
                      made: seq<Packet>)
    requires Sending(e, full, g, serves, sent, packets, queue, start) && queue != []
    requires Turn(g.leafs, serves, queue[0], sorted, |sorted|, start, kids, seen)
    requires TurnSent(e, full, g.leafs, sent, queue[0], kids, made)
    ensures Sending(e, full, g, serves, sent + EdgesTo(queue[0], kids), made, queue[1..] + kids, seen)
    ensures g.leafs.Keys - seen <= g.leafs.Keys - start
    ensures kids != [] ==> g.leafs.Keys - seen != g.leafs.Keys - start
  {
    hide Searching, Turn, Packets, AllThere;
    SearchTurn(g, serves, sent, queue, start, sorted, kids, seen);
  }

  lemma NoRoot(e: Suite, full: bool, g: Graph, serves: Serves)
    requires g.root !in g.leafs
    ensures IsSequence(e, full, g, serves, [])
  {
  }

  method GetPartialLeafSequence(e: Suite, d: Dag) returns (sequence: seq<Packet>)
    ensures IsSequence(e, false, d.View(), AnyServes(), sequence)
  {
    hide Sending, Turn, TurnSent, Bfs, Packets;
    if d.root !in d.leafs {
      NoRoot(e, false, d.View(), AnyServes());
      return [];
    }
    ghost var g := d.View();
    sequence := [Packet(d.leafs[d.root], [], map[])];
    var visited, queue := {d.root}, [d.root];
    ghost var sent := [Edge([], d.root)];
    SendingStart(e, false, g, AnyServes());
    while |queue| > 0
      invariant Sending(e, false, g, AnyServes(), sent, sequence, queue, visited)
      decreases d.leafs.Keys - visited, |queue|
    {
      SendingParts(e, false, g, AnyServes(), sent, sequence, queue, visited);
      ghost var kids, sorted;
      var packets, queue', seen;
      packets, kids, queue', seen, sorted := SendStoredProofs(e, d, queue[0], sequence, queue[1..], visited, sent);
      SendingTurn(e, false, g, AnyServes(), sent, sequence, queue, visited, sorted, kids, seen, packets);
      sent := sent + EdgesTo(queue[0], kids);
      sequence, queue, visited := packets, queue', seen;
    }
    SendingParts(e, false, g, AnyServes(), sent, sequence, queue, visited);
  }

  method GetFullLeafSequence(e: Suite, d: Dag, cpus: nat) returns (sequence: seq<Packet>)
    requires cpus > 0 && FewLinks(d.leafs)
    ensures IsSequence(e, true, d.View(), FullServes(e), sequence)
  {
    hide Sending, Turn, TurnSent, Bfs, Packets;
    if d.root !in d.leafs {
      NoRoot(e, true, d.View(), FullServes(e));
      return [];
    }
    ghost var g := d.View();
    sequence := [Packet(d.leafs[d.root], [], map[])];
    var visited, queue := {d.root}, [d.root];
    ghost var sent := [Edge([], d.root)];
    SendingStart(e, true, g, FullServes(e));
    while |queue| > 0
      invariant Sending(e, true, g, FullServes(e), sent, sequence, queue, visited)
      decreases d.leafs.Keys - visited, |queue|
    {
      SendingParts(e, true, g, FullServes(e), sent, sequence, queue, visited);
      ghost var kids, sorted;
      var packets, queue', seen;
      packets, kids, queue', seen, sorted := SendBuiltProofs(e, d, queue[0], sequence, queue[1..], visited, sent, cpus);
      SendingTurn(e, true, g, FullServes(e), sent, sequence, queue, visited, sorted, kids, seen, packets);
      sent := sent + EdgesTo(queue[0], kids);
      sequence, queue, visited := packets, queue', seen;
    }
    SendingParts(e, true, g, FullServes(e), sent, sequence, queue, visited);
  }

  function ServesOf(e: Suite, g: Graph): Serves {
    if IsPartial(g) then AnyServes() else FullServes(e)
  }

  method GetLeafSequence(e: Suite, d: Dag, cpus: nat) returns (sequence: seq<Packet>)
    requires cpus > 0 && FewLinks(d.leafs)
    ensures IsSequence(e, !IsPartial(d.View()), d.View(), ServesOf(e, d.View()), sequence)
  {
    if IsPartial(d.View()) {
      sequence := GetPartialLeafSequence(e, d);
    } else {
      sequence := GetFullLeafSequence(e, d, cpus);
    }
  }

  // ----- Receiving -----

  ghost predicate PacketOk(e: Suite, leafs: map<Hash, Leaf>, packet: Packet) {
    if packet.parentHash == [] then RootOk(e, packet.leaf, None)
    else
      && LeafOk(e, packet.leaf)
      && (packet.parentHash in leafs && |leafs[packet.parentHash].links| > 1 ==>
            && packet.leaf.hash in packet.proofs
            && BranchOk(e, leafs[packet.parentHash], packet.proofs[packet.leaf.hash]))
  }

  /** The leaf is stored; the parent gets the link, when it lacks it, and the proof. */
  function Applied(leafs: map<Hash, Leaf>, packet: Packet): map<Hash, Leaf> {
    var h := packet.leaf.hash;
    var stored := leafs[h := packet.leaf];
    if packet.parentHash == [] || packet.parentHash !in stored then stored
    else
      var parent := stored[packet.parentHash];
      var linked := if HasLink(parent, h) then parent else parent.(links := parent.links + [h]);
      stored[packet.parentHash :=
        if h in packet.proofs then linked.(proofs := linked.proofs[h := packet.proofs[h]]) else linked]
  }

  // ----- What acceptance vouches for, in terms of CIDs and hashes -----

  /** The leaf's hash is the CID of its fields; the root's CID is also over its totals. */
  predicate CidHolds(e: Suite, l: Leaf) {
    e.cid(LeafIdentity(l.itemName, l.kind, l.classicMerkleRoot, l.currentLinkCount, l.contentHash, l.additionalData))
    == l.hash
  }

  predicate RootCidHolds(e: Suite, l: Leaf) {
    e.cid(RootIdentity(l.itemName, l.kind, l.classicMerkleRoot, l.currentLinkCount, l.leafCount, l.contentSize,
                       l.dagSize, l.contentHash, l.additionalData))
    == l.hash
  }

  /** The content a leaf brings hashes to its content hash. */
  predicate ContentHashed(e: Suite, l: Leaf) {
    match l.content
    case Some(c) => l.contentHash == Some(e.hash(c))
    case None => true
  }

  /** A leaf that came with a declared parent, or as the root. */
  predicate ReceivedSound(e: Suite, l: Leaf, parentHash: Hash) {
    ContentHashed(e, l) && if parentHash == [] then RootCidHolds(e, l) else CidHolds(e, l)
  }

  /** Every leaf held is under its own hash, which is its CID, and has the content it commits to. */
  ghost predicate HeldSound(e: Suite, leafs: map<Hash, Leaf>) {
    forall h :: h in leafs ==>
                  leafs[h].hash == h && ContentHashed(e, leafs[h])
                    && (CidHolds(e, leafs[h]) || RootCidHolds(e, leafs[h]))
  }

  /** Whatever packet is accepted, whoever made it and whatever is held. */
  lemma AcceptedIsSound(e: Suite, leafs: map<Hash, Leaf>, packet: Packet)
    requires PacketOk(e, leafs, packet)
    ensures ReceivedSound(e, packet.leaf, packet.parentHash)
    ensures HeldSound(e, leafs) ==> HeldSound(e, Applied(leafs, packet))
  {
    hide BranchOk;
    RootOkParts(e, packet.leaf, None);
    LeafOkParts(e, packet.leaf);
    if HeldSound(e, leafs) {
      AppliedSound(e, leafs, packet);
    }
  }

  lemma RootOkParts(e: Suite, l: Leaf, leafs: Option<map<Hash, Leaf>>)
    ensures RootOk(e, l, leafs) ==> RootCidHolds(e, l) && ContentHashed(e, l)
  {
    hide TotalsOk;
  }

  lemma LeafOkParts(e: Suite, l: Leaf)
    ensures LeafOk(e, l) ==> CidHolds(e, l) && ContentHashed(e, l)
  {
  }

  lemma AppliedSound(e: Suite, leafs: map<Hash, Leaf>, packet: Packet)
    requires HeldSound(e, leafs) && ReceivedSound(e, packet.leaf, packet.parentHash)
    ensures HeldSound(e, Applied(leafs, packet))
  {
    hide CidHolds, RootCidHolds, ContentHashed;
    var stored := leafs[packet.leaf.hash := packet.leaf];
    if packet.parentHash != [] && packet.parentHash in stored {
      var p := stored[packet.parentHash];
      forall links: seq<Hash>, proofs: map<Hash, Branch>
        ensures
          var l := p.(links := links, proofs := proofs);
          l.hash == p.hash && ContentHashed(e, l) == ContentHashed(e, p) && CidHolds(e, l) == CidHolds(e, p)
          && RootCidHolds(e, l) == RootCidHolds(e, p)
      {
        SameCommitments(e, p, links, proofs);
      }
      var applied := Applied(leafs, packet);
      assert applied[packet.parentHash] ==
             p.(links := applied[packet.parentHash].links, proofs := applied[packet.parentHash].proofs);
    }
  }

  /** No CID commits to the order of links or to proofs. */
  lemma SameCommitments(e: Suite, l: Leaf, links: seq<Hash>, proofs: map<Hash, Branch>)
    ensures
      var l' := l.(links := links, proofs := proofs);
      && l'.hash == l.hash && ContentHashed(e, l') == ContentHashed(e, l)
      && CidHolds(e, l') == CidHolds(e, l) && RootCidHolds(e, l') == RootCidHolds(e, l)
  {
  }

  /** What applying a packet does: the leaf is there as it came, its declared parent links it and holds the
      proof it came with, and nothing else is touched. */
  lemma AppliedEffect(leafs: map<Hash, Leaf>, packet: Packet)
    requires packet.leaf.hash != packet.parentHash
    ensures
      var h, p, after := packet.leaf.hash, packet.parentHash, Applied(leafs, packet);
      && after.Keys == leafs.Keys + {h} && after[h] == packet.leaf
      && (forall k :: k in leafs && k != h && k != p ==> after[k] == leafs[k])
      && (p != [] && p in leafs ==>
            && after[p] == leafs[p].(links := after[p].links, proofs := after[p].proofs)
            && Elements(after[p].links) == Elements(leafs[p].links) + {h} && leafs[p].links <= after[p].links
            && |after[p].links| == |leafs[p].links| + (if h in leafs[p].links then 0 else 1)
            && after[p].proofs == if h in packet.proofs then leafs[p].proofs[h := packet.proofs[h]]
              else leafs[p].proofs)
      && (p == [] && p in leafs ==> after[p] == leafs[p])
  {
    var h, p, after := packet.leaf.hash, packet.parentHash, Applied(leafs, packet);
    if p != [] && p in leafs {
      assert after[p].links == if h in leafs[p].links then leafs[p].links else leafs[p].links + [h];
      assert h in leafs[p].links <==> h in Elements(leafs[p].links);
      assert Elements(leafs[p].links + [h]) == Elements(leafs[p].links) + {h};
    }
  }

  method VerifyTransmissionPacket(e: Suite, d: Dag, packet: Packet) returns (ok: bool)
    ensures ok == PacketOk(e, d.leafs, packet)
  {
    hide RootOk, LeafOk, BranchOk;
    if packet.parentHash == [] {
      ok := VerifyRootLeaf(e, packet.leaf, None);
      return;
    }
    if !LeafOk(e, packet.leaf) {
      return false;
    }
    if packet.parentHash in d.leafs && |d.leafs[packet.parentHash].links| > 1 {
      if packet.leaf.hash !in packet.proofs {
        return false;
      }
      ok := VerifyBranch(e, d.leafs[packet.parentHash], packet.proofs[packet.leaf.hash]);
      return;
    }
    ok := true;
  }

  method ApplyTransmissionPacket(d: Dag, packet: Packet)
    modifies d`leafs
    ensures d.leafs == Applied(old(d.leafs), packet)
  {
    d.leafs := d.leafs[packet.leaf.hash := packet.leaf];
    ghost var stored := d.leafs;
    if packet.parentHash != [] {
      if packet.parentHash in d.leafs {
        var parent := d.leafs[packet.parentHash];
        if !HasLink(parent, packet.leaf.hash) {
          d.leafs := d.leafs[packet.parentHash := parent.(links := parent.links + [packet.leaf.hash])];
        }
      }
    }
    assert packet.parentHash in stored ==> stored[packet.parentHash := stored[packet.parentHash]] == stored;
    if packet.parentHash != [] {
      if packet.parentHash in d.leafs {
        if packet.leaf.hash in packet.proofs {
          var parent := d.leafs[packet.parentHash];
          d.leafs := d.leafs[packet.parentHash :=
            parent.(proofs := parent.proofs[packet.leaf.hash := packet.proofs[packet.leaf.hash]])];
        }
      }
    }
  }

  method ApplyAndVerifyTransmissionPacket(e: Suite, d: Dag, packet: Packet) returns (ok: bool)
    modifies d`leafs
    ensures ok == PacketOk(e, old(d.leafs), packet)
    ensures d.leafs == if ok then Applied(old(d.leafs), packet) else old(d.leafs)
    ensures ok ==> ReceivedSound(e, packet.leaf, packet.parentHash)
    ensures HeldSound(e, old(d.leafs)) ==> HeldSound(e, d.leafs)
  {
    hide PacketOk, Applied, ReceivedSound, HeldSound;
    ok := VerifyTransmissionPacket(e, d, packet);
    if ok {
      AcceptedIsSound(e, d.leafs, packet);
      ApplyTransmissionPacket(d, packet);
    }
  }

  /** What an empty receiver holds after accepting the packets in order, or none when it rejects one. */
  ghost function Replay(e: Suite, packets: seq<Packet>): Option<map<Hash, Leaf>> {
    if packets == [] then Some(map[])
    else
      var n := |packets| - 1;
      var before := Replay(e, packets[..n]);
      if before.Some? && PacketOk(e, before.value, packets[n]) then Some(Applied(before.value, packets[n])) else None
  }
}
