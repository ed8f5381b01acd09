/** Exactly when what `GetPartial` hands back verifies, and when a part of it does that holds a parent of
    each of its leaves. */
module PartialLaws {
  import opened ByteStrings
  import opened DagModel
  import opened ParentIndex
  import opened Traversal
  import opened DagVerify
  import opened Partial

  /** The proof of c in the partial is one that k stored before only if k did store one and c is not the
      last child; it then has to verify. */
  ghost predicate Vouched(e: Suite, g: Graph, requested: seq<Hash>, k: Hash, c: Hash) {
    k in g.leafs && c in g.leafs[k].proofs && LastChild(g, requested, k) != Some(c) ==>
      BranchOk(e, g.leafs[k], g.leafs[k].proofs[c])
  }

  /** The step from c up to k needs no proof, since k has no other link or all its links are held, or the
      proof that is there verifies. */
  ghost predicate StepServed(e: Suite, g: Graph, requested: seq<Hash>, held: set<Hash>, k: Hash, c: Hash) {
    k in g.leafs ==>
      || |g.leafs[k].links| <= 1 || (forall d :: d in g.leafs[k].links ==> d in held)
      || Vouched(e, g, requested, k, c)
  }

  /** Every held leaf but the root is served by the lowest of its parents that are held. */
  ghost predicate PartServed(e: Suite, g: Graph, requested: seq<Hash>, held: set<Hash>) {
    forall c, k :: c in held && c != g.root && IsMinParent(Restrict(g.leafs, held), c, k) ==>
                     StepServed(e, g, requested, held, k, c)
  }

  /** Every kept leaf but the root is served by its lowest parent. */
  ghost predicate KeptServed(e: Suite, g: Graph, requested: seq<Hash>, kept: set<Hash>) {
    forall c, k :: c in kept && c != g.root && IsMinParent(g.leafs, c, k) ==> StepServed(e, g, requested, kept, k, c)
  }

  /** Every leaf of the set but the root is linked by a leaf of the set. */
  ghost predicate LinkedWithin(leafs: map<Hash, Leaf>, root: Hash, s: set<Hash>) {
    forall h :: h in s && h != root ==> exists q :: q in s && q in leafs && h in leafs[q].links
  }

  function Restrict(leafs: map<Hash, Leaf>, s: set<Hash>): map<Hash, Leaf> {
    map h | h in leafs && h in s :: leafs[h]
  }

  /** From a well-formed DAG a partial can be made of any leaves it has. */
  lemma WellFormedCanGet(e: Suite, g: Graph, requested: seq<Hash>)
    requires WellFormed(e, g)
    ensures CanGet(e, g, requested) <==> requested != [] && forall h :: h in requested ==> h in g.leafs
  {
    hide WellFormed, KeysOf, TreeRoot, UpPath, LinksCommitted;
    forall k | k in g.leafs
      ensures Treed(e, g.leafs[k]) && forall keys :: CanComplete(e, keys, g.leafs[k])
    {
      WellFormedLeaf(e, g, k);
      CommittedTreed(e, g.leafs[k]);
    }
    forall h | h in g.leafs
      ensures Climbs(e, g, h)
    {
      var path := WalkUpReachesRoot(e, g, h);
      assert forall i :: 0 <= i < |path| ==> path[i] in Elements(path);
      assert TreedAbove(e, g, path);
    }
  }

  lemma CommittedTreed(e: Suite, l: Leaf)
    requires LinksCommitted(e, l)
    ensures Treed(e, l) && forall keys :: CanComplete(e, keys, l)
  {
    hide TreeRoot, LinksRoot;
    CommittedChildrenOk(e, l);
  }

  // ----- Leaves of a partial -----

  lemma {:induction false} KeptFacts(links: seq<Hash>, keys: set<Hash>)
    ensures forall c :: c in Kept(links, keys) <==> c in links && c in keys
    ensures |Kept(links, keys)| <= |links|
    ensures |Kept(links, keys)| == |links| ==> Kept(links, keys) == links
  {
    if links != [] {
      KeptFacts(links[1..], keys);
      var rest := Kept(links[1..], keys);
      assert Kept(links, keys) == if links[0] in keys then [links[0]] + rest else rest;
    }
  }

  /** Only links and proofs of a leaf can change. */
  predicate SameIdentity(was: Leaf, l: Leaf) {
    was.(links := [], proofs := map[]) == l.(links := [], proofs := map[])
  }

  ghost predicate LeafFacts(e: Suite, g: Graph, requested: seq<Hash>, keys: set<Hash>, prune: bool, k: Hash, l: Leaf)
    requires k in g.leafs
  {
    var was := g.leafs[k];
    && SameIdentity(was, l)
    && l.links == (if prune then Kept(was.links, keys) else was.links)
    && was.proofs.Keys <= l.proofs.Keys
    && (forall c :: c in l.proofs ==> c in was.proofs || (c in was.links && c in keys))
    && (|was.links| > 1 ==>
          forall c :: c in was.links && c in keys ==>
                        c in l.proofs && (BranchOk(e, l, l.proofs[c]) <==> Vouched(e, g, requested, k, c)))
  }

  /** Whenever a parent had several children, it holds a proof for each child that is kept, which verifies
      when it is a new one or the one that was there did. */
  lemma PartialLeafFacts(e: Suite, g: Graph, requested: seq<Hash>, prune: bool, p: Graph, k: Hash)
    requires WellFormed(e, g) && IsPartialOf(e, g, requested, prune, p) && k in p.leafs
    ensures k in g.leafs && LeafFacts(e, g, requested, p.leafs.Keys, prune, k, p.leafs[k])
  {
    hide WellFormed, KeysOf, LinksCommitted, Grown, Proven, Kept, LastChild, LeafFacts;
    var was, keys, last := g.leafs[k], p.leafs.Keys, LastChild(g, requested, k);
    assert PartialLeaf(e, keys, prune, was, last, p.leafs[k]);
    var grown :| && Grown(e, keys, was, last, grown) && Proven(keys, was, grown)
                 && p.leafs[k] == if prune then Pruned(grown, keys) else grown;
    WellFormedLeaf(e, g, k);
    GrownFacts(e, g, requested, keys, prune, k, grown);
  }

  lemma GrownFacts(e: Suite, g: Graph, requested: seq<Hash>, keys: set<Hash>, prune: bool, k: Hash, grown: Leaf)
    requires k in g.leafs && LinksCommitted(e, g.leafs[k])
    requires Grown(e, keys, g.leafs[k], LastChild(g, requested, k), grown) && Proven(keys, g.leafs[k], grown)
    ensures LeafFacts(e, g, requested, keys, prune, k, if prune then Pruned(grown, keys) else grown)
  {
    hide LinksRoot, TreeRoot, LinkProof, Kept, LastChild;
    var was, last := g.leafs[k], LastChild(g, requested, k);
    GrownLinks(e, keys, was, last, grown);
    SameLeafFields(e, was, grown);
    assert SameIdentity(was, grown);
    if |was.links| > 1 {
      CommittedChildrenOk(e, was);
      forall c | c in was.links && c in keys
        ensures BranchOk(e, grown, grown.proofs[c]) <==> Vouched(e, g, requested, k, c)
      {
        if c !in was.proofs || last == Some(c) {
          LinkProofOk(e, was, was.links, c);
        }
      }
    }
  }

  /** The leaves on the way up from a leaf of the partial are in it, so each has a parent there. */
  lemma PartialLinkedWithin(e: Suite, g: Graph, requested: seq<Hash>, prune: bool, p: Graph)
    requires WellFormed(e, g) && IsPartialOf(e, g, requested, prune, p)
    ensures LinkedWithin(p.leafs, g.root, p.leafs.Keys)
  {
    hide WellFormed, PartialLeaf, IsMinParent;
    forall h | h in p.leafs && h != g.root
      ensures exists q :: q in p.leafs.Keys && q in p.leafs && h in p.leafs[q].links
    {
      var target :| target in requested && Above(g, target, h);
      var path :| UpPath(g.leafs, g.root, path) && path[0] == target && h in path;
      var i :| 0 <= i < |path| && path[i] == h;
      assert IsMinParent(g.leafs, path[i], path[i + 1]);
      ParentKept(e, g, requested, prune, p, path, i);
    }
  }

  lemma ParentKept(e: Suite, g: Graph, requested: seq<Hash>, prune: bool, p: Graph, path: seq<Hash>, i: nat)
    requires IsPartialOf(e, g, requested, prune, p)
    requires UpPath(g.leafs, g.root, path) && path[0] in requested && i + 1 < |path|
    ensures path[i] in p.leafs && path[i + 1] in p.leafs && path[i] in p.leafs[path[i + 1]].links
  {
    hide UpPath, Proven, Grown, Kept, LastChild;
    assert Above(g, path[0], path[i]) && Above(g, path[0], path[i + 1]);
    var q, keys := path[i + 1], p.leafs.Keys;
    UpPathStep(g, path, i);
    var last := LastChild(g, requested, q);
    assert PartialLeaf(e, keys, prune, g.leafs[q], last, p.leafs[q]);
    var grown :| && Grown(e, keys, g.leafs[q], last, grown) && Proven(keys, g.leafs[q], grown)
                 && p.leafs[q] == if prune then Pruned(grown, keys) else grown;
    GrownLinks(e, keys, g.leafs[q], last, grown);
    KeptFacts(grown.links, keys);
  }

  lemma GrownLinks(e: Suite, keys: set<Hash>, was: Leaf, last: Option<Hash>, l: Leaf)
    requires Grown(e, keys, was, last, l)
    ensures l.links == was.links
  {
    hide LinkProof;
    assert was.(proofs := map[]).links == l.(proofs := map[]).links;
  }

  lemma UpPathStep(g: Graph, path: seq<Hash>, i: nat)
    requires UpPath(g.leafs, g.root, path) && i + 1 < |path|
    ensures path[i] != g.root && path[i + 1] in g.leafs && path[i] in g.leafs[path[i + 1]].links
  {
    assert IsMinParent(g.leafs, path[i], path[i + 1]);
  }

  /** A partial's proofs verify when the DAG's do. */
  lemma PartialKeepsSound(e: Suite, g: Graph, requested: seq<Hash>, prune: bool, p: Graph)
    requires WellFormed(e, g) && IsPartialOf(e, g, requested, prune, p) && ProofsSound(e, g.leafs)
    ensures ProofsSound(e, p.leafs)
  {
    hide WellFormed, KeysOf, LinksCommitted, Grown, Proven, Kept, LastChild, LeafProofsSound;
    forall k | k in p.leafs
      ensures LeafProofsSound(e, p.leafs[k])
    {
      var was, keys, last := g.leafs[k], p.leafs.Keys, LastChild(g, requested, k);
      assert PartialLeaf(e, keys, prune, was, last, p.leafs[k]);
      var grown :| && Grown(e, keys, was, last, grown) && Proven(keys, was, grown)
                   && p.leafs[k] == if prune then Pruned(grown, keys) else grown;
      WellFormedLeaf(e, g, k);
      GrownSound(e, keys, was, last, grown, p.leafs[k]);
    }
  }

  lemma GrownSound(e: Suite, keys: set<Hash>, was: Leaf, last: Option<Hash>, grown: Leaf, l: Leaf)
    requires LinksCommitted(e, was) && Grown(e, keys, was, last, grown) && LeafProofsSound(e, was)
    requires l == grown || l == Pruned(grown, keys)
    ensures LeafProofsSound(e, l)
  {
    hide LinksRoot, LinkProof, Kept, SortedKeys;
    SameLeafFields(e, was, grown);
    forall c | c in l.proofs
      ensures BranchOk(e, l, l.proofs[c])
    {
      if c !in was.proofs || l.proofs[c] != was.proofs[c] {
        CommittedChildrenOk(e, was);
        TreeKeysFacts(was.links);
        LinkProofOk(e, l, was.links, c);
      }
    }
  }

  // ----- Parts of a partial -----

  /** A leaf as it is, or without the proofs it does not need because all its children are held too. */
  ghost predicate HeldAs(was: Leaf, l: Leaf, s: set<Hash>) {
    || l == was
    || (l == was.(proofs := map[]) && |was.links| == was.currentLinkCount && forall c :: c in was.links ==> c in s)
  }

  /** A part of the partial: some of the leaves, the root among them, with a parent of each. */
  ghost predicate PartOf(p: Graph, s: set<Hash>, q: Graph) {
    && q.root == p.root && q.leafs.Keys == s && s <= p.leafs.Keys && p.root in s
    && LinkedWithin(p.leafs, p.root, s)
    && forall h :: h in s ==> HeldAs(p.leafs[h], q.leafs[h], s)
  }

  lemma HeldSame(was: Leaf, l: Leaf, s: set<Hash>)
    requires HeldAs(was, l, s)
    ensures SameIdentity(was, l) && l.links == was.links && SameLeaf(was, l)
  {
  }

  lemma SameIdentityOk(e: Suite, was: Leaf, l: Leaf)
    requires SameIdentity(was, l)
    ensures LeafOk(e, l) == LeafOk(e, was)
    ensures RootIdentityOf(l) == RootIdentityOf(was) && ContentOk(e, l) == ContentOk(e, was)
    ensures l.hash == was.hash && l.leafCount == was.leafCount && l.currentLinkCount == was.currentLinkCount
    ensures l.classicMerkleRoot == was.classicMerkleRoot
  {
    var a, b := was.(links := [], proofs := map[]), l.(links := [], proofs := map[]);
    assert a.itemName == b.itemName && a.kind == b.kind && a.contentHash == b.contentHash && a.content == b.content;
    assert a.classicMerkleRoot == b.classicMerkleRoot && a.additionalData == b.additionalData && a.hash == b.hash;
  }

  /** The step up to a kept parent passes exactly when it is served. */
  lemma KeptStepOk(e: Suite, g: Graph, requested: seq<Hash>, keys: set<Hash>, prune: bool, k: Hash, l: Leaf,
                   leafs: map<Hash, Leaf>, c: Hash)
    requires k in g.leafs && LinksCommitted(e, g.leafs[k]) && LeafFacts(e, g, requested, keys, prune, k, l)
    requires c in l.links && c in keys && c in leafs && leafs.Keys <= keys
    ensures StepOk(e, leafs, l, c) <==> StepServed(e, g, requested, leafs.Keys, k, c)
  {
    hide LinksRoot, BranchOk, Kept, ChildrenOk, Vouched, Present;
    var was := g.leafs[k];
    SameIdentityOk(e, was, l);
    KeptFacts(was.links, keys);
    PresentAll(leafs, l.links);
    if |l.links| == l.currentLinkCount {
      SameChildrenOk(e, was, l);
      if |l.links| == 1 {
        assert l.links == [c];
      }
    } else if forall d :: d in was.links ==> d in leafs {
      KeptAll(was.links, keys);
    }
  }

  /** All links lead to leaves that are there when as many as there are do. */
  lemma {:induction false} PresentAll(leafs: map<Hash, Leaf>, links: seq<Hash>)
    ensures Present(leafs, links) <= |links|
    ensures Present(leafs, links) == |links| <==> forall c :: c in links ==> c in leafs
  {
    if links != [] {
      PresentAll(leafs, links[1..]);
      assert forall c :: c in links <==> c == links[0] || c in links[1..];
    }
  }

  /** A leaf without proofs has all its children there, and they match. */
  lemma ClearedChildrenOk(e: Suite, g: Graph, requested: seq<Hash>, keys: set<Hash>, prune: bool, k: Hash, l: Leaf,
                          leafs: map<Hash, Leaf>)
    requires k in g.leafs && LinksCommitted(e, g.leafs[k]) && LeafFacts(e, g, requested, keys, prune, k, l)
    requires |l.links| == l.currentLinkCount && forall c :: c in l.links ==> c in leafs
    ensures ChildrenOk(e, l.(proofs := map[])) && Present(leafs, l.links) == |l.links|
    ensures l.links == g.leafs[k].links
  {
    hide LinksRoot, Kept, TreeRoot, Vouched, BranchOk;
    var was := g.leafs[k];
    SameIdentityOk(e, was, l);
    KeptFacts(was.links, keys);
    SameChildrenOk(e, was, l.(proofs := map[]));
    PresentAll(leafs, l.links);
  }

  lemma HeldStepOk(e: Suite, g: Graph, requested: seq<Hash>, keys: set<Hash>, prune: bool, k: Hash, kept: Leaf, l: Leaf,
                   leafs: map<Hash, Leaf>, c: Hash)
    requires k in g.leafs && LinksCommitted(e, g.leafs[k]) && LeafFacts(e, g, requested, keys, prune, k, kept)
    requires HeldAs(kept, l, leafs.Keys) && c in l.links && c in keys && c in leafs && leafs.Keys <= keys
    ensures StepOk(e, leafs, l, c) <==> StepServed(e, g, requested, leafs.Keys, k, c)
  {
    hide LinksCommitted, LeafFacts, ChildrenOk, Present, Vouched;
    if l == kept {
      KeptStepOk(e, g, requested, keys, prune, k, kept, leafs, c);
    } else {
      ClearedChildrenOk(e, g, requested, keys, prune, k, kept, leafs);
    }
  }

  lemma SameChildrenOk(e: Suite, was: Leaf, l: Leaf)
    requires LinksCommitted(e, was) && SameIdentity(was, l) && l.links == was.links
    ensures ChildrenOk(e, l)
  {
    hide LinksCommitted, TreeRoot;
    SameIdentityOk(e, was, l);
    CommittedChildrenOk(e, was);
  }

  /** In a part, the lowest parent of a leaf is the lowest of those in the DAG that the part holds. */
  lemma PartMinParent(e: Suite, g: Graph, requested: seq<Hash>, prune: bool, p: Graph, s: set<Hash>, q: Graph, h: Hash,
                      k: Hash)
    requires WellFormed(e, g) && IsPartialOf(e, g, requested, prune, p) && PartOf(p, s, q) && h in s
    ensures IsMinParent(q.leafs, h, k) <==> IsMinParent(Restrict(g.leafs, s), h, k)
  {
    hide WellFormed, IsPartialOf, HeldAs, Kept, Less;
    PartialRoot(e, g, requested, prune, p);
    forall x | x in s
      ensures x in g.leafs && (h in q.leafs[x].links <==> h in g.leafs[x].links)
    {
      HeldSame(p.leafs[x], q.leafs[x], s);
      PartialLeafFacts(e, g, requested, prune, p, x);
      KeptFacts(g.leafs[x].links, p.leafs.Keys);
    }
  }

  lemma {:induction false} PartPathOk(e: Suite, g: Graph, requested: seq<Hash>, prune: bool, p: Graph,
                                      s: set<Hash>, q: Graph, rank: map<Hash, nat>, h: Hash)
    requires WellFormed(e, g) && IsPartialOf(e, g, requested, prune, p)
    requires Ranked(g.leafs, rank) && PartOf(p, s, q) && h in s && PartServed(e, g, requested, s)
    ensures h in g.leafs && PathOk(e, q, h)
    decreases rank[h]
  {
    hide WellFormed, IsPartialOf, LeafOk, StepOk, PathOk, LinksCommitted, LeafFacts, HeldAs, StepServed;
    PartialRoot(e, g, requested, prune, p);
    PathAtRoot(e, q);
    if h != g.root {
      assert HasParent(q.leafs, h) by {
        var parent :| parent in s && parent in p.leafs && h in p.leafs[parent].links;
        HeldSame(p.leafs[parent], q.leafs[parent], s);
        assert parent in q.leafs && h in q.leafs[parent].links;
      }
      var parent := MinParentExists(q.leafs, h);
      PartMinParent(e, g, requested, prune, p, s, q, h, parent);
      PartStep(e, g, requested, prune, p, s, q, rank, h, parent);
      PartPathOk(e, g, requested, prune, p, s, q, rank, parent);
      PathUnfold(e, q, h, parent);
    }
  }

  /** Where the paths pass, every leaf is served. */
  lemma PathsServed(e: Suite, g: Graph, requested: seq<Hash>, prune: bool, p: Graph, s: set<Hash>, q: Graph,
                    rank: map<Hash, nat>)
    requires WellFormed(e, g) && IsPartialOf(e, g, requested, prune, p)
    requires Ranked(g.leafs, rank) && PartOf(p, s, q) && forall h :: h in s && h != g.root ==> PathOk(e, q, h)
    ensures PartServed(e, g, requested, s)
  {
    hide WellFormed, IsPartialOf, LeafOk, PathOk, IsMinParent, StepServed, HeldAs, UpStep, LinkedWithin;
    PartialRoot(e, g, requested, prune, p);
    forall c, k | c in s && c != g.root && IsMinParent(Restrict(g.leafs, s), c, k)
      ensures StepServed(e, g, requested, s, k, c)
    {
      PartMinParent(e, g, requested, prune, p, s, q, c, k);
      PathUnfold(e, q, c, k);
      PartStep(e, g, requested, prune, p, s, q, rank, c, k);
    }
  }

  lemma PartialRoot(e: Suite, g: Graph, requested: seq<Hash>, prune: bool, p: Graph)
    requires IsPartialOf(e, g, requested, prune, p)
    ensures p.root == g.root && p.leafs.Keys <= g.leafs.Keys
  {
  }

  lemma PartStep(e: Suite, g: Graph, requested: seq<Hash>, prune: bool, p: Graph,
                 s: set<Hash>, q: Graph, rank: map<Hash, nat>, h: Hash, parent: Hash)
    requires WellFormed(e, g) && IsPartialOf(e, g, requested, prune, p)
    requires Ranked(g.leafs, rank) && PartOf(p, s, q) && h in s && IsMinParent(q.leafs, h, parent)
    ensures parent in s && (UpStep(e, q, h, parent) <==> StepServed(e, g, requested, s, parent, h))
    ensures h in g.leafs && parent in g.leafs && rank[parent] < rank[h]
  {
    hide IsPartialOf, LeafOk, StepOk, RootOk, Reachable, LinksCommitted, Kept, HeldAs, StepServed, Vouched;
    PartialRoot(e, g, requested, prune, p);
    PartialLeafFacts(e, g, requested, prune, p, parent);
    var was, kept, l := g.leafs[parent], p.leafs[parent], q.leafs[parent];
    HeldSame(kept, l, s);
    KeptFacts(was.links, p.leafs.Keys);
    SameIdentityOk(e, was, l);
    assert h in was.links;
    HeldStepOk(e, g, requested, p.leafs.Keys, prune, parent, kept, l, q.leafs, h);
  }

  /** The root of the partial has a proof to go by, or needs none. */
  ghost predicate RootServed(g: Graph, requested: seq<Hash>, prune: bool)
    requires g.root in g.leafs
  {
    || prune || (exists h :: h in requested && h != g.root)
    || |g.leafs[g.root].links| <= 1 || |g.leafs[g.root].proofs| > 0
  }

  /** Exactly when the check of the root's children passes. */
  lemma PartRootStep(e: Suite, g: Graph, requested: seq<Hash>, prune: bool, p: Graph, s: set<Hash>, q: Graph)
    requires WellFormed(e, g) && IsPartialOf(e, g, requested, prune, p)
    requires (forall h :: h in requested ==> h in g.leafs) && PartOf(p, s, q)
    ensures RootStepOk(e, q.leafs, q.leafs[q.root]) <==> RootServed(g, requested, prune)
  {
    hide IsPartialOf, WellFormed, LinkedWithin, RootStepOk;
    PartialRoot(e, g, requested, prune, p);
    PartialLeafFacts(e, g, requested, prune, p, g.root);
    WellFormedLeaf(e, g, g.root);
    if q.leafs[g.root] != p.leafs[g.root] {
      ClearedRootServed(e, g, requested, prune, p, s, q);
    } else if RootServed(g, requested, prune) {
      if |g.leafs[g.root].links| > 1 && |p.leafs[g.root].links| == |g.leafs[g.root].links| {
        RootHasProof(e, g, requested, prune, p);
      }
      ServedRootOk(e, g, requested, p.leafs.Keys, prune, p.leafs[g.root], q.leafs);
    } else {
      UnservedRootFails(e, g, requested, prune, p, q.leafs);
    }
  }

  lemma ClearedRootServed(e: Suite, g: Graph, requested: seq<Hash>, prune: bool, p: Graph, s: set<Hash>, q: Graph)
    requires WellFormed(e, g) && IsPartialOf(e, g, requested, prune, p)
    requires PartOf(p, s, q) && q.leafs[p.root] != p.leafs[p.root]
    ensures g.root in g.leafs && RootServed(g, requested, prune) && RootStepOk(e, q.leafs, q.leafs[q.root])
  {
    hide WellFormed, IsPartialOf, LinkedWithin, LeafFacts, Present, ChildrenOk;
    PartialRoot(e, g, requested, prune, p);
    PartialLeafFacts(e, g, requested, prune, p, g.root);
    WellFormedLeaf(e, g, g.root);
    ClearedChildrenOk(e, g, requested, p.leafs.Keys, prune, g.root, p.leafs[g.root], q.leafs);
    if !prune && forall h :: h in requested ==> h == g.root {
      RootAlone(e, g, requested, prune, p);
      UnprunedNoLinks(e, g, requested, prune, p, s);
    }
  }

  /** A root alone that has all its children has none. */
  lemma UnprunedNoLinks(e: Suite, g: Graph, requested: seq<Hash>, prune: bool, p: Graph, s: set<Hash>)
    requires WellFormed(e, g) && IsPartialOf(e, g, requested, prune, p) && !prune
    requires g.root in p.leafs && s <= p.leafs.Keys && (forall k :: k in p.leafs ==> k == g.root)
    requires forall c :: c in p.leafs[g.root].links ==> c in s
    ensures g.leafs[g.root].links == []
  {
    hide WellFormed, IsPartialOf;
    PartialLeafFacts(e, g, requested, prune, p, g.root);
    var links := g.leafs[g.root].links;
    if links != [] {
      assert links[0] in links;
      RootHasNoParent(e, g);
    }
  }

  lemma ServedRootOk(e: Suite, g: Graph, requested: seq<Hash>, keys: set<Hash>, prune: bool, l: Leaf,
                     leafs: map<Hash, Leaf>)
    requires g.root in g.leafs && LinksCommitted(e, g.leafs[g.root])
             && LeafFacts(e, g, requested, keys, prune, g.root, l)
    requires |l.links| == |g.leafs[g.root].links| > 1 ==> |l.proofs| > 0
    ensures RootStepOk(e, leafs, l)
  {
    hide LinksRoot, Kept, Present, TreeRoot, Vouched;
    var was := g.leafs[g.root];
    KeptFacts(was.links, keys);
    SameIdentityOk(e, was, l);
    if l.links == was.links {
      SameChildrenOk(e, was, l);
    }
  }

  lemma UnservedRootFails(e: Suite, g: Graph, requested: seq<Hash>, prune: bool, p: Graph, leafs: map<Hash, Leaf>)
    requires WellFormed(e, g) && IsPartialOf(e, g, requested, prune, p)
    requires !RootServed(g, requested, prune) && leafs.Keys <= p.leafs.Keys && g.root in p.leafs
    ensures !RootStepOk(e, leafs, p.leafs[g.root])
  {
    hide IsPartialOf, LeafOk, RootOk, Reachable, LinksRoot, Kept, Present, ChildrenOk, Acyclic;
    PartialLeafFacts(e, g, requested, prune, p, g.root);
    var was, l := g.leafs[g.root], p.leafs[g.root];
    SameIdentityOk(e, was, l);
    RootAlone(e, g, requested, prune, p);
    RootHasNoParent(e, g);
    NonePresent(leafs, l.links);
    if c :| c in l.proofs {
      assert false;
    }
  }

  lemma RootHasProof(e: Suite, g: Graph, requested: seq<Hash>, prune: bool, p: Graph)
    requires WellFormed(e, g) && IsPartialOf(e, g, requested, prune, p)
    requires (forall h :: h in requested ==> h in g.leafs) && g.root in p.leafs
    requires RootServed(g, requested, prune) && |p.leafs[g.root].links| == |g.leafs[g.root].links| > 1
    ensures |p.leafs[g.root].proofs| > 0
  {
    hide IsPartialOf, WellFormed, Kept;
    PartialLeafFacts(e, g, requested, prune, p, g.root);
    var was, l := g.leafs[g.root], p.leafs[g.root];
    KeptFacts(was.links, p.leafs.Keys);
    if h :| h in requested && h != g.root {
      var c := RootChildKept(e, g, requested, prune, p, h);
      assert c in l.proofs;
    } else if prune {
      assert was.links[0] in l.links;
      assert was.links[0] in l.proofs;
    } else {
      var c :| c in was.proofs;
      assert c in l.proofs;
    }
  }

  lemma {:induction false} NonePresent(leafs: map<Hash, Leaf>, links: seq<Hash>)
    requires forall c :: c in links ==> c !in leafs
    ensures Present(leafs, links) == 0
  {
    if links != [] {
      assert links[0] in links;
      NonePresent(leafs, links[1..]);
    }
  }

  /** When some other leaf was requested, a child of the root is kept. */
  lemma RootChildKept(e: Suite, g: Graph, requested: seq<Hash>, prune: bool, p: Graph, h: Hash) returns (c: Hash)
    requires WellFormed(e, g) && IsPartialOf(e, g, requested, prune, p) && h in requested && h != g.root
    requires h in g.leafs
    ensures c in g.leafs[g.root].links && c in p.leafs
  {
    hide WellFormed, IsPartialOf;
    var path := WalkUpReachesRoot(e, g, h);
    var i := |path| - 2;
    ParentKept(e, g, requested, prune, p, path, i);
    UpPathStep(g, path, i);
    c := path[i];
  }

  /** When nothing but the root was requested, nothing else is kept. */
  lemma RootAlone(e: Suite, g: Graph, requested: seq<Hash>, prune: bool, p: Graph)
    requires IsPartialOf(e, g, requested, prune, p) && forall h :: h in requested ==> h == g.root
    ensures forall k :: k in p.leafs ==> k == g.root
  {
    hide PartialLeaf, IsMinParent;
    forall k | k in p.leafs
      ensures k == g.root
    {
      var h :| h in requested && Above(g, h, k);
      var path :| UpPath(g.leafs, g.root, path) && path[0] == h && k in path;
      assert |path| == 1;
    }
  }

  /** A part that is still partial passes exactly when the root's children do and every leaf is served. */
  lemma PartPasses(e: Suite, g: Graph, requested: seq<Hash>, prune: bool, p: Graph, s: set<Hash>, q: Graph)
    requires WellFormed(e, g) && IsPartialOf(e, g, requested, prune, p)
    requires PartOf(p, s, q) && IsPartial(q)
    ensures PartialPasses(e, q) <==> RootStepOk(e, q.leafs, q.leafs[q.root]) && PartServed(e, g, requested, s)
  {
    hide WellFormed, IsPartialOf, LeafOk, RootOk, RootStepOk, PathOk, HeldAs, PartServed, LinkedWithin;
    PartialRoot(e, g, requested, prune, p);
    var rank := WellFormedRank(e, g);
    forall h | h in q.leafs
      ensures h != g.root ==> LeafOk(e, q.leafs[h])
      ensures PartServed(e, g, requested, s) ==> PathOk(e, q, h)
    {
      PartLeafOk(e, g, requested, prune, p, s, q, h);
      if PartServed(e, g, requested, s) {
        PartPathOk(e, g, requested, prune, p, s, q, rank, h);
      }
    }
    PartLeafOk(e, g, requested, prune, p, s, q, g.root);
    if forall h :: h in s && h != g.root ==> PathOk(e, q, h) {
      PathsServed(e, g, requested, prune, p, s, q, rank);
    }
  }

  lemma WellFormedRank(e: Suite, g: Graph) returns (rank: map<Hash, nat>)
    requires WellFormed(e, g)
    ensures Ranked(g.leafs, rank)
  {
    hide Ranked;
    rank :| Ranked(g.leafs, rank);
  }

  /** The leaves of a part pass by themselves. */
  lemma PartLeafOk(e: Suite, g: Graph, requested: seq<Hash>, prune: bool, p: Graph, s: set<Hash>, q: Graph, h: Hash)
    requires WellFormed(e, g) && IsPartialOf(e, g, requested, prune, p)
    requires PartOf(p, s, q) && IsPartial(q) && h in s
    ensures if h == g.root then RootOk(e, q.leafs[h], Some(q.leafs)) else LeafOk(e, q.leafs[h])
  {
    hide IsPartialOf, LeafOk, Reachable, LinksCommitted, LinkedWithin, IdentityOf, HeldAs, Acyclic, SameIdentity;
    PartialRoot(e, g, requested, prune, p);
    PartSame(e, g, requested, prune, p, h);
    HeldSame(p.leafs[h], q.leafs[h], s);
    SameIdentityTwice(g.leafs[h], p.leafs[h], q.leafs[h]);
    SameIdentityOk(e, g.leafs[h], q.leafs[h]);
  }

  lemma SameIdentityTwice(a: Leaf, b: Leaf, c: Leaf)
    requires SameIdentity(a, b) && SameIdentity(b, c)
    ensures SameIdentity(a, c)
  {
  }

  lemma PartSame(e: Suite, g: Graph, requested: seq<Hash>, prune: bool, p: Graph, h: Hash)
    requires WellFormed(e, g) && IsPartialOf(e, g, requested, prune, p) && h in p.leafs
    ensures h in g.leafs && SameIdentity(g.leafs[h], p.leafs[h])
  {
    hide WellFormed, IsPartialOf;
    PartialLeafFacts(e, g, requested, prune, p, h);
  }

  lemma RootRequested(e: Suite, g: Graph, requested: seq<Hash>, prune: bool, p: Graph, h: Hash)
    requires WellFormed(e, g) && IsPartialOf(e, g, requested, prune, p)
    requires h in requested && h in g.leafs
    ensures h in p.leafs && g.root in p.leafs
  {
    hide WellFormed, PartialLeaf, UpPath;
    var path := WalkUpReachesRoot(e, g, h);
    PathEnds(g, path);
    PathIsAbove(g, path, h);
    PathIsAbove(g, path, g.root);
  }

  lemma {:induction false} KeptAll(links: seq<Hash>, keys: set<Hash>)
    requires forall c :: c in links ==> c in keys
    ensures Kept(links, keys) == links
  {
    if links != [] {
      assert links[0] in links;
      KeptAll(links[1..], keys);
    }
  }

  /** A partial with all the leaves is the DAG itself, up to proofs. */
  lemma CompletePartial(e: Suite, g: Graph, requested: seq<Hash>, prune: bool, p: Graph)
    requires WellFormed(e, g) && IsPartialOf(e, g, requested, prune, p)
    requires p.leafs.Keys == g.leafs.Keys
    ensures SameGraph(g, p)
  {
    hide IsPartialOf, LeafOk, RootOk, Reachable, LinksCommitted, Kept, Acyclic;
    PartialRoot(e, g, requested, prune, p);
    forall k | k in g.leafs
      ensures SameLeaf(g.leafs[k], p.leafs[k])
    {
      PartialLeafFacts(e, g, requested, prune, p, k);
      KeptAll(g.leafs[k].links, p.leafs.Keys);
    }
  }

  lemma SameSize<T>(a: set<T>, b: set<T>)
    requires a <= b && |a| >= |b|
    ensures a == b
  {
    if x :| x in b - a {
      assert a <= b - {x};
      SubsetSize(a, b - {x});
    } else {
      assert b - a == {};
    }
  }

  lemma WholeIsPart(p: Graph)
    ensures Restrict(p.leafs, p.leafs.Keys) == p.leafs
    ensures p.root in p.leafs && LinkedWithin(p.leafs, p.root, p.leafs.Keys) ==> PartOf(p, p.leafs.Keys, p)
  {
  }

  /** The lowest parent of a kept leaf is kept, so it is the lowest of the kept ones. */
  lemma KeptMinParent(e: Suite, g: Graph, requested: seq<Hash>, prune: bool, p: Graph, c: Hash, k: Hash)
    requires WellFormed(e, g) && IsPartialOf(e, g, requested, prune, p) && c in p.leafs && c != g.root
    ensures IsMinParent(Restrict(g.leafs, p.leafs.Keys), c, k) <==> IsMinParent(g.leafs, c, k)
  {
    hide WellFormed, PartialLeaf, IsMinParent;
    PartialRoot(e, g, requested, prune, p);
    assert IsKept(g, requested, c);
    var target :| target in requested && Above(g, target, c);
    var path :| UpPath(g.leafs, g.root, path) && path[0] == target && c in path;
    var i :| 0 <= i < |path| && path[i] == c;
    ParentKept(e, g, requested, prune, p, path, i);
    var lowest := path[i + 1];
    assert IsMinParent(g.leafs, c, lowest);
    assert IsMinParent(Restrict(g.leafs, p.leafs.Keys), c, lowest) by {
      RestrictMin(g.leafs, p.leafs.Keys, c, lowest);
    }
    if IsMinParent(g.leafs, c, k) {
      MinParentUnique(g.leafs, c, k, lowest);
    }
    if IsMinParent(Restrict(g.leafs, p.leafs.Keys), c, k) {
      MinParentUnique(Restrict(g.leafs, p.leafs.Keys), c, k, lowest);
    }
  }

  lemma RestrictMin(leafs: map<Hash, Leaf>, s: set<Hash>, c: Hash, k: Hash)
    requires IsMinParent(leafs, c, k) && k in s
    ensures IsMinParent(Restrict(leafs, s), c, k)
  {
    hide Less;
  }

  lemma KeptServedIff(e: Suite, g: Graph, requested: seq<Hash>, prune: bool, p: Graph)
    requires WellFormed(e, g) && IsPartialOf(e, g, requested, prune, p)
    ensures PartServed(e, g, requested, p.leafs.Keys) <==> KeptServed(e, g, requested, p.leafs.Keys)
  {
    hide WellFormed, IsPartialOf, IsMinParent, StepServed;
    forall c, k | c in p.leafs && c != g.root
      ensures IsMinParent(Restrict(g.leafs, p.leafs.Keys), c, k) <==> IsMinParent(g.leafs, c, k)
    {
      KeptMinParent(e, g, requested, prune, p, c, k);
    }
  }

  /** `GetPartial` yields a DAG that passes `Verify` exactly when two things hold. The root has a proof to
      go by: the exception is nothing requested but a root of several links that stores no proof, with
      the links left in place. And no proof stored before stands in the way: for each kept leaf, the
      lowest parent of several links that are not all kept had no proof of it or a valid one, or was
      given a new one. */
  lemma PartialVerifies(e: Suite, order: Order, g: Graph, requested: seq<Hash>, prune: bool, p: Graph)
    requires WellFormed(e, g) && Rearranges(order)
    requires requested != [] && (forall h :: h in requested ==> h in g.leafs)
    requires IsPartialOf(e, g, requested, prune, p)
    ensures Passes(e, order, p) <==> RootServed(g, requested, prune) && KeptServed(e, g, requested, p.leafs.Keys)
  {
    hide WellFormed, RootServed, LinkedWithin, PartialPasses, FullPasses, IsPartialOf, RootStepOk, KeptServed,
         PartServed;
    RootRequested(e, g, requested, prune, p, requested[0]);
    PartialRoot(e, g, requested, prune, p);
    PartSame(e, g, requested, prune, p, g.root);
    SameIdentityOk(e, g.leafs[g.root], p.leafs[g.root]);
    KeptServedIff(e, g, requested, prune, p);
    if IsPartial(p) {
      PartialLinkedWithin(e, g, requested, prune, p);
      WholeIsPart(p);
      PartRootStep(e, g, requested, prune, p, p.leafs.Keys, p);
      PartPasses(e, g, requested, prune, p, p.leafs.Keys, p);
    } else {
      WellFormedCount(e, g);
      assert |p.leafs| == |p.leafs.Keys| && |g.leafs| == |g.leafs.Keys|;
      SameSize(p.leafs.Keys, g.leafs.Keys);
      CompletePartial(e, g, requested, prune, p);
      SameGraphWellFormed(e, g, p);
      WellFormedPasses(e, order, p);
      CompleteIsServed(e, g, requested, prune, p);
      AllServed(e, g, requested);
    }
  }

  /** With all leaves there, none needs a proof. */
  lemma AllServed(e: Suite, g: Graph, requested: seq<Hash>)
    requires WellFormed(e, g)
    ensures KeptServed(e, g, requested, g.leafs.Keys)
  {
    hide RootOk, LeafOk, Reachable, LinksCommitted, Acyclic, Vouched;
  }

  /** Where all stored proofs verify, whatever is requested and in whatever order, every leaf is served. */
  lemma SoundServes(e: Suite, g: Graph, requested: seq<Hash>, held: set<Hash>)
    requires ProofsSound(e, g.leafs)
    ensures KeptServed(e, g, requested, held) && PartServed(e, g, requested, held)
    ensures forall k, c :: Vouched(e, g, requested, k, c)
  {
    hide BranchOk, IsMinParent, LastChild;
  }

  lemma CompleteIsServed(e: Suite, g: Graph, requested: seq<Hash>, prune: bool, p: Graph)
    requires WellFormed(e, g) && IsPartialOf(e, g, requested, prune, p) && p.leafs.Keys == g.leafs.Keys
    ensures RootServed(g, requested, prune)
  {
    hide IsPartialOf, LeafOk, RootOk, Reachable, LinksCommitted, Acyclic;
    if forall h :: h in requested ==> h == g.root {
      RootAlone(e, g, requested, prune, p);
      RootHasNoParent(e, g);
      var links := g.leafs[g.root].links;
      assert forall c :: c in links ==> c in p.leafs;
      assert |links| > 0 ==> links[0] in links;
    }
  }
}
