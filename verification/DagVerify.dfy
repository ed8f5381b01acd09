/** Verification of full and partial DAGs. */
module DagVerify {
  import opened ByteStrings
  import opened Sums
  import opened DagModel
  import opened LinkTree
  import opened ParentIndex
  import opened Traversal

  const MAX_LINKS := 0x1_0000_0000

  ghost predicate FewLinks(leafs: map<Hash, Leaf>) {
    forall h :: h in leafs ==> |leafs[h].links| <= MAX_LINKS
  }

  // ----- The root leaf -----

  method TotalContentOf(leafs: map<Hash, Leaf>) returns (total: nat)
    ensures total == TotalContent(leafs)
  {
    total := 0;
    var rest := leafs.Keys;
    ghost var f: Hash -> nat := h => if h in leafs then ContentLength(leafs[h]) else 0;
    assert TotalContent(leafs) == SumOver(leafs.Keys, f) by {
      SumCongruent(leafs.Keys, f, h => if h in leafs then ContentLength(leafs[h]) else 0);
    }
    while rest != {}
      invariant rest <= leafs.Keys && total + SumOver(rest, f) == TotalContent(leafs)
      decreases rest
    {
      var h :| h in rest;
      SumRemove(rest, f, h);
      total, rest := total + ContentLength(leafs[h]), rest - {h};
    }
  }

  method TotalSizeOf(e: Suite, leafs: map<Hash, Leaf>, root: Hash) returns (total: nat)
    ensures total == TotalSize(e, leafs, root)
  {
    total := 0;
    var rest := leafs.Keys - {root};
    ghost var f: Hash -> nat := h => if h in leafs then CountedSize(e, leafs[h]) else 0;
    assert TotalSize(e, leafs, root) == SumOver(rest, f) by {
      SumCongruent(rest, f, h => if h in leafs then CountedSize(e, leafs[h]) else 0);
    }
    while rest != {}
      invariant rest <= leafs.Keys && total + SumOver(rest, f) == TotalSize(e, leafs, root)
      decreases rest
    {
      var h :| h in rest;
      SumRemove(rest, f, h);
      total, rest := total + CountedSize(e, leafs[h]), rest - {h};
    }
  }

  method VerifyRootLeaf(e: Suite, root: Leaf, leafs: Option<map<Hash, Leaf>>) returns (ok: bool)
    ensures ok == RootOk(e, root, leafs)
  {
    if leafs.Some? {
      var all := leafs.value;
      var isFull := |all| == root.leafCount && (root.contentSize != 0 || root.dagSize != 0 || root.leafCount == 1);
      if isFull && forall h :: h in all ==> |all[h].links| >= all[h].currentLinkCount {
        if forall h :: h in all ==>
                         (all[h].contentHash.Some? && all[h].contentHash.value != [] ==> all[h].content.Some?)
        {
          var content := TotalContentOf(all);
          var size := TotalSizeOf(e, all, root.hash);
          if root.contentSize != content {
            return false;
          }
          if root.dagSize != size + e.rootSize(RootIdentityOf(root.(dagSize := 0))) {
            return false;
          }
        }
      }
    }
    ok := e.cid(RootIdentityOf(root)) == root.hash && ContentOk(e, root);
  }

  // ----- Full DAGs -----

  /** What `verifyFullDag` checks at one visit: the leaf, and the parent it was reached through. */
  ghost predicate VisitOk(e: Suite, g: Graph, v: Visit) {
    && v.hash in g.leafs && (v.parent.Some? ==> v.parent.value in g.leafs)
    && var l := g.leafs[v.hash];
       && (if l.hash == g.root then
             RootOk(e, l, Some(g.leafs)) && (|l.links| == l.currentLinkCount > 0 ==> ChildrenOk(e, l))
           else LeafOk(e, l) && v.parent.Some? && HasLink(g.leafs[v.parent.value], l.hash))
       && (v.parent.Some? ==>
             var p := g.leafs[v.parent.value];
             |p.links| == p.currentLinkCount > 0 ==> ChildrenOk(e, p))
  }

  ghost predicate FullPasses(e: Suite, order: Order, g: Graph) {
    var w := WalkOf(g, order);
    w.complete && forall i :: 0 <= i < |w.visits| ==> VisitOk(e, g, w.visits[i])
  }

  method VerifyVisit(e: Suite, d: Dag, v: Visit, cpus: nat) returns (ok: bool)
    requires cpus > 0 && FewLinks(d.leafs) && v.hash in d.leafs
    requires v.parent.Some? ==> v.parent.value in d.leafs
    requires v.parent == None ==> d.leafs[v.hash].hash == d.root
    ensures ok == VisitOk(e, d.View(), v)
  {
    hide LeafOk, RootOk, ChildrenOk;
    var l := d.leafs[v.hash];
    if l.hash == d.root {
      var rootOk := VerifyRootLeaf(e, l, Some(d.leafs));
      if !rootOk {
        return false;
      }
      if |l.links| == l.currentLinkCount && l.currentLinkCount > 0 {
        var childrenOk := VerifyChildren(e, l, cpus);
        if !childrenOk {
          return false;
        }
      }
    } else {
      if !LeafOk(e, l) || !HasLink(d.leafs[v.parent.value], l.hash) {
        return false;
      }
    }
    if v.parent.Some? {
      var p := d.leafs[v.parent.value];
      if |p.links| == p.currentLinkCount && p.currentLinkCount > 0 {
        ok := VerifyChildren(e, p, cpus);
        return;
      }
    }
    ok := true;
  }

  method VerifyFullDag(e: Suite, d: Dag, order: Order, cpus: nat) returns (ok: bool)
    requires cpus > 0 && FewLinks(d.leafs) && Keyed(d.leafs) && Rearranges(order)
    ensures ok == FullPasses(e, order, d.View())
  {
    hide VisitOk, Walk, FewLinks;
    var visits, complete := IterateDag(d, order);
    WalkVisitsKnown(d.View(), order);
    for i := 0 to |visits|
      invariant forall j :: 0 <= j < i ==> VisitOk(e, d.View(), visits[j])
    {
      var visitOk := VerifyVisit(e, d, visits[i], cpus);
      if !visitOk {
        return false;
      }
    }
    ok := complete;
  }

  /** Visits are to leaves, through leaves, and only the root has no parent. */
  lemma WalkVisitsKnown(g: Graph, order: Order)
    requires Keyed(g.leafs) && Rearranges(order)
    ensures
      var visits := WalkOf(g, order).visits;
      && ParentsLink(g.leafs, visits)
      && forall i :: 0 <= i < |visits| ==>
                       && visits[i].hash in g.leafs
                       && (visits[i].parent == None ==> visits[i].hash == g.root)
  {
    hide Walk;
    var todo := [Visit(g.root, None)];
    SeenGrows(g.leafs, order, todo, {});
    WalkParentsLink(g.leafs, order, todo, {});
    var visits := WalkOf(g, order).visits;
    if g.root in g.leafs {
      FirstVisit(g, order);
      forall i | 0 < i < |visits|
        ensures visits[i].parent.Some?
      {
        assert visits[1..][i - 1] == visits[i];
      }
    } else {
      MissingRoot(g, order);
    }
  }

  lemma MissingRoot(g: Graph, order: Order)
    requires g.root !in g.leafs
    ensures WalkOf(g, order).visits == []
  {
  }

  /** A well-formed DAG passes, in whatever order links are taken. */
  lemma WellFormedPasses(e: Suite, order: Order, g: Graph)
    requires WellFormed(e, g) && Rearranges(order)
    ensures FullPasses(e, order, g)
  {
    hide Walk, RootOk, LeafOk, Reachable, LinksCommitted, ChildrenOk;
    WalkVisitsEachLeafOnce(e, g, order);
    var visits := WalkOf(g, order).visits;
    forall i | 0 <= i < |visits|
      ensures VisitOk(e, g, visits[i])
    {
      var v := visits[i];
      assert v.hash in g.leafs;
      CommittedChildrenOk(e, g.leafs[v.hash]);
      if i > 0 {
        assert visits[1..][i - 1] == v;
        CommittedChildrenOk(e, g.leafs[v.parent.value]);
      }
      if v.hash == g.root && i > 0 {
        RootHasNoParent(e, g);
      }
    }
  }

  // ----- Partial DAGs -----

  function Present(leafs: map<Hash, Leaf>, links: seq<Hash>): nat {
    if links == [] then 0 else (if links[0] in leafs then 1 else 0) + Present(leafs, links[1..])
  }

  method CountPresent(leafs: map<Hash, Leaf>, links: seq<Hash>) returns (n: nat)
    ensures n == Present(leafs, links)
  {
    n := 0;
    assert links[0..] == links;
    for i := 0 to |links|
      invariant n + Present(leafs, links[i..]) == Present(leafs, links)
    {
      assert links[i..][1..] == links[i + 1..];
      if links[i] in leafs {
        n := n + 1;
      }
    }
  }

  predicate StoredProofOk(e: Suite, p: Leaf, c: Hash) {
    c in p.proofs && BranchOk(e, p, p.proofs[c])
  }

  /** The check of the root's children: all there and matching the root, or one committed child, or
      some proof to go by. */
  predicate RootStepOk(e: Suite, leafs: map<Hash, Leaf>, root: Leaf) {
    |root.links| == root.currentLinkCount > 0 ==>
      var n := Present(leafs, root.links);
      if n == root.currentLinkCount then ChildrenOk(e, root)
      else if root.currentLinkCount == 1 then n > 0 ==> root.classicMerkleRoot == root.links[0]
      else |root.proofs| > 0
  }

  /** The check of one step from a leaf up to its parent. */
  predicate StepOk(e: Suite, leafs: map<Hash, Leaf>, p: Leaf, c: Hash) {
    if |p.links| == p.currentLinkCount > 0 then
      if Present(leafs, p.links) == p.currentLinkCount then ChildrenOk(e, p) else StoredProofOk(e, p, c)
    else p.currentLinkCount > 1 ==> StoredProofOk(e, p, c)
  }

  ghost predicate UpStep(e: Suite, g: Graph, c: Hash, p: Hash) {
    && IsMinParent(g.leafs, c, p)
    && (p != g.root ==> LeafOk(e, g.leafs[p]))
    && StepOk(e, g.leafs, g.leafs[p], c)
  }

  /** A walk to the root on which every step passes its check. */
  ghost predicate CheckedPath(e: Suite, g: Graph, path: seq<Hash>) {
    && |path| > 0 && path[|path| - 1] == g.root
    && forall i :: 0 <= i < |path| - 1 ==> path[i] != g.root && UpStep(e, g, path[i], path[i + 1])
  }

  ghost predicate PathOk(e: Suite, g: Graph, h: Hash) {
    exists path :: CheckedPath(e, g, path) && path[0] == h
  }

  ghost predicate PartialPasses(e: Suite, g: Graph) {
    && g.root in g.leafs
    && RootOk(e, g.leafs[g.root], Some(g.leafs))
    && RootStepOk(e, g.leafs, g.leafs[g.root])
    && forall h :: h in g.leafs && h != g.root ==> LeafOk(e, g.leafs[h]) && PathOk(e, g, h)
  }

  /** `Verify` chooses between the two. */
  ghost predicate Passes(e: Suite, order: Order, g: Graph) {
    if IsPartial(g) then PartialPasses(e, g) else FullPasses(e, order, g)
  }

  lemma PathAtRoot(e: Suite, g: Graph)
    ensures PathOk(e, g, g.root)
  {
    assert CheckedPath(e, g, [g.root]);
  }

  /** A leaf below the root has a checked path when its step up passes and its parent has one. */
  lemma PathUnfold(e: Suite, g: Graph, h: Hash, p: Hash)
    requires h != g.root && IsMinParent(g.leafs, h, p)
    ensures PathOk(e, g, h) <==> UpStep(e, g, h, p) && PathOk(e, g, p)
  {
    hide LeafOk, StepOk, IsMinParent;
    if PathOk(e, g, h) {
      var path :| CheckedPath(e, g, path) && path[0] == h;
      assert UpStep(e, g, path[0], path[1]);
      MinParentUnique(g.leafs, h, p, path[1]);
      var rest := path[1..];
      assert forall i :: 0 <= i < |rest| ==> rest[i] == path[i + 1];
      assert CheckedPath(e, g, rest) && rest[0] == p;
    }
    if UpStep(e, g, h, p) && PathOk(e, g, p) {
      var path :| CheckedPath(e, g, path) && path[0] == p;
      var longer := [h] + path;
      assert forall i :: 0 < i < |longer| ==> longer[i] == path[i - 1];
      assert CheckedPath(e, g, longer) && longer[0] == h;
    }
  }

  lemma PathNeedsParent(e: Suite, g: Graph, h: Hash)
    requires h != g.root && !HasParent(g.leafs, h)
    ensures !PathOk(e, g, h)
  {
    hide LeafOk, StepOk;
    forall path: seq<Hash> | |path| > 1 && path[0] == h
      ensures !CheckedPath(e, g, path)
    {
      assert !UpStep(e, g, path[0], path[1]);
    }
  }

  /** Scans all leaves, in any order, for the lowest one that links the child. */
  method FindParent(d: Dag, child: Hash) returns (parent: Option<Hash>)
    requires Keyed(d.leafs)
    ensures parent == None ==> !HasParent(d.leafs, child)
    ensures parent.Some? ==> IsMinParent(d.leafs, child, parent.value)
  {
    hide Less;
    parent := None;
    var rest := d.leafs.Keys;
    while rest != {}
      invariant rest <= d.leafs.Keys
      invariant parent.Some? ==> parent.value in d.leafs && child in d.leafs[parent.value].links
      invariant forall q :: q in d.leafs && q !in rest && child in d.leafs[q].links ==>
                              parent.Some? && (q == parent.value || Less(parent.value, q))
      decreases rest
    {
      var q :| q in rest;
      rest := rest - {q};
      if HasLink(d.leafs[q], child) {
        if parent == None {
          parent := Some(q);
        } else {
          LessTotal(q, parent.value);
          if Less(d.leafs[q].hash, d.leafs[parent.value].hash) {
            Replace(d, child, rest, q, parent.value);
            parent := Some(q);
          }
        }
      }
    }
  }

  lemma Replace(d: Dag, child: Hash, rest: set<Hash>, q: Hash, p: Hash)
    requires Less(q, p)
    requires forall r :: r in d.leafs && r !in rest + {q} && child in d.leafs[r].links ==> r == p || Less(p, r)
    ensures forall r :: r in d.leafs && r !in rest + {q} && child in d.leafs[r].links ==> Less(q, r)
  {
    hide Less;
    forall r | r in d.leafs && r !in rest + {q} && child in d.leafs[r].links
      ensures Less(q, r)
    {
      if r != p {
        LessTransitive(q, p, r);
      }
    }
  }

  method VerifyStored(e: Suite, p: Leaf, c: Hash) returns (ok: bool)
    ensures ok == StoredProofOk(e, p, c)
  {
    if c !in p.proofs {
      return false;
    }
    ok := VerifyBranch(e, p, p.proofs[c]);
  }

  method VerifyStep(e: Suite, leafs: map<Hash, Leaf>, p: Leaf, c: Hash, cpus: nat) returns (ok: bool)
    requires cpus > 0 && |p.links| <= MAX_LINKS
    ensures ok == StepOk(e, leafs, p, c)
  {
    hide ChildrenOk, Present, BranchOk;
    if |p.links| == p.currentLinkCount && p.currentLinkCount > 0 {
      var childrenInDag := CountPresent(leafs, p.links);
      if childrenInDag == p.currentLinkCount {
        ok := VerifyChildren(e, p, cpus);
      } else {
        ok := VerifyStored(e, p, c);
      }
    } else if p.currentLinkCount > 1 {
      ok := VerifyStored(e, p, c);
    } else {
      ok := true;
    }
  }

  method VerifyRootStep(e: Suite, leafs: map<Hash, Leaf>, root: Leaf, cpus: nat) returns (ok: bool)
    requires cpus > 0 && |root.links| <= MAX_LINKS
    ensures ok == RootStepOk(e, leafs, root)
  {
    hide ChildrenOk, Present;
    ok := true;
    if |root.links| == root.currentLinkCount && root.currentLinkCount > 0 {
      var childrenInDag := CountPresent(leafs, root.links);
      if childrenInDag == root.currentLinkCount {
        ok := VerifyChildren(e, root, cpus);
      } else if root.currentLinkCount == 1 {
        if childrenInDag > 0 {
          ok := root.classicMerkleRoot == root.links[0];
        }
      } else if |root.proofs| == 0 {
        ok := false;
      }
    }
  }

  /** Climbs from one leaf to the root, checking every step. The climb ends because ranks fall. */
  method VerifyPath(e: Suite, d: Dag, h: Hash, cpus: nat, ghost rank: map<Hash, nat>) returns (ok: bool)
    requires cpus > 0 && FewLinks(d.leafs) && Keyed(d.leafs) && Ranked(d.leafs, rank) && h in d.leafs
    ensures ok == PathOk(e, d.View(), h)
  {
    hide LeafOk, StepOk, PathOk, UpStep;
    ghost var g := d.View();
    PathAtRoot(e, g);
    var current := h;
    while current != d.root
      invariant current in d.leafs && PathOk(e, g, current) == PathOk(e, g, h)
      decreases rank[current]
    {
      var parent := FindParent(d, current);
      if parent == None {
        PathNeedsParent(e, g, current);
        return false;
      }
      var p := parent.value;
      PathUnfold(e, g, current, p);
      UpStepParts(e, g, current, p);
      if p != d.root && !LeafOk(e, d.leafs[p]) {
        return false;
      }
      var stepOk := VerifyStep(e, d.leafs, d.leafs[p], current, cpus);
      if !stepOk {
        return false;
      }
      current := p;
    }
    ok := true;
  }

  lemma UpStepParts(e: Suite, g: Graph, c: Hash, p: Hash)
    requires IsMinParent(g.leafs, c, p)
    ensures UpStep(e, g, c, p) <==> (p != g.root ==> LeafOk(e, g.leafs[p])) && StepOk(e, g.leafs, g.leafs[p], c)
  {
  }

  /** `verifyWithProofs`, checking the leaves in any order. On a cyclic graph the source's climb does
      not end, so acyclicity is required. */
  method VerifyWithProofs(e: Suite, d: Dag, cpus: nat) returns (ok: bool)
    requires cpus > 0 && FewLinks(d.leafs) && Keyed(d.leafs) && Acyclic(d.leafs) && d.root in d.leafs
    ensures ok == PartialPasses(e, d.View())
  {
    hide LeafOk, RootOk, RootStepOk, PathOk;
    ghost var rank :| Ranked(d.leafs, rank);
    ok := VerifyRootLeaf(e, d.leafs[d.root], Some(d.leafs));
    if !ok {
      return;
    }
    ok := VerifyRootStep(e, d.leafs, d.leafs[d.root], cpus);
    if !ok {
      return;
    }
    var rest := d.leafs.Keys;
    while rest != {}
      invariant rest <= d.leafs.Keys
      invariant forall h :: h in d.leafs && h !in rest && h != d.root ==>
                LeafOk(e, d.leafs[h]) && PathOk(e, d.View(), h)
      decreases rest
    {
      var h :| h in rest;
      rest := rest - {h};
      if h != d.root {
        if !LeafOk(e, d.leafs[h]) {
          return false;
        }
        ok := VerifyPath(e, d, h, cpus, rank);
        if !ok {
          return;
        }
      }
    }
    ok := true;
  }

  method VerifyDag(e: Suite, d: Dag, order: Order, cpus: nat) returns (ok: bool)
    requires cpus > 0 && FewLinks(d.leafs) && Keyed(d.leafs) && Acyclic(d.leafs) && Rearranges(order)
    requires d.root in d.leafs
    ensures ok == Passes(e, order, d.View())
  {
    if IsPartial(d.View()) {
      ok := VerifyWithProofs(e, d, cpus);
    } else {
      ok := VerifyFullDag(e, d, order, cpus);
    }
  }
}
