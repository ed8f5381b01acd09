/** `GetPartial`: the requested leaves with the leaves above them and the proofs between them. */
module Partial {
  import opened ByteStrings
  import opened DagModel
  import opened LinkTree
  import opened ParentIndex
  import opened DagVerify

  // ----- What a partial DAG holds -----

  /** k is on the walk from h up to the root. */
  ghost predicate Above(g: Graph, h: Hash, k: Hash) {
    exists path :: UpPath(g.leafs, g.root, path) && path[0] == h && k in path
  }

  /** The leaves of the partial: the requested ones and those above them. */
  ghost predicate KeysOf(g: Graph, requested: seq<Hash>, keys: set<Hash>) {
    forall k :: k in keys <==> IsKept(g, requested, k)
  }

  ghost predicate IsKept(g: Graph, requested: seq<Hash>, k: Hash) {
    exists h :: h in requested && Above(g, h, k)
  }

  /** The branch of h goes through c up to k and brings k a new proof of c. */
  ghost predicate Through(g: Graph, h: Hash, c: Hash, k: Hash) {
    c != g.root && IsMinParent(g.leafs, c, k) && Above(g, h, c)
  }

  /** The branch of h holds a copy of k: k is above h, or it is the root. */
  ghost predicate Touches(g: Graph, h: Hash, k: Hash) {
    Above(g, h, k) && (h == k ==> k == g.root)
  }

  ghost function ChildBelow(g: Graph, h: Hash, k: Hash): Option<Hash> {
    if c :| Through(g, h, c, k) then Some(c) else None
  }

  /** The child through which the last branch that holds a copy of k comes up to it. The copy puts the
      proofs k had back in place of new ones, except for that child. */
  ghost function LastChild(g: Graph, requested: seq<Hash>, k: Hash): Option<Hash> {
    if requested == [] then None
    else
      var n := |requested| - 1;
      if Touches(g, requested[n], k) then ChildBelow(g, requested[n], k) else LastChild(g, requested[..n], k)
  }

  /** A leaf as it was but for its proofs: its own, but for that of the last child, and new ones of
      kept children. */
  ghost predicate Grown(e: Suite, keys: set<Hash>, was: Leaf, last: Option<Hash>, l: Leaf) {
    && SameLeaf(was, l)
    && was.proofs.Keys <= l.proofs.Keys
    && forall c :: c in l.proofs ==>
                     if c in was.proofs && (was.currentLinkCount <= 1 || last != Some(c))
                     then l.proofs[c] == was.proofs[c]
                     else && c in was.links && c in keys && TreeRoot(e, was.links).Some?
                          && l.proofs[c] == LinkProof(e, was.links, c)
  }

  /** Every kept child of a parent with several links has a proof. */
  ghost predicate Proven(keys: set<Hash>, was: Leaf, l: Leaf) {
    |was.links| > 1 ==> forall c :: c in was.links && c in keys ==> c in l.proofs
  }

  function Kept(links: seq<Hash>, keys: set<Hash>): seq<Hash> {
    if links == [] then []
    else (if links[0] in keys then [links[0]] else []) + Kept(links[1..], keys)
  }

  function Pruned(l: Leaf, keys: set<Hash>): Leaf {
    l.(links := Kept(l.links, keys))
  }

  ghost predicate PartialLeaf(e: Suite, keys: set<Hash>, prune: bool, was: Leaf, last: Option<Hash>, l: Leaf) {
    exists grown :: && Grown(e, keys, was, last, grown) && Proven(keys, was, grown)
                    && l == if prune then Pruned(grown, keys) else grown
  }

  ghost predicate IsPartialOf(e: Suite, g: Graph, requested: seq<Hash>, prune: bool, p: Graph) {
    && p.root == g.root
    && KeysOf(g, requested, p.leafs.Keys)
    && p.leafs.Keys <= g.leafs.Keys
    && forall k :: k in p.leafs ==>
                     PartialLeaf(e, p.leafs.Keys, prune, g.leafs[k], LastChild(g, requested, k), p.leafs[k])
  }

  // ----- Branches -----

  /** What the source's loops need of a DAG: leaves under their own hashes, no cycles, the root there,
      and no more links than a tree has room for. */
  ghost predicate Partialable(g: Graph) {
    g.root in g.leafs && Keyed(g.leafs) && Acyclic(g.leafs) && FewLinks(g.leafs)
  }

  lemma WellFormedPartialable(e: Suite, g: Graph)
    requires WellFormed(e, g)
    ensures Partialable(g)
  {
    hide RootOk, LeafOk, Reachable, Acyclic, LinksRoot;
  }

  datatype DagBranch = DagBranch(leaf: Leaf, path: seq<Leaf>)

  method BuildParentIndex(e: Suite, d: Dag) returns (parentOf: map<Hash, Hash>)
    requires Keyed(d.leafs)
    ensures forall c :: c in parentOf <==> HasParent(d.leafs, c)
    ensures forall c :: c in parentOf ==> IsMinParent(d.leafs, c, parentOf[c])
  {
    hide Less;
    var children := map h | h in d.leafs && |d.leafs[h].links| > 0 :: d.leafs[h].links;
    parentOf := MinimumParentIndex(children);
    forall c | HasParent(d.leafs, c)
      ensures c in parentOf
    {
      var p :| p in d.leafs && c in d.leafs[p].links;
      assert p in children && c in children[p];
    }
    forall c | c in parentOf
      ensures IsMinParent(d.leafs, c, parentOf[c])
    {
      forall q | q in d.leafs && c in d.leafs[q].links
        ensures q == parentOf[c] || Less(parentOf[c], q)
      {
        assert q in children && c in children[q];
      }
    }
  }

  /** A branch whose path nodes are, after the root, the leaves above the target, from its parent to
      the root, each with the proof of the one below. */
  ghost predicate BranchAlong(e: Suite, g: Graph, h: Hash, b: DagBranch, path: seq<Hash>) {
    && UpPath(g.leafs, g.root, path) && path[0] == h
    && (forall i :: 0 <= i < |path| ==> path[i] in g.leafs)
    && |b.path| == |path|
    && b.leaf == g.leafs[h] && b.path[0] == g.leafs[g.root]
    && forall i :: 0 < i < |path| ==> PathNode(e, g.leafs[path[i]], path[i - 1], b.path[i])
  }

  /** A parent that commits to several children has a tree to take their proofs from. */
  ghost predicate Treed(e: Suite, l: Leaf) {
    l.currentLinkCount > 1 ==> TreeRoot(e, l.links).Some?
  }

  ghost predicate PathNode(e: Suite, was: Leaf, child: Hash, l: Leaf) {
    && child in was.links && Treed(e, was)
    && l == if was.currentLinkCount > 1 then was.(proofs := was.proofs[child := LinkProof(e, was.links, child)])
      else was
  }

  /** The walk up from h reaches the root, and each leaf above h has its tree. */
  ghost predicate Climbs(e: Suite, g: Graph, h: Hash) {
    exists path :: UpPath(g.leafs, g.root, path) && path[0] == h && TreedAbove(e, g, path)
  }

  ghost predicate TreedAbove(e: Suite, g: Graph, path: seq<Hash>) {
    forall i :: 0 < i < |path| ==> path[i] in g.leafs && Treed(e, g.leafs[path[i]])
  }

  lemma ClimbsFromRoot(e: Suite, g: Graph)
    ensures Climbs(e, g, g.root)
  {
    assert UpPath(g.leafs, g.root, [g.root]);
  }

  lemma ClimbsUnfold(e: Suite, g: Graph, h: Hash, p: Hash)
    requires h != g.root && IsMinParent(g.leafs, h, p)
    ensures Climbs(e, g, h) <==> Treed(e, g.leafs[p]) && Climbs(e, g, p)
  {
    assert p in g.leafs;
    hide IsMinParent, Treed;
    if Climbs(e, g, h) {
      var path :| UpPath(g.leafs, g.root, path) && path[0] == h && TreedAbove(e, g, path);
      MinParentUnique(g.leafs, h, p, path[1]);
      UpPathTail(g, path);
      var rest := path[1..];
      assert forall i :: 0 <= i < |rest| ==> rest[i] == path[i + 1];
      assert rest[0] == p && TreedAbove(e, g, rest);
    }
    if Treed(e, g.leafs[p]) && Climbs(e, g, p) {
      var path :| UpPath(g.leafs, g.root, path) && path[0] == p && TreedAbove(e, g, path);
      var longer := [h] + path;
      assert forall i :: 0 < i < |longer| ==> longer[i] == path[i - 1];
      assert UpPath(g.leafs, g.root, longer) && longer[0] == h && TreedAbove(e, g, longer);
    }
  }

  lemma ClimbsNowhere(e: Suite, g: Graph, h: Hash)
    requires h != g.root && !HasParent(g.leafs, h)
    ensures !Climbs(e, g, h)
  {
    forall path: seq<Hash> | |path| > 1 && path[0] == h
      ensures !UpPath(g.leafs, g.root, path)
    {
      assert !IsMinParent(g.leafs, path[0], path[1]);
    }
  }

  /** A clone of the parent that also stores the proof of the child, when it has several children;
      none when their tree cannot be built. */
  method ClonePathNode(e: Suite, parent: Leaf, child: Hash, cpus: nat) returns (clone: Option<Leaf>)
    requires cpus > 0 && |parent.links| <= MAX_LINKS && child in parent.links
    ensures clone.Some? <==> Treed(e, parent)
    ensures clone.Some? ==> PathNode(e, parent, child, clone.value)
  {
    hide LinkProof, SortedKeys;
    clone := Some(parent);
    if parent.currentLinkCount > 1 {
      if |parent.links| <= 1 {
        TreeKeysFacts(parent.links);
        return None;
      }
      var proof := ProofForChild(e, parent, child, cpus);
      if proof.Err? {
        return None;
      }
      clone := Some(parent.(proofs := parent.proofs[child := proof.value.value]));
    }
  }

  /** The i-th climbed leaf, with the node cloned for it. */
  ghost predicate ClimbedNode(e: Suite, g: Graph, path: seq<Hash>, nodes: seq<Leaf>, i: nat)
    requires i < |path| == |nodes|
  {
    && path[i] in g.leafs
    && (i == 0 ==> g.root in g.leafs && nodes[i] == g.leafs[g.root])
    && (i > 0 ==>
          && path[i - 1] != g.root && IsMinParent(g.leafs, path[i - 1], path[i])
          && PathNode(e, g.leafs[path[i]], path[i - 1], nodes[i]))
  }

  /** The climbed leaves so far, with the nodes cloned for them. */
  ghost predicate Climbed(e: Suite, g: Graph, path: seq<Hash>, nodes: seq<Leaf>) {
    |path| > 0 && |nodes| == |path| && forall i: nat :: i < |path| ==> ClimbedNode(e, g, path, nodes, i)
  }

  lemma ClimbOn(e: Suite, g: Graph, path: seq<Hash>, nodes: seq<Leaf>, p: Hash, node: Leaf)
    requires Climbed(e, g, path, nodes) && path[|path| - 1] != g.root
    requires IsMinParent(g.leafs, path[|path| - 1], p) && PathNode(e, g.leafs[p], path[|path| - 1], node)
    ensures Climbed(e, g, path + [p], nodes + [node])
  {
    assert p in g.leafs;
    hide IsMinParent, PathNode, ClimbedNode;
    forall i: nat | i <= |path|
      ensures ClimbedNode(e, g, path + [p], nodes + [node], i)
    {
      if i < |path| {
        assert ClimbedNode(e, g, path, nodes, i);
        StillClimbed(e, g, path, nodes, p, node, i);
      } else {
        NewlyClimbed(e, g, path, nodes, p, node);
      }
    }
  }

  lemma StillClimbed(e: Suite, g: Graph, path: seq<Hash>, nodes: seq<Leaf>, p: Hash, node: Leaf, i: nat)
    requires i < |path| == |nodes| && ClimbedNode(e, g, path, nodes, i)
    ensures ClimbedNode(e, g, path + [p], nodes + [node], i)
  {
    hide IsMinParent, PathNode;
  }

  lemma NewlyClimbed(e: Suite, g: Graph, path: seq<Hash>, nodes: seq<Leaf>, p: Hash, node: Leaf)
    requires 0 < |path| == |nodes| && p in g.leafs && path[|path| - 1] != g.root
    requires IsMinParent(g.leafs, path[|path| - 1], p) && PathNode(e, g.leafs[p], path[|path| - 1], node)
    ensures ClimbedNode(e, g, path + [p], nodes + [node], |path|)
  {
    hide IsMinParent, PathNode;
  }

  method BuildVerificationBranch(e: Suite, d: Dag, h: Hash, cpus: nat)
    returns (b: Result<DagBranch, ()>, ghost path: seq<Hash>)
    requires cpus > 0 && Partialable(d.View()) && h in d.leafs
    ensures b.Ok? <==> Climbs(e, d.View(), h)
    ensures b.Ok? ==> BranchAlong(e, d.View(), h, b.value, path) && |path| > 0 && path[0] == h
  {
    hide Climbed, PathNode, Climbs, Treed;
    ghost var g := d.View();
    ghost var rank :| Ranked(d.leafs, rank);
    var parentOf := BuildParentIndex(e, d);
    var nodes := [d.leafs[d.root]];
    var current := h;
    path := [h];
    assert Climbed(e, g, path, nodes) by { ClimbStart(e, g, h); }
    ClimbsFromRoot(e, g);
    while current != d.root
      invariant current in d.leafs && |path| > 0 && path[|path| - 1] == current && path[0] == h
      invariant Climbed(e, g, path, nodes) && Climbs(e, g, current) == Climbs(e, g, h)
      decreases rank[current]
    {
      if current !in parentOf {
        ClimbsNowhere(e, g, current);
        return Err(()), path;
      }
      var p := parentOf[current];
      ClimbsUnfold(e, g, current, p);
      var clone := ClonePathNode(e, d.leafs[p], current, cpus);
      if clone == None {
        return Err(()), path;
      }
      ClimbOn(e, g, path, nodes, p, clone.value);
      nodes := nodes + [clone.value];
      path := path + [p];
      current := p;
    }
    b := Ok(DagBranch(d.leafs[h], nodes));
    ClimbDone(e, g, path, nodes);
  }

  lemma ClimbStart(e: Suite, g: Graph, h: Hash)
    requires g.root in g.leafs && h in g.leafs
    ensures Climbed(e, g, [h], [g.leafs[g.root]])
  {
  }

  lemma ClimbDone(e: Suite, g: Graph, path: seq<Hash>, nodes: seq<Leaf>)
    requires Climbed(e, g, path, nodes) && path[|path| - 1] == g.root
    ensures path[0] in g.leafs && BranchAlong(e, g, path[0], DagBranch(g.leafs[path[0]], nodes), path)
  {
    hide IsMinParent, PathNode;
    assert ClimbedNode(e, g, path, nodes, 0);
    forall i: nat | i < |path| - 1
      ensures path[i] != g.root && IsMinParent(g.leafs, path[i], path[i + 1])
    {
      assert ClimbedNode(e, g, path, nodes, i + 1);
    }
    forall i: nat | i < |path|
      ensures path[i] in g.leafs
      ensures i > 0 ==> PathNode(e, g.leafs[path[i]], path[i - 1], nodes[i])
    {
      assert ClimbedNode(e, g, path, nodes, i);
    }
  }

  // ----- Adding branches -----

  ghost function At(last: map<Hash, Hash>, k: Hash): Option<Hash> {
    if k in last then Some(last[k]) else None
  }

  /** Every leaf gathered so far is one of the DAG's, with the proofs it grew. */
  ghost predicate Gathered(e: Suite, g: Graph, leafs: map<Hash, Leaf>, last: map<Hash, Hash>) {
    && leafs.Keys <= g.leafs.Keys && last.Keys <= leafs.Keys
    && forall k :: k in leafs ==> Grown(e, leafs.Keys, g.leafs[k], At(last, k), leafs[k])
  }

  /** The i-th node of a path: the root first, then the leaves of the path above its first. */
  ghost function NodeAt(path: seq<Hash>, i: nat): Hash
    requires i < |path|
  {
    if i == 0 then path[|path| - 1] else path[i]
  }

  /** The last children after the first i nodes of a path were added. */
  ghost function Marks(last: map<Hash, Hash>, path: seq<Hash>, i: nat): map<Hash, Hash>
    requires i <= |path|
  {
    if i == 0 then last
    else if i == 1 then last - {path[|path| - 1]}
    else Marks(last, path, i - 1)[path[i - 1] := path[i - 2]]
  }

  function AddLink(l: Leaf, h: Hash): Leaf {
    l.(links := l.links + [h])
  }

  function Merged(l: Leaf, node: Leaf): Leaf {
    l.(proofs := l.proofs + node.proofs)
  }

  function WithNode(leafs: map<Hash, Leaf>, node: Leaf): map<Hash, Leaf> {
    leafs[node.hash := if node.hash in leafs then Merged(leafs[node.hash], node) else node]
  }

  function WithLink(leafs: map<Hash, Leaf>, node: Leaf, child: Hash): map<Hash, Leaf> {
    if HasLink(node, child) && node.hash in leafs && !HasLink(leafs[node.hash], child)
    then leafs[node.hash := AddLink(leafs[node.hash], child)] else leafs
  }

  /** Adds a path node, merging its proofs into a node that is already there. */
  method AddNode(partial: Dag, node: Leaf)
    modifies partial`leafs
    ensures partial.leafs == WithNode(old(partial.leafs), node)
  {
    if node.hash in partial.leafs {
      var mergedNode := partial.leafs[node.hash];
      var rest := node.proofs.Keys;
      ghost var existing := mergedNode;
      while rest != {}
        invariant rest <= node.proofs.Keys
        invariant mergedNode == existing.(proofs := existing.proofs + (node.proofs - rest))
        decreases rest
      {
        var k :| k in rest;
        assert node.proofs - (rest - {k}) == (node.proofs - rest)[k := node.proofs[k]];
        assert existing.proofs + (node.proofs - rest)[k := node.proofs[k]]
            == (existing.proofs + (node.proofs - rest))[k := node.proofs[k]];
        mergedNode := mergedNode.(proofs := mergedNode.proofs[k := node.proofs[k]]);
        rest := rest - {k};
      }
      assert node.proofs - {} == node.proofs;
      partial.leafs := partial.leafs[node.hash := mergedNode];
    } else {
      partial.leafs := partial.leafs[node.hash := node];
    }
  }

  method EnsureLink(partial: Dag, node: Leaf, child: Hash)
    modifies partial`leafs
    ensures partial.leafs == WithLink(old(partial.leafs), node, child)
  {
    if HasLink(node, child) {
      if node.hash in partial.leafs {
        var partialNode := partial.leafs[node.hash];
        if !HasLink(partialNode, child) {
          partial.leafs := partial.leafs[node.hash := AddLink(partialNode, child)];
        }
      }
    }
  }

  /** A node brings back the proofs its leaf had, so its last child is the leaf's. */
  lemma GatherNode(e: Suite, g: Graph, leafs: map<Hash, Leaf>, last: map<Hash, Hash>, k: Hash, node: Leaf,
                   last': map<Hash, Hash>)
    requires Gathered(e, g, leafs, last) && k in g.leafs && node.hash == k
    requires Grown(e, leafs.Keys, g.leafs[k], At(last', k), node)
    requires last'.Keys <= last.Keys + {k} && forall h :: h != k ==> At(last, h) == At(last', h)
    ensures Gathered(e, g, WithNode(leafs, node), last') && WithNode(leafs, node).Keys == leafs.Keys + {k}
  {
    hide Grown, At, Merged;
    var keys, more := leafs.Keys, WithNode(leafs, node);
    assert more.Keys == keys + {k} && last'.Keys <= more.Keys;
    forall h | h in more
      ensures Grown(e, keys + {k}, g.leafs[h], At(last', h), more[h])
    {
      if h != k {
        GrownMore(e, keys, keys + {k}, g.leafs[h], At(last, h), leafs[h]);
      } else {
        GrownMore(e, keys, keys + {k}, g.leafs[k], At(last', k), node);
        if k in leafs {
          GrownMore(e, keys, keys + {k}, g.leafs[k], At(last, k), leafs[k]);
          MergedGrown(e, keys + {k}, g.leafs[k], At(last, k), At(last', k), leafs[k], node);
        }
      }
    }
  }

  lemma GrownMore(e: Suite, keys: set<Hash>, more: set<Hash>, was: Leaf, last: Option<Hash>, l: Leaf)
    requires Grown(e, keys, was, last, l) && keys <= more
    ensures Grown(e, more, was, last, l) && l.hash == was.hash
  {
    hide LinkProof;
    assert was.(proofs := map[]).hash == l.(proofs := map[]).hash;
  }

  lemma MergedGrown(e: Suite, keys: set<Hash>, was: Leaf, last: Option<Hash>, last': Option<Hash>, l: Leaf, node: Leaf)
    requires Grown(e, keys, was, last, l) && Grown(e, keys, was, last', node)
    ensures Grown(e, keys, was, last', Merged(l, node))
  {
    hide LinkProof;
    var merged := Merged(l, node);
    assert SameLeaf(was, merged);
    assert was.proofs.Keys <= l.proofs.Keys <= merged.proofs.Keys;
    forall c | c in merged.proofs
      ensures
        if c in was.proofs && (was.currentLinkCount <= 1 || last' != Some(c)) then merged.proofs[c] == was.proofs[c]
        else && c in was.links && c in keys && TreeRoot(e, was.links).Some?
             && merged.proofs[c] == LinkProof(e, was.links, c)
    {
      if c !in node.proofs {
        assert c in l.proofs && c !in was.proofs;
      }
    }
  }

  /** All leaves of a gathered partial still have all their links, so no link is ever missing. */
  lemma NothingToLink(e: Suite, g: Graph, leafs: map<Hash, Leaf>, last: map<Hash, Hash>, k: Hash, node: Leaf,
                      child: Hash)
    requires Gathered(e, g, leafs, last) && node.hash == k && k in g.leafs && SameLeaf(g.leafs[k], node)
    ensures WithLink(leafs, node, child) == leafs
  {
    hide LinkProof;
  }

  lemma NodeGrown(e: Suite, keys: set<Hash>, was: Leaf, child: Hash, node: Leaf)
    requires PathNode(e, was, child, node) && child in keys
    ensures Grown(e, keys, was, Some(child), node)
  {
    hide LinkProof;
  }

  lemma GatherFirst(e: Suite, g: Graph, leafs: map<Hash, Leaf>, last: map<Hash, Hash>, k: Hash)
    requires Gathered(e, g, leafs, last) && k in g.leafs && k !in leafs
    ensures Gathered(e, g, leafs[k := g.leafs[k]], last)
  {
    hide LinkProof;
  }

  /** Every path node has its leaf's hash and only adds the proof of the node below. */
  lemma PathStep(e: Suite, g: Graph, path: seq<Hash>, b: DagBranch, i: nat, keys: set<Hash>)
    requires Keyed(g.leafs) && g.root in g.leafs && |path| > 0 && path[0] in g.leafs
    requires BranchAlong(e, g, path[0], b, path) && i < |path|
    requires i > 0 ==> path[i - 1] in keys
    ensures
      var k := NodeAt(path, i);
      && k in g.leafs && b.path[i].hash == k
      && Grown(e, keys, g.leafs[k], if i == 0 then None else Some(path[i - 1]), b.path[i])
      && (i == 0 ==> k == g.root)
  {
    PathEnds(g, path);
    hide UpPath, LinkProof;
    if i > 0 {
      NodeGrown(e, keys, g.leafs[path[i]], path[i - 1], b.path[i]);
    }
  }

  lemma PathNodesSame(e: Suite, g: Graph, path: seq<Hash>, b: DagBranch)
    requires Keyed(g.leafs) && g.root in g.leafs && |path| > 0 && path[0] in g.leafs
    requires BranchAlong(e, g, path[0], b, path)
    ensures forall i :: 0 <= i < |path| ==>
                          b.path[i].hash in g.leafs && SameLeaf(g.leafs[b.path[i].hash], b.path[i])
  {
    hide UpPath, LinkProof;
    forall i | 0 <= i < |path|
      ensures b.path[i].hash in g.leafs && SameLeaf(g.leafs[b.path[i].hash], b.path[i])
    {
      PathStep(e, g, path, b, i, Elements(path));
    }
  }

  /** Adds the target and the path nodes. */
  method AddNodes(e: Suite, d: Dag, b: DagBranch, partial: Dag, ghost path: seq<Hash>, ghost last: map<Hash, Hash>)
    requires Keyed(d.leafs) && |path| > 0 && path[0] in d.leafs && d.root in d.leafs
    requires BranchAlong(e, d.View(), path[0], b, path) && Gathered(e, d.View(), partial.leafs, last)
    requires d != partial
    modifies partial`leafs
    ensures Gathered(e, d.View(), partial.leafs, Marks(last, path, |path|))
    ensures partial.leafs.Keys == old(partial.leafs.Keys) + Elements(path)
  {
    hide UpPath, PathNode, Grown, LinkProof, WithNode, Gathered, Elements, Marks, NodeAt;
    ghost var g := d.View();
    ghost var keys := partial.leafs.Keys + {path[0]};
    if b.leaf.hash !in partial.leafs {
      GatherFirst(e, g, partial.leafs, last, path[0]);
      partial.leafs := partial.leafs[b.leaf.hash := b.leaf];
    }
    ghost var base := keys;
    NoElements(path);
    NoMarks(last, path);
    PathEnds(g, path);
    for i := 0 to |b.path|
      invariant Gathered(e, g, partial.leafs, Marks(last, path, i))
      invariant base == if i == 0 then keys else keys + {g.root}
      invariant partial.leafs.Keys == base + Elements(path[..i])
      invariant i > 0 ==> path[i - 1] in partial.leafs
    {
      AddPathNode(e, d, b, partial, path, i, last);
      ElementsNext(path, i);
      NodeIs(g, path, i);
      UnionNext(base, Elements(path[..i]), NodeAt(path, i), path[0]);
      if i == 0 {
        base := keys + {g.root};
      }
    }
    assert path[..|path|] == path;
    UnionEnds(old(partial.leafs.Keys), Elements(path), path[0], g.root);
  }

  lemma NoMarks(last: map<Hash, Hash>, path: seq<Hash>)
    ensures Marks(last, path, 0) == last
  {
  }

  lemma NodeIs(g: Graph, path: seq<Hash>, i: nat)
    requires UpPath(g.leafs, g.root, path) && i < |path|
    ensures NodeAt(path, i) == if i == 0 then g.root else path[i]
  {
  }

  lemma MarksNext(last: map<Hash, Hash>, path: seq<Hash>, i: nat)
    requires i < |path|
    ensures
      var k, before, after := NodeAt(path, i), Marks(last, path, i), Marks(last, path, i + 1);
      && after.Keys <= before.Keys + {k} && (forall h :: h != k ==> At(before, h) == At(after, h))
      && At(after, k) == if i == 0 then None else Some(path[i - 1])
  {
  }

  lemma NoElements<T>(s: seq<T>)
    ensures Elements(s[..0]) == {} && s[..|s|] == s
  {
  }

  lemma UnionNext<T>(base: set<T>, e: set<T>, x: T, first: T)
    ensures base + e + {x} == base + (e + {x})
    ensures e == {} && first in base ==> base + e + {x} == base + {x} + (e + {first})
  {
  }

  lemma UnionEnds<T>(s: set<T>, e: set<T>, x: T, y: T)
    requires x in e && y in e
    ensures s + {x} + {y} + e == s + e
  {
  }

  method AddPathNode(e: Suite, d: Dag, b: DagBranch, partial: Dag, ghost path: seq<Hash>, i: nat,
                     ghost last: map<Hash, Hash>)
    requires Keyed(d.leafs) && |path| > 0 && path[0] in d.leafs && d.root in d.leafs
    requires BranchAlong(e, d.View(), path[0], b, path) && i < |b.path|
    requires Gathered(e, d.View(), partial.leafs, Marks(last, path, i)) && d != partial
    requires i > 0 ==> path[i - 1] in partial.leafs
    modifies partial`leafs
    ensures Gathered(e, d.View(), partial.leafs, Marks(last, path, i + 1))
    ensures partial.leafs.Keys == old(partial.leafs.Keys) + {NodeAt(path, i)}
  {
    hide UpPath, PathNode, Grown, LinkProof, WithNode, Gathered, Marks, NodeAt, At;
    PathStep(e, d.View(), path, b, i, partial.leafs.Keys);
    MarksNext(last, path, i);
    GatherNode(e, d.View(), partial.leafs, Marks(last, path, i), NodeAt(path, i), b.path[i], Marks(last, path, i + 1));
    AddNode(partial, b.path[i]);
  }

  lemma ElementsNext<T>(s: seq<T>, i: nat)
    requires i < |s|
    ensures Elements(s[..i + 1]) == Elements(s[..i]) + {s[i]}
    ensures s[i] in Elements(s[..i + 1])
  {
  }

  lemma PathEnds(g: Graph, path: seq<Hash>)
    requires UpPath(g.leafs, g.root, path)
    ensures path[0] in Elements(path) && g.root in Elements(path)
  {
    assert path[|path| - 1] == g.root;
  }

  /** Re-establishes the links along the path, from the last node to the target and from each node
      to the next. None is missing, so nothing changes. */
  method LinkNodes(e: Suite, d: Dag, b: DagBranch, partial: Dag, ghost path: seq<Hash>, ghost last: map<Hash, Hash>)
    requires Keyed(d.leafs) && |path| > 0 && path[0] in d.leafs && d.root in d.leafs
    requires BranchAlong(e, d.View(), path[0], b, path) && Gathered(e, d.View(), partial.leafs, last)
    requires d != partial
    modifies partial`leafs
    ensures partial.leafs == old(partial.leafs)
  {
    hide UpPath, PathNode, Grown, LinkProof, WithLink, Gathered;
    ghost var g := d.View();
    PathNodesSame(e, g, path, b);
    var end := |b.path| - 1;
    NothingToLink(e, g, partial.leafs, last, b.path[end].hash, b.path[end], b.leaf.hash);
    EnsureLink(partial, b.path[end], b.leaf.hash);
    for i := 0 to |b.path| - 1
      invariant partial.leafs == old(partial.leafs)
    {
      NothingToLink(e, g, partial.leafs, last, b.path[i].hash, b.path[i], b.path[i + 1].hash);
      EnsureLink(partial, b.path[i], b.path[i + 1].hash);
    }
  }

  method AddBranchToPartial(e: Suite, d: Dag, b: DagBranch, partial: Dag, ghost path: seq<Hash>,
                            ghost last: map<Hash, Hash>)
    requires Keyed(d.leafs) && |path| > 0 && path[0] in d.leafs && d.root in d.leafs
    requires BranchAlong(e, d.View(), path[0], b, path) && Gathered(e, d.View(), partial.leafs, last)
    requires d != partial
    modifies partial`leafs
    ensures Gathered(e, d.View(), partial.leafs, Marks(last, path, |path|))
    ensures partial.leafs.Keys == old(partial.leafs.Keys) + Elements(path)
  {
    hide BranchAlong, Gathered, Marks;
    AddNodes(e, d, b, partial, path, last);
    LinkNodes(e, d, b, partial, path, Marks(last, path, |path|));
  }

  // ----- Completing and pruning -----

  /** Each kept child of several that has no proof can be given one. */
  ghost predicate CanComplete(e: Suite, keys: set<Hash>, was: Leaf) {
    |was.links| > 1 && (exists c :: c in was.links && c in keys && c !in was.proofs) ==> TreeRoot(e, was.links).Some?
  }

  /** Gives one parent a proof for each kept child it has none for; fails when its tree cannot be
      built. */
  method CompleteLeaf(e: Suite, keys: set<Hash>, full: Leaf, ghost last: Option<Hash>, l: Leaf, cpus: nat)
    returns (done: Option<Leaf>)
    requires cpus > 0 && |full.links| <= MAX_LINKS && Grown(e, keys, full, last, l)
    ensures done.Some? <==> CanComplete(e, keys, full)
    ensures done.Some? ==> Grown(e, keys, full, last, done.value) && Proven(keys, full, done.value)
  {
    hide LinkProof, TreeRoot;
    var all := l;
    if |full.links| <= 1 {
      return Some(all);
    }
    for i := 0 to |full.links|
      invariant Grown(e, keys, full, last, all)
      invariant forall j :: 0 <= j < i && full.links[j] in keys ==> full.links[j] in all.proofs
    {
      var child := full.links[i];
      if child in keys && child !in all.proofs {
        assert child !in full.proofs;
        var proof := ProofForChild(e, full, child, cpus);
        if proof.Err? {
          return None;
        }
        all := all.(proofs := all.proofs[child := proof.value.value]);
      }
    }
    CompletedTree(e, keys, full, last, all);
    done := Some(all);
  }

  lemma CompletedTree(e: Suite, keys: set<Hash>, was: Leaf, last: Option<Hash>, l: Leaf)
    requires Grown(e, keys, was, last, l) && Proven(keys, was, l)
    ensures CanComplete(e, keys, was)
  {
    hide LinkProof, TreeRoot;
  }

  method CompleteParentProofs(e: Suite, d: Dag, partial: Dag, ghost last: map<Hash, Hash>, cpus: nat) returns (ok: bool)
    requires cpus > 0 && Gathered(e, d.View(), partial.leafs, last) && d != partial && FewLinks(d.leafs)
    modifies partial`leafs
    ensures Gathered(e, d.View(), partial.leafs, last) && partial.leafs.Keys == old(partial.leafs.Keys)
    ensures ok <==> forall k :: k in partial.leafs ==> CanComplete(e, partial.leafs.Keys, d.leafs[k])
    ensures ok ==> forall k :: k in partial.leafs ==> Proven(partial.leafs.Keys, d.leafs[k], partial.leafs[k])
  {
    hide Grown, Proven, CanComplete, At;
    var rest := partial.leafs.Keys;
    ghost var keys := partial.leafs.Keys;
    while rest != {}
      invariant rest <= keys && partial.leafs.Keys == keys
      invariant Gathered(e, d.View(), partial.leafs, last)
      invariant forall k :: k in keys - rest ==>
                              CanComplete(e, keys, d.leafs[k]) && Proven(keys, d.leafs[k], partial.leafs[k])
      decreases rest
    {
      var k :| k in rest;
      rest := rest - {k};
      var done := CompleteLeaf(e, partial.leafs.Keys, d.leafs[k], At(last, k), partial.leafs[k], cpus);
      if done == None {
        return false;
      }
      partial.leafs := partial.leafs[k := done.value];
    }
    ok := true;
  }

  method PruneLinks(links: seq<Hash>, relevant: set<Hash>) returns (kept: seq<Hash>)
    ensures kept == Kept(links, relevant)
  {
    kept := [];
    assert links[0..] == links;
    for i := 0 to |links|
      invariant kept + Kept(links[i..], relevant) == Kept(links, relevant)
    {
      assert links[i..][1..] == links[i + 1..];
      if links[i] in relevant {
        kept := kept + [links[i]];
      }
    }
  }

  method PruneIrrelevantLinks(partial: Dag, relevant: set<Hash>)
    modifies partial`leafs
    ensures partial.leafs.Keys == old(partial.leafs.Keys)
    ensures forall k :: k in partial.leafs ==> partial.leafs[k] == Pruned(old(partial.leafs[k]), relevant)
  {
    var rest := partial.leafs.Keys;
    ghost var before := partial.leafs;
    while rest != {}
      invariant rest <= before.Keys && partial.leafs.Keys == before.Keys
      invariant forall k :: k in before ==>
                partial.leafs[k] == if k in rest then before[k] else Pruned(before[k], relevant)
      decreases rest
    {
      var k :| k in rest;
      rest := rest - {k};
      var kept := PruneLinks(partial.leafs[k].links, relevant);
      partial.leafs := partial.leafs[k := partial.leafs[k].(links := kept)];
    }
  }

  // ----- GetPartial -----

  datatype PartialError = NoHashes | LeafNotFound(hash: Hash) | NoBranch(hash: Hash) | NoProof

  /** Every proof that is missing can be made. */
  ghost predicate Completable(e: Suite, g: Graph, requested: seq<Hash>) {
    forall keys :: KeysOf(g, requested, keys) ==> forall k :: k in keys && k in g.leafs ==>
      CanComplete(e, keys, g.leafs[k])
  }

  ghost predicate CanGet(e: Suite, g: Graph, requested: seq<Hash>) {
    && requested != [] && (forall h :: h in requested ==> h in g.leafs && Climbs(e, g, h))
    && Completable(e, g, requested)
  }

  lemma PathIsAbove(g: Graph, path: seq<Hash>, k: Hash)
    requires UpPath(g.leafs, g.root, path)
    ensures k in Elements(path) <==> Above(g, path[0], k)
  {
    if Above(g, path[0], k) {
      var other :| UpPath(g.leafs, g.root, other) && other[0] == path[0] && k in other;
      UpPathUnique(g, path, other);
    }
  }

  lemma {:induction false} UpPathUnique(g: Graph, a: seq<Hash>, b: seq<Hash>)
    requires UpPath(g.leafs, g.root, a) && UpPath(g.leafs, g.root, b) && a[0] == b[0]
    ensures a == b
  {
    hide IsMinParent;
    if |a| == 1 {
      assert |b| == 1;
    } else {
      assert a[0] != g.root;
      assert |b| > 1;
      MinParentUnique(g.leafs, a[0], a[1], b[1]);
      UpPathTail(g, a);
      UpPathTail(g, b);
      UpPathUnique(g, a[1..], b[1..]);
      assert a == [a[0]] + a[1..] && b == [b[0]] + b[1..];
    }
  }

  lemma UpPathTail(g: Graph, a: seq<Hash>)
    requires UpPath(g.leafs, g.root, a) && |a| > 1
    ensures UpPath(g.leafs, g.root, a[1..])
  {
    hide IsMinParent;
    var t := a[1..];
    assert forall i :: 0 <= i < |t| ==> t[i] == a[i + 1];
  }

  /** The partial so far holds the leaves on the paths of the requests handled so far. */
  ghost predicate CollectedFor(g: Graph, requested: seq<Hash>, n: nat, keys: set<Hash>)
    requires n <= |requested|
  {
    KeysOf(g, requested[..n], keys)
  }

  lemma CollectNext(g: Graph, requested: seq<Hash>, n: nat, keys: set<Hash>, path: seq<Hash>)
    requires n < |requested| && CollectedFor(g, requested, n, keys)
    requires UpPath(g.leafs, g.root, path) && path[0] == requested[n]
    ensures CollectedFor(g, requested, n + 1, keys + Elements(path))
  {
    hide UpPath, Above;
    var before, after := requested[..n], requested[..n + 1];
    assert after == before + [requested[n]];
    forall k
      ensures k in keys + Elements(path) <==> IsKept(g, after, k)
    {
      PathIsAbove(g, path, k);
      if k in Elements(path) {
        assert requested[n] in after && Above(g, requested[n], k);
      }
      if k in keys {
        var h :| h in before && Above(g, h, k);
        assert h in after;
      }
      if h :| h in after && Above(g, h, k) {
        assert h in before || h == requested[n];
      }
    }
  }

  // ----- Which child comes last -----

  ghost predicate Tracks(g: Graph, requested: seq<Hash>, last: map<Hash, Hash>) {
    forall k :: LastChild(g, requested, k) == At(last, k)
  }

  /** The nodes of a path before the i-th have the leaf below them as their last child. */
  lemma {:induction false} MarksAt(last: map<Hash, Hash>, path: seq<Hash>, i: nat, k: Hash)
    requires Distinct(path) && i <= |path|
    ensures forall j :: 0 < j < i && path[j] == k ==> At(Marks(last, path, i), k) == Some(path[j - 1])
    ensures i > 0 && k !in path[1..i] ==>
              At(Marks(last, path, i), k) == if k == path[|path| - 1] then None else At(last, k)
    ensures i == 0 ==> Marks(last, path, i) == last
  {
    if i > 1 {
      MarksAt(last, path, i - 1, k);
      assert path[1..i] == path[1..i - 1] + [path[i - 1]];
    }
  }

  /** On a walk up, the child below a leaf is the one before it. */
  lemma PathBelow(g: Graph, path: seq<Hash>, k: Hash)
    requires UpPath(g.leafs, g.root, path) && Distinct(path)
    ensures Touches(g, path[0], k) <==> k in path[1..] || k == g.root
    ensures forall j :: 0 < j < |path| && path[j] == k ==> ChildBelow(g, path[0], k) == Some(path[j - 1])
    ensures k !in path[1..] ==> ChildBelow(g, path[0], k) == None
  {
    hide IsMinParent, Above;
    PathIsAbove(g, path, k);
    forall c | Through(g, path[0], c, k)
      ensures exists j :: 0 < j < |path| && path[j] == k && path[j - 1] == c
    {
      PathIsAbove(g, path, c);
      var i :| 0 <= i < |path| && path[i] == c;
      MinParentUnique(g.leafs, c, k, path[i + 1]);
      assert path[i + 1] == k && path[i + 1 - 1] == c;
    }
    forall j | 0 < j < |path| && path[j] == k
      ensures k in path[1..] && Through(g, path[0], path[j - 1], k)
    {
      assert path[1..][j - 1] == k;
      PathIsAbove(g, path, path[j - 1]);
      assert path[j - 1] in path;
    }
    if k in path[1..] {
      var j :| 0 <= j < |path| - 1 && path[1..][j] == k;
      assert path[j + 1] == k;
    }
  }

  /** A walk up passes each leaf once. */
  lemma {:induction false} UpPathDistinct(g: Graph, rank: map<Hash, nat>, path: seq<Hash>)
    requires Ranked(g.leafs, rank) && UpPath(g.leafs, g.root, path) && path[0] in g.leafs
    ensures Distinct(path)
    ensures forall i :: 0 <= i < |path| ==> path[i] in g.leafs && rank[path[i]] <= rank[path[0]]
    decreases |path|
  {
    if |path| > 1 {
      assert IsMinParent(g.leafs, path[0], path[1]);
      hide IsMinParent;
      UpPathTail(g, path);
      UpPathDistinct(g, rank, path[1..]);
      assert path == [path[0]] + path[1..];
      assert forall i :: 0 < i < |path| ==> path[i] == path[1..][i - 1];
    }
  }

  /** After one more branch the marks are those of its path. */
  lemma TrackNext(g: Graph, requested: seq<Hash>, n: nat, path: seq<Hash>, last: map<Hash, Hash>)
    requires Acyclic(g.leafs) && n < |requested| && requested[n] in g.leafs
    requires UpPath(g.leafs, g.root, path) && path[0] == requested[n] && Tracks(g, requested[..n], last)
    ensures Tracks(g, requested[..n + 1], Marks(last, path, |path|))
  {
    hide Ranked, UpPath, Touches, ChildBelow, At, Marks;
    var rank :| Ranked(g.leafs, rank);
    UpPathDistinct(g, rank, path);
    PathEnds(g, path);
    assert requested[..n + 1][..n] == requested[..n];
    forall k
      ensures LastChild(g, requested[..n + 1], k) == At(Marks(last, path, |path|), k)
    {
      PathBelow(g, path, k);
      MarksAt(last, path, |path|, k);
      assert path[1..|path|] == path[1..];
      assert LastChild(g, requested[..n], k) == At(last, k);
      assert requested[..n + 1][n] == path[0];
      if k in path[1..] {
        var j :| 0 <= j < |path| - 1 && path[1..][j] == k;
        assert path[j + 1] == k;
        assert At(Marks(last, path, |path|), k) == Some(path[j + 1 - 1]) == ChildBelow(g, path[0], k);
      } else {
        RootLast(g, path);
      }
    }
  }

  lemma RootLast(g: Graph, path: seq<Hash>)
    requires UpPath(g.leafs, g.root, path)
    ensures path[|path| - 1] == g.root
  {
  }

  /** Adds the hashes of the path nodes to those relevant for verification. */
  method TrackPath(e: Suite, d: Dag, b: DagBranch, relevant: set<Hash>, ghost path: seq<Hash>) returns (all: set<Hash>)
    requires Keyed(d.leafs) && |path| > 0 && path[0] in d.leafs && d.root in d.leafs
    requires BranchAlong(e, d.View(), path[0], b, path) && path[0] in relevant
    ensures all == relevant + {d.root} + Elements(path)
  {
    hide UpPath, PathNode, Grown;
    all := relevant;
    PathEnds(d.View(), path);
    for j := 0 to |b.path|
      invariant all == relevant + (if j == 0 then {} else {d.root}) + Elements(path[..j])
    {
      PathStep(e, d.View(), path, b, j, Elements(path));
      all := all + {b.path[j].hash};
      ElementsNext(path, j);
    }
    assert path[..|path|] == path;
  }

  /** The state after n requests: the leaves on their paths, whose hashes are the relevant ones, with
      the proofs of the last children. */
  ghost predicate Collected(e: Suite, g: Graph, requested: seq<Hash>, n: nat, leafs: map<Hash, Leaf>,
                            last: map<Hash, Hash>, relevant: set<Hash>)
    requires n <= |requested|
  {
    && Gathered(e, g, leafs, last) && Tracks(g, requested[..n], last) && CollectedFor(g, requested, n, leafs.Keys)
    && relevant == leafs.Keys + {g.root} && (n > 0 ==> g.root in leafs)
  }

  /** Handles one request: its branch goes into the partial and its path becomes relevant. */
  method Collect(e: Suite, d: Dag, requested: seq<Hash>, n: nat, partial: Dag, ghost last: map<Hash, Hash>,
                 relevant: set<Hash>, cpus: nat)
    returns (all: Option<set<Hash>>, ghost last': map<Hash, Hash>)
    requires cpus > 0 && Partialable(d.View()) && d != partial && n < |requested| && requested[n] in d.leafs
    requires Collected(e, d.View(), requested, n, partial.leafs, last, relevant)
    modifies partial`leafs
    ensures all.Some? <==> Climbs(e, d.View(), requested[n])
    ensures all.Some? ==> Collected(e, d.View(), requested, n + 1, partial.leafs, last', all.value)
  {
    hide Gathered, UpPath, PathNode, Acyclic, FewLinks, CollectedFor, Elements, Tracks, Marks, Climbs;
    ghost var before := partial.leafs.Keys;
    var branch, path := BuildVerificationBranch(e, d, requested[n], cpus);
    if branch.Err? {
      return None, last;
    }
    PathEnds(d.View(), path);
    var tracked := TrackPath(e, d, branch.value, relevant + {requested[n]}, path);
    AddBranchToPartial(e, d, branch.value, partial, path, last);
    last' := Marks(last, path, |path|);
    TrackNext(d.View(), requested, n, path, last);
    CollectNext(d.View(), requested, n, before, path);
    Absorb(before, Elements(path), d.root, requested[n]);
    all := Some(tracked);
  }

  /** The partial for the requested leaves, from the lowest parents of this DAG. */
  method GetPartial(e: Suite, d: Dag, requested: seq<Hash>, prune: bool, cpus: nat)
    returns (r: Result<Dag, PartialError>)
    requires cpus > 0 && Partialable(d.View())
    ensures r.Ok? <==> CanGet(e, d.View(), requested)
    ensures r.Ok? ==> fresh(r.value) && IsPartialOf(e, d.View(), requested, prune, r.value.View())
    ensures r == Err(NoHashes) <==> requested == []
    ensures r.Err? && r.error.LeafNotFound? ==> r.error.hash in requested && r.error.hash !in d.leafs
    ensures r.Err? && r.error.NoBranch? ==> r.error.hash in requested && !Climbs(e, d.View(), r.error.hash)
    ensures r == Err(NoProof) ==> !Completable(e, d.View(), requested)
  {
    hide Collected, IsPartialOf, Partialable, Proven, Pruned, Gathered, Climbs, CanComplete, KeysOf, Tracks;
    if |requested| == 0 {
      return Err(NoHashes);
    }
    var partial := new Dag(d.root, map[]);
    var relevant := {d.root};
    ghost var last: map<Hash, Hash> := map[];
    NothingCollected(e, d.View(), requested, partial.leafs, last, relevant);
    for i := 0 to |requested|
      invariant fresh(partial) && partial.root == d.root
      invariant Collected(e, d.View(), requested, i, partial.leafs, last, relevant)
      invariant forall j :: 0 <= j < i ==> requested[j] in d.leafs && Climbs(e, d.View(), requested[j])
    {
      if requested[i] !in d.leafs {
        return Err(LeafNotFound(requested[i]));
      }
      var all;
      all, last := Collect(e, d, requested, i, partial, last, relevant, cpus);
      if all == None {
        return Err(NoBranch(requested[i]));
      }
      relevant := all.value;
    }
    CollectedAll(e, d.View(), requested, partial.leafs, last, relevant);
    var ok := CompleteParentProofs(e, d, partial, last, cpus);
    CompletedIff(e, d.View(), requested, partial.leafs.Keys, ok);
    if !ok {
      return Err(NoProof);
    }
    ghost var completed := partial.leafs;
    if prune {
      PruneIrrelevantLinks(partial, relevant);
    }
    FinishedPartial(e, d.View(), requested, prune, completed, last, partial.View());
    r := Ok(partial);
  }

  lemma CompletedIff(e: Suite, g: Graph, requested: seq<Hash>, keys: set<Hash>, ok: bool)
    requires KeysOf(g, requested, keys) && keys <= g.leafs.Keys
    requires ok <==> forall k :: k in keys ==> CanComplete(e, keys, g.leafs[k])
    ensures ok <==> Completable(e, g, requested)
  {
    hide IsKept, CanComplete;
    forall other | KeysOf(g, requested, other)
      ensures other == keys
    {
      assert forall k :: k in other <==> IsKept(g, requested, k);
    }
  }

  lemma CollectedAll(e: Suite, g: Graph, requested: seq<Hash>, leafs: map<Hash, Leaf>, last: map<Hash, Hash>,
                     relevant: set<Hash>)
    requires Partialable(g) && |requested| > 0
    requires Collected(e, g, requested, |requested|, leafs, last, relevant)
    ensures Gathered(e, g, leafs, last) && KeysOf(g, requested, leafs.Keys) && relevant == leafs.Keys
    ensures Tracks(g, requested, last) && FewLinks(g.leafs) && leafs.Keys <= g.leafs.Keys
  {
    hide KeysOf, Tracks, Grown, Acyclic, FewLinks;
    assert requested[..|requested|] == requested;
  }

  lemma Absorb<T>(s: set<T>, t: set<T>, x: T, y: T)
    requires x in t && y in t
    ensures s + {x} + {y} + {x} + t == s + t + {x}
  {
  }

  lemma NothingCollected(e: Suite, g: Graph, requested: seq<Hash>, leafs: map<Hash, Leaf>, last: map<Hash, Hash>,
                         relevant: set<Hash>)
    requires leafs == map[] && relevant == {g.root} && last == map[]
    ensures Collected(e, g, requested, 0, leafs, last, relevant)
  {
    assert requested[..0] == [];
  }

  lemma FinishedPartial(e: Suite, g: Graph, requested: seq<Hash>, prune: bool, completed: map<Hash, Leaf>,
                        last: map<Hash, Hash>, p: Graph)
    requires Gathered(e, g, completed, last) && KeysOf(g, requested, completed.Keys)
    requires Tracks(g, requested, last)
    requires forall k :: k in completed ==> Proven(completed.Keys, g.leafs[k], completed[k])
    requires p.root == g.root && p.leafs.Keys == completed.Keys
    requires forall k :: k in completed ==>
                           p.leafs[k] == if prune then Pruned(completed[k], completed.Keys) else completed[k]
    ensures IsPartialOf(e, g, requested, prune, p)
  {
    hide Grown, Proven, KeysOf, LastChild, At;
    forall k | k in p.leafs
      ensures PartialLeaf(e, p.leafs.Keys, prune, g.leafs[k], LastChild(g, requested, k), p.leafs[k])
    {
      assert LastChild(g, requested, k) == At(last, k);
      assert Grown(e, completed.Keys, g.leafs[k], At(last, k), completed[k]);
    }
  }
}
