/** The parent rule: a leaf that several leaves link belongs to the one with the lowest hash. */
module ParentIndex {
  import opened ByteStrings
  import opened DagModel

  ghost predicate IsMinParent(leafs: map<Hash, Leaf>, c: Hash, p: Hash) {
    && p in leafs && c in leafs[p].links
    && forall q :: q in leafs && c in leafs[q].links ==> q == p || Less(p, q)
  }

  ghost predicate HasParent(leafs: map<Hash, Leaf>, c: Hash) {
    exists p :: p in leafs && c in leafs[p].links
  }

  lemma MinParentUnique(leafs: map<Hash, Leaf>, c: Hash, p: Hash, q: Hash)
    requires IsMinParent(leafs, c, p) && IsMinParent(leafs, c, q)
    ensures p == q
  {
    hide Less;
    if Less(p, q) {
      LessAsymmetric(p, q);
    }
  }

  /** No leaf that links c comes before its lowest parent in bytewise order. */
  lemma NoneLower(leafs: map<Hash, Leaf>, c: Hash, p: Hash, q: Hash)
    requires IsMinParent(leafs, c, p) && q in leafs && c in leafs[q].links
    ensures !ComesBefore(q, p)
  {
    hide Less;
    LessIsBytewise(q, p);
    if q != p && Less(q, p) {
      LessAsymmetric(p, q);
    }
    LessIrreflexive(p);
  }

  lemma {:induction false} LeastOf(s: set<Hash>) returns (p: Hash)
    requires s != {}
    ensures p in s && forall q :: q in s ==> q == p || Less(p, q)
    decreases s
  {
    hide Less;
    var x :| x in s;
    p := x;
    if s != {x} {
      var least := LeastOf(s - {x});
      LessTotal(x, least);
      if Less(least, x) {
        p := least;
      } else {
        forall q | q in s - {x} && q != least
          ensures Less(x, q)
        {
          LessTransitive(x, least, q);
        }
      }
    }
  }

  lemma MinParentExists(leafs: map<Hash, Leaf>, c: Hash) returns (p: Hash)
    requires HasParent(leafs, c)
    ensures IsMinParent(leafs, c, p)
  {
    var parents := set q | q in leafs && c in leafs[q].links;
    var q :| q in leafs && c in leafs[q].links;
    assert q in parents;
    p := LeastOf(parents);
  }

  // ----- Shape of a well-formed DAG -----

  /** Every leaf but the root is linked by some leaf. */
  lemma NonRootHasParent(e: Suite, g: Graph, h: Hash)
    requires WellFormed(e, g) && h in g.leafs && h != g.root
    ensures HasParent(g.leafs, h)
  {
    hide RootOk, LeafOk, LinksCommitted;
    assert Reachable(g.leafs, g.root, h);
    assert !ClosedUnderLinks(g.leafs, g.leafs.Keys - {h});
  }

  lemma RootRankLowest(e: Suite, g: Graph, rank: map<Hash, nat>, h: Hash)
    requires WellFormed(e, g) && Ranked(g.leafs, rank) && h in g.leafs
    ensures rank[g.root] <= rank[h]
  {
    hide RootOk, LeafOk, LinksCommitted;
    var s := set x | x in g.leafs && rank[g.root] <= rank[x];
    assert ClosedUnderLinks(g.leafs, s);
    assert Reachable(g.leafs, g.root, h);
  }

  /** Nothing links the root. */
  lemma RootHasNoParent(e: Suite, g: Graph)
    requires WellFormed(e, g)
    ensures !HasParent(g.leafs, g.root)
  {
    var rank :| Ranked(g.leafs, rank);
    forall p | p in g.leafs && g.root in g.leafs[p].links
      ensures false
    {
      RootRankLowest(e, g, rank, p);
    }
  }

  // ----- Walking up -----

  /** A walk from a leaf to the root by lowest parents. */
  ghost predicate UpPath(leafs: map<Hash, Leaf>, root: Hash, path: seq<Hash>) {
    && |path| > 0 && path[|path| - 1] == root
    && forall i :: 0 <= i < |path| - 1 ==> path[i] != root && IsMinParent(leafs, path[i], path[i + 1])
  }

  lemma {:induction false} UpPathFrom(e: Suite, g: Graph, rank: map<Hash, nat>, h: Hash) returns (path: seq<Hash>)
    requires WellFormed(e, g) && Ranked(g.leafs, rank) && h in g.leafs
    ensures UpPath(g.leafs, g.root, path) && path[0] == h
    ensures forall i :: 0 <= i < |path| ==> path[i] in g.leafs
    ensures forall i, j :: 0 <= i < j < |path| ==> rank[path[j]] < rank[path[i]]
    decreases rank[h]
  {
    hide WellFormed;
    if h == g.root {
      path := [h];
    } else {
      NonRootHasParent(e, g, h);
      var p := MinParentExists(g.leafs, h);
      var rest := UpPathFrom(e, g, rank, p);
      path := [h] + rest;
      assert forall j :: 0 < j < |path| ==> path[j] == rest[j - 1];
      assert rank[p] < rank[h];
    }
  }

  /** The walk up from any leaf exists and takes fewer steps than there are leaves. */
  lemma WalkUpReachesRoot(e: Suite, g: Graph, h: Hash) returns (path: seq<Hash>)
    requires WellFormed(e, g) && h in g.leafs
    ensures UpPath(g.leafs, g.root, path) && path[0] == h
    ensures Distinct(path) && Elements(path) <= g.leafs.Keys && |path| <= |g.leafs|
  {
    var rank :| Ranked(g.leafs, rank);
    path := UpPathFrom(e, g, rank, h);
    DistinctCardinality(path);
    SubsetSize(Elements(path), g.leafs.Keys);
    assert |g.leafs| == |g.leafs.Keys|;
  }

  lemma {:induction false} SubsetSize<T>(a: set<T>, b: set<T>)
    requires a <= b
    ensures |a| <= |b|
    decreases a
  {
    if a != {} {
      var x :| x in a;
      SubsetSize(a - {x}, b - {x});
    }
  }

  // ----- The index -----

  ghost predicate LowestParents(children: map<Hash, seq<Hash>>, index: map<Hash, Hash>) {
    && (forall p, c :: p in children && c in children[p] ==> c in index)
    && (forall c :: c in index ==>
                      && index[c] in children && c in children[index[c]]
                      && forall q :: q in children && c in children[q] ==> q == index[c] || Less(index[c], q))
  }

  /** `minimumParentIndex`, ranging over the parents in any order. */
  method MinimumParentIndex(children: map<Hash, seq<Hash>>) returns (parentOf: map<Hash, Hash>)
    ensures LowestParents(children, parentOf)
  {
    hide Less, LowestParents;
    NoParents();
    parentOf := map[];
    var rest := children.Keys;
    ghost var done: map<Hash, seq<Hash>> := map[];
    while rest != {}
      invariant rest <= children.Keys
      invariant done == map p | p in children && p !in rest :: children[p]
      invariant LowestParents(done, parentOf)
      decreases rest
    {
      var parent :| parent in rest;
      rest := rest - {parent};
      var links := children[parent];
      ghost var before := done;
      AddParent(before, parent, parentOf);
      assert links[..0] == [];
      for i := 0 to |links|
        invariant LowestParents(before[parent := links[..i]], parentOf)
      {
        AddChild(before, parent, links[..i], links[i], parentOf);
        assert links[..i] + [links[i]] == links[..i + 1];
        if links[i] !in parentOf || Less(parent, parentOf[links[i]]) {
          parentOf := parentOf[links[i] := parent];
        }
      }
      assert links[..|links|] == links;
      done := before[parent := links];
    }
    assert done == children;
  }

  lemma NoParents()
    ensures LowestParents(map[], map[])
  {
  }

  lemma AddParent(before: map<Hash, seq<Hash>>, parent: Hash, index: map<Hash, Hash>)
    requires LowestParents(before, index) && parent !in before
    ensures LowestParents(before[parent := []], index)
  {
  }

  lemma AddChild(before: map<Hash, seq<Hash>>, parent: Hash, links: seq<Hash>, c: Hash, index: map<Hash, Hash>)
    requires LowestParents(before[parent := links], index)
    ensures
      var index' := if c !in index || Less(parent, index[c]) then index[c := parent] else index;
      LowestParents(before[parent := links + [c]], index')
  {
    hide Less;
    var children, children' := before[parent := links], before[parent := links + [c]];
    var index' := if c !in index || Less(parent, index[c]) then index[c := parent] else index;
    assert children'[parent] == links + [c];
    forall p, x | p in children' && x in children'[p]
      ensures x in index'
      ensures p == index'[x] || Less(index'[x], p)
    {
      if x != c || p != parent {
        assert p in children && x in children[p];
      }
      if x == c && c in index && index[c] != parent {
        LessTotal(parent, index[c]);
        if Less(parent, index[c]) && p != parent && p != index[c] {
          LessTransitive(parent, index[c], p);
        }
      }
    }
  }
}
