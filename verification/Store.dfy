/** A DAG kept in storage: leaves with their contents apart or not, the index of its edges, and the
    parent hashes written back in batches. */
module Store {
  import opened ByteStrings
  import opened DagModel
  import opened ParentIndex
  import opened Diff

  /** Hashes in the order visited, the links of each parent, and the parent of each leaf. */
  datatype Index = Index(leafHashes: seq<Hash>, children: map<Hash, seq<Hash>>, parents: map<Hash, Hash>)

  function ContentBytes(l: Leaf): Bytes {
    l.content.GetOr([])
  }

  /** A leaf as a store hands it out. */
  function Fetched(leafs: map<Hash, Leaf>, contents: map<Hash, Bytes>, separate: bool, h: Hash): Option<Leaf> {
    if h !in leafs then None
    else
      var l := leafs[h];
      if separate && |l.contentHash.GetOr([])| > 0 && |ContentBytes(l)| == 0 && h in contents
      then Some(l.(content := Some(contents[h]))) else Some(l)
  }

  class DagStore {
    var root: Hash
    var leafs: map<Hash, Leaf>
    var contents: map<Hash, Bytes>
    var separate: bool
    /** Whether the leaf store takes several leaves at once. */
    var batched: bool
    /** The parent of each child, when the leaf store keeps that; it keeps one parent per child. */
    var cache: Option<map<Hash, Hash>>
    var leafCount: int
    var index: Option<Index>

    method StoreLeaf(l: Leaf)
      modifies this`leafs, this`contents
      ensures
        var apart := separate && |ContentBytes(l)| > 0;
        && leafs == old(leafs)[l.hash := if apart then l.(content := None) else l]
        && contents == if apart then old(contents)[l.hash := ContentBytes(l)] else old(contents)
    {
      if separate && |ContentBytes(l)| > 0 {
        contents := contents[l.hash := ContentBytes(l)];
        leafs := leafs[l.hash := l.(content := None)];
      } else {
        leafs := leafs[l.hash := l];
      }
    }

    method RetrieveLeaf(h: Hash) returns (l: Option<Leaf>)
      ensures l == Fetched(leafs, contents, separate, h)
    {
      if h !in leafs {
        return None;
      }
      var leaf := leafs[h];
      if separate && |leaf.contentHash.GetOr([])| > 0 && |ContentBytes(leaf)| == 0 {
        if h in contents {
          leaf := leaf.(content := Some(contents[h]));
        }
      }
      l := Some(leaf);
    }

    /** Breadth first over the links of retrieved leaves; a hash may be queued more than once. */
    method BuildIndexByTraversal()
      modifies this`index, this`leafCount
      ensures index.Some? && Indexes(root, leafs, index.value)
      ensures leafCount == if root in leafs then leafs[root].leafCount else old(leafCount)
    {
      hide Reachable, Walking, LowestParents, Unvisited, Indexes;
      var leafHashes: seq<Hash>, children: map<Hash, seq<Hash>> := [], map[];
      var visited: set<Hash>, queue := {}, [root];
      WalkStart(root, leafs);
      while |queue| > 0
        invariant Walking(root, leafs, visited, queue, leafHashes, children)
        invariant leafCount == if root in visited && root in leafs then leafs[root].leafCount else old(leafCount)
        decreases leafs.Keys - visited, |queue|
      {
        var current := queue[0];
        assert [current] + queue[1..] == queue;
        queue := queue[1..];
        if current in visited {
          WalkSkip(root, leafs, visited, current, queue, leafHashes, children);
        } else {
          WalkVisit(root, leafs, visited, current, queue, leafHashes, children);
          visited := visited + {current};
          if current in leafs {
            leafHashes := leafHashes + [current];
            var links := leafs[current].links;
            if |links| > 0 {
              children := children[current := links];
            }
            queue := QueueUnvisited(links, visited, queue);
            if current == root {
              leafCount := leafs[current].leafCount;
            }
          }
        }
      }
      var parents := MinimumParentIndex(children);
      index := Some(Index(leafHashes, children, parents[root := []]));
      WalkDone(root, leafs, visited, leafHashes, children, parents);
    }

    /** From the cached parents, without looking at leaves other than the root. */
    method BuildIndexFromCache(relationships: map<Hash, Hash>)
      modifies this`index, this`leafCount
      ensures index.Some? && IndexesCache(root, relationships, index.value)
      ensures leafCount == if root in leafs then leafs[root].leafCount else old(leafCount)
    {
      hide Cached, CacheWalking, Inverts, LowestParents, Unvisited, SortedKeys;
      var children := InvertRelationships(relationships);
      var parents := MinimumParentIndex(children);
      InvertedParents(relationships, children, parents);
      var leafHashes: seq<Hash> := [];
      var visited: set<Hash>, queue := {}, [root];
      CacheStart(root, relationships);
      while |queue| > 0
        invariant CacheWalking(root, relationships, visited, queue, leafHashes)
        invariant leafCount == old(leafCount)
        decreases relationships.Keys + {root} - visited, |queue|
      {
        var current := queue[0];
        assert [current] + queue[1..] == queue;
        queue := queue[1..];
        if current in visited {
          CacheSkip(root, relationships, visited, current, queue, leafHashes);
        } else {
          var sorted := if current in children then SortedKeys(Less, children[current]) else [];
          SortedChildren(relationships, children, current, sorted);
          CacheVisit(root, relationships, visited, current, queue, leafHashes, sorted);
          visited := visited + {current};
          leafHashes := leafHashes + [current];
          queue := QueueUnvisited(sorted, visited, queue);
        }
      }
      if root in leafs {
        leafCount := leafs[root].leafCount;
      }
      index := Some(Index(leafHashes, children, parents[root := []]));
      CacheDone(root, relationships, visited, leafHashes);
    }

    method BuildIndex() returns (ok: bool)
      modifies this`index, this`leafCount
      ensures ok <==> root != []
      ensures if ok then index.Some? && Built(root, leafs, cache, index.value) else index == old(index)
    {
      hide Indexes, IndexesCache;
      if |root| == 0 {
        return false;
      }
      if cache.Some? {
        BuildIndexFromCache(cache.value);
      } else {
        BuildIndexByTraversal();
      }
      ok := true;
    }

    /** Writes the parent hashes, storing the leaves each time a batch is full. Contents that are kept
        apart are not loaded. A leaf store that takes leaves one at a time stores each like any other leaf,
        so a content that was still inline is moved apart. */
    method UpdateParentHashesStreaming(batchSize: int) returns (ok: bool)
      requires Keyed(leafs)
      modifies this`leafs, this`contents, this`index, this`leafCount
      ensures ok <==> root != []
      ensures !ok ==> leafs == old(leafs) && contents == old(contents) && index == old(index)
      ensures ok ==>
                && index.Some?
                && (if old(index).Some? then index == old(index) else Built(root, old(leafs), cache, index.value))
                && var hashes, apart := index.value.leafHashes, separate && !batched;
                   && leafs == WithParents(old(leafs), index.value.parents, hashes, apart)
                   && contents == WithContents(old(contents), old(leafs), hashes, apart)
    {
      hide Built, WithParents, WithContents, StoredLeafs, StoredContents, Rewriting;
      if |root| == 0 {
        return false;
      }
      if index == None {
        ok := BuildIndex();
      }
      var size := if batchSize <= 0 then 10 else batchSize;
      var batch: seq<Leaf> := [];
      var hashes, parents := index.value.leafHashes, index.value.parents;
      ghost var before, held, built, apart := leafs, contents, index.value, separate && !batched;
      NothingStored(before, held, parents, hashes, apart);
      for i := 0 to |hashes|
        invariant Rewriting(before, held, leafs, contents, parents, hashes, i, batch, apart)
        invariant |batch| < size && index == Some(built)
      {
        NextParent(before, held, leafs, contents, parents, hashes, i, batch, apart);
        if hashes[i] in leafs {
          var parentHash := if hashes[i] in parents then parents[hashes[i]] else [];
          batch := batch + [leafs[hashes[i]].(parentHash := parentHash)];
          if |batch| >= size {
            BatchStored(before, held, leafs, contents, parents, hashes, i + 1, batch, apart);
            StoreLeavesInBatches(batch);
            batch := [];
          }
        }
      }
      BatchStored(before, held, leafs, contents, parents, hashes, |hashes|, batch, apart);
      if |batch| > 0 {
        StoreLeavesInBatches(batch);
      } else {
        NoneStored(leafs, contents, batch, apart);
      }
      assert hashes[..|hashes|] == hashes;
      RewritingDone(before, held, leafs, contents, parents, hashes, apart);
      ok := true;
    }

    method StoreLeavesInBatches(batch: seq<Leaf>)
      modifies this`leafs, this`contents
      ensures leafs == StoredLeafs(old(leafs), batch, separate && !batched)
      ensures contents == StoredContents(old(contents), batch, separate && !batched)
    {
      assert batch[..0] == [];
      if batched {
        for i := 0 to |batch|
          invariant leafs == StoredLeafs(old(leafs), batch[..i], false) && contents == old(contents)
        {
          assert batch[..i + 1][..i] == batch[..i];
          leafs := leafs[batch[i].hash := batch[i]];
        }
        NoContents(contents, batch);
      } else {
        for i := 0 to |batch|
          invariant leafs == StoredLeafs(old(leafs), batch[..i], separate)
          invariant contents == StoredContents(old(contents), batch[..i], separate)
        {
          assert batch[..i + 1][..i] == batch[..i];
          StoreLeaf(batch[i]);
        }
      }
      assert batch[..|batch|] == batch;
    }
  }

  // ----- Storing and fetching -----

  /** A leaf comes back from the store as it went in, except: with contents kept apart, a leaf that has
      content but no content hash comes back without it, and a leaf without content but with a content
      hash comes back with whatever content is stored under its hash. */
  lemma StoreThenRetrieve(leafs: map<Hash, Leaf>, contents: map<Hash, Bytes>, separate: bool, l: Leaf)
    ensures
      var apart := separate && |ContentBytes(l)| > 0;
      var leafs' := leafs[l.hash := if apart then l.(content := None) else l];
      var contents' := if apart then contents[l.hash := ContentBytes(l)] else contents;
      var hashed := |l.contentHash.GetOr([])| > 0;
      Fetched(leafs', contents', separate, l.hash) == Some(l) <==>
        separate ==> if |ContentBytes(l)| > 0 then hashed
                     else !hashed || l.hash !in contents || l.content == Some(contents[l.hash])
  {
    if l.content.Some? {
      assert l.(content := Some(l.content.value)) == l;
    }
  }

  // ----- The index -----

  /** The index lists the leaves reachable from the root and the links between them; each child's
      parent is the lowest that links it, and the root's is empty. */
  ghost predicate Indexes(root: Hash, leafs: map<Hash, Leaf>, index: Index) {
    && Distinct(index.leafHashes)
    && (forall h :: h in index.leafHashes <==> h in leafs && Reachable(leafs, root, h))
    && (forall h :: h in index.children <==> h in leafs && Reachable(leafs, root, h) && leafs[h].links != [])
    && (forall h :: h in index.children ==> index.children[h] == leafs[h].links)
    && exists parents :: LowestParents(index.children, parents) && index.parents == parents[root := []]
  }

  function Unvisited(links: seq<Hash>, visited: set<Hash>): seq<Hash> {
    if links == [] then []
    else
      var n := |links| - 1;
      Unvisited(links[..n], visited) + if links[n] in visited then [] else [links[n]]
  }

  lemma {:induction false} UnvisitedFacts(links: seq<Hash>, visited: set<Hash>)
    ensures forall c :: c in Unvisited(links, visited) <==> c in links && c !in visited
  {
    if links != [] {
      var n := |links| - 1;
      UnvisitedFacts(links[..n], visited);
      assert links == links[..n] + [links[n]];
    }
  }

  method QueueUnvisited(links: seq<Hash>, visited: set<Hash>, queue: seq<Hash>) returns (longer: seq<Hash>)
    ensures longer == queue + Unvisited(links, visited)
  {
    longer := queue;
    assert links[..0] == [];
    for i := 0 to |links|
      invariant longer == queue + Unvisited(links[..i], visited)
    {
      assert links[..i + 1][..i] == links[..i];
      if links[i] !in visited {
        longer := longer + [links[i]];
      }
    }
    assert links[..|links|] == links;
  }

  /** The traversal under way: what was visited and what is queued is reachable, links of visited
      leaves are visited or queued, and the lists describe the visited leaves. */
  ghost predicate Walking(root: Hash, leafs: map<Hash, Leaf>, visited: set<Hash>, queue: seq<Hash>,
                          leafHashes: seq<Hash>, children: map<Hash, seq<Hash>>)
  {
    && (forall h :: h in visited || h in queue ==> Reachable(leafs, root, h))
    && (root in visited || root in queue)
    && (forall h, c :: h in visited && h in leafs && c in leafs[h].links ==> c in visited || c in queue)
    && Distinct(leafHashes) && (forall h :: h in leafHashes <==> h in visited && h in leafs)
    && children == map h | h in visited && h in leafs && leafs[h].links != [] :: leafs[h].links
  }

  lemma WalkStart(root: Hash, leafs: map<Hash, Leaf>)
    ensures Walking(root, leafs, {}, [root], [], map[])
  {
    ReachableSelf(leafs, root);
    hide Reachable;
  }

  lemma WalkSkip(root: Hash, leafs: map<Hash, Leaf>, visited: set<Hash>, current: Hash, queue: seq<Hash>,
                 leafHashes: seq<Hash>, children: map<Hash, seq<Hash>>)
    requires current in visited && Walking(root, leafs, visited, [current] + queue, leafHashes, children)
    ensures Walking(root, leafs, visited, queue, leafHashes, children)
  {
    hide Reachable;
    assert forall h :: h in [current] + queue <==> h == current || h in queue;
  }

  lemma WalkVisit(root: Hash, leafs: map<Hash, Leaf>, visited: set<Hash>, current: Hash, queue: seq<Hash>,
                  leafHashes: seq<Hash>, children: map<Hash, seq<Hash>>)
    requires current !in visited && Walking(root, leafs, visited, [current] + queue, leafHashes, children)
    ensures
      var seen := visited + {current};
      if current in leafs then
        var links := leafs[current].links;
        Walking(root, leafs, seen, queue + Unvisited(links, seen), leafHashes + [current],
                if links == [] then children else children[current := links])
      else Walking(root, leafs, seen, queue, leafHashes, children)
  {
    hide Reachable, Unvisited;
    assert forall h :: h in [current] + queue <==> h == current || h in queue;
    if current in leafs {
      var links, seen := leafs[current].links, visited + {current};
      UnvisitedFacts(links, seen);
      forall c | c in links
        ensures Reachable(leafs, root, c)
      {
        ReachableStep(leafs, root, current, c);
      }
      var longer := queue + Unvisited(links, seen);
      assert forall h :: h in longer <==> h in queue || (h in links && h !in seen);
      WalkLists(leafs, visited, current, leafHashes, children);
    } else {
      assert (map h | h in visited + {current} && h in leafs && leafs[h].links != [] :: leafs[h].links) == children;
    }
  }

  lemma WalkLists(leafs: map<Hash, Leaf>, visited: set<Hash>, current: Hash, leafHashes: seq<Hash>,
                  children: map<Hash, seq<Hash>>)
    requires current !in visited && current in leafs
    requires Distinct(leafHashes) && (forall h :: h in leafHashes <==> h in visited && h in leafs)
    requires children == map h | h in visited && h in leafs && leafs[h].links != [] :: leafs[h].links
    ensures Distinct(leafHashes + [current])
    ensures forall h :: h in leafHashes + [current] <==> h in visited + {current} && h in leafs
    ensures (if leafs[current].links == [] then children else children[current := leafs[current].links]) ==
            map h | h in visited + {current} && h in leafs && leafs[h].links != [] :: leafs[h].links
  {
    assert current !in leafHashes;
  }

  lemma WalkDone(root: Hash, leafs: map<Hash, Leaf>, visited: set<Hash>, leafHashes: seq<Hash>,
                 children: map<Hash, seq<Hash>>, parents: map<Hash, Hash>)
    requires Walking(root, leafs, visited, [], leafHashes, children) && LowestParents(children, parents)
    ensures Indexes(root, leafs, Index(leafHashes, children, parents[root := []]))
    ensures root in visited
  {
    hide LowestParents;
    assert ClosedUnderLinks(leafs, visited);
    assert forall h :: h in visited <==> Reachable(leafs, root, h);
    hide Reachable;
  }

  /** Every path that derives parents agrees: what the index of a well-formed DAG's store says of a leaf
      other than the root is its lowest parent, which is also what deserializing the DAG assigns. */
  lemma OneParentRule(e: Suite, g: Graph, index: Index, c: Hash)
    requires WellFormed(e, g) && Indexes(g.root, g.leafs, index) && c in g.leafs && c != g.root
    ensures c in index.parents && IsMinParent(g.leafs, c, index.parents[c])
    ensures forall p :: IsMinParent(g.leafs, c, p) ==> p == index.parents[c]
  {
    hide RootOk, LeafOk, LinksCommitted, Acyclic, Reachable;
    var parents :| LowestParents(index.children, parents) && index.parents == parents[g.root := []];
    NonRootHasParent(e, g, c);
    var q :| q in g.leafs && c in g.leafs[q].links;
    assert q in index.children && c in index.children[q];
    assert index.parents[c] == parents[c];
    forall p | IsMinParent(g.leafs, c, p)
      ensures p == index.parents[c]
    {
      MinParentUnique(g.leafs, c, p, index.parents[c]);
    }
  }

  // ----- The index from cached parents -----

  /** The children of each parent, from the parent of each child; an empty parent is none. */
  ghost predicate Inverts(relationships: map<Hash, Hash>, children: map<Hash, seq<Hash>>) {
    && (forall p, c :: p in children && c in children[p] ==> c in relationships && relationships[c] == p && p != [])
    && (forall c :: c in relationships && relationships[c] != [] ==>
                      relationships[c] in children && c in children[relationships[c]])
    && (forall p :: p in children ==> Distinct(children[p]))
  }

  method InvertRelationships(relationships: map<Hash, Hash>) returns (children: map<Hash, seq<Hash>>)
    ensures Inverts(relationships, children)
  {
    children := map[];
    var rest := relationships.Keys;
    ghost var done: map<Hash, Hash> := map[];
    while rest != {}
      invariant rest <= relationships.Keys
      invariant done == map c | c in relationships && c !in rest :: relationships[c]
      invariant Inverts(done, children)
      decreases rest
    {
      var c :| c in rest;
      rest := rest - {c};
      var p := relationships[c];
      InvertNext(done, children, c, p, done[c := p], WithChild(children, c, p));
      if |p| != 0 {
        children := children[p := (if p in children then children[p] else []) + [c]];
      }
      done := done[c := p];
    }
    assert done == relationships;
  }

  function WithChild(children: map<Hash, seq<Hash>>, c: Hash, p: Hash): map<Hash, seq<Hash>> {
    if p == [] then children else children[p := (if p in children then children[p] else []) + [c]]
  }

  lemma InvertNext(relationships: map<Hash, Hash>, children: map<Hash, seq<Hash>>, c: Hash, p: Hash,
                   more: map<Hash, Hash>, next: map<Hash, seq<Hash>>)
    requires Inverts(relationships, children) && c !in relationships
    requires more == relationships[c := p] && next == WithChild(children, c, p)
    ensures Inverts(more, next)
  {
    assert p in children ==> c !in children[p];
    forall q, x | q in next && x in next[q]
      ensures x in more && more[x] == q && q != []
    {
      if p == [] || q != p || x != c {
        assert q in children && x in children[q];
        assert x in relationships && relationships[x] == q;
      }
    }
    forall x | x in more && more[x] != []
      ensures more[x] in next && x in next[more[x]]
    {
      if x != c {
        assert relationships[x] in children && x in children[relationships[x]];
      }
    }
    forall q | q in next
      ensures Distinct(next[q])
    {
      if q in children {
        assert Distinct(children[q]);
      }
    }
  }

  /** A child of one parent has that parent as its lowest. */
  lemma InvertedParents(relationships: map<Hash, Hash>, children: map<Hash, seq<Hash>>, parents: map<Hash, Hash>)
    requires Inverts(relationships, children) && LowestParents(children, parents)
    ensures parents == Parented(relationships)
  {
    hide Less;
    forall c
      ensures c in parents <==> c in Parented(relationships)
      ensures c in parents ==> parents[c] == relationships[c]
    {
    }
  }

  function Parented(relationships: map<Hash, Hash>): map<Hash, Hash> {
    map c | c in relationships && relationships[c] != [] :: relationships[c]
  }

  ghost predicate ClosedUnderCache(relationships: map<Hash, Hash>, s: set<Hash>) {
    forall c :: c in relationships && relationships[c] != [] && relationships[c] in s ==> c in s
  }

  /** h can be reached from the root through cached parents. */
  ghost predicate Cached(relationships: map<Hash, Hash>, root: Hash, h: Hash) {
    forall s: set<Hash> :: root in s && ClosedUnderCache(relationships, s) ==> h in s
  }

  /** The index lists what the cache reaches from the root, with the parents the cache gives. */
  ghost predicate IndexesCache(root: Hash, relationships: map<Hash, Hash>, index: Index) {
    && Distinct(index.leafHashes) && (forall h :: h in index.leafHashes <==> Cached(relationships, root, h))
    && Inverts(relationships, index.children) && index.parents == Parented(relationships)[root := []]
  }

  ghost predicate Built(root: Hash, leafs: map<Hash, Leaf>, cache: Option<map<Hash, Hash>>, index: Index) {
    if cache.Some? then IndexesCache(root, cache.value, index) else Indexes(root, leafs, index)
  }

  ghost predicate CacheWalking(root: Hash, relationships: map<Hash, Hash>, visited: set<Hash>, queue: seq<Hash>,
                               leafHashes: seq<Hash>)
  {
    && (forall h :: h in visited || h in queue ==> Cached(relationships, root, h))
    && (forall h :: h in visited || h in queue ==> h in relationships.Keys + {root})
    && (root in visited || root in queue)
    && (forall c :: c in relationships && relationships[c] != [] && relationships[c] in visited ==>
                      c in visited || c in queue)
    && Distinct(leafHashes) && forall h :: h in leafHashes <==> h in visited
  }

  lemma CacheStart(root: Hash, relationships: map<Hash, Hash>)
    ensures CacheWalking(root, relationships, {}, [root], [])
  {
  }

  lemma CacheSkip(root: Hash, relationships: map<Hash, Hash>, visited: set<Hash>, current: Hash, queue: seq<Hash>,
                  leafHashes: seq<Hash>)
    requires current in visited && CacheWalking(root, relationships, visited, [current] + queue, leafHashes)
    ensures CacheWalking(root, relationships, visited, queue, leafHashes)
  {
    hide Cached;
    assert forall h :: h in [current] + queue <==> h == current || h in queue;
  }

  lemma SortedHas(links: seq<Hash>, c: Hash)
    ensures c in SortedKeys(Less, links) <==> c in links
  {
    TreeKeysFacts(links);
    hide SortedKeys;
    assert c in TreeKeys(links) <==> c in Elements(TreeKeys(links));
    assert c in links <==> c in Elements(links);
  }

  lemma SortedChildren(relationships: map<Hash, Hash>, children: map<Hash, seq<Hash>>, p: Hash, sorted: seq<Hash>)
    requires Inverts(relationships, children)
    requires sorted == if p in children then SortedKeys(Less, children[p]) else []
    ensures forall c :: c in sorted <==> c in relationships && relationships[c] == p && p != []
  {
    hide SortedKeys;
    forall c
      ensures c in sorted <==> c in relationships && relationships[c] == p && p != []
    {
      if p in children {
        SortedHas(children[p], c);
      }
    }
  }

  lemma CacheVisit(root: Hash, relationships: map<Hash, Hash>, visited: set<Hash>, current: Hash, queue: seq<Hash>,
                   leafHashes: seq<Hash>, sorted: seq<Hash>)
    requires current !in visited && CacheWalking(root, relationships, visited, [current] + queue, leafHashes)
    requires forall c :: c in sorted <==> c in relationships && relationships[c] == current && current != []
    ensures
      var seen := visited + {current};
      CacheWalking(root, relationships, seen, queue + Unvisited(sorted, seen), leafHashes + [current])
    ensures current in relationships.Keys + {root}
  {
    hide Unvisited;
    var seen := visited + {current};
    assert forall h :: h in [current] + queue <==> h == current || h in queue;
    UnvisitedFacts(sorted, seen);
    forall c | c in sorted
      ensures Cached(relationships, root, c)
    {
      CachedStep(relationships, root, c);
    }
    hide Cached;
    assert current !in leafHashes;
    var longer := queue + Unvisited(sorted, seen);
    assert forall h :: h in longer <==> h in queue || (h in sorted && h !in seen);
  }

  lemma CachedStep(relationships: map<Hash, Hash>, root: Hash, c: Hash)
    requires c in relationships && relationships[c] != [] && Cached(relationships, root, relationships[c])
    ensures Cached(relationships, root, c)
  {
  }

  lemma CacheDone(root: Hash, relationships: map<Hash, Hash>, visited: set<Hash>, leafHashes: seq<Hash>)
    requires CacheWalking(root, relationships, visited, [], leafHashes)
    ensures Distinct(leafHashes) && forall h :: h in leafHashes <==> Cached(relationships, root, h)
  {
    assert ClosedUnderCache(relationships, visited);
    assert forall h :: h in visited <==> Cached(relationships, root, h);
  }

  /** A cache that gives every leaf but the root its lowest parent and nothing else a parent; what it says of
      the root does not matter. */
  ghost predicate Canonical(g: Graph, relationships: map<Hash, Hash>) {
    && (forall c :: c != g.root ==> (c in relationships && relationships[c] != [] <==> c in g.leafs))
    && (forall c :: c in g.leafs && c != g.root ==> IsMinParent(g.leafs, c, relationships[c]))
  }

  /** The index from the cache lists the same leaves with the same parents as the one from traversal if and
      only if the cache is canonical. */
  lemma CachedIndexAgrees(e: Suite, g: Graph, relationships: map<Hash, Hash>, cached: Index, walked: Index)
    requires WellFormed(e, g)
    requires IndexesCache(g.root, relationships, cached) && Indexes(g.root, g.leafs, walked)
    ensures Elements(cached.leafHashes) == Elements(walked.leafHashes) && cached.parents == walked.parents <==>
            Canonical(g, relationships)
    ensures cached.parents == walked.parents <==> Canonical(g, relationships)
  {
    hide WellFormed, Indexes, IndexesCache, Canonical;
    if cached.parents == walked.parents {
      AgreeingIsCanonical(e, g, relationships, cached, walked);
    }
    if Canonical(g, relationships) {
      CanonicalAgrees(e, g, relationships, cached, walked);
    }
  }

  lemma AgreeingIsCanonical(e: Suite, g: Graph, relationships: map<Hash, Hash>, cached: Index, walked: Index)
    requires WellFormed(e, g) && cached.parents == walked.parents
    requires IndexesCache(g.root, relationships, cached) && Indexes(g.root, g.leafs, walked)
    ensures Canonical(g, relationships)
  {
    hide WellFormed, IsMinParent, Indexes, Cached, Inverts;
    WalkedParents(e, g, walked);
    forall c | c in g.leafs && c != g.root
      ensures c in relationships && relationships[c] != [] && IsMinParent(g.leafs, c, relationships[c])
    {
      OneParentRule(e, g, walked, c);
    }
    forall c | c != g.root && c in relationships && relationships[c] != []
      ensures c in g.leafs
    {
      assert c in cached.parents;
    }
  }

  lemma CanonicalAgrees(e: Suite, g: Graph, relationships: map<Hash, Hash>, cached: Index, walked: Index)
    requires WellFormed(e, g) && Canonical(g, relationships)
    requires IndexesCache(g.root, relationships, cached) && Indexes(g.root, g.leafs, walked)
    ensures Elements(cached.leafHashes) == Elements(walked.leafHashes) && cached.parents == walked.parents
  {
    hide RootOk, LeafOk, LinksCommitted, Acyclic, Reachable, Cached, Inverts, LowestParents, IsMinParent;
    forall h
      ensures h in cached.leafHashes <==> h in g.leafs
      ensures h in walked.leafHashes <==> h in g.leafs
    {
      CachedLeaves(e, g, relationships, h);
      if Reachable(g.leafs, g.root, h) {
        ReachableThere(e, g, h);
      }
    }
    assert Elements(cached.leafHashes) == g.leafs.Keys && Elements(walked.leafHashes) == g.leafs.Keys;
    SameParents(e, g, relationships, cached, walked);
  }

  lemma ReachableThere(e: Suite, g: Graph, h: Hash)
    requires WellFormed(e, g) && Reachable(g.leafs, g.root, h)
    ensures h in g.leafs
  {
    hide RootOk, LeafOk, LinksCommitted, Acyclic;
    assert ClosedUnderLinks(g.leafs, g.leafs.Keys);
  }

  /** What a canonical cache reaches are the leaves: each walk up comes down again. */
  lemma CachedLeaves(e: Suite, g: Graph, relationships: map<Hash, Hash>, h: Hash)
    requires WellFormed(e, g) && Canonical(g, relationships)
    ensures Cached(relationships, g.root, h) <==> h in g.leafs
  {
    hide WellFormed;
    assert g.root in g.leafs by { WellFormedCount(e, g); }
    assert ClosedUnderCache(relationships, g.leafs.Keys);
    if h in g.leafs {
      var path := WalkUpReachesRoot(e, g, h);
      assert forall i :: 0 <= i < |path| ==> path[i] in Elements(path);
      CachedPath(g, relationships, path, 0);
    }
  }

  lemma RootCached(relationships: map<Hash, Hash>, root: Hash)
    ensures Cached(relationships, root, root)
  {
  }

  lemma {:induction false} CachedPath(g: Graph, relationships: map<Hash, Hash>, path: seq<Hash>, i: nat)
    requires Canonical(g, relationships) && UpPath(g.leafs, g.root, path) && i < |path|
    requires forall j :: 0 <= j < |path| ==> path[j] in g.leafs
    ensures Cached(relationships, g.root, path[i])
    decreases |path| - i
  {
    RootCached(relationships, g.root);
    hide IsMinParent, Cached;
    if i < |path| - 1 {
      CachedPath(g, relationships, path, i + 1);
      MinParentUnique(g.leafs, path[i], path[i + 1], relationships[path[i]]);
      CachedStep(relationships, g.root, path[i]);
    }
  }

  lemma SameParents(e: Suite, g: Graph, relationships: map<Hash, Hash>, cached: Index, walked: Index)
    requires WellFormed(e, g) && Canonical(g, relationships)
    requires IndexesCache(g.root, relationships, cached) && Indexes(g.root, g.leafs, walked)
    ensures cached.parents == walked.parents
  {
    hide WellFormed, IsMinParent, Indexes, Cached, Inverts;
    WalkedParents(e, g, walked);
    forall c | c in g.leafs && c != g.root
      ensures c in walked.parents && walked.parents[c] == relationships[c]
    {
      OneParentRule(e, g, walked, c);
    }
  }

  /** The traversal's parents are those of the leaves. */
  lemma WalkedParents(e: Suite, g: Graph, walked: Index)
    requires WellFormed(e, g) && Indexes(g.root, g.leafs, walked)
    ensures g.root in walked.parents && walked.parents[g.root] == [] && walked.parents.Keys <= g.leafs.Keys
  {
    hide RootOk, LeafOk, LinksCommitted, Acyclic, Reachable, Less;
    var parents :| LowestParents(walked.children, parents) && walked.parents == parents[g.root := []];
    forall c | c in parents
      ensures c in g.leafs
    {
      assert parents[c] in walked.children && c in walked.children[parents[c]];
    }
  }

  // ----- Writing parent hashes back -----

  /** A leaf as it is stored when content goes apart, if it does. */
  function Slim(l: Leaf, apart: bool): Leaf {
    if apart && |ContentBytes(l)| > 0 then l.(content := None) else l
  }

  function ParentIn(parents: map<Hash, Hash>, h: Hash): Hash {
    if h in parents then parents[h] else []
  }

  /** Nothing changed but the parent hashes of the listed leaves, and their contents when they go apart. */
  function WithParents(leafs: map<Hash, Leaf>, parents: map<Hash, Hash>, hashes: seq<Hash>, apart: bool):
    map<Hash, Leaf>
  {
    map h | h in leafs ::
      if h in hashes then Slim(leafs[h].(parentHash := ParentIn(parents, h)), apart) else leafs[h]
  }

  function WithContents(contents: map<Hash, Bytes>, leafs: map<Hash, Leaf>, hashes: seq<Hash>, apart: bool):
    map<Hash, Bytes>
  {
    contents + (map h | h in leafs && h in hashes && apart && |ContentBytes(leafs[h])| > 0 :: ContentBytes(leafs[h]))
  }

  function StoredLeafs(leafs: map<Hash, Leaf>, batch: seq<Leaf>, apart: bool): map<Hash, Leaf> {
    if batch == [] then leafs
    else
      var n := |batch| - 1;
      StoredLeafs(leafs, batch[..n], apart)[batch[n].hash := Slim(batch[n], apart)]
  }

  function StoredContents(contents: map<Hash, Bytes>, batch: seq<Leaf>, apart: bool): map<Hash, Bytes> {
    if batch == [] then contents
    else
      var n := |batch| - 1;
      var before := StoredContents(contents, batch[..n], apart);
      if apart && |ContentBytes(batch[n])| > 0 then before[batch[n].hash := ContentBytes(batch[n])] else before
  }

  lemma {:induction false} NoContents(contents: map<Hash, Bytes>, batch: seq<Leaf>)
    ensures StoredContents(contents, batch, false) == contents
  {
    if batch != [] {
      NoContents(contents, batch[..|batch| - 1]);
    }
  }

  /** The store's leaves are those there were, up to parent hashes and contents moved apart; a content is
      gone only from leaves already handled. */
  ghost predicate SameStored(before: map<Hash, Leaf>, leafs: map<Hash, Leaf>, hashes: seq<Hash>, apart: bool) {
    && Keyed(before) && leafs.Keys == before.Keys
    && forall h :: h in before ==>
                     || leafs[h].(parentHash := []) == before[h].(parentHash := [])
                     || (h in hashes && leafs[h].(parentHash := []) == Slim(before[h].(parentHash := []), apart))
  }

  /** Once what is in the batch is stored, the first i leaves are done. */
  ghost predicate Rewriting(before: map<Hash, Leaf>, held: map<Hash, Bytes>, leafs: map<Hash, Leaf>,
                            contents: map<Hash, Bytes>, parents: map<Hash, Hash>, hashes: seq<Hash>, i: nat,
                            batch: seq<Leaf>, apart: bool)
    requires i <= |hashes|
  {
    && SameStored(before, leafs, hashes[..i], apart)
    && StoredLeafs(leafs, batch, apart) == WithParents(before, parents, hashes[..i], apart)
    && StoredContents(contents, batch, apart) == WithContents(held, before, hashes[..i], apart)
  }

  lemma NothingStored(leafs: map<Hash, Leaf>, contents: map<Hash, Bytes>, parents: map<Hash, Hash>, hashes: seq<Hash>,
                      apart: bool)
    requires Keyed(leafs)
    ensures Rewriting(leafs, contents, leafs, contents, parents, hashes, 0, [], apart)
  {
    assert hashes[..0] == [];
    assert WithContents(contents, leafs, [], apart) == contents;
  }

  lemma NoneStored(leafs: map<Hash, Leaf>, contents: map<Hash, Bytes>, batch: seq<Leaf>, apart: bool)
    requires batch == []
    ensures StoredLeafs(leafs, batch, apart) == leafs && StoredContents(contents, batch, apart) == contents
  {
  }

  /** Storing a leaf that differs from what there was in its parent hash, and maybe in a content that was
      moved before, leaves the same. */
  lemma SlimSame(l: Leaf, l': Leaf, p: Hash, apart: bool)
    requires l'.(parentHash := []) == l.(parentHash := []) || l'.(parentHash := []) == Slim(l.(parentHash := []), apart)
    ensures Slim(l'.(parentHash := p), apart) == Slim(l.(parentHash := p), apart)
    ensures l'.hash == l.hash
    ensures |ContentBytes(l')| > 0 ==> ContentBytes(l') == ContentBytes(l)
    ensures l'.(parentHash := []) == l.(parentHash := []) ==> ContentBytes(l') == ContentBytes(l)
  {
    assert l'.(parentHash := p) == l'.(parentHash := []).(parentHash := p);
    assert l.(parentHash := p) == l.(parentHash := []).(parentHash := p);
    assert l'.(parentHash := []).hash == l'.hash && l'.(parentHash := []).content == l'.content;
    assert l.(parentHash := []).hash == l.hash && l.(parentHash := []).content == l.content;
  }

  lemma NextParent(before: map<Hash, Leaf>, held: map<Hash, Bytes>, leafs: map<Hash, Leaf>, contents: map<Hash, Bytes>,
                   parents: map<Hash, Hash>, hashes: seq<Hash>, i: nat, batch: seq<Leaf>, apart: bool)
    requires i < |hashes| && Rewriting(before, held, leafs, contents, parents, hashes, i, batch, apart)
    ensures
      var h := hashes[i];
      var next := if h in leafs then batch + [leafs[h].(parentHash := ParentIn(parents, h))] else batch;
      Rewriting(before, held, leafs, contents, parents, hashes, i + 1, next, apart)
  {
    hide StoredLeafs, StoredContents, Slim, ContentBytes, SameStored, WithParents, WithContents;
    var h := hashes[i];
    SameStoredNext(before, leafs, hashes, i, apart);
    if h in leafs {
      var p := ParentIn(parents, h);
      StoredAt(before, leafs, hashes, i, apart);
      SlimSame(before[h], leafs[h], p, apart);
      StoredSnoc(leafs, contents, batch, leafs[h].(parentHash := p), apart);
      SlimFields(leafs[h], p);
      WithParentsNext(before, parents, hashes, i, apart);
      WithContentsNext(held, before, hashes, i, apart);
      if h in hashes[..i] {
        WithContentsAgain(held, before, hashes, i, apart);
      }
    } else {
      NotStored(before, held, leafs, parents, hashes, i, apart);
    }
  }

  lemma SameStoredNext(before: map<Hash, Leaf>, leafs: map<Hash, Leaf>, hashes: seq<Hash>, i: nat, apart: bool)
    requires i < |hashes| && SameStored(before, leafs, hashes[..i], apart)
    ensures SameStored(before, leafs, hashes[..i + 1], apart)
  {
    hide Slim;
    assert hashes[..i + 1] == hashes[..i] + [hashes[i]];
  }

  lemma StoredAt(before: map<Hash, Leaf>, leafs: map<Hash, Leaf>, hashes: seq<Hash>, i: nat, apart: bool)
    requires i < |hashes| && SameStored(before, leafs, hashes[..i], apart) && hashes[i] in leafs
    ensures
      var h := hashes[i];
      && h in before && before[h].hash == h
      && (leafs[h].(parentHash := []) == before[h].(parentHash := [])
          || (h in hashes[..i] && leafs[h].(parentHash := []) == Slim(before[h].(parentHash := []), apart)))
  {
    hide Slim;
  }

  lemma WithParentsNext(before: map<Hash, Leaf>, parents: map<Hash, Hash>, hashes: seq<Hash>, i: nat, apart: bool)
    requires i < |hashes| && hashes[i] in before
    ensures
      var h := hashes[i];
      WithParents(before, parents, hashes[..i + 1], apart) ==
      WithParents(before, parents, hashes[..i], apart)[h := Slim(before[h].(parentHash := ParentIn(parents, h)), apart)]
  {
    hide Slim;
    assert hashes[..i + 1] == hashes[..i] + [hashes[i]];
  }

  lemma WithContentsNext(held: map<Hash, Bytes>, before: map<Hash, Leaf>, hashes: seq<Hash>, i: nat, apart: bool)
    requires i < |hashes| && hashes[i] in before
    ensures
      var h := hashes[i];
      var was := WithContents(held, before, hashes[..i], apart);
      WithContents(held, before, hashes[..i + 1], apart) ==
      if apart && |ContentBytes(before[h])| > 0 then was[h := ContentBytes(before[h])] else was
  {
    hide ContentBytes;
    assert hashes[..i + 1] == hashes[..i] + [hashes[i]];
  }

  lemma WithContentsAgain(held: map<Hash, Bytes>, before: map<Hash, Leaf>, hashes: seq<Hash>, i: nat, apart: bool)
    requires i < |hashes| && hashes[i] in before && hashes[i] in hashes[..i]
    ensures WithContents(held, before, hashes[..i + 1], apart) == WithContents(held, before, hashes[..i], apart)
  {
    hide WithContents;
    assert hashes[..i + 1] == hashes[..i] + [hashes[i]];
    SameListed(before, held, map[], hashes[..i], hashes[..i + 1], apart);
  }

  lemma NotStored(before: map<Hash, Leaf>, held: map<Hash, Bytes>, leafs: map<Hash, Leaf>, parents: map<Hash, Hash>,
                  hashes: seq<Hash>, i: nat, apart: bool)
    requires i < |hashes| && SameStored(before, leafs, hashes[..i], apart) && hashes[i] !in leafs
    ensures WithParents(before, parents, hashes[..i + 1], apart) == WithParents(before, parents, hashes[..i], apart)
    ensures WithContents(held, before, hashes[..i + 1], apart) == WithContents(held, before, hashes[..i], apart)
  {
    hide SameStored;
    assert hashes[i] !in before by { SameStoredKeys(before, leafs, hashes[..i], apart); }
    assert hashes[..i + 1] == hashes[..i] + [hashes[i]];
    SameListed(before, held, parents, hashes[..i], hashes[..i + 1], apart);
  }

  lemma SameStoredKeys(before: map<Hash, Leaf>, leafs: map<Hash, Leaf>, hashes: seq<Hash>, apart: bool)
    requires SameStored(before, leafs, hashes, apart)
    ensures before.Keys == leafs.Keys
  {
  }

  lemma SameListed(before: map<Hash, Leaf>, held: map<Hash, Bytes>, parents: map<Hash, Hash>, hashes: seq<Hash>,
                   more: seq<Hash>, apart: bool)
    requires forall h :: h in before ==> (h in hashes <==> h in more)
    ensures WithParents(before, parents, more, apart) == WithParents(before, parents, hashes, apart)
    ensures WithContents(held, before, more, apart) == WithContents(held, before, hashes, apart)
  {
    hide Slim, ContentBytes;
    assert (map h | h in before && h in hashes && apart && |ContentBytes(before[h])| > 0 :: ContentBytes(before[h]))
        == (map h | h in before && h in more && apart && |ContentBytes(before[h])| > 0 :: ContentBytes(before[h]));
  }

  lemma SlimFields(l: Leaf, p: Hash)
    ensures l.(parentHash := p).hash == l.hash && ContentBytes(l.(parentHash := p)) == ContentBytes(l)
  {
  }

  lemma StoredSnoc(leafs: map<Hash, Leaf>, contents: map<Hash, Bytes>, batch: seq<Leaf>, l: Leaf, apart: bool)
    ensures StoredLeafs(leafs, batch + [l], apart) == StoredLeafs(leafs, batch, apart)[l.hash := Slim(l, apart)]
    ensures StoredContents(contents, batch + [l], apart) ==
            if apart && |ContentBytes(l)| > 0 then StoredContents(contents, batch, apart)[l.hash := ContentBytes(l)]
            else StoredContents(contents, batch, apart)
  {
    assert (batch + [l])[..|batch|] == batch;
  }

  /** Once a batch is stored, an empty one is under way. */
  lemma BatchStored(before: map<Hash, Leaf>, held: map<Hash, Bytes>, leafs: map<Hash, Leaf>, contents: map<Hash, Bytes>,
                    parents: map<Hash, Hash>, hashes: seq<Hash>, n: nat, batch: seq<Leaf>, apart: bool)
    requires n <= |hashes| && Rewriting(before, held, leafs, contents, parents, hashes, n, batch, apart)
    ensures Rewriting(before, held, StoredLeafs(leafs, batch, apart), StoredContents(contents, batch, apart), parents,
                      hashes, n, [], apart)
  {
    hide StoredLeafs, StoredContents, SameStored, WithParents, WithContents;
    NoneStored(StoredLeafs(leafs, batch, apart), StoredContents(contents, batch, apart), [], apart);
    KeyedBefore(before, leafs, hashes[..n], apart);
    ParentsSameStored(before, parents, hashes[..n], apart);
  }

  lemma KeyedBefore(before: map<Hash, Leaf>, leafs: map<Hash, Leaf>, hashes: seq<Hash>, apart: bool)
    requires SameStored(before, leafs, hashes, apart)
    ensures Keyed(before)
  {
  }

  lemma ParentsSameStored(before: map<Hash, Leaf>, parents: map<Hash, Hash>, hashes: seq<Hash>, apart: bool)
    requires Keyed(before)
    ensures SameStored(before, WithParents(before, parents, hashes, apart), hashes, apart)
  {
    hide Slim;
    var after := WithParents(before, parents, hashes, apart);
    forall h | h in before && h in hashes
      ensures after[h].(parentHash := []) == Slim(before[h].(parentHash := []), apart)
    {
      SlimParent(before[h], ParentIn(parents, h), apart);
    }
  }

  lemma SlimParent(l: Leaf, p: Hash, apart: bool)
    ensures Slim(l.(parentHash := p), apart).(parentHash := []) == Slim(l.(parentHash := []), apart)
  {
  }

  lemma RewritingDone(before: map<Hash, Leaf>, held: map<Hash, Bytes>, leafs: map<Hash, Leaf>,
                      contents: map<Hash, Bytes>,
                      parents: map<Hash, Hash>, hashes: seq<Hash>, apart: bool)
    requires Rewriting(before, held, leafs, contents, parents, hashes, |hashes|, [], apart)
    ensures leafs == WithParents(before, parents, hashes, apart)
            && contents == WithContents(held, before, hashes, apart)
  {
    assert hashes[..|hashes|] == hashes;
  }

  /** What the store hands out afterwards differs in the parent hash only, but for a leaf whose content was
      inline, is moved apart and has no hash to be found by. */
  lemma UpdateKeepsLeaves(leafs: map<Hash, Leaf>, contents: map<Hash, Bytes>, separate: bool, batched: bool,
                          parents: map<Hash, Hash>, hashes: seq<Hash>, h: Hash)
    requires h in leafs
    ensures
      var l, apart := leafs[h], separate && !batched;
      var p := if h in hashes then ParentIn(parents, h) else l.parentHash;
      Fetched(WithParents(leafs, parents, hashes, apart), WithContents(contents, leafs, hashes, apart), separate, h)
        == Some(Fetched(leafs, contents, separate, h).value.(parentHash := p))
      <==> (apart && h in hashes && |ContentBytes(l)| > 0 ==> |l.contentHash.GetOr([])| > 0)
  {
    var l, apart := leafs[h], separate && !batched;
    if apart && h in hashes && |ContentBytes(l)| > 0 {
      var moved := l.(parentHash := ParentIn(parents, h)).(content := None);
      assert WithParents(leafs, parents, hashes, apart)[h] == moved;
      assert WithContents(contents, leafs, hashes, apart)[h] == ContentBytes(l);
      assert l.content == Some(l.content.value);
    } else {
      assert h in hashes ==> WithParents(leafs, parents, hashes, apart)[h] == l.(parentHash := ParentIn(parents, h));
      assert l.(parentHash := l.parentHash) == l;
      assert h in WithContents(contents, leafs, hashes, apart) <==> h in contents;
    }
  }

  /** After the update of a well-formed DAG's store, with an index built by traversal, every
      leaf but the root has its lowest parent's hash as parent hash, and the root the empty one; but for
      contents nothing else of a leaf changed. */
  lemma ParentsWritten(e: Suite, g: Graph, index: Index, apart: bool, h: Hash)
    requires WellFormed(e, g) && Indexes(g.root, g.leafs, index) && h in g.leafs
    ensures
      var after := WithParents(g.leafs, index.parents, index.leafHashes, apart);
      && after.Keys == g.leafs.Keys
      && (if h == g.root then after[h].parentHash == [] else IsMinParent(g.leafs, h, after[h].parentHash))
      && after[h].(parentHash := g.leafs[h].parentHash, content := g.leafs[h].content) == g.leafs[h]
      && (!apart ==> after[h].content == g.leafs[h].content)
  {
    hide WellFormed, IsMinParent, Reachable, Indexes, ContentBytes;
    WalkedParents(e, g, index);
    Listed(e, g, index, h);
    if h != g.root {
      OneParentRule(e, g, index, h);
    }
  }

  lemma Listed(e: Suite, g: Graph, index: Index, h: Hash)
    requires WellFormed(e, g) && Indexes(g.root, g.leafs, index) && h in g.leafs
    ensures h in index.leafHashes
  {
    hide RootOk, LeafOk, LinksCommitted, Acyclic, Reachable, LowestParents;
  }

  /** The same for an index built from a canonical cache. */
  lemma CachedParentsWritten(e: Suite, g: Graph, relationships: map<Hash, Hash>, index: Index, apart: bool, h: Hash)
    requires WellFormed(e, g) && Canonical(g, relationships) && IndexesCache(g.root, relationships, index)
    requires h in g.leafs
    ensures
      var after := WithParents(g.leafs, index.parents, index.leafHashes, apart);
      && after.Keys == g.leafs.Keys
      && (if h == g.root then after[h].parentHash == [] else IsMinParent(g.leafs, h, after[h].parentHash))
  {
    hide WellFormed, IsMinParent, Cached, Inverts, ContentBytes, Canonical;
    CachedLeaves(e, g, relationships, h);
    if h != g.root {
      CanonicalAt(g, relationships, h);
    }
  }

  lemma CanonicalAt(g: Graph, relationships: map<Hash, Hash>, h: Hash)
    requires Canonical(g, relationships) && h in g.leafs && h != g.root
    ensures h in relationships && relationships[h] != [] && IsMinParent(g.leafs, h, relationships[h])
  {
    hide IsMinParent;
  }
}
