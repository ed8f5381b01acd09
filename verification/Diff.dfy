/** Differences between DAGs: what a sender computes between two DAGs it holds, what a receiver works
    out from a partial DAG, and how the receiver rebuilds the new DAG. */
module Diff {
  import opened ByteStrings
  import opened DagModel
  import opened Partial

  datatype Change = Added | Removed

  datatype LeafDiff = LeafDiff(change: Change, hash: Hash, leaf: Leaf)

  /** The differences by hash, and the summary counters. */
  datatype DagDiff = DagDiff(diffs: map<Hash, LeafDiff>, added: nat, removed: nat, total: nat)

  const NO_DIFF := DagDiff(map[], 0, 0, 0)

  function Changes(leafs: map<Hash, Leaf>, change: Change): map<Hash, LeafDiff> {
    map h | h in leafs :: LeafDiff(change, h, leafs[h])
  }

  function Recorded(diff: DagDiff, leafs: map<Hash, Leaf>, change: Change): DagDiff {
    DagDiff(diff.diffs + Changes(leafs, change),
            diff.added + (if change == Added then |leafs| else 0),
            diff.removed + (if change == Removed then |leafs| else 0),
            diff.total + |leafs|)
  }

  function DiffOf(had: map<Hash, Leaf>, now: map<Hash, Leaf>): DagDiff {
    Recorded(Recorded(NO_DIFF, now - had.Keys, Added), had - now.Keys, Removed)
  }

  /** Records every leaf but those excepted, taken in any order. */
  method Record(diff: DagDiff, leafs: map<Hash, Leaf>, except: set<Hash>, change: Change) returns (d: DagDiff)
    ensures d == Recorded(diff, leafs - except, change)
  {
    hide Changes, Recorded;
    d := diff;
    var rest := leafs.Keys;
    ghost var done: map<Hash, Leaf> := map[];
    RecordedNone(diff, change);
    while rest != {}
      invariant rest <= leafs.Keys && done == leafs - rest - except
      invariant d == Recorded(diff, done, change)
      decreases rest
    {
      var h :| h in rest;
      rest := rest - {h};
      if h !in except {
        RecordedNext(diff, done, change, h, leafs[h]);
        MinusNext(leafs, rest, except, h);
        d := DagDiff(d.diffs[h := LeafDiff(change, h, leafs[h])],
                     if change == Added then d.added + 1 else d.added,
                     if change == Removed then d.removed + 1 else d.removed, d.total + 1);
        done := done[h := leafs[h]];
      }
    }
    assert leafs - {} - except == leafs - except;
  }

  lemma RecordedNone(diff: DagDiff, change: Change)
    ensures Recorded(diff, map[], change) == diff
  {
    assert Changes(map[], change) == map[];
  }

  lemma MinusNext<T, U>(m: map<T, U>, rest: set<T>, except: set<T>, x: T)
    requires x in m && x !in except
    ensures m - (rest - {x}) - except == (m - rest - except)[x := m[x]]
  {
  }

  lemma UpdateSum<T, U>(a: map<T, U>, b: map<T, U>, x: T, y: U)
    ensures a + b[x := y] == (a + b)[x := y]
    ensures x !in b ==> |b[x := y]| == |b| + 1
  {
    assert b[x := y].Keys == b.Keys + {x};
    assert |b[x := y]| == |b[x := y].Keys| && |b| == |b.Keys|;
  }

  lemma ChangesNext(leafs: map<Hash, Leaf>, change: Change, h: Hash, l: Leaf)
    ensures Changes(leafs[h := l], change) == Changes(leafs, change)[h := LeafDiff(change, h, l)]
  {
  }

  lemma RecordedNext(diff: DagDiff, leafs: map<Hash, Leaf>, change: Change, h: Hash, l: Leaf)
    requires h !in leafs
    ensures
      var d := Recorded(diff, leafs, change);
      Recorded(diff, leafs[h := l], change) ==
      DagDiff(d.diffs[h := LeafDiff(change, h, l)],
              if change == Added then d.added + 1 else d.added,
              if change == Removed then d.removed + 1 else d.removed, d.total + 1)
  {
    hide Changes;
    ChangesNext(leafs, change, h, l);
    UpdateSum(diff.diffs, Changes(leafs, change), h, LeafDiff(change, h, l));
    UpdateSum(leafs, leafs, h, l);
  }

  method DiffDags(first: Dag, second: Dag) returns (diff: DagDiff)
    ensures diff == DiffOf(first.leafs, second.leafs)
  {
    diff := Record(NO_DIFF, second.leafs, first.leafs.Keys, Added);
    diff := Record(diff, first.leafs, second.leafs.Keys, Removed);
  }

  /** What a diff says, hash by hash, and what it counts. */
  lemma DiffSays(had: map<Hash, Leaf>, now: map<Hash, Leaf>, h: Hash)
    ensures
      var d := DiffOf(had, now);
      && (h in d.diffs <==> (h in now && h !in had) || (h in had && h !in now))
      && (h in now && h !in had ==> d.diffs[h] == LeafDiff(Added, h, now[h]))
      && (h in had && h !in now ==> d.diffs[h] == LeafDiff(Removed, h, had[h]))
      && d.added == |now.Keys - had.Keys| && d.removed == |had.Keys - now.Keys|
      && d.total == d.added + d.removed == |d.diffs|
  {
    hide Changes;
    var more, less := now - had.Keys, had - now.Keys;
    ChangesAt(more, Added, h);
    ChangesAt(less, Removed, h);
    DiffCounts(had, now);
  }

  lemma DiffCounts(had: map<Hash, Leaf>, now: map<Hash, Leaf>)
    ensures
      var d := DiffOf(had, now);
      && d.added == |now.Keys - had.Keys| && d.removed == |had.Keys - now.Keys|
      && d.total == d.added + d.removed == |d.diffs|
  {
    hide Changes;
    var more, less := now - had.Keys, had - now.Keys;
    RestKeys(now, had.Keys);
    RestKeys(had, now.Keys);
    ChangesKeys(more, Added);
    ChangesKeys(less, Removed);
    UnionSize(Changes(more, Added), Changes(less, Removed));
    EmptySum(Changes(more, Added));
  }

  lemma RestKeys<T, U>(m: map<T, U>, except: set<T>)
    ensures (m - except).Keys == m.Keys - except && |m - except| == |m.Keys - except|
  {
    assert |m - except| == |(m - except).Keys|;
  }

  lemma UnionSize<T, U>(a: map<T, U>, b: map<T, U>)
    requires a.Keys !! b.Keys
    ensures |a + b| == |a.Keys| + |b.Keys|
  {
    assert (a + b).Keys == a.Keys + b.Keys;
    assert |a + b| == |(a + b).Keys|;
  }

  lemma ChangesKeys(leafs: map<Hash, Leaf>, change: Change)
    ensures Changes(leafs, change).Keys == leafs.Keys
  {
  }

  lemma ChangesAt(leafs: map<Hash, Leaf>, change: Change, h: Hash)
    ensures h in Changes(leafs, change) <==> h in leafs
    ensures h in leafs ==> Changes(leafs, change)[h] == LeafDiff(change, h, leafs[h])
  {
  }

  function AddedLeaves(diff: DagDiff): map<Hash, Leaf> {
    map h | h in diff.diffs && diff.diffs[h].change == Added :: diff.diffs[h].leaf
  }

  method GetAddedLeaves(diff: DagDiff) returns (added: map<Hash, Leaf>)
    ensures added == AddedLeaves(diff)
  {
    added := map[];
    var rest := diff.diffs.Keys;
    while rest != {}
      invariant rest <= diff.diffs.Keys
      invariant added == map h | h in diff.diffs && h !in rest && diff.diffs[h].change == Added :: diff.diffs[h].leaf
      decreases rest
    {
      var h :| h in rest;
      rest := rest - {h};
      if diff.diffs[h].change == Added {
        added := added[h := diff.diffs[h].leaf];
      }
    }
  }

  /** What a diff says was added and removed. */
  lemma DiffParts(had: map<Hash, Leaf>, added: map<Hash, Leaf>, removed: map<Hash, Leaf>)
    requires added.Keys !! removed.Keys
    ensures
      var diff := Recorded(Recorded(NO_DIFF, added, Added), removed, Removed);
      && AddedLeaves(diff) == added && diff.added == |added| && diff.removed == |removed|
      && diff.diffs.Keys == added.Keys + removed.Keys
      && (forall h :: h in removed ==> diff.diffs[h] == LeafDiff(Removed, h, removed[h]))
  {
    hide Recorded, Changes, AddedLeaves;
    var a, b := Changes(added, Added), Changes(removed, Removed);
    var first := Recorded(NO_DIFF, added, Added);
    var diff := Recorded(first, removed, Removed);
    ChangesAre(added, Added);
    ChangesAre(removed, Removed);
    RecordedFields(NO_DIFF, added, Added);
    RecordedFields(first, removed, Removed);
    EmptySum(a);
    SumAt(a, b);
    AddedOf(diff, added, removed);
  }

  lemma RecordedFields(diff: DagDiff, leafs: map<Hash, Leaf>, change: Change)
    ensures
      var d := Recorded(diff, leafs, change);
      && d.diffs == diff.diffs + Changes(leafs, change)
      && d.added == diff.added + (if change == Added then |leafs| else 0)
      && d.removed == diff.removed + (if change == Removed then |leafs| else 0)
      && d.total == diff.total + |leafs|
  {
    hide Changes;
  }

  lemma EmptySum<T, U>(a: map<T, U>)
    ensures map[] + a == a
  {
  }

  lemma SumAt<T, U>(a: map<T, U>, b: map<T, U>)
    requires a.Keys !! b.Keys
    ensures (a + b).Keys == a.Keys + b.Keys
    ensures (forall x :: x in a ==> (a + b)[x] == a[x]) && (forall x :: x in b ==> (a + b)[x] == b[x])
  {
  }

  lemma ChangesAre(leafs: map<Hash, Leaf>, change: Change)
    ensures Changes(leafs, change).Keys == leafs.Keys
    ensures forall h :: h in leafs ==> Changes(leafs, change)[h] == LeafDiff(change, h, leafs[h])
  {
  }

  lemma AddedOf(diff: DagDiff, added: map<Hash, Leaf>, removed: map<Hash, Leaf>)
    requires diff.diffs.Keys == added.Keys + removed.Keys && added.Keys !! removed.Keys
    requires forall h :: h in added ==> diff.diffs[h] == LeafDiff(Added, h, added[h])
    requires forall h :: h in removed ==> diff.diffs[h] == LeafDiff(Removed, h, removed[h])
    ensures AddedLeaves(diff) == added
  {
  }

  // ----- Reachable leaves -----

  lemma ReachableTrans(leafs: map<Hash, Leaf>, a: Hash, b: Hash, c: Hash)
    requires Reachable(leafs, a, b) && Reachable(leafs, b, c)
    ensures Reachable(leafs, a, c)
  {
    hide ClosedUnderLinks;
  }

  /** What a traversal has added to the visited set: it is closed under links and reachable. */
  ghost predicate Spread(leafs: map<Hash, Leaf>, from: Hash, before: set<Hash>, after: set<Hash>) {
    && before <= after
    && (forall h, c :: h in after - before && h in leafs && c in leafs[h].links ==> c in after)
    && (forall h :: h in after - before ==> Reachable(leafs, from, h))
  }

  lemma SpreadStart(leafs: map<Hash, Leaf>, from: Hash, before: set<Hash>)
    requires from !in leafs
    ensures Spread(leafs, from, before, before + {from})
  {
  }

  /** The links of a visited leaf taken up to some point. */
  ghost predicate Spreading(leafs: map<Hash, Leaf>, from: Hash, before: set<Hash>, links: seq<Hash>, after: set<Hash>) {
    && before + {from} <= after && (forall c :: c in links ==> c in after)
    && (forall h, c :: h in after - before && h != from && h in leafs && c in leafs[h].links ==> c in after)
    && (forall h :: h in after - before ==> Reachable(leafs, from, h))
  }

  lemma SpreadingStart(leafs: map<Hash, Leaf>, from: Hash, before: set<Hash>)
    ensures Spreading(leafs, from, before, [], before + {from})
  {
  }

  lemma SpreadingNext(leafs: map<Hash, Leaf>, from: Hash, before: set<Hash>, links: seq<Hash>, c: Hash,
                      after: set<Hash>, next: set<Hash>)
    requires from in leafs && c in leafs[from].links && Spreading(leafs, from, before, links, after)
    requires Spread(leafs, c, after, next) && c in next
    ensures Spreading(leafs, from, before, links + [c], next)
  {
    hide Reachable;
    ReachableLink(leafs, from, c);
    forall h | h in next - before
      ensures Reachable(leafs, from, h)
    {
      if h !in after {
        ReachableTrans(leafs, from, c, h);
      }
    }
  }

  lemma ReachableLink(leafs: map<Hash, Leaf>, from: Hash, c: Hash)
    requires from in leafs && c in leafs[from].links
    ensures Reachable(leafs, from, c)
  {
  }

  lemma SpreadingDone(leafs: map<Hash, Leaf>, from: Hash, before: set<Hash>, after: set<Hash>)
    requires from in leafs && Spreading(leafs, from, before, leafs[from].links, after)
    ensures Spread(leafs, from, before, after) && from in after
  {
    hide Reachable;
  }

  /** From nothing visited, exactly the reachable hashes get visited. */
  lemma SpreadIsReachable(leafs: map<Hash, Leaf>, from: Hash, after: set<Hash>)
    requires Spread(leafs, from, {}, after) && from in after
    ensures forall h :: h in after <==> Reachable(leafs, from, h)
  {
    assert after - {} == after;
    assert ClosedUnderLinks(leafs, after);
  }

  /** The receiver's `traverse`: hashes without a leaf are visited too. */
  method Traverse(leafs: map<Hash, Leaf>, hash: Hash, visited: set<Hash>) returns (after: set<Hash>)
    ensures Spread(leafs, hash, visited, after) && hash in after
    decreases leafs.Keys - visited
  {
    hide Reachable, Spread, Spreading;
    if hash in visited {
      SpreadNothing(leafs, hash, visited);
      return visited;
    }
    after := visited + {hash};
    if hash !in leafs {
      SpreadStart(leafs, hash, visited);
      return;
    }
    var links := leafs[hash].links;
    SpreadingStart(leafs, hash, visited);
    assert links[..0] == [];
    for i := 0 to |links|
      invariant Spreading(leafs, hash, visited, links[..i], after) && visited + {hash} <= after
    {
      var next := Traverse(leafs, links[i], after);
      SpreadGrows(leafs, links[i], after, next);
      SpreadingNext(leafs, hash, visited, links[..i], links[i], after, next);
      assert links[..i + 1] == links[..i] + [links[i]];
      after := next;
    }
    assert links[..|links|] == links;
    SpreadingDone(leafs, hash, visited, after);
  }

  lemma SpreadNothing(leafs: map<Hash, Leaf>, from: Hash, visited: set<Hash>)
    ensures Spread(leafs, from, visited, visited)
  {
  }

  lemma SpreadGrows(leafs: map<Hash, Leaf>, from: Hash, before: set<Hash>, after: set<Hash>)
    requires Spread(leafs, from, before, after)
    ensures before <= after
  {
  }

  // ----- The receiver's diff -----

  ghost predicate BetterRoot(leafs: map<Hash, Leaf>, h: Hash, other: Hash)
    requires h in leafs && other in leafs
  {
    || leafs[h].leafCount > leafs[other].leafCount
    || (leafs[h].leafCount == leafs[other].leafCount && (h == other || Less(h, other)))
  }

  /** The leaf with the highest leaf count, the lowest hash among those. */
  ghost predicate PickedRoot(leafs: map<Hash, Leaf>, root: Option<Hash>) {
    match root
    case None => forall h :: h in leafs ==> leafs[h].leafCount <= 0
    case Some(r) =>
      && r in leafs && leafs[r].leafCount > 0
      && forall h :: h in leafs && leafs[h].leafCount > 0 ==> BetterRoot(leafs, r, h)
  }

  lemma BetterRootTrans(leafs: map<Hash, Leaf>, a: Hash, b: Hash, c: Hash)
    requires a in leafs && b in leafs && c in leafs && BetterRoot(leafs, a, b) && BetterRoot(leafs, b, c)
    ensures BetterRoot(leafs, a, c)
  {
    hide Less;
    if Less(a, b) && Less(b, c) {
      LessTransitive(a, b, c);
    }
  }

  method PickRoot(leafs: map<Hash, Leaf>) returns (root: Option<Hash>)
    ensures PickedRoot(leafs, root)
  {
    hide Less;
    root := None;
    var rest := leafs.Keys;
    while rest != {}
      invariant rest <= leafs.Keys
      invariant root.Some? ==> root.value in leafs && leafs[root.value].leafCount > 0
      invariant forall h :: h in leafs && h !in rest && leafs[h].leafCount > 0 ==>
                              root.Some? && BetterRoot(leafs, root.value, h)
      decreases rest
    {
      var h :| h in rest;
      rest := rest - {h};
      if leafs[h].leafCount > 0 {
        if root.Some? {
          LessTotal(h, root.value);
        }
        if root == None || leafs[h].leafCount > leafs[root.value].leafCount
           || (leafs[h].leafCount == leafs[root.value].leafCount && Less(h, root.value)) {
          forall x | x in leafs && x !in rest && x != h && leafs[x].leafCount > 0
            ensures BetterRoot(leafs, h, x)
          {
            BetterRootTrans(leafs, h, root.value, x);
          }
          root := Some(h);
        }
      }
    }
  }

  /** The hashes reachable from the new root, if there is one, new leaves hiding old ones. */
  ghost predicate ReachedFrom(leafs: map<Hash, Leaf>, root: Option<Hash>, reached: set<Hash>) {
    forall h :: h in reached <==> root.Some? && Reachable(leafs, root.value, h)
  }

  method DiffFromNewLeaves(original: Dag, newLeaves: map<Hash, Leaf>)
    returns (diff: DagDiff, ghost root: Option<Hash>, ghost reached: set<Hash>)
    ensures PickedRoot(newLeaves, root) && ReachedFrom(original.leafs + newLeaves, root, reached)
    ensures diff == Recorded(Recorded(NO_DIFF, newLeaves - original.leafs.Keys, Added), original.leafs - reached,
              Removed)
  {
    hide Spread, Reachable, PickedRoot;
    var newRoot := PickRoot(newLeaves);
    root := newRoot;
    diff := Record(NO_DIFF, newLeaves, original.leafs.Keys, Added);
    var reachable: set<Hash> := {};
    if newRoot.Some? {
      reachable := Traverse(original.leafs + newLeaves, newRoot.value, {});
      SpreadIsReachable(original.leafs + newLeaves, newRoot.value, reachable);
    }
    reached := reachable;
    diff := Record(diff, original.leafs, reachable, Removed);
  }

  // ----- The partial DAG for a diff -----

  /** The order in which the added leaves are requested is that of a map. */
  method CreatePartialDag(e: Suite, diff: DagDiff, full: Dag, cpus: nat)
    returns (r: Result<Dag, ()>, ghost requested: seq<Hash>)
    requires cpus > 0 && Partialable(full.View())
    ensures Elements(requested) == AddedLeaves(diff).Keys && (requested == [] <==> AddedLeaves(diff) == map[])
    ensures r.Ok? <==> CanGet(e, full.View(), requested)
    ensures r.Ok? ==> fresh(r.value) && IsPartialOf(e, full.View(), requested, false, r.value.View())
  {
    hide Partialable, IsPartialOf, AddedLeaves, CanGet;
    var addedLeaves := GetAddedLeaves(diff);
    requested := [];
    if |addedLeaves| == 0 {
      assert addedLeaves.Keys == {};
      NothingToGet(e, full.View());
      return Err(()), requested;
    }
    var addedHashes := [];
    var rest := addedLeaves.Keys;
    while rest != {}
      invariant rest <= addedLeaves.Keys && Elements(addedHashes) == addedLeaves.Keys - rest
      decreases rest
    {
      var h :| h in rest;
      assert Elements(addedHashes + [h]) == Elements(addedHashes) + {h};
      addedHashes, rest := addedHashes + [h], rest - {h};
    }
    requested := addedHashes;
    AddedThere(addedLeaves, addedHashes);
    var partial := GetPartial(e, full, addedHashes, false, cpus);
    if partial.Err? {
      return Err(()), requested;
    }
    r := Ok(partial.value);
  }

  lemma NothingToGet(e: Suite, g: Graph)
    ensures !CanGet(e, g, [])
  {
  }

  lemma AddedThere(added: map<Hash, Leaf>, hashes: seq<Hash>)
    requires Elements(hashes) == added.Keys && |added| > 0
    ensures hashes != [] && added != map[]
    ensures forall h :: h in hashes <==> h in added
  {
    assert forall h :: h in hashes <==> h in Elements(hashes);
    assert |added.Keys| == |added| > 0;
    var h :| h in added.Keys;
    assert h in hashes;
  }

  // ----- Applying a diff -----

  datatype ApplyError = NoRoot | MissingLeaf(hash: Hash)

  /** The receiver's leaves together with the added ones. */
  function Pool(diff: DagDiff, had: map<Hash, Leaf>): map<Hash, Leaf> {
    had + AddedLeaves(diff)
  }

  /** An added leaf with a leaf count that nothing in the pool links. */
  ghost predicate NewRoot(diff: DagDiff, had: map<Hash, Leaf>, root: Hash) {
    && root in AddedLeaves(diff) && AddedLeaves(diff)[root].leafCount > 0
    && forall h :: h in Pool(diff, had) ==> root !in Pool(diff, had)[h].links
  }

  /** Collects the leaf and all below it, or finds one missing. */
  method Gather(leafs: map<Hash, Leaf>, hash: Hash, visited: set<Hash>, gathered: map<Hash, Leaf>)
    returns (missing: Option<Hash>, after: set<Hash>, all: map<Hash, Leaf>)
    requires visited <= leafs.Keys && gathered.Keys == visited && forall h :: h in gathered ==> gathered[h] == leafs[h]
    ensures missing.Some? ==> missing.value !in leafs && Reachable(leafs, hash, missing.value)
    ensures missing == None ==>
              && Spread(leafs, hash, visited, after) && hash in after && after <= leafs.Keys
              && all.Keys == after && forall h :: h in all ==> all[h] == leafs[h]
    decreases leafs.Keys - visited
  {
    hide Reachable, Spread, Spreading;
    missing, after, all := None, visited, gathered;
    if hash in visited {
      SpreadNothing(leafs, hash, visited);
      return;
    }
    if hash !in leafs {
      ReachableSelf(leafs, hash);
      missing := Some(hash);
      return;
    }
    after, all := visited + {hash}, gathered[hash := leafs[hash]];
    var links := leafs[hash].links;
    SpreadingStart(leafs, hash, visited);
    assert links[..0] == [];
    for i := 0 to |links|
      invariant Spreading(leafs, hash, visited, links[..i], after) && visited + {hash} <= after <= leafs.Keys
      invariant missing == None && all.Keys == after && forall h :: h in all ==> all[h] == leafs[h]
    {
      var next, more;
      missing, next, more := Gather(leafs, links[i], after, all);
      ReachableLink(leafs, hash, links[i]);
      if missing.Some? {
        ReachableTrans(leafs, hash, links[i], missing.value);
        return;
      }
      SpreadGrows(leafs, links[i], after, next);
      SpreadingNext(leafs, hash, visited, links[..i], links[i], after, next);
      assert links[..i + 1] == links[..i] + [links[i]];
      after, all := next, more;
    }
    assert links[..|links|] == links;
    SpreadingDone(leafs, hash, visited, after);
  }

  lemma ReachableSelf(leafs: map<Hash, Leaf>, h: Hash)
    ensures Reachable(leafs, h, h)
  {
  }

  /** Everything reachable from the root in the pool. */
  ghost predicate Holds(pool: map<Hash, Leaf>, g: Graph) {
    && (forall h :: h in g.leafs <==> Reachable(pool, g.root, h))
    && forall h :: h in g.leafs ==> h in pool && g.leafs[h] == pool[h]
  }

  method ChildHashes(leafs: map<Hash, Leaf>) returns (children: set<Hash>)
    ensures forall c :: c in children <==> exists h :: h in leafs && c in leafs[h].links
  {
    children := {};
    var rest := leafs.Keys;
    while rest != {}
      invariant rest <= leafs.Keys
      invariant forall c :: c in children <==> exists h :: h in leafs && h !in rest && c in leafs[h].links
      decreases rest
    {
      var h :| h in rest;
      rest := rest - {h};
      var links := leafs[h].links;
      ghost var before := children;
      for i := 0 to |links|
        invariant children == before + Elements(links[..i])
      {
        assert links[..i + 1] == links[..i] + [links[i]];
        children := children + {links[i]};
      }
      assert links[..|links|] == links;
    }
  }

  /** Looks through the added leaves in any order. */
  method FindNewRoot(added: map<Hash, Leaf>, childHashes: set<Hash>) returns (root: Option<Hash>)
    ensures root == None ==> forall h :: h in added ==> h in childHashes || added[h].leafCount <= 0
    ensures root.Some? ==> root.value in added && root.value !in childHashes && added[root.value].leafCount > 0
  {
    var rest := added.Keys;
    while rest != {}
      invariant rest <= added.Keys
      invariant forall h :: h in added && h !in rest ==> h in childHashes || added[h].leafCount <= 0
      decreases rest
    {
      var h :| h in rest;
      rest := rest - {h};
      if h !in childHashes && added[h].leafCount > 0 {
        return Some(h);
      }
    }
    root := None;
  }

  method SelectRoot(diff: DagDiff, had: map<Hash, Leaf>) returns (root: Option<Hash>, pool: map<Hash, Leaf>)
    ensures pool == Pool(diff, had)
    ensures root == None ==> forall h :: !NewRoot(diff, had, h)
    ensures root.Some? ==> NewRoot(diff, had, root.value)
  {
    hide AddedLeaves;
    var addedLeaves := GetAddedLeaves(diff);
    pool := had + addedLeaves;
    var childHashes := ChildHashes(pool);
    root := FindNewRoot(addedLeaves, childHashes);
    if root == None {
      forall h
        ensures !NewRoot(diff, had, h)
      {
        if h in addedLeaves && addedLeaves[h].leafCount > 0 {
          var parent :| parent in pool && h in pool[parent].links;
          assert parent in Pool(diff, had) && h in Pool(diff, had)[parent].links;
        }
      }
    }
  }

  method ApplyToDAG(diff: DagDiff, oldDag: Dag) returns (r: Result<Dag, ApplyError>)
    ensures r.Ok? ==> fresh(r.value)
    ensures diff.added == 0 ==> r.Ok? && r.value.View() == oldDag.View()
    ensures diff.added > 0 && r.Ok? ==>
              NewRoot(diff, oldDag.leafs, r.value.root) && Holds(Pool(diff, oldDag.leafs), r.value.View())
    ensures r == Err(NoRoot) <==> diff.added > 0 && forall h :: !NewRoot(diff, oldDag.leafs, h)
    ensures r.Err? && r.error.MissingLeaf? ==>
              && r.error.hash !in Pool(diff, oldDag.leafs)
              && exists root ::
                   NewRoot(diff, oldDag.leafs, root) && Reachable(Pool(diff, oldDag.leafs), root, r.error.hash)
  {
    hide Reachable, Spread, NewRoot, Pool;
    if diff.added == 0 {
      var copy := new Dag(oldDag.root, oldDag.leafs);
      return Ok(copy);
    }
    var newRoot, leafPool := SelectRoot(diff, oldDag.leafs);
    if newRoot == None {
      return Err(NoRoot);
    }
    var missing, visited, leafs := Gather(leafPool, newRoot.value, {}, map[]);
    if missing.Some? {
      return Err(MissingLeaf(missing.value));
    }
    SpreadIsReachable(leafPool, newRoot.value, visited);
    var d := new Dag(newRoot.value, leafs);
    r := Ok(d);
  }
}
