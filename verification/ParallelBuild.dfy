/** The parallel build: workers process the entries of a directory concurrently, and their additions reach
    the builder in whatever order. It makes the DAG that the sequential build makes. */
module ParallelBuild {
  import opened ByteStrings
  import opened DagModel
  import opened DagVerify
  import opened Decimal
  import opened Builder

  // ----- Schedules -----

  /** The trace takes the first of some remaining trace at each step. */
  ghost predicate Interleaves(traces: seq<seq<Leaf>>, trace: seq<Leaf>)
    decreases |trace|
  {
    if trace == [] then forall i :: 0 <= i < |traces| ==> traces[i] == []
    else
      exists i :: && 0 <= i < |traces| && traces[i] != [] && traces[i][0] == trace[0]
                  && Interleaves(traces[i := traces[i][1..]], trace[1..])
  }

  function Lengths(traces: seq<seq<Leaf>>): nat {
    if traces == [] then 0 else |traces[0]| + Lengths(traces[1..])
  }

  lemma {:induction false} LengthsDrop(traces: seq<seq<Leaf>>, i: nat)
    requires i < |traces| && traces[i] != []
    ensures Lengths(traces[i := traces[i][1..]]) == Lengths(traces) - 1
  {
    var shorter := traces[i := traces[i][1..]];
    if i > 0 {
      assert shorter[1..] == traces[1..][i - 1 := traces[1..][i - 1][1..]];
      LengthsDrop(traces[1..], i - 1);
    } else {
      assert shorter[1..] == traces[1..];
    }
  }

  /** The scheduler: lets some worker that is not done make its next addition, until all are done. */
  method Interleave(traces: seq<seq<Leaf>>) returns (mixed: seq<Leaf>)
    ensures Interleaves(traces, mixed)
    decreases Lengths(traces)
  {
    if exists i :: 0 <= i < |traces| && traces[i] != [] {
      var i: nat :| i < |traces| && traces[i] != [];
      LengthsDrop(traces, i);
      var rest := Interleave(traces[i := traces[i][1..]]);
      mixed := [traces[i][0]] + rest;
      assert mixed[0] == traces[i][0] && mixed[1..] == rest;
    } else {
      mixed := [];
    }
  }

  /** Leaves made with the same CID are the same leaf. */
  ghost predicate Consistent(leaves: set<Leaf>) {
    forall l, k :: l in leaves && k in leaves && l.hash == k.hash ==> l == k
  }

  /** In some trace of the list. */
  ghost predicate InSome(traces: seq<seq<Leaf>>, l: Leaf) {
    exists i :: 0 <= i < |traces| && l in traces[i]
  }

  lemma {:induction false} InterleavesMembers(traces: seq<seq<Leaf>>, trace: seq<Leaf>, l: Leaf)
    requires Interleaves(traces, trace)
    ensures l in trace <==> InSome(traces, l)
    decreases |trace|
  {
    if trace != [] {
      var i :| && 0 <= i < |traces| && traces[i] != [] && traces[i][0] == trace[0]
               && Interleaves(traces[i := traces[i][1..]], trace[1..]);
      var rest := traces[i := traces[i][1..]];
      InterleavesMembers(rest, trace[1..], l);
      assert traces[i] == [traces[i][0]] + rest[i];
      assert trace == [trace[0]] + trace[1..];
      if InSome(rest, l) {
        var j :| 0 <= j < |rest| && l in rest[j];
        assert l in traces[j];
      }
      if InSome(traces, l) {
        var j :| 0 <= j < |traces| && l in traces[j];
        assert l == trace[0] || l in rest[j];
      }
    }
  }

  lemma {:induction false} AllAddedMembers(made: seq<Made>, l: Leaf)
    ensures l in AllAdded(made) <==> exists i :: 0 <= i < |made| && (l in made[i].added || l == made[i].leaf)
  {
    if made != [] {
      var n := |made| - 1;
      AllAddedMembers(made[..n], l);
      assert AllAdded(made) == AllAdded(made[..n]) + made[n].added + [made[n].leaf];
      if i :| 0 <= i < |made| && (l in made[i].added || l == made[i].leaf) {
        assert i < n ==> made[..n][i] == made[i];
      }
    }
  }

  lemma {:induction false} MadeAllAt(e: Suite, entries: seq<Entry>, i: nat)
    requires MadeAll(e, entries).Some? && i < |entries|
    ensures MadeOf(e, entries[i]) == Some(MadeAll(e, entries).value[i])
    decreases |entries|
  {
    var n := |entries| - 1;
    if i < n {
      MadeAllAt(e, entries[..n], i);
    }
  }

  lemma MembersMatch(traces: seq<seq<Leaf>>, mixed: seq<Leaf>, made: seq<Made>, l: Leaf)
    requires |traces| == |made| && (l in mixed <==> InSome(traces, l))
    requires forall i :: 0 <= i < |made| ==> (l in traces[i] <==> l in made[i].added)
    ensures l in mixed + OwnLeaves(made) <==> exists i :: 0 <= i < |made| && (l in made[i].added || l == made[i].leaf)
  {
    if l in OwnLeaves(made) {
      var i :| 0 <= i < |made| && OwnLeaves(made)[i] == l;
      assert l == made[i].leaf;
    }
    if i :| 0 <= i < |made| && l == made[i].leaf {
      assert OwnLeaves(made)[i] == l;
    }
    if InSome(traces, l) {
      var i :| 0 <= i < |traces| && l in traces[i];
      assert l in made[i].added;
    }
    if i :| 0 <= i < |made| && l in made[i].added {
      assert l in traces[i];
    }
  }

  // ----- Collecting results -----

  /** What a worker sends when it is done with an entry: the entry's position, and its own leaf or none. */
  datatype Arrived = Arrived(index: nat, leaf: Option<Leaf>)

  ghost predicate DistinctIndices(arrived: seq<Arrived>) {
    forall i, j :: 0 <= i < j < |arrived| ==> arrived[i].index != arrived[j].index
  }

  ghost predicate AllArrived(results: seq<Option<Leaf>>, arrived: seq<Arrived>) {
    && |arrived| == |results| && DistinctIndices(arrived)
    && forall a :: a in arrived ==> a.index < |results| && a.leaf == results[a.index]
  }

  /** The channel: the results come out in the order the workers finish, whatever it is. */
  method AwaitResults(results: seq<Option<Leaf>>) returns (arrived: seq<Arrived>)
    ensures AllArrived(results, arrived)
  {
    var running: set<nat> := {};
    for i := 0 to |results|
      invariant |running| == i && forall k: nat :: k in running <==> k < i
    {
      running := running + {i};
    }
    arrived := [];
    while running != {}
      invariant forall i :: i in running ==> i < |results|
      invariant |arrived| + |running| == |results| && DistinctIndices(arrived)
      invariant forall a :: a in arrived ==> a.index < |results| && a.index !in running && a.leaf == results[a.index]
      decreases running
    {
      var i :| i in running;
      running := running - {i};
      assert forall a :: a in arrived ==> a.index != i;
      arrived := arrived + [Arrived(i, results[i])];
    }
  }

  function InsertArrived(a: Arrived, s: seq<Arrived>): seq<Arrived> {
    if s == [] || a.index < s[0].index then [a] + s else [s[0]] + InsertArrived(a, s[1..])
  }

  /** `sort.Slice` by index. */
  function SortArrived(s: seq<Arrived>): seq<Arrived> {
    if s == [] then [] else InsertArrived(s[0], SortArrived(s[1..]))
  }

  ghost predicate Rising(s: seq<Arrived>) {
    forall i, j :: 0 <= i < j < |s| ==> s[i].index < s[j].index
  }

  lemma {:induction false} InsertRises(a: Arrived, s: seq<Arrived>)
    requires Rising(s) && forall x :: x in s ==> x.index != a.index
    ensures
      var t := InsertArrived(a, s);
      Rising(t) && |t| == |s| + 1 && forall x :: x in t <==> x == a || x in s
  {
    if s != [] && s[0].index < a.index {
      assert s == [s[0]] + s[1..];
      InsertRises(a, s[1..]);
      var rest := InsertArrived(a, s[1..]);
      assert forall i :: 0 <= i < |rest| ==> rest[i] in rest;
      assert forall x :: x in s[1..] ==> s[0].index < x.index;
    }
  }

  lemma {:induction false} SortRises(s: seq<Arrived>)
    requires DistinctIndices(s)
    ensures Rising(SortArrived(s)) && |SortArrived(s)| == |s| && forall x :: x in SortArrived(s) <==> x in s
  {
    if s != [] {
      assert s == [s[0]] + s[1..];
      SortRises(s[1..]);
      InsertRises(s[0], SortArrived(s[1..]));
    }
  }

  /** Whatever order the workers finish in, sorting puts each result in its entry's place. */
  lemma SortedResults(results: seq<Option<Leaf>>, arrived: seq<Arrived>)
    requires AllArrived(results, arrived)
    ensures
      var sorted := SortArrived(arrived);
      |sorted| == |results| && forall i :: 0 <= i < |results| ==> sorted[i] == Arrived(i, results[i])
  {
    SortRises(arrived);
    var sorted := SortArrived(arrived);
    assert forall i :: 0 <= i < |sorted| ==> sorted[i] in sorted;
    AllBelow(seq(|sorted|, i requires 0 <= i < |sorted| => sorted[i].index as int), |sorted|);
    forall i | 0 <= i < |results|
      ensures sorted[i] == Arrived(i, results[i])
    {
      assert (seq(|sorted|, i requires 0 <= i < |sorted| => sorted[i].index as int))[i] == i;
    }
  }

  // ----- Processing -----

  /** What the workers hand back for the entries: their own leaves, and the additions each one makes. */
  ghost predicate Worked(e: Suite, entries: seq<Entry>, results: seq<Option<Leaf>>, traces: seq<seq<Leaf>>) {
    && |results| <= |entries| && |traces| == |results|
    && forall i :: 0 <= i < |results| ==>
                     && (results[i].Some? <==> MadeOf(e, entries[i]).Some?)
                     && (results[i].Some? ==> MadeBy(MadeOf(e, entries[i]).value, results[i].value, traces[i]))
  }

  /** The entry's own leaf, and in some order and number the leaves it adds. */
  ghost predicate MadeBy(made: Made, leaf: Leaf, trace: seq<Leaf>) {
    leaf == made.leaf && forall l :: l in trace <==> l in made.added
  }

  lemma {:induction false} MadeAllIff(e: Suite, entries: seq<Entry>)
    ensures MadeAll(e, entries).Some? <==> forall i :: 0 <= i < |entries| ==> MadeOf(e, entries[i]).Some?
    decreases |entries|
  {
    hide MadeOf;
    if entries != [] {
      var n := |entries| - 1;
      MadeAllIff(e, entries[..n]);
      assert forall i :: 0 <= i < n ==> entries[..n][i] == entries[i];
    }
  }

  method ProcessFileParallel(e: Suite, name: Bytes, chunks: seq<Bytes>, extra: map<Bytes, Bytes>, cpus: nat)
    returns (leaf: Option<Leaf>, trace: seq<Leaf>)
    requires cpus > 0 && |chunks| <= MAX_LINKS
    ensures leaf.Some? <==> MadeFile(e, name, chunks, extra).Some?
    ensures leaf.Some? ==> leaf.value == MadeFile(e, name, chunks, extra).value.leaf
    ensures leaf.Some? ==> trace == MadeFile(e, name, chunks, extra).value.added
  {
    hide BuiltLeaf, Itoa;
    var links: seq<Hash>, singleChunk: Option<Bytes> := [], None;
    ghost var added := ChunkLeaves(e, chunks);
    var chunkCount := 0;
    trace := [];
    assert HashesOf([]) == [] && added[..0] == [];
    while chunkCount < |chunks|
      invariant chunkCount <= |chunks|
      invariant singleChunk == if chunkCount == 1 then Some(chunks[0]) else None
      invariant trace == if chunkCount <= 1 then [] else added[..chunkCount]
      invariant links == HashesOf(trace)
      decreases |chunks| - chunkCount
    {
      var chunk := chunks[chunkCount];
      chunkCount := chunkCount + 1;
      if chunkCount == 1 {
        singleChunk := Some(chunk);
      } else {
        if chunkCount == 2 {
          var first := ChunkOf(e, chunks, 0, cpus);
          links, trace, singleChunk := links + [first.hash], trace + [first], None;
        }
        var next := ChunkOf(e, chunks, chunkCount - 1, cpus);
        links, trace := links + [next.hash], trace + [next];
        assert added[..chunkCount] == added[..chunkCount - 1] + [added[chunkCount - 1]];
      }
    }
    assert added[..|chunks|] == added;
    leaf := BuildLeaf(e, name, FileLeaf, links, singleChunk, extra, cpus);
  }

  /** Applies the sorted results: each entry's leaf is linked and added; the first failure ends it. */
  method ApplyResults(e: Suite, entries: seq<Entry>, sorted: seq<Arrived>) returns (own: Option<seq<Leaf>>)
    requires |sorted| == |entries|
    requires forall i :: 0 <= i < |entries| ==> (sorted[i].leaf.Some? <==> MadeOf(e, entries[i]).Some?)
    requires forall i :: 0 <= i < |entries| ==>
                           (sorted[i].leaf.Some? ==> sorted[i].leaf.value == MadeOf(e, entries[i]).value.leaf)
    ensures own.Some? <==> MadeAll(e, entries).Some?
    ensures own.Some? ==> own.value == OwnLeaves(MadeAll(e, entries).value)
  {
    hide MadeOf;
    MadeAllIff(e, entries);
    var leaves: seq<Leaf> := [];
    for i := 0 to |sorted|
      invariant forall j :: 0 <= j < i ==> sorted[j].leaf.Some?
      invariant |leaves| == i && forall j :: 0 <= j < i ==> leaves[j] == sorted[j].leaf.value
    {
      if sorted[i].leaf == None {
        return None;
      }
      leaves := leaves + [sorted[i].leaf.value];
    }
    forall i | 0 <= i < |entries|
      ensures MadeOf(e, entries[i]) == Some(MadeAll(e, entries).value[i])
    {
      MadeAllAt(e, entries, i);
    }
    own := Some(leaves);
  }

  /** `processEntryParallel`: the entry's own leaf, or none when a leaf cannot be made, and the additions
      that reach the builder on the way, in an order that some schedule gives. */
  method ProcessEntryParallel(e: Suite, entry: Entry, cpus: nat) returns (leaf: Option<Leaf>, trace: seq<Leaf>)
    requires cpus > 0 && Narrow(entry)
    ensures leaf.Some? <==> MadeOf(e, entry).Some?
    ensures leaf.Some? ==> MadeBy(MadeOf(e, entry).value, leaf.value, trace)
    decreases entry, 1
  {
    hide BuiltLeaf, MadeFile, MadeAll, AllAdded, OwnLeaves, HashesOf, Interleaves, MadeBy;
    match entry {
      case FileEntry(name, chunks, extra) =>
        leaf, trace := ProcessFileParallel(e, name, chunks, extra, cpus);
        if leaf.Some? {
          MadeInOrder(MadeOf(e, entry).value);
        }
      case DirectoryEntry(name, entries, extra) =>
        var results, traces := Work(e, entry, cpus);
        var mixed := Interleave(traces);
        var arrived := AwaitResults(results);
        SortedResults(results, arrived);
        WorkedLeaves(e, entries, results, traces, SortArrived(arrived));
        var own := ApplyResults(e, entries, SortArrived(arrived));
        if own == None {
          return None, mixed;
        }
        trace := mixed + own.value;
        OwnSize(MadeAll(e, entries).value);
        leaf := BuildLeaf(e, name, DirectoryLeaf, HashesOf(own.value), None, extra, cpus);
        if leaf.Some? {
          RunMembers(e, entries, results, traces, mixed, leaf.value, MadeOf(e, entry).value);
        }
    }
  }

  lemma MadeInOrder(made: Made)
    ensures MadeBy(made, made.leaf, made.added)
  {
  }

  lemma OwnSize(made: seq<Made>)
    ensures |HashesOf(OwnLeaves(made))| == |made|
  {
  }

  lemma WorkedLeaves(e: Suite, entries: seq<Entry>, results: seq<Option<Leaf>>, traces: seq<seq<Leaf>>,
                     sorted: seq<Arrived>)
    requires Worked(e, entries, results, traces) && |sorted| == |results|
    requires forall i :: 0 <= i < |results| ==> sorted[i] == Arrived(i, results[i])
    ensures forall i :: 0 <= i < |sorted| ==> (sorted[i].leaf.Some? <==> MadeOf(e, entries[i]).Some?)
    ensures forall i :: 0 <= i < |sorted| ==>
                          (sorted[i].leaf.Some? ==> sorted[i].leaf.value == MadeOf(e, entries[i]).value.leaf)
  {
    hide MadeOf;
  }

  /** The workers of a directory process its entries. */
  method Work(e: Suite, entry: Entry, cpus: nat) returns (results: seq<Option<Leaf>>, traces: seq<seq<Leaf>>)
    requires cpus > 0 && Narrow(entry) && entry.DirectoryEntry?
    ensures Worked(e, entry.entries, results, traces) && |results| == |entry.entries|
    decreases entry, 0
  {
    hide MadeOf, MadeBy;
    var entries := entry.entries;
    results, traces := [], [];
    for i := 0 to |entries|
      invariant |results| == i && Worked(e, entries, results, traces)
    {
      var leaf, trace := ProcessEntryParallel(e, entries[i], cpus);
      results, traces := results + [leaf], traces + [trace];
    }
  }

  /** The additions of a directory on any schedule are those of sequential processing. */
  lemma RunMembers(e: Suite, entries: seq<Entry>, results: seq<Option<Leaf>>, traces: seq<seq<Leaf>>, mixed: seq<Leaf>,
                   leaf: Leaf, made: Made)
    requires MadeAll(e, entries).Some? && |results| == |entries| && Worked(e, entries, results, traces)
    requires Interleaves(traces, mixed)
    requires made == Made(leaf, AllAdded(MadeAll(e, entries).value))
    ensures MadeBy(made, leaf, mixed + OwnLeaves(MadeAll(e, entries).value))
  {
    hide MadeOf, MadeAll, AllAdded, Interleaves, OwnLeaves;
    var all := MadeAll(e, entries).value;
    forall l
      ensures l in mixed + OwnLeaves(all) <==> l in AllAdded(all)
    {
      InterleavesMembers(traces, mixed, l);
      AllAddedMembers(all, l);
      forall i | 0 <= i < |entries|
        ensures l in traces[i] <==> l in all[i].added
      {
        MadeAllAt(e, entries, i);
      }
      MembersMatch(traces, mixed, all, l);
    }
  }

  // ----- The builder -----

  /** The builder ends up with every added leaf under its hash. */
  lemma {:induction false} WithLeavesIs(added: seq<Leaf>, h: Hash)
    requires Consistent(Elements(added))
    ensures
      var leafs := WithLeaves(map[], added);
      && (h in leafs <==> exists l :: l in added && l.hash == h)
      && (h in leafs ==> leafs[h] in added && leafs[h].hash == h)
    decreases |added|
  {
    if added != [] {
      var n := |added| - 1;
      assert added == added[..n] + [added[n]];
      assert forall l :: l in Elements(added[..n]) ==> l in Elements(added);
      WithLeavesIs(added[..n], h);
      if h == added[n].hash {
        assert added[n] in added;
      }
    }
  }

  lemma SameLeaves(a: seq<Leaf>, b: seq<Leaf>)
    requires Consistent(Elements(a)) && Elements(a) == Elements(b)
    ensures WithLeaves(map[], a) == WithLeaves(map[], b)
  {
    hide WithLeaves;
    var m, n := WithLeaves(map[], a), WithLeaves(map[], b);
    assert forall l :: (l in a <==> l in Elements(a)) && (l in b <==> l in Elements(b));
    forall h
      ensures h in m <==> h in n
      ensures h in m ==> m[h] == n[h]
    {
      WithLeavesIs(a, h);
      WithLeavesIs(b, h);
    }
  }

  /** Adds leaves one at a time, each step under the lock, in the order the schedule gives. */
  method AddScheduled(e: Suite, b: DagBuilder, schedule: seq<Leaf>)
    requires b.stats == ExactStats(e, b.leafs)
    modifies b
    ensures b.leafs == WithLeaves(old(b.leafs), schedule) && b.stats == ExactStats(e, b.leafs)
  {
    hide ExactStats, WithLeaf;
    assert schedule[..0] == [];
    for i := 0 to |schedule|
      invariant b.leafs == WithLeaves(old(b.leafs), schedule[..i]) && b.stats == ExactStats(e, b.leafs)
    {
      assert schedule[..i + 1][..i] == schedule[..i];
      b.AddLeaf(e, schedule[i]);
    }
    assert schedule[..|schedule|] == schedule;
  }

  /** A root directory of at most one entry gets a root leaf at once; a root made of that is the root made
      of the plain leaf. */
  lemma RootTwice(e: Suite, leaf: Leaf, stats: Stats, stats': Stats, extra: map<Bytes, Bytes>,
                  extra': map<Bytes, Bytes>)
    requires |leaf.links| <= 1
    ensures RootOf(e, leaf, stats, extra).Some?
    ensures RootOf(e, RootOf(e, leaf, stats, extra).value, stats', extra') == RootOf(e, leaf, stats', extra')
  {
    hide TreeRoot, LinksRoot;
    assert SortLinks(leaf.links) == leaf.links;
  }

  /** The parallel build of a file tree, on any schedule of any number of workers: it fails exactly when the
      sequential build does, and otherwise gives the same leaves, totals and root. */
  method CreateDagParallel(e: Suite, entry: Entry, extra: map<Bytes, Bytes>, cpus: nat) returns (d: Option<Dag>)
    requires cpus > 0 && Narrow(entry)
    requires MadeOf(e, entry).Some? ==> Consistent(Elements(MadeOf(e, entry).value.added))
    ensures d.Some? <==> DagOf(e, entry, extra).Some?
    ensures d.Some? ==> fresh(d.value) && d.value.View() == DagOf(e, entry, extra).value
  {
    hide MadeOf, WithLeaves, ExactStats, RootOf, Consistent;
    var leaf, trace := ProcessEntryParallel(e, entry, cpus);
    if leaf == None {
      return None;
    }
    var b := new DagBuilder(e);
    AddScheduled(e, b, trace);
    assert Elements(trace) == Elements(MadeOf(e, entry).value.added);
    SameLeaves(trace, MadeOf(e, entry).value.added);
    MadeNarrow(e, entry);
    var top := leaf;
    if entry.DirectoryEntry? && |entry.entries| <= 1 {
      FewLeafLinks(e, entry);
      top := BuildRootLeaf(e, leaf.value, b.stats, extra, cpus);
      RootTwice(e, leaf.value, b.stats, b.stats, extra, extra);
      RootNarrow(e, leaf.value, b.stats, extra);
    }
    var root := BuildRootLeaf(e, top.value, b.stats, extra, cpus);
    if root == None {
      return None;
    }
    b.leafs := b.leafs[root.value.hash := root.value];
    var dag := new Dag(root.value.hash, b.leafs);
    d := Some(dag);
  }

  lemma FewLeafLinks(e: Suite, entry: Entry)
    requires MadeOf(e, entry).Some? && entry.DirectoryEntry? && |entry.entries| <= 1
    ensures |MadeOf(e, entry).value.leaf.links| <= 1
  {
    hide TreeRoot, LinksRoot, SortLinks;
    SortLinksSize(HashesOf(OwnLeaves(MadeAll(e, entry.entries).value)));
  }

  lemma RootNarrow(e: Suite, leaf: Leaf, stats: Stats, extra: map<Bytes, Bytes>)
    requires RootOf(e, leaf, stats, extra).Some? && |leaf.links| <= 1
    ensures |RootOf(e, leaf, stats, extra).value.links| <= 1
  {
    hide TreeRoot, LinksRoot, SortLinks;
    SortLinksSize(leaf.links);
  }
}
