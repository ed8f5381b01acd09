/** What is built from a file tree is a well-formed DAG. */
module BuildLaws {
  import opened ByteStrings
  import opened DagModel
  import opened DagVerify
  import opened Decimal
  import opened Builder
  import opened ParallelBuild
  import Sums

  // ----- Made leaves are sound -----

  lemma {:induction false} InsertLinkElements(h: Hash, links: seq<Hash>, x: Hash)
    ensures x in InsertLink(h, links) <==> x == h || x in links
  {
    if links != [] && Less(links[0], h) {
      InsertLinkElements(h, links[1..], x);
    }
  }

  lemma {:induction false} SortLinksElements(links: seq<Hash>, x: Hash)
    ensures x in SortLinks(links) <==> x in links
  {
    if links != [] {
      SortLinksElements(links[1..], x);
      InsertLinkElements(links[0], SortLinks(links[1..]), x);
    }
  }

  /** Storing a directory's links in order changes neither the set nor the root they are committed by. */
  lemma StoredLinksSame(e: Suite, kind: LeafType, links: seq<Hash>)
    requires Distinct(links)
    ensures
      var stored := StoredLinks(kind, links);
      && Distinct(stored) && |stored| == |links| && Elements(stored) == Elements(links)
      && TreeRoot(e, stored) == TreeRoot(e, links) && LinksRoot(e, stored) == LinksRoot(e, links)
  {
    hide SortLinks, SortedKeys;
    if kind == DirectoryLeaf {
      var stored := SortLinks(links);
      SortLinksSize(links);
      forall x
        ensures x in stored <==> x in links
      {
        SortLinksElements(links, x);
      }
      assert Elements(stored) == Elements(links);
      DistinctCardinality(links);
      DistinctByCount(stored);
      LessStrictOrder();
      SortedKeysOfSameSet(Less, stored, links);
      if |links| == 1 {
        assert stored[0] in stored && links == [links[0]];
      }
    }
  }

  ghost predicate SoundMade(e: Suite, l: Leaf) {
    LeafOk(e, l) && LinksCommitted(e, l) && l.leafCount == 0 && l.proofs == map[]
  }

  lemma BuiltLeafSound(e: Suite, name: Bytes, kind: LeafType, links: seq<Hash>, data: Option<Bytes>,
                       extra: map<Bytes, Bytes>)
    requires Distinct(links) && |links| <= MAX_LINKS && BuiltLeaf(e, name, kind, links, data, extra).Some?
    ensures
      var l := BuiltLeaf(e, name, kind, links, data, extra).value;
      SoundMade(e, l) && Elements(l.links) == Elements(links) && l.itemName == name
  {
    hide TreeRoot, LinksRoot, SortLinks, StoredLinks;
    StoredLinksSame(e, kind, links);
  }

  // ----- The shape of what is added -----

  ghost function Hashes(s: seq<Leaf>): set<Hash> {
    set l | l in s :: l.hash
  }

  /** Each leaf links only leaves known or added before it. */
  ghost predicate ClosedAfter(known: set<Hash>, s: seq<Leaf>)
    decreases |s|
  {
    s != [] ==>
      var n := |s| - 1;
      ClosedAfter(known, s[..n]) && Elements(s[n].links) <= known + Hashes(s[..n])
  }

  /** Each leaf is linked by one added after it, or its hash is among the top ones. */
  ghost predicate LinkedLater(s: seq<Leaf>, top: set<Hash>)
    decreases |s|
  {
    s != [] ==>
      && (s[0].hash in top || exists l :: l in s[1..] && s[0].hash in l.links)
      && LinkedLater(s[1..], top)
  }

  lemma HashesConcat(a: seq<Leaf>, b: seq<Leaf>)
    ensures Hashes(a + b) == Hashes(a) + Hashes(b)
  {
    forall h | h in Hashes(a) + Hashes(b)
      ensures h in Hashes(a + b)
    {
      if h in Hashes(a) {
        var l :| l in a && l.hash == h;
        assert l in a + b;
      } else {
        var l :| l in b && l.hash == h;
        assert l in a + b;
      }
    }
  }

  lemma {:induction false} ClosedMore(known: set<Hash>, more: set<Hash>, s: seq<Leaf>)
    requires ClosedAfter(known, s) && known <= more
    ensures ClosedAfter(more, s)
    decreases |s|
  {
    hide Hashes;
    if s != [] {
      ClosedMore(known, more, s[..|s| - 1]);
    }
  }

  lemma {:induction false} ClosedConcat(known: set<Hash>, a: seq<Leaf>, b: seq<Leaf>)
    requires ClosedAfter(known, a) && ClosedAfter(known + Hashes(a), b)
    ensures ClosedAfter(known, a + b)
    decreases |b|
  {
    hide Hashes;
    if b == [] {
      assert a + b == a;
    } else {
      var n := |b| - 1;
      assert (a + b)[..|a| + n] == a + b[..n];
      ClosedConcat(known, a, b[..n]);
      HashesConcat(a, b[..n]);
    }
  }

  lemma {:induction false} LinkedConcat(a: seq<Leaf>, b: seq<Leaf>, inner: set<Hash>, top: set<Hash>)
    requires LinkedLater(a, inner) && LinkedLater(b, top)
    requires forall h :: h in inner ==> h in top || exists l :: l in b && h in l.links
    ensures LinkedLater(a + b, top)
    decreases |a|
  {
    if a == [] {
      assert a + b == b;
    } else {
      LinkedConcat(a[1..], b, inner, top);
      assert (a + b)[1..] == a[1..] + b;
      if l :| l in a[1..] && a[0].hash in l.links {
        assert l in (a + b)[1..];
      } else {
        assert a[0].hash in inner;
        if a[0].hash !in top {
          var l :| l in b && a[0].hash in l.links;
          assert l in (a + b)[1..];
        }
      }
    }
  }

  /** What an entry's processing adds: sound leaves, children before parents, each linked by a later
      one or by the entry's own leaf. */
  ghost predicate Shaped(e: Suite, m: Made) {
    && (forall l :: l in m.added ==> SoundMade(e, l)) && SoundMade(e, m.leaf)
    && ClosedAfter({}, m.added) && Elements(m.leaf.links) <= Hashes(m.added)
    && LinkedLater(m.added, Elements(m.leaf.links))
  }

  /** Siblings have different names. */
  ghost predicate DistinctNames(entry: Entry)
    decreases entry
  {
    match entry
    case FileEntry(_, _, _) => true
    case DirectoryEntry(_, entries, _) =>
      && (forall i, j :: 0 <= i < j < |entries| ==> entries[i].name != entries[j].name)
      && AllDistinctNames(entries)
  }

  ghost predicate AllDistinctNames(entries: seq<Entry>)
    decreases entries
  {
    forall i :: 0 <= i < |entries| ==> DistinctNames(entries[i])
  }

  lemma MadeName(e: Suite, entry: Entry)
    requires MadeOf(e, entry).Some?
    ensures MadeOf(e, entry).value.leaf.itemName == entry.name
  {
    hide TreeRoot, LinksRoot, SortLinks, MadeAll;
  }

  /** Different names, different hashes, when no two leaves made share a CID. */
  lemma DistinctByName(leaves: seq<Leaf>, all: set<Leaf>)
    requires Consistent(all) && forall i :: 0 <= i < |leaves| ==> leaves[i] in all
    requires forall i, j :: 0 <= i < j < |leaves| ==> leaves[i].itemName != leaves[j].itemName
    ensures Distinct(HashesOf(leaves))
  {
  }

  lemma HashesOfElements(leaves: seq<Leaf>)
    ensures Elements(HashesOf(leaves)) == Hashes(leaves)
  {
    forall h | h in Hashes(leaves)
      ensures h in HashesOf(leaves)
    {
      var l :| l in leaves && l.hash == h;
      var i :| 0 <= i < |leaves| && leaves[i] == l;
      assert HashesOf(leaves)[i] == h;
    }
  }

  lemma ChunkSound(e: Suite, chunks: seq<Bytes>, i: nat)
    requires i < |chunks|
    ensures
      var l := ChunkLeafOf(e, chunks, i);
      SoundMade(e, l) && l.links == [] && l.itemName == Itoa(i) && l.content == Some(chunks[i])
  {
    hide Itoa, TreeRoot;
    BuiltLeafSound(e, Itoa(i), ChunkLeaf, [], Some(chunks[i]), map[]);
  }

  lemma {:induction false} ChunksShape(e: Suite, chunks: seq<Bytes>, n: nat, top: set<Hash>)
    requires n <= |chunks| && Hashes(ChunkLeaves(e, chunks)) <= top
    ensures ClosedAfter({}, ChunkLeaves(e, chunks)[..n])
    ensures LinkedLater(ChunkLeaves(e, chunks)[|chunks| - n..], top)
  {
    hide ChunkLeafOf;
    var leaves := ChunkLeaves(e, chunks);
    if n > 0 {
      ChunksShape(e, chunks, n - 1, top);
      assert leaves[..n][..n - 1] == leaves[..n - 1];
      ChunkSound(e, chunks, n - 1);
      var k := |chunks| - n;
      assert leaves[k..][1..] == leaves[k + 1..];
      assert leaves[k] in leaves && leaves[k].hash in Hashes(leaves);
    }
  }

  lemma FileShape(e: Suite, name: Bytes, chunks: seq<Bytes>, extra: map<Bytes, Bytes>, all: set<Leaf>)
    requires MadeFile(e, name, chunks, extra).Some? && |chunks| <= MAX_LINKS
    requires Consistent(all) && forall l :: l in MadeFile(e, name, chunks, extra).value.added ==> l in all
    ensures Shaped(e, MadeFile(e, name, chunks, extra).value)
  {
    hide BuiltLeaf, ChunkLeafOf, SoundMade, Itoa;
    if |chunks| <= 1 {
      BuiltLeafSound(e, name, FileLeaf, [], if |chunks| == 1 then Some(chunks[0]) else None, extra);
    } else {
      var added := ChunkLeaves(e, chunks);
      forall i | 0 <= i < |added|
        ensures SoundMade(e, added[i]) && added[i].itemName == Itoa(i) && added[i] in all
      {
        ChunkSound(e, chunks, i);
        assert added[i] in added;
      }
      forall i, j | 0 <= i < j < |added|
        ensures added[i].itemName != added[j].itemName
      {
        if Itoa(i) == Itoa(j) {
          ItoaInjective(i, j);
        }
      }
      DistinctByName(added, all);
      BuiltLeafSound(e, name, FileLeaf, HashesOf(added), None, extra);
      HashesOfElements(added);
      ChunksShape(e, chunks, |chunks|, Hashes(added));
      assert added[..|chunks|] == added && added[0..] == added;
    }
  }

  // ----- Directories -----

  ghost predicate AllShaped(e: Suite, made: seq<Made>) {
    forall i :: 0 <= i < |made| ==> Shaped(e, made[i])
  }

  lemma {:induction false} AllAddedShape(e: Suite, made: seq<Made>, top: set<Hash>)
    requires AllShaped(e, made) && forall i :: 0 <= i < |made| ==> made[i].leaf.hash in top
    ensures ClosedAfter({}, AllAdded(made)) && LinkedLater(AllAdded(made), top)
  {
    hide SoundMade, Hashes, ClosedAfter, LinkedLater;
    if made == [] {
      NothingAdded(top);
    } else {
      var n := |made| - 1;
      var before, m := AllAdded(made[..n]), made[n];
      assert forall i :: 0 <= i < n ==> made[..n][i] == made[i];
      AllAddedShape(e, made[..n], top);
      assert Shaped(e, m);
      OwnLast(m, top);
      LinkedConcat(m.added, [m.leaf], Elements(m.leaf.links), top);
      ClosedConcat({}, m.added, [m.leaf]);
      var block := m.added + [m.leaf];
      ClosedMore({}, {} + Hashes(before), block);
      ClosedConcat({}, before, block);
      LinkedConcat(before, block, top, top);
      assert before + block == before + m.added + [m.leaf];
    }
  }

  lemma NothingAdded(top: set<Hash>)
    ensures ClosedAfter({}, AllAdded([])) && LinkedLater(AllAdded([]), top)
  {
  }

  /** The entry's own leaf after all that it links. */
  lemma OwnLast(m: Made, top: set<Hash>)
    requires m.leaf.hash in top && Elements(m.leaf.links) <= Hashes(m.added)
    ensures LinkedLater([m.leaf], top) && ClosedAfter({} + Hashes(m.added), [m.leaf])
    ensures forall h :: h in Elements(m.leaf.links) ==> m.leaf in [m.leaf] && h in m.leaf.links
  {
    assert [m.leaf][..0] == [] && [m.leaf][1..] == [];
  }

  lemma {:induction false} MadeShape(e: Suite, entry: Entry, all: set<Leaf>)
    requires MadeOf(e, entry).Some? && Narrow(entry) && DistinctNames(entry)
    requires Consistent(all) && forall l :: l in MadeOf(e, entry).value.added ==> l in all
    ensures Shaped(e, MadeOf(e, entry).value)
    decreases entry
  {
    hide BuiltLeaf, MadeFile, AllAdded, Shaped, OwnLeaves, Consistent;
    match entry {
      case FileEntry(name, chunks, extra) =>
        FileShape(e, name, chunks, extra, all);
      case DirectoryEntry(name, entries, extra) =>
        var made := MadeAll(e, entries).value;
        forall i | 0 <= i < |made|
          ensures Shaped(e, made[i]) && made[i].leaf in all && made[i].leaf.itemName == entries[i].name
        {
          MadeAllAt(e, entries, i);
          forall l | l in made[i].added || l == made[i].leaf
            ensures l in all
          {
            AllAddedMembers(made, l);
          }
          MadeShape(e, entries[i], all);
          MadeName(e, entries[i]);
        }
        DirectoryShape(e, name, made, extra, all);
    }
  }

  lemma DirectoryShape(e: Suite, name: Bytes, made: seq<Made>, extra: map<Bytes, Bytes>, all: set<Leaf>)
    requires Consistent(all) && |made| <= MAX_LINKS && AllShaped(e, made)
    requires forall i :: 0 <= i < |made| ==> made[i].leaf in all
    requires forall i, j :: 0 <= i < j < |made| ==> made[i].leaf.itemName != made[j].leaf.itemName
    requires BuiltLeaf(e, name, DirectoryLeaf, HashesOf(OwnLeaves(made)), None, extra).Some?
    ensures Shaped(e,
              Made(BuiltLeaf(e, name, DirectoryLeaf, HashesOf(OwnLeaves(made)), None, extra).value, AllAdded(made)))
  {
    hide BuiltLeaf, SoundMade, AllAdded, ClosedAfter, LinkedLater;
    var own := OwnLeaves(made);
    OwnDistinct(made, all);
    BuiltLeafSound(e, name, DirectoryLeaf, HashesOf(own), None, extra);
    HashesOfElements(own);
    AllAddedSound(e, made);
    AllAddedShape(e, made, Hashes(own));
  }

  lemma OwnDistinct(made: seq<Made>, all: set<Leaf>)
    requires Consistent(all) && forall i :: 0 <= i < |made| ==> made[i].leaf in all
    requires forall i, j :: 0 <= i < j < |made| ==> made[i].leaf.itemName != made[j].leaf.itemName
    ensures Distinct(HashesOf(OwnLeaves(made)))
  {
    DistinctByName(OwnLeaves(made), all);
  }

  lemma AllAddedSound(e: Suite, made: seq<Made>)
    requires AllShaped(e, made)
    ensures forall l :: l in AllAdded(made) ==> SoundMade(e, l)
    ensures Hashes(OwnLeaves(made)) <= Hashes(AllAdded(made))
    ensures forall i :: 0 <= i < |made| ==> made[i].leaf.hash in Hashes(OwnLeaves(made))
  {
    hide SoundMade, AllAdded, ClosedAfter, LinkedLater;
    var own := OwnLeaves(made);
    forall l | l in AllAdded(made)
      ensures SoundMade(e, l)
    {
      AllAddedMembers(made, l);
      var i :| 0 <= i < |made| && (l in made[i].added || l == made[i].leaf);
      assert Shaped(e, made[i]);
    }
    forall i | 0 <= i < |made|
      ensures made[i].leaf.hash in Hashes(own)
    {
      assert own[i] in own;
    }
    forall h | h in Hashes(own)
      ensures h in Hashes(AllAdded(made))
    {
      var l :| l in own && l.hash == h;
      var i :| 0 <= i < |own| && own[i] == l;
      AllAddedMembers(made, made[i].leaf);
    }
  }

  // ----- The built DAG -----

  /** A rank of what is stored: every link leads to a leaf stored earlier. */
  ghost predicate Layered(leafs: map<Hash, Leaf>, first: map<Hash, nat>, n: nat) {
    && first.Keys == leafs.Keys && (forall h :: h in first ==> first[h] < n)
    && forall h, c :: h in leafs && c in leafs[h].links ==> c in first && first[c] < first[h]
  }

  lemma LayerNext(leafs: map<Hash, Leaf>, first: map<Hash, nat>, n: nat, l: Leaf)
    requires Layered(leafs, first, n) && Elements(l.links) <= leafs.Keys
    ensures Layered(WithLeaf(leafs, l), if l.hash in leafs then first else first[l.hash := n], n + 1)
  {
    assert forall c :: c in l.links ==> c in Elements(l.links);
  }

  /** Where each hash was first added. */
  lemma {:induction false} FirstAdded(s: seq<Leaf>) returns (first: map<Hash, nat>)
    requires ClosedAfter({}, s)
    ensures WithLeaves(map[], s).Keys == Hashes(s) && Layered(WithLeaves(map[], s), first, |s|)
    decreases |s|
  {
    hide Layered, Hashes;
    if s == [] {
      first := map[];
      NoLayers(s);
    } else {
      var n := |s| - 1;
      var before := FirstAdded(s[..n]);
      var leafs := WithLeaves(map[], s[..n]);
      assert s == s[..n] + [s[n]];
      HashesConcat(s[..n], [s[n]]);
      OneHash(s[n]);
      LayerNext(leafs, before, n, s[n]);
      first := if s[n].hash in leafs then before else before[s[n].hash := n];
    }
  }

  lemma NoLayers(s: seq<Leaf>)
    requires s == []
    ensures Layered(map[], map[], 0) && Hashes(s) == {}
  {
  }

  lemma OneHash(l: Leaf)
    ensures Hashes([l]) == {l.hash}
  {
    assert [l][0] in [l];
  }

  lemma {:induction false} SuffixReachable(leafs: map<Hash, Leaf>, root: Hash, s: seq<Leaf>, top: set<Hash>)
    requires LinkedLater(s, top) && (forall l :: l in s ==> l.hash in leafs && leafs[l.hash] == l)
    requires forall h :: h in top ==> Reachable(leafs, root, h)
    ensures forall l :: l in s ==> Reachable(leafs, root, l.hash)
    decreases |s|
  {
    hide Reachable;
    if s != [] {
      assert forall l :: l in s[1..] ==> l in s;
      SuffixReachable(leafs, root, s[1..], top);
      if s[0].hash !in top {
        var l :| l in s[1..] && s[0].hash in l.links;
        ReachableStep(leafs, root, l.hash, s[0].hash);
      }
      assert forall l :: l in s ==> l == s[0] || l in s[1..];
    }
  }

  /** The root is sound, links what the entry's leaf links, and passes `VerifyRootLeaf` with the totals
      of the leaves it is added to. */
  lemma BuiltRootOk(e: Suite, leaf: Leaf, leafs: map<Hash, Leaf>, extra: map<Bytes, Bytes>)
    requires RootOf(e, leaf, ExactStats(e, leafs), extra).Some? && Distinct(leaf.links) && |leaf.links| <= MAX_LINKS
    requires RootOf(e, leaf, ExactStats(e, leafs), extra).value.hash !in leafs
    ensures
      var root := RootOf(e, leaf, ExactStats(e, leafs), extra).value;
      var all := leafs[root.hash := root];
      && LinksCommitted(e, root) && Elements(root.links) == Elements(leaf.links)
      && root.leafCount == |all| && RootOk(e, root, Some(all))
  {
    hide TreeRoot, LinksRoot, SortLinks, StoredLinks, TotalCounted, TotalContent, TotalSize, CanTotal;
    StoredLinksSame(e, leaf.kind, leaf.links);
    var stats := ExactStats(e, leafs);
    var root := RootOf(e, leaf, stats, extra).value;
    var all := leafs[root.hash := root];
    assert all.Keys == leafs.Keys + {root.hash};
    assert |all| == |all.Keys| && |leafs| == |leafs.Keys|;
    ContentNext(leafs, root);
    RestSize(e, leafs, root);
  }

  lemma RestSize(e: Suite, leafs: map<Hash, Leaf>, root: Leaf)
    requires root.hash !in leafs
    ensures TotalSize(e, leafs[root.hash := root], root.hash) == TotalCounted(e, leafs)
  {
    hide CountedSize;
    var all := leafs[root.hash := root];
    assert all.Keys - {root.hash} == leafs.Keys;
    Sums.SumCongruent(leafs.Keys, h => if h in all then CountedSize(e, all[h]) else 0,
                      h => if h in leafs then CountedSize(e, leafs[h]) else 0);
  }

  /** What the assumptions on hashing come to for one build: leaves with the same CID are the same, no
      CID is empty, and the root's is new. */
  ghost predicate ProperBuild(e: Suite, entry: Entry, extra: map<Bytes, Bytes>)
    requires DagOf(e, entry, extra).Some?
  {
    var added := MadeOf(e, entry).value.added;
    && Consistent(Elements(added)) && [] !in Hashes(added)
    && DagOf(e, entry, extra).value.root !in Hashes(added) + {[]}
  }

  /** What is built stores no proofs. */
  lemma CreatedStoresNoProofs(e: Suite, entry: Entry, extra: map<Bytes, Bytes>)
    requires Narrow(entry) && DistinctNames(entry) && DagOf(e, entry, extra).Some? && ProperBuild(e, entry, extra)
    ensures
      var leafs := DagOf(e, entry, extra).value.leafs;
      (forall h :: h in leafs ==> leafs[h].proofs == map[]) && ProofsSound(e, leafs)
  {
    hide DagOf, ProperBuild;
    var leafs := DagOf(e, entry, extra).value.leafs;
    forall h | h in leafs
      ensures leafs[h].proofs == map[]
    {
      MadeProofless(e, entry, extra, h);
    }
    StoresNoProofs(e, leafs);
  }

  lemma MadeProofless(e: Suite, entry: Entry, extra: map<Bytes, Bytes>, h: Hash)
    requires Narrow(entry) && DistinctNames(entry) && DagOf(e, entry, extra).Some? && ProperBuild(e, entry, extra)
    requires h in DagOf(e, entry, extra).value.leafs
    ensures DagOf(e, entry, extra).value.leafs[h].proofs == map[]
  {
    hide MadeOf, WithLeaves, LeafOk, LinksCommitted, ClosedAfter, LinkedLater, ExactStats, RootOf;
    var m := MadeOf(e, entry).value;
    var leafs := WithLeaves(map[], m.added);
    if h in leafs {
      MadeShape(e, entry, Elements(m.added));
      WithLeavesIs(m.added, h);
    }
    RootProofless(e, m.leaf, ExactStats(e, leafs), extra);
  }

  lemma RootProofless(e: Suite, leaf: Leaf, stats: Stats, extra: map<Bytes, Bytes>)
    requires RootOf(e, leaf, stats, extra).Some?
    ensures RootOf(e, leaf, stats, extra).value.proofs == map[]
  {
    hide LinksRoot, TreeRoot, StoredLinks;
  }

  lemma StoresNoProofs(e: Suite, leafs: map<Hash, Leaf>)
    requires forall h :: h in leafs ==> leafs[h].proofs == map[]
    ensures ProofsSound(e, leafs)
  {
  }

  /** Building a DAG from any file tree gives a well-formed DAG. */
  lemma CreatedIsWellFormed(e: Suite, entry: Entry, extra: map<Bytes, Bytes>)
    requires Narrow(entry) && DistinctNames(entry) && DagOf(e, entry, extra).Some? && ProperBuild(e, entry, extra)
    ensures WellFormed(e, DagOf(e, entry, extra).value)
  {
    hide MadeOf, WithLeaves, RootOf, SoundMade, LinksCommitted, Reachable, ClosedAfter, LinkedLater, ExactStats,
         RootOk, LeafOk;
    var m := MadeOf(e, entry).value;
    MadeShape(e, entry, Elements(m.added));
    var first := FirstAdded(m.added);
    var leafs := WithLeaves(map[], m.added);
    var root := RootOf(e, m.leaf, ExactStats(e, leafs), extra).value;
    assert Distinct(m.leaf.links) && |m.leaf.links| <= MAX_LINKS by { SoundLinks(e, m.leaf); }
    BuiltRootOk(e, m.leaf, leafs, extra);
    AddedStored(m.added);
    BuiltWellFormed(e, m, leafs, root, first);
  }

  lemma SoundLinks(e: Suite, l: Leaf)
    requires SoundMade(e, l)
    ensures Distinct(l.links) && |l.links| <= MAX_LINKS && LinksCommitted(e, l) && LeafOk(e, l) && l.leafCount == 0
  {
  }

  lemma AddedStored(added: seq<Leaf>)
    requires Consistent(Elements(added))
    ensures
      var leafs := WithLeaves(map[], added);
      && (forall l :: l in added ==> l.hash in leafs && leafs[l.hash] == l)
      && (forall h :: h in leafs ==> leafs[h] in added && leafs[h].hash == h)
  {
    hide WithLeaves;
    var leafs := WithLeaves(map[], added);
    forall h | h in leafs
      ensures leafs[h] in added && leafs[h].hash == h
    {
      WithLeavesIs(added, h);
    }
    forall l | l in added
      ensures l.hash in leafs && leafs[l.hash] == l
    {
      WithLeavesIs(added, l.hash);
      assert leafs[l.hash] in Elements(added) && l in Elements(added);
    }
  }

  lemma BuiltWellFormed(e: Suite, m: Made, leafs: map<Hash, Leaf>, root: Leaf, first: map<Hash, nat>)
    requires Shaped(e, m) && leafs == WithLeaves(map[], m.added) && root.hash !in leafs && root.hash != []
             && [] !in leafs
    requires forall l :: l in m.added ==> l.hash in leafs && leafs[l.hash] == l
    requires forall h :: h in leafs ==> leafs[h] in m.added && leafs[h].hash == h
    requires leafs.Keys == Hashes(m.added) && Layered(leafs, first, |m.added|)
    requires LinksCommitted(e, root) && Elements(root.links) == Elements(m.leaf.links)
    requires root.leafCount == |leafs[root.hash := root]| && RootOk(e, root, Some(leafs[root.hash := root]))
    ensures WellFormed(e, Graph(root.hash, leafs[root.hash := root]))
  {
    hide SoundMade, LinksCommitted, Reachable, ClosedAfter, LinkedLater, RootOk, LeafOk, WithLeaves, Acyclic, Layered,
         Hashes;
    var all := leafs[root.hash := root];
    BuiltLinks(leafs, root, m.leaf, first, |m.added|);
    forall h | h in leafs
      ensures LinksCommitted(e, leafs[h]) && LeafOk(e, leafs[h]) && leafs[h].leafCount == 0
    {
      SoundLinks(e, leafs[h]);
    }
    BuiltReachable(m, leafs, root);
  }

  lemma BuiltLinks(leafs: map<Hash, Leaf>, root: Leaf, leaf: Leaf, first: map<Hash, nat>, n: nat)
    requires Layered(leafs, first, n) && root.hash !in leafs
    requires Elements(root.links) == Elements(leaf.links) <= leafs.Keys
    ensures
      var all := leafs[root.hash := root];
      Acyclic(all) && forall h, c :: h in all && c in all[h].links ==> c in leafs
  {
    var all := leafs[root.hash := root];
    var rank: map<Hash, nat> := map h | h in all :: if h == root.hash then 0 else (n - first[h]) as nat;
    assert forall c :: c in root.links ==> c in Elements(root.links);
    assert Ranked(all, rank);
  }

  lemma BuiltReachable(m: Made, leafs: map<Hash, Leaf>, root: Leaf)
    requires root.hash !in leafs && Elements(root.links) == Elements(m.leaf.links)
    requires LinkedLater(m.added, Elements(m.leaf.links))
    requires forall l :: l in m.added ==> l.hash in leafs && leafs[l.hash] == l
    requires forall h :: h in leafs ==> leafs[h] in m.added && leafs[h].hash == h
    ensures
      var all := leafs[root.hash := root];
      forall h :: h in all ==> Reachable(all, root.hash, h)
  {
    hide Reachable, LinkedLater;
    var all := leafs[root.hash := root];
    ReachableRoot(all, root.hash);
    forall h | h in Elements(m.leaf.links)
      ensures Reachable(all, root.hash, h)
    {
      assert h in Elements(root.links);
      ReachableStep(all, root.hash, root.hash, h);
    }
    SuffixReachable(all, root.hash, m.added, Elements(m.leaf.links));
  }

  lemma ReachableRoot(leafs: map<Hash, Leaf>, root: Hash)
    ensures Reachable(leafs, root, root)
  {
  }
}
