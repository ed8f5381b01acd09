/** A built DAG reads back as the file tree it was built from: names, kinds, additional data and bytes. */
module ReadBack {
  import opened ByteStrings
  import opened DagModel
  import opened Decimal
  import opened Builder
  import opened ParallelBuild
  import opened BuildLaws

  /** A leaf for the i-th chunk of a file. */
  predicate IsChunkOf(l: Leaf, chunks: seq<Bytes>, i: nat)
    requires i < |chunks|
  {
    && l.itemName == Itoa(i) && l.kind == ChunkLeaf && l.content == Some(chunks[i]) && l.links == []
    && l.additionalData == map[]
  }

  /** The leaf shows the file's bytes: itself when there is at most one chunk, by its links otherwise. */
  ghost predicate ShowsBytes(leafs: map<Hash, Leaf>, l: Leaf, chunks: seq<Bytes>) {
    if |chunks| <= 1 then
      l.links == [] && l.content == if |chunks| == 1 then Some(chunks[0]) else None
    else
      && l.content == None && |l.links| == |chunks|
      && forall i :: 0 <= i < |chunks| ==> l.links[i] in leafs && IsChunkOf(leafs[l.links[i]], chunks, i)
  }

  function KindOf(entry: Entry): LeafType {
    if entry.DirectoryEntry? then DirectoryLeaf else FileLeaf
  }

  ghost predicate InOrder(links: seq<Hash>) {
    forall i, j :: 0 <= i < j < |links| ==> !Less(links[j], links[i])
  }

  /** The leaf shows the entry, with the given additional data: its name and kind, a file's bytes, and a
      directory's entries, each by one of its links, which are in ascending order. */
  ghost predicate Shows(leafs: map<Hash, Leaf>, l: Leaf, entry: Entry, extra: map<Bytes, Bytes>)
    decreases entry, 1
  {
    && l.itemName == entry.name && l.kind == KindOf(entry) && l.additionalData == extra
    && match entry
       case FileEntry(_, chunks, _) => ShowsBytes(leafs, l, chunks)
       case DirectoryEntry(_, entries, _) =>
         l.content == None && InOrder(l.links) && exists hashes: seq<Hash> :: ShowEntries(leafs, l, entry, hashes)
  }

  /** The links, taken in some order, lead to the entries one by one. */
  ghost predicate ShowEntries(leafs: map<Hash, Leaf>, l: Leaf, entry: Entry, hashes: seq<Hash>)
    requires entry.DirectoryEntry?
    decreases entry, 0
  {
    && multiset(hashes) == multiset(l.links) && |hashes| == |entry.entries|
    && forall i :: 0 <= i < |entry.entries| ==>
                     hashes[i] in leafs && Shows(leafs, leafs[hashes[i]], entry.entries[i], entry.entries[i].extra)
  }

  // ----- Reading a directory -----

  lemma {:induction false} MultisetIndex<T>(s: seq<T>, x: T)
    ensures multiset(s)[x] > 0 <==> x in s
  {
    if s != [] {
      assert s == [s[0]] + s[1..];
      MultisetIndex(s[1..], x);
    }
  }

  /** Following the links of a directory whose entries have different names finds exactly one leaf of each
      entry's name, and that leaf shows the entry; and every link leads to one of the entries. */
  lemma DirectoryFinds(leafs: map<Hash, Leaf>, l: Leaf, entry: Entry, extra: map<Bytes, Bytes>, i: nat)
    returns (h: Hash)
    requires entry.DirectoryEntry? && Shows(leafs, l, entry, extra) && DistinctNames(entry) && i < |entry.entries|
    ensures |l.links| == |entry.entries| && Distinct(l.links)
    ensures h in l.links && h in leafs && leafs[h].itemName == entry.entries[i].name
    ensures Shows(leafs, leafs[h], entry.entries[i], entry.entries[i].extra)
    ensures forall k :: k in l.links && k in leafs && leafs[k].itemName == entry.entries[i].name ==> k == h
    ensures forall k :: k in l.links ==>
                          && k in leafs
                          && exists j :: 0 <= j < |entry.entries| && leafs[k].itemName == entry.entries[j].name
  {
    var entries := entry.entries;
    var hashes :| ShowEntries(leafs, l, entry, hashes);
    h := hashes[i];
    forall j | 0 <= j < |entries|
      ensures hashes[j] in leafs && leafs[hashes[j]].itemName == entries[j].name
    {
      assert Shows(leafs, leafs[hashes[j]], entries[j], entries[j].extra);
    }
    hide Shows;
    NamesDiffer(entry);
    forall j, k | 0 <= j < k < |entries|
      ensures hashes[j] != hashes[k]
    {
    }
    SameMultiset(hashes, l.links);
    forall k | k in l.links
      ensures k in leafs && exists j :: 0 <= j < |entries| && leafs[k].itemName == entries[j].name
      ensures leafs[k].itemName == entries[i].name ==> k == h
    {
      var j :| 0 <= j < |hashes| && hashes[j] == k;
      assert leafs[k].itemName == entries[j].name;
    }
  }

  lemma NamesDiffer(entry: Entry)
    requires entry.DirectoryEntry? && DistinctNames(entry)
    ensures forall i, j :: 0 <= i < j < |entry.entries| ==> entry.entries[i].name != entry.entries[j].name
  {
  }

  lemma SameMultiset(s: seq<Hash>, t: seq<Hash>)
    requires multiset(s) == multiset(t)
    ensures |s| == |t| && (forall x :: x in s <==> x in t) && (Distinct(s) ==> Distinct(t))
  {
    assert |s| == |multiset(s)| && |t| == |multiset(t)|;
    forall x
      ensures x in s <==> x in t
    {
      MultisetIndex(s, x);
      MultisetIndex(t, x);
    }
    if Distinct(s) {
      assert Elements(s) == Elements(t);
      DistinctCardinality(s);
      DistinctByCount(t);
    }
  }

  // ----- What is built shows what it was built from -----

  lemma {:induction false} InsertLinkSame(h: Hash, links: seq<Hash>)
    ensures multiset(InsertLink(h, links)) == multiset(links) + multiset{h}
  {
    if links != [] && Less(links[0], h) {
      InsertLinkSame(h, links[1..]);
      assert links == [links[0]] + links[1..];
    }
  }

  lemma {:induction false} SortLinksSame(links: seq<Hash>)
    ensures multiset(SortLinks(links)) == multiset(links)
  {
    if links != [] {
      SortLinksSame(links[1..]);
      InsertLinkSame(links[0], SortLinks(links[1..]));
      assert links == [links[0]] + links[1..];
    }
  }

  lemma {:induction false} InsertLinkOrder(h: Hash, links: seq<Hash>)
    requires InOrder(links)
    ensures InOrder(InsertLink(h, links))
  {
    hide Less;
    if links != [] {
      LessTotal(h, links[0]);
      if Less(links[0], h) {
        LessAsymmetric(links[0], h);
        InsertLinkOrder(h, links[1..]);
        var rest := InsertLink(h, links[1..]);
        forall k | 0 <= k < |rest|
          ensures !Less(rest[k], links[0])
        {
          assert rest[k] in rest;
          InsertLinkElements(h, links[1..], rest[k]);
          if rest[k] != h {
            var m :| 0 <= m < |links| - 1 && links[1..][m] == rest[k];
            assert links[m + 1] == rest[k];
          }
        }
      } else {
        FirstInOrder(h, links);
      }
    }
  }

  lemma FirstInOrder(h: Hash, links: seq<Hash>)
    requires InOrder(links) && links != [] && !Less(links[0], h)
    ensures InOrder([h] + links)
  {
    hide Less;
    forall k | 0 <= k < |links|
      ensures !Less(links[k], h)
    {
      if Less(links[k], h) {
        LessTotal(links[0], links[k]);
        if k > 0 && Less(links[0], links[k]) {
          LessTransitive(links[0], links[k], h);
        }
      }
    }
  }

  lemma {:induction false} SortLinksOrder(links: seq<Hash>)
    ensures InOrder(SortLinks(links))
  {
    if links != [] {
      SortLinksOrder(links[1..]);
      InsertLinkOrder(links[0], SortLinks(links[1..]));
    }
  }

  lemma BuiltLeafShows(e: Suite, name: Bytes, kind: LeafType, links: seq<Hash>, data: Option<Bytes>,
                       extra: map<Bytes, Bytes>)
    requires BuiltLeaf(e, name, kind, links, data, extra).Some?
    ensures
      var l := BuiltLeaf(e, name, kind, links, data, extra).value;
      && l.itemName == name && l.kind == kind && l.content == data && l.additionalData == extra
      && multiset(l.links) == multiset(links)
      && (if kind == DirectoryLeaf then InOrder(l.links) else l.links == links)
  {
    hide TreeRoot, LinksRoot, SortLinks, InOrder;
    SortLinksSame(links);
    SortLinksOrder(links);
  }

  /** All added leaves are there under their hashes. */
  ghost predicate Holds(leafs: map<Hash, Leaf>, added: seq<Leaf>) {
    forall l :: l in added ==> l.hash in leafs && leafs[l.hash] == l
  }

  lemma FileShows(e: Suite, leafs: map<Hash, Leaf>, name: Bytes, chunks: seq<Bytes>, extra: map<Bytes, Bytes>)
    requires MadeFile(e, name, chunks, extra).Some? && Holds(leafs, MadeFile(e, name, chunks, extra).value.added)
    ensures Shows(leafs, MadeFile(e, name, chunks, extra).value.leaf, FileEntry(name, chunks, extra), extra)
  {
    hide BuiltLeaf, Itoa;
    if |chunks| <= 1 {
      BuiltLeafShows(e, name, FileLeaf, [], if |chunks| == 1 then Some(chunks[0]) else None, extra);
    } else {
      var added := ChunkLeaves(e, chunks);
      BuiltLeafShows(e, name, FileLeaf, HashesOf(added), None, extra);
      forall i | 0 <= i < |chunks|
        ensures added[i].hash in leafs && IsChunkOf(leafs[added[i].hash], chunks, i)
      {
        assert added[i] in added;
        ChunkShows(e, chunks, i);
      }
    }
  }

  lemma ChunkShows(e: Suite, chunks: seq<Bytes>, i: nat)
    requires i < |chunks|
    ensures IsChunkOf(ChunkLeafOf(e, chunks, i), chunks, i)
  {
    hide Itoa, LinksRoot, TreeRoot, SortLinks;
  }

  lemma {:induction false} MadeShows(e: Suite, leafs: map<Hash, Leaf>, entry: Entry)
    requires MadeOf(e, entry).Some? && Holds(leafs, MadeOf(e, entry).value.added)
    ensures Shows(leafs, MadeOf(e, entry).value.leaf, entry, entry.extra)
    decreases entry
  {
    hide BuiltLeaf, MadeFile, AllAdded, Shows, OwnLeaves, HashesOf;
    match entry {
      case FileEntry(name, chunks, extra) =>
        FileShows(e, leafs, name, chunks, extra);
      case DirectoryEntry(name, entries, extra) =>
        var made := MadeAll(e, entries).value;
        forall i | 0 <= i < |entries|
          ensures made[i].leaf.hash in leafs && leafs[made[i].leaf.hash] == made[i].leaf
          ensures Shows(leafs, made[i].leaf, entries[i], entries[i].extra)
        {
          MadeAllAt(e, entries, i);
          forall l | l in made[i].added || l == made[i].leaf
            ensures l.hash in leafs && leafs[l.hash] == l
          {
            AllAddedMembers(made, l);
          }
          MadeShows(e, leafs, entries[i]);
        }
        DirectoryShows(e, leafs, entry, made);
    }
  }

  lemma DirectoryShows(e: Suite, leafs: map<Hash, Leaf>, entry: Entry, made: seq<Made>)
    requires entry.DirectoryEntry? && |made| == |entry.entries|
    requires BuiltLeaf(e, entry.name, DirectoryLeaf, HashesOf(OwnLeaves(made)), None, entry.extra).Some?
    requires forall i :: 0 <= i < |made| ==>
                           && made[i].leaf.hash in leafs && leafs[made[i].leaf.hash] == made[i].leaf
                           && Shows(leafs, made[i].leaf, entry.entries[i], entry.entries[i].extra)
    ensures Shows(leafs, BuiltLeaf(e, entry.name, DirectoryLeaf, HashesOf(OwnLeaves(made)), None, entry.extra).value,
                  entry, entry.extra)
  {
    hide BuiltLeaf;
    var hashes := HashesOf(OwnLeaves(made));
    BuiltLeafShows(e, entry.name, DirectoryLeaf, hashes, None, entry.extra);
    var l := BuiltLeaf(e, entry.name, DirectoryLeaf, hashes, None, entry.extra).value;
    assert ShowEntries(leafs, l, entry, hashes);
  }

  /** The root shows what the entry's own leaf does, with the additional data of the root. */
  lemma RootShows(e: Suite, leafs: map<Hash, Leaf>, leaf: Leaf, entry: Entry, stats: Stats, extra: map<Bytes, Bytes>)
    requires Shows(leafs, leaf, entry, entry.extra) && RootOf(e, leaf, stats, extra).Some?
    ensures Shows(leafs, RootOf(e, leaf, stats, extra).value, entry, extra)
  {
    hide TreeRoot, LinksRoot, SortLinks, InOrder;
    var root := RootOf(e, leaf, stats, extra).value;
    SortLinksSame(leaf.links);
    SortLinksOrder(leaf.links);
    assert multiset(root.links) == multiset(leaf.links);
    if entry.DirectoryEntry? {
      var hashes :| ShowEntries(leafs, leaf, entry, hashes);
      assert ShowEntries(leafs, root, entry, hashes);
    }
  }

  /** A DAG shows more than the same without a leaf of a new hash does. */
  lemma {:induction false} ShowsMore(leafs: map<Hash, Leaf>, root: Leaf, l: Leaf, entry: Entry, extra: map<Bytes,
                                     Bytes>)
    requires Shows(leafs, l, entry, extra) && root.hash !in leafs
    ensures Shows(leafs[root.hash := root], l, entry, extra)
    decreases entry
  {
    if entry.DirectoryEntry? {
      var hashes :| ShowEntries(leafs, l, entry, hashes);
      forall i | 0 <= i < |entry.entries|
        ensures Shows(leafs[root.hash := root], leafs[hashes[i]], entry.entries[i], entry.entries[i].extra)
      {
        ShowsMore(leafs, root, leafs[hashes[i]], entry.entries[i], entry.entries[i].extra);
      }
      assert ShowEntries(leafs[root.hash := root], l, entry, hashes);
    }
  }

  lemma CreatedShows(e: Suite, entry: Entry, extra: map<Bytes, Bytes>)
    requires DagOf(e, entry, extra).Some? && ProperBuild(e, entry, extra)
    ensures
      var g := DagOf(e, entry, extra).value;
      g.root in g.leafs && Shows(g.leafs, g.leafs[g.root], entry, extra)
  {
    hide MadeOf, WithLeaves, RootOf, ExactStats, Shows;
    var m := MadeOf(e, entry).value;
    var leafs := WithLeaves(map[], m.added);
    var root := RootOf(e, m.leaf, ExactStats(e, leafs), extra).value;
    AddedStored(m.added);
    MadeShows(e, leafs, entry);
    RootShows(e, leafs, m.leaf, entry, ExactStats(e, leafs), extra);
    NotAdded(m.added, root.hash);
    ShowsMore(leafs, root, root, entry, extra);
  }

  lemma NotAdded(added: seq<Leaf>, h: Hash)
    requires Consistent(Elements(added)) && h !in Hashes(added)
    ensures h !in WithLeaves(map[], added)
  {
    hide WithLeaves;
    AddedStored(added);
  }

  /** Building a file tree, one worker or many: what comes out shows the tree, its root with the additional
      data given for it. */
  method Create(e: Suite, entry: Entry, extra: map<Bytes, Bytes>, parallel: bool, cpus: nat) returns (d: Option<Dag>)
    requires cpus > 0 && Narrow(entry)
    requires MadeOf(e, entry).Some? ==> Consistent(Elements(MadeOf(e, entry).value.added))
    ensures d.Some? <==> DagOf(e, entry, extra).Some?
    ensures d.Some? ==> fresh(d.value) && d.value.View() == DagOf(e, entry, extra).value
    ensures d.Some? && ProperBuild(e, entry, extra) ==>
              d.value.root in d.value.leafs && Shows(d.value.leafs, d.value.leafs[d.value.root], entry, extra)
  {
    hide DagOf, MadeOf, Consistent, ProperBuild, Shows;
    if parallel {
      d := CreateDagParallel(e, entry, extra, cpus);
    } else {
      d := CreateDag(e, entry, extra, cpus);
    }
    if d.Some? && ProperBuild(e, entry, extra) {
      CreatedShows(e, entry, extra);
    }
  }
}
