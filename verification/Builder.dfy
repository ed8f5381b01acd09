/** Building a DAG from a file tree. A directory entry holds its entries in name order; a file entry
    holds the chunks its bytes were cut into. */
module Builder {
  import opened ByteStrings
  import opened Sums
  import opened DagModel
  import opened DagVerify
  import opened LinkTree
  import opened Decimal

  datatype Entry =
    | FileEntry(name: Bytes, chunks: seq<Bytes>, extra: map<Bytes, Bytes>)
    | DirectoryEntry(name: Bytes, entries: seq<Entry>, extra: map<Bytes, Bytes>)

  // ----- Leaves -----

  /** `sort.Strings`, which keeps repeated strings. */
  function InsertLink(h: Hash, links: seq<Hash>): seq<Hash> {
    if links == [] || !Less(links[0], h) then [h] + links else [links[0]] + InsertLink(h, links[1..])
  }

  function SortLinks(links: seq<Hash>): seq<Hash> {
    if links == [] then [] else InsertLink(links[0], SortLinks(links[1..]))
  }

  /** Files keep the order of their chunks. */
  function StoredLinks(kind: LeafType, links: seq<Hash>): seq<Hash> {
    if kind == DirectoryLeaf then SortLinks(links) else links
  }

  function ContentHashOf(e: Suite, data: Option<Bytes>): Option<Bytes> {
    if data.Some? then Some(e.hash(data.value)) else None
  }

  /** The leaf a builder makes; there is none when a tree over several links cannot be built. */
  function BuiltLeaf(e: Suite, name: Bytes, kind: LeafType, links: seq<Hash>, data: Option<Bytes>,
                     extra: map<Bytes, Bytes>): Option<Leaf>
  {
    if |links| > 1 && TreeRoot(e, links) == None then None
    else
      var root := LinksRoot(e, links);
      var hash := e.cid(LeafIdentity(name, kind, root, |links|, ContentHashOf(e, data), extra));
      Some(Leaf(hash, name, kind, ContentHashOf(e, data), data, root, |links|, 0, 0, 0, StoredLinks(kind, links), [],
                extra, map[]))
  }

  datatype Stats = Stats(leafCount: nat, contentSize: nat, dagSize: nat)

  function DataSize(data: Option<Bytes>): nat {
    |data.GetOr([])|
  }

  /** The root also commits to the totals; its own part of the DAG size is measured with that field
      still zero. */
  function BuiltRoot(e: Suite, name: Bytes, kind: LeafType, links: seq<Hash>, data: Option<Bytes>, stats: Stats,
                     extra: map<Bytes, Bytes>): Option<Leaf>
  {
    if |links| > 1 && TreeRoot(e, links) == None then None
    else
      var root := LinksRoot(e, links);
      var count, content := stats.leafCount + 1, stats.contentSize + DataSize(data);
      var unsized := RootIdentity(name, kind, root, |links|, count, content, 0, ContentHashOf(e, data), extra);
      var size := stats.dagSize + e.rootSize(unsized);
      Some(Leaf(e.cid(unsized.(dagSize := size)), name, kind, ContentHashOf(e, data), data, root, |links|,
                count, content, size, StoredLinks(kind, links), [], extra, map[]))
  }

  /** The Merkle root over a builder's links. */
  method LinksRootOf(e: Suite, links: seq<Hash>, cpus: nat) returns (root: Option<Bytes>)
    requires cpus > 0 && |links| <= MAX_LINKS
    ensures root == if |links| > 1 && TreeRoot(e, links) == None then None else Some(LinksRoot(e, links))
  {
    hide TreeRoot;
    if |links| > 1 {
      var tree := Build(e, links, cpus);
      if tree == None {
        return None;
      }
      return Some(tree.value.root.value);
    }
    if |links| == 1 {
      return Some(links[0]);
    }
    root := Some([]);
  }

  method BuildLeaf(e: Suite, name: Bytes, kind: LeafType, links: seq<Hash>, data: Option<Bytes>,
                   extra: map<Bytes, Bytes>,
                   cpus: nat)
    returns (l: Option<Leaf>)
    requires cpus > 0 && |links| <= MAX_LINKS
    ensures l == BuiltLeaf(e, name, kind, links, data, extra)
  {
    hide TreeRoot, LinksRoot;
    var root := LinksRootOf(e, links, cpus);
    if root == None {
      return None;
    }
    var contentHash := if data.Some? then Some(e.hash(data.value)) else None;
    var hash := e.cid(LeafIdentity(name, kind, root.value, |links|, contentHash, extra));
    var sortedLinks := if kind == DirectoryLeaf then SortLinks(links) else links;
    l := Some(Leaf(hash, name, kind, contentHash, data, root.value, |links|, 0, 0, 0, sortedLinks, [], extra, map[]));
  }

  // ----- The builder -----

  /** Equal leaves are one: the first of each hash is kept. */
  function WithLeaf(leafs: map<Hash, Leaf>, l: Leaf): map<Hash, Leaf> {
    if l.hash in leafs then leafs else leafs[l.hash := l]
  }

  function WithLeaves(leafs: map<Hash, Leaf>, added: seq<Leaf>): map<Hash, Leaf> {
    if added == [] then leafs
    else
      var n := |added| - 1;
      WithLeaf(WithLeaves(leafs, added[..n]), added[n])
  }

  /** The totals over unique leaves, which `VerifyRootLeaf` computes again. */
  ghost function ExactStats(e: Suite, leafs: map<Hash, Leaf>): Stats {
    Stats(|leafs|, TotalContent(leafs), TotalCounted(e, leafs))
  }

  class DagBuilder {
    var leafs: map<Hash, Leaf>
    var stats: Stats

    constructor (e: Suite)
      ensures leafs == map[] && stats == ExactStats(e, leafs)
    {
      leafs, stats := map[], Stats(0, 0, 0);
    }

    /** `addLeafUnsafe`: the running totals stay exact. */
    method AddLeaf(e: Suite, l: Leaf)
      requires stats == ExactStats(e, leafs)
      modifies this
      ensures leafs == WithLeaf(old(leafs), l) && stats == ExactStats(e, leafs)
    {
      if l.hash in leafs {
        return;
      }
      StatsNext(e, leafs, l);
      var serializedSize := CountedSize(e, l);
      leafs := leafs[l.hash := l];
      var content := stats.contentSize;
      if l.content.Some? {
        content := content + |l.content.value|;
      }
      stats := Stats(stats.leafCount + 1, content, stats.dagSize + serializedSize);
    }
  }

  lemma StatsNext(e: Suite, leafs: map<Hash, Leaf>, l: Leaf)
    requires l.hash !in leafs
    ensures
      var s := ExactStats(e, leafs);
      ExactStats(e, leafs[l.hash := l]) ==
        Stats(s.leafCount + 1, s.contentSize + ContentLength(l), s.dagSize + CountedSize(e, l))
  {
    hide CountedSize, ContentLength, TotalContent;
    var more := leafs[l.hash := l];
    assert more.Keys == leafs.Keys + {l.hash};
    assert |more| == |more.Keys| && |leafs| == |leafs.Keys|;
    ContentNext(leafs, l);
    SizeNext(e, leafs, l);
  }

  lemma ContentNext(leafs: map<Hash, Leaf>, l: Leaf)
    requires l.hash !in leafs
    ensures TotalContent(leafs[l.hash := l]) == TotalContent(leafs) + ContentLength(l)
  {
    hide ContentLength;
    var more := leafs[l.hash := l];
    assert more.Keys == leafs.Keys + {l.hash};
    SumExtend(leafs.Keys, l.hash, h => if h in more then ContentLength(more[h]) else 0,
              h => if h in leafs then ContentLength(leafs[h]) else 0);
  }

  ghost function TotalCounted(e: Suite, leafs: map<Hash, Leaf>): nat {
    SumOver(leafs.Keys, h => if h in leafs then CountedSize(e, leafs[h]) else 0)
  }

  lemma SizeNext(e: Suite, leafs: map<Hash, Leaf>, l: Leaf)
    requires l.hash !in leafs
    ensures TotalCounted(e, leafs[l.hash := l]) == TotalCounted(e, leafs) + CountedSize(e, l)
  {
    hide CountedSize;
    var more := leafs[l.hash := l];
    assert more.Keys == leafs.Keys + {l.hash};
    SumExtend(leafs.Keys, l.hash, h => if h in more then CountedSize(e, more[h]) else 0,
              h => if h in leafs then CountedSize(e, leafs[h]) else 0);
  }

  // ----- What processing an entry makes -----

  /** The entry's own leaf and the leaves added to the builder on the way, in order. */
  datatype Made = Made(leaf: Leaf, added: seq<Leaf>)

  function ChunkLeafOf(e: Suite, chunks: seq<Bytes>, i: nat): Leaf
    requires i < |chunks|
  {
    BuiltLeaf(e, Itoa(i), ChunkLeaf, [], Some(chunks[i]), map[]).value
  }

  function ChunkLeaves(e: Suite, chunks: seq<Bytes>): seq<Leaf> {
    seq(|chunks|, i requires 0 <= i < |chunks| => ChunkLeafOf(e, chunks, i))
  }

  function HashesOf(leaves: seq<Leaf>): seq<Hash> {
    seq(|leaves|, i requires 0 <= i < |leaves| => leaves[i].hash)
  }

  /** A file of several chunks links a leaf for each; any other holds its bytes itself. */
  function MadeFile(e: Suite, name: Bytes, chunks: seq<Bytes>, extra: map<Bytes, Bytes>): Option<Made> {
    if |chunks| <= 1 then
      var leaf := BuiltLeaf(e, name, FileLeaf, [], if |chunks| == 1 then Some(chunks[0]) else None, extra);
      if leaf == None then None else Some(Made(leaf.value, []))
    else
      var added := ChunkLeaves(e, chunks);
      var leaf := BuiltLeaf(e, name, FileLeaf, HashesOf(added), None, extra);
      if leaf == None then None else Some(Made(leaf.value, added))
  }

  function MadeOf(e: Suite, entry: Entry): Option<Made>
    decreases entry
  {
    match entry
    case FileEntry(name, chunks, extra) => MadeFile(e, name, chunks, extra)
    case DirectoryEntry(name, entries, extra) =>
      var made := MadeAll(e, entries);
      if made == None then None
      else
        var leaf := BuiltLeaf(e, name, DirectoryLeaf, HashesOf(OwnLeaves(made.value)), None, extra);
        if leaf == None then None else Some(Made(leaf.value, AllAdded(made.value)))
  }

  function MadeAll(e: Suite, entries: seq<Entry>): (all: Option<seq<Made>>)
    ensures all.Some? ==> |all.value| == |entries|
    decreases entries
  {
    if entries == [] then Some([])
    else
      var n := |entries| - 1;
      var before, last := MadeAll(e, entries[..n]), MadeOf(e, entries[n]);
      if before == None || last == None then None else Some(before.value + [last.value])
  }

  function OwnLeaves(made: seq<Made>): seq<Leaf> {
    seq(|made|, i requires 0 <= i < |made| => made[i].leaf)
  }

  /** For each entry in turn, what it added and then its own leaf. */
  function AllAdded(made: seq<Made>): seq<Leaf> {
    if made == [] then []
    else
      var n := |made| - 1;
      AllAdded(made[..n]) + made[n].added + [made[n].leaf]
  }

  // ----- Sequential processing -----

  /** No leaf gets more links than a tree can hold. */
  ghost predicate Narrow(entry: Entry)
    decreases entry
  {
    match entry
    case FileEntry(_, chunks, _) => |chunks| <= MAX_LINKS
    case DirectoryEntry(_, entries, _) => |entries| <= MAX_LINKS && AllNarrow(entries)
  }

  ghost predicate AllNarrow(entries: seq<Entry>)
    decreases entries
  {
    forall i :: 0 <= i < |entries| ==> Narrow(entries[i])
  }

  lemma {:induction false} WithLeavesConcat(leafs: map<Hash, Leaf>, a: seq<Leaf>, b: seq<Leaf>)
    ensures WithLeaves(leafs, a + b) == WithLeaves(WithLeaves(leafs, a), b)
    decreases |b|
  {
    if b == [] {
      assert a + b == a;
    } else {
      var n := |b| - 1;
      assert (a + b)[..|a| + n] == a + b[..n];
      WithLeavesConcat(leafs, a, b[..n]);
    }
  }

  lemma WithOne(leafs: map<Hash, Leaf>, l: Leaf)
    ensures WithLeaves(leafs, [l]) == WithLeaf(leafs, l)
  {
    assert [l][..0] == [];
  }

  method ProcessFile(e: Suite, b: DagBuilder, name: Bytes, chunks: seq<Bytes>, extra: map<Bytes, Bytes>, cpus: nat)
    returns (leaf: Option<Leaf>)
    requires cpus > 0 && |chunks| <= MAX_LINKS && b.stats == ExactStats(e, b.leafs)
    modifies b
    ensures b.stats == ExactStats(e, b.leafs)
    ensures leaf.Some? <==> MadeFile(e, name, chunks, extra).Some?
    ensures leaf.Some? ==>
              var made := MadeFile(e, name, chunks, extra).value;
              leaf.value == made.leaf && b.leafs == WithLeaves(old(b.leafs), made.added)
  {
    hide BuiltLeaf, ExactStats, WithLeaf, Itoa;
    var links: seq<Hash>, data: Option<Bytes> := [], None;
    ghost var added := ChunkLeaves(e, chunks);
    var chunkCount := 0;
    assert added[..0] == [] && HashesOf([]) == [];
    while chunkCount < |chunks|
      invariant chunkCount <= |chunks| && b.stats == ExactStats(e, b.leafs)
      invariant chunkCount == 1 ==> data == Some(chunks[0])
      invariant chunkCount != 1 ==> data == None
      invariant chunkCount <= 1 ==> links == [] && b.leafs == old(b.leafs)
      invariant chunkCount > 1 ==>
                links == HashesOf(added[..chunkCount]) && b.leafs == WithLeaves(old(b.leafs), added[..chunkCount])
      decreases |chunks| - chunkCount
    {
      var chunk := chunks[chunkCount];
      chunkCount := chunkCount + 1;
      if chunkCount == 1 {
        data := Some(chunk);
      } else {
        if chunkCount == 2 {
          var first := ChunkOf(e, chunks, 0, cpus);
          links := [first.hash];
          b.AddLeaf(e, first);
          OneMore(old(b.leafs), added, 0);
          data := None;
        }
        var next := ChunkOf(e, chunks, chunkCount - 1, cpus);
        links := links + [next.hash];
        b.AddLeaf(e, next);
        OneMore(old(b.leafs), added, chunkCount - 1);
      }
    }
    assert added[..|chunks|] == added;
    leaf := BuildLeaf(e, name, FileLeaf, links, data, extra, cpus);
  }

  lemma OneMore(leafs: map<Hash, Leaf>, added: seq<Leaf>, n: nat)
    requires n < |added|
    ensures WithLeaves(leafs, added[..n + 1]) == WithLeaf(WithLeaves(leafs, added[..n]), added[n])
    ensures HashesOf(added[..n + 1]) == HashesOf(added[..n]) + [added[n].hash]
    ensures WithLeaves(leafs, added[..0]) == leafs && HashesOf(added[..0]) == []
  {
    assert added[..n + 1][..n] == added[..n];
  }

  method ChunkOf(e: Suite, chunks: seq<Bytes>, i: nat, cpus: nat) returns (l: Leaf)
    requires cpus > 0 && i < |chunks|
    ensures l == ChunkLeafOf(e, chunks, i)
  {
    var built := BuildLeaf(e, Itoa(i), ChunkLeaf, [], Some(chunks[i]), map[], cpus);
    l := built.value;
  }

  lemma MadePrefix(e: Suite, entries: seq<Entry>, i: nat)
    requires i < |entries|
    ensures MadeAll(e, entries[..i + 1]) ==
            if MadeAll(e, entries[..i]) == None || MadeOf(e, entries[i]) == None then None
            else Some(MadeAll(e, entries[..i]).value + [MadeOf(e, entries[i]).value])
  {
    assert entries[..i + 1][..i] == entries[..i];
  }

  lemma {:induction false} MadeStuck(e: Suite, entries: seq<Entry>, i: nat)
    requires i <= |entries| && MadeAll(e, entries[..i]) == None
    ensures MadeAll(e, entries) == None
    decreases |entries| - i
  {
    if i < |entries| {
      MadePrefix(e, entries, i);
      MadeStuck(e, entries, i + 1);
    } else {
      assert entries[..i] == entries;
    }
  }

  lemma AddedNext(leafs: map<Hash, Leaf>, made: seq<Made>, m: Made)
    ensures WithLeaves(leafs, AllAdded(made + [m])) ==
            WithLeaf(WithLeaves(WithLeaves(leafs, AllAdded(made)), m.added), m.leaf)
    ensures HashesOf(OwnLeaves(made + [m])) == HashesOf(OwnLeaves(made)) + [m.leaf.hash]
  {
    hide WithLeaf;
    assert (made + [m])[..|made|] == made;
    WithLeavesConcat(leafs, AllAdded(made) + m.added, [m.leaf]);
    WithLeavesConcat(leafs, AllAdded(made), m.added);
    WithOne(WithLeaves(leafs, AllAdded(made) + m.added), m.leaf);
  }

  method ProcessEntry(e: Suite, b: DagBuilder, entry: Entry, cpus: nat) returns (leaf: Option<Leaf>)
    requires cpus > 0 && Narrow(entry) && b.stats == ExactStats(e, b.leafs)
    modifies b
    ensures b.stats == ExactStats(e, b.leafs)
    ensures leaf.Some? <==> MadeOf(e, entry).Some?
    ensures leaf.Some? ==>
              var made := MadeOf(e, entry).value;
              leaf.value == made.leaf && b.leafs == WithLeaves(old(b.leafs), made.added)
    decreases entry
  {
    hide BuiltLeaf, ExactStats, WithLeaf, WithLeaves, MadeFile, AllAdded, OwnLeaves, HashesOf;
    match entry {
      case FileEntry(name, chunks, extra) =>
        leaf := ProcessFile(e, b, name, chunks, extra, cpus);
      case DirectoryEntry(name, entries, extra) =>
        var links: seq<Hash> := [];
        ghost var made: seq<Made> := [];
        NothingMade(b.leafs);
        assert entries[..0] == [];
        for i := 0 to |entries|
          invariant b.stats == ExactStats(e, b.leafs) && MadeAll(e, entries[..i]) == Some(made)
                    && |made| == i == |links|
          invariant links == HashesOf(OwnLeaves(made)) && b.leafs == WithLeaves(old(b.leafs), AllAdded(made))
        {
          MadePrefix(e, entries, i);
          var child := ProcessEntry(e, b, entries[i], cpus);
          if child == None {
            MadeStuck(e, entries, i + 1);
            return None;
          }
          ghost var m := MadeOf(e, entries[i]).value;
          AddedNext(old(b.leafs), made, m);
          links := links + [child.value.hash];
          b.AddLeaf(e, child.value);
          made := made + [m];
        }
        assert entries[..|entries|] == entries;
        leaf := BuildLeaf(e, name, DirectoryLeaf, links, None, extra, cpus);
    }
  }

  lemma NothingMade(leafs: map<Hash, Leaf>)
    ensures WithLeaves(leafs, AllAdded([])) == leafs && HashesOf(OwnLeaves([])) == []
  {
  }

  /** The root made of an entry's own leaf and the totals. */
  function RootOf(e: Suite, leaf: Leaf, stats: Stats, extra: map<Bytes, Bytes>): Option<Leaf> {
    BuiltRoot(e, leaf.itemName, leaf.kind, leaf.links, leaf.content, stats, extra)
  }

  /** The DAG of an entry. */
  ghost function DagOf(e: Suite, entry: Entry, extra: map<Bytes, Bytes>): Option<Graph> {
    var made := MadeOf(e, entry);
    if made == None then None else GraphOf(e, made.value.leaf, WithLeaves(map[], made.value.added), extra)
  }

  ghost function GraphOf(e: Suite, leaf: Leaf, leafs: map<Hash, Leaf>, extra: map<Bytes, Bytes>): Option<Graph> {
    var root := RootOf(e, leaf, ExactStats(e, leafs), extra);
    if root == None then None else Some(Graph(root.value.hash, leafs[root.value.hash := root.value]))
  }

  method BuildRootLeaf(e: Suite, leaf: Leaf, stats: Stats, extra: map<Bytes, Bytes>, cpus: nat)
    returns (root: Option<Leaf>)
    requires cpus > 0 && |leaf.links| <= MAX_LINKS
    ensures root == RootOf(e, leaf, stats, extra)
  {
    hide TreeRoot, LinksRoot;
    var merkleRoot := LinksRootOf(e, leaf.links, cpus);
    if merkleRoot == None {
      return None;
    }
    var contentSize, leafCount := stats.contentSize, stats.leafCount + 1;
    var contentHash: Option<Bytes> := None;
    if leaf.content.Some? {
      contentSize := contentSize + |leaf.content.value|;
      contentHash := Some(e.hash(leaf.content.value));
    }
    var unsized := RootIdentity(leaf.itemName, leaf.kind, merkleRoot.value, |leaf.links|, leafCount, contentSize, 0,
        contentHash, extra);
    var finalDagSize := stats.dagSize + e.rootSize(unsized);
    root := Some(Leaf(e.cid(unsized.(dagSize := finalDagSize)), leaf.itemName, leaf.kind, contentHash, leaf.content,
                      merkleRoot.value, |leaf.links|, leafCount, contentSize, finalDagSize,
                      StoredLinks(leaf.kind, leaf.links), [], extra, map[]));
  }

  method CreateDag(e: Suite, entry: Entry, extra: map<Bytes, Bytes>, cpus: nat) returns (d: Option<Dag>)
    requires cpus > 0 && Narrow(entry)
    ensures d.Some? <==> DagOf(e, entry, extra).Some?
    ensures d.Some? ==> fresh(d.value) && d.value.View() == DagOf(e, entry, extra).value
  {
    hide MadeOf, WithLeaves, ExactStats, RootOf;
    var b := new DagBuilder(e);
    var leaf := ProcessEntry(e, b, entry, cpus);
    if leaf == None {
      return None;
    }
    MadeNarrow(e, entry);
    var root := BuildRootLeaf(e, leaf.value, b.stats, extra, cpus);
    if root == None {
      return None;
    }
    b.leafs := b.leafs[root.value.hash := root.value];
    var dag := new Dag(root.value.hash, b.leafs);
    d := Some(dag);
  }

  lemma {:induction false} SortLinksSize(links: seq<Hash>)
    ensures |SortLinks(links)| == |links|
  {
    if links != [] {
      SortLinksSize(links[1..]);
      InsertLinkSize(links[0], SortLinks(links[1..]));
    }
  }

  lemma {:induction false} InsertLinkSize(h: Hash, links: seq<Hash>)
    ensures |InsertLink(h, links)| == |links| + 1
  {
    if links != [] {
      InsertLinkSize(h, links[1..]);
    }
  }

  lemma MadeNarrow(e: Suite, entry: Entry)
    requires Narrow(entry) && MadeOf(e, entry).Some?
    ensures |MadeOf(e, entry).value.leaf.links| <= MAX_LINKS
  {
    hide TreeRoot, LinksRoot, SortLinks;
    match entry {
      case FileEntry(name, chunks, extra) =>
      case DirectoryEntry(name, entries, extra) =>
        SortLinksSize(HashesOf(OwnLeaves(MadeAll(e, entries).value)));
    }
  }
}
