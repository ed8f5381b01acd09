/** The order leaves are transmitted in: breadth first from the root, the children of a leaf in
    ascending order, each leaf once, declared by the parent it was first reached from. */
module BreadthFirst {
  import opened ByteStrings
  import opened DagModel

  datatype Edge = Edge(parent: Hash, child: Hash)

  /** Parents whose children are sent. */
  type Serves = Leaf -> bool

  /** The listed children that are there and were not seen. */
  function Fresh(leafs: map<Hash, Leaf>, links: seq<Hash>, seen: set<Hash>): (kids: seq<Hash>)
    ensures forall c :: c in kids ==> c in leafs && c !in seen && c in links
  {
    if links == [] then []
    else if links[0] in leafs && links[0] !in seen then
      [links[0]] + Fresh(leafs, links[1..], seen + {links[0]})
    else Fresh(leafs, links[1..], seen)
  }

  function Kids(leafs: map<Hash, Leaf>, serves: Serves, parent: Hash, seen: set<Hash>): (kids: seq<Hash>)
    ensures forall c :: c in kids ==> c in leafs && c !in seen
  {
    if parent in leafs && serves(leafs[parent]) then Fresh(leafs, TreeKeys(leafs[parent].links), seen) else []
  }

  function EdgesTo(parent: Hash, kids: seq<Hash>): seq<Edge> {
    seq(|kids|, i requires 0 <= i < |kids| => Edge(parent, kids[i]))
  }

  ghost function Bfs(leafs: map<Hash, Leaf>, serves: Serves, queue: seq<Hash>, seen: set<Hash>): seq<Edge>
    decreases leafs.Keys - seen, |queue|
  {
    if queue == [] then []
    else
      var kids := Kids(leafs, serves, queue[0], seen);
      assert kids != [] ==> kids[0] in kids;
      EdgesTo(queue[0], kids) + Bfs(leafs, serves, queue[1..] + kids, seen + Elements(kids))
  }

  /** The root, declared by nobody, and the rest. */
  ghost function SendOrder(g: Graph, serves: Serves): seq<Edge> {
    if g.root !in g.leafs then [] else [Edge([], g.root)] + Bfs(g.leafs, serves, [g.root], {g.root})
  }

  ghost function Sent(edges: seq<Edge>): set<Hash> {
    if edges == [] then {} else {edges[0].child} + Sent(edges[1..])
  }

  lemma {:induction false} SentConcat(a: seq<Edge>, b: seq<Edge>)
    ensures Sent(a + b) == Sent(a) + Sent(b)
  {
    if a == [] {
      assert a + b == b;
    } else {
      assert (a + b)[1..] == a[1..] + b;
      SentConcat(a[1..], b);
    }
  }

  lemma SentNext(edges: seq<Edge>, n: nat)
    requires n < |edges|
    ensures Sent(edges[..n + 1]) == Sent(edges[..n]) + {edges[n].child}
  {
    assert edges[..n + 1] == edges[..n] + [edges[n]];
    SentConcat(edges[..n], [edges[n]]);
    assert [edges[n]][1..] == [];
  }

  /** Each edge leads from a leaf sent before to a linked leaf that was not. */
  ghost predicate Sequenced(leafs: map<Hash, Leaf>, known: set<Hash>, edges: seq<Edge>)
    decreases |edges|
  {
    edges == [] ||
    var Edge(p, c) := edges[0];
    && p in known && p in leafs && c in leafs && c in leafs[p].links && c !in known
    && Sequenced(leafs, known + {c}, edges[1..])
  }

  lemma {:induction false} SequencedConcat(leafs: map<Hash, Leaf>, known: set<Hash>, a: seq<Edge>, b: seq<Edge>)
    requires Sequenced(leafs, known, a) && Sequenced(leafs, known + Sent(a), b)
    ensures Sequenced(leafs, known, a + b)
    decreases |a|
  {
    if a == [] {
      assert a + b == b && known + Sent(a) == known;
    } else {
      assert (a + b)[1..] == a[1..] + b;
      assert known + Sent(a) == known + {a[0].child} + Sent(a[1..]);
      SequencedConcat(leafs, known + {a[0].child}, a[1..], b);
    }
  }

  lemma {:induction false} SequencedAt(leafs: map<Hash, Leaf>, known: set<Hash>, edges: seq<Edge>, n: nat)
    requires Sequenced(leafs, known, edges) && n < |edges|
    ensures
      var Edge(p, c) := edges[n];
      var before := known + Sent(edges[..n]);
      p in before && p in leafs && c in leafs && c in leafs[p].links && c !in before
    decreases n
  {
    if n > 0 {
      assert edges[..n][1..] == edges[1..][..n - 1] && edges[n] == edges[1..][n - 1];
      SequencedAt(leafs, known + {edges[0].child}, edges[1..], n - 1);
      assert known + Sent(edges[..n]) == known + {edges[0].child} + Sent(edges[..n][1..]);
    }
  }

  lemma {:induction false} EdgesToSent(parent: Hash, kids: seq<Hash>)
    ensures Sent(EdgesTo(parent, kids)) == Elements(kids)
  {
    if kids != [] {
      assert EdgesTo(parent, kids)[1..] == EdgesTo(parent, kids[1..]);
      EdgesToSent(parent, kids[1..]);
      assert Elements(kids) == {kids[0]} + Elements(kids[1..]);
    }
  }

  lemma {:induction false} FreshSequenced(leafs: map<Hash, Leaf>, parent: Hash, links: seq<Hash>, seen: set<Hash>,
                                          known: set<Hash>)
    requires parent in known && parent in leafs && known <= seen
    requires forall c :: c in links ==> c in leafs[parent].links
    ensures Sequenced(leafs, known, EdgesTo(parent, Fresh(leafs, links, seen)))
  {
    if links != [] {
      var c := links[0];
      assert c in links;
      if c in leafs && c !in seen {
        FreshSequenced(leafs, parent, links[1..], seen + {c}, known + {c});
        var rest := Fresh(leafs, links[1..], seen + {c});
        assert EdgesTo(parent, [c] + rest)[1..] == EdgesTo(parent, rest);
      } else {
        FreshSequenced(leafs, parent, links[1..], seen, known);
      }
    }
  }

  lemma KidsSequenced(leafs: map<Hash, Leaf>, serves: Serves, parent: Hash, seen: set<Hash>)
    requires parent in seen
    ensures Sequenced(leafs, seen, EdgesTo(parent, Kids(leafs, serves, parent, seen)))
  {
    hide Fresh, SortedKeys;
    if parent in leafs && serves(leafs[parent]) {
      FreshSequenced(leafs, parent, TreeKeys(leafs[parent].links), seen, seen);
    }
  }

  lemma {:induction false} BfsSequenced(leafs: map<Hash, Leaf>, serves: Serves, queue: seq<Hash>, seen: set<Hash>)
    requires forall h :: h in queue ==> h in seen
    ensures Sequenced(leafs, seen, Bfs(leafs, serves, queue, seen))
    decreases leafs.Keys - seen, |queue|
  {
    hide Kids, Sequenced;
    if queue == [] {
      NothingSequenced(leafs, seen);
    } else {
      var kids := Kids(leafs, serves, queue[0], seen);
      assert kids != [] ==> kids[0] in kids;
      KidsSequenced(leafs, serves, queue[0], seen);
      EdgesToSent(queue[0], kids);
      BfsSequenced(leafs, serves, queue[1..] + kids, seen + Elements(kids));
      SequencedConcat(leafs, seen, EdgesTo(queue[0], kids),
          Bfs(leafs, serves, queue[1..] + kids, seen + Elements(kids)));
    }
  }

  lemma NothingSequenced(leafs: map<Hash, Leaf>, known: set<Hash>)
    ensures Sequenced(leafs, known, [])
  {
  }

  // ----- Nothing is left out -----

  lemma {:induction false} FreshTakesAll(leafs: map<Hash, Leaf>, links: seq<Hash>, seen: set<Hash>, c: Hash)
    requires c in links && c in leafs
    ensures c in seen || c in Fresh(leafs, links, seen)
  {
    if links[0] != c {
      var next := if links[0] in leafs && links[0] !in seen then seen + {links[0]} else seen;
      FreshTakesAll(leafs, links[1..], next, c);
    }
  }

  /** What is queued or newly seen has its linked leaves sent, when it serves them. */
  ghost predicate SendsLinks(leafs: map<Hash, Leaf>, serves: Serves, h: Hash, all: set<Hash>) {
    h in leafs && serves(leafs[h]) ==> forall c :: c in leafs[h].links && c in leafs ==> c in all
  }

  lemma {:induction false} BfsSendsLinks(leafs: map<Hash, Leaf>, serves: Serves, queue: seq<Hash>, seen: set<Hash>,
                                         h: Hash)
    requires h in queue || h in Sent(Bfs(leafs, serves, queue, seen))
    ensures SendsLinks(leafs, serves, h, seen + Sent(Bfs(leafs, serves, queue, seen)))
    decreases leafs.Keys - seen, |queue|
  {
    hide Kids, SendsLinks, SortedKeys;
    if queue != [] {
      var kids := Kids(leafs, serves, queue[0], seen);
      assert kids != [] ==> kids[0] in kids;
      var next, nextSeen := queue[1..] + kids, seen + Elements(kids);
      var rest := Bfs(leafs, serves, next, nextSeen);
      EdgesToSent(queue[0], kids);
      SentConcat(EdgesTo(queue[0], kids), rest);
      assert seen + Sent(EdgesTo(queue[0], kids) + rest) == nextSeen + Sent(rest);
      if h in next || h in Sent(rest) {
        BfsSendsLinks(leafs, serves, next, nextSeen, h);
      } else {
        HeadSendsLinks(leafs, serves, h, seen, nextSeen + Sent(rest));
      }
    }
  }

  lemma HeadSendsLinks(leafs: map<Hash, Leaf>, serves: Serves, h: Hash, seen: set<Hash>, all: set<Hash>)
    requires seen + Elements(Kids(leafs, serves, h, seen)) <= all
    ensures SendsLinks(leafs, serves, h, all)
  {
    hide Fresh, SortedKeys;
    if h in leafs && serves(leafs[h]) {
      forall c | c in leafs[h].links && c in leafs
        ensures c in all
      {
        FreshTakesAll(leafs, TreeKeys(leafs[h].links), seen, c);
        assert c in seen || c in Elements(Kids(leafs, serves, h, seen));
      }
    }
  }

  /** Every leaf but the root is linked by another leaf that serves it. */
  ghost predicate ServedWithin(leafs: map<Hash, Leaf>, serves: Serves, root: Hash) {
    forall h :: h in leafs && h != root ==> exists q :: q in leafs && h in leafs[q].links && serves(leafs[q])
  }

  lemma {:induction false} SendsLeaf(g: Graph, serves: Serves, rank: map<Hash, nat>, h: Hash)
    requires g.root in g.leafs && Ranked(g.leafs, rank) && ServedWithin(g.leafs, serves, g.root) && h in g.leafs
    ensures h in Sent(SendOrder(g, serves))
    decreases rank[h]
  {
    hide Bfs, SendsLinks;
    var rest := Bfs(g.leafs, serves, [g.root], {g.root});
    assert SendOrder(g, serves)[1..] == rest;
    if h != g.root {
      var q :| q in g.leafs && h in g.leafs[q].links && serves(g.leafs[q]);
      SendsLeaf(g, serves, rank, q);
      BfsSendsLinks(g.leafs, serves, [g.root], {g.root}, q);
      LinkSent(g.leafs, serves, q, h, {g.root} + Sent(rest));
    }
  }

  lemma LinkSent(leafs: map<Hash, Leaf>, serves: Serves, q: Hash, h: Hash, all: set<Hash>)
    requires q in leafs && h in leafs[q].links && h in leafs && serves(leafs[q]) && SendsLinks(leafs, serves, q, all)
    ensures h in all
  {
  }

  /** The root comes first, every other leaf after the linked parent that declares it, and each leaf
      once; when parents serve their children, every leaf is sent. */
  lemma SendOrderFacts(g: Graph, serves: Serves)
    requires g.root in g.leafs
    ensures
      var edges := SendOrder(g, serves);
      && edges != [] && edges[0] == Edge([], g.root) && Sequenced(g.leafs, {g.root}, edges[1..])
    ensures Acyclic(g.leafs) && ServedWithin(g.leafs, serves, g.root) ==> g.leafs.Keys <= Sent(SendOrder(g, serves))
  {
    hide Bfs, Sequenced, ServedWithin;
    assert SendOrder(g, serves)[1..] == Bfs(g.leafs, serves, [g.root], {g.root});
    BfsSequenced(g.leafs, serves, [g.root], {g.root});
    if Acyclic(g.leafs) && ServedWithin(g.leafs, serves, g.root) {
      var rank :| Ranked(g.leafs, rank);
      forall h | h in g.leafs
        ensures h in Sent(SendOrder(g, serves))
      {
        SendsLeaf(g, serves, rank, h);
      }
    }
  }

  lemma {:induction false} SequencedSent(leafs: map<Hash, Leaf>, known: set<Hash>, edges: seq<Edge>)
    requires Sequenced(leafs, known, edges)
    ensures Sent(edges) <= leafs.Keys && Sent(edges) !! known && |Sent(edges)| == |edges|
    decreases |edges|
  {
    if edges != [] {
      SequencedSent(leafs, known + {edges[0].child}, edges[1..]);
      assert edges[0].child !in Sent(edges[1..]);
    }
  }

  // ----- Steps of the loops that compute it -----

  /** Taking the children of the first of the queue one by one. */
  lemma BfsStep(leafs: map<Hash, Leaf>, serves: Serves, queue: seq<Hash>, seen: set<Hash>)
    requires queue != []
    ensures
      var kids := Kids(leafs, serves, queue[0], seen);
      Bfs(leafs, serves, queue, seen) ==
        EdgesTo(queue[0], kids) + Bfs(leafs, serves, queue[1..] + kids, seen + Elements(kids))
  {
  }

  lemma FreshStep(leafs: map<Hash, Leaf>, links: seq<Hash>, j: nat, seen: set<Hash>)
    requires j < |links|
    ensures
      var take := links[j] in leafs && links[j] !in seen;
      Fresh(leafs, links[j..], seen) ==
      if take then [links[j]] + Fresh(leafs, links[j + 1..], seen + {links[j]}) else Fresh(leafs, links[j + 1..], seen)
  {
    assert links[j..][0] == links[j] && links[j..][1..] == links[j + 1..];
  }
}
