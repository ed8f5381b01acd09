/** `IterateDag`: a depth-first walk that visits each leaf once. The order in which a leaf's links
    are taken comes from an unstable sort whose comparison puts all CIDs level, so it is a parameter:
    any fixed rearrangement of a list. */
module Traversal {
  import opened ByteStrings
  import opened DagModel

  datatype Visit = Visit(hash: Hash, parent: Option<Hash>)

  /** The visits made, the leaves seen, and whether no link led to a missing leaf. */
  datatype Walked = Walked(visits: seq<Visit>, seen: set<Hash>, complete: bool)

  type Order = seq<Hash> -> seq<Hash>

  ghost predicate Rearranges(order: Order) {
    forall s :: multiset(order(s)) == multiset(s)
  }

  function Children(order: Order, l: Leaf): seq<Visit> {
    var links := order(l.links);
    seq(|links|, i requires 0 <= i < |links| => Visit(links[i], Some(l.hash)))
  }

  /** Takes the visits to make from the front, each followed by those below it. */
  ghost function Walk(leafs: map<Hash, Leaf>, order: Order, todo: seq<Visit>, seen: set<Hash>): Walked
    decreases leafs.Keys - seen, |todo|
  {
    if todo == [] then Walked([], seen, true)
    else
      var v := todo[0];
      if v.hash !in leafs then Walked([], seen, false)
      else if v.hash in seen then Walk(leafs, order, todo[1..], seen)
      else
        var rest := Walk(leafs, order, Children(order, leafs[v.hash]) + todo[1..], seen + {v.hash});
        Walked([v] + rest.visits, rest.seen, rest.complete)
  }

  ghost function Then(w: Walked, rest: Walked): Walked {
    if w.complete then Walked(w.visits + rest.visits, rest.seen, rest.complete) else w
  }

  /** Walking two lists is walking the first and then the second. */
  lemma {:induction false} WalkConcat(leafs: map<Hash, Leaf>, order: Order, a: seq<Visit>, b: seq<Visit>,
                                      seen: set<Hash>)
    ensures
      var w := Walk(leafs, order, a, seen);
      Walk(leafs, order, a + b, seen) == Then(w, Walk(leafs, order, b, w.seen))
    decreases leafs.Keys - seen, |a|
  {
    if a == [] {
      assert a + b == b;
    } else {
      var v := a[0];
      assert (a + b)[1..] == a[1..] + b;
      if v.hash in leafs {
        if v.hash in seen {
          WalkConcat(leafs, order, a[1..], b, seen);
        } else {
          var below := Children(order, leafs[v.hash]);
          assert below + (a[1..] + b) == below + a[1..] + b;
          WalkConcat(leafs, order, below + a[1..], b, seen + {v.hash});
        }
      }
    }
  }

  /** The recursive closure of `IterateDag`, handing back the visits in the order made. */
  method Iterate(leafs: map<Hash, Leaf>, order: Order, v: Visit, seen: set<Hash>) returns (w: Walked)
    ensures w == Walk(leafs, order, [v], seen)
    decreases leafs.Keys - seen
  {
    assert [v][1..] == [];
    if v.hash !in leafs {
      return Walked([], seen, false);
    }
    if v.hash in seen {
      return Walked([], seen, true);
    }
    var below := Children(order, leafs[v.hash]);
    assert below + [] == below;
    var start := seen + {v.hash};
    w := Walked([], start, true);
    assert below[..0] == [];
    for i := 0 to |below|
      invariant w == Walk(leafs, order, below[..i], start) && w.complete && start <= w.seen
    {
      assert below[..i + 1] == below[..i] + [below[i]];
      WalkConcat(leafs, order, below[..i], [below[i]], start);
      var next := Iterate(leafs, order, below[i], w.seen);
      SeenGrows(leafs, order, [below[i]], w.seen);
      if !next.complete {
        assert below == below[..i + 1] + below[i + 1..];
        WalkConcat(leafs, order, below[..i + 1], below[i + 1..], start);
        return Walked([v] + (w.visits + next.visits), next.seen, false);
      }
      w := Walked(w.visits + next.visits, next.seen, true);
    }
    assert below[..|below|] == below;
    w := Walked([v] + w.visits, w.seen, true);
  }

  /** The walk from a DAG's root. */
  ghost function WalkOf(g: Graph, order: Order): Walked {
    Walk(g.leafs, order, [Visit(g.root, None)], {})
  }

  method IterateDag(d: Dag, order: Order) returns (visits: seq<Visit>, complete: bool)
    ensures WalkOf(d.View(), order) == Walked(visits, WalkOf(d.View(), order).seen, complete)
  {
    var w := Iterate(d.leafs, order, Visit(d.root, None), {});
    visits, complete := w.visits, w.complete;
  }

  // ----- Each reachable leaf exactly once -----

  lemma {:induction false} SeenGrows(leafs: map<Hash, Leaf>, order: Order, todo: seq<Visit>, seen: set<Hash>)
    ensures
      var w := Walk(leafs, order, todo, seen);
      && seen <= w.seen
      && (forall i :: 0 <= i < |w.visits| ==> w.visits[i].hash in w.seen - seen && w.visits[i].hash in leafs)
      && (forall h :: h in w.seen - seen ==> exists i :: 0 <= i < |w.visits| && w.visits[i].hash == h)
    decreases leafs.Keys - seen, |todo|
  {
    if todo != [] {
      var v := todo[0];
      if v.hash in leafs {
        if v.hash in seen {
          SeenGrows(leafs, order, todo[1..], seen);
        } else {
          var rest := Walk(leafs, order, Children(order, leafs[v.hash]) + todo[1..], seen + {v.hash});
          SeenGrows(leafs, order, Children(order, leafs[v.hash]) + todo[1..], seen + {v.hash});
          var visits := [v] + rest.visits;
          forall h | h in rest.seen - seen
            ensures exists i :: 0 <= i < |visits| && visits[i].hash == h
          {
            if h == v.hash {
              assert visits[0].hash == h;
            } else {
              assert h in rest.seen - (seen + {v.hash});
              var i :| 0 <= i < |rest.visits| && rest.visits[i].hash == h;
              assert visits[i + 1].hash == h;
            }
          }
        }
      }
    }
  }

  ghost predicate DistinctVisits(visits: seq<Visit>) {
    forall i, j :: 0 <= i < j < |visits| ==> visits[i].hash != visits[j].hash
  }

  ghost predicate AllHaveParents(visits: seq<Visit>) {
    forall i :: 0 <= i < |visits| ==> visits[i].parent.Some?
  }

  lemma {:induction false} VisitsDistinct(leafs: map<Hash, Leaf>, order: Order, todo: seq<Visit>, seen: set<Hash>)
    ensures DistinctVisits(Walk(leafs, order, todo, seen).visits)
    decreases leafs.Keys - seen, |todo|
  {
    if todo != [] {
      var v := todo[0];
      if v.hash in leafs {
        if v.hash in seen {
          VisitsDistinct(leafs, order, todo[1..], seen);
        } else {
          var below := Children(order, leafs[v.hash]) + todo[1..];
          var rest := Walk(leafs, order, below, seen + {v.hash}).visits;
          VisitsDistinct(leafs, order, below, seen + {v.hash});
          SeenGrows(leafs, order, below, seen + {v.hash});
          assert forall j :: 0 <= j < |rest| ==> rest[j].hash != v.hash;
          var visits := Walk(leafs, order, todo, seen).visits;
          assert visits == [v] + rest;
          assert forall j :: 0 < j < |visits| ==> visits[j] == rest[j - 1];
        }
      }
    }
  }

  lemma RearrangedMembers(order: Order, s: seq<Hash>)
    requires Rearranges(order)
    ensures forall h :: h in order(s) <==> h in s
  {
    forall h
      ensures h in order(s) <==> h in s
    {
      assert multiset(order(s)) == multiset(s);
      assert h in order(s) <==> h in multiset(order(s));
      assert h in s <==> h in multiset(s);
    }
  }

  lemma ChildHashes(order: Order, l: Leaf, h: Hash)
    requires Rearranges(order)
    ensures (exists i :: 0 <= i < |Children(order, l)| && Children(order, l)[i].hash == h) <==> h in l.links
  {
    RearrangedMembers(order, l.links);
    if h in l.links {
      var i :| 0 <= i < |order(l.links)| && order(l.links)[i] == h;
      assert Children(order, l)[i].hash == h;
    }
  }

  /** A complete walk ends with a set closed under links, among the leaves it newly saw. */
  lemma {:induction false} CompleteIsClosed(leafs: map<Hash, Leaf>, order: Order, todo: seq<Visit>, seen: set<Hash>)
    requires Rearranges(order) && Walk(leafs, order, todo, seen).complete
    ensures
      var w := Walk(leafs, order, todo, seen);
      && (forall i :: 0 <= i < |todo| ==> todo[i].hash in w.seen)
      && (forall h, c :: h in w.seen - seen && h in leafs && c in leafs[h].links ==> c in w.seen)
    decreases leafs.Keys - seen, |todo|
  {
    if todo != [] {
      var v := todo[0];
      var w := Walk(leafs, order, todo, seen);
      if v.hash in seen {
        CompleteIsClosed(leafs, order, todo[1..], seen);
        SeenGrows(leafs, order, todo[1..], seen);
        assert forall i :: 0 < i < |todo| ==> todo[i] == todo[1..][i - 1];
      } else {
        var below := Children(order, leafs[v.hash]);
        var next := below + todo[1..];
        CompleteIsClosed(leafs, order, next, seen + {v.hash});
        SeenGrows(leafs, order, next, seen + {v.hash});
        assert forall i :: 0 < i < |todo| ==> todo[i] == next[|below| + i - 1];
        forall c | c in leafs[v.hash].links
          ensures c in w.seen
        {
          ChildHashes(order, leafs[v.hash], c);
          var i :| 0 <= i < |below| && below[i].hash == c;
          assert next[i].hash == c;
        }
      }
    }
  }

  /** When every link leads to a leaf, the walk is complete. */
  lemma {:induction false} ClosedIsComplete(leafs: map<Hash, Leaf>, order: Order, todo: seq<Visit>, seen: set<Hash>)
    requires Rearranges(order)
    requires forall h, c :: h in leafs && c in leafs[h].links ==> c in leafs
    requires forall i :: 0 <= i < |todo| ==> todo[i].hash in leafs
    ensures Walk(leafs, order, todo, seen).complete
    decreases leafs.Keys - seen, |todo|
  {
    if todo != [] {
      var v := todo[0];
      if v.hash in seen {
        ClosedIsComplete(leafs, order, todo[1..], seen);
      } else {
        var below := Children(order, leafs[v.hash]);
        RearrangedMembers(order, leafs[v.hash].links);
        assert forall i :: 0 <= i < |below| ==> below[i].hash in order(leafs[v.hash].links);
        ClosedIsComplete(leafs, order, below + todo[1..], seen + {v.hash});
      }
    }
  }

  /** Only leaves below those to visit are visited. */
  lemma {:induction false} VisitsStayIn(leafs: map<Hash, Leaf>, order: Order, todo: seq<Visit>, seen: set<Hash>,
                                        s: set<Hash>)
    requires Rearranges(order) && ClosedUnderLinks(leafs, s)
    requires forall i :: 0 <= i < |todo| ==> todo[i].hash in s
    ensures Walk(leafs, order, todo, seen).seen <= seen + s
    decreases leafs.Keys - seen, |todo|
  {
    if todo != [] {
      var v := todo[0];
      if v.hash in leafs {
        if v.hash in seen {
          VisitsStayIn(leafs, order, todo[1..], seen, s);
        } else {
          var below := Children(order, leafs[v.hash]);
          RearrangedMembers(order, leafs[v.hash].links);
          assert forall i :: 0 <= i < |below| ==> below[i].hash in order(leafs[v.hash].links);
          VisitsStayIn(leafs, order, below + todo[1..], seen + {v.hash}, s);
        }
      }
    }
  }

  /** Every visit after the first names the visited parent that links it. */
  ghost predicate ParentsLink(leafs: map<Hash, Leaf>, visits: seq<Visit>) {
    forall i :: 0 <= i < |visits| && visits[i].parent.Some? ==>
                  visits[i].parent.value in leafs && visits[i].hash in leafs[visits[i].parent.value].links
  }

  lemma {:induction false} WalkParentsLink(leafs: map<Hash, Leaf>, order: Order, todo: seq<Visit>, seen: set<Hash>)
    requires Rearranges(order) && Keyed(leafs) && ParentsLink(leafs, todo)
    ensures ParentsLink(leafs, Walk(leafs, order, todo, seen).visits)
    decreases leafs.Keys - seen, |todo|
  {
    if todo != [] {
      var v := todo[0];
      if v.hash in leafs {
        if v.hash in seen {
          WalkParentsLink(leafs, order, todo[1..], seen);
        } else {
          var below := Children(order, leafs[v.hash]);
          RearrangedMembers(order, leafs[v.hash].links);
          assert forall i :: 0 <= i < |below| ==> below[i].hash in order(leafs[v.hash].links);
          WalkParentsLink(leafs, order, below + todo[1..], seen + {v.hash});
        }
      }
    }
  }

  /** A walk over a well-formed DAG visits each of its leaves exactly once, the root first and every
      other leaf through a parent that links it. */
  lemma WalkVisitsEachLeafOnce(e: Suite, g: Graph, order: Order)
    requires WellFormed(e, g) && Rearranges(order)
    ensures
      var w := WalkOf(g, order);
      && w.complete && |w.visits| == |g.leafs|
      && (forall h :: h in g.leafs <==> exists i :: 0 <= i < |w.visits| && w.visits[i].hash == h)
      && DistinctVisits(w.visits)
      && |w.visits| > 0 && w.visits[0] == Visit(g.root, None)
      && ParentsLink(g.leafs, w.visits)
      && AllHaveParents(w.visits[1..])
  {
    hide RootOk, LeafOk, LinksCommitted, Walk;
    var todo := [Visit(g.root, None)];
    var w := WalkOf(g, order);
    ClosedIsComplete(g.leafs, order, todo, {});
    VisitsDistinct(g.leafs, order, todo, {});
    WalkParentsLink(g.leafs, order, todo, {});
    FirstVisit(g, order);
    SeenGrows(g.leafs, order, todo, {});
    SeenEverything(e, g, order);
    VisitCount(w.visits, g.leafs.Keys);
    assert |g.leafs| == |g.leafs.Keys|;
  }

  lemma SeenEverything(e: Suite, g: Graph, order: Order)
    requires WellFormed(e, g) && Rearranges(order) && WalkOf(g, order).complete
    ensures WalkOf(g, order).seen - {} == g.leafs.Keys
  {
    hide RootOk, LeafOk, LinksCommitted, Walk;
    var todo := [Visit(g.root, None)];
    var w := WalkOf(g, order);
    SeenGrows(g.leafs, order, todo, {});
    CompleteIsClosed(g.leafs, order, todo, {});
    assert todo[0].hash in w.seen;
    assert w.seen - {} == w.seen;
    assert ClosedUnderLinks(g.leafs, w.seen);
    forall h | h in g.leafs
      ensures h in w.seen
    {
      assert Reachable(g.leafs, g.root, h);
    }
    forall h | h in w.seen
      ensures h in g.leafs
    {
      assert h in w.seen - {};
    }
  }

  lemma FirstVisit(g: Graph, order: Order)
    requires g.root in g.leafs
    ensures
      var w := WalkOf(g, order);
      && |w.visits| > 0 && w.visits[0] == Visit(g.root, None)
      && AllHaveParents(w.visits[1..])
  {
    var below := Children(order, g.leafs[g.root]);
    var rest := Walk(g.leafs, order, below, {g.root}).visits;
    assert below + [Visit(g.root, None)][1..] == below && {} + {g.root} == {g.root};
    LaterVisitsHaveParents(g.leafs, order, below, {g.root});
    var visits := WalkOf(g, order).visits;
    assert visits == [Visit(g.root, None)] + rest && visits[1..] == rest;
  }

  lemma {:induction false} LaterVisitsHaveParents(leafs: map<Hash, Leaf>, order: Order, todo: seq<Visit>,
                                                  seen: set<Hash>)
    requires AllHaveParents(todo)
    ensures AllHaveParents(Walk(leafs, order, todo, seen).visits)
    decreases leafs.Keys - seen, |todo|
  {
    if todo != [] {
      var v := todo[0];
      if v.hash in leafs {
        if v.hash in seen {
          LaterVisitsHaveParents(leafs, order, todo[1..], seen);
        } else {
          var below := Children(order, leafs[v.hash]) + todo[1..];
          var rest := Walk(leafs, order, below, seen + {v.hash}).visits;
          LaterVisitsHaveParents(leafs, order, below, seen + {v.hash});
          var visits := Walk(leafs, order, todo, seen).visits;
          assert visits == [v] + rest;
          assert forall j :: 0 < j < |visits| ==> visits[j] == rest[j - 1];
        }
      }
    }
  }

  lemma {:induction false} VisitCount(visits: seq<Visit>, hashes: set<Hash>)
    requires DistinctVisits(visits)
    requires forall i :: 0 <= i < |visits| ==> visits[i].hash in hashes
    requires forall h :: h in hashes ==> exists i :: 0 <= i < |visits| && visits[i].hash == h
    ensures |visits| == |hashes|
  {
    var listed := seq(|visits|, i requires 0 <= i < |visits| => visits[i].hash);
    DistinctCardinality(listed);
    forall h | h in hashes
      ensures h in Elements(listed)
    {
      var i :| 0 <= i < |visits| && visits[i].hash == h;
      assert listed[i] == h;
    }
    assert Elements(listed) == hashes;
  }
}
