/** Labels: the leaves but the root numbered in traversal order, by decimal strings. */
module Labels {
  import opened ByteStrings
  import opened DagModel
  import opened Traversal
  import opened Decimal

  /** The hashes a traversal numbers, in order. */
  function NonRoots(visits: seq<Visit>, root: Hash): seq<Hash> {
    if visits == [] then []
    else
      var n := |visits| - 1;
      NonRoots(visits[..n], root) + if visits[n].hash == root then [] else [visits[n].hash]
  }

  /** Label i for the i-th hash, counting from one. */
  function Numbering(hashes: seq<Hash>): map<Bytes, Hash> {
    if hashes == [] then map[]
    else
      var n := |hashes| - 1;
      Numbering(hashes[..n])[Itoa(n + 1) := hashes[n]]
  }

  method CalculateLabels(d: Dag, order: Order) returns (ok: bool)
    modifies d`labels
    ensures d.labels == Numbering(NonRoots(WalkOf(d.View(), order).visits, d.root))
    ensures ok == WalkOf(d.View(), order).complete
  {
    hide Walk, WalkOf;
    ghost var g := d.View();
    var visits, complete := IterateDag(d, order);
    var labelCounter := 1;
    d.labels := map[];
    hide NonRoots, Numbering, Itoa;
    NoneNumbered(visits[..0], g.root);
    for i := 0 to |visits|
      invariant labelCounter == |NonRoots(visits[..i], g.root)| + 1
      invariant d.labels == Numbering(NonRoots(visits[..i], g.root))
    {
      NonRootsNext(visits, i, g.root);
      if visits[i].hash != d.root {
        NumberingNext(NonRoots(visits[..i], g.root), visits[i].hash);
        d.labels := d.labels[Itoa(labelCounter) := visits[i].hash];
        labelCounter := labelCounter + 1;
      }
    }
    assert visits[..|visits|] == visits;
    ok := complete;
  }

  lemma NoneNumbered(visits: seq<Visit>, root: Hash)
    requires visits == []
    ensures NonRoots(visits, root) == [] && Numbering([]) == map[]
  {
  }

  lemma NonRootsNext(visits: seq<Visit>, i: nat, root: Hash)
    requires i < |visits|
    ensures NonRoots(visits[..i + 1], root) ==
            if visits[i].hash == root then NonRoots(visits[..i], root)
            else NonRoots(visits[..i], root) + [visits[i].hash]
  {
    assert visits[..i + 1][..i] == visits[..i];
    assert NonRoots(visits[..i], root) + [] == NonRoots(visits[..i], root);
  }

  lemma NumberingNext(hashes: seq<Hash>, h: Hash)
    ensures Numbering(hashes + [h]) == Numbering(hashes)[Itoa(|hashes| + 1) := h]
  {
    assert (hashes + [h])[..|hashes|] == hashes;
  }

  datatype LabelError =
    | NotCalculated | UnknownHash
    | InvalidStart | InvalidEnd | StartTooSmall | EndBeforeStart | EndTooLarge | UnknownLabel(name: Bytes)

  /** Searches the labels in any order. */
  method GetLabel(d: Dag, hash: Hash) returns (r: Result<Bytes, LabelError>)
    ensures hash == d.root ==> r == Ok(Itoa(0))
    ensures hash != d.root && d.labels == map[] ==> r == Err(NotCalculated)
    ensures hash != d.root && d.labels != map[] ==>
              match r
              case Ok(name) => name in d.labels && d.labels[name] == hash
              case Err(error) => error == UnknownHash && forall name :: name in d.labels ==> d.labels[name] != hash
  {
    if hash == d.root {
      return Ok(Itoa(0));
    }
    assert |d.labels| == |d.labels.Keys|;
    if |d.labels| == 0 {
      assert d.labels.Keys == {};
      return Err(NotCalculated);
    }
    var rest := d.labels.Keys;
    while rest != {}
      invariant rest <= d.labels.Keys
      invariant forall name :: name in d.labels && name !in rest ==> d.labels[name] != hash
      decreases rest
    {
      var name :| name in rest;
      rest := rest - {name};
      if d.labels[name] == hash {
        return Ok(name);
      }
    }
    r := Err(UnknownHash);
  }

  /** The guards, in the order they are checked. */
  function RangeError(labels: map<Bytes, Hash>, startLabel: Bytes, endLabel: Bytes): Option<LabelError> {
    var start, end := Atoi(startLabel), Atoi(endLabel);
    if |labels| == 0 then Some(NotCalculated)
    else if start == None then Some(InvalidStart)
    else if end == None then Some(InvalidEnd)
    else if start.value < 1 then Some(StartTooSmall)
    else if end.value < start.value then Some(EndBeforeStart)
    else if end.value > |labels| then Some(EndTooLarge)
    else None
  }

  method GetHashesByLabelRange(d: Dag, startLabel: Bytes, endLabel: Bytes) returns (r: Result<seq<Hash>, LabelError>)
    ensures
      match RangeError(d.labels, startLabel, endLabel)
      case Some(error) => r == Err(error)
      case None =>
        var start, end := Atoi(startLabel).value, Atoi(endLabel).value;
        match r
        case Err(error) =>
          && error.UnknownLabel?
          && exists i: nat :: start <= i <= end && error.name == Itoa(i) && Itoa(i) !in d.labels
        case Ok(hashes) =>
          && |hashes| == end - start + 1
          && forall i: nat :: start <= i <= end ==> Itoa(i) in d.labels && hashes[i - start] == d.labels[Itoa(i)]
  {
    hide Atoi, Itoa;
    if |d.labels| == 0 {
      return Err(NotCalculated);
    }
    var start := Atoi(startLabel);
    if start == None {
      return Err(InvalidStart);
    }
    var end := Atoi(endLabel);
    if end == None {
      return Err(InvalidEnd);
    }
    if start.value < 1 {
      return Err(StartTooSmall);
    }
    if end.value < start.value {
      return Err(EndBeforeStart);
    }
    if end.value > |d.labels| {
      return Err(EndTooLarge);
    }
    var hashes: seq<Hash> := [];
    var i: nat := start.value;
    while i <= end.value
      invariant start.value <= i <= end.value + 1 && |hashes| == i - start.value
      invariant forall j: nat :: start.value <= j < i ==>
                Itoa(j) in d.labels && hashes[j - start.value] == d.labels[Itoa(j)]
      decreases end.value - i
    {
      if Itoa(i) !in d.labels {
        return Err(UnknownLabel(Itoa(i)));
      }
      hashes := hashes + [d.labels[Itoa(i)]];
      i := i + 1;
    }
    r := Ok(hashes);
  }

  // ----- Labels are one to one -----

  lemma {:induction false} NumberingOnly(hashes: seq<Hash>, name: Bytes) returns (i: nat)
    requires name in Numbering(hashes)
    ensures 1 <= i <= |hashes| && name == Itoa(i)
  {
    hide Itoa;
    var n := |hashes| - 1;
    i := n + 1;
    if name != Itoa(n + 1) {
      i := NumberingOnly(hashes[..n], name);
    }
  }

  lemma {:induction false} NumberingAt(hashes: seq<Hash>, i: nat)
    requires 1 <= i <= |hashes|
    ensures Itoa(i) in Numbering(hashes) && Numbering(hashes)[Itoa(i)] == hashes[i - 1]
    decreases |hashes|
  {
    hide Itoa;
    var n := |hashes| - 1;
    if i <= n {
      NumberingAt(hashes[..n], i);
      if Itoa(i) == Itoa(n + 1) {
        ItoaInjective(i, n + 1);
      }
    }
  }

  lemma {:induction false} NumberingSize(hashes: seq<Hash>)
    ensures |Numbering(hashes)| == |hashes|
    decreases |hashes|
  {
    hide Itoa;
    if hashes != [] {
      var n := |hashes| - 1;
      var before := Numbering(hashes[..n]);
      NumberingSize(hashes[..n]);
      if Itoa(n + 1) in before {
        var i := NumberingOnly(hashes[..n], Itoa(n + 1));
        ItoaInjective(i, n + 1);
      }
      assert Numbering(hashes).Keys == before.Keys + {Itoa(n + 1)};
      assert |Numbering(hashes)| == |Numbering(hashes).Keys| && |before| == |before.Keys|;
    }
  }

  /** A numeral from 1 to n. */
  ghost predicate NumeralUpTo(name: Bytes, n: int) {
    exists i: nat :: 1 <= i <= n && name == Itoa(i)
  }

  lemma NumberingFacts(hashes: seq<Hash>)
    ensures |Numbering(hashes)| == |hashes|
    ensures forall name :: name in Numbering(hashes) <==> NumeralUpTo(name, |hashes|)
  {
    hide Itoa, Numbering;
    NumberingSize(hashes);
    forall name
      ensures name in Numbering(hashes) <==> NumeralUpTo(name, |hashes|)
    {
      if name in Numbering(hashes) {
        var i := NumberingOnly(hashes, name);
      }
      if NumeralUpTo(name, |hashes|) {
        var i: nat :| 1 <= i <= |hashes| && name == Itoa(i);
        NumberingAt(hashes, i);
      }
    }
  }

  lemma {:induction false} NonRootsFacts(visits: seq<Visit>, root: Hash)
    requires DistinctVisits(visits)
    ensures Distinct(NonRoots(visits, root))
    ensures forall h :: h in NonRoots(visits, root) <==>
            h != root && exists i :: 0 <= i < |visits| && visits[i].hash == h
  {
    if visits != [] {
      var n := |visits| - 1;
      NonRootsFacts(visits[..n], root);
      var before, all := NonRoots(visits[..n], root), NonRoots(visits, root);
      assert forall i :: 0 <= i < n ==> visits[..n][i] == visits[i];
      forall h
        ensures h in all <==> h != root && exists i :: 0 <= i < |visits| && visits[i].hash == h
      {
        if h != root && exists i :: 0 <= i < |visits| && visits[i].hash == h {
          var i :| 0 <= i < |visits| && visits[i].hash == h;
          assert i < n ==> visits[..n][i].hash == h;
        }
      }
      assert visits[n].hash !in before;
    }
  }

  /** The numbered hashes are those of the leaves but the root, each once. */
  lemma NumberedLeaves(e: Suite, g: Graph, order: Order)
    requires WellFormed(e, g) && Rearranges(order)
    ensures
      var hashes := NonRoots(WalkOf(g, order).visits, g.root);
      Distinct(hashes) && Elements(hashes) == g.leafs.Keys - {g.root} && |hashes| == g.leafs[g.root].leafCount - 1
  {
    hide WellFormed, NonRoots, Walk, ParentsLink, AllHaveParents, DistinctVisits;
    WalkVisitsEachLeafOnce(e, g, order);
    WellFormedCount(e, g);
    var visits := WalkOf(g, order).visits;
    var hashes := NonRoots(visits, g.root);
    NonRootsFacts(visits, g.root);
    DistinctCardinality(hashes);
    forall h
      ensures h in Elements(hashes) <==> h in g.leafs && h != g.root
    {
    }
    assert Elements(hashes) == g.leafs.Keys - {g.root};
    assert g.leafs.Keys == Elements(hashes) + {g.root};
    assert |g.leafs| == |g.leafs.Keys|;
  }

  /** The labels of a well-formed DAG are the numerals from 1 to one less than its leaf count, one for
      each leaf but the root. */
  lemma LabelsAreBijection(e: Suite, g: Graph, order: Order)
    requires WellFormed(e, g) && Rearranges(order)
    ensures
      var labels := Numbering(NonRoots(WalkOf(g, order).visits, g.root));
      && g.root in g.leafs && |labels| == g.leafs[g.root].leafCount - 1
      && (forall name :: name in labels <==> NumeralUpTo(name, g.leafs[g.root].leafCount - 1))
      && labels.Values == g.leafs.Keys - {g.root} && OneToOne(labels)
  {
    hide WellFormed, Itoa, NonRoots, Numbering, WalkOf, Distinct, NumeralUpTo;
    WellFormedCount(e, g);
    NumberedLeaves(e, g, order);
    var hashes := NonRoots(WalkOf(g, order).visits, g.root);
    NumberingFacts(hashes);
    LabelsInvert(hashes);
  }

  ghost predicate OneToOne(labels: map<Bytes, Hash>) {
    forall l, k :: l in labels && k in labels && labels[l] == labels[k] ==> l == k
  }

  lemma LabelsInvert(hashes: seq<Hash>)
    requires Distinct(hashes)
    ensures Numbering(hashes).Values == Elements(hashes) && OneToOne(Numbering(hashes))
  {
    hide Itoa, Numbering;
    var labels := Numbering(hashes);
    forall h | h in Elements(hashes)
      ensures h in labels.Values
    {
      var i: nat :| i < |hashes| && hashes[i] == h;
      NumberingAt(hashes, i + 1);
      assert labels[Itoa(i + 1)] in labels.Values;
    }
    forall h | h in labels.Values
      ensures h in Elements(hashes)
    {
      var name :| name in labels && labels[name] == h;
      var i := NumberingOnly(hashes, name);
      NumberingAt(hashes, i);
    }
    forall l, k | l in labels && k in labels && labels[l] == labels[k]
      ensures l == k
    {
      var i := NumberingOnly(hashes, l);
      var j := NumberingOnly(hashes, k);
      NumberingAt(hashes, i);
      NumberingAt(hashes, j);
      assert hashes[i - 1] == hashes[j - 1];
    }
  }

  /** Two ranges that meet are, put together, the range over both. */
  method JoinedRanges(d: Dag, a: nat, b: nat, c: nat)
    returns (low: Result<seq<Hash>, LabelError>, high: Result<seq<Hash>, LabelError>,
             both: Result<seq<Hash>, LabelError>)
    requires 1 <= a <= b < c <= |d.labels| && c <= MAX_INT
    ensures low.Ok? && high.Ok? ==> both.Ok? && both.value == low.value + high.value
    ensures both.Ok? ==> low.Ok? && high.Ok?
  {
    hide Atoi, Itoa;
    AtoiOfItoa(a);
    AtoiOfItoa(b);
    AtoiOfItoa(b + 1);
    AtoiOfItoa(c);
    low := GetHashesByLabelRange(d, Itoa(a), Itoa(b));
    high := GetHashesByLabelRange(d, Itoa(b + 1), Itoa(c));
    both := GetHashesByLabelRange(d, Itoa(a), Itoa(c));
    if low.Ok? && high.Ok? && both.Ok? {
      forall k | 0 <= k < c - a + 1
        ensures both.value[k] == (low.value + high.value)[k]
      {
        var i: nat := a + k;
        assert both.value[i - a] == d.labels[Itoa(i)];
        assert i <= b ==> low.value[i - a] == d.labels[Itoa(i)];
        assert i > b ==> high.value[i - (b + 1)] == d.labels[Itoa(i)];
      }
    }
  }

  /** The leaves a labelled DAG's labels stand for, from label 1. */
  ghost function Labelled(g: Graph, order: Order): seq<Hash> {
    NonRoots(WalkOf(g, order).visits, g.root)
  }

  /** On a labelled well-formed DAG a range within the labels gives the leaves it names. */
  method LabelledRange(e: Suite, d: Dag, order: Order, a: nat, b: nat) returns (hashes: seq<Hash>)
    requires WellFormed(e, d.View()) && Rearranges(order) && d.labels == Numbering(Labelled(d.View(), order))
    requires d.root in d.leafs && 1 <= a <= b < d.leafs[d.root].leafCount && b <= MAX_INT
    ensures b <= |Labelled(d.View(), order)| && hashes == Labelled(d.View(), order)[a - 1..b]
  {
    hide WellFormed, Atoi, Itoa, Numbering, NonRoots, WalkOf;
    ghost var all := Labelled(d.View(), order);
    NumberedLeaves(e, d.View(), order);
    NumberingSize(all);
    AtoiOfItoa(a);
    AtoiOfItoa(b);
    forall i: nat | a <= i <= b
      ensures Itoa(i) in d.labels && d.labels[Itoa(i)] == all[i - 1]
    {
      NumberingAt(all, i);
    }
    var r := GetHashesByLabelRange(d, Itoa(a), Itoa(b));
    hashes := r.value;
    forall k | 0 <= k < b - a + 1
      ensures hashes[k] == all[a - 1..b][k]
    {
      var i: nat := a + k;
      assert hashes[i - a] == d.labels[Itoa(i)];
    }
  }

  /** Ranges that meet within the labels succeed, and joined they are the range over both. */
  method LabelledRangesJoin(e: Suite, d: Dag, order: Order, a: nat, b: nat, c: nat)
    returns (low: seq<Hash>, high: seq<Hash>, both: seq<Hash>)
    requires WellFormed(e, d.View()) && Rearranges(order) && d.labels == Numbering(Labelled(d.View(), order))
    requires d.root in d.leafs && 1 <= a <= b < c < d.leafs[d.root].leafCount && c <= MAX_INT
    ensures c <= |Labelled(d.View(), order)| && both == Labelled(d.View(), order)[a - 1..c]
    ensures low + high == both && |low| == b - a + 1
  {
    hide WellFormed, Labelled, Numbering;
    low := LabelledRange(e, d, order, a, b);
    high := LabelledRange(e, d, order, b + 1, c);
    both := LabelledRange(e, d, order, a, c);
  }

  /** `GetLabel` inverts the labelling: the i-th leaf's label is the numeral of i. */
  method LabelReadsBack(e: Suite, d: Dag, order: Order, i: nat) returns (name: Result<Bytes, LabelError>)
    requires WellFormed(e, d.View()) && Rearranges(order) && d.labels == Numbering(Labelled(d.View(), order))
    requires d.root in d.leafs && 1 <= i < d.leafs[d.root].leafCount
    ensures i <= |Labelled(d.View(), order)|
    ensures name == Ok(Itoa(i))
  {
    hide WellFormed, Itoa, Numbering, NonRoots, WalkOf;
    ghost var all := Labelled(d.View(), order);
    NumberedLeaves(e, d.View(), order);
    NumberingAt(all, i);
    LabelsInvert(all);
    ghost var h := all[i - 1];
    assert h in Elements(all);
    name := GetLabel(d, d.labels[Itoa(i)]);
    if name.Ok? {
      assert name.value in d.labels && d.labels[name.value] == d.labels[Itoa(i)];
    }
  }
}
