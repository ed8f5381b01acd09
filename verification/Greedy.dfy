/** Cutting a list into blocks first-fit: an item opens a new block when it no longer fits the one
    being filled. No partition into contiguous blocks that fit has fewer. */
module Greedy {
  function Total<T>(size: T -> nat, items: seq<T>): nat {
    if items == [] then 0 else size(items[0]) + Total(size, items[1..])
  }

  function Join<T>(blocks: seq<seq<T>>): seq<T> {
    if blocks == [] then [] else blocks[0] + Join(blocks[1..])
  }

  /** A block fits when it is within the limit, or has a single item, which nothing can be done about. */
  predicate Fits<T>(size: T -> nat, limit: nat, block: seq<T>) {
    |block| == 1 || Total(size, block) <= limit
  }

  /** How many items fit after `used` is taken up. */
  function Reach<T>(size: T -> nat, limit: nat, items: seq<T>, used: nat): (n: nat)
    ensures n <= |items|
  {
    if items == [] || used + size(items[0]) > limit then 0
    else 1 + Reach(size, limit, items[1..], used + size(items[0]))
  }

  function FirstLength<T>(size: T -> nat, limit: nat, items: seq<T>): (n: nat)
    requires items != []
    ensures 0 < n <= |items|
  {
    1 + Reach(size, limit, items[1..], size(items[0]))
  }

  function Blocks<T>(size: T -> nat, limit: nat, items: seq<T>): seq<seq<T>> {
    if items == [] then []
    else
      var n := FirstLength(size, limit, items);
      [items[..n]] + Blocks(size, limit, items[n..])
  }

  lemma {:induction false} TotalConcat<T>(size: T -> nat, a: seq<T>, b: seq<T>)
    ensures Total(size, a + b) == Total(size, a) + Total(size, b)
  {
    if a == [] {
      assert a + b == b;
    } else {
      assert (a + b)[1..] == a[1..] + b;
      TotalConcat(size, a[1..], b);
    }
  }

  lemma TotalSnoc<T>(size: T -> nat, a: seq<T>, x: T)
    ensures Total(size, a + [x]) == Total(size, a) + size(x)
  {
    TotalConcat(size, a, [x]);
    assert [x][1..] == [];
  }

  lemma {:induction false} JoinConcat<T>(a: seq<seq<T>>, b: seq<seq<T>>)
    ensures Join(a + b) == Join(a) + Join(b)
  {
    if a == [] {
      assert a + b == b;
    } else {
      assert (a + b)[1..] == a[1..] + b;
      JoinConcat(a[1..], b);
    }
  }

  /** The items reached fit, and one more would not. */
  lemma {:induction false} ReachExact<T>(size: T -> nat, limit: nat, items: seq<T>, used: nat, m: nat)
    requires m <= |items|
    ensures m <= Reach(size, limit, items, used) <==> m == 0 || used + Total(size, items[..m]) <= limit
  {
    if m > 0 {
      assert items[..m][1..] == items[1..][..m - 1];
      ReachExact(size, limit, items[1..], used + size(items[0]), m - 1);
      if m == 1 {
        assert Total(size, items[..m][1..]) == 0;
      }
    }
  }

  /** The first block is as long as any block that fits. */
  lemma FirstLongest<T>(size: T -> nat, limit: nat, items: seq<T>, m: nat)
    requires 0 < m <= |items|
    ensures m <= FirstLength(size, limit, items) <==> Fits(size, limit, items[..m])
  {
    ReachExact(size, limit, items[1..], size(items[0]), m - 1);
    assert items[..m][1..] == items[1..][..m - 1];
  }

  /** What fits still fits without its first items. */
  lemma {:induction false} DropFits<T>(size: T -> nat, limit: nat, block: seq<T>, k: nat)
    requires k < |block| && Fits(size, limit, block)
    ensures Fits(size, limit, block[k..])
  {
    assert block == block[..k] + block[k..];
    TotalConcat(size, block[..k], block[k..]);
  }

  lemma {:induction false} BlocksJoin<T>(size: T -> nat, limit: nat, items: seq<T>)
    ensures Join(Blocks(size, limit, items)) == items
    ensures forall b :: b in Blocks(size, limit, items) ==> b != [] && Fits(size, limit, b)
    decreases |items|
  {
    if items != [] {
      var n := FirstLength(size, limit, items);
      BlocksJoin(size, limit, items[n..]);
      FirstLongest(size, limit, items, n);
      var rest := Blocks(size, limit, items[n..]);
      assert ([items[..n]] + rest)[1..] == rest;
    }
  }

  lemma DropDrop<T>(s: seq<T>, n: nat, k: nat)
    requires n <= k <= |s|
    ensures s[k..] == s[n..][k - n..]
  {
  }

  lemma DropTake<T>(s: seq<T>, n: nat, k: nat)
    requires k <= n <= |s|
    ensures s[..n][k..] == s[k..][..n - k]
  {
  }

  lemma DropNothing<T>(s: seq<T>)
    ensures s[0..] == s && s[|s|..] == []
  {
  }

  /** Fewer items never need more blocks. */
  lemma {:induction false} SuffixFewer<T>(size: T -> nat, limit: nat, items: seq<T>, k: nat)
    requires k <= |items|
    ensures |Blocks(size, limit, items[k..])| <= |Blocks(size, limit, items)|
    decreases |items|
  {
    hide *;
    DropNothing(items);
    if k == |items| {
      NoItems(size, limit);
    } else if k > 0 {
      var n := FirstLength(size, limit, items);
      BlocksStep(size, limit, items);
      if n <= k {
        DropDrop(items, n, k);
        SuffixFewer(size, limit, items[n..], k - n);
      } else {
        var tail := items[k..];
        FirstLongest(size, limit, items, n);
        DropFits(size, limit, items[..n], k);
        DropTake(items, n, k);
        FirstLongest(size, limit, tail, n - k);
        var n' := FirstLength(size, limit, tail);
        BlocksStep(size, limit, tail);
        DropDrop(items, k, k + n');
        DropDrop(items, n, k + n');
        SuffixFewer(size, limit, items[n..], n' - (n - k));
      }
    }
  }

  /** Starting with a shorter block does not help. */
  lemma ShorterFirst<T>(size: T -> nat, limit: nat, items: seq<T>, m: nat)
    requires 0 < m <= |items| && Fits(size, limit, items[..m])
    ensures |Blocks(size, limit, items)| <= 1 + |Blocks(size, limit, items[m..])|
  {
    hide *;
    var n := FirstLength(size, limit, items);
    FirstLongest(size, limit, items, m);
    BlocksStep(size, limit, items);
    assert items[n..] == items[m..][n - m..];
    SuffixFewer(size, limit, items[m..], n - m);
  }

  lemma BlocksStep<T>(size: T -> nat, limit: nat, items: seq<T>)
    requires items != []
    ensures
      var n := FirstLength(size, limit, items);
      Blocks(size, limit, items) == [items[..n]] + Blocks(size, limit, items[n..])
  {
  }

  /** First-fit is optimal. */
  lemma {:induction false} GreedyOptimal<T>(size: T -> nat, limit: nat, items: seq<T>, partition: seq<seq<T>>)
    requires Join(partition) == items && forall b :: b in partition ==> Fits(size, limit, b)
    ensures |Blocks(size, limit, items)| <= |partition|
    decreases |partition|
  {
    hide Blocks, Fits;
    if partition == [] {
      NoItems(size, limit);
    } else {
      var b, rest := partition[0], partition[1..];
      GreedyOptimal(size, limit, Join(rest), rest);
      if b == [] {
        assert items == Join(rest);
      } else {
        Halves(b, Join(rest));
        ShorterFirst(size, limit, items, |b|);
      }
    }
  }

  lemma NoItems<T>(size: T -> nat, limit: nat)
    ensures Blocks(size, limit, []) == []
  {
  }

  lemma Halves<T>(a: seq<T>, b: seq<T>)
    ensures (a + b)[..|a|] == a && (a + b)[|a|..] == b
  {
  }

  // ----- As the items come in -----

  /** The blocks closed so far and the one being filled. */
  datatype Filling<T> = Filling(done: seq<seq<T>>, current: seq<T>)

  function Fill<T>(size: T -> nat, limit: nat, items: seq<T>): Filling<T>
    requires items != []
    decreases |items|
  {
    var n := |items| - 1;
    if n == 0 then Filling([], items) else FillNext(size, limit, Fill(size, limit, items[..n]), items[n])
  }

  function FillNext<T>(size: T -> nat, limit: nat, f: Filling<T>, x: T): Filling<T> {
    if Total(size, f.current) + size(x) > limit then Filling(f.done + [f.current], [x])
    else Filling(f.done, f.current + [x])
  }

  lemma FillSnoc<T>(size: T -> nat, limit: nat, items: seq<T>, x: T)
    requires items != []
    ensures Fill(size, limit, items + [x]) == FillNext(size, limit, Fill(size, limit, items), x)
  {
    assert (items + [x])[..|items|] == items;
  }

  /** A block that the next item does not fit is closed. */
  lemma CloseBlock<T>(size: T -> nat, limit: nat, current: seq<T>, x: T, rest: seq<T>)
    requires current != [] && Fits(size, limit, current) && Total(size, current) + size(x) > limit
    ensures Blocks(size, limit, current + ([x] + rest)) == [current] + Blocks(size, limit, [x] + rest)
  {
    hide Blocks, FirstLength;
    var items := current + ([x] + rest);
    Halves(current, [x] + rest);
    assert items[..|current| + 1] == current + [x];
    TotalSnoc(size, current, x);
    FirstLongest(size, limit, items, |current|);
    FirstLongest(size, limit, items, |current| + 1);
    BlocksStep(size, limit, items);
  }

  lemma {:induction false} FillThen<T>(size: T -> nat, limit: nat, items: seq<T>, rest: seq<T>)
    requires items != []
    ensures
      var f := Fill(size, limit, items);
      && f.current != [] && Fits(size, limit, f.current)
      && Blocks(size, limit, items + rest) == f.done + Blocks(size, limit, f.current + rest)
    decreases |items|
  {
    hide Blocks, Total;
    var n := |items| - 1;
    if n == 0 {
      assert [] + Blocks(size, limit, items + rest) == Blocks(size, limit, items + rest);
    } else {
      var x := items[n];
      var before := Fill(size, limit, items[..n]);
      FillThen(size, limit, items[..n], [x] + rest);
      assert items + rest == items[..n] + ([x] + rest);
      if Total(size, before.current) + size(x) > limit {
        CloseBlock(size, limit, before.current, x, rest);
      } else {
        TotalSnoc(size, before.current, x);
        assert before.current + ([x] + rest) == before.current + [x] + rest;
      }
    }
  }

  /** Filling blocks as the items come gives the first-fit blocks. */
  lemma FillIsGreedy<T>(size: T -> nat, limit: nat, items: seq<T>)
    requires items != []
    ensures Blocks(size, limit, items) == Fill(size, limit, items).done + [Fill(size, limit, items).current]
  {
    hide Fill;
    var f := Fill(size, limit, items);
    FillThen(size, limit, items, []);
    assert items + [] == items && f.current + [] == f.current;
    FirstLongest(size, limit, f.current, |f.current|);
    assert f.current[..|f.current|] == f.current && f.current[|f.current|..] == [];
    BlocksStep(size, limit, f.current);
  }
}
