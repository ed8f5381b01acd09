/** Strided workers. Worker w of a group takes the items w, w + stride, w + 2 * stride, ...
    one at a time, and any worker may take the next step. */
module Workers {
  import opened ByteStrings

  /** The item worker w takes next after `count[w]` items. */
  function NextItem(count: seq<nat>, stride: nat, w: nat): nat
    requires w < |count|
  {
    w + stride * count[w]
  }

  predicate Claimed(count: seq<nat>, stride: nat, j: nat)
    requires stride > 0
  {
    j % stride < |count| && j / stride < count[j % stride]
  }

  lemma MultipleInOrder(stride: nat, s: nat, t: nat)
    ensures s < t ==> stride * s + stride <= stride * t
    ensures t <= s ==> stride * t <= stride * s
  {
    if s < t {
      var d := t - s - 1;
      assert stride * t == stride * s + stride + stride * d;
    } else {
      var d := s - t;
      assert stride * s == stride * t + stride * d;
    }
  }

  lemma DivMod(stride: nat, w: nat, t: nat)
    requires w < stride
    ensures (w + stride * t) % stride == w && (w + stride * t) / stride == t
  {
    var q, r := (w + stride * t) / stride, (w + stride * t) % stride;
    assert stride * q + r == w + stride * t;
    MultipleInOrder(stride, q, t);
    MultipleInOrder(stride, t, q);
  }

  function Items(n: nat): (r: set<nat>)
    ensures forall j: nat :: j in r <==> j < n
  {
    if n == 0 then {} else Items(n - 1) + {n - 1}
  }

  /** `done` is what the workers have taken of the items below n. */
  ghost predicate Progress(count: seq<nat>, stride: nat, n: nat, done: set<nat>)
    requires stride > 0
  {
    && |count| <= stride
    && (|count| == stride || n <= |count|)
    && done <= Items(n)
    && forall j: nat :: j < n ==> (j in done <==> Claimed(count, stride, j))
  }

  predicate HasItem(count: seq<nat>, stride: nat, n: nat, w: nat) {
    w < |count| && NextItem(count, stride, w) < n
  }

  lemma Start(workers: nat, stride: nat, n: nat)
    requires 0 < workers <= stride && (workers == stride || n <= workers)
    ensures Progress(seq(workers, _ => 0), stride, n, {})
  {
  }

  /** A worker's step takes exactly one item, which no worker had taken before. */
  lemma Advance(count: seq<nat>, stride: nat, n: nat, done: set<nat>, w: nat)
    requires stride > 0 && Progress(count, stride, n, done) && HasItem(count, stride, n, w)
    ensures NextItem(count, stride, w) in Items(n) - done
    ensures Progress(count[w := count[w] + 1], stride, n, done + {NextItem(count, stride, w)})
  {
    var next := NextItem(count, stride, w);
    DivMod(stride, w, count[w]);
    forall j: nat | j < n
      ensures Claimed(count[w := count[w] + 1], stride, j) <==> Claimed(count, stride, j) || j == next
    {
      if j % stride == w && j / stride == count[w] {
        assert j == stride * (j / stride) + j % stride;
      }
    }
  }

  /** A worker that is past the end has taken every item of its residue. */
  lemma OwnerPassed(count: seq<nat>, stride: nat, n: nat, j: nat)
    requires stride > 0 && j < n && |count| <= stride && (|count| == stride || n <= |count|)
    requires forall w :: 0 <= w < |count| ==> !HasItem(count, stride, n, w)
    ensures Claimed(count, stride, j)
  {
    var w, t := j % stride, j / stride;
    if n <= |count| {
      DivMod(stride, j, 0);
    }
    assert !HasItem(count, stride, n, w);
    Passed(stride, w, t, count[w], n);
  }

  lemma Passed(stride: nat, w: nat, t: nat, taken: nat, n: nat)
    requires stride * t + w < n <= w + stride * taken
    ensures t < taken
  {
    MultipleInOrder(stride, t, taken);
  }

  /** When no worker has an item left, every item has been taken. */
  lemma AllTaken(count: seq<nat>, stride: nat, n: nat, done: set<nat>)
    requires stride > 0 && Progress(count, stride, n, done)
    requires forall w :: 0 <= w < |count| ==> !HasItem(count, stride, n, w)
    ensures done == Items(n)
  {
    forall j: nat | j < n
      ensures j in done
    {
      OwnerPassed(count, stride, n, j);
    }
  }

  /** A group of workers over items 0 .. n, advanced one item at a time in any order. */
  class Pool {
    const stride: nat
    const n: nat
    var count: seq<nat>
    ghost var done: set<nat>

    ghost predicate Valid()
      reads this
    {
      stride > 0 && Progress(count, stride, n, done)
    }

    constructor (workers: nat, stride: nat, n: nat)
      requires 0 < workers <= stride && (workers == stride || n <= workers)
      ensures Valid() && this.n == n && done == {}
    {
      this.stride, this.n, done := stride, n, {};
      count := seq(workers, _ => 0);
      Start(workers, stride, n);
    }

    /** Some worker with an item left takes it; `None` when there is no such worker. */
    method Step() returns (item: Option<nat>)
      requires Valid()
      modifies this
      ensures Valid()
      ensures
        match item
        case None => done == old(done) == Items(n)
        case Some(i) => i < n && i !in old(done) && done == old(done) + {i}
    {
      if w :| 0 <= w < |count| && HasItem(count, stride, n, w) {
        Advance(count, stride, n, done, w);
        var i := NextItem(count, stride, w);
        count, done := count[w := count[w] + 1], done + {i};
        return Some(i);
      }
      AllTaken(count, stride, n, done);
      return None;
    }
  }
}
