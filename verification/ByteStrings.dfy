/** Byte strings, the order Go's `<` puts on them, and sorting by a strict total order.
    Go strings and byte slices are both modelled as sequences of bytes. */
module ByteStrings {
  type byte = x: int | 0 <= x < 0x100

  type Bytes = seq<byte>

  datatype Option<+T> = None | Some(value: T) {
    function GetOr(default: T): T {
      if None? then default else value
    }
  }

  datatype Result<+T, +E> = Ok(value: T) | Err(error: E)

  /** Go's `<` on strings, and `bytes.Compare(a, b) < 0`. */
  predicate Less(a: Bytes, b: Bytes) {
    if b == [] then false
    else if a == [] then true
    else a[0] < b[0] || (a[0] == b[0] && Less(a[1..], b[1..]))
  }

  ghost predicate StrictOrder<T(!new)>(less: (T, T) -> bool) {
    && (forall a :: !less(a, a))
    && (forall a, b, c :: less(a, b) && less(b, c) ==> less(a, c))
    && (forall a, b :: less(a, b) || less(b, a) || a == b)
  }

  lemma {:induction false} LessIrreflexive(a: Bytes)
    ensures !Less(a, a)
  {
    if a != [] {
      LessIrreflexive(a[1..]);
    }
  }

  lemma {:induction false} LessTransitive(a: Bytes, b: Bytes, c: Bytes)
    requires Less(a, b) && Less(b, c)
    ensures Less(a, c)
  {
    if a != [] && a[0] == b[0] && b[0] == c[0] {
      LessTransitive(a[1..], b[1..], c[1..]);
    }
  }

  lemma LessAsymmetric(a: Bytes, b: Bytes)
    requires Less(a, b)
    ensures !Less(b, a) && a != b
  {
    LessIrreflexive(a);
    if Less(b, a) {
      LessTransitive(a, b, a);
    }
  }

  /** Bytewise order: a is a proper prefix of b, or smaller at the first place where they differ. */
  ghost predicate ComesBefore(a: Bytes, b: Bytes) {
    exists i: nat :: && i <= |a| && i < |b| && a[..i] == b[..i] && (i < |a| ==> a[i] < b[i])
  }

  lemma SamePrefixFirst(a: Bytes, b: Bytes, i: nat)
    requires i <= |a| && i <= |b| && a[..i] == b[..i]
    ensures i > 0 ==> a[0] == b[0]
  {
    if i > 0 {
      assert a[..i][0] == a[0] && b[..i][0] == b[0];
    }
  }

  lemma {:induction false} LessIsBytewise(a: Bytes, b: Bytes)
    ensures Less(a, b) <==> ComesBefore(a, b)
  {
    if a != [] && b != [] && a[0] == b[0] {
      LessIsBytewise(a[1..], b[1..]);
      if ComesBefore(a[1..], b[1..]) {
        var i: nat :| && i <= |a| - 1 && i < |b| - 1 && a[1..][..i] == b[1..][..i]
          && (i < |a| - 1 ==> a[1..][i] < b[1..][i]);
        assert a[..i + 1] == [a[0]] + a[1..][..i] && b[..i + 1] == [b[0]] + b[1..][..i];
      }
      if ComesBefore(a, b) {
        var i: nat :| && i <= |a| && i < |b| && a[..i] == b[..i] && (i < |a| ==> a[i] < b[i]);
        assert i > 0;
        assert a[1..][..i - 1] == a[..i][1..] && b[1..][..i - 1] == b[..i][1..];
      }
    } else if a != [] && b != [] {
      if a[0] < b[0] {
        assert a[..0] == b[..0];
      }
      if ComesBefore(a, b) {
        var i: nat :| && i <= |a| && i < |b| && a[..i] == b[..i] && (i < |a| ==> a[i] < b[i]);
        SamePrefixFirst(a, b, i);
      }
    } else if b != [] {
      assert a[..0] == b[..0];
    }
  }

  lemma {:induction false} LessTotal(a: Bytes, b: Bytes)
    ensures Less(a, b) || Less(b, a) || a == b
  {
    if a != [] && b != [] && a[0] == b[0] {
      LessTotal(a[1..], b[1..]);
      assert a == [a[0]] + a[1..] && b == [b[0]] + b[1..];
    }
  }

  /** Comparison of strings that agree on a prefix is decided by what follows it. */
  lemma {:induction false} LessSamePrefix(p: Bytes, a: Bytes, b: Bytes)
    ensures Less(p + a, p + b) == Less(a, b)
  {
    if p == [] {
      assert p + a == a && p + b == b;
    } else {
      assert (p + a)[1..] == p[1..] + a && (p + b)[1..] == p[1..] + b;
      LessSamePrefix(p[1..], a, b);
    }
  }

  lemma LessStrictOrder()
    ensures StrictOrder(Less)
  {
    forall a {
      LessIrreflexive(a);
    }
    forall a, b, c | Less(a, b) && Less(b, c)
      ensures Less(a, c)
    {
      LessTransitive(a, b, c);
    }
    forall a, b
      ensures Less(a, b) || Less(b, a) || a == b
    {
      LessTotal(a, b);
    }
  }

  // ----- Sorted, duplicate-free key lists -----

  ghost predicate Ascending<T>(less: (T, T) -> bool, s: seq<T>) {
    forall i, j :: 0 <= i < j < |s| ==> less(s[i], s[j])
  }

  ghost function Elements<T>(s: seq<T>): set<T> {
    set x | x in s
  }

  ghost predicate Distinct<T>(s: seq<T>) {
    forall i, j :: 0 <= i < j < |s| ==> s[i] != s[j]
  }

  /** Inserts a key into an ascending list, keeping one copy of each key. */
  function Insert<T(==,!new)>(less: (T, T) -> bool, x: T, s: seq<T>): (r: seq<T>)
    ensures forall y :: y in r <==> y == x || y in s
  {
    if s == [] then [x]
    else if s[0] == x then s
    else if less(x, s[0]) then [x] + s
    else [s[0]] + Insert(less, x, s[1..])
  }

  /** The keys of a list in ascending order, each once: what collecting them into a Go map
      and sorting the map's keys yields. */
  function SortedKeys<T(==,!new)>(less: (T, T) -> bool, s: seq<T>): (r: seq<T>)
    ensures forall y :: y in r <==> y in s
  {
    if s == [] then [] else Insert(less, s[0], SortedKeys(less, s[1..]))
  }

  lemma {:induction false} InsertAscending<T(!new)>(less: (T, T) -> bool, x: T, s: seq<T>)
    requires StrictOrder(less) && Ascending(less, s)
    ensures Ascending(less, Insert(less, x, s))
  {
    if s != [] && s[0] != x && !less(x, s[0]) {
      InsertAscending(less, x, s[1..]);
      var r := Insert(less, x, s[1..]);
      forall j | 0 <= j < |r|
        ensures less(s[0], r[j])
      {
        assert r[j] in r;
        if r[j] in s[1..] {
          var k :| 0 <= k < |s[1..]| && s[1..][k] == r[j];
          assert less(s[0], s[k + 1]);
        }
      }
    }
  }

  lemma {:induction false} SortedKeysAscending<T(!new)>(less: (T, T) -> bool, s: seq<T>)
    requires StrictOrder(less)
    ensures Ascending(less, SortedKeys(less, s))
    ensures Elements(SortedKeys(less, s)) == Elements(s)
  {
    if s != [] {
      SortedKeysAscending(less, s[1..]);
      InsertAscending(less, s[0], SortedKeys(less, s[1..]));
    }
  }

  lemma NoElementsNothing<T>(t: seq<T>)
    ensures Elements(t) == {} ==> t == []
  {
    if t != [] {
      assert t[0] in Elements(t);
    }
  }

  /** An ascending list is determined by its set of elements. */
  lemma {:induction false} AscendingUnique<T(!new)>(less: (T, T) -> bool, s: seq<T>, t: seq<T>)
    requires StrictOrder(less)
    requires Ascending(less, s) && Ascending(less, t)
    requires Elements(s) == Elements(t)
    ensures s == t
  {
    if s == [] {
      NoElementsNothing(t);
    } else {
      assert s[0] in Elements(s) && s[0] in Elements(t) && t[0] in Elements(s);
      forall y
        ensures y in Elements(s[1..]) <==> y in Elements(t[1..])
      {
        TailElements(less, s, y);
        TailElements(less, t, y);
      }
      AscendingUnique(less, s[1..], t[1..]);
      assert s == [s[0]] + s[1..] && t == [t[0]] + t[1..];
    }
  }

  lemma TailElements<T(!new)>(less: (T, T) -> bool, s: seq<T>, y: T)
    requires StrictOrder(less) && Ascending(less, s) && s != []
    ensures y in Elements(s[1..]) <==> y in Elements(s) && y != s[0]
  {
    if y in s[1..] {
      var k :| 0 <= k < |s[1..]| && s[1..][k] == y;
      assert s[k + 1] == y && less(s[0], s[k + 1]);
    }
    if y in s && y != s[0] {
      var k :| 0 <= k < |s| && s[k] == y;
      assert s[1..][k - 1] == y;
    }
  }

  /** Whatever order the keys were collected in, sorting them gives the same list. */
  lemma SortedKeysOfSameSet<T(!new)>(less: (T, T) -> bool, s: seq<T>, t: seq<T>)
    requires StrictOrder(less)
    requires Elements(s) == Elements(t)
    ensures SortedKeys(less, s) == SortedKeys(less, t)
  {
    SortedKeysAscending(less, s);
    SortedKeysAscending(less, t);
    AscendingUnique(less, SortedKeys(less, s), SortedKeys(less, t));
  }

  lemma AscendingDistinct<T(!new)>(less: (T, T) -> bool, s: seq<T>)
    requires StrictOrder(less) && Ascending(less, s)
    ensures Distinct(s)
  {
  }

  lemma {:induction false} DistinctCardinality<T>(s: seq<T>)
    requires Distinct(s)
    ensures |Elements(s)| == |s|
  {
    if s != [] {
      DistinctCardinality(s[1..]);
      assert Elements(s) == {s[0]} + Elements(s[1..]);
      assert s[0] !in s[1..];
    }
  }

  lemma {:induction false} ElementsAtMost<T>(s: seq<T>)
    ensures |Elements(s)| <= |s|
  {
    if s != [] {
      ElementsAtMost(s[1..]);
      assert Elements(s) == {s[0]} + Elements(s[1..]);
    }
  }

  lemma {:induction false} DistinctByCount<T>(t: seq<T>)
    requires |Elements(t)| == |t|
    ensures Distinct(t)
  {
    if t != [] {
      assert Elements(t) == {t[0]} + Elements(t[1..]);
      ElementsAtMost(t[1..]);
      DistinctByCount(t[1..]);
      assert t[0] !in Elements(t[1..]);
    }
  }

  // ----- Numbers below a bound -----

  /** Distinct numbers below n, as many as n and in order, are the numbers from 0. */
  lemma {:induction false} AllBelow(s: seq<int>, n: nat)
    requires |s| == n && (forall i, j :: 0 <= i < j < n ==> s[i] < s[j]) && forall i :: 0 <= i < n ==> 0 <= s[i] < n
    ensures forall i :: 0 <= i < n ==> s[i] == i
  {
    AtLeastIndex(s, n);
    forall i | 0 <= i < n
      ensures s[i] == i
    {
      AtMostIndex(s, n, i);
    }
  }

  lemma {:induction false} AtLeastIndex(s: seq<int>, n: nat)
    requires n <= |s| && (forall i, j :: 0 <= i < j < n ==> s[i] < s[j]) && forall i :: 0 <= i < n ==> 0 <= s[i]
    ensures forall i :: 0 <= i < n ==> s[i] >= i
  {
    if n > 0 {
      AtLeastIndex(s, n - 1);
      assert n > 1 ==> s[n - 2] < s[n - 1];
    }
  }

  lemma {:induction false} AtMostIndex(s: seq<int>, n: nat, i: nat)
    requires i < n == |s| && (forall i, j :: 0 <= i < j < n ==> s[i] < s[j]) && s[n - 1] < n
    ensures s[i] <= i
    decreases n - i
  {
    if i < n - 1 {
      AtMostIndex(s, n, i + 1);
    }
  }
}
