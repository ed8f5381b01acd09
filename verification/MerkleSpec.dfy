/** What a Merkle tree over a list of leaves is: its root, and the proof of each leaf, each given
    by one recursion on the level above. The builders in MerkleTree.dfy are proved against it. */
module MerkleSpec {

  /** Combines two hashes into the hash of the node above them. */
  type Combiner<!T> = (T, T) -> T

  /** `path` bit k says that the node at level k is a left child. */
  datatype Proof<+T> = Proof(siblings: seq<T>, path: nat)

  // ----- The tree, level by level -----

  function Pad<T>(s: seq<T>): seq<T>
    requires |s| > 0
  {
    if |s| % 2 == 0 then s else s + [s[|s| - 1]]
  }

  /** The level above: one node for each pair of neighbours, a last odd one paired with itself. */
  function Up<T>(c: Combiner<T>, s: seq<T>): (r: seq<T>)
    requires |s| > 0
    ensures |r| == (|s| + 1) / 2
    decreases |s|
  {
    if |s| == 1 then [c(s[0], s[0])]
    else if |s| == 2 then [c(s[0], s[1])]
    else [c(s[0], s[1])] + Up(c, s[2..])
  }

  function Root<T>(c: Combiner<T>, leaves: seq<T>): T
    requires |leaves| > 0
    decreases |leaves|
  {
    if |leaves| == 1 then leaves[0] else Root(c, Up(c, leaves))
  }

  /** The other child of node i's parent; a last odd node is its own sibling. */
  function Sibling<T>(s: seq<T>, i: nat): T
    requires i < |s|
  {
    if i % 2 == 1 then s[i - 1] else if i + 1 < |s| then s[i + 1] else s[i]
  }

  function PathBit(i: nat): nat {
    if i % 2 == 0 then 1 else 0
  }

  function ProofOf<T>(c: Combiner<T>, leaves: seq<T>, i: nat): Proof<T>
    requires i < |leaves|
    decreases |leaves|
  {
    if |leaves| == 1 then Proof([], 0)
    else
      var above := ProofOf(c, Up(c, leaves), i / 2);
      Proof([Sibling(leaves, i)] + above.siblings, PathBit(i) + 2 * above.path)
  }

  /** The hash a verifier computes by climbing from a leaf with the given siblings. */
  function Climb<T>(c: Combiner<T>, node: T, siblings: seq<T>, path: nat): T
    decreases |siblings|
  {
    if siblings == [] then node
    else
      var parent := if path % 2 == 1 then c(node, siblings[0]) else c(siblings[0], node);
      Climb(c, parent, siblings[1..], path / 2)
  }

  /** `bits.Len`. */
  function BitLen(x: nat): nat {
    if x == 0 then 0 else 1 + BitLen(x / 2)
  }

  function Depth(n: nat): nat
    requires n > 0
  {
    BitLen(n - 1)
  }

  function Pow2(k: nat): (r: nat)
    ensures r > 0
  {
    if k == 0 then 1 else 2 * Pow2(k - 1)
  }

  // ----- Every proof verifies -----

  /** Node j of the level above hashes nodes 2j and 2j + 1 of the level, the last odd one twice. */
  lemma {:induction false} UpPair<T>(c: Combiner<T>, s: seq<T>, j: nat)
    requires 2 * j < |s|
    ensures Up(c, s)[j] == c(s[2 * j], Sibling(s, 2 * j))
    decreases j
  {
    if j > 0 {
      var t := s[2..];
      UpPair(c, t, j - 1);
      assert Up(c, s) == [c(s[0], s[1])] + Up(c, t);
    }
  }

  /** A node and its sibling hash to the node above them. */
  lemma UpAt<T>(c: Combiner<T>, s: seq<T>, i: nat)
    requires i < |s|
    ensures Up(c, s)[i / 2] == Parent(c, s, i)
  {
    UpPair(c, s, i / 2);
    ParentOfEither(c, s, i);
  }

  function Parent<T>(c: Combiner<T>, s: seq<T>, i: nat): T
    requires i < |s|
  {
    if PathBit(i) == 1 then c(s[i], Sibling(s, i)) else c(Sibling(s, i), s[i])
  }

  lemma ParentOfEither<T>(c: Combiner<T>, s: seq<T>, i: nat)
    requires i < |s|
    ensures Parent(c, s, i) == c(s[2 * (i / 2)], Sibling(s, 2 * (i / 2)))
  {
  }

  lemma ClimbStep<T>(c: Combiner<T>, node: T, sibling: T, rest: seq<T>, bit: nat, path: nat)
    requires bit < 2
    ensures
      Climb(c, node, [sibling] + rest, bit + 2 * path)
      == Climb(c, if bit == 1 then c(node, sibling) else c(sibling, node), rest, path)
  {
    assert ([sibling] + rest)[1..] == rest;
  }

  lemma {:induction false} ProofClimbsToRoot<T>(c: Combiner<T>, leaves: seq<T>, i: nat)
    requires i < |leaves|
    ensures
      var p := ProofOf(c, leaves, i);
      Climb(c, leaves[i], p.siblings, p.path) == Root(c, leaves)
    decreases |leaves|
  {
    if |leaves| > 1 {
      var up := Up(c, leaves);
      var above := ProofOf(c, up, i / 2);
      var sibling := Sibling(leaves, i);
      UpAt(c, leaves, i);
      ClimbStep(c, leaves[i], sibling, above.siblings, PathBit(i), above.path);
      ProofClimbsToRoot(c, up, i / 2);
    }
  }

  lemma {:induction false} ProofShape<T>(c: Combiner<T>, leaves: seq<T>, i: nat)
    requires i < |leaves|
    ensures
      var p := ProofOf(c, leaves, i);
      && |p.siblings| == Depth(|leaves|)
      && p.path == Pow2(Depth(|leaves|)) - 1 - i
    decreases |leaves|
  {
    if |leaves| > 1 {
      ProofShape(c, Up(c, leaves), i / 2);
      assert (|leaves| - 1) / 2 == |Up(c, leaves)| - 1;
    }
  }

  lemma {:induction false} DepthBounds(n: nat)
    requires n > 0
    ensures n <= Pow2(Depth(n))
    ensures n > 1 ==> Depth(n) > 0 && Pow2(Depth(n) - 1) < n
    decreases n
  {
    if n > 1 {
      DepthBounds((n + 1) / 2);
      assert (n + 1) / 2 - 1 == (n - 1) / 2;
    }
  }

  // ----- The same tree from the bottom: levels, node indices and growing proofs -----

  function LevelAt<T>(c: Combiner<T>, leaves: seq<T>, k: nat): (r: seq<T>)
    requires |leaves| > 0
    ensures |r| > 0
    decreases k
  {
    if k == 0 then leaves else LevelAt(c, Up(c, leaves), k - 1)
  }

  lemma {:induction false} LevelStep<T>(c: Combiner<T>, leaves: seq<T>, k: nat)
    requires |leaves| > 0
    ensures LevelAt(c, leaves, k + 1) == Up(c, LevelAt(c, leaves, k))
    decreases k
  {
    if k > 0 {
      LevelStep(c, Up(c, leaves), k - 1);
    }
  }

  lemma {:induction false} LevelLengths<T>(c: Combiner<T>, leaves: seq<T>, k: nat)
    requires |leaves| > 0
    requires k <= Depth(|leaves|)
    ensures Depth(|LevelAt(c, leaves, k)|) == Depth(|leaves|) - k
    ensures k < Depth(|leaves|) ==> |LevelAt(c, leaves, k)| >= 2
    ensures k + 1 == Depth(|leaves|) ==> |LevelAt(c, leaves, k)| == 2
    ensures k == Depth(|leaves|) ==> |LevelAt(c, leaves, k)| == 1
    decreases k
  {
    if k > 0 {
      assert (|leaves| - 1) / 2 == |Up(c, leaves)| - 1;
      LevelLengths(c, Up(c, leaves), k - 1);
    } else if Depth(|leaves|) == 1 {
      assert BitLen((|leaves| - 1) / 2) == 0;
    }
  }

  lemma {:induction false} RootIsTopLevel<T>(c: Combiner<T>, leaves: seq<T>)
    requires |leaves| > 0
    ensures Depth(|LevelAt(c, leaves, Depth(|leaves|))|) == 0
    ensures LevelAt(c, leaves, Depth(|leaves|)) == [Root(c, leaves)]
    decreases |leaves|
  {
    if |leaves| > 1 {
      assert (|leaves| - 1) / 2 == |Up(c, leaves)| - 1;
      RootIsTopLevel(c, Up(c, leaves));
    }
  }

  /** The index at level k of the node above leaf i. */
  function NodeIndex(i: nat, k: nat): nat {
    if k == 0 then i else NodeIndex(i / 2, k - 1)
  }

  lemma {:induction false} NodeIndexStep(i: nat, k: nat)
    ensures NodeIndex(i, k + 1) == NodeIndex(i, k) / 2
  {
    if k > 0 {
      NodeIndexStep(i / 2, k - 1);
    }
  }

  /** Node j of level k stands above the leaves j * 2^k up to (j + 1) * 2^k. */
  lemma {:induction false} NodeIndexRange(i: nat, k: nat, j: nat)
    ensures NodeIndex(i, k) == j <==> j * Pow2(k) <= i < (j + 1) * Pow2(k)
  {
    if k > 0 {
      NodeIndexRange(i / 2, k - 1, j);
      DoubledRange(i, j, Pow2(k - 1));
    }
  }

  lemma DoubledRange(i: nat, j: nat, b: nat)
    ensures j * b <= i / 2 < (j + 1) * b <==> j * (2 * b) <= i < (j + 1) * (2 * b)
  {
    var lo, hi := j * b, (j + 1) * b;
    assert j * (2 * b) == 2 * lo && (j + 1) * (2 * b) == 2 * hi;
    assert lo <= i / 2 <==> 2 * lo <= i;
    assert i / 2 < hi <==> i < 2 * hi;
  }

  lemma {:induction false} NodeIndexInLevel<T>(c: Combiner<T>, leaves: seq<T>, i: nat, k: nat)
    requires i < |leaves|
    ensures NodeIndex(i, k) < |LevelAt(c, leaves, k)|
    decreases k
  {
    if k > 0 {
      NodeIndexInLevel(c, Up(c, leaves), i / 2, k - 1);
    }
  }

  /** The proof of leaf i as far as level k. */
  function ProofPrefix<T>(c: Combiner<T>, leaves: seq<T>, i: nat, k: nat): Proof<T>
    requires i < |leaves|
    decreases k
  {
    if k == 0 then Proof([], 0)
    else
      var above := ProofPrefix(c, Up(c, leaves), i / 2, k - 1);
      Proof([Sibling(leaves, i)] + above.siblings, PathBit(i) + 2 * above.path)
  }

  lemma {:induction false} ProofPrefixStep<T>(c: Combiner<T>, leaves: seq<T>, i: nat, k: nat)
    requires i < |leaves|
    ensures NodeIndex(i, k) < |LevelAt(c, leaves, k)|
    ensures
      var p, j := ProofPrefix(c, leaves, i, k), NodeIndex(i, k);
      ProofPrefix(c, leaves, i, k + 1)
      == Proof(p.siblings + [Sibling(LevelAt(c, leaves, k), j)], p.path + PathBit(j) * Pow2(k))
    decreases k
  {
    NodeIndexInLevel(c, leaves, i, k);
    if k > 0 {
      ProofPrefixStep(c, Up(c, leaves), i / 2, k - 1);
      var j := NodeIndex(i, k);
      assert PathBit(j) * (2 * Pow2(k - 1)) == 2 * (PathBit(j) * Pow2(k - 1));
    } else {
      assert PathBit(i) * Pow2(0) == PathBit(i);
      assert ProofPrefix(c, Up(c, leaves), i / 2, 0) == Proof([], 0);
    }
  }

  lemma {:induction false} ProofPrefixShape<T>(c: Combiner<T>, leaves: seq<T>, i: nat, k: nat)
    requires i < |leaves|
    ensures |ProofPrefix(c, leaves, i, k).siblings| == k
    ensures ProofPrefix(c, leaves, i, k).path < Pow2(k)
    decreases k
  {
    if k > 0 {
      ProofPrefixShape(c, Up(c, leaves), i / 2, k - 1);
    }
  }

  lemma {:induction false} ProofPrefixComplete<T>(c: Combiner<T>, leaves: seq<T>, i: nat)
    requires i < |leaves|
    ensures ProofPrefix(c, leaves, i, Depth(|leaves|)) == ProofOf(c, leaves, i)
    decreases |leaves|
  {
    if |leaves| > 1 {
      assert (|leaves| - 1) / 2 == |Up(c, leaves)| - 1;
      ProofPrefixComplete(c, Up(c, leaves), i / 2);
    }
  }
}
