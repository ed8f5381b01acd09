/** What a root commits to: an accepted proof is for a leaf of the tree, and equal roots come from
    equal key sets. Both hold whenever the hash function has no collision among the strings that
    were actually hashed, and gives digests of one length. */
module MerkleBinding {
  import opened ByteStrings
  import opened MerkleSpec
  import opened Hashing

  datatype Hasher = Hasher(hash: Bytes -> Bytes, sortSiblingPairs: bool, digestLength: nat)

  function Node(h: Hasher): Combiner<Bytes> {
    NodeHash(h.hash, h.sortSiblingPairs)
  }

  /** Two nodes are hashed left before right or, when sibling pairs are sorted, lower before higher. */
  lemma NodeOrder(h: Hasher, l: Bytes, r: Bytes)
    ensures !h.sortSiblingPairs ==> Node(h)(l, r) == h.hash(l + r)
    ensures h.sortSiblingPairs && Less(l, r) ==> Node(h)(l, r) == h.hash(l + r) == Node(h)(r, l)
  {
    assert Node(h)(l, r) == h.hash(Concat(h.sortSiblingPairs, l, r));
    assert Node(h)(r, l) == h.hash(Concat(h.sortSiblingPairs, r, l));
    if Less(l, r) {
      LessAsymmetric(l, r);
    }
  }

  /** With sorted sibling pairs a climb does not depend on the path. */
  lemma {:induction false} SortedClimbIgnoresPath(h: Hasher, node: Bytes, siblings: seq<Bytes>, path: nat, path': nat)
    requires h.sortSiblingPairs
    ensures Climb(Node(h), node, siblings, path) == Climb(Node(h), node, siblings, path')
    decreases |siblings|
  {
    if siblings != [] {
      var s := siblings[0];
      LessTotal(node, s);
      NodeOrder(h, node, s);
      NodeOrder(h, s, node);
      SortedClimbIgnoresPath(h, Node(h)(node, s), siblings[1..], path / 2, path' / 2);
    }
  }

  ghost predicate FixedLength(h: Hasher) {
    forall x :: |h.hash(x)| == h.digestLength
  }

  ghost predicate NoCollision(h: Hasher, inputs: set<Bytes>) {
    forall x, y :: x in inputs && y in inputs && h.hash(x) == h.hash(y) ==> x == y
  }

  ghost predicate AreDigests(h: Hasher, s: seq<Bytes>) {
    forall i :: 0 <= i < |s| ==> |s[i]| == h.digestLength
  }

  // ----- The strings that are hashed -----

  function ParentInput(h: Hasher, s: seq<Bytes>, i: nat): Bytes
    requires i < |s|
  {
    if PathBit(i) == 1 then Concat(h.sortSiblingPairs, s[i], Sibling(s, i))
    else Concat(h.sortSiblingPairs, Sibling(s, i), s[i])
  }

  /** Hashed while building the tree above the leaves. */
  ghost function TreeInputs(h: Hasher, leaves: seq<Bytes>): set<Bytes>
    requires |leaves| > 0
    decreases |leaves|
  {
    if |leaves| == 1 then {}
    else (set i | 0 <= i < |leaves| :: ParentInput(h, leaves, i)) + TreeInputs(h, Up(Node(h), leaves))
  }

  function ClimbInput(h: Hasher, node: Bytes, sibling: Bytes, path: nat): Bytes {
    if path % 2 == 1 then Concat(h.sortSiblingPairs, node, sibling) else Concat(h.sortSiblingPairs, sibling, node)
  }

  /** Hashed while checking a proof. */
  ghost function ClimbInputs(h: Hasher, node: Bytes, siblings: seq<Bytes>, path: nat): set<Bytes>
    decreases |siblings|
  {
    if siblings == [] then {}
    else
      var input := ClimbInput(h, node, siblings[0], path);
      {input} + ClimbInputs(h, h.hash(input), siblings[1..], path / 2)
  }

  // ----- Concatenations of digests can be taken apart -----

  lemma ConcatDigests(h: Hasher, x: Bytes, sibling: Bytes, l: Bytes, r: Bytes, path: nat)
    requires |x| == |l| == |r| == h.digestLength
    requires ClimbInput(h, x, sibling, path) == Concat(h.sortSiblingPairs, l, r)
    ensures x == l || x == r
  {
    var input := ClimbInput(h, x, sibling, path);
    var n := h.digestLength;
    assert input == x + sibling || input == sibling + x;
    assert input == l + r || input == r + l;
    assert input[..n] == l || input[..n] == r;
    assert input[n..] == l || input[n..] == r;
    assert input == x + sibling ==> input[..n] == x;
    assert input == sibling + x ==> input[n..] == x;
  }

  lemma UpAreDigests(h: Hasher, s: seq<Bytes>)
    requires |s| > 0 && FixedLength(h)
    ensures AreDigests(h, Up(Node(h), s))
  {
    forall j | 0 <= j < |Up(Node(h), s)|
      ensures |Up(Node(h), s)[j]| == h.digestLength
    {
      UpPair(Node(h), s, j);
      var input := Concat(h.sortSiblingPairs, s[2 * j], Sibling(s, 2 * j));
      assert Up(Node(h), s)[j] == h.hash(input);
    }
  }

  /** A hashed pair that gives node j of the level above is made of node j's children. */
  lemma ParentHasChild(h: Hasher, s: seq<Bytes>, j: nat, x: Bytes, sibling: Bytes, path: nat, inputs: set<Bytes>)
    requires 0 < |s| && j < |Up(Node(h), s)|
    requires AreDigests(h, s) && |x| == h.digestLength
    requires NoCollision(h, inputs)
    requires ClimbInput(h, x, sibling, path) in inputs
    requires forall i :: 0 <= i < |s| ==> ParentInput(h, s, i) in inputs
    requires h.hash(ClimbInput(h, x, sibling, path)) == Up(Node(h), s)[j]
    ensures x in s
  {
    UpPair(Node(h), s, j);
    assert ParentInput(h, s, 2 * j) == Concat(h.sortSiblingPairs, s[2 * j], Sibling(s, 2 * j));
    ConcatDigests(h, x, sibling, s[2 * j], Sibling(s, 2 * j), path);
  }

  // ----- Soundness -----

  /** An accepted proof as long as the tree is deep starts at a leaf. */
  lemma {:induction false} AcceptedStartIsLeaf(h: Hasher, leaves: seq<Bytes>, start: Bytes, siblings: seq<Bytes>,
                                               path: nat, inputs: set<Bytes>)
    requires |leaves| > 0 && FixedLength(h) && AreDigests(h, leaves) && |start| == h.digestLength
    requires |siblings| == Depth(|leaves|)
    requires TreeInputs(h, leaves) + ClimbInputs(h, start, siblings, path) <= inputs && NoCollision(h, inputs)
    requires Climb(Node(h), start, siblings, path) == Root(Node(h), leaves)
    ensures start in leaves
    decreases |leaves|
  {
    if |leaves| > 1 {
      assert (|leaves| - 1) / 2 == |Up(Node(h), leaves)| - 1;
      var up := Up(Node(h), leaves);
      var input := ClimbInput(h, start, siblings[0], path);
      var parent := h.hash(input);
      UpAreDigests(h, leaves);
      AcceptedStartIsLeaf(h, up, parent, siblings[1..], path / 2, inputs);
      var j :| 0 <= j < |up| && up[j] == parent;
      ParentHasChild(h, leaves, j, start, siblings[0], path, inputs);
    }
  }

  /** An accepted proof of any length up to the depth starts at a node of the level it implies. */
  lemma AcceptedStartIsNode(h: Hasher, leaves: seq<Bytes>, k: nat, start: Bytes, siblings: seq<Bytes>,
                            path: nat, inputs: set<Bytes>)
    requires |leaves| > 0 && FixedLength(h) && AreDigests(h, leaves) && |start| == h.digestLength
    requires |siblings| + k == Depth(|leaves|)
    requires TreeInputs(h, leaves) + ClimbInputs(h, start, siblings, path) <= inputs && NoCollision(h, inputs)
    requires Climb(Node(h), start, siblings, path) == Root(Node(h), leaves)
    ensures start in LevelAt(Node(h), leaves, k)
    decreases k
  {
    if k == 0 {
      AcceptedStartIsLeaf(h, leaves, start, siblings, path, inputs);
    } else {
      assert (|leaves| - 1) / 2 == |Up(Node(h), leaves)| - 1;
      UpAreDigests(h, leaves);
      AcceptedStartIsNode(h, Up(Node(h), leaves), k - 1, start, siblings, path, inputs);
    }
  }

  /** An inner node is the hash of two digests side by side. */
  lemma {:induction false} InnerNodeInput(h: Hasher, leaves: seq<Bytes>, k: nat, node: Bytes) returns (x: Bytes)
    requires |leaves| > 0 && FixedLength(h) && AreDigests(h, leaves)
    requires 0 < k <= Depth(|leaves|) && node in LevelAt(Node(h), leaves, k)
    ensures x in TreeInputs(h, leaves) && h.hash(x) == node && |x| == 2 * h.digestLength
    decreases k
  {
    var up := Up(Node(h), leaves);
    assert (|leaves| - 1) / 2 == |up| - 1;
    if k > 1 {
      UpAreDigests(h, leaves);
      x := InnerNodeInput(h, up, k - 1, node);
    } else {
      assert LevelAt(Node(h), up, 0) == up;
      var j :| 0 <= j < |up| && up[j] == node;
      UpPair(Node(h), leaves, j);
      x := ParentInput(h, leaves, 2 * j);
    }
  }

  /** A longer accepted proof climbs past a leaf: that leaf is the hash of something hashed on the way. */
  lemma {:induction false} LongerPassesLeaf(h: Hasher, leaves: seq<Bytes>, start: Bytes, siblings: seq<Bytes>,
                                            path: nat, inputs: set<Bytes>)
    returns (x: Bytes)
    requires |leaves| > 0 && FixedLength(h) && AreDigests(h, leaves) && |siblings| > Depth(|leaves|)
    requires TreeInputs(h, leaves) + ClimbInputs(h, start, siblings, path) <= inputs && NoCollision(h, inputs)
    requires Climb(Node(h), start, siblings, path) == Root(Node(h), leaves)
    ensures x in ClimbInputs(h, start, siblings, path) && h.hash(x) in leaves
    decreases |siblings|
  {
    x := ClimbInput(h, start, siblings[0], path);
    if |siblings| - 1 == Depth(|leaves|) {
      AcceptedStartIsLeaf(h, leaves, h.hash(x), siblings[1..], path / 2, inputs);
    } else {
      x := LongerPassesLeaf(h, leaves, h.hash(x), siblings[1..], path / 2, inputs);
    }
  }

  // ----- Key sets -----

  /** The leaves over a list of keys that are their own blocks, as the DAG builds its trees. */
  function KeyLeaves(h: Hasher, keys: seq<Bytes>): seq<Bytes> {
    seq(|keys|, i requires 0 <= i < |keys| => h.hash(keys[i]))
  }

  function KeysRoot(h: Hasher, keys: seq<Bytes>): Bytes
    requires |keys| > 0
  {
    Root(Node(h), KeyLeaves(h, keys))
  }

  ghost function AllInputs(h: Hasher, keys: seq<Bytes>): set<Bytes>
    requires |keys| > 0
  {
    Elements(keys) + TreeInputs(h, KeyLeaves(h, keys))
  }

  /** Checking a proof of a tree hashes nothing that building the tree did not. */
  lemma {:induction false} ProofInputsAreTreeInputs(h: Hasher, leaves: seq<Bytes>, i: nat)
    requires i < |leaves|
    ensures
      var p := ProofOf(Node(h), leaves, i);
      ClimbInputs(h, leaves[i], p.siblings, p.path) <= TreeInputs(h, leaves)
    decreases |leaves|
  {
    if |leaves| > 1 {
      var up := Up(Node(h), leaves);
      var above := ProofOf(Node(h), up, i / 2);
      var p := ProofOf(Node(h), leaves, i);
      UpAt(Node(h), leaves, i);
      ProofInputsAreTreeInputs(h, up, i / 2);
      assert p.siblings[1..] == above.siblings && p.path / 2 == above.path;
      assert ClimbInput(h, leaves[i], p.siblings[0], p.path) == ParentInput(h, leaves, i);
    }
  }

  /** No key is also the input of a node, in the tree or on the way up along the proof. */
  ghost predicate Apart(h: Hasher, keys: seq<Bytes>, key: Bytes, siblings: seq<Bytes>, path: nat)
    requires |keys| > 0
  {
    TreeInputs(h, KeyLeaves(h, keys)) + ClimbInputs(h, h.hash(key), siblings, path) !! Elements(keys) + {key}
  }

  /** An accepted proof is for a key of the tree: always when it is as long as the tree is deep, and at any
      length when no key is also the input of a node. */
  lemma AcceptedKeyIsMember(h: Hasher, keys: seq<Bytes>, key: Bytes, siblings: seq<Bytes>, path: nat)
    requires |keys| > 0 && FixedLength(h)
    requires |siblings| == Depth(|keys|) || Apart(h, keys, key, siblings, path)
    requires NoCollision(h, AllInputs(h, keys) + {key} + ClimbInputs(h, h.hash(key), siblings, path))
    requires Climb(Node(h), h.hash(key), siblings, path) == KeysRoot(h, keys)
    ensures key in keys
  {
    var leaves := KeyLeaves(h, keys);
    var inputs := AllInputs(h, keys) + {key} + ClimbInputs(h, h.hash(key), siblings, path);
    if |siblings| < Depth(|keys|) {
      ShorterIsInput(h, keys, key, siblings, path);
    } else if |siblings| > Depth(|keys|) {
      LongerMeetsInput(h, keys, key, siblings, path);
    } else {
      AcceptedStartIsLeaf(h, leaves, h.hash(key), siblings, path, inputs);
      var i :| 0 <= i < |leaves| && leaves[i] == h.hash(key);
      assert keys[i] in inputs && key in inputs;
    }
  }

  /** A key with a shorter accepted proof is the input of an inner node. */
  lemma ShorterIsInput(h: Hasher, keys: seq<Bytes>, key: Bytes, siblings: seq<Bytes>, path: nat)
    requires |keys| > 0 && FixedLength(h) && |siblings| < Depth(|keys|)
    requires NoCollision(h, AllInputs(h, keys) + {key} + ClimbInputs(h, h.hash(key), siblings, path))
    requires Climb(Node(h), h.hash(key), siblings, path) == KeysRoot(h, keys)
    ensures key in TreeInputs(h, KeyLeaves(h, keys))
  {
    var leaves := KeyLeaves(h, keys);
    var inputs := AllInputs(h, keys) + {key} + ClimbInputs(h, h.hash(key), siblings, path);
    var k := Depth(|keys|) - |siblings|;
    AcceptedStartIsNode(h, leaves, k, h.hash(key), siblings, path, inputs);
    var x := InnerNodeInput(h, leaves, k, h.hash(key));
    assert x in inputs && key in inputs;
  }

  /** With a longer accepted proof one of the tree's keys is the input of a node on the way up. */
  lemma LongerMeetsInput(h: Hasher, keys: seq<Bytes>, key: Bytes, siblings: seq<Bytes>, path: nat)
    requires |keys| > 0 && FixedLength(h) && |siblings| > Depth(|keys|)
    requires NoCollision(h, AllInputs(h, keys) + {key} + ClimbInputs(h, h.hash(key), siblings, path))
    requires Climb(Node(h), h.hash(key), siblings, path) == KeysRoot(h, keys)
    ensures exists x :: x in Elements(keys) && x in ClimbInputs(h, h.hash(key), siblings, path)
  {
    var leaves := KeyLeaves(h, keys);
    var inputs := AllInputs(h, keys) + {key} + ClimbInputs(h, h.hash(key), siblings, path);
    var x := LongerPassesLeaf(h, leaves, h.hash(key), siblings, path, inputs);
    var i :| 0 <= i < |leaves| && leaves[i] == h.hash(x);
    assert keys[i] in inputs && x in inputs && keys[i] in Elements(keys);
  }

  lemma {:induction false} TreeInputLength(h: Hasher, leaves: seq<Bytes>, x: Bytes)
    requires |leaves| > 0 && FixedLength(h) && AreDigests(h, leaves) && x in TreeInputs(h, leaves)
    ensures |x| == 2 * h.digestLength
    decreases |leaves|
  {
    if i :| 0 <= i < |leaves| && x == ParentInput(h, leaves, i) {
    } else {
      UpAreDigests(h, leaves);
      TreeInputLength(h, Up(Node(h), leaves), x);
    }
  }

  lemma {:induction false} ClimbInputLength(h: Hasher, node: Bytes, siblings: seq<Bytes>, path: nat, x: Bytes)
    requires FixedLength(h) && |node| == h.digestLength && AreDigests(h, siblings)
    requires x in ClimbInputs(h, node, siblings, path)
    ensures |x| == 2 * h.digestLength
    decreases |siblings|
  {
    var input := ClimbInput(h, node, siblings[0], path);
    if x != input {
      ClimbInputLength(h, h.hash(input), siblings[1..], path / 2, x);
    }
  }

  /** A proof whose siblings are digests keeps apart from keys that are not as long as two of them. */
  lemma ApartByLength(h: Hasher, keys: seq<Bytes>, key: Bytes, siblings: seq<Bytes>, path: nat)
    requires |keys| > 0 && FixedLength(h) && AreDigests(h, siblings)
    requires |key| != 2 * h.digestLength && forall i :: 0 <= i < |keys| ==> |keys[i]| != 2 * h.digestLength
    ensures Apart(h, keys, key, siblings, path)
  {
    forall x | x in TreeInputs(h, KeyLeaves(h, keys)) + ClimbInputs(h, h.hash(key), siblings, path)
      ensures x !in Elements(keys) + {key}
    {
      if x in TreeInputs(h, KeyLeaves(h, keys)) {
        TreeInputLength(h, KeyLeaves(h, keys), x);
      } else {
        ClimbInputLength(h, h.hash(key), siblings, path, x);
      }
    }
  }

  /** Where a key is the input of a node, the length of a proof does matter: a key that begins with the hash
      of another string gives that string an accepted proof, one sibling longer than the key's own. */
  lemma LongerProofAccepted(h: Hasher, keys: seq<Bytes>, i: nat, key: Bytes, rest: Bytes)
    requires i < |keys| && keys[i] == h.hash(key) + rest && !h.sortSiblingPairs
    ensures
      var p := ProofOf(Node(h), KeyLeaves(h, keys), i);
      Climb(Node(h), h.hash(key), [rest] + p.siblings, 1 + 2 * p.path) == KeysRoot(h, keys)
  {
    var leaves := KeyLeaves(h, keys);
    var p := ProofOf(Node(h), leaves, i);
    ProofClimbsToRoot(Node(h), leaves, i);
    var longer := [rest] + p.siblings;
    assert longer[1..] == p.siblings && (1 + 2 * p.path) / 2 == p.path && (1 + 2 * p.path) % 2 == 1;
    assert Concat(h.sortSiblingPairs, h.hash(key), rest) == keys[i];
    assert NodeHash(h.hash, h.sortSiblingPairs)(h.hash(key), rest) == leaves[i];
    assert Climb(Node(h), h.hash(key), longer, 1 + 2 * p.path) == Climb(Node(h), leaves[i], p.siblings, p.path);
  }

  /** The siblings of a genuine proof are digests. */
  lemma {:induction false} ProofSiblingsAreDigests(h: Hasher, leaves: seq<Bytes>, i: nat)
    requires i < |leaves| && FixedLength(h) && AreDigests(h, leaves)
    ensures AreDigests(h, ProofOf(Node(h), leaves, i).siblings)
    decreases |leaves|
  {
    if |leaves| > 1 {
      UpAreDigests(h, leaves);
      ProofSiblingsAreDigests(h, Up(Node(h), leaves), i / 2);
    }
  }

  /** Trees of one depth with one root have the same keys. */
  lemma SubsetByRoot(h: Hasher, a: seq<Bytes>, b: seq<Bytes>)
    requires |a| > 0 && |b| > 0 && FixedLength(h)
    requires Depth(|a|) == Depth(|b|)
    requires NoCollision(h, AllInputs(h, a) + AllInputs(h, b))
    requires KeysRoot(h, a) == KeysRoot(h, b)
    ensures Elements(a) <= Elements(b)
  {
    var inputs := AllInputs(h, a) + AllInputs(h, b);
    var leaves := KeyLeaves(h, a);
    forall key | key in Elements(a)
      ensures key in Elements(b)
    {
      var i :| 0 <= i < |a| && a[i] == key;
      var p := ProofOf(Node(h), leaves, i);
      ProofClimbsToRoot(Node(h), leaves, i);
      ProofShape(Node(h), leaves, i);
      ProofInputsAreTreeInputs(h, leaves, i);
      AcceptedStartIsLeaf(h, KeyLeaves(h, b), h.hash(key), p.siblings, p.path, inputs);
      var j :| 0 <= j < |b| && KeyLeaves(h, b)[j] == h.hash(key);
      assert b[j] in inputs && key in inputs;
    }
  }

  /** No key can stand where an inner node stands, when no key has the length of two digests. */
  lemma DepthByRoot(h: Hasher, a: seq<Bytes>, b: seq<Bytes>)
    requires |a| > 0 && |b| > 0 && FixedLength(h)
    requires NoCollision(h, AllInputs(h, a) + AllInputs(h, b))
    requires forall i :: 0 <= i < |a| ==> |a[i]| != 2 * h.digestLength
    requires KeysRoot(h, a) == KeysRoot(h, b)
    ensures Depth(|a|) >= Depth(|b|)
  {
    if Depth(|a|) < Depth(|b|) {
      var inputs := AllInputs(h, a) + AllInputs(h, b);
      var leaves, other := KeyLeaves(h, a), KeyLeaves(h, b);
      var p := ProofOf(Node(h), leaves, 0);
      ProofClimbsToRoot(Node(h), leaves, 0);
      ProofShape(Node(h), leaves, 0);
      ProofInputsAreTreeInputs(h, leaves, 0);
      var k := Depth(|b|) - Depth(|a|);
      AcceptedStartIsNode(h, other, k, h.hash(a[0]), p.siblings, p.path, inputs);
      assert a[0] in inputs;
      var x := InnerNodeInput(h, other, k, h.hash(a[0]));
      assert false;
    }
  }

  /** Equal roots come from equal key sets, whatever the sizes of the two sets, and equal key sets
      give equal roots. */
  lemma RootBindsKeySet(h: Hasher, a: seq<Bytes>, b: seq<Bytes>)
    requires |a| > 0 && |b| > 0 && FixedLength(h)
    requires Ascending(Less, a) && Ascending(Less, b)
    requires NoCollision(h, AllInputs(h, a) + AllInputs(h, b))
    requires Depth(|a|) == Depth(|b|)
             || forall key :: key in Elements(a) + Elements(b) ==> |key| != 2 * h.digestLength
    ensures KeysRoot(h, a) == KeysRoot(h, b) <==> a == b
  {
    if KeysRoot(h, a) == KeysRoot(h, b) {
      if Depth(|a|) != Depth(|b|) {
        DepthByRoot(h, a, b);
        DepthByRoot(h, b, a);
      }
      SubsetByRoot(h, a, b);
      SubsetByRoot(h, b, a);
      LessStrictOrder();
      AscendingUnique(Less, a, b);
    }
  }
}
