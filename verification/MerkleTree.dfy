/** The Merkle tree engine: the in-place proof generator, the cached-tree builder, their parallel
    variants, and the verifier. Every builder is proved to produce the root and the proofs that
    MerkleSpec.dfy defines, so they all agree with each other. */
module MerkleTree {
  import opened ByteStrings
  import opened MerkleSpec
  import opened Hashing
  import opened Workers

  /** `Path` is a 32-bit word. */
  const WORD: nat := 0x1_0000_0000

  datatype Mode = ProofGen | TreeBuild | ProofGenAndTreeBuild | UnknownMode

  datatype Error =
    | InvalidNumOfDataBlocks
    | InvalidConfigMode
    | ProofInvalidModeTreeNotBuilt
    | ProofInvalidDataBlock

  /** `leafOf` turns a serialized block into a leaf; `combine` hashes two siblings. */
  datatype Config<!T> = Config(
    leafOf: Bytes -> T,
    combine: Combiner<T>,
    mode: Mode,
    runInParallel: bool,
    numRoutines: int)

  /** SHA-256 or any other hash; OpenZeppelin ordering of siblings; leaves hashed or taken raw. */
  function HashConfig(hash: Bytes -> Bytes, sortSiblingPairs: bool, disableLeafHashing: bool, mode: Mode,
                      runInParallel: bool, numRoutines: int): Config<Bytes>
  {
    Config(
      LeafHash(hash, disableLeafHashing),
      NodeHash(hash, sortSiblingPairs),
      mode, runInParallel, numRoutines)
  }

  /** The leaves of the tree over a map of blocks: one for each key, in key order. */
  function LeavesOf<T>(leafOf: Bytes -> T, blocks: map<Bytes, Bytes>, keys: seq<Bytes>): seq<T>
    requires forall k :: k in keys ==> k in blocks
  {
    seq(|keys|, i requires 0 <= i < |keys| => leafOf(blocks[keys[i]]))
  }

  // ----- Levels under padding -----

  lemma {:induction false} UpPad<T>(c: Combiner<T>, s: seq<T>)
    requires |s| > 0
    ensures Up(c, Pad(s)) == Up(c, s)
    decreases |s|
  {
    if |s| > 2 {
      assert Pad(s)[2..] == Pad(s[2..]);
      UpPad(c, s[2..]);
    }
  }

  lemma PadSibling<T>(s: seq<T>, j: nat)
    requires 2 * j < |s|
    ensures 2 * j + 1 < |Pad(s)| && Pad(s)[2 * j] == s[2 * j]
    ensures Pad(s)[2 * j + 1] == Sibling(s, 2 * j)
    ensures 2 * j + 1 < |s| ==> Pad(s)[2 * j] == Sibling(s, 2 * j + 1)
  {
  }

  /** The sibling of any node is next to it in the padded level. */
  lemma PairInPadded<T>(s: seq<T>, i: nat)
    requires i < |s|
    ensures |s| <= |Pad(s)|
    ensures i % 2 == 1 ==> Pad(s)[i - 1] == Sibling(s, i)
    ensures i % 2 == 0 ==> i + 1 < |Pad(s)| && Pad(s)[i + 1] == Sibling(s, i)
  {
    PadSibling(s, i / 2);
    assert i == 2 * (i / 2) + i % 2;
  }

  lemma {:induction false} Pow2Monotone(j: nat, k: nat)
    requires j <= k
    ensures Pow2(j) <= Pow2(k)
  {
    if j < k {
      Pow2Monotone(j, k - 1);
    }
  }

  lemma DepthFitsWord(n: nat)
    requires 0 < n <= WORD
    ensures Depth(n) <= 32 && Pow2(Depth(n)) <= WORD
  {
    DepthBounds(n);
    assert Pow2(32) == WORD by {
      assert Pow2(8) == 0x100;
      assert Pow2(16) == 0x1_0000;
      assert Pow2(24) == 0x100_0000;
    }
    if Depth(n) > 32 {
      Pow2Monotone(32, Depth(n) - 1);
    }
    Pow2Monotone(Depth(n), 32);
  }

  class Tree<T(==)> {
    const config: Config<T>
    const routines: nat
    const keys: seq<Bytes>
    const depth: nat
    var leaves: seq<T>
    var leafMap: map<T, nat>
    var nodes: seq<seq<T>>
    var root: Option<T>
    var proofs: seq<Proof<T>>

    constructor (config: Config<T>, keys: seq<Bytes>, routines: nat)
      requires |keys| >= 2
      ensures this.config == config && this.keys == keys && this.routines == routines
      ensures depth == Depth(|keys|)
      ensures leaves == [] && proofs == [] && nodes == [] && leafMap == map[] && root == None
    {
      this.config, this.keys, this.routines := config, keys, routines;
      depth := Depth(|keys|);
      leaves, proofs, nodes, leafMap, root := [], [], [], map[], None;
    }

    /** Leaves have been generated, one for each key, and `Path` can hold their indices. */
    ghost predicate Ready()
      reads this
    {
      && |keys| == |leaves|
      && 2 <= |leaves| <= WORD
      && depth == Depth(|leaves|)
      && (config.runInParallel ==> routines > 0)
    }

    ghost predicate RootBuilt()
      reads this
    {
      |leaves| > 0 && root == Some(Root(config.combine, leaves))
    }

    ghost predicate ProofsBuilt()
      reads this
    {
      && |proofs| == |leaves|
      && forall i :: 0 <= i < |proofs| ==> proofs[i] == ProofOf(config.combine, leaves, i)
    }

    /** Each proof reaches level `step`, or one further if its pair at that level is done. */
    ghost predicate ProofsReach(step: nat, done: set<nat>)
      reads this
    {
      && |proofs| == |leaves|
      && forall i :: 0 <= i < |proofs| ==>
                       proofs[i] == ProofPrefix(config.combine, leaves, i,
                                                if NodeIndex(i, step) / 2 in done then step + 1 else step)
    }

    /** The entries in use are level `step`, padded. */
    ghost predicate HoldsLevel(buffer: seq<T>, step: nat)
      requires |leaves| > 0
      reads this
    {
      buffer == Pad(LevelAt(config.combine, leaves, step))
    }

    method InitProofs()
      modifies this`proofs
      ensures |leaves| > 0 ==> ProofsReach(0, {})
      ensures |proofs| == |leaves|
    {
      proofs := seq(|leaves|, _ => Proof([], 0));
    }

    // ----- Extending proofs by one level -----

    /** Extends the proofs below nodes `idx` and `idx + 1`, which are each other's siblings. */
    method UpdateProofPairs(buffer: seq<T>, idx: nat, step: nat, ghost done: set<nat>)
      requires Ready() && step < depth
      requires HoldsLevel(buffer, step)
      requires idx % 2 == 0 && idx < |LevelAt(config.combine, leaves, step)|
      requires ProofsReach(step, done) && idx / 2 !in done
      modifies this`proofs
      ensures ProofsReach(step, done + {idx / 2})
    {
      hide Pad, ProofPrefix, Depth, NodeIndex, LevelAt, Sibling;
      BufferPair(buffer, idx, step);
      PairBelow(idx, step);
      var batch := Pow2(step);
      var start := idx * batch;
      ExtendProofs(start, batch, buffer[idx + 1], batch, idx, step);
      start := start + batch;
      ExtendProofs(start, batch, buffer[idx], 0, idx + 1, step);
    }

    lemma BufferPair(buffer: seq<T>, idx: nat, step: nat)
      requires |leaves| > 0 && HoldsLevel(buffer, step)
      requires idx % 2 == 0 && idx < |LevelAt(config.combine, leaves, step)|
      ensures idx + 1 < |buffer|
      ensures
        var level := LevelAt(config.combine, leaves, step);
        && buffer[idx] == level[idx]
        && buffer[idx + 1] == Sibling(level, idx)
        && (idx + 1 < |level| ==> buffer[idx] == Sibling(level, idx + 1))
    {
      PadSibling(LevelAt(config.combine, leaves, step), idx / 2);
    }

    /** One of the two loops of `updateProofPairs`: the proofs below one node. */
    method ExtendProofs(start: nat, batch: nat, sibling: T, pathBit: nat, ghost node: nat, ghost step: nat)
      requires Ready() && step < depth
      requires batch == Pow2(step)
      requires forall k: nat :: NodeIndex(k, step) == node <==> start <= k < start + batch
      requires pathBit == if node % 2 == 0 then batch else 0
      requires |proofs| == |leaves|
      requires node < |LevelAt(config.combine, leaves, step)| ==>
                 sibling == Sibling(LevelAt(config.combine, leaves, step), node)
      requires forall k :: 0 <= k < |proofs| && NodeIndex(k, step) == node ==>
                             proofs[k] == ProofPrefix(config.combine, leaves, k, step)
      modifies this`proofs
      ensures |proofs| == |leaves|
      ensures forall k :: 0 <= k < |proofs| ==>
                            proofs[k] == if NodeIndex(k, step) == node
                                         then ProofPrefix(config.combine, leaves, k, step + 1) else old(proofs)[k]
    {
      var end := if start + batch < |proofs| then start + batch else |proofs|;
      var i := start;
      ghost var c := config.combine;
      while i < end
        invariant start <= i && (i <= end || i == start)
        invariant |proofs| == |leaves|
        invariant forall k :: 0 <= k < |proofs| ==>
                                proofs[k] == if start <= k < i then ProofPrefix(c, leaves, k, step + 1)
                                  else old(proofs)[k]
      {
        assert NodeIndex(i, step) == node;
        StepProof(i, step);
        proofs := proofs[i := Proof(proofs[i].siblings + [sibling], (proofs[i].path + pathBit) % WORD)];
        i := i + 1;
      }
    }

    /** The leaves below a pair of nodes are two adjacent batches. */
    lemma PairBelow(idx: nat, step: nat)
      requires idx % 2 == 0
      ensures
        var start, batch := idx * Pow2(step), Pow2(step);
        && (forall k: nat :: NodeIndex(k, step) == idx <==> start <= k < start + batch)
        && (forall k: nat :: NodeIndex(k, step) == idx + 1 <==> start + batch <= k < start + batch + batch)
      ensures forall k: nat :: NodeIndex(k, step) / 2 == idx / 2 <==>
              NodeIndex(k, step) == idx || NodeIndex(k, step) == idx + 1
    {
      var start, batch := idx * Pow2(step), Pow2(step);
      assert (idx + 1) * batch == start + batch && (idx + 2) * batch == start + batch + batch;
      forall k: nat
        ensures NodeIndex(k, step) == idx <==> start <= k < start + batch
        ensures NodeIndex(k, step) == idx + 1 <==> start + batch <= k < start + batch + batch
      {
        NodeIndexRange(k, step, idx);
        NodeIndexRange(k, step, idx + 1);
      }
    }

    /** Extending proof i by the sibling at level `step`, in 32-bit arithmetic. */
    lemma StepProof(i: nat, step: nat)
      requires Ready() && step < depth && i < |leaves|
      ensures NodeIndex(i, step) < |LevelAt(config.combine, leaves, step)|
      ensures
        var c := config.combine;
        var p, j := ProofPrefix(c, leaves, i, step), NodeIndex(i, step);
        var pathBit := if j % 2 == 0 then Pow2(step) else 0;
        ProofPrefix(c, leaves, i, step + 1)
        == Proof(p.siblings + [Sibling(LevelAt(c, leaves, step), j)], (p.path + pathBit) % WORD)
    {
      ProofPrefixStep(config.combine, leaves, i, step);
      ProofPrefixShape(config.combine, leaves, i, step);
      DepthFitsWord(|leaves|);
      Pow2Monotone(step + 1, depth);
      assert PathBit(NodeIndex(i, step)) * Pow2(step) == if NodeIndex(i, step) % 2 == 0 then Pow2(step) else 0;
    }

    ghost predicate CoversLevel(bufferLength: nat, step: nat)
      requires |leaves| > 0
      reads this
    {
      (bufferLength + 1) / 2 == (|LevelAt(config.combine, leaves, step)| + 1) / 2
    }

    lemma StepFinished(step: nat, done: set<nat>, bufferLength: nat)
      requires Ready() && ProofsReach(step, done) && CoversLevel(bufferLength, step)
      requires done == Items((bufferLength + 1) / 2)
      ensures ProofsReach(step + 1, {})
    {
      forall i | 0 <= i < |proofs|
        ensures NodeIndex(i, step) / 2 in done
      {
        NodeIndexInLevel(config.combine, leaves, i, step);
      }
    }

    method UpdateProofs(buffer: seq<T>, bufferLength: nat, step: nat)
      requires Ready() && step < depth
      requires HoldsLevel(buffer, step) && CoversLevel(bufferLength, step)
      requires ProofsReach(step, {})
      modifies this`proofs
      ensures ProofsReach(step + 1, {})
    {
      hide Pad, ProofPrefix, Depth, NodeIndex, LevelAt;
      var i := 0;
      while i < bufferLength
        invariant i % 2 == 0 && i <= bufferLength + 1
        invariant ProofsReach(step, Items(i / 2))
      {
        UpdateProofPairs(buffer, i, step, Items(i / 2));
        i := i + 2;
        assert Items(i / 2) == Items(i / 2 - 1) + {i / 2 - 1};
      }
      StepFinished(step, Items(i / 2), bufferLength);
    }

    method UpdateProofsInParallel(buffer: seq<T>, bufferLength: nat, step: nat)
      requires Ready() && config.runInParallel && step < depth
      requires HoldsLevel(buffer, step) && CoversLevel(bufferLength, step) && bufferLength > 0
      requires ProofsReach(step, {})
      modifies this`proofs
      ensures ProofsReach(step + 1, {})
    {
      var workers := if routines > bufferLength then bufferLength else routines;
      var pool := new Pool(workers, workers, (bufferLength + 1) / 2);
      while true
        invariant fresh(pool) && pool.Valid()
        invariant ProofsReach(step, pool.done)
        decreases Items(pool.n) - pool.done
      {
        ghost var before := pool.done;
        var item := pool.Step();
        if item == None {
          break;
        }
        var pair := item.value;
        assert 2 * pair < |LevelAt(config.combine, leaves, step)| && 2 * pair / 2 == pair;
        UpdateProofPairs(buffer, 2 * pair, step, before);
      }
      StepFinished(step, pool.done, bufferLength);
    }

    // ----- Building a level -----

    /** Pads an odd level by repeating its last node, growing the buffer when it is full. */
    method FixOddLength(buffer: array<T>, bufferLength: nat) returns (fixed: array<T>, length: nat)
      requires 0 < bufferLength <= buffer.Length
      modifies buffer
      ensures fixed == buffer || fresh(fixed)
      ensures length <= fixed.Length
      ensures fixed[..length] == Pad(old(buffer[..bufferLength]))
    {
      if bufferLength % 2 == 0 {
        return buffer, bufferLength;
      }
      var appendNode := buffer[bufferLength - 1];
      length := bufferLength + 1;
      if buffer.Length < length {
        fixed := new T[length](i requires 0 <= i < length reads buffer =>
          if i < buffer.Length then buffer[i] else appendNode);
      } else {
        fixed := buffer;
        fixed[length - 1] := appendNode;
      }
      assert fixed[..length] == old(buffer[..bufferLength]) + [appendNode];
    }

    /** Hashes the pairs of a level into the front of the same buffer. */
    method HashPairsInPlace(buffer: array<T>, bufferLength: nat)
      requires 0 < bufferLength <= buffer.Length && bufferLength % 2 == 0
      modifies buffer
      ensures buffer[..bufferLength / 2] == Up(config.combine, old(buffer[..bufferLength]))
    {
      ghost var level := buffer[..bufferLength];
      ghost var c := config.combine;
      var idx := 0;
      while idx < bufferLength
        invariant idx % 2 == 0 && idx <= bufferLength
        invariant forall k :: 0 <= k < idx / 2 ==> buffer[k] == Up(c, level)[k]
        invariant forall k :: idx <= k < bufferLength ==> buffer[k] == level[k]
      {
        UpPair(c, level, idx / 2);
        buffer[idx / 2] := config.combine(buffer[idx], buffer[idx + 1]);
        idx := idx + 2;
      }
    }

    /** The same pairs hashed by strided workers into a second buffer. */
    method HashPairsInParallel(level: seq<T>, target: array<T>, workers: nat, stride: nat)
      requires 0 < |level| && |level| % 2 == 0
      requires |level| / 2 <= target.Length
      requires 0 < workers <= stride && (workers == stride || |level| <= workers)
      modifies target
      ensures target[..|level| / 2] == Up(config.combine, level)
    {
      hide Pad;
      ghost var c := config.combine;
      var pool := new Pool(workers, stride, |level| / 2);
      while true
        invariant fresh(pool) && pool.Valid()
        invariant forall j :: 0 <= j < |level| / 2 && j in pool.done ==> target[j] == Up(c, level)[j]
        decreases Items(pool.n) - pool.done
      {
        var item := pool.Step();
        if item == None {
          break;
        }
        var pair := item.value;
        UpPair(c, level, pair);
        target[pair] := config.combine(level[2 * pair], level[2 * pair + 1]);
      }
    }

    /** The same pairs hashed in order into a second buffer. */
    method HashPairs(level: seq<T>, target: array<T>)
      requires 0 < |level| && |level| % 2 == 0
      requires |level| / 2 <= target.Length
      modifies target
      ensures target[..|level| / 2] == Up(config.combine, level)
    {
      ghost var c := config.combine;
      var j := 0;
      while j < |level|
        invariant j % 2 == 0 && j <= |level|
        invariant forall k :: 0 <= k < j / 2 ==> target[k] == Up(c, level)[k]
      {
        UpPair(c, level, j / 2);
        target[j / 2] := config.combine(level[j], level[j + 1]);
        j := j + 2;
      }
    }

    lemma NextLevel(k: nat)
      requires |leaves| > 0
      ensures Up(config.combine, Pad(LevelAt(config.combine, leaves, k))) == LevelAt(config.combine, leaves, k + 1)
    {
      UpPad(config.combine, LevelAt(config.combine, leaves, k));
      LevelStep(config.combine, leaves, k);
    }

    lemma PaddedLength(k: nat)
      requires Ready() && k < depth
      ensures
        var level := LevelAt(config.combine, leaves, k);
        && 2 <= |level| <= |Pad(level)|
        && |Pad(level)| % 2 == 0
        && CoversLevel(|Pad(level)|, k)
        && (k + 1 == depth ==> |Pad(level)| == 2)
    {
      LevelLengths(config.combine, leaves, k);
    }

    /** Hashing the two nodes of the last level gives the root. */
    lemma LastPair(buffer: seq<T>)
      requires Ready() && depth > 0 && HoldsLevel(buffer, depth - 1)
      ensures |buffer| == 2 && config.combine(buffer[0], buffer[1]) == Root(config.combine, leaves)
    {
      PaddedLength(depth - 1);
      NextLevel(depth - 1);
      RootIsTopLevel(config.combine, leaves);
    }

    lemma ProofsComplete()
      requires Ready() && ProofsReach(depth, {})
      ensures ProofsBuilt()
    {
      forall i | 0 <= i < |proofs|
        ensures proofs[i] == ProofOf(config.combine, leaves, i)
      {
        ProofPrefixComplete(config.combine, leaves, i);
      }
    }

    method SetRoot(buffer: seq<T>)
      requires Ready() && depth > 0 && HoldsLevel(buffer, depth - 1)
      modifies this`root
      ensures RootBuilt()
    {
      LastPair(buffer);
      root := Some(config.combine(buffer[0], buffer[1]));
    }

    /** A fresh buffer with the leaves, padded. */
    method CopyLeaves() returns (buffer: array<T>, length: nat)
      requires Ready()
      ensures fresh(buffer) && depth > 0 && length <= buffer.Length
      ensures HoldsLevel(buffer[..length], 0) && CoversLevel(|leaves|, 0)
    {
      DepthBounds(|leaves|);
      buffer := new T[|leaves|](i requires 0 <= i < |leaves| reads this => leaves[i]);
      assert buffer[..|leaves|] == leaves;
      buffer, length := FixOddLength(buffer, |leaves|);
    }

    /** One level up in the same buffer: hash the pairs, halve the length, pad. */
    method RaiseInPlace(buffer: array<T>, bufferLength: nat, ghost step: nat) returns (raised: array<T>, length: nat)
      requires Ready() && step + 1 < depth
      requires bufferLength <= buffer.Length && HoldsLevel(buffer[..bufferLength], step)
      modifies buffer
      ensures raised == buffer || fresh(raised)
      ensures length <= raised.Length && HoldsLevel(raised[..length], step + 1)
    {
      PaddedLength(step);
      NextLevel(step);
      HashPairsInPlace(buffer, bufferLength);
      raised, length := FixOddLength(buffer, bufferLength / 2);
    }

    /** One level up into the other buffer. */
    method RaiseInParallel(buffer: array<T>, tempBuffer: array<T>, bufferLength: nat, ghost step: nat, numRoutines: nat)
      returns (raised: array<T>, length: nat, numRoutines': nat)
      requires Ready() && step + 1 < depth
      requires bufferLength <= buffer.Length && HoldsLevel(buffer[..bufferLength], step)
      requires 0 < numRoutines && bufferLength / 2 <= tempBuffer.Length
      modifies tempBuffer
      ensures raised == tempBuffer || fresh(raised)
      ensures length <= raised.Length && HoldsLevel(raised[..length], step + 1)
      ensures length / 2 <= bufferLength && 0 < numRoutines'
    {
      PaddedLength(step);
      NextLevel(step);
      numRoutines' := if numRoutines > bufferLength then bufferLength else numRoutines;
      HashPairsInParallel(buffer[..bufferLength], tempBuffer, numRoutines', numRoutines');
      raised, length := FixOddLength(tempBuffer, bufferLength / 2);
    }

    // ----- The builders -----

    /** Root and proofs from one buffer that is overwritten level by level. */
    method GenerateProofs()
      requires Ready() && !config.runInParallel
      modifies this`proofs, this`root
      ensures RootBuilt() && ProofsBuilt()
    {
      hide Pad, ProofPrefix, Depth, NodeIndex, LevelAt;
      InitProofs();
      var buffer, bufferLength := CopyLeaves();
      UpdateProofs(buffer[..bufferLength], |leaves|, 0);
      var step := 1;
      while step < depth
        invariant 1 <= step <= depth
        invariant fresh(buffer) && 0 <= bufferLength <= buffer.Length
        invariant HoldsLevel(buffer[..bufferLength], step - 1)
        invariant ProofsReach(step, {})
      {
        buffer, bufferLength := RaiseInPlace(buffer, bufferLength, step - 1);
        PaddedLength(step);
        UpdateProofs(buffer[..bufferLength], bufferLength, step);
        step := step + 1;
      }
      ProofsComplete();
      SetRoot(buffer[..bufferLength]);
    }

    /** The same with two buffers that are swapped at each level and workers that fill them. */
    method GenerateProofsInParallel()
      requires Ready() && config.runInParallel
      modifies this`proofs, this`root
      ensures RootBuilt() && ProofsBuilt()
    {
      hide Pad, ProofPrefix, Depth, NodeIndex, LevelAt;
      InitProofs();
      var buffer, bufferLength := CopyLeaves();
      PaddedLength(0);
      var filler := buffer[0];
      var tempBuffer := new T[bufferLength / 2](_ => filler);
      UpdateProofsInParallel(buffer[..bufferLength], |leaves|, 0);
      var numRoutines := routines;
      var step := 1;
      while step < depth
        invariant 1 <= step <= depth && 0 < numRoutines
        invariant fresh(buffer) && fresh(tempBuffer) && buffer != tempBuffer
        invariant 0 <= bufferLength <= buffer.Length && bufferLength / 2 <= tempBuffer.Length
        invariant HoldsLevel(buffer[..bufferLength], step - 1)
        invariant ProofsReach(step, {})
      {
        var raised, length;
        raised, length, numRoutines := RaiseInParallel(buffer, tempBuffer, bufferLength, step - 1, numRoutines);
        buffer, tempBuffer, bufferLength := raised, buffer, length;
        PaddedLength(step);
        UpdateProofsInParallel(buffer[..bufferLength], bufferLength, step);
        step := step + 1;
      }
      ProofsComplete();
      SetRoot(buffer[..bufferLength]);
    }

    method GenerateLeaves(blocks: seq<Bytes>)
      requires |blocks| == |keys| && |blocks| > 0
      modifies this`leaves
      ensures leaves == seq(|blocks|, i requires 0 <= i < |blocks| => config.leafOf(blocks[i]))
    {
      var result := [];
      for i := 0 to |blocks|
        invariant result == seq(i, j requires 0 <= j < i => config.leafOf(blocks[j]))
      {
        result := result + [config.leafOf(blocks[i])];
      }
      leaves := result;
    }

    method GenerateLeavesInParallel(blocks: seq<Bytes>)
      requires |blocks| == |keys| && |blocks| > 0 && routines > 0
      modifies this`leaves
      ensures leaves == seq(|blocks|, i requires 0 <= i < |blocks| => config.leafOf(blocks[i]))
    {
      var workers := if routines > |blocks| then |blocks| else routines;
      var filler := config.leafOf(blocks[0]);
      var result := new T[|blocks|](_ => filler);
      var pool := new Pool(workers, workers, |blocks|);
      while true
        invariant fresh(pool) && pool.Valid()
        invariant forall j :: 0 <= j < |blocks| && j in pool.done ==> result[j] == config.leafOf(blocks[j])
        decreases Items(pool.n) - pool.done
      {
        var item := pool.Step();
        if item == None {
          break;
        }
        result[item.value] := config.leafOf(blocks[item.value]);
      }
      leaves := result[..];
    }

    /** `nodes` caches every level below the root, padded. */
    ghost predicate NodesBuilt(levels: nat)
      reads this
    {
      && |leaves| > 0
      && |nodes| == levels
      && forall k :: 0 <= k < levels ==> HoldsLevel(nodes[k], k)
    }

    /** `leafMap` sends each leaf to the last index that holds it. */
    ghost predicate LeafMapBuilt(n: nat)
      requires n <= |leaves|
      reads this
    {
      && (forall i :: 0 <= i < n ==> leaves[i] in leafMap && i <= leafMap[leaves[i]])
      && (forall x :: x in leafMap ==> leafMap[x] < n && leaves[leafMap[x]] == x)
    }

    method BuildLeafMap()
      requires leafMap == map[]
      modifies this`leafMap
      ensures LeafMapBuilt(|leaves|)
    {
      for i := 0 to |leaves|
        invariant LeafMapBuilt(i)
      {
        leafMap := leafMap[leaves[i] := i];
      }
    }

    /** The row above a cached row, filled in order. */
    method NextRow(row: seq<T>, ghost k: nat) returns (above: seq<T>)
      requires Ready() && k + 1 < depth && HoldsLevel(row, k)
      ensures HoldsLevel(above, k + 1)
    {
      PaddedLength(k);
      NextLevel(k);
      var filler := row[0];
      var buffer := new T[|row| / 2](_ => filler);
      HashPairs(row, buffer);
      var length: nat;
      buffer, length := FixOddLength(buffer, |row| / 2);
      above := buffer[..length];
    }

    /** The row above a cached row, filled by strided workers. The number of workers is capped by
        the row's length, their stride is not. */
    method NextRowInParallel(row: seq<T>, ghost k: nat) returns (above: seq<T>)
      requires Ready() && config.runInParallel
      requires k + 1 < depth && HoldsLevel(row, k)
      ensures HoldsLevel(above, k + 1)
    {
      PaddedLength(k);
      NextLevel(k);
      var filler := row[0];
      var buffer := new T[|row| / 2](_ => filler);
      HashPairsInParallel(row, buffer, if routines > |row| then |row| else routines, routines);
      var length: nat;
      buffer, length := FixOddLength(buffer, |row| / 2);
      above := buffer[..length];
    }

    method ComputeTreeNodesInParallel()
      requires Ready() && config.runInParallel && depth > 0 && NodesBuilt(1)
      modifies this`nodes
      ensures NodesBuilt(depth)
    {
      var i := 0;
      while i < depth - 1
        invariant 0 <= i <= depth - 1 && NodesBuilt(i + 1)
      {
        var row := NextRowInParallel(nodes[i], i);
        nodes := nodes + [row];
        i := i + 1;
      }
    }

    /** Caches every level and computes the root. In parallel mode the workers fill the levels first
        and the sequential loop then fills them again. */
    method BuildTree()
      requires Ready() && leafMap == map[]
      modifies this`nodes, this`root, this`leafMap
      ensures RootBuilt() && NodesBuilt(depth) && LeafMapBuilt(|leaves|)
    {
      hide Pad, ProofPrefix, Depth, LevelAt;
      var bottom, bufferLength := CopyLeaves();
      nodes := [bottom[..bufferLength]];
      if config.runInParallel {
        ComputeTreeNodesInParallel();
      }
      var i := 0;
      while i < depth - 1
        invariant 0 <= i <= depth - 1 && i < |nodes| <= depth && NodesBuilt(|nodes|)
        invariant |nodes| == depth || |nodes| == i + 1
        modifies this`nodes
      {
        var row := NextRow(nodes[i], i);
        if i + 1 < |nodes| {
          nodes := nodes[i + 1 := row];
        } else {
          nodes := nodes + [row];
        }
        i := i + 1;
      }
      SetRoot(nodes[depth - 1]);
      BuildLeafMap();
    }

    /** Proofs read off the cached levels of a built tree. */
    method UpdateProofsFromNodes()
      requires Ready() && NodesBuilt(depth)
      modifies this`proofs
      ensures ProofsBuilt()
    {
      InitProofs();
      for i := 0 to |nodes|
        invariant ProofsReach(i, {})
      {
        PaddedLength(i);
        if config.runInParallel {
          UpdateProofsInParallel(nodes[i], |nodes[i]|, i);
        } else {
          UpdateProofs(nodes[i], |nodes[i]|, i);
        }
      }
      ProofsComplete();
    }

    /** The loop of `Proof`: siblings of leaf `start` from the cached levels. */
    method ReadProof(start: nat) returns (proof: Proof<T>)
      requires Ready() && NodesBuilt(depth) && start < |leaves|
      ensures proof == ProofOf(config.combine, leaves, start)
    {
      hide Depth, LevelAt, Sibling, Pad;
      ghost var c := config.combine;
      var idx, path, siblings := start, 0, [];
      var i := 0;
      while i < depth
        invariant 0 <= i <= depth
        invariant idx == NodeIndex(start, i) >= 0
        invariant 0 <= path < WORD && Proof(siblings, path) == ProofPrefix(c, leaves, start, i)
      {
        NodeIndexStep(start, i);
        StepProof(start, i);
        PairInPadded(LevelAt(c, leaves, i), idx);
        if idx % 2 == 1 {
          siblings := siblings + [nodes[i][idx - 1]];
        } else {
          path := (path + Pow2(i)) % WORD;
          siblings := siblings + [nodes[i][idx + 1]];
        }
        idx := idx / 2;
        i := i + 1;
      }
      ProofPrefixComplete(c, leaves, start);
      proof := Proof(siblings, path);
    }

    /** The proof of a block, read off the cached levels. */
    method ProofFor(block: Bytes) returns (r: Result<Proof<T>, Error>)
      requires Ready()
      requires config.mode in {TreeBuild, ProofGenAndTreeBuild} ==> NodesBuilt(depth) && LeafMapBuilt(|leaves|)
      ensures
        var leaf := config.leafOf(block);
        if config.mode !in {TreeBuild, ProofGenAndTreeBuild} then r == Err(ProofInvalidModeTreeNotBuilt)
        else if leaf !in leaves then r == Err(ProofInvalidDataBlock)
        else exists i :: && 0 <= i < |leaves| && leaves[i] == leaf && leaf !in leaves[i + 1..]
                         && r == Ok(ProofOf(config.combine, leaves, i))
    {
      if config.mode != TreeBuild && config.mode != ProofGenAndTreeBuild {
        return Err(ProofInvalidModeTreeNotBuilt);
      }
      var leaf := config.leafOf(block);
      if leaf !in leafMap {
        return Err(ProofInvalidDataBlock);
      }
      var proof := ReadProof(leafMap[leaf]);
      r := Ok(proof);
    }

    /** `sort.SearchStrings` on the sorted keys. */
    method GetIndexForKey(key: Bytes) returns (r: Option<nat>)
      requires Ascending(Less, keys)
      ensures r == None <==> key !in keys
      ensures r.Some? ==> r.value < |keys| && keys[r.value] == key
    {
      LessStrictOrder();
      hide Less;
      var lo, hi := 0, |keys|;
      while lo < hi
        invariant 0 <= lo <= hi <= |keys|
        invariant forall i :: 0 <= i < lo ==> Less(keys[i], key)
        invariant forall i :: hi <= i < |keys| ==> !Less(keys[i], key)
      {
        var mid := (lo + hi) / 2;
        if Less(keys[mid], key) {
          lo := mid + 1;
        } else {
          hi := mid;
        }
      }
      if lo < |keys| && keys[lo] == key {
        return Some(lo);
      }
      return None;
    }

    /** Generates the leaves and whatever the mode asks for. */
    method Run(blocks: seq<Bytes>) returns (r: Result<(), Error>)
      requires |blocks| == |keys| && 2 <= |keys| <= WORD && depth == Depth(|keys|)
      requires (config.runInParallel ==> routines > 0) && leafMap == map[]
      modifies this
      ensures leaves == seq(|blocks|, i requires 0 <= i < |blocks| => config.leafOf(blocks[i])) && Ready()
      ensures r.Err? ==> config.mode == UnknownMode && r.error == InvalidConfigMode
      ensures r.Ok? ==> config.mode != UnknownMode && Built()
    {
      hide Depth, Root, ProofOf, LevelAt, Pad;
      if config.runInParallel {
        GenerateLeavesInParallel(blocks);
      } else {
        GenerateLeaves(blocks);
      }
      match config.mode {
        case ProofGen =>
          if config.runInParallel {
            GenerateProofsInParallel();
          } else {
            GenerateProofs();
          }
        case TreeBuild =>
          BuildTree();
        case ProofGenAndTreeBuild =>
          BuildTree();
          UpdateProofsFromNodes();
        case UnknownMode =>
          return Err(InvalidConfigMode);
      }
      r := Ok(());
    }

    /** What a finished tree holds in each mode. */
    ghost predicate Built()
      reads this
    {
      && Ready() && RootBuilt()
      && (config.mode != TreeBuild ==> ProofsBuilt())
      && (config.mode != ProofGen ==> NodesBuilt(depth) && LeafMapBuilt(|leaves|))
    }
  }

  /** Reads a map's keys in any order and sorts them. */
  method CollectKeys(blocks: map<Bytes, Bytes>) returns (keys: seq<Bytes>)
    ensures Ascending(Less, keys) && Elements(keys) == blocks.Keys && |keys| == |blocks|
  {
    keys := [];
    var rest := blocks.Keys;
    while rest != {}
      invariant rest <= blocks.Keys
      invariant forall k :: k in keys <==> k in blocks.Keys - rest
      decreases rest
    {
      var k :| k in rest;
      keys, rest := keys + [k], rest - {k};
    }
    LessStrictOrder();
    SortedKeysAscending(Less, keys);
    keys := SortedKeys(Less, keys);
    AscendingDistinct(Less, keys);
    DistinctCardinality(keys);
    assert Elements(keys) == blocks.Keys;
  }

  /** Sorts the keys of the blocks and builds the tree over them. `cpus` is what
      `runtime.NumCPU` returns. */
  method New<T(==)>(config: Config<T>, blocks: map<Bytes, Bytes>, cpus: nat) returns (r: Result<Tree<T>, Error>)
    requires |blocks| <= WORD && cpus > 0
    ensures |blocks| <= 1 ==> r == Err(InvalidNumOfDataBlocks)
    ensures |blocks| > 1 && config.mode == UnknownMode ==> r == Err(InvalidConfigMode)
    ensures |blocks| > 1 && config.mode != UnknownMode ==> r.Ok?
    ensures r.Ok? ==>
              var t := r.value;
              && fresh(t) && t.config == config && t.Built()
              && Ascending(Less, t.keys) && Elements(t.keys) == blocks.Keys
              && t.leaves == LeavesOf(config.leafOf, blocks, t.keys)
  {
    var keys := CollectKeys(blocks);
    if |keys| <= 1 {
      return Err(InvalidNumOfDataBlocks);
    }
    var sortedBlocks := seq(|keys|, i requires 0 <= i < |keys| => assert keys[i] in Elements(keys); blocks[keys[i]]);
    var routines := if config.numRoutines <= 0 then cpus else config.numRoutines;
    var t := new Tree(config, keys, routines);
    var done := t.Run(sortedBlocks);
    if done.Err? {
      return Err(done.error);
    }
    assert forall k :: k in keys ==> k in Elements(keys);
    assert t.leaves == LeavesOf(config.leafOf, blocks, t.keys);
    r := Ok(t);
  }

  datatype VerifyError = DataBlockIsNil | ProofIsNil | VerificationFailed

  /** Climbs from the block's leaf along the proof and compares with the root. */
  method Verify<T(==)>(config: Config<T>, block: Option<Bytes>, proof: Option<Proof<T>>, root: T)
    returns (r: Result<(), VerifyError>)
    ensures block == None ==> r == Err(DataBlockIsNil)
    ensures block.Some? && proof == None ==> r == Err(ProofIsNil)
    ensures block.Some? && proof.Some? ==>
              r == if Climb(config.combine, config.leafOf(block.value), proof.value.siblings, proof.value.path) == root
                   then Ok(()) else Err(VerificationFailed)
  {
    if block == None {
      return Err(DataBlockIsNil);
    }
    if proof == None {
      return Err(ProofIsNil);
    }
    var siblings := proof.value.siblings;
    var result, path := config.leafOf(block.value), proof.value.path;
    ghost var climbed := Climb(config.combine, result, siblings, path);
    for i := 0 to |siblings|
      invariant Climb(config.combine, result, siblings[i..], path) == climbed
    {
      if path % 2 == 1 {
        result := config.combine(result, siblings[i]);
      } else {
        result := config.combine(siblings[i], result);
      }
      path := path / 2;
      assert siblings[i..][1..] == siblings[i + 1..];
    }
    r := if result == root then Ok(()) else Err(VerificationFailed);
  }

  /** Whatever mode and however many workers, every proof a finished tree offers verifies against
      its root. */
  lemma GeneratedProofVerifies<T>(config: Config<T>, leaves: seq<T>, i: nat, block: Bytes)
    requires 2 <= |leaves| && i < |leaves| && leaves[i] == config.leafOf(block)
    ensures
      var p := ProofOf(config.combine, leaves, i);
      && Climb(config.combine, config.leafOf(block), p.siblings, p.path) == Root(config.combine, leaves)
      && |p.siblings| == Depth(|leaves|)
      && p.path == Pow2(Depth(|leaves|)) - 1 - i
  {
    ProofClimbsToRoot(config.combine, leaves, i);
    ProofShape(config.combine, leaves, i);
  }
}
