# Scionic Merkle trees in Dafny

A model of the Scionic Merkle tree library: the Merkle tree engine, content-defined chunking, the
canonical CBOR writer, the DAG with its builder, verification, partial DAGs, transmission (LeafSync),
delta sync, labels and storage. Operations that change state in Go are methods that change state here
and are proved against functions and predicates; what the library promises is proved about those.

## What is assumed

- A `Suite` stands for the library code: the hash, the CID of a leaf's identity, and the lengths of two
  serializations. They are total functions; an error from the hash or from `cbor.Marshal` is not
  modelled.
- Nothing is assumed of them but where a lemma says so. A hash cannot be injective and have a fixed
  length on all strings, so "no collision" is always said of the finite set of inputs that occur:
  `MerkleBinding.NoCollision`, `DeltaLaws.NoClash`, `ParallelBuild.Consistent`.
- `DagModel.WellFormed` is what a full DAG is: every link is present, every leaf is reachable, links are
  acyclic and distinct within a leaf, counts and Merkle roots agree with the links, and only the root has
  a leaf count, which is the number of leaves. `BuildLaws.CreatedIsWellFormed` shows that building from
  any file tree gives one.
- Equality of DAGs (`SameGraph`) and `WellFormed` leave out the proofs leaves carry, which no CID commits
  to. A DAG can store proofs that do not verify and still be well formed and pass `Verify`; where stored
  proofs matter, a result says exactly which. `DagModel.ProofsSound` is the case where all of them verify:
  what is built stores none (`BuildLaws.CreatedStoresNoProofs`), and `PartialLaws.PartialKeepsSound`,
  `TransmissionLaws.ReplayFull`, `BatchLaws.BatchedReplay` and `DeltaLaws.DeltaSync` keep it so.
- A path in a proof is a 32-bit number, so a tree has at most 2^32 leaves.
- Where Go ranges over a map, the model takes the elements in any order. Where Go calls an unstable sort
  whose comparison does not order everything (`IterateDag`, `GetContentFromLeaf`), the sort is a
  parameter that may be any rearrangement the comparison allows.

## What turned out to be conditional

- Batched replay with a batch size of zero or less is not complete for every full DAG. The packets then
  carry no proofs beside those the leaves happen to store, and a receiver rejects a child whose parent
  stores proofs, but not this child's. `BatchLaws.SinglesReplay` gives the exact condition and
  `Examples.HalfProvenRejected` a well-formed DAG that is rejected.
- A partial DAG of the root alone, with its links left in place, does not verify when the root has
  several links and stores no proof: `Examples.RootAloneFails`.
- A partial DAG does not verify when a proof its source stored does not and is still in place. Each branch
  that is merged in brings back the proofs its leaves stored, except for the child it came through, so the
  order of the requests matters: `Examples.StoredProofFails` and `Examples.OtherOrderPasses` request the
  same two leaves of one DAG in both orders. `PartialLaws.PartialVerifies` is an equivalence that covers
  this and the case above; `TransmissionLaws.PartialSyncStaysValid` and
  `BatchLaws.BatchedPartialSyncStaysValid` say exactly which packets a receiver of the partial accepts and
  after which of them what it holds verifies. The two lemmas `SoundSyncStaysValid` and
  `SoundBatchedSyncStaysValid` are the case of valid proofs.
- Full verification passes over the children of a parent whose number of links differs from the one it
  commits to, over those of a parent that is not first reached through, and over leaves that are not
  reached. `VerifyLaws.FullVerificationIsSound` says that a DAG that passes under a well-formed DAG's root
  is that DAG if and only if nothing passed over would have failed; `Examples.ExtraLinkPasses` gives every
  well-formed DAG a counterpart where something would.
- Partial verification checks less than it takes at two kinds of steps. It does not compare the leaf a
  stored proof is of with the child it is stored for (`Examples.MisnamedProofPasses`), and it checks nothing
  at a step up to a parent that commits to at most one child and has another number of links
  (`Examples.UncheckedStepPasses`). `VerifyLaws.PartialVerificationIsSound` says that a partial that passes
  under a well-formed DAG's root belongs to that DAG, leaf by leaf and step by step, if and only if every
  step is covered: by all children of the parent, by an acceptable proof of this very child, or by being the
  one child the parent commits to. That stored proofs name their children is enough
  (`VerifyLaws.NamedProofsBelong`).
- The length of a proof is not checked, so a proof binds its key only when no key is also the input of a
  node (`MerkleBinding.AcceptedKeyIsMember`, `MerkleBinding.LongerProofAccepted`); with siblings that are
  digests it is enough that no key is as long as two of them (`MerkleBinding.ApartByLength`).
- A receiver holds no leaf but under its CID and with the content it commits to, whatever it is sent
  (`TransmissionLaws.ReplayIsSound`, `BatchLaws.ReplayBatchesIsSound`). That an accepted child is one its
  parent commits to holds where its proof names it (`VerifyLaws.AcceptedChildIsGenuine`,
  `VerifyLaws.AcceptedBatchChildIsGenuine`); below a parent of the same batch that stores proofs of other
  leaves only it is not checked (`Examples.UnprovenSiblingAccepted`).
- A leaf does not always come back from a store as it went in when contents are kept apart:
  `Store.StoreThenRetrieve` says exactly when it does, and `Examples.UnhashedContentLost` is a leaf
  that does not.
- Writing parent hashes back changes nothing else that a store hands out, but for a leaf whose content is
  still inline, is moved apart and has no hash to be found by: `Store.UpdateKeepsLeaves`.

Where comments in the source and its code differ, the model follows the code. The path that
`buildVerificationBranch` makes is the root, then the leaves from the target's parent up to the root, not
from the root down; links are therefore re-established between neighbours of that list, and
`Partial.LinkNodes` proves that this never changes anything.

## Files

- `ByteStrings`, `Sums`, `Decimal`: byte strings and their order, sorted key lists, sums over sets,
  decimal numerals.
- `MerkleSpec`, `Workers`, `Hashing`, `MerkleTree`, `MerkleBinding`: the tree engine, its recursive
  definition, its workers, and what roots and proofs bind.
- `FastCdc`, `FastCdcStream`, `ChunkLaws`, `GearHash`: cutting a buffer, cutting a stream, the laws of cuts,
  and the rolling hash as a sum over the bytes.
- `SortedMap`, `CborDecoder`: the writer, and a decoder after section 3 of RFC 8949.
- `DagModel`, `LinkTree`, `ParentIndex`, `Traversal`, `DagVerify`: leaves, DAGs and their verification.
- `VerifyLaws`: what a DAG that passes verification, and a leaf that a receiver accepts, have in common with
  the DAG they claim to be of; and the totals a root may state.
- `Partial`, `PartialLaws`: `GetPartial` and when its results verify.
- `BreadthFirst`, `Transmission`, `TransmissionLaws`, `Greedy`, `Batches`, `BatchLaws`: LeafSync, leaf by
  leaf and in batches.
- `Diff`, `DeltaLaws`: differences and delta sync.
- `Builder`, `ParallelBuild`, `BuildLaws`, `ReadBack`, `Reassembly`, `FileRoundTrip`, `Labels`, `Store`:
  building, reading back, labelling and storing.
- `Examples`: the counterexamples.

## Model

| member | source | states |
|---|---|---|
| MerkleSpec.ProofClimbsToRoot | merkletree/merkletree.go:737-787 | Climbing from any leaf along the proof of its position reaches the root, for every number of leaves and every way of combining two nodes, sorted pairs included. |
| MerkleSpec.ProofShape | merkletree/merkletree.go:520-532 | A proof has as many siblings as the tree is deep, and its path is 2^depth - 1 - i for leaf i. |
| MerkleSpec.DepthBounds | merkletree/merkletree.go:171-199 | The depth is the least number of levels that holds the leaves. |
| MerkleBinding.NodeOrder | merkletree/merkletree.go:737-787 | Two nodes are hashed left before right or, with sorted sibling pairs, lower before higher. |
| MerkleBinding.SortedClimbIgnoresPath | merkletree/merkletree.go:737-787 | With sorted sibling pairs a climb does not depend on the path. |
| MerkleTree.Tree.UpdateProofPairs | merkletree/merkletree.go:520-533 | One pair of nodes extends the proofs below its left node by the right one and sets their path bit, extends those below its right node by the left one, and no others. |
| MerkleTree.Tree.UpdateProofs | merkletree/merkletree.go:458-475 | After a level is processed every proof reaches one level further up. |
| MerkleTree.Tree.UpdateProofsInParallel | merkletree/merkletree.go:477-518 | The same, for any number of workers taking strided pairs in any order. |
| MerkleTree.Tree.FixOddLength | merkletree/merkletree.go:438-456 | An odd level is padded with a copy of its last node. |
| MerkleTree.Tree.GenerateProofs | merkletree/merkletree.go:323-363 | The build that overwrites one buffer level by level ends with the root and every proof of the recursive definition. |
| MerkleTree.Tree.GenerateProofsInParallel | merkletree/merkletree.go:365-436 | The strided parallel build ends with the same root and proofs, for any number of workers and any order of their steps. |
| MerkleTree.Tree.GenerateLeavesInParallel | merkletree/merkletree.go:575-625 | The leaves made by workers are those made in order. |
| MerkleTree.Tree.ComputeTreeNodesInParallel | merkletree/merkletree.go:677-727 | The cached levels made by workers are the levels of the recursive definition. |
| MerkleTree.Tree.BuildTree | merkletree/merkletree.go:627-675 | The cached build ends with all levels, the root and the index of leaves. |
| MerkleTree.Tree.UpdateProofsFromNodes | merkletree/merkletree.go:171-280 | Proofs made from the cached levels are the proofs of the recursive definition, so the cached build and the in-place builds agree. |
| MerkleTree.Tree.ReadProof | merkletree/merkletree.go:793-830 | The proof read off the cached levels is the proof the other builders store for that leaf. |
| MerkleTree.Tree.ProofFor | merkletree/merkletree.go:793-830 | `Proof` fails without a cached tree or for an unknown block; otherwise it gives the proof of the last leaf that equals the block's, which is the leaf itself when leaves are distinct. |
| MerkleTree.Tree.GetIndexForKey | merkletree/merkletree.go:284-292 | Binary search finds a key exactly when it is there. |
| MerkleTree.CollectKeys | merkletree/merkletree.go:171-199 | Whatever order the map yields its keys in, they end up ascending, each once. |
| MerkleTree.New | merkletree/merkletree.go:171-280 | Fails for at most one block or an unknown mode; otherwise, in every mode and with any number of workers, the tree holds the same root and proofs. |
| MerkleTree.Verify | merkletree/merkletree.go:737-787 | Accepts exactly when climbing from the block along the proof gives the root; rejects a missing block or proof. |
| MerkleTree.GeneratedProofVerifies | merkletree/merkletree.go:323-350 | Every proof of a tree of at least two leaves verifies for its block, with depth many siblings and the path of its position. |
| MerkleBinding.AcceptedStartIsLeaf | merkletree/merkletree.go:737-787 | Without collisions among what is hashed, an accepted proof as long as the tree is deep starts at one of its leaves. |
| MerkleBinding.AcceptedStartIsNode | merkletree/merkletree.go:737-787 | A shorter accepted proof starts at a node of the level its length implies. |
| MerkleBinding.AcceptedKeyIsMember | merkletree/merkletree.go:737-787 | So a key with an accepted proof is a key of the tree: at full length always, at any length when no key is also the input of a node in the tree or along the proof. |
| MerkleBinding.ShorterIsInput | merkletree/merkletree.go:737-787 | A key with a shorter accepted proof is the input of an inner node of the tree. |
| MerkleBinding.LongerMeetsInput | merkletree/merkletree.go:737-787 | With a longer accepted proof one of the tree's keys is the input of a node on the way up. |
| MerkleBinding.ApartByLength | merkletree/merkletree.go:737-787 | When the siblings are digests and no key is as long as two digests, no key is the input of a node. |
| MerkleBinding.LongerProofAccepted | merkletree/merkletree.go:737-787 | A key that begins with the hash of another string gives that string an accepted proof, one sibling longer. |
| MerkleBinding.ProofInputsAreTreeInputs | merkletree/merkletree.go:737-787 | Checking a genuine proof hashes nothing that building the tree did not. |
| MerkleBinding.RootBindsKeySet | merkletree/merkletree.go:171-199 | Two sorted key sets have the same root if and only if they are equal, also for different sizes unless a key is as long as two digests. |
| Workers.AllTaken | merkletree/merkletree.go:365-385 | When every worker is past the end of its stride, each item has been taken once. |
| Workers.Pool.Step | merkletree/merkletree.go:477-494 | One step of any worker takes the next item of its stride and leaves the others' progress alone. |
| FastCdc.MasksAreThresholds | dag/fastcdc.go:44-52 | The strict mask tests h < 2^41, the loose one h < 2^45, and a strict match is a loose match. |
| FastCdc.WindowOf64 | dag/fastcdc.go:137-149 | After 64 bytes the rolling hash does not depend on what it was before, with wrapping 64-bit arithmetic. |
| FastCdc.CutTestReadsWindow | dag/fastcdc.go:137-149 | Once 64 bytes are hashed, whether a position is a cut depends only on the last 64 bytes. |
| GearHash.RollIsWindowSum | dag/fastcdc.go:137-149 | The rolling hash is the sum, modulo 2^64, over at most the last 64 bytes, of each byte's gear word times two to the power of the number of bytes after it. |
| GearHash.BoundaryIsFirstSmallSum | dag/fastcdc.go:124-151 | The next chunk is all of a remainder no longer than the minimum; otherwise it ends with the first byte past the minimum whose sum is below 2^41 before the target size and 2^45 from there on, or at the maximum or the end. |
| GearHash.ChunkEndsAtSmallSum | dag/fastcdc.go:161-187 | Every chunk of a buffer but the last ends so, by the sums over its own bytes. |
| GearHash.BytesDecide | dag/fastcdc.go:124-151 | An instance in which data of the same length are cut at different places because their bytes differ. |
| FastCdc.BoundaryUnique | dag/fastcdc.go:124-151 | At most one position meets the definition of a boundary: the first match in its range, or the limit. |
| FastCdc.FastCdcBoundary | dag/fastcdc.go:124-151 | The loops find that position. |
| FastCdc.BoundaryIsLocal | dag/fastcdc.go:124-151 | A boundary before the end of the data depends only on the bytes up to it. |
| FastCdc.CutChunks | dag/fastcdc.go:161-187 | Cuts a buffer in either mode, and gives nothing for empty input. |
| FastCdcStream.Refill | dag/fastcdc.go:216-230 | Short reads, empty reads and data that comes with the end of the input fill the window with the bytes that follow. |
| FastCdcStream.StreamChunks | dag/fastcdc.go:216-252 | For every script of reads, what is emitted is a prefix of the whole buffer's cuts, and all of them when the stream ends without an error; it stops at the chunk the callback rejects. |
| ChunkLaws.ChunksAreTheData | dag/fastcdc.go:161-187 | The chunks concatenate to the data, in either mode, and none is empty. |
| ChunkLaws.CutSizes | dag/fastcdc.go:124-151 | Every chunk but the last is longer than the minimum and none is longer than the maximum. |
| ChunkLaws.FixedSizes | dag/fastcdc.go:161-187 | With a fixed size every chunk but the last has that size; without a positive size there is one chunk. |
| ChunkLaws.PrefixKeepsChunks | dag/fastcdc.go:161-187 | Inputs that agree on a prefix have the same chunks within it, the final chunk excepted. |
| ChunkLaws.BoundaryResynchronizes | dag/fastcdc.go:161-187 | The chunks after a boundary are those of the remaining bytes alone. |
| ChunkLaws.EditKeepsChunks | dag/fastcdc.go:161-187 | An edit keeps the chunks before it and, once both versions place a boundary at the same point of the common suffix, all later ones. |
| SortedMap.AppendHead | dag/sortedmap.go:123-140 | Writes the head of a major type and any 64-bit argument. |
| SortedMap.KeyOrderIsEncodedOrder | dag/sortedmap.go:84-115 | Ordering keys by length and then bytewise is the bytewise order of the encoded keys, as section 4.2.1 of RFC 8949 asks. |
| ByteStrings.LessIsBytewise | dag/sortedmap.go:84-115 | The order of strings is bytewise: a proper prefix, or smaller at the first place where they differ. |
| SortedMap.KeyListSorted | dag/sortedmap.go:84-115 | Any order of a map's keys is sorted into one list with each key once. |
| SortedMap.AppendDict | dag/sortedmap.go:84-115 | Whatever order the keys are read in, the same bytes are written. |
| SortedMap.AppendValue | dag/sortedmap.go:161-209 | Writes the values the package encodes itself: a string, a byte slice, nil or not, a map with sorted keys, or a struct. |
| SortedMap.AppendStruct | dag/sortedmap.go:211-221 | Writes the fields in the order given. |
| CborDecoder.HeadReadsBack | dag/sortedmap.go:123-140 | A decoder after section 3 of RFC 8949 reads back the major type and argument and leaves the rest. |
| CborDecoder.HeadIsShortest | dag/sortedmap.go:123-140 | No head that reads as the same argument is shorter. |
| CborDecoder.ValueReadsBack | dag/sortedmap.go:161-209 | Decoding an encoded value, followed by anything, gives what the value says and leaves what followed. |
| CborDecoder.MapReadsBack | dag/sortedmap.go:84-115 | The pairs read from a map are its entries, each once, in canonical order. |
| CborDecoder.EncodingDeterminesContent | dag/sortedmap.go:84-145 | Values with the same encoding say the same. |
| DagModel.LinkProofOk | dag/transmission.go:248-271 | A proof built from a parent's links verifies against the root built from them. |
| DagModel.CommittedChildrenOk | dag/leaves.go:319-366 | A leaf whose root and count agree with its links passes the children check. |
| DagModel.ChildrenCheckIsExact | dag/leaves.go:319-366 | Among duplicate-free link lists of the committed length the children check accepts exactly the committed set, in any order. |
| DagModel.SameGraphWellFormed | dag/dag.go:753-786 | Proofs play no part in whether a DAG is well formed. |
| LinkTree.Build | dag/transmission.go:256-263 | The engine builds the tree over a leaf's links, and fails exactly for fewer than two distinct ones. |
| LinkTree.ProofForChild | dag/transmission.go:248-271 | No proof below a parent with at most one link; otherwise the child's, or an error when it is not linked or no tree can be built. |
| LinkTree.VerifyChildren | dag/leaves.go:319-366 | Rebuilds the tree and decides the children check. |
| LinkTree.VerifyBranch | dag/leaves.go:307-316 | Decides whether a branch climbs to the leaf's Merkle root. |
| ParentIndex.MinimumParentIndex | dag/dag.go:1140-1150 | Whatever order parents are taken in, each child gets the lowest parent that links it, and only linked hashes are in the index. |
| ParentIndex.MinParentUnique | dag/dag.go:1127-1150 | There is one lowest parent, so the index does not depend on the order. |
| ParentIndex.NoneLower | dag/dag.go:1140-1150 | No leaf that links a hash comes before its lowest parent in bytewise order. |
| ParentIndex.WalkUpReachesRoot | dag/dag.go:1165-1245 | Walking up by lowest parents reaches the root of a well-formed DAG, passing no leaf twice and so in fewer steps than there are leaves. |
| ParentIndex.RootHasNoParent | dag/dag.go:1127-1150 | Nothing links the root. |
| Traversal.Iterate | dag/dag.go:1003-1052 | The recursive closure makes the visits of a walk that takes a stack of leaves to visit. |
| Traversal.WalkVisitsEachLeafOnce | dag/dag.go:1003-1052 | On a well-formed DAG `IterateDag` ends without an error and visits each leaf exactly once, the root first, every other leaf through a parent that links it. |
| Traversal.CompleteIsClosed | dag/dag.go:1003-1052 | A walk that ends without an error has visited every leaf its visits link. |
| DagVerify.VerifyRootLeaf | dag/leaves.go:432-615 | Decides the root's CID and content and, when all leaves and contents are there and none is pruned, the totals. |
| VerifyLaws.RootPassesByTotals | dag/leaves.go:432-560 | A root passes exactly when its hash is its CID, its content hashes to its content hash and, where all leaves and contents are there to count, the sizes it states are the sums of the content lengths and of the serialized lengths. |
| VerifyLaws.PassingTotals | dag/leaves.go:432-560 | So a DAG that passes and can be counted has a root that states those sums. |
| VerifyLaws.OneTotalPasses | dag/leaves.go:553-559 | Of two roots over the same leaves that differ in the totals they state, and so in their CIDs, at most one passes. |
| Examples.OverstatedFails | dag/leaves.go:553-559 | No well-formed DAG that can be counted passes with a root stating one byte of content too many under the CID over that. |
| DagVerify.VerifyFullDag | dag/dag.go:753-786 | Decides the checks of every visit: leaf, parent link, and the children of parents that are complete. |
| DagVerify.WellFormedPasses | dag/dag.go:753-786 | A well-formed DAG passes, in whatever order links are taken. |
| DagVerify.FindParent | dag/dag.go:852-860 | Finds the lowest parent of a leaf in the DAG at hand, or that it has none. |
| DagVerify.VerifyPath | dag/dag.go:836-914 | Decides whether every step up from a leaf to the root passes. |
| DagVerify.VerifyWithProofs | dag/dag.go:789-920 | Decides the root, the check of its children, and for every other leaf its CID and its path to the root. |
| DagVerify.VerifyDag | dag/dag.go:923-930 | Chooses between the two by the number of leaves. |
| DagVerify.PathUnfold | dag/dag.go:836-914 | A leaf's path passes exactly when its step up passes and its parent's path does. |
| Partial.BuildVerificationBranch | dag/dag.go:1165-1245 | Succeeds exactly when the walk up by lowest parents reaches the root and the tree of each parent of several children on it can be built; the branch then holds a clone of every leaf on the walk, each with a new proof of the one below when it has several children. |
| Partial.AddBranchToPartial | dag/dag.go:1248-1319 | The partial gains exactly the leaves of the path; each stays its original but for proofs: new ones of kept children, and the ones it stored, which come back except for the child the last branch through it came by. |
| Partial.LinkNodes | dag/dag.go:1278-1316 | Re-establishing links along the path changes nothing. |
| Partial.CompleteParentProofs | dag/dag.go:1399-1430 | Succeeds exactly when each missing proof of a kept child can be made; every parent of several links then has a proof of each kept child, and proofs already there stay. |
| Partial.PruneIrrelevantLinks | dag/dag.go:1067-1083 | Each leaf keeps the links to relevant hashes, in order, and nothing else about it changes. |
| Partial.GetPartial | dag/dag.go:1323-1393 | Succeeds exactly when something is requested, every request is there and climbs to the root, and missing proofs can be made, with the error of the first failure otherwise; the result is determined: the requested leaves and all above them, which proofs are new and which stored, pruned as asked. |
| Partial.PathBelow | dag/dag.go:1248-1276 | Which leaves a branch brings a copy of, and through which child it comes to each. |
| Partial.TrackNext | dag/dag.go:1248-1276 | After one more branch the last child of each leaf is the one that branch comes through, or none for a root requested itself, or what it was. |
| Partial.UpPathUnique | dag/dag.go:1165-1245 | There is one walk up from each leaf. |
| PartialLaws.PartialLeafFacts | dag/dag.go:1399-1430 | Every parent in a partial that had several links holds a proof of each child it keeps, which verifies if and only if it is a new one or the one stored before did. |
| PartialLaws.WellFormedCanGet | dag/dag.go:1323-1393 | From a well-formed DAG `GetPartial` succeeds exactly when something is requested and all of it is there. |
| PartialLaws.PartialKeepsSound | dag/dag.go:1323-1393 | When all stored proofs of the DAG verify, so do all of the partial. |
| PartialLaws.PartialLinkedWithin | dag/dag.go:1323-1393 | Every leaf of a partial but the root is linked by a leaf of it. |
| PartialLaws.PartRootStep | dag/dag.go:797-827 | The check of the root's children passes exactly when links are pruned, or some other leaf was requested, or the root has at most one link or stores a proof; also for every part of the partial. |
| PartialLaws.PartPasses | dag/dag.go:789-920 | A part of the partial that holds a parent of each of its leaves passes exactly when the check of the root does and each leaf is served by its lowest held parent: that has one link, or all its links are held, or its proof of the leaf is new or was valid. |
| PartialLaws.PartialVerifies | dag/dag.go:1323-1393 | The partial of any requests passes `Verify` if and only if (links are pruned, or some other leaf than the root was requested, or the root has at most one link or stores a proof) and, for each kept leaf, its lowest parent has one link, or keeps all its children, or its proof of the leaf is new or was valid when stored. |
| PartialLaws.KeptMinParent | dag/dag.go:1140-1150 | The lowest parent of a kept leaf is kept, so the partial and the DAG agree on it. |
| PartialLaws.SoundServes | dag/dag.go:1323-1393 | Where all stored proofs verify, the second condition holds for any requests in any order. |
| Examples.StoredProofFails | dag/dag.go:1248-1276 | A well-formed DAG that passes full verification and stores one proof that does not verify; the partial of two of its leaves fails. |
| Examples.OtherOrderPasses | dag/dag.go:1248-1276 | The partial of the same two leaves requested the other way round passes. |
| VerifyLaws.FullVerificationIsSound | dag/dag.go:753-786 | A DAG that passes full verification under the root of a well-formed DAG is that DAG, leaf by leaf as far as CIDs say, if and only if every leaf is reached, has as many links as it commits to, and the children that were never checked would have passed. |
| VerifyLaws.PartialVerificationIsSound | dag/dag.go:789-920 | A partial that passes under the root of a well-formed DAG consists of that DAG's leaves, each linked by its lowest parent there too, if and only if at each step up to a lowest parent all the parent's children are there, or it commits to several and some proof of this child is accepted, or it commits to this child alone. |
| VerifyLaws.NamedProofsBelong | dag/dag.go:789-920 | So a partial that passes belongs to the DAG when the stored proofs it goes by name the children they are stored for. |
| VerifyLaws.GenuineStepCovers | dag/dag.go:872-911 | A genuine child's step is covered, by the proof built from the genuine links. |
| VerifyLaws.StepIsGenuine | dag/dag.go:872-911 | A child whose step up to a genuine parent passes and is covered is one of that parent's children. |
| Examples.ExtraLinkPasses | dag/dag.go:753-786 | For every suite, every well-formed DAG with one link of the root too many, to any leaf that passes by itself, passes full verification. |
| Examples.MisnamedProofPasses | dag/leaves.go:307-316 | For every suite, under the root of every well-formed DAG with several children any leaf that passes by itself passes partial verification with the proof of any child. |
| Examples.UncheckedStepPasses | dag/dag.go:872-911 | For every suite, under the root of every well-formed DAG of more than two leaves that commits to one child any leaf that passes by itself passes partial verification without a proof. |
| Examples.RootAloneFails | dag/dag.go:797-827 | A well-formed DAG whose root alone, requested without pruning, does not pass. |
| BreadthFirst.SendOrderFacts | dag/transmission.go:12-91 | The root comes first, every other leaf after the linked parent that declares it; when parents serve their children no leaf is left out. |
| TransmissionLaws.SendsEachOnce | dag/transmission.go:94-177 | Each leaf is sent exactly once. |
| Transmission.GetPartialLeafSequence | dag/transmission.go:12-91 | The packets of a partial DAG: its leaves in breadth-first order with the proofs their parents store. |
| Transmission.GetFullLeafSequence | dag/transmission.go:94-177 | The packets of a full DAG: its leaves in breadth-first order, each with a proof built against the parent it declares. |
| Transmission.GetLeafSequence | dag/transmission.go:94-99 | Chooses between the two. |
| Transmission.VerifyTransmissionPacket | dag/transmission.go:179-202 | Decides whether a packet is accepted next to the leaves held. |
| Transmission.AcceptedIsSound | dag/transmission.go:179-202 | Whatever packet is accepted next to whatever leaves, its leaf's hash is the CID of its fields, of the root's when it comes without a parent, and any content it brings hashes to its content hash; and what is held stays sound in this sense. |
| VerifyLaws.AcceptedIsGenuine | dag/transmission.go:179-202 | So without clashes an accepted leaf whose hash is one of a well-formed DAG's has that DAG's fields and content, and came as the root exactly when it is the root. |
| VerifyLaws.AcceptedChildIsGenuine | dag/transmission.go:188-201 | A child accepted below a genuine parent of several children with a proof that names it is one of those children. |
| TransmissionLaws.ReplayIsSound | dag/transmission.go:179-241 | Whatever packets a receiver is sent, every leaf it holds is under its CID and has the content it commits to. |
| VerifyLaws.HeldIsGenuine | dag/transmission.go:179-241 | So under a well-formed DAG's hashes it holds no other leaves than that DAG's. |
| Transmission.AppliedEffect | dag/transmission.go:204-232 | After applying a packet the leaf is there as it came, its declared parent links it, once, and holds its proof, and nothing else is touched. |
| Transmission.ApplyTransmissionPacket | dag/transmission.go:204-232 | Stores the leaf and gives the declared parent the link, when it lacks it, and the proof; nothing else changes. |
| Transmission.ApplyAndVerifyTransmissionPacket | dag/transmission.go:234-241 | Applies what is accepted, which is sound, and leaves the DAG as it was otherwise. |
| TransmissionLaws.ReplayFull | dag/transmission.go:94-232 | An empty receiver accepts every packet of a well-formed full DAG and ends with the sender's leaves and links, in a DAG that passes `Verify`, shared leaves included; its stored proofs verify when the sender's do. |
| TransmissionLaws.PartialSyncStaysValid | dag/transmission.go:12-91 | Receiving a partial made by `GetPartial`, the first n packets are accepted if and only if each declared parent keeps one link or its proof of the child is new or was valid; the receiver then holds exactly the leaves sent, proofs included, and passes `Verify` if and only if the root has a proof to go by and each held leaf is served by its lowest held parent. |
| TransmissionLaws.SoundSyncStaysValid | dag/transmission.go:12-91 | Where all stored proofs verify, every packet is accepted and the receiver passes `Verify` after each whenever the whole partial does. |
| Greedy.GreedyOptimal | dag/transmission.go:296-388 | No partition into contiguous blocks that are single items or within the limit has fewer blocks than first-fit. |
| Greedy.BlocksJoin | dag/transmission.go:296-388 | First-fit blocks are not empty, are single items or within the limit, and put together give the items. |
| Greedy.FillIsGreedy | dag/transmission.go:354-371 | Closing a block when the next item does not fit gives the first-fit blocks. |
| Batches.EstimateSize | dag/leaves.go:796-850 | The size estimate of a leaf, additional data taken in any order. |
| Batches.BlankEstimate | dag/leaves.go:796-850 | A leaf of nothing but its kind counts 136, 137 or 141. |
| Batches.EstimateCountsBytes | dag/leaves.go:796-850 | Content, content hash, hash, name and Merkle root count their lengths. |
| Batches.EstimateCountsEntries | dag/leaves.go:796-850 | Each link counts 64, each proof 320, and each entry of the additional data its key and value. |
| Batches.EstimateIgnoresNumbers | dag/leaves.go:796-850 | Numbers and the parent hash count the same whatever they are. |
| Batches.FinalizeBatch | dag/transmission.go:398-507 | Going through a batch's parents in any order clears the proofs of those that have all children declared in it and gives the others of a full DAG a proof of every child. |
| Batches.GetBatchedLeafSequence | dag/transmission.go:280-388 | The batches are the first-fit blocks of the breadth-first order, finalized and numbered; in a batch of several leaves the contents, names, 64 for each link and 132 for each leaf add up to at most the batch size. Without a positive size each leaf comes alone. |
| Batches.VerifyBatchedTransmissionPacket | dag/transmission.go:509-597 | Decides whether every leaf of a batch is vouched for by its parent, in the batch or received before. |
| Batches.AcceptedBatchIsSound | dag/transmission.go:509-597 | Whatever batch is accepted, each of its leaves is under its CID with the content it commits to, and declares a parent that came with it or was there, or none. |
| VerifyLaws.AcceptedBatchIsGenuine | dag/transmission.go:509-597 | So without clashes a leaf of an accepted batch whose hash is one of a well-formed DAG's is that DAG's leaf. |
| VerifyLaws.AcceptedBatchChildIsGenuine | dag/transmission.go:560-592 | A leaf accepted below a genuine parent of several children that stores a proof naming it, or stores none and links it, is one of those children. |
| Examples.UnprovenSiblingAccepted | dag/transmission.go:578-585 | Below a parent of its batch that stores proofs of other leaves only, any leaf that passes by itself is accepted. |
| BatchLaws.ReplayBatchesIsSound | dag/transmission.go:509-656 | Whatever batches a receiver is sent, every leaf it holds is under its CID and has the content it commits to. |
| Batches.StoreLeafEffect | dag/transmission.go:599-647 | Storing a leaf of a batch adds it, or adds its links and proofs to the known one; its declared parent links it; nothing else is touched. |
| Batches.ApplyBatchedTransmissionPacket | dag/transmission.go:599-647 | New leaves are stored, links and proofs of known ones merged, missing parent links added. |
| Batches.ApplyAndVerifyBatchedTransmissionPacket | dag/transmission.go:649-656 | Applies what is accepted, which is sound, and leaves the DAG as it was otherwise. |
| BatchLaws.BatchingIsOptimal | dag/transmission.go:296-388 | The batches put together are the breadth-first order; each holds one leaf or is within the estimated limit; and no contiguous partition that obeys the limit has fewer. |
| BatchLaws.SameOrder | dag/transmission.go:94-177 | A well-formed full DAG is batched in the order in which it is sent leaf by leaf. |
| BatchLaws.EquippedVouches | dag/transmission.go:398-507 | A finalized parent of several links in a full DAG holds valid proofs of its children or has all of them in its batch; in a partial DAG it is as it was, or has none and all its children are in the batch. |
| BatchLaws.BlockAccepted | dag/transmission.go:509-647 | A batch cut from the order is accepted after the batches before it exactly when, in a partial DAG, each parent of several links stores a valid proof of the child or comes with all its children; what it brings is stored as it is. |
| BatchLaws.BatchedReplay | dag/transmission.go:280-656 | For every positive batch size an empty receiver accepts every batch of a well-formed full DAG and ends with the sender's leaves and links, in a DAG that passes `Verify`; its stored proofs verify when the sender's do. |
| BatchLaws.BatchedPartialSyncStaysValid | dag/transmission.go:280-656 | The same for a partial made by `GetPartial`, with the exact condition for the first k batches to be accepted and for what is then held to pass `Verify`. |
| BatchLaws.SoundBatchedSyncStaysValid | dag/transmission.go:280-656 | Where all stored proofs verify, every batch is accepted and the receiver passes `Verify` after each whenever the whole partial does. |
| BatchLaws.SinglesReplay | dag/transmission.go:281-294 | Without a positive batch size, replay is accepted if and only if each parent of several links stores no proof or a valid one of every child sent under it; the receiver then holds the sender's leaves as they are. |
| BatchLaws.PartialSinglesReplay | dag/transmission.go:281-294 | Without a positive batch size a partial made by `GetPartial` is received as it is leaf by leaf: the first n packets are accepted under the same exact condition, and the same leaves are held. |
| Examples.HalfProvenRejected | dag/transmission.go:281-294 | A well-formed DAG whose root stores one valid proof is rejected without a batch size. |
| Diff.DiffDags | diff/diff.go:203-260 | What only the second DAG has is added, what only the first has is removed, with exact counts. |
| Diff.DiffSays | diff/diff.go:203-260 | A hash is in the diff when exactly one of the DAGs has it, as added or removed with the leaf of that DAG, and the counters are the numbers of such hashes. |
| Diff.PickRoot | diff/diff.go:287-304 | Whatever the order, the leaf with the highest leaf count and then the lowest hash. |
| Diff.Traverse | diff/diff.go:319-345 | Visits what is reachable, and from nothing visited exactly that. |
| Diff.SpreadIsReachable | diff/diff.go:319-345 | A traversal from nothing visited ends with the hashes reachable from its start. |
| Diff.DiffFromNewLeaves | diff/diff.go:264-361 | New leaves that are not held are added; held leaves not reachable from the picked root are removed. |
| Diff.CreatePartialDag | diff/diff.go:174-201 | The unpruned partial for the added leaves, or an error exactly when `GetPartial` has one for them. |
| Diff.ApplyToDAG | diff/diff.go:66-171 | Without additions a copy; otherwise a root nothing links with all that is reachable from it, an error when there is no such root, or one when a reachable leaf is missing. |
| DeltaLaws.SharedLeafAgrees | diff/diff.go:87-100 | A hash that occurs in two well-formed DAGs names the same leaf: same identity, same set of links, same content. |
| DeltaLaws.AddedIfRootDiffers | diff/diff.go:102-124 | When the roots differ the new root is among the added leaves; when they are the same nothing is added. |
| DeltaLaws.PoolReaches | diff/diff.go:130-162 | From the new root the pool reaches exactly the new DAG's hashes. |
| DeltaLaws.SameDifferences | diff/diff.go:264-361 | On the partial's leaves the receiver finds the same added and removed leaves, with the same counts, as the sender between the two DAGs. |
| DeltaLaws.DeltaRoot | diff/diff.go:102-128 | The only candidate for the new root is the new root. |
| DeltaLaws.DeltaApplies | diff/diff.go:66-171 | Applying the receiver's diff finds no leaf missing and gives the new DAG's root and hashes, leaf by leaf the same identity, links and content. |
| DeltaLaws.RebuiltWellFormed | diff/diff.go:66-171 | When the shared copies do not differ in what no CID commits to, what is rebuilt is well formed. |
| DeltaLaws.DeltaSync | diff/diff.go:66-361 | Diff, partial, receiver's diff and application put together rebuild the new DAG; its stored proofs verify when those of both DAGs do. |
| Builder.BuildLeaf | dag/leaves.go:42-136 | The leaf of a name, type, links, data and additional data, or none when the tree over its links cannot be built. |
| Builder.BuildRootLeaf | dag/leaves.go:147-275 | The root leaf with the totals of the builder added to its own. |
| Builder.DagBuilder.AddLeaf | dag/dag.go:689-732 | Equal leaves are added once, and the running totals stay the sums over unique leaves. |
| Builder.ProcessFile | dag/dag.go:284-374 | A file of several chunks links a leaf for each in order, named by index; any other holds its bytes. |
| Builder.ProcessEntry | dag/dag.go:217-282 | What sequential processing of a tree makes and adds, and that it fails exactly when some leaf cannot be made. |
| Builder.CreateDag | dag/dag.go:110-161 | The DAG of a file tree. |
| ReadBack.Create | dag/dag.go:84-108 | What is built, by one worker or many, shows the file tree: the root's name, kind, additional data and bytes are the entry's, and a directory's ascending links lead one by one to leaves that show its entries. |
| ReadBack.DirectoryFinds | dag/dag.go:234-282 | Following the links of a directory leaf finds exactly one leaf of each entry's name, which shows that entry, and no others. |
| ParallelBuild.RunMembers | dag/dag.go:435-568 | On every schedule of any number of workers a directory's additions are those of sequential processing. |
| ParallelBuild.SortedResults | dag/dag.go:541-560 | Whatever order the workers finish in, sorting the results by index puts each in its entry's place. |
| ParallelBuild.ProcessEntryParallel | dag/dag.go:435-673 | On every schedule the entry's own leaf is the one sequential processing makes, or there is none when that fails. |
| ParallelBuild.SameLeaves | dag/dag.go:689-732 | The builder's leaves do not depend on the order in which they are added. |
| ParallelBuild.CreateDagParallel | dag/dag.go:164-215 | On every schedule the parallel build fails exactly when the sequential one does, and otherwise gives the same leaves, totals and root. |
| BuildLaws.BuiltRootOk | dag/leaves.go:432-560 | The root made from the running totals passes `VerifyRootLeaf`, which adds them up again. |
| BuildLaws.MadeShape | dag/dag.go:234-374 | Children are added before parents, and every added leaf is sound and linked by a later one or the entry's own leaf. |
| BuildLaws.CreatedIsWellFormed | dag/dag.go:110-161 | The DAG of any file tree is well formed. |
| BuildLaws.CreatedStoresNoProofs | dag/leaves.go:42-136 | What is built stores no proofs, so all stored proofs verify. |
| Decimal.AtoiOfItoa | dag/dag.go:1091-1098 | A number is read back from its numeral. |
| Decimal.ChunkIndexReadsBack | dag/dag.go:1091-1098 | A chunk's index is read back from its name, bare or behind a path with either separator. |
| Reassembly.GetContentFromLeaf | dag/dag.go:959-1001 | Fails exactly when a linked leaf is missing; otherwise concatenates the sorted leaves' contents. |
| Reassembly.SortedChunks | dag/dag.go:985-991 | Sorted by index, the linked leaves are the chunks in order. |
| Reassembly.ReassembledContent | dag/dag.go:959-1001 | For any order of the links, and also when chunks have the same bytes, the concatenation is the chunks in order. |
| FileRoundTrip.FileRoundTrip | dag/dag.go:284-374 | Cutting a file, naming and storing its chunks, and reading it back gives its bytes, in either chunking mode and for any order of the links. |
| Labels.CalculateLabels | dag/dag.go:1437-1466 | The leaves but the root get the numerals from 1 in traversal order. |
| Labels.LabelsAreBijection | dag/dag.go:1437-1466 | On a well-formed DAG the labels are the numerals from 1 to one less than the leaf count, one to one with the leaves but the root. |
| Labels.GetLabel | dag/dag.go:1527-1547 | The root has label 0; any other hash gets a label that names it, or an error when there is none. |
| Labels.GetHashesByLabelRange | dag/dag.go:1481-1522 | Gives the hashes of the range or the first error the guards find. |
| Labels.JoinedRanges | dag/dag.go:1481-1522 | Two ranges that meet succeed if and only if the range over both does, and put together are that range, whatever the labels. |
| Labels.LabelledRange | dag/dag.go:1481-1522 | On a labelled well-formed DAG every range within the labels succeeds and gives the leaves in traversal order. |
| Labels.LabelledRangesJoin | dag/dag.go:1481-1522 | So ranges that meet within the labels succeed and join. |
| Labels.LabelReadsBack | dag/dag.go:1527-1547 | On a labelled well-formed DAG the label of the i-th leaf is the numeral of i. |
| Store.DagStore.StoreLeaf | dag/store.go:404-420 | Content is kept apart when that is asked for and there is some. |
| Store.DagStore.RetrieveLeaf | dag/store.go:422-444 | Content kept apart is attached to a leaf with a content hash and none of its own. |
| Store.StoreThenRetrieve | dag/store.go:404-444 | Exactly when a leaf comes back from the store as it went in. |
| Examples.UnhashedContentLost | dag/store.go:404-444 | A leaf with content and no content hash comes back without its content. |
| Store.DagStore.BuildIndexByTraversal | dag/store.go:569-632 | The index lists the reachable leaves once, their links, and the lowest parent of each child. |
| Store.OneParentRule | dag/serialize.go:284-297 | The store's index and deserialization give every leaf but the root the same parent, its lowest. |
| Store.DagStore.BuildIndexFromCache | dag/store.go:507-565 | The index lists what the cached parents reach from the root, with exactly those parents. |
| Store.CachedIndexAgrees | dag/store.go:507-565 | On a well-formed DAG the index from the cache lists the same leaves with the same parents as traversal if and only if the cache gives every leaf but the root its lowest parent and nothing else a parent. |
| Store.DagStore.UpdateParentHashesStreaming | dag/store.go:1045-1117 | For any batch size the parent hashes of the indexed leaves become what the index says; nothing else changes but that, in a leaf store without batches, contents still inline move apart where they are kept apart. |
| Store.ParentsWritten | dag/store.go:1065-1117 | After the update of a well-formed DAG's store, with an index built by traversal, every leaf but the root has its lowest parent as parent hash and the root the empty one. |
| Store.CachedParentsWritten | dag/store.go:1065-1117 | The same with an index from a canonical cache. |
| Store.UpdateKeepsLeaves | dag/store.go:1045-1117 | What the store hands out afterwards differs in the parent hash only, except exactly for a content that moved and has no hash. |

## Left out

- Errors of the hash function and of serialization: the functions of a `Suite` are total.
- `BuildLaws.CreatedIsWellFormed`: equal CIDs among the leaves made are assumed to mean equal leaves, and the root's CID to be new.
- `ParallelBuild.CreateDagParallel`: workers are modelled by the order in which their additions reach the builder and in which their results arrive, both arbitrary; goroutines, channels and locks are not. Equal CIDs among the leaves made are assumed to mean equal leaves.
- `DagVerify.VerifyWithProofs`: requires acyclic links, because on a cycle the source's climb does not end.
- `SortedMap.AppendValue`: values that go through `cbor.Marshal` (integers, the leaf type, string lists, proof branches) are not modelled.
- `Partial.GetPartial`: requires the root to be there, links to be acyclic and leaves to be kept under their own hashes; without the root the source dereferences nil, and on a cycle its climb does not end.
- `DagVerify.VerifyFullDag`: follows the source in checking a parent's children only where some child is first reached through it.
- `Reassembly.ReassembledContent`: says nothing of file leaves whose links are not chunks named by distinct indices, for which the source's comparison need not order them.
- `Store.DagStore.UpdateParentHashesStreaming`: errors of the underlying stores are not modelled.
- `FileRoundTrip.FileRoundTrip`: cuts the file as a buffer; `StreamChunks` proves that the stream cutter gives the same chunks in FastCDC mode, and the fixed-size file reader is not modelled (without a chunk size it makes one empty chunk of an empty file, where the buffer cutter makes none).
- `sort.Strings` on links is modelled by a sorted list with each key once; repeated links are skipped by the visited set in the source, and cannot occur in a well-formed DAG.
- Sharing of memory between a leaf and its clone: leaves are values, and a DAG's map is what operations change.
- The builder's `AddLeaf` with a parent, which the library itself never passes; time stamps, the chunking tag and custom leaf processors, whose results are additional data of an entry.
- File system access, creating directories, `safeJoin`, JSON, the CBOR of whole DAGs and packets, the streaming verifier, global settings and printed warnings.
- The values of the gear table: every statement holds for any table of 256 words.
- `ClearLabels`, `RemoveAllContent`, `GetRemovedLeaves` and other one-loop helpers, which would add only easy members.
- A proof branch that is nil, and the difference between a nil and an empty map or slice.
