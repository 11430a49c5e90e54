# Merkle trees in Dafny

This project models `Merkle_trees.py`, a small Python library with three Merkle trees
and one inclusion-proof verifier:

- `BinaryMerkleTree` hashes an ordered list of items into levels. The last entry of
  every odd-length level is duplicated before pairing. Items can be appended and the
  levels rebuilt, either from scratch (`update_tree`) or incrementally
  (`update_tree_optim`).
- `SparseMerkleTree` is a full tree over `2 ** key_len` slots. It starts from one
  default digest per level. Setting a slot rewrites only the path from that slot to
  the root.
- `IndexedMerkleTree` is a full tree over `2 ** tree_height` leaves. Each leaf is a
  `Leaf(value, nextidx, nextval)` record. `add_value` links the new leaf after the
  first leaf holding the largest value not above it. While the inserted values are
  distinct and positive, the filled leaves form a sorted linked list from the sentinel
  leaf 0; a repeated value leaves a leaf off that list. `update` rehashes every level.
- Every tree has `generate_proof`, which walks the levels from a leaf to the root and
  collects `(sibling, is_left)` pairs. `verify_inc_proof` replays such a proof from the
  target's digest and compares the result with a root.

The files follow that structure:

- `common.dfy` (module `Common`) holds the Python built-ins the trees use: `str` of an
  int, `''.join`, `list.index`, and the two exceptions they raise. The filter and
  `max()` of `max_smaller_val` are `AtMost` and `SeqMax` in `indexed_tree.dfy`.
- `levels.dfy` (module `Levels`) holds the hashing discipline shared by all three
  trees. `LevelHashes` is `get_level_hashes`. `Linked` says a table of levels is closed
  under the parent relation and ends in one root.
- `proofs.dfy` (module `Proofs`) holds `generate_proof`, `verify_inc_proof` and their
  round trip: on a linked table, every leaf's proof replays to the root.
- `binary_tree.dfy`, `sparse_tree.dfy` and `indexed_tree.dfy` hold one class each. The
  fields of each class are the fields of the Python object that its methods update.
  Each loop of the source is a method proved against a specification function.

The hash function (SHA-256 followed by `hexdigest`, replaceable through
`set_hash_func`) is a parameter `H: string -> string`. Nothing is assumed about it, so
every property holds for any hash function. `str()` of an int is modelled exactly
(decimal digits with an optional minus sign), so the concrete examples compute.

The add_value logic of the indexed tree is specified as a pure function `Insert` on an
`IndexedState` (leaves, values, next free slot, slot of the maximum). The class method
`AddValue` is proved to perform exactly that transition on its array and fields. The
lemmas about `Insert` show three things:

- it keeps the bookkeeping consistent;
- it raises `ValueError` exactly for negative values;
- with distinct positive values, it splices the new leaf into the sorted list at the
  right place; `DuplicateOrphansLeaf` shows what a repeated value does instead.

Two behaviours of the code are modelled as written:

- `update_tree_optim` is not equivalent to `update_tree`. `OddCountDropsNextBlock`
  shows that after `find_hashes` on an odd number of items, the next appended item
  never reaches the table, because level 0 is stored padded.
- `find_hashes` loops forever on an empty list, so `FindHashes` requires at least one
  item.

## Model

| member | source | states |
|---|---|---|
| Common.IntStr | Merkle_trees.py:28 | str() of an int is non-empty and starts with a digit exactly when the int is non-negative |
| Common.Join | Merkle_trees.py:37 | ''.join of one part is that part, of two parts their concatenation |
| Common.FirstIndex | Merkle_trees.py:127 | list.index returns a position holding the value with no earlier occurrence |
| Levels.HashDatum | Merkle_trees.py:21-29 | hash(obj) is H applied to str(obj); its cases are stated by HashDatumCases |
| Levels.HashDatumCases | Merkle_trees.py:21-29 | a string is hashed as it is, an int through its decimal digits, so hash(n) equals hash(str(n)) |
| Levels.PairHash | Merkle_trees.py:36-37 | pair_hash of two digests is the hash of their concatenation, of a lone digest its hash |
| Levels.LevelHashes | Merkle_trees.py:40-42 | get_level_hashes halves the length rounding up; entry j is the hash of entries 2j and 2j+1; an odd trailing entry is hashed alone |
| Levels.Iterate | Merkle_trees.py:93-98 | get_level_hashes applied i times never lengthens a level and keeps a non-empty level non-empty |
| Levels.FullTable | Merkle_trees.py:281-288 | the table initial_tree builds has height+1 levels, the leaf digests as level 0, and each level the get_level_hashes of the one below |
| Levels.FullTableLinked | Merkle_trees.py:281-288 | the table built level by level from 2**h leaf digests has 2**(h-i) entries on level i, satisfies the parent relation throughout, and keeps the leaf digests as level 0 |
| Levels.LinkedSuffix | Merkle_trees.py:128-140 | dropping the bottom level of a linked table leaves a linked table, which is what the proof walk relies on as it climbs |
| Levels.AncBound | Merkle_trees.py:197-208 | halving a leaf index i times, as the parent index does, stays inside level i of a full tree |
| Proofs.ArgHash | Merkle_trees.py:117-120 | the digest searched for, hash(arg) for an int and the string itself otherwise; IntArgIsItsDigest and BinaryRoundTrip state what it guarantees |
| Proofs.IntArgIsItsDigest | Merkle_trees.py:117-120 | generate_proof of an int and of that int's digest return the same |
| Proofs.LevelStep | Merkle_trees.py:129-138 | at most one entry per level; is_left exactly for an even index; the sibling is the entry after an even index and before an odd one; an entry is recorded exactly when the sibling position is inside the level, so always for an index inside the level that is odd or lies in an even-length level |
| Proofs.PathProof | Merkle_trees.py:127-140 | one LevelStep per level, halving the index, so never more entries than levels |
| Proofs.ProofOf | Merkle_trees.py:122-142 | fails exactly when there is no level or the digest is absent from level 0: IndexError in the first case, ValueError in the second; a proof has at most one entry per level |
| Proofs.GenerateProof | Merkle_trees.py:116-142 | the proof loop returns IndexError on an empty table, ValueError when the digest is not on level 0, else the per-level sibling steps from its first occurrence |
| Proofs.VerifyIncProof | Merkle_trees.py:439-454 | returns true exactly when replaying the steps from the target's digest (sibling on the right when is_left, else on the left) gives the root; with an empty proof, exactly when the target's digest is the root |
| Proofs.Combine | Merkle_trees.py:449-452 | one step of the replay, ordered by is_left; CombineClimbs, VerifyIncProof and PathProofReplays state what it guarantees |
| Proofs.CombineClimbs | Merkle_trees.py:127-136 | on a linked table the step recorded for a leaf on level 0 always exists, and combining the leaf with it as verify_inc_proof does gives the leaf's parent on level 1 |
| Proofs.Replay | Merkle_trees.py:447-452 | the empty proof leaves the digest as it is, a one-step proof applies that step; ReplayAppend and PathProofReplays state the rest |
| Proofs.ReplayAppend | Merkle_trees.py:448-452 | replaying a concatenated proof is replaying the second part from where the first part ends |
| Proofs.PathProofReplays | Merkle_trees.py:128-140 | on a linked table, the proof for any leaf position has one step per level below the root and replays from that leaf to the root |
| Proofs.RoundTrip | Merkle_trees.py:116-142 | on a linked table, generate_proof succeeds for any target whose digest is on level 0, and verify_inc_proof accepts the result against the root |
| BinaryTree.LeafHashes | Merkle_trees.py:46 | one digest per item, H(str(item)), in order |
| BinaryTree.Pad | Merkle_trees.py:47-48 | the padded level has even length, starts with the original level, and repeats the last entry when the length was odd |
| BinaryTree.BuildFrom | Merkle_trees.py:50-56 | the stored levels from a given level upward end in a single root |
| BinaryTree.BuildTable | Merkle_trees.py:45-58 | the table find_hashes builds over non-empty data ends in a single root; BuildTableShape states the rest |
| BinaryTree.BuildFromLinked | Merkle_trees.py:50-56 | the levels built from any non-empty level satisfy the parent relation and start with that level, padded unless it is a single entry |
| BinaryTree.BuildTableShape | Merkle_trees.py:45-58 | the find_hashes table is linked, its level 0 is the padded leaf digests, and position i of level 0 is the digest of item i |
| BinaryTree.BuildLevels | Merkle_trees.py:45-56 | the find_hashes loop, including its in-place padding of the level already stored, produces exactly the table BuildTable specifies |
| BinaryTree.RootFirst | Merkle_trees.py:73-75 | hashes_list is the root level followed by the list of the remaining levels, top to bottom |
| BinaryTree.BinaryMerkleTree.constructor | Merkle_trees.py:10-14 | a new tree keeps the items, with no levels and no root |
| BinaryTree.BinaryMerkleTree.FindHashes | Merkle_trees.py:45-58 | appends the specified table to the stored levels and sets merkle_root to its root |
| BinaryTree.BinaryMerkleTree.BinTreeHashesList | Merkle_trees.py:61-77 | hashes_list becomes the stored levels concatenated, root level first |
| BinaryTree.BinaryMerkleTree.AddBlock | Merkle_trees.py:80-81 | the item is appended and nothing else changes |
| BinaryTree.BinaryMerkleTree.UpdateTree | Merkle_trees.py:84-87 | the levels are replaced by the table over all current items, with its root and root-first list |
| BinaryTree.BinaryMerkleTree.UpdateTreeOptim | Merkle_trees.py:90-101 | IndexError with nothing changed when there is no level; otherwise each level i gains the new item digests hashed pairwise i times, and one level holding the hash of the extended top level is appended and becomes the root |
| BinaryTree.NewBlocks | Merkle_trees.py:91-92 | the new items are the items past the length of stored level 0, in order, and none when level 0 is at least as long |
| BinaryTree.ExtendLevels | Merkle_trees.py:93-98 | the loop of update_tree_optim keeps the number of levels and extends level i with the new item digests hashed pairwise i times |
| BinaryTree.BinaryMerkleTree.GenerateProof | Merkle_trees.py:116-142 | the proof for an int argument (hashed) or a digest, or the error, as the shared proof walk gives it |
| BinaryTree.OddCountDropsNextBlock | Merkle_trees.py:91-92 | after find_hashes on an odd number of items, appending one item leaves update_tree_optim no new item to hash |
| BinaryTree.EvenCountTakesAppended | Merkle_trees.py:91-92 | after find_hashes on an even number of items, update_tree_optim hashes exactly the appended items |
| BinaryTree.TwoBlocks | Merkle_trees.py:45-58 | for items 1 and 2 the table is [[H("1"), H("2")], [H(H("1")+H("2"))]] and the proof for 1 is [(H("2"), true)] |
| BinaryTree.ThreeBlocks | Merkle_trees.py:47-52 | for items a, b, c the root is H(H(Ha+Hb)+H(Hc+Hc)): the third digest is duplicated |
| BinaryTree.BuildTableRoundTrip | Merkle_trees.py:116-142 | in the find_hashes table, every item's proof exists and replays from its digest to the root |
| BinaryTree.BinaryRoundTrip | Merkle_trees.py:439-454 | find_hashes, generate_proof and verify_inc_proof accept every item of any non-empty list |
| SparseTree.KeyLen | Merkle_trees.py:150 | key_len is the argument when it is an int above 1, otherwise 3 |
| SparseTree.GetDefaultHashValues | Merkle_trees.py:168-176 | one default digest per level: the default leaf's hash, then each the hash of the previous one doubled |
| SparseTree.DefaultLevels | Merkle_trees.py:179-183 | the table initial_tree builds has key_len+1 levels, level i of 2**(key_len-i) entries, every one the default digest of level i |
| SparseTree.DefaultTable | Merkle_trees.py:179-183 | the initial_tree loop gives level i as 2**(key_len-i) copies of default digest i |
| SparseTree.DefaultLevelsLinked | Merkle_trees.py:179-183 | the all-default table is a full linked tree whose root is the top default digest |
| SparseTree.RewriteLeaf | Merkle_trees.py:194-196 | writing the new leaf digest at the index rewrites the path's first level |
| SparseTree.RewriteParent | Merkle_trees.py:204-205 | writing the hash of a path node's two children at its parent extends the rewritten path by one level |
| SparseTree.UpdateLevel | Merkle_trees.py:199-208 | one later round of update orders the carried digest and its sibling by the sibling's parity, writes their hash at the parent, and moves parent and sibling one level up |
| SparseTree.UpdatePath | Merkle_trees.py:192-208 | the update loop rewrites exactly the path of the leaf: the leaf digest at the index, the hash of its children at each ancestor, every other entry unchanged |
| SparseTree.PathRewritePreservesLinked | Merkle_trees.py:192-209 | rewriting one leaf's path keeps a full linked tree full and linked |
| SparseTree.SparseMerkleTree.constructor | Merkle_trees.py:149-157 | key_len as KeyLen says, the default digests chained, no levels, the root the top default digest, one empty slot per leaf |
| SparseTree.SparseMerkleTree.InitialTree | Merkle_trees.py:179-183 | the levels become the all-default table, which is full and linked with root merkle_root |
| SparseTree.SparseMerkleTree.Update | Merkle_trees.py:192-209 | IndexError with nothing changed before initial_tree or for an index past the last leaf; otherwise exactly the leaf's path is rewritten and merkle_root is the new root, the tree staying full and linked |
| SparseTree.SparseMerkleTree.AddValue | Merkle_trees.py:186-189 | an index that is not an int, or an int outside [0, 2**key_len), changes nothing; otherwise the slot stores the value and the path is updated as Update says |
| SparseTree.SparseMerkleTree.GenerateProof | Merkle_trees.py:212-237 | the proof or the error as the shared proof walk gives it on the stored levels |
| SparseTree.SparseRoundTrip | Merkle_trees.py:186-237 | after initial_tree and add_value at any slot, that value's proof is accepted against the new merkle_root |
| IndexedTree.ConcatData | Merkle_trees.py:247-248 | the leaf data starts with str(value) and ends with str(nextval), str(nextidx) between them |
| IndexedTree.ConcatDataCollides | Merkle_trees.py:247-248 | with no separator, the different leaves (1, 23, 4) and (12, 3, 4) have the same data |
| IndexedTree.LeafDigests | Merkle_trees.py:284 | one digest per leaf, the hash of its concatenated data, in order |
| IndexedTree.AtMost | Merkle_trees.py:292-295 | the filtered list holds exactly the stored values that are at most v |
| IndexedTree.SeqMax | Merkle_trees.py:296 | max() of a non-empty list is an element no smaller than any other |
| IndexedTree.MaxSmaller | Merkle_trees.py:291-296 | ValueError exactly when every stored value exceeds v; otherwise the largest stored value at most v |
| IndexedTree.InitialState | Merkle_trees.py:253-265 | a fresh tree has 2**h leaves |
| IndexedTree.InitialConsistent | Merkle_trees.py:253-265 | a fresh tree satisfies the bookkeeping invariant |
| IndexedTree.Spliced | Merkle_trees.py:310-324 | the value is appended to values, the leaf count is kept, the counters stay in range |
| IndexedTree.SplicedFacts | Merkle_trees.py:310-323 | only slot k and the new slot change: k links to the new slot and value; the new leaf ends the list and becomes the maximum when v exceeds it, else takes over k's old link |
| IndexedTree.Insert | Merkle_trees.py:299-328 | IndexError when every leaf is filled; any error is IndexError or ValueError; on success v is appended, the leaf count is kept and the counters stay in range |
| IndexedTree.InsertRejects | Merkle_trees.py:306 | with room left, add_value fails exactly as max_smaller_val does |
| IndexedTree.InsertAccepts | Merkle_trees.py:306-307 | with room left and a value found, the splice happens at the first slot holding it |
| IndexedTree.InsertRejectsNegative | Merkle_trees.py:299-306 | with room left, add_value raises ValueError exactly for negative values, the sentinel 0 being stored |
| IndexedTree.InsertConsistent | Merkle_trees.py:299-324 | add_value keeps every filled leaf recording its value and its link's value, the free leaves empty, and max_val_indx on the largest value |
| IndexedTree.InitialChain | Merkle_trees.py:263-265 | a fresh tree's list is the sentinel alone |
| IndexedTree.InsertExtendsChain | Merkle_trees.py:306-324 | inserting a new positive value keeps the filled leaves a single sorted linked list from the sentinel, ending at max_val_indx with link (0, 0) |
| IndexedTree.ChainIsWalk | Merkle_trees.py:241-245 | the sorted list is exactly what following nextidx from the sentinel visits |
| IndexedTree.CapacityHeightOne | Merkle_trees.py:300-328 | with height 1 the first add_value succeeds and the second raises IndexError |
| IndexedTree.LiteralsConsistent | Merkle_trees.py:299-324 | the fresh height-2 state and the states after inserting 5, 5 and 6 are all consistent |
| IndexedTree.InsertFirstFive | Merkle_trees.py:310-324 | inserting 5 into an empty height-2 tree links the sentinel to slot 1, which ends the list |
| IndexedTree.InsertSecondFive | Merkle_trees.py:313-324 | inserting 5 again links slot 1 to slot 2, which takes over slot 1's end of list |
| IndexedTree.InsertSix | Merkle_trees.py:310-324 | inserting 6 next links slot 1 (list.index finds the first 5) to slot 3, the new maximum |
| IndexedTree.DuplicateOrphansLeaf | Merkle_trees.py:306-307 | after 5, 5, 6 the walk from the sentinel visits slots 0, 1, 3 and never the second 5 in slot 2 |
| IndexedTree.AppendLevels | Merkle_trees.py:281-288 | the initial_tree loop appends exactly the full table over the leaf digests |
| IndexedTree.RecomputeLevels | Merkle_trees.py:331-338 | the update loop, assigning over a table of height+1 levels, yields exactly the full table over the leaf digests |
| IndexedTree.IndexedMerkleTree.constructor | Merkle_trees.py:253-265 | height the argument when positive else 3, 2**height empty leaves, values [0], counters 1 and 0, no levels |
| IndexedTree.IndexedMerkleTree.InitialTree | Merkle_trees.py:281-288 | the levels become the full table over the leaf digests, which is full and linked; leaves and values untouched |
| IndexedTree.IndexedMerkleTree.MaxSmallerVal | Merkle_trees.py:291-296 | the filter loop and max() return what MaxSmaller specifies |
| IndexedTree.IndexedMerkleTree.AddValue | Merkle_trees.py:299-328 | raises what Insert raises with nothing changed, or performs exactly Insert's transition on the leaf array and counters; the invariant is kept |
| IndexedTree.IndexedMerkleTree.LinkLeaf | Merkle_trees.py:310-324 | the writes of add_value once the slot is known perform exactly Spliced |
| IndexedTree.IndexedMerkleTree.Update | Merkle_trees.py:331-338 | IndexError before initial_tree; otherwise the levels become the full linked table over the current leaf digests |
| IndexedTree.IndexedMerkleTree.GenerateProof | Merkle_trees.py:341-366 | the proof or the error as the shared proof walk gives it on the stored levels |
| IndexedTree.Populated | Merkle_trees.py:253-338 | __init__, initial_tree, add_value and update leave the full table over the current leaves |
| IndexedTree.FullTableRoundTrip | Merkle_trees.py:331-366 | in the table update builds, every leaf's concatenated data has a proof that replays to the root |
| IndexedTree.IndexedRoundTrip | Merkle_trees.py:439-454 | after one add_value and update, verify_inc_proof accepts every leaf's data against the root |

## Left out

- The hash function is a parameter, so `hashlib`, `hexdigest`, `set_hash_func` and
  each class's `hash` are not modelled beyond applying it to `str(obj)`. No property
  depends on collision resistance.
- Items are Python ints and strs (`Datum`). Floats, `None` (hashed as the empty
  string), byte strings and other objects are left out, as is the float branch of
  `generate_proof`. With any other argument type `arg_hash` is unbound and the source
  raises `UnboundLocalError`; that branch is not modelled.
- The getters `get_merkle_root`, `get_blocks_hashes` and `get_hashes_list`, and
  `tree_height` (which only sets a field nothing reads), are plain field reads and have
  no member.
- The index arithmetic described in the `bin_tree_hashes_list` docstring is not
  modelled. `RootFirst` models what the code stores. With the root at position 0, the
  docstring's `hashes_list[2i]` and `hashes_list[2i + 1]` are not the children of node i.
- `get_concat_data` joins the three numbers without a separator, so distinct leaves
  can share data and digest. The model reproduces this (`ConcatDataCollides`); no
  property here depends on leaf digests being distinct.
- Code kept inside string literals is not part of the model: an alternative
  `IndexedMerkleTree.update` (Merkle_trees.py:368-401), an older
  `IndexedMerkleTree(BinaryMerkleTree)` subclass with `__getitem__` and `insert_block`
  (Merkle_trees.py:404-423), and the demonstration scripts after it. The final
  `print` at the end of the module is left out as well, because it is output only.
- BinaryTree.BinaryMerkleTree.FindHashes: requires at least one item. The source loops
  forever on an empty list, and a non-terminating method is not expressible here.
- BinaryTree.BinaryMerkleTree.UpdateTree: requires at least one item, for the same
  reason.
- SparseTree.SparseMerkleTree.InitialTree: requires that no level is stored yet. A
  second call in the source appends another `key_len + 1` levels after the first ones.
- IndexedTree.IndexedMerkleTree.InitialTree: requires that no level is stored yet, for
  the same reason.
- IndexedTree.IndexedMerkleTree.constructor: takes an int height. A height that is
  not an int (a float such as 2.5, say) falls back to 3 in the source; such arguments
  are not represented.
- SparseTree.SparseMerkleTree.Update: takes a natural-number index. Called directly
  with a negative index, the source indexes from the end of each level as Python lists
  do; `add_value` never passes one.
- SparseTree.SparseMerkleTree.AddValue: a value of `None` would be hashed as the empty
  string; values are ints or strs here. The value slots are `Option<Datum>`, with
  `None` for a slot never set.
- BinaryTree.BinaryMerkleTree.AddBlock: the Python constructor keeps the caller's list
  itself, so `add_block` also grows the caller's list. The model's items are a
  sequence value copied into the tree, so that sharing is not captured.
- IndexedTree.IndexedMerkleTree.Valid: does not say anything about the stored levels.
  `add_value` leaves them stale until `update`, and `Update` states the fresh table
  instead.
- IndexedTree.IndexedMerkleTree.Update: requires the stored table to be empty or of
  `tree_height + 1` levels (the only tables `initial_tree` and `update` leave). On a
  shorter table the source raises `IndexError` part way.
- IndexedTree.InsertExtendsChain: stated for distinct positive values only. With a
  duplicate, the list no longer reaches every filled leaf, and `DuplicateOrphansLeaf`
  shows the case.
- The timing script `test_trees.py` (wall-clock timings of bulk insertion) is not
  modelled. Its effect on the trees is the one the operations above describe.
