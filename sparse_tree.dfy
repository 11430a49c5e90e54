/** SparseMerkleTree: a full binary tree over 2 ** key_len slots that starts out holding one
    default digest per level, and in which setting a slot rewrites only the nodes on the
    path from that slot to the root. */
module SparseTree {
  import opened Common
  import opened Levels
  import opened Proofs

  /** key_len: the argument when it is an int greater than 1, otherwise 3. */
  function KeyLen(arg: Option<int>): (k: nat)
    ensures k >= 2
    ensures arg.Some? && arg.value > 1 ==> k == arg.value
    ensures !(arg.Some? && arg.value > 1) ==> k == 3
  {
    if arg.Some? && arg.value > 1 then arg.value else 3
  }

  /** The default digest of every level: level 0 holds hash(default_leaf_value), and each
      level above holds the digest of the level below's default repeated twice. */
  predicate DefaultChain(H: Hasher, leaf: Datum, dv: seq<Digest>, k: nat)
  {
    |dv| == k + 1 && dv[0] == HashDatum(H, leaf) &&
    forall i :: 1 <= i <= k ==> dv[i] == H(dv[i - 1] + dv[i - 1])
  }

  /** get_default_hash_values */
  method GetDefaultHashValues(H: Hasher, leaf: Datum, k: nat) returns (dv: seq<Digest>)
    ensures DefaultChain(H, leaf, dv, k)
  {
    dv := [];
    for i := 0 to k + 1
      invariant |dv| == i
      invariant i > 0 ==> dv[0] == HashDatum(H, leaf)
      invariant forall l :: 1 <= l < i ==> dv[l] == H(dv[l - 1] + dv[l - 1])
    {
      var defValue;
      if i == 0 {
        defValue := HashDatum(H, leaf);
      } else {
        defValue := HashDatum(H, StrVal(dv[i - 1] + dv[i - 1]));
      }
      dv := dv + [defValue];
    }
  }

  /** The table initial_tree builds: level i is 2 ** (k - i) copies of dv[i]. */
  function DefaultLevels(dv: seq<Digest>, k: nat): (t: Table)
    requires |dv| == k + 1
    ensures |t| == k + 1
    ensures forall i :: 0 <= i <= k ==> |t[i]| == Pow2(k - i)
    ensures forall i, j :: 0 <= i <= k && 0 <= j < |t[i]| ==> t[i][j] == dv[i]
  {
    seq(k + 1, i requires 0 <= i <= k => Repeat(dv[i], Pow2(k - i)))
  }

  /** The all-default tree is a full tree of height k with the parent relation on every
      level, and its root is the top default digest. */
  lemma DefaultLevelsLinked(H: Hasher, leaf: Datum, dv: seq<Digest>, k: nat)
    requires DefaultChain(H, leaf, dv, k)
    ensures Shaped(DefaultLevels(dv, k), k)
    ensures Linked(H, DefaultLevels(dv, k))
    ensures Root(DefaultLevels(dv, k)) == dv[k]
  {
    var t := DefaultLevels(dv, k);
    forall i | 0 <= i < k
      ensures ParentOf(H, t[i], t[i + 1])
    {
      var p := Pow2(k - (i + 1));
      assert Pow2(k - i) == 2 * p;
      assert t[i] == Repeat(dv[i], 2 * p) && t[i + 1] == Repeat(dv[i + 1], p);
      RepeatParent(H, dv[i], dv[i + 1], p);
    }
    assert t[k] == Repeat(dv[k], 1);
  }

  /** A level of 2p copies of x under a level of p copies of H(x + x). */
  lemma RepeatParent(H: Hasher, x: Digest, y: Digest, p: nat)
    requires y == H(x + x)
    ensures ParentOf(H, Repeat(x, 2 * p), Repeat(y, p))
  {
    assert |Repeat(x, 2 * p)| / 2 == p;
  }

  /** Entry Anc(index, l) of level l is the digest of its two children on level l - 1. */
  predicate OnPath(H: Hasher, t: Table, index: nat, l: nat)
    requires 1 <= l < |t|
  {
    var a := Anc(index, l);
    a < |t[l]| && 2 * a + 1 < |t[l - 1]| && t[l][a] == H(t[l - 1][2 * a] + t[l - 1][2 * a + 1])
  }

  /** `after` is `before` with the path of leaf `index` rewritten on its first n levels:
      level 0 holds the new leaf digest at `index`, each rewritten level above holds at
      Anc(index, l) the digest of its children, and every other entry is unchanged. */
  predicate RewrittenBelow(H: Hasher, before: Table, after: Table, index: nat, leaf: Digest, n: nat)
  {
    |after| == |before| && n <= |before| &&
    (forall l :: 0 <= l < |before| ==> |after[l]| == |before[l]|) &&
    (forall l :: n <= l < |before| ==> after[l] == before[l]) &&
    (forall l, j :: 0 <= l < n && 0 <= j < |before[l]| && j != Anc(index, l) ==> after[l][j] == before[l][j]) &&
    (n > 0 ==> index < |after[0]| && after[0][index] == leaf) &&
    (forall l :: 1 <= l < n ==> OnPath(H, after, index, l))
  }

  /** The whole path of leaf `index` rewritten, and nothing else. */
  predicate PathRewritten(H: Hasher, before: Table, after: Table, index: nat, leaf: Digest)
  {
    RewrittenBelow(H, before, after, index, leaf, |before|)
  }

  /** The index of the other child of a node's parent. */
  function SiblingOf(a: nat): nat
  {
    if a % 2 == 0 then a + 1 else a - 1
  }

  lemma SiblingFacts(a: nat, p: nat)
    requires a < 2 * p
    ensures SiblingOf(a) < 2 * p && 2 * (a / 2) + 1 < 2 * p
    ensures SiblingOf(a) % 2 == 0 ==> SiblingOf(a) == 2 * (a / 2) && a == 2 * (a / 2) + 1
    ensures SiblingOf(a) % 2 == 1 ==> a == 2 * (a / 2) && SiblingOf(a) == 2 * (a / 2) + 1
  {
  }

  /** Rewriting a leaf's path keeps a full tree a full tree with the parent relation on
      every level: off the path every entry and both of its children are unchanged. */
  lemma {:induction false} PathRewritePreservesLinked(H: Hasher, before: Table, after: Table, index: nat, leaf: Digest, k: nat)
    requires Shaped(before, k) && Linked(H, before) && index < Pow2(k)
    requires PathRewritten(H, before, after, index, leaf)
    ensures Shaped(after, k) && Linked(H, after)
  {
    forall l | 0 <= l < k
      ensures ParentOf(H, after[l], after[l + 1])
    {
      assert ParentOf(H, before[l], before[l + 1]);
      forall j | 0 <= j < |after[l]| / 2
        ensures after[l + 1][j] == H(after[l][2 * j] + after[l][2 * j + 1])
      {
        if j != Anc(index, l + 1) {
          assert Anc(index, l + 1) == Anc(index, l) / 2;
          assert after[l][2 * j] == before[l][2 * j];
          assert after[l][2 * j + 1] == before[l][2 * j + 1];
        } else {
          assert OnPath(H, after, index, l + 1);
        }
      }
    }
  }

  class SparseMerkleTree {
    const hashFn: Hasher
    const keyLen: nat
    const defaultLeafValue: Datum
    const defaultHashValues: seq<Digest>
    var blocksHashes: Table
    var merkleRoot: Digest
    var values: seq<Option<Datum>>

    /** The default digests follow their chain, there is one value slot per leaf, and the
        table is either not built yet (the root is then the top default digest) or a full
        tree of height key_len with the parent relation whose root is merkle_root. */
    ghost predicate Valid()
      reads this
    {
      keyLen >= 2 && DefaultChain(hashFn, defaultLeafValue, defaultHashValues, keyLen) &&
      |values| == Pow2(keyLen) &&
      (blocksHashes == [] ==> merkleRoot == defaultHashValues[keyLen]) &&
      (blocksHashes != [] ==>
         Shaped(blocksHashes, keyLen) && Linked(hashFn, blocksHashes) && merkleRoot == Root(blocksHashes))
    }

    /** __init__(key_len, default_leaf_value) */
    constructor (H: Hasher, keyLenArg: Option<int>, leaf: Datum)
      ensures Valid()
      ensures hashFn == H && keyLen == KeyLen(keyLenArg) && defaultLeafValue == leaf
      ensures DefaultChain(H, leaf, defaultHashValues, keyLen)
      ensures blocksHashes == [] && merkleRoot == defaultHashValues[keyLen]
      ensures values == Repeat(None, Pow2(keyLen))
    {
      var k := KeyLen(keyLenArg);
      var dv := GetDefaultHashValues(H, leaf, k);
      hashFn := H;
      keyLen := k;
      defaultLeafValue := leaf;
      defaultHashValues := dv;
      blocksHashes := [];
      merkleRoot := dv[k];
      values := Repeat(None, Pow2(k));
    }

    /** initial_tree: appends level i as 2 ** (key_len - i) copies of the level's default
        digest, for i from 0 to key_len. */
    method InitialTree()
      requires Valid() && blocksHashes == []
      modifies this`blocksHashes
      ensures blocksHashes == DefaultLevels(defaultHashValues, keyLen)
      ensures Valid()
    {
      var t := DefaultTable(defaultHashValues, keyLen);
      blocksHashes := blocksHashes + t;
      assert blocksHashes == t;
      DefaultLevelsLinked(hashFn, defaultLeafValue, defaultHashValues, keyLen);
    }

    /** update(index, value): walks from the leaf up with the parent and sibling indices,
        writing hash(value) at the leaf and the digest of the two children at each parent,
        the children ordered by the sibling's parity; then merkle_root is the top entry.
        Before initial_tree there is no level to write, and past the last leaf the first
        write is out of range: both raise IndexError before anything changes. */
    method Update(index: nat, value: Datum) returns (r: Outcome)
      requires Valid()
      modifies this`blocksHashes, this`merkleRoot
      ensures Valid()
      ensures old(blocksHashes) == [] || index >= Pow2(keyLen) ==>
                r == Raised(IndexError) && blocksHashes == old(blocksHashes) && merkleRoot == old(merkleRoot)
      ensures old(blocksHashes) != [] && index < Pow2(keyLen) ==>
                r == Done &&
                PathRewritten(hashFn, old(blocksHashes), blocksHashes, index, HashDatum(hashFn, value)) &&
                merkleRoot == Root(blocksHashes)
    {
      if blocksHashes == [] || index >= |blocksHashes[0]| {
        return Raised(IndexError);
      }
      var t := UpdatePath(hashFn, blocksHashes, keyLen, index, value);
      PathRewritePreservesLinked(hashFn, blocksHashes, t, index, HashDatum(hashFn, value), keyLen);
      blocksHashes := t;
      merkleRoot := blocksHashes[|blocksHashes| - 1][0];
      r := Done;
    }

    /** add_value(index, value): an int index in [0, 2 ** key_len) stores the value in its
        slot and updates the path; any other index, or one that is not an int (None here),
        changes nothing. */
    method AddValue(index: Option<int>, value: Datum) returns (r: Outcome)
      requires Valid()
      modifies this`values, this`blocksHashes, this`merkleRoot
      ensures Valid()
      ensures !(index.Some? && 0 <= index.value < Pow2(keyLen)) ==>
                r == Done && values == old(values) &&
                blocksHashes == old(blocksHashes) && merkleRoot == old(merkleRoot)
      ensures index.Some? && 0 <= index.value < Pow2(keyLen) ==> values == old(values)[index.value := Some(value)]
      ensures index.Some? && 0 <= index.value < Pow2(keyLen) && old(blocksHashes) == [] ==>
                r == Raised(IndexError) && blocksHashes == [] && merkleRoot == old(merkleRoot)
      ensures index.Some? && 0 <= index.value < Pow2(keyLen) && old(blocksHashes) != [] ==>
                r == Done &&
                PathRewritten(hashFn, old(blocksHashes), blocksHashes, index.value, HashDatum(hashFn, value)) &&
                merkleRoot == Root(blocksHashes)
    {
      r := Done;
      if index.Some? && 0 <= index.value <= Pow2(keyLen) - 1 {
        values := values[index.value := Some(value)];
        r := Update(index.value, value);
      }
    }

    /** generate_proof: reads the levels only; raises as ProofOf says. */
    method GenerateProof(arg: ProofArg) returns (r: Result<Proof>)
      ensures r == ProofOf(blocksHashes, ArgHash(hashFn, arg))
    {
      r := Proofs.GenerateProof(blocksHashes, ArgHash(hashFn, arg));
    }
  }

  /** The loop of initial_tree: level i is [dv[i]] * level_nodes_num, the count halving
      from 2 ** k. */
  method DefaultTable(dv: seq<Digest>, k: nat) returns (t: Table)
    requires |dv| == k + 1
    ensures t == DefaultLevels(dv, k)
  {
    t := [];
    var levelNodesNum := Pow2(k);
    for i := 0 to k + 1
      invariant |t| == i
      invariant forall l :: 0 <= l < i ==> t[l] == Repeat(dv[l], Pow2(k - l))
      invariant i <= k ==> levelNodesNum == Pow2(k - i)
    {
      t := t + [Repeat(dv[i], levelNodesNum)];
      if i < k {
        assert Pow2(k - i) == 2 * Pow2(k - (i + 1));
      }
      levelNodesNum := levelNodesNum / 2;
    }
  }

  /** The first round of update: the leaf digest written at `index` on level 0. */
  lemma RewriteLeaf(H: Hasher, before: Table, t: Table, index: nat, leaf: Digest)
    requires RewrittenBelow(H, before, t, index, leaf, 0) && |before| > 0 && index < |before[0]|
    ensures RewrittenBelow(H, before, t[0 := t[0][index := leaf]], index, leaf, 1)
  {
  }

  /** A later round of update: level i gets at Anc(index, i) the digest of its children. */
  lemma RewriteParent(H: Hasher, before: Table, t: Table, index: nat, leaf: Digest, i: nat, d: Digest)
    requires RewrittenBelow(H, before, t, index, leaf, i) && 1 <= i < |before|
    requires Anc(index, i) < |t[i]| && 2 * Anc(index, i) + 1 < |t[i - 1]|
    requires d == H(t[i - 1][2 * Anc(index, i)] + t[i - 1][2 * Anc(index, i) + 1])
    ensures RewrittenBelow(H, before, t[i := t[i][Anc(index, i) := d]], index, leaf, i + 1)
  {
    var t1 := t[i := t[i][Anc(index, i) := d]];
    assert OnPath(H, t1, index, i);
    forall l | 1 <= l < i
      ensures OnPath(H, t1, index, l)
    {
      assert OnPath(H, t, index, l);
      assert t1[l] == t[l] && t1[l - 1] == t[l - 1];
    }
  }

  /** The loop of update over a full table of height k. */
  method UpdatePath(H: Hasher, before: Table, k: nat, index: nat, value: Datum) returns (t: Table)
    requires Shaped(before, k) && index < Pow2(k)
    ensures PathRewritten(H, before, t, index, HashDatum(H, value))
  {
    t := before;
    var leaf := HashDatum(H, value);
    var hashValue: Digest := "";
    var parentNodeIndex: nat := 0;
    var siblingNodeIndex: nat := 0;
    for i := 0 to k + 1
      invariant RewrittenBelow(H, before, t, index, leaf, i)
      invariant i >= 1 ==> Anc(index, i - 1) < |t[i - 1]| && hashValue == t[i - 1][Anc(index, i - 1)]
      invariant 1 <= i <= k ==> parentNodeIndex == Anc(index, i) && siblingNodeIndex == SiblingOf(Anc(index, i - 1))
    {
      AncBound(index, k, i);
      if i == 0 {
        hashValue := leaf;
        RewriteLeaf(H, before, t, index, leaf);
        t := t[0 := t[0][index := hashValue]];
        parentNodeIndex := index / 2;
        siblingNodeIndex := if index % 2 == 0 then index + 1 else index - 1;
        assert parentNodeIndex == Anc(index, 1) && siblingNodeIndex == SiblingOf(Anc(index, 0));
      } else {
        t, hashValue, parentNodeIndex, siblingNodeIndex :=
          UpdateLevel(H, before, t, k, index, leaf, i, hashValue, parentNodeIndex, siblingNodeIndex);
      }
    }
  }

  /** One round i >= 1 of the loop of update: the new digest of the node above on level i
      from the digest carried up and its sibling, in left-right order, then the indices of
      the next parent and sibling. */
  method UpdateLevel(H: Hasher, before: Table, t: Table, k: nat, index: nat, leaf: Digest, i: nat,
                     hashValue: Digest, parentNodeIndex: nat, siblingNodeIndex: nat)
    returns (t': Table, hashValue': Digest, parentNodeIndex': nat, siblingNodeIndex': nat)
    requires Shaped(before, k) && index < Pow2(k) && 1 <= i <= k
    requires RewrittenBelow(H, before, t, index, leaf, i)
    requires Anc(index, i - 1) < |t[i - 1]| && hashValue == t[i - 1][Anc(index, i - 1)]
    requires parentNodeIndex == Anc(index, i) && siblingNodeIndex == SiblingOf(Anc(index, i - 1))
    ensures RewrittenBelow(H, before, t', index, leaf, i + 1)
    ensures Anc(index, i) < |t'[i]| && hashValue' == t'[i][Anc(index, i)]
    ensures i + 1 <= k ==> parentNodeIndex' == Anc(index, i + 1) && siblingNodeIndex' == SiblingOf(Anc(index, i))
  {
    var a := Anc(index, i - 1);
    AncBound(index, k, i);
    AncBound(index, k, i - 1);
    assert Pow2(k - (i - 1)) == 2 * Pow2(k - i);
    SiblingFacts(a, Pow2(k - i));
    var arg;
    if siblingNodeIndex % 2 == 0 {
      arg := t[i - 1][siblingNodeIndex] + hashValue;
    } else {
      arg := hashValue + t[i - 1][siblingNodeIndex];
    }
    hashValue' := HashDatum(H, StrVal(arg));
    RewriteParent(H, before, t, index, leaf, i, hashValue');
    t' := t[i := t[i][parentNodeIndex := hashValue']];
    parentNodeIndex', siblingNodeIndex' := parentNodeIndex, siblingNodeIndex;
    if i <= k - 1 {
      siblingNodeIndex' := if parentNodeIndex % 2 == 0 then parentNodeIndex + 1 else parentNodeIndex - 1;
      parentNodeIndex' := parentNodeIndex / 2;
    }
  }

  /** A sparse tree of any key length, after initial_tree and add_value at any slot with an
      int value, yields for that value a proof that verify_inc_proof accepts against the
      new merkle_root. */
  method SparseRoundTrip(H: Hasher, keyLenArg: Option<int>, leaf: Datum, index: nat, v: int) returns (ok: bool)
    requires index < Pow2(KeyLen(keyLenArg))
    ensures ok
  {
    var tree := new SparseMerkleTree(H, keyLenArg, leaf);
    tree.InitialTree();
    var r := tree.AddValue(Some(index), IntVal(v));
    assert tree.blocksHashes[0][index] == HashDatum(H, IntVal(v));
    var proof := tree.GenerateProof(ByInt(v));
    RoundTrip(H, tree.blocksHashes, IntVal(v));
    ok := VerifyIncProof(H, proof.value, tree.merkleRoot, IntVal(v));
  }
}
