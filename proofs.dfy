/** The inclusion-proof protocol the three trees share: generate_proof walks a level table
    from a leaf to the root collecting (sibling, is_left) pairs, and verify_inc_proof
    replays those pairs from the target's digest and compares the result with a root. */
module Proofs {
  import opened Common
  import opened Levels

  /** One proof entry: the sibling's digest and whether the walked node is the left child. */
  type Step = (Digest, bool)
  type Proof = seq<Step>

  /** The argument of generate_proof: an int, hashed first, or a digest, taken as is. */
  datatype ProofArg = ByInt(n: int) | ByDigest(d: Digest)

  /** The digest generate_proof looks for in level 0: hash(arg) for an int, the string
      itself for a digest. */
  function ArgHash(H: Hasher, arg: ProofArg): Digest
  {
    match arg
    case ByInt(n) => HashDatum(H, IntVal(n))
    case ByDigest(d) => d
  }

  /** The entry generate_proof records on one level for the node at `index`, if any:
      the sibling sits at index - 1 for an odd index and at index + 1 for an even one,
      and nothing is recorded when that position is past the end of the level. */
  function LevelStep(level: seq<Digest>, index: nat): (r: Proof)
    ensures |r| <= 1
    ensures |r| == 1 ==> (r[0].1 <==> index % 2 == 0)
    ensures |r| == 1 && index % 2 == 0 ==> index + 1 < |level| && r[0].0 == level[index + 1]
    ensures |r| == 1 && index % 2 == 1 ==> index - 1 < |level| && r[0].0 == level[index - 1]
    ensures index < |level| && (index % 2 == 1 || |level| % 2 == 0) ==> |r| == 1
    ensures (if index % 2 == 1 then index - 1 else index + 1) < |level| ==> |r| == 1
  {
    var sibling := if index % 2 == 1 then index - 1 else index + 1;
    if sibling < |level| then [(level[sibling], index % 2 == 0)] else []
  }

  /** The proof for the leaf at `index`: one LevelStep per level, halving the index. */
  function PathProof(t: Table, index: nat): (r: Proof)
    ensures |r| <= |t|
    decreases |t|
  {
    if |t| == 0 then [] else LevelStep(t[0], index) + PathProof(t[1..], index / 2)
  }

  /** What generate_proof returns or raises for a digest: IndexError on an empty table
      (blocks_hashes[0] does not exist), ValueError when the digest is not on level 0,
      otherwise the path proof from its first occurrence. */
  function ProofOf(t: Table, argHash: Digest): (r: Result<Proof>)
    ensures r.Err? <==> |t| == 0 || argHash !in t[0]
    ensures |t| == 0 ==> r == Err(IndexError)
    ensures |t| > 0 && argHash !in t[0] ==> r == Err(ValueError)
    ensures r.Ok? ==> |r.value| <= |t|
  {
    if |t| == 0 then Err(IndexError)
    else if argHash !in t[0] then Err(ValueError)
    else Ok(PathProof(t, FirstIndex(t[0], argHash)))
  }

  /** The loop of generate_proof over the levels of a table. */
  method GenerateProof(t: Table, argHash: Digest) returns (r: Result<Proof>)
    ensures r == ProofOf(t, argHash)
  {
    if |t| == 0 {
      return Err(IndexError);
    }
    if argHash !in t[0] {
      return Err(ValueError);
    }
    var proof: Proof := [];
    var index := FirstIndex(t[0], argHash);
    for k := 0 to |t|
      invariant proof + PathProof(t[k..], index) == PathProof(t, FirstIndex(t[0], argHash))
    {
      var level := t[k];
      var sibling, isLeft;
      if index % 2 == 1 {
        sibling, isLeft := index - 1, false;
      } else {
        sibling, isLeft := index + 1, true;
      }
      PathProofUnfold(t, k, index);
      ghost var before := proof;
      if sibling < |level| {
        proof := proof + [(level[sibling], isLeft)];
      }
      assert proof == before + LevelStep(level, index);
      ConcatAssoc(before, LevelStep(level, index), PathProof(t[k + 1..], index / 2));
      index := index / 2;
    }
    assert t[|t|..] == [];
    assert proof + [] == proof;
    r := Ok(proof);
  }

  lemma PathProofUnfold(t: Table, k: nat, index: nat)
    requires k < |t|
    ensures PathProof(t[k..], index) == LevelStep(t[k], index) + PathProof(t[k + 1..], index / 2)
  {
    assert t[k..][1..] == t[k + 1..];
  }

  /** One step of verify_inc_proof: H(current + sibling) when the walked node is on the
      left, H(sibling + current) when it is on the right. */
  function Combine(H: Hasher, current: Digest, step: Step): Digest
  {
    if step.1 then H(current + step.0) else H(step.0 + current)
  }

  /** The digest verify_inc_proof reaches from `current` after the given steps. */
  function Replay(H: Hasher, current: Digest, proof: Proof): (r: Digest)
    ensures proof == [] ==> r == current
    ensures |proof| == 1 ==> r == Combine(H, current, proof[0])
    decreases |proof|
  {
    if proof == [] then current else Replay(H, Combine(H, current, proof[0]), proof[1..])
  }

  /** verify_inc_proof(proof, root_hash, target_data) */
  method VerifyIncProof(H: Hasher, proof: Proof, rootHash: Digest, target: Datum) returns (ok: bool)
    ensures ok <==> Replay(H, HashDatum(H, target), proof) == rootHash
    ensures proof == [] ==> (ok <==> HashDatum(H, target) == rootHash)
  {
    var targetHash := HashDatum(H, target);
    for k := 0 to |proof|
      invariant Replay(H, targetHash, proof[k..]) == Replay(H, HashDatum(H, target), proof)
    {
      var (siblingHash, isLeft) := proof[k];
      if isLeft {
        targetHash := H(targetHash + siblingHash);
      } else {
        targetHash := H(siblingHash + targetHash);
      }
      assert proof[k..][1..] == proof[k + 1..];
    }
    assert proof[|proof|..] == [];
    ok := targetHash == rootHash;
  }

  lemma ReplayAppend(H: Hasher, current: Digest, a: Proof, b: Proof)
    ensures Replay(H, current, a + b) == Replay(H, Replay(H, current, a), b)
    decreases |a|
  {
    if a == [] {
      assert a + b == b;
    } else {
      assert (a + b)[0] == a[0] && (a + b)[1..] == a[1..] + b;
      ReplayAppend(H, Combine(H, current, a[0]), a[1..], b);
    }
  }

  /** On a linked table, the proof for any leaf position has one entry per level below the
      root, and replaying it from that leaf's digest reaches the root. */
  lemma {:induction false} PathProofReplays(H: Hasher, t: Table, index: nat)
    requires Linked(H, t) && index < |t[0]|
    ensures |PathProof(t, index)| == |t| - 1
    ensures Replay(H, t[0][index], PathProof(t, index)) == Root(t)
    decreases |t|
  {
    if |t| == 1 {
      assert LevelStep(t[0], index) == [];
      assert PathProof(t[1..], index / 2) == [];
    } else {
      var up := index / 2;
      var step := LevelStep(t[0], index);
      CombineClimbs(H, t, index);
      LinkedSuffix(H, t);
      PathProofReplays(H, t[1..], up);
      ReplayAppend(H, t[0][index], step, PathProof(t[1..], up));
    }
  }

  /** On a linked table, the step generate_proof records on level 0 always exists, and
      combining a leaf with it as verify_inc_proof does gives the leaf's parent on level 1. */
  lemma CombineClimbs(H: Hasher, t: Table, index: nat)
    requires Linked(H, t) && |t| > 1 && index < |t[0]|
    ensures |LevelStep(t[0], index)| == 1
    ensures Combine(H, t[0][index], LevelStep(t[0], index)[0]) == t[1][index / 2]
  {
    assert ParentOf(H, t[0], t[1]);
    var up := index / 2;
    assert t[1][up] == H(t[0][2 * up] + t[0][2 * up + 1]);
  }

  /** The round trip of inclusion proofs: on a linked table, generate_proof succeeds for
      every digest that is on level 0, and verify_inc_proof accepts the proof it returns
      for the target whose digest that is, against the table's root. */
  lemma RoundTrip(H: Hasher, t: Table, target: Datum)
    requires Linked(H, t) && HashDatum(H, target) in t[0]
    ensures ProofOf(t, HashDatum(H, target)).Ok?
    ensures |ProofOf(t, HashDatum(H, target)).value| == |t| - 1
    ensures Replay(H, HashDatum(H, target), ProofOf(t, HashDatum(H, target)).value) == Root(t)
  {
    PathProofReplays(H, t, FirstIndex(t[0], HashDatum(H, target)));
  }

  /** generate_proof(n) for an int n and generate_proof(hash(n)) return the same. */
  lemma IntArgIsItsDigest(t: Table, H: Hasher, n: int)
    ensures ProofOf(t, ArgHash(H, ByInt(n))) == ProofOf(t, ArgHash(H, ByDigest(HashDatum(H, IntVal(n)))))
  {
  }
}
