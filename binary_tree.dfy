/** BinaryMerkleTree: a dense binary tree over an ordered list of items, built bottom-up
    with the last entry of every odd-length level duplicated, and extended in place
    when items are appended. */
module BinaryTree {
  import opened Common
  import opened Levels
  import opened Proofs

  /** [hash(data) for data in data_blocks] */
  function LeafHashes(H: Hasher, blocks: seq<Datum>): (r: seq<Digest>)
    ensures |r| == |blocks|
    ensures forall i :: 0 <= i < |blocks| ==> r[i] == HashDatum(H, blocks[i])
  {
    seq(|blocks|, i requires 0 <= i < |blocks| => HashDatum(H, blocks[i]))
  }

  /** `data_hashes += [data_hashes[-1]]` when the level has odd length. */
  function Pad(s: seq<Digest>): (r: seq<Digest>)
    requires |s| > 0
    ensures |r| % 2 == 0 && |s| <= |r| <= |s| + 1 && r[..|s|] == s
    ensures |s| % 2 == 1 ==> r[|s|] == s[|s| - 1]
  {
    if |s| % 2 == 1 then s + [s[|s| - 1]] else s
  }

  /** The levels find_hashes stores from `level` up: each level is stored padded to even
      length, its pairwise digests form the next level, and a level of one entry ends it. */
  function BuildFrom(H: Hasher, level: seq<Digest>): (t: Table)
    requires |level| >= 1
    ensures |t| >= 1 && |t[|t| - 1]| == 1
    decreases |level|
  {
    if |level| == 1 then [level]
    else
      var padded := Pad(level);
      [padded] + BuildFrom(H, LevelHashes(H, padded))
  }

  /** The table find_hashes builds over non-empty data blocks. */
  function BuildTable(H: Hasher, blocks: seq<Datum>): (t: Table)
    requires |blocks| > 0
    ensures |t| >= 1 && |t[|t| - 1]| == 1
  {
    BuildFrom(H, Pad(LeafHashes(H, blocks)))
  }

  lemma {:induction false} BuildFromLinked(H: Hasher, level: seq<Digest>)
    requires |level| >= 1
    ensures Linked(H, BuildFrom(H, level))
    ensures BuildFrom(H, level)[0] == if |level| == 1 then level else Pad(level)
    decreases |level|
  {
    if |level| > 1 {
      var padded := Pad(level);
      var up := LevelHashes(H, padded);
      var rest := BuildFrom(H, up);
      BuildFromLinked(H, up);
      var t := [padded] + rest;
      assert t[0] == padded && t[1..] == rest;
      assert ParentOf(H, padded, rest[0]) by {
        assert rest[0][..|up|] == up;
        forall j | 0 <= j < |padded| / 2
          ensures rest[0][j] == H(padded[2 * j] + padded[2 * j + 1])
        {
          assert rest[0][j] == rest[0][..|up|][j];
        }
      }
      forall i | 0 <= i < |t| - 1
        ensures ParentOf(H, t[i], t[i + 1])
      {
        if i > 0 {
          assert t[i] == rest[i - 1] && t[i + 1] == rest[i];
        }
      }
    }
  }

  /** The shape of the table find_hashes builds: level 0 holds H(str(b)) for every block b,
      with the last one repeated when the count is odd; every level but the last has even
      length and is paired into the next; the last level is the single root. */
  lemma BuildTableShape(H: Hasher, blocks: seq<Datum>)
    requires |blocks| > 0
    ensures Linked(H, BuildTable(H, blocks))
    ensures BuildTable(H, blocks)[0] == Pad(LeafHashes(H, blocks))
    ensures forall i :: 0 <= i < |blocks| ==> BuildTable(H, blocks)[0][i] == HashDatum(H, blocks[i])
  {
    var padded := Pad(LeafHashes(H, blocks));
    BuildFromLinked(H, padded);
    assert padded[..|blocks|] == LeafHashes(H, blocks);
    forall i | 0 <= i < |blocks|
      ensures padded[i] == HashDatum(H, blocks[i])
    {
      assert padded[i] == padded[..|blocks|][i];
    }
  }

  /** hashes_list: the levels concatenated from the root level down to level 0. */
  function RootFirst(t: Table): (r: seq<Digest>)
    ensures |t| > 0 ==> r == t[|t| - 1] + RootFirst(t[..|t| - 1])
  {
    if t == [] then []
    else
      assert |t| > 1 ==> t[1..][..|t| - 2] == t[..|t| - 1][1..];
      assert |t| == 1 ==> t[..0] == [];
      RootFirst(t[1..]) + t[0]
  }

  /** new_data_blocks of update_tree_optim: data_blocks[len(data_blocks) - new_blocks_num:]
      with new_blocks_num = len(data_blocks) - len(blocks_hashes[0]); the slice is empty when
      level 0 is at least as long as the data. */
  function NewBlocks(blocks: seq<Datum>, storedLeaves: nat): (r: seq<Datum>)
    ensures |r| == if storedLeaves <= |blocks| then |blocks| - storedLeaves else 0
    ensures forall i :: 0 <= i < |r| ==> r[i] == blocks[storedLeaves + i]
  {
    if storedLeaves <= |blocks| then blocks[storedLeaves..] else []
  }

  /** One round of the find_hashes loop: pad the level, store it, go one level up. */
  lemma BuildFromStep(H: Hasher, done: Table, level: seq<Digest>)
    requires |level| >= 2
    ensures done + BuildFrom(H, level)
            == (done + [Pad(level)]) + BuildFrom(H, LevelHashes(H, Pad(level)))
  {
    ConcatAssoc(done, [Pad(level)], BuildFrom(H, LevelHashes(H, Pad(level))));
  }

  lemma ReplaceLast<T>(a: seq<T>, x: T, y: T)
    ensures (a + [x])[|a| := y] == a + [y]
  {
  }

  /** The loop of find_hashes: the levels it appends to blocks_hashes, in order. The list
      it pads in place at every odd-length level is the one it has already stored as the
      last level, so the stored level is the padded one. */
  method BuildLevels(H: Hasher, blocks: seq<Datum>) returns (levels: Table)
    requires |blocks| > 0
    ensures levels == BuildTable(H, blocks)
  {
    var dataHashes := LeafHashes(H, blocks);
    if |dataHashes| % 2 == 1 {
      dataHashes := dataHashes + [dataHashes[|dataHashes| - 1]];
    }
    levels := [dataHashes];
    ghost var done: Table := [];
    while |dataHashes| != 1
      invariant |dataHashes| >= 1
      invariant levels == done + [dataHashes]
      invariant done + BuildFrom(H, dataHashes) == BuildTable(H, blocks)
      decreases |dataHashes|
    {
      ghost var unpadded := dataHashes;
      if |dataHashes| % 2 == 1 {
        dataHashes := dataHashes + [dataHashes[|dataHashes| - 1]];
        ReplaceLast(done, unpadded, dataHashes);
        levels := levels[|levels| - 1 := dataHashes];
      }
      assert dataHashes == Pad(unpadded);
      var up := LevelHashes(H, dataHashes);
      assert |up| == |dataHashes| / 2 < |unpadded|;
      BuildFromStep(H, done, unpadded);
      done := done + [dataHashes];
      dataHashes := up;
      levels := levels + [dataHashes];
    }
    assert BuildFrom(H, dataHashes) == [dataHashes];
  }

  class BinaryMerkleTree {
    const hashFn: Hasher
    var dataBlocks: seq<Datum>
    var blocksHashes: Table
    var merkleRoot: Option<Digest>
    var hashesList: seq<Digest>

    constructor (H: Hasher, blocks: seq<Datum>)
      ensures hashFn == H && dataBlocks == blocks
      ensures blocksHashes == [] && merkleRoot == None && hashesList == []
    {
      hashFn := H;
      dataBlocks := blocks;
      blocksHashes := [];
      merkleRoot := None;
      hashesList := [];
    }

    /** find_hashes: appends the levels of the tree over the data blocks to blocks_hashes
        and sets merkle_root to the single entry of the last level. On empty data the
        source loops forever, hence the precondition. */
    method FindHashes()
      requires |dataBlocks| > 0
      modifies this`blocksHashes, this`merkleRoot
      ensures blocksHashes == old(blocksHashes) + BuildTable(hashFn, dataBlocks)
      ensures merkleRoot == Some(Root(BuildTable(hashFn, dataBlocks)))
    {
      var levels := BuildLevels(hashFn, dataBlocks);
      blocksHashes := blocksHashes + levels;
      merkleRoot := Some(blocksHashes[|blocksHashes| - 1][0]);
    }

    /** bin_tree_hashes_list: hashes_list becomes the levels concatenated root level first. */
    method BinTreeHashesList()
      modifies this`hashesList
      ensures hashesList == RootFirst(blocksHashes)
    {
      var list: seq<Digest> := [];
      var j := |blocksHashes|;
      while j > 0
        invariant 0 <= j <= |blocksHashes|
        invariant list == RootFirst(blocksHashes[j..])
      {
        j := j - 1;
        assert blocksHashes[j..][1..] == blocksHashes[j + 1..];
        list := list + blocksHashes[j];
      }
      assert blocksHashes[0..] == blocksHashes;
      hashesList := list;
    }

    /** add_block: appends an item without touching the levels. */
    method AddBlock(block: Datum)
      modifies this`dataBlocks
      ensures dataBlocks == old(dataBlocks) + [block]
    {
      dataBlocks := dataBlocks + [block];
    }

    /** update_tree: clears the levels, rebuilds them from all items, and refreshes
        hashes_list. */
    method UpdateTree()
      requires |dataBlocks| > 0
      modifies this`blocksHashes, this`merkleRoot, this`hashesList
      ensures blocksHashes == BuildTable(hashFn, dataBlocks)
      ensures merkleRoot == Some(Root(blocksHashes))
      ensures hashesList == RootFirst(blocksHashes)
    {
      blocksHashes := [];
      FindHashes();
      assert blocksHashes == BuildTable(hashFn, dataBlocks);
      BinTreeHashesList();
    }

    /** update_tree_optim: hashes the items past the current length of level 0, appends
        to every existing level i those new leaf digests hashed pairwise i times, then
        appends one new level holding pair_hash of the whole previous top level, which
        becomes merkle_root. Without any level the source fails with IndexError. */
    method UpdateTreeOptim() returns (r: Outcome)
      modifies this`blocksHashes, this`merkleRoot
      ensures old(blocksHashes) == [] ==>
                r == Raised(IndexError) && blocksHashes == old(blocksHashes) && merkleRoot == old(merkleRoot)
      ensures old(blocksHashes) != [] ==>
                var n := |old(blocksHashes)|;
                var added := LeafHashes(hashFn, NewBlocks(dataBlocks, |old(blocksHashes)[0]|));
                r == Done && |blocksHashes| == n + 1 &&
                (forall i :: 0 <= i < n ==> blocksHashes[i] == old(blocksHashes)[i] + Iterate(hashFn, added, i)) &&
                blocksHashes[n] == [PairHash(hashFn, blocksHashes[n - 1])] &&
                merkleRoot == Some(blocksHashes[n][0])
    {
      if |blocksHashes| == 0 {
        return Raised(IndexError);
      }
      var newBlocksNum := |dataBlocks| - |blocksHashes[0]|;
      var start := |dataBlocks| - newBlocksNum;
      var newDataBlocks := if start <= |dataBlocks| then dataBlocks[start..] else [];
      assert newDataBlocks == NewBlocks(dataBlocks, |blocksHashes[0]|);
      var table := ExtendLevels(hashFn, blocksHashes, newDataBlocks);
      var n := |table|;
      blocksHashes := table + [[PairHash(hashFn, table[n - 1])]];
      merkleRoot := Some(blocksHashes[|blocksHashes| - 1][0]);
      r := Done;
    }

    /** generate_proof: reads the levels only; raises as ProofOf says. */
    method GenerateProof(arg: ProofArg) returns (r: Result<Proof>)
      ensures r == ProofOf(blocksHashes, ArgHash(hashFn, arg))
    {
      r := Proofs.GenerateProof(blocksHashes, ArgHash(hashFn, arg));
    }
  }

  /** The loop of update_tree_optim: level i of the table gains the digests of the new
      items hashed pairwise i times. */
  method ExtendLevels(H: Hasher, before: Table, newDataBlocks: seq<Datum>) returns (t: Table)
    ensures |t| == |before|
    ensures forall l :: 0 <= l < |before| ==> t[l] == before[l] + Iterate(H, LeafHashes(H, newDataBlocks), l)
  {
    ghost var added := LeafHashes(H, newDataBlocks);
    t := before;
    var n := |t|;
    var newBlocksHashes: seq<Digest> := [];
    for i := 0 to n
      invariant |t| == n
      invariant forall l :: 0 <= l < i ==> t[l] == before[l] + Iterate(H, added, l)
      invariant forall l :: i <= l < n ==> t[l] == before[l]
      invariant i > 0 ==> newBlocksHashes == Iterate(H, added, i - 1)
    {
      if i == 0 {
        newBlocksHashes := LeafHashes(H, newDataBlocks);
      } else {
        newBlocksHashes := LevelHashes(H, newBlocksHashes);
      }
      t := t[i := t[i] + newBlocksHashes];
    }
  }

  /** With an odd number of items, level 0 is stored padded, so after one more item is
      appended update_tree_optim finds no new item at all: the appended block never reaches
      the table, and the new root is only the digest of the old top level. */
  lemma OddCountDropsNextBlock(H: Hasher, blocks: seq<Datum>, b: Datum)
    requires |blocks| % 2 == 1
    ensures NewBlocks(blocks + [b], |BuildTable(H, blocks)[0]|) == []
  {
    BuildTableShape(H, blocks);
  }

  /** With an even number of items, update_tree_optim hashes exactly the appended ones. */
  lemma EvenCountTakesAppended(H: Hasher, blocks: seq<Datum>, more: seq<Datum>)
    requires |blocks| > 0 && |blocks| % 2 == 0
    ensures NewBlocks(blocks + more, |BuildTable(H, blocks)[0]|) == more
  {
    BuildTableShape(H, blocks);
    assert (blocks + more)[|blocks|..] == more;
  }

  /** Two items: the root is H(H("1") + H("2")), and the proof for 1 is the single entry
      (H("2"), true): the root level has no sibling to record. */
  lemma TwoBlocks(H: Hasher)
    ensures BuildTable(H, [IntVal(1), IntVal(2)]) == [[H("1"), H("2")], [H(H("1") + H("2"))]]
    ensures ProofOf(BuildTable(H, [IntVal(1), IntVal(2)]), ArgHash(H, ByInt(1))) == Ok([(H("2"), true)])
  {
    assert Str(IntVal(1)) == "1" && Str(IntVal(2)) == "2";
    var level0 := [H("1"), H("2")];
    assert LeafHashes(H, [IntVal(1), IntVal(2)]) == level0;
    var top := [H(H("1") + H("2"))];
    assert Pad(level0) == level0;
    assert LevelHashes(H, level0) == top;
    assert BuildFrom(H, level0) == [level0] + BuildFrom(H, top);
    assert BuildTable(H, [IntVal(1), IntVal(2)]) == [level0, top];
    var t := [level0, top];
    assert FirstIndex(level0, H("1")) == 0;
    assert LevelStep(level0, 0) == [(H("2"), true)];
    assert t[1..] == [top] && LevelStep(top, 0) == [];
    assert PathProof(t[1..], 0) == [] + PathProof([top][1..], 0);
    assert PathProof(t, 0) == [(H("2"), true)];
    assert ArgHash(H, ByInt(1)) == H("1") && H("1") in t[0];
  }

  /** Three items a, b, c: c is repeated on level 0 and the root is H(H(Ha + Hb) + H(Hc + Hc)). */
  lemma ThreeBlocks(H: Hasher, a: Datum, b: Datum, c: Datum)
    ensures Root(BuildTable(H, [a, b, c]))
            == H(H(HashDatum(H, a) + HashDatum(H, b)) + H(HashDatum(H, c) + HashDatum(H, c)))
  {
    var ha, hb, hc := HashDatum(H, a), HashDatum(H, b), HashDatum(H, c);
    var level0 := [ha, hb, hc, hc];
    assert LeafHashes(H, [a, b, c]) == [ha, hb, hc];
    assert Pad([ha, hb, hc]) == level0;
    var level1 := [H(ha + hb), H(hc + hc)];
    assert LevelHashes(H, level0) == level1;
    var level2 := [H(H(ha + hb) + H(hc + hc))];
    assert LevelHashes(H, level1) == level2;
    assert BuildFrom(H, level1) == [level1, level2];
    assert BuildTable(H, [a, b, c]) == [level0, level1, level2];
  }

  /** A tree over any non-empty items, built with find_hashes, yields for each item a proof
      that verify_inc_proof accepts against merkle_root. Ints are looked up by value,
      strings by their digest. */
  method BinaryRoundTrip(H: Hasher, blocks: seq<Datum>, i: nat) returns (ok: bool)
    requires i < |blocks|
    ensures ok
  {
    var tree := new BinaryMerkleTree(H, blocks);
    tree.FindHashes();
    ghost var t := BuildTable(H, blocks);
    assert tree.blocksHashes == [] + t == t;
    var arg := if blocks[i].IntVal? then ByInt(blocks[i].n) else ByDigest(HashDatum(H, blocks[i]));
    assert ArgHash(H, arg) == HashDatum(H, blocks[i]);
    var proof := tree.GenerateProof(arg);
    BuildTableRoundTrip(H, blocks, i);
    assert proof == ProofOf(t, HashDatum(H, blocks[i]));
    ok := VerifyIncProof(H, proof.value, tree.merkleRoot.value, blocks[i]);
  }

  /** The round trip on the table find_hashes builds, for the item at position i. */
  lemma BuildTableRoundTrip(H: Hasher, blocks: seq<Datum>, i: nat)
    requires i < |blocks|
    ensures ProofOf(BuildTable(H, blocks), HashDatum(H, blocks[i])).Ok?
    ensures Replay(H, HashDatum(H, blocks[i]), ProofOf(BuildTable(H, blocks), HashDatum(H, blocks[i])).value)
            == Root(BuildTable(H, blocks))
  {
    BuildTableShape(H, blocks);
    RoundTrip(H, BuildTable(H, blocks), blocks[i]);
  }
}
