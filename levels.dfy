/** The hashing discipline the three trees share: how an item, a pair of digests and a
    whole level are hashed, and the parent relation that ties a table of levels to its root. */
module Levels {
  import opened Common

  /** The tree's hash function: SHA-256 followed by hexdigest, taken as a parameter. */
  type Hasher = string -> string
  type Digest = string
  /** blocks_hashes: level 0 holds the leaf digests, the last level the root. */
  type Table = seq<seq<Digest>>

  /** hash(obj): the digest of str(obj). A string is hashed as it is, an int through its
      decimal digits. */
  function HashDatum(H: Hasher, d: Datum): Digest
  {
    H(Str(d))
  }

  /** hash(s) is H(s) for a string; hash(n) is H of the decimal digits of an int, so an
      int and its decimal string cannot be told apart once hashed. */
  lemma HashDatumCases(H: Hasher, d: Datum)
    ensures d.StrVal? ==> HashDatum(H, d) == H(d.s)
    ensures d.IntVal? ==> HashDatum(H, d) == H(IntStr(d.n)) && HashDatum(H, d) == HashDatum(H, StrVal(IntStr(d.n)))
  {
  }

  /** pair_hash(pair): the digest of ''.join(pair), so the hash of the two digests
      concatenated, or of the single digest of a lone chunk. */
  function PairHash(H: Hasher, pair: seq<Digest>): (r: Digest)
    ensures |pair| == 2 ==> r == H(pair[0] + pair[1])
    ensures |pair| == 1 ==> r == H(pair[0])
  {
    H(Join(pair))
  }

  /** get_level_hashes: cut the level into chunks of two and pair_hash each chunk; an
      odd-length level ends with a chunk of one, hashed on its own. */
  function LevelHashes(H: Hasher, s: seq<Digest>): (r: seq<Digest>)
    ensures |r| == (|s| + 1) / 2
    ensures forall j :: 0 <= j < |s| / 2 ==> r[j] == H(s[2 * j] + s[2 * j + 1])
    ensures |s| % 2 == 1 ==> r[|s| / 2] == H(s[|s| - 1])
    decreases |s|
  {
    if |s| == 0 then []
    else if |s| == 1 then [PairHash(H, s)]
    else [PairHash(H, s[..2])] + LevelHashes(H, s[2..])
  }

  /** LevelHashes applied `i` times: never longer than the level it starts from, and
      never empty when that level is not. */
  function Iterate(H: Hasher, s: seq<Digest>, i: nat): (r: seq<Digest>)
    ensures |r| <= |s|
    ensures |s| >= 1 ==> |r| >= 1
  {
    if i == 0 then s else LevelHashes(H, Iterate(H, s, i - 1))
  }

  /** `upper` starts with the digests of the consecutive pairs of `lower`. The binary tree
      may store one more entry on `upper`, the duplicate that pads it to even length. */
  predicate ParentOf(H: Hasher, lower: seq<Digest>, upper: seq<Digest>)
  {
    |lower| % 2 == 0 && |lower| / 2 <= |upper| &&
    forall j :: 0 <= j < |lower| / 2 ==> upper[j] == H(lower[2 * j] + lower[2 * j + 1])
  }

  /** A table whose every level is the parent level of the one below, ending in one root. */
  predicate Linked(H: Hasher, t: Table)
  {
    |t| >= 1 && |t[|t| - 1]| == 1 &&
    forall i :: 0 <= i < |t| - 1 ==> ParentOf(H, t[i], t[i + 1])
  }

  /** blocks_hashes[-1][0] */
  function Root(t: Table): Digest
    requires |t| >= 1 && |t[|t| - 1]| >= 1
  {
    t[|t| - 1][0]
  }

  /** The level sizes of a full tree of height k: level i holds 2 ** (k - i) digests. */
  predicate Shaped(t: Table, k: nat)
  {
    |t| == k + 1 && forall i :: 0 <= i <= k ==> |t[i]| == Pow2(k - i)
  }

  lemma LinkedSuffix(H: Hasher, t: Table)
    requires Linked(H, t) && |t| >= 2
    ensures Linked(H, t[1..])
  {
    forall i | 0 <= i < |t| - 2
      ensures ParentOf(H, t[1..][i], t[1..][i + 1])
    {
      assert t[1..][i] == t[i + 1] && t[1..][i + 1] == t[i + 2];
    }
  }

  /** The index on level i of the node above leaf `index`: index >> i. */
  function Anc(index: nat, i: nat): nat
  {
    if i == 0 then index else Anc(index, i - 1) / 2
  }

  lemma {:induction false} AncBound(index: nat, k: nat, i: nat)
    requires index < Pow2(k) && i <= k
    ensures Anc(index, i) < Pow2(k - i)
  {
    if i > 0 {
      AncBound(index, k, i - 1);
      var p := Pow2(k - i);
      assert Pow2(k - (i - 1)) == 2 * p;
      HalfBelow(Anc(index, i - 1), p);
    }
  }

  lemma HalfBelow(x: nat, p: nat)
    requires x < 2 * p
    ensures x / 2 < p
  {
  }

  /** The full table over a power-of-two level 0, as the indexed tree builds it:
      level i is level 0 hashed pairwise i times. */
  function FullTable(H: Hasher, level0: seq<Digest>, h: nat): (t: Table)
    ensures |t| == h + 1 && t[0] == level0
    ensures forall i :: 0 <= i < h ==> t[i + 1] == LevelHashes(H, t[i])
  {
    seq(h + 1, i requires 0 <= i <= h => Iterate(H, level0, i))
  }

  lemma {:induction false} IterateLength(H: Hasher, level0: seq<Digest>, h: nat, i: nat)
    requires |level0| == Pow2(h) && i <= h
    ensures |Iterate(H, level0, i)| == Pow2(h - i)
  {
    if i > 0 {
      IterateLength(H, level0, h, i - 1);
      var p := Pow2(h - i);
      assert Pow2(h - (i - 1)) == 2 * p;
      HalveEven(p);
    }
  }

  lemma HalveEven(p: nat)
    ensures (2 * p + 1) / 2 == p && (2 * p) % 2 == 0 && (2 * p) / 2 == p
  {
  }

  /** A table built by FullTable from 2 ** h leaf digests has the full shape and the
      parent relation on every level, so its last level is the single root. */
  lemma FullTableLinked(H: Hasher, level0: seq<Digest>, h: nat)
    requires |level0| == Pow2(h)
    ensures Shaped(FullTable(H, level0, h), h)
    ensures Linked(H, FullTable(H, level0, h))
    ensures FullTable(H, level0, h)[0] == level0
  {
    FullTableShaped(H, level0, h);
    FullTableParents(H, level0, h);
  }

  lemma FullTableShaped(H: Hasher, level0: seq<Digest>, h: nat)
    requires |level0| == Pow2(h)
    ensures Shaped(FullTable(H, level0, h), h)
  {
    var t := FullTable(H, level0, h);
    forall i | 0 <= i <= h
      ensures |t[i]| == Pow2(h - i)
    {
      IterateLength(H, level0, h, i);
    }
  }

  lemma FullTableParents(H: Hasher, level0: seq<Digest>, h: nat)
    requires Shaped(FullTable(H, level0, h), h)
    ensures forall i :: 0 <= i < h ==> ParentOf(H, FullTable(H, level0, h)[i], FullTable(H, level0, h)[i + 1])
  {
    var t := FullTable(H, level0, h);
    forall i | 0 <= i < h
      ensures ParentOf(H, t[i], t[i + 1])
    {
      var p := Pow2(h - (i + 1));
      assert |t[i]| == 2 * p by {
        assert |t[i]| == Pow2(h - i);
      }
      assert t[i + 1] == LevelHashes(H, t[i]);
      LevelHashesParent(H, t[i], t[i + 1], p);
    }
  }

  lemma LevelHashesParent(H: Hasher, lower: seq<Digest>, upper: seq<Digest>, p: nat)
    requires |lower| == 2 * p && upper == LevelHashes(H, lower)
    ensures ParentOf(H, lower, upper)
  {
    HalveEven(p);
  }
}
