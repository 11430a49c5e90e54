/** IndexedMerkleTree: a full binary tree over a fixed array of 2 ** h leaves, each leaf
    holding a value and a link (index and value) to the next larger value, so that the
    filled leaves form a sorted linked list starting at the sentinel leaf 0. */
module IndexedTree {
  import opened Common
  import opened Levels
  import opened Proofs

  /** Leaf(value, nextidx, nextval) */
  datatype Leaf = Leaf(value: int, nextIdx: int, nextVal: int)

  /** get_concat_data: str(value) + str(nextidx) + str(nextval), with no separator. */
  function ConcatData(leaf: Leaf): (r: string)
    ensures |r| == |IntStr(leaf.value)| + |IntStr(leaf.nextIdx)| + |IntStr(leaf.nextVal)|
    ensures r[..|IntStr(leaf.value)|] == IntStr(leaf.value)
    ensures r[|IntStr(leaf.value)|..|r| - |IntStr(leaf.nextVal)|] == IntStr(leaf.nextIdx)
    ensures r[|r| - |IntStr(leaf.nextVal)|..] == IntStr(leaf.nextVal)
  {
    IntStr(leaf.value) + IntStr(leaf.nextIdx) + IntStr(leaf.nextVal)
  }

  /** Without a separator, different leaves can have the same data and so the same digest. */
  lemma ConcatDataCollides()
    ensures Leaf(1, 23, 4) != Leaf(12, 3, 4) && ConcatData(Leaf(1, 23, 4)) == ConcatData(Leaf(12, 3, 4))
  {
    assert IntStr(1) == "1" && IntStr(23) == "23" && IntStr(4) == "4";
    assert IntStr(12) == "12" && IntStr(3) == "3";
  }

  /** [hash(leaf.get_concat_data()) for leaf in leafs] */
  function LeafDigests(H: Hasher, leafs: seq<Leaf>): (r: seq<Digest>)
    ensures |r| == |leafs|
    ensures forall i :: 0 <= i < |leafs| ==> r[i] == HashDatum(H, StrVal(ConcatData(leafs[i])))
  {
    seq(|leafs|, i requires 0 <= i < |leafs| => HashDatum(H, StrVal(ConcatData(leafs[i]))))
  }

  /** The values that are at most v, in their order: the list max_smaller_val builds. */
  function AtMost(s: seq<int>, v: int): (r: seq<int>)
    ensures forall x :: x in r <==> x in s && x <= v
  {
    if s == [] then []
    else AtMost(s[..|s| - 1], v) + (if s[|s| - 1] <= v then [s[|s| - 1]] else [])
  }

  /** max() of a non-empty list. */
  function SeqMax(s: seq<int>): (r: int)
    requires s != []
    ensures r in s && forall x :: x in s ==> x <= r
  {
    if |s| == 1 then s[0]
    else
      var rest := SeqMax(s[1..]);
      assert forall x :: x in s ==> x == s[0] || x in s[1..];
      if s[0] >= rest then s[0] else rest
  }

  /** max_smaller_val(value): the largest stored value that is at most `value`; max() of
      the empty list raises ValueError when every stored value is larger. */
  function MaxSmaller(values: seq<int>, v: int): (r: Result<int>)
    ensures r.Err? <==> forall x :: x in values ==> x > v
    ensures r.Err? ==> r.error == ValueError
    ensures r.Ok? ==> r.value in values && r.value <= v && forall x :: x in values && x <= v ==> x <= r.value
  {
    var smaller := AtMost(values, v);
    if smaller == [] then Err(ValueError) else Ok(SeqMax(smaller))
  }

  /** What add_value reads and writes: the leaves, the stored values in insertion order,
      the next free slot and the slot of the largest value. */
  datatype IndexedState = IndexedState(leafs: seq<Leaf>, values: seq<int>, addValueIndex: int, maxValIndx: int)

  /** The tree as __init__ leaves it: 2 ** h empty leaves, the sentinel value 0 stored. */
  function InitialState(h: nat): (s: IndexedState)
    ensures |s.leafs| == Pow2(h)
  {
    IndexedState(Repeat(Leaf(0, 0, 0), Pow2(h)), [0], 1, 0)
  }

  /** At least the sentinel is stored, add_value_index is the first free slot and
      max_val_indx a filled one. */
  predicate Counters(s: IndexedState)
  {
    1 <= |s.values| && s.addValueIndex == |s.values| && 0 <= s.maxValIndx < |s.values|
  }

  /** The bookkeeping add_value keeps whatever is inserted: slot i < len(values) holds
      values[i] and links to a filled slot whose value it records, the free slots are still
      empty, add_value_index is the first free slot, max_val_indx is a slot of the largest
      value, and no value is negative since the sentinel 0 is the floor. */
  predicate Consistent(s: IndexedState)
  {
    Counters(s) && |s.values| <= |s.leafs| && s.values[0] == 0 &&
    (forall i :: 0 <= i < |s.values| ==> LeafRecords(s, i)) &&
    (forall i :: |s.values| <= i < |s.leafs| ==> s.leafs[i] == Leaf(0, 0, 0)) &&
    (forall i :: 0 <= i < |s.values| ==> 0 <= s.values[i] <= s.values[s.maxValIndx])
  }

  lemma InitialConsistent(h: nat)
    ensures Consistent(InitialState(h))
  {
  }

  /** The slot k is filled, with a free slot left for the new leaf. */
  predicate Room(s: IndexedState, k: int)
  {
    Counters(s) && 0 <= k < |s.values| < |s.leafs|
  }

  /** The state add_value leaves when the largest value not above v is first found in
      slot k: slot k links to the new slot n = len(values), and the new leaf takes over k's
      old link, or ends the list and becomes max_val_indx when v exceeds the maximum. */
  function Spliced(s: IndexedState, v: int, k: int): (r: IndexedState)
    requires Room(s, k)
    ensures r.values == s.values + [v] && |r.leafs| == |s.leafs| && Counters(r)
  {
    var n := |s.values|;
    var link := if v > s.values[s.maxValIndx] then (0, 0, n)
                else (s.leafs[k].nextIdx, s.leafs[k].nextVal, s.maxValIndx);
    var leafs := s.leafs[k := s.leafs[k].(nextIdx := n, nextVal := v)];
    IndexedState(leafs[s.addValueIndex := Leaf(v, link.0, link.1)], s.values + [v], s.addValueIndex + 1, link.2)
  }

  /** add_value(value): IndexError when every leaf is filled, ValueError when every stored
      value is larger (so exactly when the value is negative, 0 being stored); otherwise the
      state Spliced describes, for the first slot holding max_smaller_val(value). */
  function Insert(s: IndexedState, v: int): (r: Result<IndexedState>)
    requires Counters(s)
    ensures |s.values| >= |s.leafs| ==> r == Err(IndexError)
    ensures r.Err? ==> r.error == IndexError || r.error == ValueError
    ensures r.Ok? ==> r.value.values == s.values + [v] && |r.value.leafs| == |s.leafs| && Counters(r.value)
  {
    if |s.values| >= |s.leafs| then Err(IndexError)
    else
      match MaxSmaller(s.values, v)
      case Err(e) => Err(e)
      case Ok(m) => Ok(Spliced(s, v, FirstIndex(s.values, m)))
  }

  /** Which slots Spliced rewrites and how; every other slot keeps its leaf. */
  lemma SplicedFacts(s: IndexedState, v: int, k: int)
    requires Room(s, k)
    ensures var r := Spliced(s, v, k); var n := |s.values|;
            (forall x :: 0 <= x < |s.leafs| && x != k && x != n ==> r.leafs[x] == s.leafs[x]) &&
            r.leafs[k] == s.leafs[k].(nextIdx := n, nextVal := v) &&
            (v > s.values[s.maxValIndx] ==> r.leafs[n] == Leaf(v, 0, 0) && r.maxValIndx == n) &&
            (v <= s.values[s.maxValIndx] ==>
               r.leafs[n] == Leaf(v, s.leafs[k].nextIdx, s.leafs[k].nextVal) && r.maxValIndx == s.maxValIndx)
  {
  }

  /** With room left, Insert fails exactly as max_smaller_val does. */
  lemma InsertRejects(s: IndexedState, v: int)
    requires Counters(s) && |s.values| < |s.leafs| && MaxSmaller(s.values, v).Err?
    ensures Insert(s, v) == Err(MaxSmaller(s.values, v).error)
  {
  }

  /** With room left and a value found, Insert splices at the first slot holding it. */
  lemma InsertAccepts(s: IndexedState, v: int)
    requires Counters(s) && |s.values| < |s.leafs| && MaxSmaller(s.values, v).Ok?
    ensures Insert(s, v) == Ok(Spliced(s, v, FirstIndex(s.values, MaxSmaller(s.values, v).value)))
  {
  }

  /** With room left, add_value raises ValueError exactly for a negative value: the
      sentinel 0 is stored, so max_smaller_val finds a value for any other. */
  lemma InsertRejectsNegative(s: IndexedState, v: int)
    requires Consistent(s) && |s.values| < |s.leafs|
    ensures Insert(s, v) == Err(ValueError) <==> v < 0
  {
    if v >= 0 {
      assert s.values[0] in s.values;
      MaxSmallerIsOk(s.values, v, 0);
    } else {
      forall x | x in s.values
        ensures x > v
      {
        var i :| 0 <= i < |s.values| && s.values[i] == x;
      }
    }
  }

  lemma MaxSmallerIsOk(values: seq<int>, v: int, x: int)
    requires x in values && x <= v
    ensures MaxSmaller(values, v).Ok?
  {
  }

  /** add_value keeps the bookkeeping, whatever the value, duplicates included. */
  lemma InsertConsistent(s: IndexedState, v: int)
    requires Consistent(s) && Insert(s, v).Ok?
    ensures Consistent(Insert(s, v).value)
  {
    assert s.values[0] in s.values;
    var m := MaxSmaller(s.values, v).value;
    var k := FirstIndex(s.values, m);
    assert Insert(s, v).value == Spliced(s, v, k);
    SplicedConsistent(s, v, k);
  }

  lemma SplicedConsistent(s: IndexedState, v: int, k: int)
    requires Consistent(s) && Room(s, k) && s.values[k] <= v
    ensures Consistent(Spliced(s, v, k))
  {
    SplicedLinks(s, v, k);
    SplicedFree(s, v, k);
    SplicedBounded(s, v, k);
  }

  /** Every filled slot of the spliced state records its value and its link's value. */
  lemma SplicedLinks(s: IndexedState, v: int, k: int)
    requires Consistent(s) && Room(s, k)
    ensures var s' := Spliced(s, v, k);
            forall i :: 0 <= i < |s'.values| ==> LeafRecords(s', i)
  {
    var n := |s.values|;
    var s' := Spliced(s, v, k);
    SplicedFacts(s, v, k);
    SplicedOldSlots(s, v, k);
    assert LeafRecords(s, k);
    assert s'.values[k] == s.values[k] && s'.values[n] == v;
    assert LeafRecords(s', k);
    if v <= s.values[s.maxValIndx] {
      assert s'.values[s.leafs[k].nextIdx] == s.values[s.leafs[k].nextIdx];
    } else {
      assert s'.values[0] == 0;
    }
    assert LeafRecords(s', n);
  }

  /** Slot i holds values[i] and links to a filled slot whose value it records. */
  predicate LeafRecords(s: IndexedState, i: int)
    requires 0 <= i < |s.values| <= |s.leafs|
  {
    s.leafs[i].value == s.values[i] && 0 <= s.leafs[i].nextIdx < |s.values| &&
    s.leafs[i].nextVal == s.values[s.leafs[i].nextIdx]
  }

  /** The slots Spliced does not rewrite keep their records. */
  lemma SplicedOldSlots(s: IndexedState, v: int, k: int)
    requires Consistent(s) && Room(s, k)
    ensures var s' := Spliced(s, v, k);
            forall i :: 0 <= i < |s.values| && i != k ==> LeafRecords(s', i)
  {
    var s' := Spliced(s, v, k);
    SplicedFacts(s, v, k);
    forall i | 0 <= i < |s.values| && i != k
      ensures LeafRecords(s', i)
    {
      assert LeafRecords(s, i);
      assert s'.leafs[i] == s.leafs[i];
      assert s'.values[i] == s.values[i];
      assert s'.values[s.leafs[i].nextIdx] == s.values[s.leafs[i].nextIdx];
    }
  }

  /** The slots after the new one are still empty. */
  lemma SplicedFree(s: IndexedState, v: int, k: int)
    requires Consistent(s) && Room(s, k)
    ensures var s' := Spliced(s, v, k);
            forall i :: |s'.values| <= i < |s'.leafs| ==> s'.leafs[i] == Leaf(0, 0, 0)
  {
    var s' := Spliced(s, v, k);
    SplicedFacts(s, v, k);
    forall i | |s'.values| <= i < |s'.leafs|
      ensures s'.leafs[i] == Leaf(0, 0, 0)
    {
      assert s'.leafs[i] == s.leafs[i];
    }
  }

  /** No value is negative and max_val_indx still holds the largest. */
  lemma SplicedBounded(s: IndexedState, v: int, k: int)
    requires Consistent(s) && Room(s, k) && s.values[k] <= v
    ensures var s' := Spliced(s, v, k);
            s'.values[0] == 0 && forall i :: 0 <= i < |s'.values| ==> 0 <= s'.values[i] <= s'.values[s'.maxValIndx]
  {
    var n := |s.values|;
    var s' := Spliced(s, v, k);
    var top := s.values[s.maxValIndx];
    SplicedFacts(s, v, k);
    assert 0 <= s.values[k] <= v;
    var top' := if v > top then v else top;
    assert s'.values[s'.maxValIndx] == top';
    forall i | 0 <= i < n + 1
      ensures 0 <= s'.values[i] <= top'
    {
      if i < n {
        assert s'.values[i] == s.values[i];
      }
    }
  }

  predicate InRange(order: seq<int>, n: int)
  {
    forall j :: 0 <= j < |order| ==> 0 <= order[j] < n
  }

  /** Every slot below n appears in the order. */
  predicate Covers(order: seq<int>, n: int)
  {
    forall i :: 0 <= i < n ==> i in order
  }

  predicate NoRepeats(order: seq<int>)
  {
    forall j, j' :: 0 <= j < j' < |order| ==> order[j] != order[j']
  }

  /** Each slot in the order links to the next one, whose value is larger. */
  predicate Links(s: IndexedState, order: seq<int>)
    requires InRange(order, |s.values|) && |s.values| <= |s.leafs|
  {
    forall j :: 0 <= j < |order| - 1 ==>
      s.leafs[order[j]].nextIdx == order[j + 1] && s.values[order[j]] < s.values[order[j + 1]]
  }

  /** The filled slots in list order: from the sentinel each slot links to the next, the
      values strictly increase along the way, every filled slot appears exactly once, and
      the list ends at max_val_indx, whose link is (0, 0). */
  predicate IsChain(s: IndexedState, order: seq<int>)
  {
    |order| == |s.values| >= 1 && |s.values| <= |s.leafs| && order[0] == 0 &&
    InRange(order, |s.values|) && Covers(order, |s.values|) && NoRepeats(order) && Links(s, order) &&
    order[|order| - 1] == s.maxValIndx &&
    s.leafs[s.maxValIndx].nextIdx == 0 && s.leafs[s.maxValIndx].nextVal == 0
  }

  predicate Distinct(s: seq<int>)
  {
    forall i, j :: 0 <= i < j < |s| ==> s[i] != s[j]
  }

  lemma InitialChain(h: nat)
    requires h >= 1
    ensures IsChain(InitialState(h), [0]) && Distinct(InitialState(h).values)
  {
  }

  /** order with n inserted right after position p. */
  function Splice(order: seq<int>, p: int, n: int): (o: seq<int>)
    requires 0 <= p < |order|
    ensures |o| == |order| + 1 && o[p + 1] == n
    ensures forall j :: 0 <= j <= p ==> o[j] == order[j]
    ensures forall j :: p + 2 <= j < |o| ==> o[j] == order[j - 1]
  {
    order[..p + 1] + [n] + order[p + 1..]
  }

  lemma SpliceOrder(order: seq<int>, p: int, n: nat)
    requires 0 <= p < |order| && InRange(order, n) && Covers(order, n) && NoRepeats(order)
    ensures InRange(Splice(order, p, n), n + 1) && Covers(Splice(order, p, n), n + 1)
    ensures NoRepeats(Splice(order, p, n))
  {
    var o := Splice(order, p, n);
    forall i | 0 <= i < n + 1
      ensures i in o
    {
      if i < n {
        assert i in order;
        var j :| 0 <= j < |order| && order[j] == i;
        if j <= p {
          assert o[j] == i;
        } else {
          assert o[j + 1] == i;
        }
      } else {
        assert o[p + 1] == i;
      }
    }
  }

  lemma AppendOrder(order: seq<int>, n: nat)
    requires InRange(order, n) && Covers(order, n) && NoRepeats(order)
    ensures InRange(order + [n], n + 1) && Covers(order + [n], n + 1) && NoRepeats(order + [n])
  {
    var o := order + [n];
    forall i | 0 <= i < n + 1
      ensures i in o
    {
      if i < n {
        assert i in order;
      } else {
        assert o[|order|] == i;
      }
    }
    forall j, j' | 0 <= j < j' < |o|
      ensures o[j] != o[j']
    {
      if j' == |order| {
        assert o[j] == order[j] < n;
      }
    }
  }

  lemma DistinctAppend(s: seq<int>, v: int)
    requires Distinct(s) && v !in s
    ensures Distinct(s + [v])
  {
  }

  /** Inserting a positive value that is not stored yet into a tree with room splices it
      into the sorted list: the list of the new tree is the old list with the new slot
      placed right after the slot of the largest smaller value. */
  lemma {:induction false} InsertExtendsChain(s: IndexedState, v: int, order: seq<int>) returns (order': seq<int>)
    requires Consistent(s) && IsChain(s, order) && Distinct(s.values)
    requires v > 0 && v !in s.values && |s.values| < |s.leafs|
    ensures Insert(s, v).Ok?
    ensures IsChain(Insert(s, v).value, order') && Distinct(Insert(s, v).value.values)
  {
    assert s.values[0] in s.values;
    var m := MaxSmaller(s.values, v).value;
    var k := FirstIndex(s.values, m);
    assert Insert(s, v) == Ok(Spliced(s, v, k));
    DistinctAppend(s.values, v);
    assert s.values[k] < v by {
      assert s.values[k] == m && m <= v && m != v;
    }
    assert k in order;
    var p :| 0 <= p < |order| && order[p] == k;
    if v > s.values[s.maxValIndx] {
      order' := AppendCase(s, v, order, k);
    } else {
      order' := SpliceCase(s, v, order, p, m);
    }
  }

  /** v above every stored value: k holds the maximum, so it ends the list. */
  lemma AppendCase(s: IndexedState, v: int, order: seq<int>, k: int) returns (order': seq<int>)
    requires Consistent(s) && IsChain(s, order) && Distinct(s.values) && Room(s, k) && s.values[k] < v
    requires v > s.values[s.maxValIndx] && MaxSmaller(s.values, v) == Ok(s.values[k])
    ensures IsChain(Spliced(s, v, k), order')
  {
    var n := |s.values|;
    assert s.values[k] == s.values[s.maxValIndx] by {
      assert s.values[s.maxValIndx] in s.values;
    }
    assert k == s.maxValIndx;
    SplicedFacts(s, v, k);
    order' := order + [n];
    AppendOrder(order, n);
    ChainAppend(s, Spliced(s, v, k), order, k, n, v);
  }

  /** v below the maximum: the slot after k in the list holds a larger value than v. */
  lemma SpliceCase(s: IndexedState, v: int, order: seq<int>, p: int, m: int) returns (order': seq<int>)
    requires Consistent(s) && IsChain(s, order) && Distinct(s.values)
    requires 0 <= p < |order| && Room(s, order[p]) && s.values[order[p]] == m && m < v
    requires v <= s.values[s.maxValIndx] && MaxSmaller(s.values, v) == Ok(m)
    ensures IsChain(Spliced(s, v, order[p]), order')
  {
    var n := |s.values|;
    var k := order[p];
    assert k != s.maxValIndx;
    assert p < |order| - 1;
    var q := order[p + 1];
    assert s.values[q] > v by {
      assert s.values[q] in s.values;
      assert s.values[q] > m;
    }
    SplicedFacts(s, v, k);
    order' := Splice(order, p, n);
    SpliceOrder(order, p, n);
    ChainSplice(s, Spliced(s, v, k), order, p, k, n, v);
  }

  /** The new value is the largest: slot k, the old tail, links to it and it ends the list. */
  lemma ChainAppend(s: IndexedState, s': IndexedState, order: seq<int>, k: int, n: int, v: int)
    requires IsChain(s, order) && n == |s.values| < |s.leafs| && |s'.leafs| == |s.leafs|
    requires k == s.maxValIndx && v > s.values[k] && s'.values == s.values + [v]
    requires forall x :: 0 <= x < |s.leafs| && x != k && x != n ==> s'.leafs[x] == s.leafs[x]
    requires s'.leafs[k].nextIdx == n && s'.leafs[n] == Leaf(v, 0, 0) && s'.maxValIndx == n
    requires InRange(order + [n], n + 1) && Covers(order + [n], n + 1) && NoRepeats(order + [n])
    ensures IsChain(s', order + [n])
  {
    var o := order + [n];
    forall j | 0 <= j < |o| - 1
      ensures s'.leafs[o[j]].nextIdx == o[j + 1] && s'.values[o[j]] < s'.values[o[j + 1]]
    {
      if j < |order| - 1 {
        assert o[j] == order[j] != k && o[j + 1] == order[j + 1];
        assert s.leafs[order[j]].nextIdx == order[j + 1];
      }
    }
  }

  /** The new value falls between the values of slot order[p] = k and slot order[p + 1]. */
  lemma ChainSplice(s: IndexedState, s': IndexedState, order: seq<int>, p: int, k: int, n: int, v: int)
    requires IsChain(s, order) && n == |s.values| < |s.leafs| && |s'.leafs| == |s.leafs|
    requires 0 <= p < |order| - 1 && order[p] == k && k != s.maxValIndx
    requires s.values[k] < v < s.values[order[p + 1]] && s'.values == s.values + [v]
    requires forall x :: 0 <= x < |s.leafs| && x != k && x != n ==> s'.leafs[x] == s.leafs[x]
    requires s'.leafs[k].nextIdx == n && s'.leafs[n].nextIdx == s.leafs[k].nextIdx
    requires s'.maxValIndx == s.maxValIndx
    requires InRange(Splice(order, p, n), n + 1) && Covers(Splice(order, p, n), n + 1)
    requires NoRepeats(Splice(order, p, n))
    ensures IsChain(s', Splice(order, p, n))
  {
    var o := Splice(order, p, n);
    forall j | 0 <= j < |o| - 1
      ensures s'.leafs[o[j]].nextIdx == o[j + 1] && s'.values[o[j]] < s'.values[o[j + 1]]
    {
      if j < p {
        assert o[j] == order[j] && o[j + 1] == order[j + 1] && order[j] != k;
        assert s.leafs[order[j]].nextIdx == order[j + 1];
      } else if j == p + 1 {
        assert o[j + 1] == order[p + 1];
        assert s.leafs[order[p]].nextIdx == order[p + 1];
      } else if j > p + 1 {
        assert o[j] == order[j - 1] && o[j + 1] == order[j] && order[j - 1] != k;
        assert s.leafs[order[j - 1]].nextIdx == order[j];
      }
    }
    assert o[|o| - 1] == order[|order| - 1];
  }

  /** Following nextidx n times from slot i (stopping at a slot outside the leaves). */
  function Walk(leafs: seq<Leaf>, i: int, n: nat): (r: seq<int>)
    ensures n > 0 ==> |r| >= 1 && r[0] == i
    decreases n
  {
    if n == 0 then []
    else [i] + (if 0 <= i < |leafs| then Walk(leafs, leafs[i].nextIdx, n - 1) else [])
  }

  /** The list order is what walking the links from the sentinel visits. */
  lemma ChainIsWalk(s: IndexedState, order: seq<int>)
    requires IsChain(s, order)
    ensures Walk(s.leafs, 0, |order|) == order
  {
    assert forall j :: 0 <= j < |order| ==> 0 <= order[j] < |s.leafs|;
    assert forall j :: 0 <= j < |order| - 1 ==> s.leafs[order[j]].nextIdx == order[j + 1];
    SuffixWalk(s.leafs, order, 0);
    assert order[0..] == order;
  }

  /** From position p on, following the links visits the rest of the order. */
  lemma {:induction false} SuffixWalk(leafs: seq<Leaf>, order: seq<int>, p: nat)
    requires p < |order|
    requires forall j :: 0 <= j < |order| ==> 0 <= order[j] < |leafs|
    requires forall j :: 0 <= j < |order| - 1 ==> leafs[order[j]].nextIdx == order[j + 1]
    ensures Walk(leafs, order[p], |order| - p) == order[p..]
    decreases |order| - p
  {
    if p == |order| - 1 {
      assert Walk(leafs, leafs[order[p]].nextIdx, 0) == [];
    } else {
      SuffixWalk(leafs, order, p + 1);
      assert order[p..] == [order[p]] + order[p + 1..];
    }
  }

  /** With a single leaf besides the sentinel, the second insertion finds the tree full. */
  lemma CapacityHeightOne(a: int, b: int)
    requires a >= 0
    ensures Insert(InitialState(1), a).Ok?
    ensures Insert(Insert(InitialState(1), a).value, b) == Err(IndexError)
  {
    InitialConsistent(1);
    InsertConsistent(InitialState(1), a);
  }

  /** One add_value on a concrete state, checked through the characterisations of
      max_smaller_val and list.index rather than by evaluation. */
  lemma InsertStep(s: IndexedState, v: int, m: int, k: int)
    requires Counters(s) && |s.values| < |s.leafs|
    requires m in s.values && m <= v && forall x :: x in s.values && x <= v ==> x <= m
    requires 0 <= k < |s.values| && s.values[k] == m && forall i :: 0 <= i < k ==> s.values[i] != m
    ensures Insert(s, v) == Ok(Spliced(s, v, k))
  {
    MaxSmallerIs(s.values, v, m);
    FirstIndexIs(s.values, m, k);
  }

  lemma MaxSmallerIs(values: seq<int>, v: int, m: int)
    requires m in values && m <= v && forall x :: x in values && x <= v ==> x <= m
    ensures MaxSmaller(values, v) == Ok(m)
  {
    var r := MaxSmaller(values, v);
    assert r.Ok?;
  }

  lemma FirstIndexIs(values: seq<int>, m: int, k: int)
    requires 0 <= k < |values| && values[k] == m && forall i :: 0 <= i < k ==> values[i] != m
    ensures m in values && FirstIndex(values, m) == k
  {
    var r := FirstIndex(values, m);
    assert !(r < k) && !(k < r);
  }

  /** Spliced for a value above the maximum: the new leaf ends the list. */
  lemma SplicedAboveMax(s: IndexedState, v: int, k: int)
    requires Room(s, k) && v > s.values[s.maxValIndx]
    ensures var n := |s.values|;
            Spliced(s, v, k) ==
            IndexedState(s.leafs[k := s.leafs[k].(nextIdx := n, nextVal := v)][n := Leaf(v, 0, 0)], s.values + [v], n + 1, n)
  {
  }

  /** Spliced for a value up to the maximum: the new leaf takes over k's old link. */
  lemma SplicedBelowMax(s: IndexedState, v: int, k: int)
    requires Room(s, k) && v <= s.values[s.maxValIndx]
    ensures var n := |s.values|;
            Spliced(s, v, k) ==
            IndexedState(s.leafs[k := s.leafs[k].(nextIdx := n, nextVal := v)][n := Leaf(v, s.leafs[k].nextIdx, s.leafs[k].nextVal)],
                         s.values + [v], n + 1, s.maxValIndx)
  {
  }

  const Empty := Leaf(0, 0, 0)
  const S0 := IndexedState([Empty, Empty, Empty, Empty], [0], 1, 0)
  const S1 := IndexedState([Leaf(0, 1, 5), Leaf(5, 0, 0), Empty, Empty], [0, 5], 2, 1)
  const S2 := IndexedState([Leaf(0, 1, 5), Leaf(5, 2, 5), Leaf(5, 0, 0), Empty], [0, 5, 5], 3, 1)
  const S3 := IndexedState([Leaf(0, 1, 5), Leaf(5, 3, 6), Leaf(5, 0, 0), Leaf(6, 0, 0)], [0, 5, 5, 6], 4, 3)

  lemma LiteralsConsistent()
    ensures Consistent(S0) && Consistent(S1) && Consistent(S2) && Consistent(S3)
  {
    assert S1.values[S1.leafs[0].nextIdx] == 5;
    assert S2.values[S2.leafs[1].nextIdx] == 5;
    assert S3.values[S3.leafs[0].nextIdx] == 5;
    assert S3.values[S3.leafs[1].nextIdx] == 6;
  }

  lemma InsertFirstFive()
    ensures InitialState(2) == S0 && Insert(S0, 5) == Ok(S1)
  {
    assert Pow2(2) == 4;
    assert Repeat(Empty, 4) == [Empty, Empty, Empty, Empty];
    assert forall x :: x in S0.values ==> x == 0;
    InsertStep(S0, 5, 0, 0);
    SplicedAboveMax(S0, 5, 0);
    var linked := S0.leafs[0 := Leaf(0, 1, 5)];
    assert linked == [Leaf(0, 1, 5), Empty, Empty, Empty];
    assert linked[1 := Leaf(5, 0, 0)] == S1.leafs;
    assert S0.values + [5] == S1.values;
  }

  lemma InsertSecondFive()
    ensures Insert(S1, 5) == Ok(S2)
  {
    assert forall x :: x in S1.values ==> x == 0 || x == 5;
    InsertStep(S1, 5, 5, 1);
    SplicedBelowMax(S1, 5, 1);
    var linked := S1.leafs[1 := Leaf(5, 2, 5)];
    assert linked == [Leaf(0, 1, 5), Leaf(5, 2, 5), Empty, Empty];
    assert linked[2 := Leaf(5, 0, 0)] == S2.leafs;
    assert S1.values + [5] == S2.values;
  }

  lemma InsertSix()
    ensures Insert(S2, 6) == Ok(S3)
  {
    assert forall x :: x in S2.values ==> x == 0 || x == 5;
    InsertStep(S2, 6, 5, 1);
    SplicedAboveMax(S2, 6, 1);
    var linked := S2.leafs[1 := Leaf(5, 3, 6)];
    assert linked == [Leaf(0, 1, 5), Leaf(5, 3, 6), Leaf(5, 0, 0), Empty];
    assert linked[3 := Leaf(6, 0, 0)] == S3.leafs;
    assert S2.values + [6] == S3.values;
  }

  /** Inserting 5, 5 and 6 (InsertFirstFive, InsertSecondFive, InsertSix): list.index finds
      the first 5 in slot 1, so 6 is linked from slot 1 and the second 5 in slot 2 is no
      longer reachable from the sentinel. */
  lemma DuplicateOrphansLeaf()
    ensures S3.values == [0, 5, 5, 6] && Walk(S3.leafs, 0, |S3.values|) == [0, 1, 3, 0]
  {
    assert Walk(S3.leafs, 0, 1) == [0];
    assert Walk(S3.leafs, 3, 2) == [3, 0];
    assert Walk(S3.leafs, 1, 3) == [1, 3, 0];
  }

  lemma FullTableStep(H: Hasher, level0: seq<Digest>, n: nat)
    ensures FullTable(H, level0, n + 1) == FullTable(H, level0, n) + [LevelHashes(H, FullTable(H, level0, n)[n])]
  {
    var a := FullTable(H, level0, n + 1);
    var b := FullTable(H, level0, n) + [LevelHashes(H, FullTable(H, level0, n)[n])];
    forall l | 0 <= l <= n + 1
      ensures a[l] == b[l]
    {
    }
  }

  /** The loop of initial_tree: level 0 from the leaves, each later level from the pairs of
      the level before, appended in turn. Level i has 2 ** (h - i) digests, so every chunk
      is a full pair. */
  method AppendLevels(H: Hasher, level0: seq<Digest>, h: nat) returns (t: Table)
    ensures t == FullTable(H, level0, h)
  {
    t := [];
    for i := 0 to h + 1
      invariant |t| == i
      invariant i > 0 ==> t == FullTable(H, level0, i - 1)
    {
      var hashes;
      if i == 0 {
        hashes := level0;
        assert [hashes] == FullTable(H, level0, 0);
      } else {
        hashes := LevelHashes(H, t[i - 1]);
        FullTableStep(H, level0, i - 1);
      }
      t := t + [hashes];
    }
  }

  /** The loop of update: the same levels, each assigned over the stored one. */
  method RecomputeLevels(H: Hasher, level0: seq<Digest>, h: nat, before: Table) returns (t: Table)
    requires |before| == h + 1
    ensures t == FullTable(H, level0, h)
  {
    t := before;
    for i := 0 to h + 1
      invariant |t| == h + 1
      invariant i > 0 ==> t[..i] == FullTable(H, level0, i - 1)
    {
      var hashes;
      if i == 0 {
        hashes := level0;
        assert [hashes] == FullTable(H, level0, 0);
      } else {
        hashes := LevelHashes(H, t[i - 1]);
        FullTableStep(H, level0, i - 1);
        assert t[..i][i - 1] == t[i - 1];
      }
      ghost var prefix := t[..i];
      t := t[i := hashes];
      assert t[..i + 1] == prefix + [hashes];
    }
    assert t[..h + 1] == t;
  }

  class IndexedMerkleTree {
    const hashFn: Hasher
    const treeHeight: nat
    const leafsNum: nat
    const leafs: array<Leaf>
    var blocksHashes: Table
    var values: seq<int>
    var addValueIndex: int
    var maxValIndx: int

    /** The part of the tree add_value works on. */
    function State(): IndexedState
      reads this`values, this`addValueIndex, this`maxValIndx, leafs
    {
      IndexedState(leafs[..], values, addValueIndex, maxValIndx)
    }

    /** 2 ** tree_height leaves whose values, links and counters are consistent. The
        stored levels are not part of it: add_value leaves them stale until update. */
    ghost predicate Valid()
      reads this`values, this`addValueIndex, this`maxValIndx, leafs
    {
      treeHeight >= 1 && leafsNum == Pow2(treeHeight) && leafs.Length == leafsNum &&
      Consistent(State())
    }

    /** The stored levels: none before initial_tree, tree_height + 1 after it. */
    ghost predicate Built()
      reads this`blocksHashes
    {
      blocksHashes == [] || |blocksHashes| == treeHeight + 1
    }

    /** __init__(tree_height): the height is the argument when positive, otherwise 3. */
    constructor (H: Hasher, heightArg: int)
      ensures Valid() && Built() && fresh(leafs)
      ensures hashFn == H && treeHeight == (if heightArg > 0 then heightArg else 3)
      ensures State() == InitialState(treeHeight) && blocksHashes == []
    {
      var h: nat := if heightArg > 0 then heightArg else 3;
      hashFn := H;
      treeHeight := h;
      leafsNum := Pow2(h);
      leafs := new Leaf[Pow2(h)](_ => Leaf(0, 0, 0));
      blocksHashes := [];
      values := [0];
      addValueIndex := 1;
      maxValIndx := 0;
      new;
      assert leafs[..] == Repeat(Leaf(0, 0, 0), Pow2(h));
      InitialConsistent(h);
    }

    /** initial_tree: appends the full table over the leaf digests. */
    method InitialTree()
      requires Valid() && blocksHashes == []
      modifies this`blocksHashes
      ensures blocksHashes == FullTable(hashFn, LeafDigests(hashFn, leafs[..]), treeHeight)
      ensures Shaped(blocksHashes, treeHeight) && Linked(hashFn, blocksHashes)
      ensures Valid() && Built()
    {
      ghost var st := State();
      var level0 := LeafDigests(hashFn, leafs[..]);
      var t := AppendLevels(hashFn, level0, treeHeight);
      FullTableLinked(hashFn, level0, treeHeight);
      blocksHashes := blocksHashes + t;
      assert blocksHashes == t;
      assert State() == st;
    }

    /** max_smaller_val: the filter loop over values, then max(). */
    method MaxSmallerVal(value: int) returns (r: Result<int>)
      ensures r == MaxSmaller(values, value)
    {
      var smallerVals: seq<int> := [];
      for i := 0 to |values|
        invariant smallerVals == AtMost(values[..i], value)
      {
        assert values[..i + 1][..i] == values[..i];
        if values[i] <= value {
          smallerVals := smallerVals + [values[i]];
        }
      }
      assert values[..|values|] == values;
      if smallerVals == [] {
        r := Err(ValueError);
      } else {
        r := Ok(SeqMax(smallerVals));
      }
    }

    /** add_value(value): fails before any change, or links the new leaf in as Insert says.
        blocks_hashes is left as it was until update. */
    method AddValue(value: int) returns (r: Outcome)
      requires Valid()
      modifies this`values, this`addValueIndex, this`maxValIndx, leafs
      ensures Valid()
      ensures Insert(old(State()), value).Err? ==>
                r == Raised(Insert(old(State()), value).error) && State() == old(State())
      ensures Insert(old(State()), value).Ok? ==> r == Done && State() == Insert(old(State()), value).value
    {
      if |values| < leafsNum {
        var m := MaxSmallerVal(value);
        if m.Err? {
          InsertRejects(State(), value);
          return Raised(m.error);
        }
        var k := FirstIndex(values, m.value);
        ghost var s := State();
        InsertAccepts(s, value);
        LinkLeaf(k, value);
        InsertConsistent(s, value);
        r := Done;
      } else {
        r := Raised(IndexError);
      }
    }

    /** The writes of add_value once the slot k of max_smaller_val is known: k's link moves
        to the new slot, which takes over k's old link or becomes the maximum. */
    method LinkLeaf(k: int, value: int)
      requires Room(State(), k)
      modifies this`values, this`addValueIndex, this`maxValIndx, leafs
      ensures State() == Spliced(old(State()), value, k)
    {
      ghost var s := State();
      ghost var s' := Spliced(s, value, k);
      SplicedFacts(s, value, k);
      var nextIdx, nextVal;
      if value > values[maxValIndx] {
        nextIdx, nextVal := 0, 0;
        maxValIndx := |values|;
      } else {
        nextIdx, nextVal := leafs[k].nextIdx, leafs[k].nextVal;
      }
      leafs[k] := leafs[k].(nextIdx := |values|, nextVal := value);
      assert leafs[..] == s.leafs[k := s.leafs[k].(nextIdx := |s.values|, nextVal := value)];
      values := values + [value];
      leafs[addValueIndex] := Leaf(value, nextIdx, nextVal);
      assert leafs[..] == s'.leafs;
      addValueIndex := addValueIndex + 1;
    }

    /** update: recomputes every level from the leaves; with no stored level the first
        assignment fails with IndexError. */
    method Update() returns (r: Outcome)
      requires Valid() && Built()
      modifies this`blocksHashes
      ensures Valid() && Built()
      ensures old(blocksHashes) == [] ==> r == Raised(IndexError) && blocksHashes == []
      ensures old(blocksHashes) != [] ==>
                r == Done && blocksHashes == FullTable(hashFn, LeafDigests(hashFn, leafs[..]), treeHeight) &&
                Shaped(blocksHashes, treeHeight) && Linked(hashFn, blocksHashes)
    {
      if blocksHashes == [] {
        return Raised(IndexError);
      }
      var level0 := LeafDigests(hashFn, leafs[..]);
      var t := RecomputeLevels(hashFn, level0, treeHeight, blocksHashes);
      FullTableLinked(hashFn, level0, treeHeight);
      blocksHashes := t;
      r := Done;
    }

    /** generate_proof: reads the levels only; raises as ProofOf says. */
    method GenerateProof(arg: ProofArg) returns (r: Result<Proof>)
      ensures r == ProofOf(blocksHashes, ArgHash(hashFn, arg))
    {
      r := Proofs.GenerateProof(blocksHashes, ArgHash(hashFn, arg));
    }
  }

  /** After initial_tree, add_value and update, the leaf in any slot has a proof, looked up
      by its digest, that verify_inc_proof accepts for its concatenated data against the
      root of the table. */
  method IndexedRoundTrip(H: Hasher, height: int, v: int, slot: nat) returns (ok: bool)
    requires slot < Pow2(if height > 0 then height else 3)
    ensures ok
  {
    var tree := Populated(H, height, v);
    var data := StrVal(ConcatData(tree.leafs[slot]));
    var levels := tree.blocksHashes;
    ghost var leafs := tree.leafs[..];
    assert leafs[slot] == tree.leafs[slot];
    assert levels == FullTable(H, LeafDigests(H, leafs), tree.treeHeight);
    FullTableRoundTrip(H, leafs, tree.treeHeight, slot);
    var proof := tree.GenerateProof(ByDigest(HashDatum(H, data)));
    assert proof == ProofOf(levels, HashDatum(H, data));
    ok := VerifyIncProof(H, proof.value, levels[|levels| - 1][0], data);
  }

  /** A tree built by __init__ and initial_tree, given one add_value and then update. */
  method Populated(H: Hasher, height: int, v: int) returns (tree: IndexedMerkleTree)
    ensures tree.hashFn == H && tree.treeHeight == (if height > 0 then height else 3)
    ensures tree.leafs.Length == Pow2(tree.treeHeight)
    ensures tree.blocksHashes == FullTable(H, LeafDigests(H, tree.leafs[..]), tree.treeHeight)
  {
    tree := new IndexedMerkleTree(H, height);
    tree.InitialTree();
    var added := tree.AddValue(v);
    var updated := tree.Update();
  }

  /** The round trip on the table update builds, for the leaf in slot `slot`. */
  lemma FullTableRoundTrip(H: Hasher, leafs: seq<Leaf>, h: nat, slot: nat)
    requires |leafs| == Pow2(h) && slot < |leafs|
    ensures var t := FullTable(H, LeafDigests(H, leafs), h);
            var d := StrVal(ConcatData(leafs[slot]));
            Linked(H, t) && ProofOf(t, HashDatum(H, d)).Ok? &&
            Replay(H, HashDatum(H, d), ProofOf(t, HashDatum(H, d)).value) == Root(t)
  {
    var t := FullTable(H, LeafDigests(H, leafs), h);
    var d := StrVal(ConcatData(leafs[slot]));
    FullTableLinked(H, LeafDigests(H, leafs), h);
    assert t[0][slot] == HashDatum(H, d);
    RoundTrip(H, t, d);
  }
}
