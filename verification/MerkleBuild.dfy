/** Filling a tree leaf by leaf with hashes computed locally, in any order. */
module MerkleBuild {
  import opened MerkleLevels
  import opened MerkleFlat

  ghost predicate LevelBuilt<H>(s: seq<Slot<H>>, level: seq<H>, has: seq<bool>)
    requires |has| == |level| <= |s|
  {
    forall j :: 0 <= j < |level| ==> s[j].present == has[j] && (has[j] ==> s[j].hash == level[j])
  }

  /** The invariant of a tree under construction: exactly the nodes all of whose leaves are set are
      present, and they carry the genuine hash. */
  ghost predicate Built<H>(f: (H, H) -> H, s: seq<Slot<H>>, level: seq<H>, has: seq<bool>)
    requires IsTree(s, |level|) && |has| == |level|
    decreases |level|
  {
    LevelBuilt(s, level, has) &&
    (|level| >= 2 ==> Built(f, s[|level|..], Next(f, level), BothBelow(has)))
  }

  lemma BuiltStep<H>(f: (H, H) -> H, s: seq<Slot<H>>, level: seq<H>, has: seq<bool>)
    requires IsTree(s, |level|) && |has| == |level| >= 2 && Built(f, s, level, has)
    ensures IsTree(s[|level|..], Up(|level|)) && Built(f, s[|level|..], Next(f, level), BothBelow(has))
    ensures LevelBuilt(s, level, has)
  {
  }

  lemma BothBelowUpdate(has: seq<bool>, i: nat)
    requires i < |has|
    ensures BothBelow(has[i := true]) == BothBelow(has)[i / 2 := BothBelow(has[i := true])[i / 2]]
    ensures BothBelow(has[i := true])[i / 2] == (Sibling(i) < |has| ==> has[Sibling(i)])
    ensures BothBelow(has)[i / 2] == (has[i] && (Sibling(i) < |has| ==> has[Sibling(i)]))
  {
    assert i == 2 * (i / 2) || i == 2 * (i / 2) + 1;
  }

  lemma ParentIsGenuine<H>(f: (H, H) -> H, s: seq<Slot<H>>, level: seq<H>, has: seq<bool>, i: nat)
    requires |has| == |level| <= |s| && LevelBuilt(s, level, has) && i < |level|
    requires has[i] && (Sibling(i) < |level| ==> has[Sibling(i)])
    ensures ParentHash(f, s, |level|, i / 2) == Next(f, level)[i / 2]
  {
    assert i == 2 * (i / 2) || i == 2 * (i / 2) + 1;
  }

  lemma StoredAbove<H>(f: (H, H) -> H, s: seq<Slot<H>>, t: seq<Slot<H>>, level: seq<H>, has: seq<bool>, i: nat)
    requires IsTree(s, |level|) && |has| == |level| && i < |level| && Built(f, s, level, has)
    requires i < |s| && t == s[i := Slot(true, level[i])]
    ensures LevelBuilt(t, level, has[i := true])
    ensures |level| >= 2 ==> IsTree(t, |level|) && Built(f, t[|level|..], Next(f, level), BothBelow(has))
  {
    TreeUp(s, |level|, i);
    assert |level| >= 2 ==> t[|level|..] == s[|level|..];
  }

  /** Completing the ancestors of a newly set node restores the invariant on all levels above. */
  lemma {:induction false} CompleteBuilt<H>(f: (H, H) -> H, s: seq<Slot<H>>, level: seq<H>, has: seq<bool>, i: nat)
    requires IsTree(s, |level|) && |has| == |level| && i < |level|
    requires LevelBuilt(s, level, has[i := true])
    requires |level| >= 2 ==> Built(f, s[|level|..], Next(f, level), BothBelow(has))
    ensures Built(f, Complete(f, s, |level|, i), level, has[i := true])
    decreases |level|
  {
    hide Complete, TreeSize;
    var n, has' := |level|, has[i := true];
    TreeUp(s, n, i);
    if n < 2 {
      CompleteEnd(f, s, n, i);
    } else {
      BothBelowUpdate(has, i);
      var above, up := BothBelow(has), s[n..];
      if (Sibling(i) < n && !s[Sibling(i)].present) || s[n + i / 2].present {
        CompleteEnd(f, s, n, i);
        assert s[n + i / 2] == up[i / 2];
        assert BothBelow(has') == above;
      } else {
        ParentIsGenuine(f, s, level, has', i);
        var x := Slot(true, ParentHash(f, s, n, i / 2));
        CompleteParent(f, s, n, i, x);
        var u := up[i / 2 := x];
        StoredAbove(f, up, u, Next(f, level), above, i / 2);
        CompleteBuilt(f, u, Next(f, level), above, i / 2);
        var t := Complete(f, s, n, i);
        assert t[n..] == Complete(f, u, Up(n), i / 2);
        assert t[..n] == s[..n];
      }
    }
  }

  lemma StoreLeafBuilt<H>(f: (H, H) -> H, s: seq<Slot<H>>, leaves: seq<H>, has: seq<bool>, i: nat)
    requires IsTree(s, |leaves|) && |has| == |leaves| && i < |leaves|
    requires Built(f, s, leaves, has)
    ensures Built(f, StoreLeaf(f, s, |leaves|, i, leaves[i]), leaves, has[i := true])
  {
    var s' := s[i := Slot(true, leaves[i])];
    assert s'[|leaves|..] == s[|leaves|..];
    CompleteBuilt(f, s', leaves, has, i);
  }

  predicate AreIndices(order: seq<nat>, n: nat) {
    forall p :: 0 <= p < |order| ==> order[p] < n
  }

  /** The tree after storing the genuine hashes of the leaves listed in `order`. */
  function Fill<H>(f: (H, H) -> H, zero: H, leaves: seq<H>, order: seq<nat>): (r: seq<Slot<H>>)
    requires leaves != [] && AreIndices(order, |leaves|)
    ensures |r| == TreeSize(|leaves|)
    decreases |order|
  {
    if order == [] then Empty(|leaves|, zero)
    else
      var i := order[|order| - 1];
      StoreLeaf(f, Fill(f, zero, leaves, order[..|order| - 1]), |leaves|, i, leaves[i])
  }

  ghost function Listed(n: nat, order: seq<nat>): (r: seq<bool>)
    ensures |r| == n
  {
    seq(n, k requires 0 <= k < n => k in order)
  }

  ghost predicate AllListed(n: nat, order: seq<nat>) {
    forall k :: 0 <= k < n ==> Listed(n, order)[k]
  }

  lemma {:induction false} EmptyBuilt<H>(f: (H, H) -> H, s: seq<Slot<H>>, level: seq<H>)
    requires IsTree(s, |level|) && forall k :: 0 <= k < |s| ==> !s[k].present
    ensures Built(f, s, level, seq(|level|, _ => false))
    decreases |level|
  {
    if |level| >= 2 {
      EmptyBuilt(f, s[|level|..], Next(f, level));
      assert BothBelow(seq(|level|, _ => false)) == seq(Up(|level|), _ => false);
    }
  }

  lemma {:induction false} FillBuilt<H>(f: (H, H) -> H, zero: H, leaves: seq<H>, order: seq<nat>)
    requires leaves != [] && AreIndices(order, |leaves|)
    ensures Built(f, Fill(f, zero, leaves, order), leaves, Listed(|leaves|, order))
    decreases |order|
  {
    var n := |leaves|;
    if order == [] {
      EmptyBuilt(f, Empty(n, zero), leaves);
      assert Listed(n, order) == seq(n, _ => false);
    } else {
      var i, before := order[|order| - 1], order[..|order| - 1];
      FillBuilt(f, zero, leaves, before);
      StoreLeafBuilt(f, Fill(f, zero, leaves, before), leaves, Listed(n, before), i);
      assert order == before + [i];
      assert Listed(n, order) == Listed(n, before)[i := true];
    }
  }

  /** Position of node `j` of level `k` in the flat layout, and the width of that level. */
  function Width(n: nat, k: nat): nat
    decreases k
  {
    if k == 0 then n else Width(Up(n), k - 1)
  }

  predicate HasLevel(n: nat, k: nat)
    decreases k
  {
    k == 0 || (n >= 2 && HasLevel(Up(n), k - 1))
  }

  function Base(n: nat, k: nat): nat
    decreases k
  {
    if k == 0 then 0 else n + Base(Up(n), k - 1)
  }

  lemma {:induction false} LevelFits(n: nat, k: nat)
    requires n >= 1 && HasLevel(n, k)
    ensures Width(n, k) >= 1 && Base(n, k) + Width(n, k) <= TreeSize(n)
    ensures Width(n, k) == 1 ==> Base(n, k) + 1 == TreeSize(n)
    decreases k
  {
    if k > 0 { LevelFits(Up(n), k - 1); }
  }

  /** All leaves below node `j` of level `k` are set; these are the leaves `x` with `x / 2^k == j`. */
  ghost predicate AllLeaves(has: seq<bool>, k: nat, j: nat) {
    forall x :: 0 <= x < |has| && x / Pow2(k) == j ==> has[x]
  }

  lemma HalfDiv(x: nat, m: nat)
    requires m >= 1
    ensures (x / 2) / m == x / (2 * m)
  {
    var q, r := x / (2 * m), x % (2 * m);
    assert x == (2 * m) * q + r;
    assert x / 2 == m * q + r / 2 by { assert (2 * m) * q == 2 * (m * q); }
    DivUnique(x / 2, m, q, r / 2);
  }

  lemma DivUnique(a: int, m: int, q: int, r: int)
    requires m >= 1 && a == m * q + r && 0 <= r < m
    ensures a / m == q
  {
    var d := a / m - q;
    assert d * m == m * (a / m) - m * q;
    assert -m < d * m < m;
    assert (d >= 1 ==> d * m >= m) && (d <= -1 ==> d * m <= -m);
  }

  lemma AllLeavesStep(has: seq<bool>, k: nat, j: nat)
    requires k >= 1
    ensures AllLeaves(has, k, j) <==> AllLeaves(BothBelow(has), k - 1, j)
  {
    var up, m := BothBelow(has), Pow2(k - 1);
    if AllLeaves(has, k, j) {
      forall y | 0 <= y < |up| && y / m == j ensures up[y] {
        HalfDiv(2 * y, m);
        HalfDiv(2 * y + 1, m);
      }
    }
    if AllLeaves(up, k - 1, j) {
      forall x | 0 <= x < |has| && x / Pow2(k) == j ensures has[x] {
        HalfDiv(x, m);
        assert up[x / 2];
        assert x == 2 * (x / 2) || x == 2 * (x / 2) + 1;
      }
    }
  }

  /** Closed form of the invariant: node `j` of level `k` is present exactly when every leaf below it is
      set, and then it carries the hash of that node of the genuine tree. */
  lemma {:induction false} BuiltNode<H>(f: (H, H) -> H, s: seq<Slot<H>>, level: seq<H>, has: seq<bool>, k: nat, j: nat)
    requires IsTree(s, |level|) && |has| == |level| && Built(f, s, level, has)
    requires HasLevel(|level|, k) && j < Width(|level|, k)
    ensures Base(|level|, k) + j < |s| && j < |LevelAt(f, level, k)|
    ensures s[Base(|level|, k) + j].present <==> AllLeaves(has, k, j)
    ensures s[Base(|level|, k) + j].present ==> s[Base(|level|, k) + j].hash == LevelAt(f, level, k)[j]
    decreases k
  {
    if k == 0 {
      assert forall x :: 0 <= x < |has| ==> x / Pow2(0) == x;
    } else {
      BuiltNode(f, s[|level|..], Next(f, level), BothBelow(has), k - 1, j);
      AllLeavesStep(has, k, j);
    }
  }

  /** Main result for local hashing: after storing leaves in any order, with any repetitions, a node is
      present exactly when all its leaves have been stored, and it is genuine. */
  lemma FillNode<H>(f: (H, H) -> H, zero: H, leaves: seq<H>, order: seq<nat>, k: nat, j: nat)
    requires leaves != [] && AreIndices(order, |leaves|)
    requires HasLevel(|leaves|, k) && j < Width(|leaves|, k)
    ensures var s := Fill(f, zero, leaves, order);
      Base(|leaves|, k) + j < |s| && j < |LevelAt(f, leaves, k)| &&
      (s[Base(|leaves|, k) + j].present <==> AllLeaves(Listed(|leaves|, order), k, j)) &&
      (s[Base(|leaves|, k) + j].present ==> s[Base(|leaves|, k) + j].hash == LevelAt(f, leaves, k)[j])
  {
    FillBuilt(f, zero, leaves, order);
    BuiltNode(f, Fill(f, zero, leaves, order), leaves, Listed(|leaves|, order), k, j);
  }

  /** Every node of a completely built tree is present and genuine, the last slot being the root. */
  lemma {:induction false} CompleteRoot<H>(f: (H, H) -> H, s: seq<Slot<H>>, level: seq<H>, has: seq<bool>)
    requires IsTree(s, |level|) && |has| == |level| && Built(f, s, level, has)
    requires forall k :: 0 <= k < |has| ==> has[k]
    ensures s[|s| - 1] == Slot(true, Root(f, level))
    decreases |level|
  {
    if |level| >= 2 {
      CompleteRoot(f, s[|level|..], Next(f, level), BothBelow(has));
    }
  }

  lemma FillRoot<H>(f: (H, H) -> H, zero: H, leaves: seq<H>, order: seq<nat>)
    requires leaves != [] && AreIndices(order, |leaves|)
    requires AllListed(|leaves|, order)
    ensures Fill(f, zero, leaves, order)[TreeSize(|leaves|) - 1] == Slot(true, Root(f, leaves))
  {
    hide Fill, Built, Root, TreeSize;
    FillBuilt(f, zero, leaves, order);
    CompleteRoot(f, Fill(f, zero, leaves, order), leaves, Listed(|leaves|, order));
  }
}
