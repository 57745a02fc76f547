/** Hashing the sub-file of a Merkle torrent: its chunks are compared with the leaves of a tree that has the
    torrent's root, or fill a tree that has not. */
module MerkleHashing {
  import opened Basics
  import opened MerkleLevels
  import opened MerkleFlat
  import opened MerkleSoundness
  import opened MerkleBuild
  import opened MerkleStream
  import opened MerkleTrees

  /** The first `j` of `n`. */
  ghost function Prefix(n: nat, j: nat): (has: seq<bool>)
    ensures |has| == n
  {
    seq(n, k => k < j)
  }

  /** A tree being filled: the first `j` leaves of `level` are set, and the root once all are. */
  ghost predicate Filling<H>(f: (H, H) -> H, zero: H, s: seq<Slot<H>>, level: seq<H>, j: nat)
    requires IsTree(s, |level|)
  {
    Built(f, s, level, Prefix(|level|, j)) && (j < |level| ==> s[|s| - 1] == Slot(false, zero))
  }

  lemma FillingStart<H>(f: (H, H) -> H, zero: H, level: seq<H>)
    requires level != []
    ensures Filling(f, zero, Empty(|level|, zero), level, 0)
  {
    EmptyBuilt(f, Empty(|level|, zero), level);
    assert Prefix(|level|, 0) == seq(|level|, _ => false);
  }

  /** Completing ancestors leaves the root as it was or makes it present. */
  lemma {:induction false} CompleteLast<H>(f: (H, H) -> H, s: seq<Slot<H>>, n: nat, i: nat)
    requires IsTree(s, n) && i < n
    ensures Complete(f, s, n, i)[|s| - 1] == s[|s| - 1] || Complete(f, s, n, i)[|s| - 1].present
    decreases n
  {
    hide TreeSize, Complete;
    TreeUp(s, n, i);
    if n < 2 || (Sibling(i) < n && !s[Sibling(i)].present) || s[n + i / 2].present {
      CompleteEnd(f, s, n, i);
    } else {
      var u := s[n..][i / 2 := Slot(true, ParentHash(f, s, n, i / 2))];
      CompleteLast(f, u, Up(n), i / 2);
      CompleteParent(f, s, n, i, Slot(true, ParentHash(f, s, n, i / 2)));
      assert Complete(f, s, n, i)[|s| - 1] == Complete(f, u, Up(n), i / 2)[|u| - 1];
    }
  }

  lemma {:induction false} BuiltLast<H>(f: (H, H) -> H, s: seq<Slot<H>>, level: seq<H>, has: seq<bool>)
    requires IsTree(s, |level|) && |has| == |level| && Built(f, s, level, has)
    ensures s[|s| - 1].present <==> forall k :: 0 <= k < |has| ==> has[k]
    ensures s[|s| - 1].present ==> s[|s| - 1].hash == Root(f, level)
    decreases |level|
  {
    hide BothBelow, Built, TreeSize, Root;
    TreeSizeOne(|level|);
    if |level| >= 2 {
      BuiltStep(f, s, level, has);
      BuiltLast(f, s[|level|..], Next(f, level), BothBelow(has));
      BelowAll(has);
      RootStep(f, level);
      assert s[|level|..][|s| - |level| - 1] == s[|s| - 1];
    } else {
      BuiltOne(f, s, level, has);
    }
  }

  lemma TreeSizeOne(n: nat)
    ensures n == 1 ==> TreeSize(n) == 1
    ensures n >= 2 ==> TreeSize(n) > n
  {
  }

  lemma RootStep<H>(f: (H, H) -> H, level: seq<H>)
    requires |level| >= 2
    ensures Root(f, level) == Root(f, Next(f, level))
  {
  }

  lemma BuiltOne<H>(f: (H, H) -> H, s: seq<Slot<H>>, level: seq<H>, has: seq<bool>)
    requires |level| == |has| == 1 && IsTree(s, 1) && Built(f, s, level, has)
    ensures s[0].present == has[0] && (has[0] ==> s[0].hash == Root(f, level))
  {
  }

  lemma FillingStep<H>(f: (H, H) -> H, zero: H, s: seq<Slot<H>>, level: seq<H>, j: nat)
    requires IsTree(s, |level|) && j < |level| && Filling(f, zero, s, level, j)
    ensures Filling(f, zero, StoreLeaf(f, s, |level|, j, level[j]), level, j + 1)
  {
    hide Built, Complete, TreeSize;
    var n := |level|;
    var t := StoreLeaf(f, s, n, j, level[j]);
    StoreLeafBuilt(f, s, level, Prefix(n, j), j);
    assert Prefix(n, j)[j := true] == Prefix(n, j + 1);
    if j + 1 < n {
      BuiltLast(f, t, level, Prefix(n, j + 1));
      assert !Prefix(n, j + 1)[j + 1];
      CompleteLast(f, s[j := Slot(true, level[j])], n, j);
      TreeSizeOne(n);
    }
  }

  lemma FillingEnd<H>(f: (H, H) -> H, zero: H, s: seq<Slot<H>>, level: seq<H>)
    requires IsTree(s, |level|) && Filling(f, zero, s, level, |level|)
    ensures s[|s| - 1] == Slot(true, Root(f, level))
  {
    BuiltLast(f, s, level, Prefix(|level|, |level|));
  }

  /** The tree has, from leaf `j` on, the leaves `hs`. */
  ghost predicate HasLeaves<H>(s: seq<Slot<H>>, j: nat, hs: seq<H>)
    requires j + |hs| <= |s|
  {
    forall k :: 0 <= k < |hs| ==> s[j + k] == Slot(true, hs[k])
  }

  lemma FileLeavesStep<H>(leaf: seq<byte> -> H, node: (H, H) -> H, r: seq<byte>, cb: nat)
    requires r != [] && cb == Min(|r|, CHUNK)
    ensures FileLeaves(leaf, node, r) == [Root(node, Leaves(leaf, r[..cb]))] + FileLeaves(leaf, node, r[cb..])
  {
    if |r| <= CHUNK {
      assert r[..cb] == r && r[cb..] == [];
    }
  }

  /** A piece stays valid if the tree has leaf `j` and it is `h`. */
  method Compare<H(==, !new)>(tree: MerkleTree<H>, j: nat, h: H, valid0: bool) returns (valid: bool)
    requires tree.Valid() && j < tree.size
    ensures valid <==> valid0 && tree.Slots()[j] == Slot(true, h)
  {
    valid := valid0;
    if valid {
      var has := tree.Has(j);
      var stored := tree.Get(j);
      if !has || h != stored {
        valid := false;
      }
    }
  }

  /** Checks the chunks of one piece, whose bytes are `d`, against the leaves of the tree from `j0` on if the tree
      has the torrent's root, or puts them there.  `level` are the leaves of the data being hashed. */
  method CheckChunks<H(==, !new)>(leaf: seq<byte> -> H, tree: MerkleTree<H>, root: H, d: seq<byte>, readOk: bool,
                                  j0: nat, ghost level: seq<H>) returns (valid: bool, j: nat)
    requires tree.Valid() && |level| == tree.size >= 1 && |d| % SEGMENT == 0
    requires var hs := FileLeaves(leaf, tree.node, d); j0 + |hs| <= |level| && level[j0..j0 + |hs|] == hs
    requires tree.Slots()[TreeSize(tree.size) - 1].hash == root ||
             Filling(tree.node, tree.zero, tree.Slots(), level, j0)
    modifies tree.d
    ensures tree.Valid() && j == j0 + |FileLeaves(leaf, tree.node, d)|
    ensures old(tree.Slots()[TreeSize(tree.size) - 1].hash) == root ==>
      tree.Slots() == old(tree.Slots()) &&
      (valid <==> readOk && HasLeaves(tree.Slots(), j0, FileLeaves(leaf, tree.node, d)))
    ensures old(tree.Slots()[TreeSize(tree.size) - 1].hash) != root ==>
      valid == readOk && Filling(tree.node, tree.zero, tree.Slots(), level, j)
  {
    hide FileLeaves, Filling, StoreLeaf, TreeSize, HasLeaves, Sound, Leaves, Root;
    var top := tree.GetRoot();
    var rootValid := top == root;
    valid := readOk;
    j := j0;
    ghost var hs, slots := FileLeaves(leaf, tree.node, d), tree.Slots();
    var rest := d;
    NothingLeft(leaf, tree.node);
    assert hs[..0] == [];
    HasNone(slots, j0);
    while rest != []
      invariant tree.Valid() && |rest| % SEGMENT == 0 && j0 <= j <= j0 + |hs|
      invariant FileLeaves(leaf, tree.node, rest) == hs[j - j0..]
      invariant rootValid ==> tree.Slots() == slots && (valid <==> readOk && HasLeaves(slots, j0, hs[..j - j0]))
      invariant !rootValid ==> valid == readOk && Filling(tree.node, tree.zero, tree.Slots(), level, j)
      decreases |rest|
    {
      var cb := Min(|rest|, CHUNK);
      var h := ComputeRoot(leaf, tree.node, rest[..cb]);
      FileLeavesStep(leaf, tree.node, rest, cb);
      assert h.value == hs[j - j0] == level[j];
      if rootValid {
        valid := Compare(tree, j, h.value, valid);
        HasOneMore(slots, j0, hs, j - j0);
      } else {
        FillingStep(tree.node, tree.zero, tree.Slots(), level, j);
        tree.SetLeaf(j, h.value);
      }
      rest := rest[cb..];
      j := j + 1;
    }
    assert hs[..j - j0] == hs;
  }

  lemma NothingLeft<H>(leaf: seq<byte> -> H, node: (H, H) -> H)
    ensures FileLeaves(leaf, node, []) == []
  {
  }

  lemma HasNone<H>(s: seq<Slot<H>>, j: nat)
    requires j <= |s|
    ensures HasLeaves(s, j, [])
  {
  }

  lemma HasOneMore<H>(s: seq<Slot<H>>, j: nat, hs: seq<H>, k: nat)
    requires k < |hs| && j + |hs| <= |s|
    ensures HasLeaves(s, j, hs[..k + 1]) <==> HasLeaves(s, j, hs[..k]) && s[j + k] == Slot(true, hs[k])
  {
    if HasLeaves(s, j, hs[..k + 1]) {
      forall i | 0 <= i < k ensures s[j + i] == Slot(true, hs[..k][i]) {
        assert hs[..k + 1][i] == hs[..k][i];
      }
      assert hs[..k + 1][k] == hs[k];
    }
  }
}
