/** All levels of a Merkle tree in one flat sequence: leaves first, root last.

    Dropping the leaf level of a flat tree leaves the flat tree of the level above, so every climbing
    loop of the source is a recursion on `s[n..]`.  A node is absent until it is stored. */
module MerkleFlat {
  import opened MerkleLevels

  datatype Slot<H> = Slot(present: bool, hash: H)

  /** Number of slots of a flat tree with `n` leaves. */
  function TreeSize(n: nat): (r: nat)
    ensures r >= n
  {
    if n <= 1 then n else n + TreeSize(Up(n))
  }

  ghost predicate IsTree<H>(s: seq<Slot<H>>, n: nat) {
    n >= 1 && |s| == TreeSize(n)
  }

  /** Does the claimed hash `h` of node `i`, combined with the siblings `w`, reach the first present
      ancestor-or-self of `i` with exactly the hash stored there? */
  predicate Test<H(==)>(f: (H, H) -> H, s: seq<Slot<H>>, n: nat, i: nat, h: H, w: seq<H>)
    requires IsTree(s, n) && i < n
    decreases n
  {
    if s[i].present then h == s[i].hash
    else if n < 2 || w == [] then false
    else if Sibling(i) < n then Test(f, s[n..], Up(n), i / 2, Join(f, i, h, w[0]), w[1..])
    else Test(f, s[n..], Up(n), i / 2, h, w)
  }

  /** Stores the siblings `w` along the path of node `i`, stopping at the first one already present. */
  function StoreSiblings<H>(s: seq<Slot<H>>, n: nat, i: nat, w: seq<H>): (r: seq<Slot<H>>)
    requires IsTree(s, n) && i < n
    ensures |r| == |s|
    decreases n
  {
    if n < 2 || w == [] then s
    else if Sibling(i) < n then
      if s[Sibling(i)].present then s
      else s[..n][Sibling(i) := Slot(true, w[0])] + StoreSiblings(s[n..], Up(n), i / 2, w[1..])
    else s[..n] + StoreSiblings(s[n..], Up(n), i / 2, w)
  }

  /** Stores leaf `i` and its proof. */
  function StoreProof<H>(s: seq<Slot<H>>, n: nat, i: nat, v: H, w: seq<H>): (r: seq<Slot<H>>)
    requires IsTree(s, n) && i < n
    ensures |r| == |s|
  {
    StoreSiblings(s[i := Slot(true, v)], n, i, w)
  }

  /** Stores leaf `i` and its proof if the proof checks, and nothing otherwise. */
  function TestAndStore<H(==)>(f: (H, H) -> H, s: seq<Slot<H>>, n: nat, i: nat, v: H, w: seq<H>): (r: seq<Slot<H>>)
    requires IsTree(s, n) && i < n
    ensures |r| == |s|
  {
    if Test(f, s, n, i, v, w) then StoreProof(s, n, i, v, w) else s
  }

  /** The siblings of node `i` on at most `c` levels (a negative `c` sets no limit). */
  function Proof<H>(s: seq<Slot<H>>, n: nat, i: nat, c: int): (r: seq<H>)
    requires IsTree(s, n) && i < n
    decreases n
  {
    if n < 2 || c == 0 then []
    else (if Sibling(i) < n then [s[Sibling(i)].hash] else []) + Proof(s[n..], Up(n), i / 2, c - 1)
  }

  /** Hash a node's parent gets from the stored hashes of its one or two children. */
  function ParentHash<H>(f: (H, H) -> H, s: seq<Slot<H>>, n: nat, p: nat): H
    requires n <= |s| && 2 * p < n
  {
    if 2 * p + 1 < n then f(s[2 * p].hash, s[2 * p + 1].hash) else s[2 * p].hash
  }

  /** Completes ancestors of node `i` bottom-up while both children are present. */
  function Complete<H>(f: (H, H) -> H, s: seq<Slot<H>>, n: nat, i: nat): (r: seq<Slot<H>>)
    requires IsTree(s, n) && i < n
    ensures |r| == |s|
    decreases n
  {
    if n < 2 then s
    else if Sibling(i) < n && !s[Sibling(i)].present then s
    else if s[n..][i / 2].present then s
    else s[..n] + Complete(f, s[n..][i / 2 := Slot(true, ParentHash(f, s, n, i / 2))], Up(n), i / 2)
  }

  /** Stores leaf `i` and completes the ancestors it makes computable. */
  function StoreLeaf<H>(f: (H, H) -> H, s: seq<Slot<H>>, n: nat, i: nat, v: H): (r: seq<Slot<H>>)
    requires IsTree(s, n) && i < n
    ensures |r| == |s|
  {
    Complete(f, s[i := Slot(true, v)], n, i)
  }

  /** A tree in which nothing is present. */
  function Empty<H>(n: nat, zero: H): (s: seq<Slot<H>>)
    ensures |s| == TreeSize(n)
  {
    seq(TreeSize(n), _ => Slot(false, zero))
  }

  /** A tree in which only the root is present. */
  function OnlyRoot<H>(n: nat, zero: H, root: H): (s: seq<Slot<H>>)
    requires n >= 1
    ensures |s| == TreeSize(n)
  {
    Empty(n, zero)[TreeSize(n) - 1 := Slot(true, root)]
  }

  // The definitions above, unfolded once and case by case.

  lemma TreeUp<H>(s: seq<Slot<H>>, n: nat, i: nat)
    requires IsTree(s, n) && i < n
    ensures n <= |s|
    ensures n >= 2 ==> IsTree(s[n..], Up(n)) && i / 2 < Up(n) && n + i / 2 < |s|
  {
  }

  lemma StorePromoted<H>(s: seq<Slot<H>>, n: nat, i: nat, w: seq<H>)
    requires IsTree(s, n) && i < n && n >= 2 && w != [] && Sibling(i) >= n
    ensures IsTree(s[n..], Up(n)) && i / 2 < Up(n)
    ensures StoreSiblings(s, n, i, w) == s[..n] + StoreSiblings(s[n..], Up(n), i / 2, w)
  {
  }

  lemma StoreSibling<H>(s: seq<Slot<H>>, n: nat, i: nat, w: seq<H>, x: Slot<H>)
    requires IsTree(s, n) && i < n && n >= 2 && w != [] && Sibling(i) < n && !s[Sibling(i)].present &&
      x == Slot(true, w[0])
    ensures IsTree(s[n..], Up(n)) && i / 2 < Up(n)
    ensures StoreSiblings(s, n, i, w) == s[..n][Sibling(i) := x] + StoreSiblings(s[n..], Up(n), i / 2, w[1..])
  {
  }

  lemma CompleteParent<H>(f: (H, H) -> H, s: seq<Slot<H>>, n: nat, i: nat, x: Slot<H>)
    requires IsTree(s, n) && i < n && n >= 2 && n + i / 2 < |s| && i / 2 < Up(n) && 2 * (i / 2) < n
    requires (Sibling(i) < n ==> s[Sibling(i)].present) && !s[n + i / 2].present
    requires x == Slot(true, ParentHash(f, s, n, i / 2))
    ensures IsTree(s[n..], Up(n))
    ensures Complete(f, s, n, i) == s[..n] + Complete(f, s[n..][i / 2 := x], Up(n), i / 2)
  {
  }

  lemma StoreEnd<H>(s: seq<Slot<H>>, n: nat, i: nat, w: seq<H>)
    requires IsTree(s, n) && i < n
    requires n < 2 || w == [] || (Sibling(i) < n && s[Sibling(i)].present)
    ensures StoreSiblings(s, n, i, w) == s
  {
  }

  lemma CompleteEnd<H>(f: (H, H) -> H, s: seq<Slot<H>>, n: nat, i: nat)
    requires IsTree(s, n) && i < n
    requires n < 2 || (Sibling(i) < n && !s[Sibling(i)].present) || (n + i / 2 < |s| && s[n + i / 2].present)
    ensures Complete(f, s, n, i) == s
  {
  }
}
