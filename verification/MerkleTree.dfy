/** The mutable tree: every level in one array, updated in place. */
module MerkleTrees {
  import opened MerkleLevels
  import opened MerkleFlat
  import opened MerkleSoundness

  /** Number of slots needed for `v` leaves. */
  method MerkleTreeSize(v: nat) returns (r: nat)
    ensures r == TreeSize(v)
  {
    var w := v;
    r := 0;
    while w > 1
      invariant r + TreeSize(w) == TreeSize(v)
    {
      r := r + w;
      w := w + 1;
      w := w / 2;
    }
    if w == 1 {
      r := r + 1;
    }
  }

  lemma ProofStep<H>(v: seq<H>, s: seq<Slot<H>>, n: nat, i: nat, c: int)
    requires IsTree(s, n) && i < n && n >= 2 && c != 0
    ensures IsTree(s[n..], Up(n)) && i / 2 < Up(n)
    ensures v + Proof(s, n, i, c) ==
            (if Sibling(i) < n then v + [s[Sibling(i)].hash] else v) + Proof(s[n..], Up(n), i / 2, c - 1)
  {
  }

  lemma ProofEnd<H>(s: seq<Slot<H>>, n: nat, i: nat, c: int)
    requires IsTree(s, n) && i < n && (n < 2 || c == 0)
    ensures Proof(s, n, i, c) == []
  {
  }

  /** The climbing loops as recursions on the whole array: level at offset `a`, of width `n`. */
  ghost predicate TreeAt<H>(s: seq<Slot<H>>, a: nat, n: nat, i: nat) {
    i < n && |s| == a + TreeSize(n)
  }

  ghost function StoreAt<H>(s: seq<Slot<H>>, a: nat, n: nat, i: nat, w: seq<H>): (r: seq<Slot<H>>)
    requires TreeAt(s, a, n, i)
    decreases n
  {
    if n < 2 || w == [] then s
    else if Sibling(i) < n then
      if s[a + Sibling(i)].present then s
      else StoreAt(s[a + Sibling(i) := Slot(true, w[0])], a + n, Up(n), i / 2, w[1..])
    else StoreAt(s, a + n, Up(n), i / 2, w)
  }

  ghost function ParentAt<H>(f: (H, H) -> H, s: seq<Slot<H>>, a: nat, n: nat, l: nat): H
    requires l < n && a + n <= |s|
  {
    if l + 1 < n then f(s[a + l].hash, s[a + l + 1].hash) else s[a + l].hash
  }

  ghost function CompleteAt<H>(f: (H, H) -> H, s: seq<Slot<H>>, a: nat, n: nat, i: nat): (r: seq<Slot<H>>)
    requires TreeAt(s, a, n, i)
    decreases n
  {
    if n < 2 then s
    else if Sibling(i) < n && !s[a + Sibling(i)].present then s
    else if s[a + n + i / 2].present then s
    else CompleteAt(f, s[a + n + i / 2 := Slot(true, ParentAt(f, s, a, n, 2 * (i / 2)))], a + n, Up(n), i / 2)
  }

  lemma TreeWithin<H>(s: seq<Slot<H>>, a: nat, n: nat, i: nat)
    requires TreeAt(s, a, n, i)
    ensures a + n <= |s| && (n >= 2 ==> a + n + i / 2 < |s|)
  {
  }

  lemma TreeAbove<H>(s: seq<Slot<H>>, a: nat, n: nat, i: nat)
    requires TreeAt(s, a, n, i) && n >= 2
    ensures TreeAt(s, a + n, Up(n), i / 2) && a + n + i / 2 < |s|
  {
  }

  /** One iteration of the loops, case by case. */
  lemma StoreAtPromoted<H>(s: seq<Slot<H>>, a: nat, n: nat, i: nat, w: seq<H>)
    requires TreeAt(s, a, n, i) && n >= 2 && w != [] && Sibling(i) >= n
    ensures TreeAt(s, a + n, Up(n), i / 2)
    ensures StoreAt(s, a, n, i, w) == StoreAt(s, a + n, Up(n), i / 2, w)
  {
  }

  lemma StoreAtSibling<H>(s: seq<Slot<H>>, a: nat, n: nat, i: nat, w: seq<H>, t: seq<Slot<H>>)
    requires TreeAt(s, a, n, i) && n >= 2 && w != [] && Sibling(i) < n && a + n <= |s|
    requires !s[a + Sibling(i)].present && t == s[a + Sibling(i) := Slot(true, w[0])]
    ensures TreeAt(t, a + n, Up(n), i / 2)
    ensures StoreAt(s, a, n, i, w) == StoreAt(t, a + n, Up(n), i / 2, w[1..])
  {
  }

  lemma CompleteAtParent<H>(f: (H, H) -> H, s: seq<Slot<H>>, a: nat, n: nat, i: nat, t: seq<Slot<H>>)
    requires TreeAt(s, a, n, i) && n >= 2 && a + n + i / 2 < |s|
    requires (Sibling(i) < n ==> s[a + Sibling(i)].present) && !s[a + n + i / 2].present
    requires t == s[a + n + i / 2 := Slot(true, ParentAt(f, s, a, n, 2 * (i / 2)))]
    ensures TreeAt(t, a + n, Up(n), i / 2)
    ensures CompleteAt(f, s, a, n, i) == CompleteAt(f, t, a + n, Up(n), i / 2)
  {
  }

  lemma StoreAtEnd<H>(s: seq<Slot<H>>, a: nat, n: nat, i: nat, w: seq<H>)
    requires TreeAt(s, a, n, i) && a + n <= |s|
    requires n < 2 || w == [] || (Sibling(i) < n && s[a + Sibling(i)].present)
    ensures StoreAt(s, a, n, i, w) == s
  {
  }

  lemma CompleteAtEnd<H>(f: (H, H) -> H, s: seq<Slot<H>>, a: nat, n: nat, i: nat)
    requires TreeAt(s, a, n, i) && a + n <= |s|
    requires n < 2 || (Sibling(i) < n && !s[a + Sibling(i)].present) ||
             (a + n + i / 2 < |s| && s[a + n + i / 2].present)
    ensures CompleteAt(f, s, a, n, i) == s
  {
  }

  /** Splitting off the level at offset `a` on both sides. */
  lemma Glue<T>(whole: seq<T>, below: seq<T>, level: seq<T>, above: seq<T>, tree: seq<T>, s: seq<T>, n: nat)
    requires n <= |s| && s[..n] == below + level && whole == s[..n] + above && tree == level + above
    ensures whole == below + tree
  {
  }

  /** Induction steps: what holds of the array above the level holds of the array from the level up. */
  lemma PromotedCase<H>(s: seq<Slot<H>>, a: nat, n: nat, i: nat, w: seq<H>)
    requires TreeAt(s, a, n, i) && n >= 2 && w != [] && Sibling(i) >= n && TreeAt(s, a + n, Up(n), i / 2)
    requires StoreAt(s, a + n, Up(n), i / 2, w) == s[..a + n] + StoreSiblings(s[a + n..], Up(n), i / 2, w)
    ensures StoreAt(s, a, n, i, w) == s[..a] + StoreSiblings(s[a..], n, i, w)
  {
    hide StoreAt, StoreSiblings, TreeSize;
    var p := s[a..];
    StoreAtPromoted(s, a, n, i, w);
    StorePromoted(p, n, i, w);
    assert s[a + n..] == p[n..];
    Glue(StoreAt(s, a, n, i, w), s[..a], p[..n], StoreSiblings(p[n..], Up(n), i / 2, w), StoreSiblings(p, n, i, w),
      s, a + n);
  }

  lemma SiblingCase<H>(s: seq<Slot<H>>, a: nat, n: nat, i: nat, w: seq<H>, x: Slot<H>, t: seq<Slot<H>>)
    requires TreeAt(s, a, n, i) && n >= 2 && w != [] && Sibling(i) < n && a + n <= |s|
    requires !s[a + Sibling(i)].present && x == Slot(true, w[0]) && t == s[a + Sibling(i) := x]
    requires TreeAt(t, a + n, Up(n), i / 2)
    requires StoreAt(t, a + n, Up(n), i / 2, w[1..]) == t[..a + n] + StoreSiblings(t[a + n..], Up(n), i / 2, w[1..])
    ensures StoreAt(s, a, n, i, w) == s[..a] + StoreSiblings(s[a..], n, i, w)
  {
    hide StoreAt, StoreSiblings, TreeSize;
    var p := s[a..];
    StoreAtSibling(s, a, n, i, w, t);
    StoreSibling(p, n, i, w, x);
    assert t[a + n..] == p[n..];
    Glue(StoreAt(s, a, n, i, w), s[..a], p[..n][Sibling(i) := x], StoreSiblings(p[n..], Up(n), i / 2, w[1..]),
      StoreSiblings(p, n, i, w), t, a + n);
  }

  lemma ParentCase<H>(f: (H, H) -> H, s: seq<Slot<H>>, a: nat, n: nat, i: nat, x: Slot<H>, t: seq<Slot<H>>)
    requires TreeAt(s, a, n, i) && n >= 2 && a + n + i / 2 < |s| && i / 2 < Up(n) && 2 * (i / 2) < n
    requires (Sibling(i) < n ==> s[a + Sibling(i)].present) && !s[a + n + i / 2].present
    requires x == Slot(true, ParentAt(f, s, a, n, 2 * (i / 2))) && t == s[a + n + i / 2 := x]
    requires TreeAt(t, a + n, Up(n), i / 2)
    requires CompleteAt(f, t, a + n, Up(n), i / 2) == t[..a + n] + Complete(f, t[a + n..], Up(n), i / 2)
    ensures CompleteAt(f, s, a, n, i) == s[..a] + Complete(f, s[a..], n, i)
  {
    hide CompleteAt, Complete, TreeSize;
    var p := s[a..];
    assert x.hash == ParentHash(f, p, n, i / 2);
    CompleteAtParent(f, s, a, n, i, t);
    CompleteParent(f, p, n, i, x);
    assert t[a + n..] == p[n..][i / 2 := x];
    Glue(CompleteAt(f, s, a, n, i), s[..a], p[..n], Complete(f, p[n..][i / 2 := x], Up(n), i / 2),
         Complete(f, p, n, i), t, a + n);
  }

  lemma {:induction false} StoreAtIsStore<H>(s: seq<Slot<H>>, a: nat, n: nat, i: nat, w: seq<H>)
    requires TreeAt(s, a, n, i)
    ensures StoreAt(s, a, n, i, w) == s[..a] + StoreSiblings(s[a..], n, i, w)
    decreases n
  {
    hide StoreAt, StoreSiblings, TreeSize;
    TreeWithin(s, a, n, i);
    if n < 2 || w == [] || (Sibling(i) < n && s[a + Sibling(i)].present) {
      StoreAtEnd(s, a, n, i, w);
      StoreEnd(s[a..], n, i, w);
      assert s[..a] + s[a..] == s;
    } else if Sibling(i) >= n {
      TreeAbove(s, a, n, i);
      StoreAtIsStore(s, a + n, Up(n), i / 2, w);
      PromotedCase(s, a, n, i, w);
    } else {
      var x := Slot(true, w[0]);
      var t := s[a + Sibling(i) := x];
      TreeAbove(t, a, n, i);
      StoreAtIsStore(t, a + n, Up(n), i / 2, w[1..]);
      SiblingCase(s, a, n, i, w, x, t);
    }
  }

  lemma {:induction false} CompleteAtIsComplete<H>(f: (H, H) -> H, s: seq<Slot<H>>, a: nat, n: nat, i: nat)
    requires TreeAt(s, a, n, i)
    ensures CompleteAt(f, s, a, n, i) == s[..a] + Complete(f, s[a..], n, i)
    decreases n
  {
    hide CompleteAt, Complete, TreeSize;
    TreeWithin(s, a, n, i);
    if n < 2 || (Sibling(i) < n && !s[a + Sibling(i)].present) || s[a + n + i / 2].present {
      CompleteAtEnd(f, s, a, n, i);
      CompleteEnd(f, s[a..], n, i);
      assert s[..a] + s[a..] == s;
    } else {
      var x := Slot(true, ParentAt(f, s, a, n, 2 * (i / 2)));
      var t := s[a + n + i / 2 := x];
      TreeAbove(t, a, n, i);
      CompleteAtIsComplete(f, t, a + n, Up(n), i / 2);
      ParentCase(f, s, a, n, i, x, t);
    }
  }

  lemma SetLeafGoal<H>(f: (H, H) -> H, s: seq<Slot<H>>, n: nat, i: nat, v: H)
    requires IsTree(s, n) && i < n
    ensures TreeAt(s[i := Slot(true, v)], 0, n, i)
    ensures CompleteAt(f, s[i := Slot(true, v)], 0, n, i) == StoreLeaf(f, s, n, i, v)
  {
    var t := s[i := Slot(true, v)];
    CompleteAtIsComplete(f, t, 0, n, i);
    assert t[0..] == t && t[..0] == [];
  }

  lemma SetProofGoal<H>(s: seq<Slot<H>>, n: nat, i: nat, v: H, w: seq<H>)
    requires IsTree(s, n) && i < n
    ensures TreeAt(s[i := Slot(true, v)], 0, n, i)
    ensures StoreAt(s[i := Slot(true, v)], 0, n, i, w) == StoreProof(s, n, i, v, w)
  {
    var t := s[i := Slot(true, v)];
    StoreAtIsStore(t, 0, n, i, w);
    assert t[0..] == t && t[..0] == [];
  }

  class MerkleTree<H(==, !new)> {
    const node: (H, H) -> H
    const zero: H
    var size: nat
    var d: array<Slot<H>>

    ghost predicate Valid()
      reads this
    {
      d.Length == TreeSize(size)
    }

    /** The abstract value: all slots in order. */
    ghost function Slots(): (s: seq<Slot<H>>)
      reads this, d
      requires Valid()
      ensures |s| == TreeSize(size)
    {
      d[..]
    }

    /** The tree is a receiver for the file with these leaf hashes and can be trusted for it. */
    ghost predicate Trusted(leaves: seq<H>)
      reads this, d
    {
      Valid() && |leaves| == size >= 1 && Sound(node, Slots(), leaves, NoShield(size)) &&
      Slots()[TreeSize(size) - 1] == Slot(true, Root(node, leaves))
    }

    constructor (node: (H, H) -> H, zero: H)
      ensures Valid() && fresh(d) && size == 0 && this.node == node && this.zero == zero
    {
      this.node := node;
      this.zero := zero;
      size := 0;
      d := new Slot<H>[0];
    }

    method Resize(v: nat)
      modifies this
      ensures Valid() && fresh(d) && size == v
      ensures Slots() == Empty(v, zero)
    {
      var r := MerkleTreeSize(v);
      size := v;
      var z := Slot(false, zero);
      d := new Slot<H>[r](_ => z);
      assert d[..] == Empty(v, zero);
    }

    method Invalidate()
      requires Valid()
      modifies d
      ensures Slots() == Empty(size, zero)
    {
      var k := 0;
      while k < d.Length
        invariant k <= d.Length
        invariant forall p :: 0 <= p < k ==> d[p] == Slot(false, zero)
      {
        d[k] := Slot(false, zero);
        k := k + 1;
      }
      assert d[..] == Empty(size, zero);
    }

    /** In a trusted tree this is the root of the file at any time, whatever claims came in. */
    method GetRoot() returns (h: H)
      requires Valid() && size >= 1
      ensures h == Slots()[TreeSize(size) - 1].hash
      ensures forall leaves :: Trusted(leaves) ==> h == Root(node, leaves)
    {
      h := d[d.Length - 1].hash;
    }

    method SetRoot(v: H)
      requires Valid() && size >= 1
      modifies d
      ensures Slots() == old(Slots())[TreeSize(size) - 1 := Slot(true, v)]
      ensures old(Slots()) == Empty(size, zero) ==>
        forall leaves :: |leaves| == size && Root(node, leaves) == v ==> Trusted(leaves)
    {
      d[d.Length - 1] := Slot(true, v);
      if old(Slots()) == Empty(size, zero) {
        forall leaves | |leaves| == size && Root(node, leaves) == v ensures Trusted(leaves) {
          OnlyRootSound(node, Slots(), leaves);
        }
      }
    }

    method Has(i: nat) returns (b: bool)
      requires Valid() && i < size
      ensures b == Slots()[i].present
    {
      b := d[i].present;
    }

    method Get(i: nat) returns (h: H)
      requires Valid() && i < size
      ensures h == Slots()[i].hash
    {
      h := d[i].hash;
    }

    method GetProof(i0: nat, c0: int) returns (v: seq<H>)
      requires Valid() && i0 < size
      ensures v == Proof(Slots(), size, i0, c0)
    {
      v := [];
      var i, c, a, b := i0, c0, 0, size;
      hide Proof;
      ghost var goal, p := Proof(d[..], size, i0, c0), d[..];
      while b - a >= 2 && c != 0
        invariant 0 <= a <= b <= d.Length && p == d[a..] && IsTree(p, b - a) && 0 <= i < b - a
        invariant v + Proof(p, b - a, i, c) == goal
        decreases b - a
      {
        ProofStep(v, p, b - a, i, c);
        c := c - 1;
        var j := Sibling(i);
        if a + j < b {
          v := v + [d[a + j].hash];
        }
        p := p[b - a..];
        a, b, i := b, b + (b - a + 1) / 2, i / 2;
      }
      ProofEnd(p, b - a, i, c);
    }

    /** Does claim (i, v, w) check against the stored nodes? */
    method TestProof(i0: nat, v: H, w: seq<H>) returns (ok: bool)
      requires Valid() && i0 < size
      ensures ok == Test(node, Slots(), size, i0, v, w)
    {
      var i, a, b, z, h := i0, 0, size, 0, v;
      while true
        invariant 0 <= a <= b <= d.Length && IsTree(d[a..], b - a) && 0 <= i < b - a && 0 <= z <= |w|
        invariant Test(node, d[a..], b - a, i, h, w[z..]) == Test(node, d[..], size, i0, v, w)
        decreases b - a
      {
        if d[a + i].present {
          return h == d[a + i].hash;
        }
        if b - a < 2 || z + 1 > |w| {
          return false;
        }
        var j := Sibling(i);
        assert d[a..][b - a..] == d[b..];
        if a + j < b {
          assert w[z..][1..] == w[z + 1..];
          h := if i < j then node(h, w[z]) else node(w[z], h);
          z := z + 1;
        }
        a, b, i := b, b + (b - a + 1) / 2, i / 2;
      }
    }

    /** Stores the parent of node `i` of the level from `a` to `b`, whose children are there. */
    method SetParent(a: nat, b: nat, i: nat)
      requires Valid() && a <= b && b - a >= 2 && TreeAt(Slots(), a, b - a, i) && b + i / 2 < d.Length
      requires (Sibling(i) < b - a ==> Slots()[a + Sibling(i)].present) && !Slots()[b + i / 2].present
      modifies d
      ensures TreeAt(Slots(), b, Up(b - a), i / 2)
      ensures CompleteAt(node, Slots(), b, Up(b - a), i / 2) == CompleteAt(node, old(Slots()), a, b - a, i)
    {
      hide CompleteAt, TreeSize;
      TreeWithin(d[..], a, b - a, i);
      var j := Sibling(i);
      var l := if i > j then j else i;
      assert l == 2 * (i / 2);
      var h := if a + l + 1 < b then node(d[a + l].hash, d[a + l + 1].hash) else d[a + l].hash;
      ghost var before := d[..];
      assert h == ParentAt(node, before, a, b - a, l);
      d[b + i / 2] := Slot(true, h);
      CompleteAtParent(node, before, a, b - a, i, d[..]);
    }

    /** Stores leaf `i` and completes the ancestors it makes computable. */
    method SetLeaf(i0: nat, v: H)
      requires Valid() && i0 < size
      modifies d
      ensures Slots() == StoreLeaf(node, old(Slots()), size, i0, v)
    {
      hide StoreLeaf, CompleteAt, TreeSize;
      SetLeafGoal(node, d[..], size, i0, v);
      d[i0] := Slot(true, v);
      var i, a, b := i0, 0, size;
      ghost var goal := CompleteAt(node, d[..], 0, size, i0);
      while b - a >= 2
        invariant 0 <= a <= b && 0 <= i && TreeAt(d[..], a, b - a, i)
        invariant CompleteAt(node, d[..], a, b - a, i) == goal
        decreases b - a
      {
        var j := Sibling(i);
        TreeAbove(d[..], a, b - a, i);
        if a + j < b && !d[a + j].present {
          break;
        }
        if d[b + i / 2].present {
          break;
        }
        SetParent(a, b, i);
        a, b, i := b, b + (b - a + 1) / 2, i / 2;
      }
      CompleteAtEnd(node, d[..], a, b - a, i);
    }

    /** Stores leaf `i` and the siblings of its proof. */
    method SetProof(i0: nat, v: H, w: seq<H>)
      requires Valid() && i0 < size
      modifies d
      ensures Slots() == StoreProof(old(Slots()), size, i0, v, w)
    {
      hide StoreProof, StoreAt, TreeSize;
      SetProofGoal(d[..], size, i0, v, w);
      var i, a, b, z := i0, 0, size, 0;
      d[a + i] := Slot(true, v);
      ghost var goal := StoreAt(d[..], 0, size, i0, w);
      assert w[0..] == w;
      while b - a >= 2 && z + 1 <= |w|
        invariant 0 <= a <= b && 0 <= i && TreeAt(d[..], a, b - a, i)
        invariant 0 <= z <= |w| && StoreAt(d[..], a, b - a, i, w[z..]) == goal
        decreases b - a
      {
        var j := Sibling(i);
        TreeAbove(d[..], a, b - a, i);
        if a + j < b {
          if d[a + j].present {
            StoreAtEnd(d[..], a, b - a, i, w[z..]);
            return;
          }
          ghost var before := d[..];
          d[a + j] := Slot(true, w[z]);
          StoreAtSibling(before, a, b - a, i, w[z..], d[..]);
          z := z + 1;
          assert w[z - 1..][1..] == w[z..];
        } else {
          StoreAtPromoted(d[..], a, b - a, i, w[z..]);
        }
        a, b, i := b, b + (b - a + 1) / 2, i / 2;
      }
      StoreAtEnd(d[..], a, b - a, i, w[z..]);
    }

    /** Checks a claim from a peer and stores it if it checks.  A trusted tree stays trusted, and then an
        accepted leaf hash is the genuine one. */
    method TestAndSet(i: nat, v: H, w: seq<H>) returns (ok: bool)
      requires Valid() && i < size
      modifies d
      ensures ok == Test(node, old(Slots()), size, i, v, w)
      ensures Slots() == TestAndStore(node, old(Slots()), size, i, v, w)
      ensures ok ==> Slots()[i] == Slot(true, v)
      ensures forall leaves :: old(Trusted(leaves)) && NoSecondPreimage(node, leaves) ==>
        Trusted(leaves) && (ok ==> v == leaves[i])
    {
      ok := TestProof(i, v, w);
      if ok {
        SetProof(i, v, w);
        StoreSiblingsKeepsNode(old(Slots()), size, i, v, w);
      }
      forall leaves | old(Trusted(leaves)) && NoSecondPreimage(node, leaves)
        ensures Trusted(leaves) && (ok ==> v == leaves[i])
      {
        TestAndStoreSound(node, old(Slots()), leaves, i, v, w);
        RootStays(node, old(Slots()), size, i, v, w);
      }
    }
  }
}
