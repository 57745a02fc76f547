/** Which inner nodes of a receiving tree can be trusted: exactly when a peer can plant a wrong hash. */
module MerkleGarbage {
  import opened MerkleLevels
  import opened MerkleFlat
  import opened MerkleSoundness

  /** Every present node, on every level, is genuine. */
  ghost predicate AllGenuine<H>(f: (H, H) -> H, s: seq<Slot<H>>, level: seq<H>)
    requires IsTree(s, |level|)
    decreases |level|
  {
    (forall j :: 0 <= j < |level| && s[j].present ==> s[j].hash == level[j]) &&
    (|level| >= 2 ==> AllGenuine(f, s[|level|..], Next(f, level)))
  }

  /** From node `i` upwards, there is a node with a sibling, and the first such sibling is absent. */
  predicate Gap<H>(s: seq<Slot<H>>, n: nat, i: nat)
    requires IsTree(s, n) && i < n
    decreases n
  {
    n >= 2 && if Sibling(i) < n then !s[Sibling(i)].present else Gap(s[n..], Up(n), i / 2)
  }

  /** There is a gap right above the node where a test of node `i` stops: its first present node. */
  predicate Exposed<H>(s: seq<Slot<H>>, n: nat, i: nat)
    requires IsTree(s, n) && i < n
    decreases n
  {
    if s[i].present then Gap(s, n, i) else n >= 2 && Exposed(s[n..], Up(n), i / 2)
  }

  /** The genuine hash that belongs into the gap. */
  ghost function GapHash<H>(f: (H, H) -> H, level: seq<H>, i: nat): H
    requires i < |level|
    decreases |level|
  {
    if |level| < 2 then level[i]
    else if Sibling(i) < |level| then level[Sibling(i)]
    else GapHash(f, Next(f, level), i / 2)
  }

  ghost function ExposedHash<H>(f: (H, H) -> H, s: seq<Slot<H>>, level: seq<H>, i: nat): H
    requires IsTree(s, |level|) && i < |level|
    decreases |level|
  {
    if s[i].present || |level| < 2 then GapHash(f, level, i)
    else ExposedHash(f, s[|level|..], Next(f, level), i / 2)
  }

  // Without a gap nothing unchecked is stored.

  lemma {:induction false} NoGapNoStore<H>(s: seq<Slot<H>>, n: nat, i: nat, w: seq<H>)
    requires IsTree(s, n) && i < n && !Gap(s, n, i)
    ensures StoreSiblings(s, n, i, w) == s
    decreases n
  {
    if n >= 2 && w != [] && Sibling(i) >= n {
      NoGapNoStore(s[n..], Up(n), i / 2, w);
    }
  }

  lemma LevelOf<H>(f: (H, H) -> H, s: seq<Slot<H>>, t: seq<Slot<H>>, level: seq<H>, i: nat, x: H)
    requires IsTree(s, |level|) && IsTree(t, |level|) && |level| >= 2 && AllGenuine(f, s, level)
    requires IsTree(t[|level|..], Up(|level|)) && AllGenuine(f, t[|level|..], Next(f, level))
    requires forall k :: 0 <= k < |level| ==> t[k] == if k == Sibling(i) then Slot(true, x) else s[k]
    requires Sibling(i) < |level| ==> x == level[Sibling(i)]
    ensures AllGenuine(f, t, level)
  {
  }

  lemma {:induction false} CheckedStore<H(!new)>(f: (H, H) -> H, s: seq<Slot<H>>, level: seq<H>, shield: seq<bool>,
                                                 i: nat, h: H, w: seq<H>)
    requires IsTree(s, |level|) && |shield| == |level| && i < |level|
    requires NoSecondPreimage(f, level) && Sound(f, s, level, shield) && !shield[i]
    requires AllGenuine(f, s, level) && !Exposed(s, |level|, i) && Test(f, s, |level|, i, h, w)
    ensures AllGenuine(f, StoreSiblings(s, |level|, i, w), level)
    decreases |level|
  {
    var n, cover, j := |level|, Cover(s, shield), Sibling(i);
    if s[i].present {
      NoGapNoStore(s, n, i, w);
    } else {
      ShieldOf(cover, i);
      var w' := if j < n then w[1..] else w;
      var h' := if j < n then Join(f, i, h, w[0]) else h;
      CheckedStore(f, s[n..], Next(f, level), BothBelow(cover), i / 2, h', w');
      TestedClaim(f, s[n..], Next(f, level), BothBelow(cover), i / 2, h', w');
      if j < n {
        JoinInjective(f, level, i, h, w[0]);
      }
      var t := StoreOnLevel(s, n, i, w);
      LevelOf(f, s, t, level, i, w[0]);
    }
  }

  // Into a gap anything can be stored.

  lemma {:induction false} GapFilled<H>(f: (H, H) -> H, s: seq<Slot<H>>, level: seq<H>, i: nat, g: H)
    requires IsTree(s, |level|) && i < |level| && Gap(s, |level|, i) && g != GapHash(f, level, i)
    ensures !AllGenuine(f, StoreSiblings(s, |level|, i, [g]), level)
    decreases |level|
  {
    var n := |level|;
    var t := StoreOnLevel(s, n, i, [g]);
    if Sibling(i) < n {
      assert t[Sibling(i)] == Slot(true, g);
    } else {
      GapFilled(f, s[n..], Next(f, level), i / 2, g);
    }
  }

  lemma {:induction false} Planted<H(!new)>(f: (H, H) -> H, s: seq<Slot<H>>, level: seq<H>, shield: seq<bool>,
                                            i: nat, g: H) returns (w: seq<H>)
    requires IsTree(s, |level|) && |shield| == |level| && i < |level|
    requires Sound(f, s, level, shield) && !shield[i]
    requires Exposed(s, |level|, i) && g != ExposedHash(f, s, level, i)
    ensures w != [] && Test(f, s, |level|, i, level[i], w)
    ensures !AllGenuine(f, StoreSiblings(s, |level|, i, w), level)
    decreases |level|
  {
    var n, cover, j := |level|, Cover(s, shield), Sibling(i);
    if s[i].present {
      w := [g];
      GapFilled(f, s, level, i, g);
    } else {
      ShieldOf(cover, i);
      var w' := Planted(f, s[n..], Next(f, level), BothBelow(cover), i / 2, g);
      w := if j < n then [level[j]] + w' else w';
      JoinGenuine(f, level, i);
      var t := StoreOnLevel(s, n, i, w);
      assert j < n ==> w[1..] == w';
    }
  }

  lemma LeafGenuine<H>(f: (H, H) -> H, t: seq<Slot<H>>, level: seq<H>, i: nat)
    requires IsTree(t, |level|) && i < |level|
    ensures AllGenuine(f, t, level) ==> AllGenuine(f, t[i := Slot(true, level[i])], level)
    ensures (t[i].present ==> t[i].hash == level[i]) ==>
            (AllGenuine(f, t, level) <==> AllGenuine(f, t[i := Slot(true, level[i])], level))
  {
    assert t[i := Slot(true, level[i])][|level|..] == t[|level|..];
  }

  /** Exactly when the next claim about leaf `i` can make a tree whose present nodes are all genuine hold a wrong
      hash: there is a gap right above the node where its test stops.  (There are two hashes to choose from.) */
  lemma GarbageIff<H(!new)>(f: (H, H) -> H, s: seq<Slot<H>>, leaves: seq<H>, i: nat, a: H, b: H)
    requires IsTree(s, |leaves|) && i < |leaves| && a != b
    requires NoSecondPreimage(f, leaves) && Sound(f, s, leaves, NoShield(|leaves|)) && AllGenuine(f, s, leaves)
    ensures Exposed(s, |leaves|, i) <==>
            exists v, w :: Test(f, s, |leaves|, i, v, w) &&
              !AllGenuine(f, TestAndStore(f, s, |leaves|, i, v, w), leaves)
  {
    var n, none := |leaves|, NoShield(|leaves|);
    if Exposed(s, n, i) {
      var g := if a != ExposedHash(f, s, leaves, i) then a else b;
      var w := Planted(f, s, leaves, none, i, g);
      StoreSiblingsKeepsNode(s, n, i, leaves[i], w);
      LeafKept(s, n, i, w);
      LeafGenuine(f, StoreSiblings(s, n, i, w), leaves, i);
      assert Test(f, s, n, i, leaves[i], w) && !AllGenuine(f, TestAndStore(f, s, n, i, leaves[i], w), leaves);
    } else {
      forall v, w | Test(f, s, n, i, v, w) ensures AllGenuine(f, TestAndStore(f, s, n, i, v, w), leaves) {
        CheckedStore(f, s, leaves, none, i, v, w);
        TestedClaim(f, s, leaves, none, i, v, w);
        StoreSiblingsKeepsNode(s, n, i, v, w);
        LeafGenuine(f, StoreSiblings(s, n, i, w), leaves, i);
      }
    }
  }

  lemma LeafKept<H>(s: seq<Slot<H>>, n: nat, i: nat, w: seq<H>)
    requires IsTree(s, n) && i < n
    ensures StoreSiblings(s, n, i, w)[i] == s[i]
  {
  }
}
