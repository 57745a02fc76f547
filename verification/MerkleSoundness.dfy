/** Proofs from untrusted peers: what a partly filled tree may be trusted for.

    `leaves` is the genuine leaf level; a node is genuine when it carries the hash that level gives it. */
module MerkleSoundness {
  import opened MerkleLevels
  import opened MerkleFlat

  /** No other pair of hashes collides with the pair `a`, `b`. */
  ghost predicate OnlyPreimage<H(!new)>(f: (H, H) -> H, a: H, b: H) {
    forall x, y :: f(x, y) == f(a, b) ==> x == a && y == b
  }

  ghost predicate PairResists<H(!new)>(f: (H, H) -> H, level: seq<H>, k: nat) {
    2 * k + 1 < |level| ==> OnlyPreimage(f, level[2 * k], level[2 * k + 1])
  }

  /** No other pair of hashes collides with a pair of neighbours of the genuine tree. */
  ghost predicate NoSecondPreimage<H(!new)>(f: (H, H) -> H, level: seq<H>)
    decreases |level|
  {
    |level| < 2 || ((forall k: nat :: PairResists(f, level, k)) && NoSecondPreimage(f, Next(f, level)))
  }

  /** Which nodes of a level are present, or shielded: every leaf below them already meets a present
      node strictly lower down. */
  ghost function Cover<H>(s: seq<Slot<H>>, shield: seq<bool>): (r: seq<bool>)
    requires |shield| <= |s|
    ensures |r| == |shield|
  {
    seq(|shield|, j requires 0 <= j < |shield| => shield[j] || s[j].present)
  }

  ghost predicate PairAgrees(cover: seq<bool>, k: nat) {
    2 * k + 1 < |cover| ==> cover[2 * k] == cover[2 * k + 1]
  }

  ghost predicate PairsAgree(cover: seq<bool>) {
    forall k: nat :: PairAgrees(cover, k)
  }

  ghost predicate LevelGenuine<H>(s: seq<Slot<H>>, level: seq<H>, shield: seq<bool>)
    requires |shield| == |level| <= |s|
  {
    forall j :: 0 <= j < |level| && s[j].present && !shield[j] ==> s[j].hash == level[j]
  }

  /** The invariant of a receiving tree: a present node that is not shielded is genuine, siblings are
      covered together, and every leaf meets a present node. */
  ghost predicate Sound<H>(f: (H, H) -> H, s: seq<Slot<H>>, level: seq<H>, shield: seq<bool>)
    requires IsTree(s, |level|) && |shield| == |level|
    decreases |level|
  {
    LevelGenuine(s, level, shield) &&
    SoundAbove(f, s, level, Cover(s, shield))
  }

  /** The part of `Sound` that depends on the lowest level only through its cover. */
  ghost predicate SoundAbove<H>(f: (H, H) -> H, s: seq<Slot<H>>, level: seq<H>, cover: seq<bool>)
    requires IsTree(s, |level|) && |cover| == |level|
    decreases |level|, 0
  {
    if |level| < 2 then cover[0]
    else PairsAgree(cover) && Sound(f, s[|level|..], Next(f, level), BothBelow(cover))
  }

  ghost function NoShield(n: nat): (r: seq<bool>)
    ensures |r| == n
  {
    seq(n, _ => false)
  }

  /** Covering node `i` and its sibling together shields their parent and nothing else. */
  lemma CoverPair(cover: seq<bool>, cover': seq<bool>, i: nat)
    requires |cover'| == |cover| && i < |cover| && PairsAgree(cover)
    requires forall k :: 0 <= k < |cover| ==> cover'[k] == (cover[k] || k == i || k == Sibling(i))
    ensures PairsAgree(cover')
    ensures BothBelow(cover') == BothBelow(cover)[i / 2 := true]
  {
    forall k: nat ensures PairAgrees(cover', k) {
      assert PairAgrees(cover, k);
    }
  }

  lemma ShieldOf(cover: seq<bool>, i: nat)
    requires i < |cover| && PairsAgree(cover)
    ensures BothBelow(cover)[i / 2] == cover[i]
    ensures Sibling(i) < |cover| ==> cover[Sibling(i)] == cover[i]
  {
    assert PairAgrees(cover, i / 2);
  }

  /** What storing does to the lowest level, and to the rest of the tree. */
  lemma StoreOnLevel<H>(s: seq<Slot<H>>, n: nat, i: nat, w: seq<H>) returns (t: seq<Slot<H>>)
    requires IsTree(s, n) && i < n && n >= 2 && w != [] && (Sibling(i) < n ==> !s[Sibling(i)].present)
    ensures IsTree(s[n..], Up(n)) && i / 2 < Up(n)
    ensures t == StoreSiblings(s, n, i, w) && |t| == |s| >= n
    ensures t[n..] == StoreSiblings(s[n..], Up(n), i / 2, if Sibling(i) < n then w[1..] else w)
    ensures forall k :: 0 <= k < n ==> t[k] == if k == Sibling(i) then Slot(true, w[0]) else s[k]
  {
    t := StoreSiblings(s, n, i, w);
  }

  /** Above the node where a test stopped, overwriting absent siblings by anything keeps a tree sound:
      each of them is shielded. */
  lemma {:induction false} StoreAboveStop<H>(f: (H, H) -> H, s: seq<Slot<H>>, level: seq<H>, shield: seq<bool>,
                                             i: nat, w: seq<H>)
    requires IsTree(s, |level|) && |shield| == |level| && i < |level|
    requires Sound(f, s, level, shield) && Cover(s, shield)[i]
    ensures Sound(f, StoreSiblings(s, |level|, i, w), level, shield)
    decreases |level|
  {
    hide StoreSiblings, TreeSize, Sound, BothBelow;
    var n, cover, j := |level|, Cover(s, shield), Sibling(i);
    TreeUp(s, n, i);
    if n < 2 || w == [] || (j < n && s[j].present) {
      StoreEnd(s, n, i, w);
    } else {
      SoundParts(f, s, level, shield);
      ShieldOf(cover, i);
      var w' := if j < n then w[1..] else w;
      StoreAboveStop(f, s[n..], Next(f, level), BothBelow(cover), i / 2, w');
      var t := StoreOnLevel(s, n, i, w);
      assert Cover(t, shield) == cover;
      MakeSound(f, t, level, shield);
    }
  }

  /** A claim that passes the test is genuine, and storing its siblings keeps the tree sound once node
      `i` itself is covered from below. */
  lemma {:induction false} TestedClaim<H(!new)>(f: (H, H) -> H, s: seq<Slot<H>>, level: seq<H>, shield: seq<bool>,
                                                i: nat, h: H, w: seq<H>)
    requires IsTree(s, |level|) && |shield| == |level| && i < |level|
    requires NoSecondPreimage(f, level)
    requires Sound(f, s, level, shield) && !shield[i]
    requires Test(f, s, |level|, i, h, w)
    ensures h == level[i]
    ensures Sound(f, StoreSiblings(s, |level|, i, w), level, shield[i := true])
    decreases |level|
  {
    hide StoreSiblings, TreeSize, NoSecondPreimage;
    var n, cover, shield' := |level|, Cover(s, shield), shield[i := true];
    TreeUp(s, n, i);
    if s[i].present {
      assert Cover(s, shield') == cover;
      StoreAboveStop(f, s, level, shield', i, w);
    } else {
      ShieldOf(cover, i);
      TestStep(f, s, n, i, h, w);
      var j := Sibling(i);
      var h', w' := if j < n then Join(f, i, h, w[0]) else h, if j < n then w[1..] else w;
      PreimagesAbove(f, level);
      TestedClaim(f, s[n..], Next(f, level), BothBelow(cover), i / 2, h', w');
      ClaimOnLevel(f, s, level, shield, i, h, w);
    }
  }

  lemma TestStep<H>(f: (H, H) -> H, s: seq<Slot<H>>, n: nat, i: nat, h: H, w: seq<H>)
    requires IsTree(s, n) && i < n && !s[i].present && Test(f, s, n, i, h, w)
    ensures n >= 2 && w != [] && IsTree(s[n..], Up(n))
    ensures Test(f, s[n..], Up(n), i / 2, if Sibling(i) < n then Join(f, i, h, w[0]) else h,
                 if Sibling(i) < n then w[1..] else w)
  {
  }

  lemma PreimagesAbove<H(!new)>(f: (H, H) -> H, level: seq<H>)
    requires |level| >= 2 && NoSecondPreimage(f, level)
    ensures NoSecondPreimage(f, Next(f, level))
  {
  }

  /** One level of `TestedClaim`: the claim is tested and stored soundly on the level above. */
  lemma ClaimOnLevel<H(!new)>(f: (H, H) -> H, s: seq<Slot<H>>, level: seq<H>, shield: seq<bool>, i: nat, h: H,
                              w: seq<H>)
    requires IsTree(s, |level|) && |shield| == |level| >= 2 && i < |level| && NoSecondPreimage(f, level)
    requires Sound(f, s, level, shield) && !shield[i] && !s[i].present && w != []
    requires IsTree(s[|level|..], Up(|level|))
    requires (if Sibling(i) < |level| then Join(f, i, h, w[0]) else h) == Next(f, level)[i / 2]
    requires var w' := if Sibling(i) < |level| then w[1..] else w;
      Sound(f, StoreSiblings(s[|level|..], Up(|level|), i / 2, w'), Next(f, level),
            BothBelow(Cover(s, shield))[i / 2 := true])
    ensures h == level[i] && Sound(f, StoreSiblings(s, |level|, i, w), level, shield[i := true])
  {
    hide StoreSiblings, TreeSize, NoSecondPreimage, Sound, BothBelow, Join;
    var n, cover, shield' := |level|, Cover(s, shield), shield[i := true];
    SoundParts(f, s, level, shield);
    ShieldOf(cover, i);
    if Sibling(i) < n {
      JoinInjective(f, level, i, h, w[0]);
    } else {
      JoinGenuine(f, level, i);
    }
    var t := StoreOnLevel(s, n, i, w);
    CoverPair(cover, Cover(t, shield'), i);
    LevelStaysGenuine(s, t, level, shield, i, w[0]);
    MakeSound(f, t, level, shield');
  }

  lemma LevelStaysGenuine<H>(s: seq<Slot<H>>, t: seq<Slot<H>>, level: seq<H>, shield: seq<bool>, i: nat, x: H)
    requires |shield| == |level| <= |s| == |t| && i < |level| && LevelGenuine(s, level, shield)
    requires forall k :: 0 <= k < |level| ==> t[k] == if k == Sibling(i) then Slot(true, x) else s[k]
    requires Sibling(i) < |level| ==> x == level[Sibling(i)]
    ensures LevelGenuine(t, level, shield[i := true])
  {
  }

  lemma SoundParts<H>(f: (H, H) -> H, s: seq<Slot<H>>, level: seq<H>, shield: seq<bool>)
    requires IsTree(s, |level|) && |shield| == |level| >= 2 && Sound(f, s, level, shield)
    ensures LevelGenuine(s, level, shield) && PairsAgree(Cover(s, shield)) && IsTree(s[|level|..], Up(|level|))
    ensures Sound(f, s[|level|..], Next(f, level), BothBelow(Cover(s, shield)))
  {
  }

  lemma MakeSound<H>(f: (H, H) -> H, s: seq<Slot<H>>, level: seq<H>, shield: seq<bool>)
    requires IsTree(s, |level|) && |shield| == |level| >= 2 && IsTree(s[|level|..], Up(|level|))
    requires LevelGenuine(s, level, shield) && PairsAgree(Cover(s, shield))
    requires Sound(f, s[|level|..], Next(f, level), BothBelow(Cover(s, shield)))
    ensures Sound(f, s, level, shield)
  {
  }

  lemma PairPreimage<H(!new)>(f: (H, H) -> H, level: seq<H>, i: nat, h: H, x: H)
    requires i < |level| && Sibling(i) < |level|
    requires PairResists(f, level, i / 2)
    requires Join(f, i, h, x) == Next(f, level)[i / 2]
    ensures h == level[i] && x == level[Sibling(i)]
  {
    var k := i / 2;
    assert i == 2 * k || i == 2 * k + 1;
    assert OnlyPreimage(f, level[2 * k], level[2 * k + 1]);
  }

  lemma JoinInjective<H(!new)>(f: (H, H) -> H, level: seq<H>, i: nat, h: H, x: H)
    requires i < |level| && Sibling(i) < |level|
    requires NoSecondPreimage(f, level)
    requires Join(f, i, h, x) == Next(f, level)[i / 2]
    ensures h == level[i] && x == level[Sibling(i)]
  {
    assert PairResists(f, level, i / 2);
    PairPreimage(f, level, i, h, x);
  }

  lemma StoreSiblingsKeepsNode<H>(s: seq<Slot<H>>, n: nat, i: nat, v: H, w: seq<H>)
    requires IsTree(s, n) && i < n
    ensures StoreProof(s, n, i, v, w) == StoreSiblings(s, n, i, w)[i := Slot(true, v)]
  {
    hide StoreSiblings, TreeSize;
    TreeUp(s, n, i);
    var j, x := Sibling(i), Slot(true, v);
    var s' := s[i := x];
    assert s'[n..] == s[n..];
    if n < 2 || w == [] || (j < n && s[j].present) {
      StoreEnd(s, n, i, w);
      StoreEnd(s', n, i, w);
    } else {
      var t := StoreOnLevel(s, n, i, w);
      var t' := StoreOnLevel(s', n, i, w);
      assert t' == t'[..n] + t'[n..] && t == t[..n] + t[n..];
      assert t'[..n] == t[..n][i := x];
    }
  }

  /** One accepted claim keeps a receiving tree sound, and the claimed leaf is the genuine one. */
  lemma TestAndStoreSound<H(!new)>(f: (H, H) -> H, s: seq<Slot<H>>, leaves: seq<H>, i: nat, v: H, w: seq<H>)
    requires IsTree(s, |leaves|) && i < |leaves|
    requires NoSecondPreimage(f, leaves)
    requires Sound(f, s, leaves, NoShield(|leaves|))
    ensures Sound(f, TestAndStore(f, s, |leaves|, i, v, w), leaves, NoShield(|leaves|))
    ensures Test(f, s, |leaves|, i, v, w) ==> v == leaves[i]
  {
    var n := |leaves|;
    var none := NoShield(n);
    if Test(f, s, n, i, v, w) {
      TestedClaim(f, s, leaves, none, i, v, w);
      StoreSiblingsKeepsNode(s, n, i, v, w);
      var t := StoreSiblings(s, n, i, w);
      var r := t[i := Slot(true, v)];
      assert r[n..] == t[n..];
      assert Cover(r, none) == Cover(t, none[i := true]);
    }
  }

  lemma {:induction false} StoreKeepsRoot<H>(s: seq<Slot<H>>, n: nat, i: nat, w: seq<H>)
    requires IsTree(s, n) && i < n
    ensures StoreSiblings(s, n, i, w)[|s| - 1] == s[|s| - 1]
    decreases n
  {
    hide StoreSiblings, TreeSize;
    TreeUp(s, n, i);
    if n < 2 || w == [] || (Sibling(i) < n && s[Sibling(i)].present) {
      StoreEnd(s, n, i, w);
    } else {
      var w' := if Sibling(i) < n then w[1..] else w;
      StoreKeepsRoot(s[n..], Up(n), i / 2, w');
      var t := StoreOnLevel(s, n, i, w);
      assert t[n..][|s| - n - 1] == t[|s| - 1];
    }
  }

  /** No claim changes a root once it is there. */
  lemma RootStays<H>(f: (H, H) -> H, s: seq<Slot<H>>, n: nat, i: nat, v: H, w: seq<H>)
    requires IsTree(s, n) && i < n && s[|s| - 1].present
    ensures TestAndStore(f, s, n, i, v, w)[|s| - 1] == s[|s| - 1]
  {
    StoreKeepsRoot(s, n, i, w);
    StoreSiblingsKeepsNode(s, n, i, v, w);
  }

  /** One message from a peer: the claimed hash of leaf `i` and its sibling list. */
  datatype Claim<H> = Claim(i: nat, v: H, w: seq<H>)

  /** The tree after a whole run of claims from untrusted peers. */
  function Run<H(==)>(f: (H, H) -> H, s: seq<Slot<H>>, n: nat, claims: seq<Claim<H>>): (r: seq<Slot<H>>)
    requires IsTree(s, n)
    requires forall c :: c in claims ==> c.i < n
    ensures |r| == |s|
    decreases |claims|
  {
    if claims == [] then s
    else
      var c := claims[|claims| - 1];
      TestAndStore(f, Run(f, s, n, claims[..|claims| - 1]), n, c.i, c.v, c.w)
  }

  /** The first present node on the path of node `i`, and the root is reached at the latest, is genuine. */
  ghost predicate FirstPresentGenuine<H>(f: (H, H) -> H, s: seq<Slot<H>>, level: seq<H>, i: nat)
    requires IsTree(s, |level|) && i < |level|
    decreases |level|
  {
    if s[i].present then s[i].hash == level[i]
    else |level| >= 2 && FirstPresentGenuine(f, s[|level|..], Next(f, level), i / 2)
  }

  lemma {:induction false} SoundGivesFirstPresent<H>(f: (H, H) -> H, s: seq<Slot<H>>, level: seq<H>,
                                                     shield: seq<bool>, i: nat)
    requires IsTree(s, |level|) && |shield| == |level| && i < |level|
    requires Sound(f, s, level, shield) && !shield[i]
    ensures FirstPresentGenuine(f, s, level, i)
    decreases |level|
  {
    if !s[i].present {
      ShieldOf(Cover(s, shield), i);
      SoundGivesFirstPresent(f, s[|level|..], Next(f, level), BothBelow(Cover(s, shield)), i / 2);
    }
  }

  lemma {:induction false} OnlyRootSound<H>(f: (H, H) -> H, s: seq<Slot<H>>, level: seq<H>)
    requires IsTree(s, |level|)
    requires forall k :: 0 <= k < |s| - 1 ==> !s[k].present
    requires s[|s| - 1] == Slot(true, Root(f, level))
    ensures Sound(f, s, level, NoShield(|level|))
    decreases |level|
  {
    if |level| >= 2 {
      hide TreeSize;
      TreeUp(s, |level|, 0);
      OnlyRootSound(f, s[|level|..], Next(f, level));
      assert Cover(s, NoShield(|level|)) == NoShield(|level|);
      assert BothBelow(NoShield(|level|)) == NoShield(Up(|level|));
    }
  }

  lemma {:induction false} RunSound<H(!new)>(f: (H, H) -> H, s: seq<Slot<H>>, leaves: seq<H>, claims: seq<Claim<H>>)
    requires IsTree(s, |leaves|) && NoSecondPreimage(f, leaves)
    requires forall c :: c in claims ==> c.i < |leaves|
    requires Sound(f, s, leaves, NoShield(|leaves|))
    ensures Sound(f, Run(f, s, |leaves|, claims), leaves, NoShield(|leaves|))
    decreases |claims|
  {
    if claims != [] {
      var c := claims[|claims| - 1];
      RunSound(f, s, leaves, claims[..|claims| - 1]);
      TestAndStoreSound(f, Run(f, s, |leaves|, claims[..|claims| - 1]), leaves, c.i, c.v, c.w);
    }
  }

  /** Main result.  Start from a tree holding only the genuine root and let untrusted peers send any
      claims whatever: the first present node on every leaf's path stays genuine, so every leaf hash the
      tree holds and every claim it would accept next is the genuine one. */
  lemma EveryRunIsSound<H(!new)>(f: (H, H) -> H, zero: H, leaves: seq<H>, claims: seq<Claim<H>>)
    requires leaves != [] && NoSecondPreimage(f, leaves)
    requires forall c :: c in claims ==> c.i < |leaves|
    ensures var s := Run(f, OnlyRoot(|leaves|, zero, Root(f, leaves)), |leaves|, claims);
      (forall i :: 0 <= i < |leaves| ==> FirstPresentGenuine(f, s, leaves, i)) &&
      (forall i :: 0 <= i < |leaves| && s[i].present ==> s[i].hash == leaves[i]) &&
      (forall i, v, w :: 0 <= i < |leaves| && Test(f, s, |leaves|, i, v, w) ==> v == leaves[i])
  {
    var n := |leaves|;
    var s0 := OnlyRoot(n, zero, Root(f, leaves));
    OnlyRootSound(f, s0, leaves);
    RunSound(f, s0, leaves, claims);
    var s := Run(f, s0, n, claims);
    forall i | 0 <= i < n ensures FirstPresentGenuine(f, s, leaves, i) {
      SoundGivesFirstPresent(f, s, leaves, NoShield(n), i);
    }
    forall i, v, w | 0 <= i < n && Test(f, s, n, i, v, w) ensures v == leaves[i] {
      TestAndStoreSound(f, s, leaves, i, v, w);
    }
  }
}
