/** Passing proofs on: a receiver that got every leaf from honest peers can serve in turn. */
module MerkleRelay {
  import opened MerkleLevels
  import opened MerkleFlat
  import opened MerkleSoundness
  import opened MerkleBuild
  import opened MerkleExchange
  import opened MerkleGarbage

  /** All siblings on the path of node `i` are present. */
  ghost predicate PathPresent<H>(s: seq<Slot<H>>, n: nat, i: nat)
    requires IsTree(s, n) && i < n
    decreases n
  {
    n >= 2 ==> (Sibling(i) < n ==> s[Sibling(i)].present) && PathPresent(s[n..], Up(n), i / 2)
  }

  /** Above every present node but the root, all siblings on the path are present. */
  ghost predicate Closed<H>(s: seq<Slot<H>>, n: nat)
    requires IsTree(s, n)
    decreases n
  {
    n >= 2 ==>
      (forall j :: 0 <= j < n && s[j].present ==> PathPresent(s[n..], Up(n), j / 2)) && Closed(s[n..], Up(n))
  }

  /** The complete list of genuine siblings of node `i`. */
  function Siblings<H>(f: (H, H) -> H, level: seq<H>, i: nat): (w: seq<H>)
    requires i < |level|
    decreases |level|
  {
    if |level| < 2 then []
    else (if Sibling(i) < |level| then [level[Sibling(i)]] else []) + Siblings(f, Next(f, level), i / 2)
  }

  /** `t` has at least the present nodes of `s`. */
  ghost predicate Extends<H>(s: seq<Slot<H>>, t: seq<Slot<H>>) {
    |s| == |t| && forall k :: 0 <= k < |s| && s[k].present ==> t[k].present
  }

  lemma {:induction false} PathStays<H>(s: seq<Slot<H>>, t: seq<Slot<H>>, n: nat, i: nat)
    requires IsTree(s, n) && IsTree(t, n) && i < n && Extends(s, t) && PathPresent(s, n, i)
    ensures PathPresent(t, n, i)
    decreases n
  {
    if n >= 2 {
      PathStays(s[n..], t[n..], Up(n), i / 2);
    }
  }

  lemma {:induction false} SiblingsExist<H>(f: (H, H) -> H, level: seq<H>, i: nat)
    requires i < |level| && |level| >= 2
    ensures Siblings(f, level, i) != []
    decreases |level|
  {
    if Sibling(i) >= |level| {
      SiblingsExist(f, Next(f, level), i / 2);
    }
  }

  lemma SiblingsStep<H>(f: (H, H) -> H, level: seq<H>, i: nat)
    requires i < |level| && |level| >= 2
    ensures var w, w' := Siblings(f, level, i), Siblings(f, Next(f, level), i / 2);
      if Sibling(i) < |level| then w != [] && w[0] == level[Sibling(i)] && w[1..] == w' else w == w'
  {
  }

  /** A leaf with its genuine siblings is accepted wherever the first present node is genuine. */
  lemma {:induction false} SiblingsAccepted<H>(f: (H, H) -> H, s: seq<Slot<H>>, level: seq<H>, i: nat)
    requires IsTree(s, |level|) && i < |level| && FirstPresentGenuine(f, s, level, i)
    ensures Test(f, s, |level|, i, level[i], Siblings(f, level, i))
    decreases |level|
  {
    if !s[i].present {
      SiblingsExist(f, level, i);
      JoinGenuine(f, level, i);
      SiblingsAccepted(f, s[|level|..], Next(f, level), i / 2);
      SiblingsStep(f, level, i);
    }
  }

  /** Storing a complete genuine list fills the whole path and leaves no other node behind a gap. */
  lemma {:induction false} StoreFull<H>(f: (H, H) -> H, s: seq<Slot<H>>, level: seq<H>, i: nat)
    requires IsTree(s, |level|) && i < |level| && AllGenuine(f, s, level) && Closed(s, |level|)
    ensures var t := StoreSiblings(s, |level|, i, Siblings(f, level, i));
      Extends(s, t) && AllGenuine(f, t, level) && Closed(t, |level|) && PathPresent(t, |level|, i)
    decreases |level|
  {
    hide StoreSiblings, TreeSize, Siblings;
    var n, j, w := |level|, Sibling(i), Siblings(f, level, i);
    TreeUp(s, n, i);
    if n < 2 {
      StoreEnd(s, n, i, w);
    } else if j < n && s[j].present {
      StoreEnd(s, n, i, w);
      assert j / 2 == i / 2;
    } else {
      SiblingsExist(f, level, i);
      StoreFull(f, s[n..], Next(f, level), i / 2);
      SiblingsStep(f, level, i);
      var t := StoreOnLevel(s, n, i, w);
      ExtendsLevel(s, t, n);
      LevelOf(f, s, t, level, i, w[0]);
      ClosedLevel(s, t, n, i);
    }
  }

  lemma ExtendsLevel<H>(s: seq<Slot<H>>, t: seq<Slot<H>>, n: nat)
    requires n <= |s| == |t| && Extends(s[n..], t[n..]) && forall k :: 0 <= k < n && s[k].present ==> t[k].present
    ensures Extends(s, t)
  {
    forall k | n <= k < |s| && s[k].present ensures t[k].present {
      assert s[n..][k - n] == s[k] && t[n..][k - n] == t[k];
    }
  }

  /** Making node `i` or its sibling present keeps a tree closed if the path above them is filled. */
  lemma ClosedLevel<H>(s: seq<Slot<H>>, t: seq<Slot<H>>, n: nat, i: nat)
    requires IsTree(s, n) && IsTree(t, n) && n >= 2 && i < n && Closed(s, n)
    requires Extends(s[n..], t[n..]) && Closed(t[n..], Up(n)) && PathPresent(t[n..], Up(n), i / 2)
    requires forall k :: 0 <= k < n && k != i && k != Sibling(i) && t[k].present ==> s[k].present
    ensures Closed(t, n)
  {
    forall j | 0 <= j < n && t[j].present ensures PathPresent(t[n..], Up(n), j / 2) {
      if j == i || j == Sibling(i) {
        assert j / 2 == i / 2;
      } else {
        PathStays(s[n..], t[n..], Up(n), j / 2);
      }
    }
  }

  /** A claim as an honest peer makes it: the true leaf with all its true siblings. */
  ghost predicate Honest<H>(f: (H, H) -> H, leaves: seq<H>, c: Claim<H>) {
    c.i < |leaves| && c.v == leaves[c.i] && c.w == Siblings(f, leaves, c.i)
  }

  ghost predicate Claimed<H>(claims: seq<Claim<H>>, k: nat) {
    exists c :: c in claims && c.i == k
  }

  lemma HonestClaim<H(!new)>(f: (H, H) -> H, s: seq<Slot<H>>, leaves: seq<H>, c: Claim<H>)
    requires IsTree(s, |leaves|) && Honest(f, leaves, c) && FirstPresentGenuine(f, s, leaves, c.i)
    requires AllGenuine(f, s, leaves) && Closed(s, |leaves|)
    ensures var t := TestAndStore(f, s, |leaves|, c.i, c.v, c.w);
      Extends(s, t) && AllGenuine(f, t, leaves) && Closed(t, |leaves|) && PathPresent(t, |leaves|, c.i)
  {
    var n, i := |leaves|, c.i;
    SiblingsAccepted(f, s, leaves, i);
    StoreSiblingsKeepsNode(s, n, i, c.v, c.w);
    StoreFull(f, s, leaves, i);
    var t := StoreSiblings(s, n, i, c.w);
    var r := t[i := Slot(true, c.v)];
    LeafGenuine(f, t, leaves, i);
    PathStays(t, r, n, i);
    if n >= 2 {
      assert r[n..] == t[n..];
      ClosedLevel(t, r, n, i);
    }
  }

  lemma {:induction false} OnlyRootClosed<H>(f: (H, H) -> H, s: seq<Slot<H>>, level: seq<H>)
    requires IsTree(s, |level|) && (forall k :: 0 <= k < |s| - 1 ==> !s[k].present)
    requires s[|s| - 1] == Slot(true, Root(f, level))
    ensures AllGenuine(f, s, level) && Closed(s, |level|)
    decreases |level|
  {
    if |level| >= 2 {
      OnlyRootClosed(f, s[|level|..], Next(f, level));
    }
  }

  lemma {:induction false} HonestRun<H(!new)>(f: (H, H) -> H, zero: H, leaves: seq<H>, claims: seq<Claim<H>>)
    requires leaves != [] && NoSecondPreimage(f, leaves)
    requires forall c :: c in claims ==> c.i < |leaves| && Honest(f, leaves, c)
    ensures var s := Run(f, OnlyRoot(|leaves|, zero, Root(f, leaves)), |leaves|, claims);
      AllGenuine(f, s, leaves) && Closed(s, |leaves|) && forall c :: c in claims ==> PathPresent(s, |leaves|, c.i)
    decreases |claims|
  {
    var n, s0 := |leaves|, OnlyRoot(|leaves|, zero, Root(f, leaves));
    if claims == [] {
      OnlyRootClosed(f, s0, leaves);
    } else {
      var before, last := claims[..|claims| - 1], claims[|claims| - 1];
      assert claims == before + [last];
      HonestRun(f, zero, leaves, before);
      EveryRunIsSound(f, zero, leaves, before);
      var s := Run(f, s0, n, before);
      HonestClaim(f, s, leaves, last);
      forall c | c in before ensures PathPresent(TestAndStore(f, s, n, last.i, last.v, last.w), n, c.i) {
        PathStays(s, TestAndStore(f, s, n, last.i, last.v, last.w), n, c.i);
      }
    }
  }

  /** What a tree with a filled path serves is the complete genuine list. */
  lemma {:induction false} ServesSiblings<H>(f: (H, H) -> H, s: seq<Slot<H>>, level: seq<H>, i: nat, c: int)
    requires IsTree(s, |level|) && i < |level| && AllGenuine(f, s, level) && PathPresent(s, |level|, i)
    requires c < 0 || c >= Height(|level|)
    ensures Proof(s, |level|, i, c) == Siblings(f, level, i)
    decreases |level|
  {
    if |level| >= 2 {
      ServesSiblings(f, s[|level|..], Next(f, level), i / 2, c - 1);
    }
  }

  /** Main result on relaying: a receiver that got every leaf from honest peers, in any order, serves for every
      leaf the complete genuine list, so its own claims are honest and every other receiver, whatever it has
      processed before, accepts them. */
  lemma RelayServes<H(!new)>(f: (H, H) -> H, zero: H, leaves: seq<H>, claims: seq<Claim<H>>, others: seq<Claim<H>>,
                             i: nat, c: int)
    requires NoSecondPreimage(f, leaves) && leaves != []
    requires forall claim :: claim in claims ==> claim.i < |leaves| && Honest(f, leaves, claim)
    requires forall k :: 0 <= k < |leaves| ==> Claimed(claims, k)
    requires forall claim :: claim in others ==> claim.i < |leaves|
    requires i < |leaves| && (c < 0 || c >= Height(|leaves|))
    ensures var start := OnlyRoot(|leaves|, zero, Root(f, leaves));
      var relay, receiver := Run(f, start, |leaves|, claims), Run(f, start, |leaves|, others);
      Honest(f, leaves, Claim(i, leaves[i], Proof(relay, |leaves|, i, c))) &&
      Test(f, receiver, |leaves|, i, leaves[i], Proof(relay, |leaves|, i, c))
  {
    hide Run, Test, Proof, Siblings, PathPresent, Closed, AllGenuine, NoSecondPreimage, TreeSize;
    var n, start := |leaves|, OnlyRoot(|leaves|, zero, Root(f, leaves));
    assert Claimed(claims, i);
    var relay, receiver := Run(f, start, n, claims), Run(f, start, n, others);
    HonestRun(f, zero, leaves, claims);
    ServesSiblings(f, relay, leaves, i, c);
    EveryRunIsSound(f, zero, leaves, others);
    SiblingsAccepted(f, receiver, leaves, i);
  }

  /** A tree filled from all its leaves makes honest claims too. */
  lemma SeederIsHonest<H>(f: (H, H) -> H, zero: H, leaves: seq<H>, order: seq<nat>, i: nat, c: int)
    requires i < |leaves| && AreIndices(order, |leaves|) && AllListed(|leaves|, order)
    requires c < 0 || c >= Height(|leaves|)
    ensures Honest(f, leaves, Claim(i, leaves[i], Proof(Fill(f, zero, leaves, order), |leaves|, i, c)))
  {
    FillBuilt(f, zero, leaves, order);
    BuiltIsFull(f, Fill(f, zero, leaves, order), leaves, Listed(|leaves|, order), i);
    ServesSiblings(f, Fill(f, zero, leaves, order), leaves, i, c);
  }

  lemma {:induction false} BuiltIsFull<H>(f: (H, H) -> H, s: seq<Slot<H>>, level: seq<H>, has: seq<bool>, i: nat)
    requires IsTree(s, |level|) && |has| == |level| && i < |level| && Built(f, s, level, has)
    requires forall k :: 0 <= k < |has| ==> has[k]
    ensures AllGenuine(f, s, level) && PathPresent(s, |level|, i)
    decreases |level|
  {
    if |level| >= 2 {
      BuiltIsFull(f, s[|level|..], Next(f, level), BothBelow(has), i / 2);
    }
  }
}
