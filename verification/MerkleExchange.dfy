/** Proofs served by one tree and checked by another: exactly when they are accepted. */
module MerkleExchange {
  import opened MerkleLevels
  import opened MerkleFlat
  import opened MerkleSoundness
  import opened MerkleBuild

  /** Level of the first present node on the path of node `i` (the root level if there is none). */
  function StopLevel<H>(s: seq<Slot<H>>, n: nat, i: nat): nat
    requires IsTree(s, n) && i < n
    decreases n
  {
    if s[i].present || n < 2 then 0 else 1 + StopLevel(s[n..], Up(n), i / 2)
  }

  /** On the first `t` levels, the siblings of the path of node `i` are stored with their genuine hash. */
  ghost predicate ServesGenuine<H>(f: (H, H) -> H, s: seq<Slot<H>>, level: seq<H>, i: nat, t: nat)
    requires IsTree(s, |level|) && i < |level|
    decreases |level|
  {
    t == 0 || |level| < 2 ||
    ((Sibling(i) < |level| ==> s[Sibling(i)].hash == level[Sibling(i)]) &&
     ServesGenuine(f, s[|level|..], Next(f, level), i / 2, t - 1))
  }

  /** Does the path of node `i` have a sibling on level `k`, or is it promoted there? */
  predicate SiblingAt(n: nat, i: nat, k: nat)
    decreases k
  {
    n >= 2 && if k == 0 then Sibling(i) < n else SiblingAt(Up(n), i / 2, k - 1)
  }

  /** Is there a sibling on a level from `lo` on, among the first `c` levels (all levels if c < 0)? */
  ghost predicate SiblingFrom(n: nat, i: nat, lo: int, c: int) {
    exists k: nat :: SiblingAt(n, i, k) && lo <= k && (c < 0 || k < c)
  }

  /** A list cut after `c` levels still leads up to level `t`: it contains a sibling of level t - 1 or
      higher. */
  ghost predicate LongEnough(n: nat, i: nat, t: nat, c: int) {
    t == 0 || SiblingFrom(n, i, t - 1, c)
  }

  function Height(n: nat): nat {
    if n < 2 then 0 else 1 + Height(Up(n))
  }

  /** The level below the root always has two nodes, so it is never a promoted one. */
  lemma {:induction false} TopHasSibling(n: nat, i: nat)
    requires n >= 2 && i < n
    ensures SiblingAt(n, i, Height(n) - 1)
  {
    if n > 2 {
      TopHasSibling(Up(n), i / 2);
    }
  }

  lemma {:induction false} StopAtMostHeight<H>(s: seq<Slot<H>>, n: nat, i: nat)
    requires IsTree(s, n) && i < n
    ensures StopLevel(s, n, i) <= Height(n)
    decreases n
  {
    if !s[i].present && n >= 2 { StopAtMostHeight(s[n..], Up(n), i / 2); }
  }

  lemma SiblingFromStep(n: nat, i: nat, lo: int, c: int)
    requires n >= 2 && c != 0 && (lo >= 1 || Sibling(i) >= n)
    ensures SiblingFrom(n, i, lo, c) <==> SiblingFrom(Up(n), i / 2, lo - 1, c - 1)
  {
    if SiblingFrom(n, i, lo, c) {
      var k: nat :| SiblingAt(n, i, k) && lo <= k && (c < 0 || k < c);
      assert SiblingAt(Up(n), i / 2, k - 1);
    }
    if SiblingFrom(Up(n), i / 2, lo - 1, c - 1) {
      var k: nat :| SiblingAt(Up(n), i / 2, k) && lo - 1 <= k && (c - 1 < 0 || k < c - 1);
      assert SiblingAt(n, i, k + 1);
    }
  }

  lemma {:induction false} ProofNonEmptyIff<H>(s: seq<Slot<H>>, n: nat, i: nat, lo: int, c: int)
    requires IsTree(s, n) && i < n && lo <= 0
    ensures Proof(s, n, i, c) != [] <==> SiblingFrom(n, i, lo, c)
    decreases n
  {
    if n >= 2 && c != 0 {
      if Sibling(i) < n {
        assert SiblingAt(n, i, 0);
        assert Proof(s, n, i, c)[0] == s[Sibling(i)].hash;
      } else {
        ProofNonEmptyIff(s[n..], Up(n), i / 2, lo - 1, c - 1);
        SiblingFromStep(n, i, lo, c);
        assert Proof(s, n, i, c) == Proof(s[n..], Up(n), i / 2, c - 1);
      }
    }
  }

  lemma LongEnoughStep(n: nat, i: nat, t: nat, c: int)
    requires n >= 2 && c != 0 && t >= 1 && SiblingFrom(n, i, 0, c)
    ensures LongEnough(n, i, t, c) <==> LongEnough(Up(n), i / 2, t - 1, c - 1)
  {
    if t > 1 { SiblingFromStep(n, i, t - 1, c); }
  }

  /** Whatever siblings come with it, an accepted claim about a path that starts genuine is genuine. */
  lemma {:induction false} AcceptedIsGenuine<H(!new)>(f: (H, H) -> H, s: seq<Slot<H>>, level: seq<H>, i: nat, h: H,
                                                      w: seq<H>)
    requires IsTree(s, |level|) && i < |level|
    requires NoSecondPreimage(f, level) && FirstPresentGenuine(f, s, level, i)
    requires Test(f, s, |level|, i, h, w)
    ensures h == level[i]
    decreases |level|
  {
    var n := |level|;
    if !s[i].present {
      if Sibling(i) < n {
        AcceptedIsGenuine(f, s[n..], Next(f, level), i / 2, Join(f, i, h, w[0]), w[1..]);
        JoinInjective(f, level, i, h, w[0]);
      } else {
        AcceptedIsGenuine(f, s[n..], Next(f, level), i / 2, h, w);
      }
    }
  }

  /** Exactly when a genuine leaf with the list served by `sender` is accepted by `receiver`: the served
      siblings below the receiver's first present node are genuine, and the list is long enough.  On a
      promoted level the receiver still wants a further sibling in the list, hence the second condition. */
  lemma {:induction false} AcceptedIff<H(!new)>(f: (H, H) -> H, sender: seq<Slot<H>>, receiver: seq<Slot<H>>,
                                                level: seq<H>, i: nat, c: int)
    requires IsTree(sender, |level|) && IsTree(receiver, |level|) && i < |level|
    requires NoSecondPreimage(f, level) && FirstPresentGenuine(f, receiver, level, i)
    ensures Test(f, receiver, |level|, i, level[i], Proof(sender, |level|, i, c)) <==>
            var t := StopLevel(receiver, |level|, i);
            ServesGenuine(f, sender, level, i, t) && LongEnough(|level|, i, t, c)
    decreases |level|
  {
    hide Test, Proof, StopLevel, ServesGenuine, LongEnough, NoSecondPreimage, FirstPresentGenuine, SiblingFrom,
      TreeSize;
    var n := |level|;
    if receiver[i].present || Proof(sender, n, i, c) == [] {
      AcceptEnd(f, sender, receiver, level, i, c);
    } else {
      AcceptDescend(f, sender, receiver, level, i, c);
      AcceptedIff(f, sender[n..], receiver[n..], Next(f, level), i / 2, c - 1);
      AcceptStep(f, sender, receiver, level, i, c);
    }
  }

  /** The climb ends here: at a present node, or for want of siblings. */
  lemma AcceptEnd<H(!new)>(f: (H, H) -> H, sender: seq<Slot<H>>, receiver: seq<Slot<H>>, level: seq<H>, i: nat, c: int)
    requires IsTree(sender, |level|) && IsTree(receiver, |level|) && i < |level|
    requires FirstPresentGenuine(f, receiver, level, i)
    requires receiver[i].present || Proof(sender, |level|, i, c) == []
    ensures Test(f, receiver, |level|, i, level[i], Proof(sender, |level|, i, c)) <==>
            var t := StopLevel(receiver, |level|, i);
            ServesGenuine(f, sender, level, i, t) && LongEnough(|level|, i, t, c)
  {
    hide Proof;
    ProofNonEmptyIff(sender, |level|, i, 0, c);
  }

  /** The climb goes on one level up, with the same premises there. */
  lemma AcceptDescend<H(!new)>(f: (H, H) -> H, sender: seq<Slot<H>>, receiver: seq<Slot<H>>, level: seq<H>, i: nat,
                               c: int)
    requires IsTree(sender, |level|) && IsTree(receiver, |level|) && i < |level|
    requires NoSecondPreimage(f, level) && FirstPresentGenuine(f, receiver, level, i)
    requires !receiver[i].present && Proof(sender, |level|, i, c) != []
    ensures |level| >= 2 && c != 0 && IsTree(sender[|level|..], Up(|level|)) && IsTree(receiver[|level|..], Up(|level|))
    ensures NoSecondPreimage(f, Next(f, level)) && FirstPresentGenuine(f, receiver[|level|..], Next(f, level), i / 2)
    ensures var t := StopLevel(receiver[|level|..], Up(|level|), i / 2);
            StopLevel(receiver, |level|, i) == t + 1 &&
            (LongEnough(|level|, i, t + 1, c) <==> LongEnough(Up(|level|), i / 2, t, c - 1)) &&
            (ServesGenuine(f, sender, level, i, t + 1) <==>
               (Sibling(i) < |level| ==> sender[Sibling(i)].hash == level[Sibling(i)]) &&
               ServesGenuine(f, sender[|level|..], Next(f, level), i / 2, t))
  {
    hide LongEnough, SiblingFrom, Test, Proof, StopLevel, ServesGenuine, NoSecondPreimage, FirstPresentGenuine,
      TreeSize;
    var n := |level|;
    ProofNonEmpty(sender, n, i, c);
    PremisesAbove(f, receiver, level, i);
    TreeUp(sender, n, i);
    StopAbove(f, sender, receiver, level, i);
    ProofNonEmptyIff(sender, n, i, 0, c);
    LongEnoughStep(n, i, StopLevel(receiver, n, i), c);
  }

  lemma ProofNonEmpty<H>(s: seq<Slot<H>>, n: nat, i: nat, c: int)
    requires IsTree(s, n) && i < n && Proof(s, n, i, c) != []
    ensures n >= 2 && c != 0
  {
  }

  lemma PremisesAbove<H(!new)>(f: (H, H) -> H, s: seq<Slot<H>>, level: seq<H>, i: nat)
    requires IsTree(s, |level|) && i < |level| && |level| >= 2 && !s[i].present
    requires NoSecondPreimage(f, level) && FirstPresentGenuine(f, s, level, i)
    ensures IsTree(s[|level|..], Up(|level|)) && NoSecondPreimage(f, Next(f, level))
    ensures FirstPresentGenuine(f, s[|level|..], Next(f, level), i / 2)
  {
  }

  lemma StopAbove<H>(f: (H, H) -> H, sender: seq<Slot<H>>, receiver: seq<Slot<H>>, level: seq<H>, i: nat)
    requires IsTree(sender, |level|) && IsTree(receiver, |level|) && i < |level| && |level| >= 2 && !receiver[i].present
    requires IsTree(sender[|level|..], Up(|level|)) && IsTree(receiver[|level|..], Up(|level|))
    ensures var t := StopLevel(receiver[|level|..], Up(|level|), i / 2);
      StopLevel(receiver, |level|, i) == t + 1 &&
      (ServesGenuine(f, sender, level, i, t + 1) <==>
         (Sibling(i) < |level| ==> sender[Sibling(i)].hash == level[Sibling(i)]) &&
         ServesGenuine(f, sender[|level|..], Next(f, level), i / 2, t))
  {
  }

  /** One level of `AcceptedIff`: a list whose first sibling is not genuine is rejected. */
  lemma AcceptStep<H(!new)>(f: (H, H) -> H, sender: seq<Slot<H>>, receiver: seq<Slot<H>>, level: seq<H>, i: nat, c: int)
    requires IsTree(sender, |level|) && IsTree(receiver, |level|) && i < |level|
    requires NoSecondPreimage(f, level) && FirstPresentGenuine(f, receiver, level, i)
    requires |level| >= 2 && c != 0 && !receiver[i].present && Proof(sender, |level|, i, c) != []
    ensures Test(f, receiver, |level|, i, level[i], Proof(sender, |level|, i, c)) <==>
            (Sibling(i) < |level| ==> sender[Sibling(i)].hash == level[Sibling(i)]) &&
            Test(f, receiver[|level|..], Up(|level|), i / 2, Next(f, level)[i / 2],
                 Proof(sender[|level|..], Up(|level|), i / 2, c - 1))
  {
    var n, w := |level|, Proof(sender, |level|, i, c);
    var w' := Proof(sender[n..], Up(n), i / 2, c - 1);
    JoinGenuine(f, level, i);
    if Sibling(i) < n {
      assert w[0] == sender[Sibling(i)].hash && w[1..] == w';
      if Test(f, receiver, n, i, level[i], w) {
        AcceptedIsGenuine(f, receiver[n..], Next(f, level), i / 2, Join(f, i, level[i], w[0]), w');
        JoinInjective(f, level, i, level[i], w[0]);
      }
    } else {
      assert w == w';
    }
  }

  /** An unlimited list, or one of at least as many levels as the tree has, is always long enough. */
  lemma FullListLongEnough<H>(s: seq<Slot<H>>, n: nat, i: nat, c: int)
    requires IsTree(s, n) && i < n && (c < 0 || c >= Height(n))
    ensures LongEnough(n, i, StopLevel(s, n, i), c)
  {
    StopAtMostHeight(s, n, i);
    if n >= 2 {
      TopHasSibling(n, i);
      assert SiblingAt(n, i, Height(n) - 1);
    }
  }

  lemma {:induction false} BuiltServes<H>(f: (H, H) -> H, s: seq<Slot<H>>, level: seq<H>, has: seq<bool>, i: nat,
                                          t: nat)
    requires IsTree(s, |level|) && |has| == |level| && i < |level| && Built(f, s, level, has)
    requires forall k :: 0 <= k < |has| ==> has[k]
    ensures ServesGenuine(f, s, level, i, t)
    decreases |level|
  {
    hide TreeSize, BothBelow, Built, ServesGenuine;
    TreeUp(s, |level|, i);
    if |level| >= 2 && t > 0 {
      BelowAll(has);
      BuiltStep(f, s, level, has);
      BuiltServes(f, s[|level|..], Next(f, level), BothBelow(has), i / 2, t - 1);
    }
    ServesStep(f, s, level, i, t);
  }

  lemma ServesStep<H>(f: (H, H) -> H, s: seq<Slot<H>>, level: seq<H>, i: nat, t: nat)
    requires IsTree(s, |level|) && i < |level| && (|level| >= 2 ==> IsTree(s[|level|..], Up(|level|)))
    ensures ServesGenuine(f, s, level, i, t) <==>
      t == 0 || |level| < 2 ||
      ((Sibling(i) < |level| ==> s[Sibling(i)].hash == level[Sibling(i)]) &&
       ServesGenuine(f, s[|level|..], Next(f, level), i / 2, t - 1))
  {
  }

  /** Main result on completeness: a seeder that hashed all its data in any order serves proofs that
      every receiver accepts, whatever claims that receiver has processed before. */
  lemma HonestProofAccepted<H(!new)>(f: (H, H) -> H, zero: H, leaves: seq<H>, order: seq<nat>, claims: seq<Claim<H>>,
                                     i: nat, c: int)
    requires i < |leaves| && NoSecondPreimage(f, leaves)
    requires AreIndices(order, |leaves|)
    requires AllListed(|leaves|, order)
    requires forall claim :: claim in claims ==> claim.i < |leaves|
    requires c < 0 || c >= Height(|leaves|)
    ensures var receiver := Run(f, OnlyRoot(|leaves|, zero, Root(f, leaves)), |leaves|, claims);
      Test(f, receiver, |leaves|, i, leaves[i], Proof(Fill(f, zero, leaves, order), |leaves|, i, c))
  {
    var n := |leaves|;
    var receiver := Run(f, OnlyRoot(n, zero, Root(f, leaves)), n, claims);
    var sender := Fill(f, zero, leaves, order);
    EveryRunIsSound(f, zero, leaves, claims);
    FillBuilt(f, zero, leaves, order);
    BuiltServes(f, sender, leaves, Listed(n, order), i, StopLevel(receiver, n, i));
    FullListLongEnough(receiver, n, i, c);
    AcceptedIff(f, sender, receiver, leaves, i, c);
  }

  /** A cut list can be refused although nothing in it is wrong: with three leaves, the first of which has been
      received, the list of the third cut after one level is empty on every sender, and the receiver, which wants
      one more hash to climb over the promoted level, refuses the true leaf although it already holds its hash. */
  lemma CutListRefused<H>(f: (H, H) -> H, zero: H, a: H, b: H, c: H, sender: seq<Slot<H>>)
    requires IsTree(sender, 3)
    ensures TreeSize(3) == 6
    ensures var s := Run(f, OnlyRoot(3, zero, Root(f, [a, b, c])), 3, [Claim(0, a, [b, c])]);
      s[4] == Slot(true, c) && Proof(sender, 3, 2, 1) == [] && !Test(f, s, 3, 2, c, Proof(sender, 3, 2, 1))
  {
    var leaves, claims, w := [a, b, c], [Claim(0, a, [b, c])], [b, c];
    var no, root := Slot(false, zero), Slot(true, f(f(a, b), c));
    assert TreeSize(2) == 3 && TreeSize(3) == 6;
    assert Next(f, leaves) == [f(a, b), c] && Next(f, [f(a, b), c]) == [f(f(a, b), c)];
    assert Root(f, [f(a, b), c]) == f(f(a, b), c);
    var s := OnlyRoot(3, zero, Root(f, leaves));
    assert s == [no, no, no, no, no, root];
    assert s[3..] == [no, no, root] && s[3..][2..] == [root];
    assert w[1..] == [c] && w[1..][1..] == [];
    assert Test(f, s[3..], 2, 0, f(a, b), w[1..]);
    var t := s[0 := Slot(true, a)];
    assert t[3..] == s[3..];
    assert StoreSiblings(t[3..], 2, 0, w[1..]) == [no, Slot(true, c), root];
    assert claims[..0] == [] && Run(f, s, 3, claims[..0]) == s;
    assert TestAndStore(f, s, 3, 0, a, w) == [Slot(true, a), Slot(true, b), no, no, Slot(true, c), root];
    assert Proof(sender[3..], 2, 1, 0) == [];
  }

  /** Two accepted claims store the unchecked hash `g` as an inner node of a four-leaf tree. */
  function TwoClaims<H>(f: (H, H) -> H, a: H, b: H, c: H, d: H, g: H): seq<Claim<H>> {
    [Claim(0, a, [b, f(c, d)]), Claim(2, c, [d, g])]
  }

  lemma TwoClaimsRun<H>(f: (H, H) -> H, zero: H, a: H, b: H, c: H, d: H, g: H)
    ensures Run(f, OnlyRoot(4, zero, f(f(a, b), f(c, d))), 4, TwoClaims(f, a, b, c, d, g)) ==
            [Slot(true, a), Slot(true, b), Slot(true, c), Slot(true, d), Slot(true, g), Slot(true, f(c, d)),
             Slot(true, f(f(a, b), f(c, d)))]
  {
    var root, claims := f(f(a, b), f(c, d)), TwoClaims(f, a, b, c, d, g);
    var s0 := OnlyRoot(4, zero, root);
    var no := Slot(false, zero);
    assert TreeSize(2) == 3 && TreeSize(4) == 7;
    assert s0 == [no, no, no, no, no, no, Slot(true, root)];
    assert claims[..1] == [claims[0]] && claims[..1][..0] == [];
    assert s0[4..] == [no, no, Slot(true, root)] && s0[4..][2..] == [Slot(true, root)];
    FirstClaim(f, zero, a, b, c, d);
    assert Run(f, s0, 4, claims[..1][..0]) == s0;
    var s1 := Run(f, s0, 4, claims[..1]);
    assert s1 == TestAndStore(f, s0, 4, 0, a, [b, f(c, d)]);
    SecondClaim(f, zero, a, b, c, d, g);
    assert Run(f, s0, 4, claims) == TestAndStore(f, s1, 4, 2, c, [d, g]);
  }

  lemma FirstClaim<H>(f: (H, H) -> H, zero: H, a: H, b: H, c: H, d: H)
    ensures TreeSize(4) == 7
    ensures var no, root := Slot(false, zero), f(f(a, b), f(c, d));
      TestAndStore(f, [no, no, no, no, no, no, Slot(true, root)], 4, 0, a, [b, f(c, d)]) ==
      [Slot(true, a), Slot(true, b), no, no, no, Slot(true, f(c, d)), Slot(true, root)]
  {
    var no, root, w := Slot(false, zero), f(f(a, b), f(c, d)), [b, f(c, d)];
    var s := [no, no, no, no, no, no, Slot(true, root)];
    assert TreeSize(2) == 3 && TreeSize(4) == 7;
    assert s[4..] == [no, no, Slot(true, root)] && s[4..][2..] == [Slot(true, root)];
    assert w[1..] == [f(c, d)] && w[1..][1..] == [];
    assert Test(f, s[4..], 2, 0, f(a, b), w[1..]);
    var t := s[0 := Slot(true, a)];
    assert t[4..] == s[4..];
    assert StoreSiblings(t[4..], 2, 0, w[1..]) == [no, Slot(true, f(c, d)), Slot(true, root)];
  }

  lemma SecondClaim<H>(f: (H, H) -> H, zero: H, a: H, b: H, c: H, d: H, g: H)
    ensures TreeSize(4) == 7
    ensures var no, root := Slot(false, zero), f(f(a, b), f(c, d));
      TestAndStore(f, [Slot(true, a), Slot(true, b), no, no, no, Slot(true, f(c, d)), Slot(true, root)], 4,
                   2, c, [d, g]) ==
      [Slot(true, a), Slot(true, b), Slot(true, c), Slot(true, d), Slot(true, g), Slot(true, f(c, d)), Slot(true, root)]
  {
    var no, root, w := Slot(false, zero), f(f(a, b), f(c, d)), [d, g];
    var s := [Slot(true, a), Slot(true, b), no, no, no, Slot(true, f(c, d)), Slot(true, root)];
    assert TreeSize(2) == 3 && TreeSize(4) == 7;
    assert s[4..] == [no, Slot(true, f(c, d)), Slot(true, root)] && s[4..][2..] == [Slot(true, root)];
    assert w[1..] == [g] && w[1..][1..] == [];
    assert Test(f, s[4..], 2, 1, f(c, d), w[1..]);
    var t := s[2 := Slot(true, c)];
    assert t[4..] == s[4..];
    assert StoreSiblings(t[4..], 2, 1, w[1..]) == [Slot(true, g), Slot(true, f(c, d)), Slot(true, root)];
  }

  /** Not every stored node is genuine: for any hash `g` there is a run that stores it as an inner node,
      and a peer re-serving it makes a fresh receiver reject a genuine leaf unless `g` is genuine. */
  lemma GarbageIsStoredAndReserved<H(!new)>(f: (H, H) -> H, zero: H, leaves: seq<H>, g: H)
    requires |leaves| == 4 && NoSecondPreimage(f, leaves)
    ensures TreeSize(4) == 7
    ensures var claims := TwoClaims(f, leaves[0], leaves[1], leaves[2], leaves[3], g);
      var s := Run(f, OnlyRoot(4, zero, Root(f, leaves)), 4, claims);
      s[4] == Slot(true, g) && s[0].present && s[1].present &&
      (Test(f, OnlyRoot(4, zero, Root(f, leaves)), 4, 2, leaves[2], Proof(s, 4, 2, -1)) <==> g == Next(f, leaves)[0])
  {
    var a, b, c, d := leaves[0], leaves[1], leaves[2], leaves[3];
    var up := Next(f, leaves);
    assert up == [f(a, b), f(c, d)];
    assert Next(f, up) == [f(f(a, b), f(c, d))];
    assert Root(f, leaves) == Root(f, up) == Root(f, Next(f, up));
    assert TreeSize(2) == 3 && TreeSize(4) == 7;
    TwoClaimsRun(f, zero, a, b, c, d, g);
    var s := Run(f, OnlyRoot(4, zero, Root(f, leaves)), 4, TwoClaims(f, a, b, c, d, g));
    var r := OnlyRoot(4, zero, Root(f, leaves));
    OnlyRootSound(f, r, leaves);
    SoundGivesFirstPresent(f, r, leaves, NoShield(4), 2);
    FullListLongEnough(r, 4, 2, -1);
    AcceptedIff(f, s, r, leaves, 2, -1);
    assert StopLevel(r[4..], 2, 1) == 1 && StopLevel(r, 4, 2) == 2;
    assert s[4..][0].hash == g;
    assert ServesGenuine(f, s[4..], up, 1, 1) <==> g == up[0];
  }
}
