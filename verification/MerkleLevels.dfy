/** The mathematics of an unbalanced ("promote-odd") Merkle hash tree, one level at a time. */
module MerkleLevels {

  /** Number of nodes on the level above a level of `n` nodes. */
  function Up(n: nat): nat {
    (n + 1) / 2
  }

  /** The level above `s`: neighbours are hashed in pairs, an odd last node is promoted unchanged. */
  function Next<H>(f: (H, H) -> H, s: seq<H>): (r: seq<H>)
    ensures |r| == Up(|s|)
  {
    seq(Up(|s|), k requires 0 <= k < Up(|s|) =>
      if 2 * k + 1 < |s| then f(s[2 * k], s[2 * k + 1]) else s[2 * k])
  }

  /** The root hash of the leaf level `s`. */
  function Root<H>(f: (H, H) -> H, s: seq<H>): H
    requires |s| >= 1
    decreases |s|
  {
    if |s| == 1 then s[0] else Root(f, Next(f, s))
  }

  /** The roots of small trees written out: left before right, an odd last node promoted on every level. */
  lemma SmallRoots<H>(f: (H, H) -> H, a: H, b: H, c: H, d: H, e: H)
    ensures Root(f, [a]) == a && Root(f, [a, b]) == f(a, b) && Root(f, [a, b, c]) == f(f(a, b), c)
    ensures Root(f, [a, b, c, d, e]) == f(f(f(a, b), f(c, d)), e)
  {
    var ab, cd := f(a, b), f(c, d);
    TwoRoot(f, a, b);
    TwoRoot(f, ab, c);
    TwoRoot(f, f(ab, cd), e);
    assert Next(f, [a, b, c]) == [ab, c];
    assert Next(f, [a, b, c, d, e]) == [ab, cd, e] && Next(f, [ab, cd, e]) == [f(ab, cd), e];
    assert Root(f, [ab, cd, e]) == Root(f, [f(ab, cd), e]);
  }

  lemma TwoRoot<H>(f: (H, H) -> H, a: H, b: H)
    ensures Root(f, [a, b]) == f(a, b)
  {
    assert Next(f, [a, b]) == [f(a, b)];
  }

  /** The level `k` steps above `s`. */
  function LevelAt<H>(f: (H, H) -> H, s: seq<H>, k: nat): (r: seq<H>)
    ensures s != [] ==> r != []
    decreases k
  {
    if k == 0 then s else LevelAt(f, Next(f, s), k - 1)
  }

  function Pow2(k: nat): (p: nat)
    ensures p >= 1
  {
    if k == 0 then 1 else 2 * Pow2(k - 1)
  }

  /** Which nodes of the level above have only marked children. */
  ghost function BothBelow(marked: seq<bool>): (r: seq<bool>)
    ensures |r| == Up(|marked|)
  {
    seq(Up(|marked|), k requires 0 <= k < Up(|marked|) =>
      marked[2 * k] && (2 * k + 1 < |marked| ==> marked[2 * k + 1]))
  }

  lemma BelowAll(has: seq<bool>)
    ensures (forall k :: 0 <= k < |has| ==> has[k]) <==> forall k :: 0 <= k < |BothBelow(has)| ==> BothBelow(has)[k]
  {
    if forall k :: 0 <= k < |BothBelow(has)| ==> BothBelow(has)[k] {
      forall k | 0 <= k < |has| ensures has[k] {
        assert BothBelow(has)[k / 2];
        assert k == 2 * (k / 2) || k == 2 * (k / 2) + 1;
      }
    }
  }

  /** The other child of the parent of node `i`: the source's `i ^ 1`. */
  function Sibling(i: nat): nat {
    if i % 2 == 0 then i + 1 else i - 1
  }

  /** Hash of node `i` (hash `h`) with its sibling (hash `x`), in left-to-right order. */
  function Join<H>(f: (H, H) -> H, i: nat, h: H, x: H): H {
    if i % 2 == 0 then f(h, x) else f(x, h)
  }

  /** A node and its sibling hash to their parent; a node without sibling is promoted. */
  lemma JoinGenuine<H>(f: (H, H) -> H, level: seq<H>, i: nat)
    requires i < |level|
    ensures Sibling(i) < |level| ==> Join(f, i, level[i], level[Sibling(i)]) == Next(f, level)[i / 2]
    ensures Sibling(i) >= |level| ==> level[i] == Next(f, level)[i / 2]
  {
    assert i == 2 * (i / 2) || i == 2 * (i / 2) + 1;
  }

  /** Climbing any number of levels does not change the root. */
  lemma {:induction false} RootOfLevelAt<H>(f: (H, H) -> H, s: seq<H>, k: nat)
    requires s != []
    ensures Root(f, LevelAt(f, s, k)) == Root(f, s)
    decreases k
  {
    if k > 0 {
      RootOfLevelAt(f, Next(f, s), k - 1);
      assert |s| == 1 ==> Next(f, s) == s;
    }
  }

  /** Levels above a power-of-two prefix and above the remainder do not interact. */
  lemma NextOfConcat<H>(f: (H, H) -> H, a: seq<H>, b: seq<H>)
    requires |a| % 2 == 0
    ensures Next(f, a + b) == Next(f, a) + Next(f, b)
  {
    var l, r := Next(f, a + b), Next(f, a) + Next(f, b);
    assert |l| == |r|;
    forall k | 0 <= k < |l| ensures l[k] == r[k] {
      if k >= |a| / 2 {
        assert (a + b)[2 * k] == b[2 * (k - |a| / 2)];
      }
    }
  }

  /** The roots of the consecutive chunks of `m` leaves of `s`, the last chunk possibly shorter. */
  function ChunkRoots<H>(f: (H, H) -> H, s: seq<H>, m: nat): (r: seq<H>)
    requires m >= 1
    ensures s != [] ==> r != []
    decreases |s|
  {
    if s == [] then []
    else if |s| <= m then [Root(f, s)]
    else [Root(f, s[..m])] + ChunkRoots(f, s[m..], m)
  }

  lemma {:induction false} LevelAtOfConcat<H>(f: (H, H) -> H, a: seq<H>, b: seq<H>, k: nat)
    requires |a| == Pow2(k)
    ensures LevelAt(f, a + b, k) == [Root(f, a)] + LevelAt(f, b, k)
    decreases k
  {
    if k > 0 {
      NextOfConcat(f, a, b);
      LevelAtOfConcat(f, Next(f, a), Next(f, b), k - 1);
    }
  }

  lemma {:induction false} LevelAtOfShort<H>(f: (H, H) -> H, a: seq<H>, k: nat)
    requires 1 <= |a| <= Pow2(k)
    ensures LevelAt(f, a, k) == [Root(f, a)]
    decreases k
  {
    if k > 0 {
      LevelAtOfShort(f, Next(f, a), k - 1);
      assert |a| == 1 ==> Next(f, a) == a;
    }
  }

  lemma {:induction false} LevelAtOfEmpty<H>(f: (H, H) -> H, k: nat)
    ensures LevelAt(f, [], k) == []
  {
    if k > 0 {
      assert Next(f, []) == [];
      LevelAtOfEmpty(f, k - 1);
    }
  }

  /** Level `k` consists of the roots of the aligned chunks of 2^k leaves. */
  lemma {:induction false} LevelAtIsChunkRoots<H>(f: (H, H) -> H, s: seq<H>, k: nat)
    ensures LevelAt(f, s, k) == ChunkRoots(f, s, Pow2(k))
    decreases |s|
  {
    var m := Pow2(k);
    if s == [] {
      LevelAtOfEmpty(f, k);
    } else if |s| <= m {
      LevelAtOfShort(f, s, k);
    } else {
      assert s == s[..m] + s[m..];
      LevelAtOfConcat(f, s[..m], s[m..], k);
      LevelAtIsChunkRoots(f, s[m..], k);
    }
  }

  /** A tree built over the roots of chunks of 2^k leaves has the root of the whole file. */
  lemma ChunkedRoot<H>(f: (H, H) -> H, s: seq<H>, k: nat)
    requires s != []
    ensures Root(f, ChunkRoots(f, s, Pow2(k))) == Root(f, s)
  {
    LevelAtIsChunkRoots(f, s, k);
    RootOfLevelAt(f, s, k);
  }
}
