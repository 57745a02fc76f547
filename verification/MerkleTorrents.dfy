/** Hashing a whole sub-file of a Merkle torrent: the tree, the verdicts on its pieces and the counters of missing
    bytes together. */
module MerkleTorrents {
  import opened Basics
  import opened Layout
  import opened Accounting
  import opened Storage
  import opened Torrents
  import opened MerkleLevels
  import opened MerkleFlat
  import opened MerkleSoundness
  import opened MerkleBuild
  import opened MerkleStream
  import opened MerkleTrees
  import opened MerkleHashing

  // What the tree says about the data.

  /** A root determines the leaves below it. */
  lemma {:induction false} RootDetermines<H(!new)>(f: (H, H) -> H, level: seq<H>, genuine: seq<H>)
    requires |level| == |genuine| >= 1 && NoSecondPreimage(f, genuine) && Root(f, level) == Root(f, genuine)
    ensures level == genuine
    decreases |level|
  {
    if |level| >= 2 {
      RootDetermines(f, Next(f, level), Next(f, genuine));
      forall i | 0 <= i < |level| ensures level[i] == genuine[i] {
        JoinGenuine(f, level, i);
        JoinGenuine(f, genuine, i);
        if Sibling(i) < |level| {
          JoinInjective(f, genuine, i, level[i], level[Sibling(i)]);
        }
      }
    }
  }

  /** A tree filled from all its leaves can be trusted for them. */
  lemma {:induction false} FilledIsSound<H>(f: (H, H) -> H, s: seq<Slot<H>>, level: seq<H>, has: seq<bool>,
                                            shield: seq<bool>)
    requires IsTree(s, |level|) && |has| == |shield| == |level| && Built(f, s, level, has)
    requires forall k :: 0 <= k < |has| ==> has[k]
    ensures Sound(f, s, level, shield)
    decreases |level|
  {
    var cover := Cover(s, shield);
    if |level| >= 2 {
      assert forall k :: 0 <= k < |cover| ==> cover[k];
      assert PairsAgree(cover) by {
        forall k: nat ensures PairAgrees(cover, k) {
        }
      }
      FilledIsSound(f, s[|level|..], Next(f, level), BothBelow(has), BothBelow(cover));
    }
  }

  /** The chunk roots of every piece of a sub-file. */
  ghost function PieceLeaves<H>(leaf: seq<byte> -> H, node: (H, H) -> H, ds: seq<seq<byte>>): (hss: seq<seq<H>>)
    ensures |hss| == |ds| && forall p :: 0 <= p < |ds| ==> hss[p] == FileLeaves(leaf, node, ds[p])
  {
    seq(|ds|, p requires 0 <= p < |ds| => FileLeaves(leaf, node, ds[p]))
  }

  lemma {:induction false} FileLeavesOfConcat<H>(leaf: seq<byte> -> H, node: (H, H) -> H, a: seq<byte>, b: seq<byte>)
    requires |a| % CHUNK == 0
    ensures FileLeaves(leaf, node, a + b) == FileLeaves(leaf, node, a) + FileLeaves(leaf, node, b)
    decreases |a|
  {
    if a == [] {
      assert a + b == b;
    } else {
      FileLeavesStep(leaf, node, a, CHUNK);
      FileLeavesStep(leaf, node, a + b, CHUNK);
      assert (a + b)[..CHUNK] == a[..CHUNK] && (a + b)[CHUNK..] == a[CHUNK..] + b;
      FileLeavesOfConcat(leaf, node, a[CHUNK..], b);
    }
  }

  /** The leaves of the pieces are the leaves of the whole sub-file, and have its root. */
  lemma {:induction false} WholeSubFile<H>(leaf: seq<byte> -> H, node: (H, H) -> H, ds: seq<seq<byte>>)
    requires forall p :: 0 <= p < |ds| - 1 ==> |ds[p]| % CHUNK == 0
    ensures Concat(PieceLeaves(leaf, node, ds)) == FileLeaves(leaf, node, Concat(ds))
    ensures Concat(ds) != [] ==> Root(node, Concat(PieceLeaves(leaf, node, ds))) == Root(node, Leaves(leaf, Concat(ds)))
  {
    if ds != [] {
      WholeSubFile(leaf, node, ds[1..]);
      assert PieceLeaves(leaf, node, ds)[1..] == PieceLeaves(leaf, node, ds[1..]);
      if |ds| == 1 {
        assert Concat(ds) == ds[0];
      } else {
        FileLeavesOfConcat(leaf, node, ds[0], Concat(ds[1..]));
      }
      if Concat(ds) != [] {
        FileLeavesRoot(leaf, node, Concat(ds));
      }
    }
  }

  // Hashing a sub-file.

  /** `ds` is what was read of the pieces of sub-file `k`, and `readOk` whether reading them succeeded. */
  ghost predicate ReadSubFile(m: Map, k: nat, ds: seq<seq<byte>>, readOk: seq<bool>) {
    m.PerFile() && k < |m.subs| && m.len >= 1 && |ds| == |readOk| == m.Count(k) &&
    m.First(k) + m.Count(k) <= |m.sizes| &&
    forall p :: 0 <= p < |ds| ==> |ds[p]| == m.sizes[m.First(k) + p] && |ds[p]| % SEGMENT == 0
  }

  /** The verdicts on the first `n` pieces: with the torrent's root in the tree, whether the leaves are there. */
  ghost predicate Verdicts<H>(s: seq<Slot<H>>, rooted: bool, hss: seq<seq<H>>, readOk: seq<bool>, n: nat, vs: seq<bool>)
    requires |hss| == |readOk| && n <= |hss| && Off(hss, |hss|) <= |s|
  {
    |vs| == n && forall q :: 0 <= q < n ==> (vs[q] <==> readOk[q] && (rooted ==> Matches(s, hss, q)))
  }

  /** The leaves of piece `q` are in the tree. */
  ghost predicate Matches<H>(s: seq<Slot<H>>, hss: seq<seq<H>>, q: nat)
    requires q < |hss| && Off(hss, |hss|) <= |s|
  {
    OffWithin(hss, q);
    HasLeaves(s, Off(hss, q), hss[q])
  }

  lemma OffWithin<T>(fs: seq<seq<T>>, k: nat)
    requires k < |fs|
    ensures Off(fs, k) + |fs[k]| == Off(fs, k + 1) <= Off(fs, |fs|) == |Concat(fs)|
    ensures Concat(fs)[Off(fs, k)..Off(fs, k) + |fs[k]|] == fs[k]
  {
    ReadFile(fs, k, 0, |fs[k]|);
    OffStep(fs, k);
    ConcatLength(fs);
    assert fs[k][0..|fs[k]|] == fs[k];
  }

  /** Pieces `f` to `f + |vs|` have the verdicts `vs`, the others those of `before`. */
  ghost predicate Judged(before: seq<bool>, after: seq<bool>, f: nat, vs: seq<bool>) {
    |after| == |before| && f + |vs| <= |before| &&
    (forall p :: 0 <= p < |before| && !(f <= p < f + |vs|) ==> after[p] == before[p]) &&
    forall q :: 0 <= q < |vs| ==> after[f + q] == vs[q]
  }

  ghost function None(n: nat): (vs: seq<bool>)
    ensures |vs| == n && forall q :: 0 <= q < n ==> !vs[q]
  {
    seq(n, _ => false)
  }

  /** One piece more: nothing is taken back before the last one, and everything with it if the root is missed. */
  lemma JudgedOne(m: Map, k: nat, f: nat, before: seq<bool>, now: seq<bool>, vs: seq<bool>, v: bool, bad: bool,
                  after: seq<bool>)
    requires m.PerFile() && k < |m.subs| && m.len >= 1 && f == m.First(k) && |vs| < m.Count(k)
    requires f + m.Count(k) <= |m.sizes| == |before| && Judged(before, now, f, vs)
    requires TakenBack(m, bad, f + |vs|, now[f + |vs| := v], after)
    ensures Judged(before, after, f, if bad && |vs| + 1 == m.Count(k) then None(m.Count(k)) else vs + [v])
  {
    var i := f + |vs|;
    assert m.OwnsPieces(k, f, m.Count(k));
    InsideSubFile(m, k, i);
    forall p | 0 <= p < |before|
      ensures after[p] <==> now[i := v][p] && !(bad && |vs| + 1 == m.Count(k) && f <= p < f + m.Count(k))
    {
      EndingPieces(m, i, k, p);
    }
  }

  lemma InsideSubFile(m: Map, k: nat, i: nat)
    requires m.PerFile() && k < |m.subs| && m.len >= 1 && m.First(k) <= i < m.First(k) + m.Count(k) <= |m.sizes|
    ensures m.subs[k].offset < m.Stop(i) <= m.subs[k].End()
    ensures m.Stop(i) == m.subs[k].End() <==> i + 1 == m.First(k) + m.Count(k)
  {
    var f, c := m.First(k), m.Count(k);
    assert m.OwnsPieces(k, f, c);
    InOrder(m, f, i);
    InOrder(m, i, f + c - 1);
  }

  /** The tree while the first `n` pieces have been hashed: as it was if it had the root, else filled so far. */
  ghost predicate TreeUnderway<H>(node: (H, H) -> H, zero: H, s0: seq<Slot<H>>, s: seq<Slot<H>>, rooted: bool,
                              hss: seq<seq<H>>, n: nat)
    requires n <= |hss| && IsTree(s, |Concat(hss)|)
  {
    if rooted then s == s0 else Filling(node, zero, s, Concat(hss), Off(hss, n))
  }

  /** Hashes piece `p` of sub-file `k`, whose leaves begin at `j0`. */
  method HashNext<H(==, !new)>(t: Torrent, ghost k: nat, leaf: seq<byte> -> H, tree: MerkleTree<H>, root: H,
                               d: seq<byte>, readOk: bool, j0: nat, ghost p: nat, ghost ds: seq<seq<byte>>,
                               ghost readOks: seq<bool>, ghost vs: seq<bool>, ghost flags0: seq<bool>,
                               ghost s0: seq<Slot<H>>)
    returns (j: nat, ghost v: bool)
    requires t.Hashing() && t.merkle && ReadSubFile(t.layout, k, ds, readOks) && p < |ds| &&
      t.i == t.layout.First(k) + p
    requires d == ds[p] && readOk == readOks[p] && tree.Valid() && |s0| == TreeSize(tree.size)
    requires var hss := PieceLeaves(leaf, tree.node, ds);
      |Concat(hss)| == tree.size >= 1 && Off(hss, |hss|) <= |s0| && j0 == Off(hss, p) &&
      var rooted := s0[|s0| - 1].hash == root;
      (rooted || root != tree.zero) &&
      TreeUnderway(tree.node, tree.zero, s0, tree.Slots(), rooted, hss, p) && Verdicts(s0, rooted, hss, readOks, p, vs)
    requires |vs| == p && |flags0| == |t.pieces| && Judged(flags0, t.Flags(), t.layout.First(k), vs)
    modifies t, t.pieces, tree.d
    ensures t.Hashing() && t.i == t.layout.First(k) + p + 1 && tree.Valid()
    ensures var hss := PieceLeaves(leaf, tree.node, ds);
      var rooted := s0[|s0| - 1].hash == root;
      j == Off(hss, p + 1) && TreeUnderway(tree.node, tree.zero, s0, tree.Slots(), rooted, hss, p + 1) &&
      Verdicts(s0, rooted, hss, readOks, p + 1, vs + [v])
    ensures Judged(flags0, t.Flags(), t.layout.First(k),
                   if tree.Slots()[TreeSize(tree.size) - 1].hash != root && p + 1 == |ds| then None(|ds|) else vs + [v])
  {
    hide Filling, HasLeaves, Judged, Concat, Off, Map.PerFile, TakenBack, FileLeaves, TreeSize, Ledger,
         Torrent.Structure, Torrent.StructureBut, Torrent.AtPiece, Torrent.Flags;
    ghost var hss := PieceLeaves(leaf, tree.node, ds);
    PerPiece(t);
    PieceReadable(t.layout, k, ds, readOks, p);
    assert hss[p] == FileLeaves(leaf, tree.node, d) && |hss[p]| > 0;
    OffWithin(hss, p);
    StillOpen(tree.node, tree.zero, s0, tree.Slots(), root, hss, p);
    var verdict;
    verdict, j := CheckChunks(leaf, tree, root, d, readOk, j0, Concat(hss));
    v := verdict;
    var top := tree.GetRoot();
    ghost var now := t.Flags();
    var more := t.Run(true, verdict, top == root);
    JudgedOne(t.layout, k, t.layout.First(k), flags0, now, vs, v, top != root, t.Flags());
  }

  lemma PerPiece(t: Torrent)
    requires t.Structure()
    ensures |t.pieces| == |t.layout.sizes| && t.layout.Ordered()
  {
  }

  lemma PieceReadable(m: Map, k: nat, ds: seq<seq<byte>>, readOk: seq<bool>, p: nat)
    requires ReadSubFile(m, k, ds, readOk) && p < |ds|
    ensures ds[p] != [] && m.First(k) + p < |m.sizes|
  {
    InOrder(m, m.First(k) + p, m.First(k) + p);
  }

  /** A tree being filled does not have the root before the last piece. */
  lemma StillOpen<H>(node: (H, H) -> H, zero: H, s0: seq<Slot<H>>, s: seq<Slot<H>>, root: H, hss: seq<seq<H>>, p: nat)
    requires p < |hss| && IsTree(s, |Concat(hss)|) && |s0| == |s| && |hss[p]| > 0
    requires TreeUnderway(node, zero, s0, s, s0[|s0| - 1].hash == root, hss, p)
    requires s0[|s0| - 1].hash == root || root != zero
    ensures s[|s| - 1].hash == root <==> s0[|s0| - 1].hash == root
    ensures s[|s| - 1].hash != root ==> Filling(node, zero, s, Concat(hss), Off(hss, p))
  {
    OffWithin(hss, p);
  }

  /** The verdicts on the pieces of a sub-file: with the torrent's root in the tree, whether the leaves are there,
      and otherwise whether the data has that root. */
  ghost function Expected<H>(node: (H, H) -> H, root: H, hss: seq<seq<H>>, readOk: seq<bool>,
                             s0: seq<Slot<H>>): (vs: seq<bool>)
    requires |hss| == |readOk| && IsTree(s0, |Concat(hss)|) && Off(hss, |hss|) == |Concat(hss)|
    ensures |vs| == |hss|
  {
    seq(|hss|, q requires 0 <= q < |hss| =>
      readOk[q] && if s0[|s0| - 1].hash == root then Matches(s0, hss, q) else Root(node, Concat(hss)) == root)
  }

  /** The tree afterwards. */
  ghost predicate TreeAfter<H>(node: (H, H) -> H, zero: H, root: H, level: seq<H>, s0: seq<Slot<H>>, s1: seq<Slot<H>>)
    requires IsTree(s0, |level|)
  {
    |s1| == |s0| &&
    if s0[|s0| - 1].hash == root then s1 == s0
    else if Root(node, level) == root then Built(node, s1, level, Prefix(|level|, |level|))
    else s1 == OnlyRoot(|level|, zero, root)
  }

  /** The torrent's root belongs to the leaves `genuine`, and the tree is new or can be trusted for them.  (A root of
      all zeros cannot be told from that of a new tree.) */
  ghost predicate TrustedBefore<H(!new)>(node: (H, H) -> H, zero: H, root: H, s0: seq<Slot<H>>, n: nat,
                                         genuine: seq<H>) {
    |genuine| == n >= 1 && IsTree(s0, n) && Root(node, genuine) == root && NoSecondPreimage(node, genuine) &&
    ((Sound(node, s0, genuine, NoShield(n)) && s0[|s0| - 1] == Slot(true, root)) ||
     (s0 == Empty(n, zero) && root != zero))
  }

  /** Piece `p` was read, and its chunks are the genuine ones. */
  ghost predicate Genuinely<H>(hss: seq<seq<H>>, readOk: seq<bool>, genuine: seq<H>, p: nat)
    requires |hss| == |readOk| && p < |hss| && Off(hss, |hss|) <= |genuine|
  {
    OffWithin(hss, p);
    readOk[p] && hss[p] == genuine[Off(hss, p)..Off(hss, p) + |hss[p]|]
  }

  ghost predicate AllGenuinely<H>(hss: seq<seq<H>>, readOk: seq<bool>, genuine: seq<H>, vs: seq<bool>)
    requires |hss| == |readOk| == |vs| && Off(hss, |hss|) <= |genuine|
  {
    forall p :: 0 <= p < |hss| && vs[p] ==> Genuinely(hss, readOk, genuine, p)
  }

  lemma TrustAfter<H(!new)>(node: (H, H) -> H, zero: H, root: H, hss: seq<seq<H>>, readOk: seq<bool>,
                            s0: seq<Slot<H>>, s1: seq<Slot<H>>, genuine: seq<H>)
    requires |hss| == |readOk| && IsTree(s0, |Concat(hss)|) && Off(hss, |hss|) == |Concat(hss)|
    requires TreeAfter(node, zero, root, Concat(hss), s0, s1)
    requires TrustedBefore(node, zero, root, s0, |Concat(hss)|, genuine)
    ensures Sound(node, s1, genuine, NoShield(|genuine|)) && s1[|s1| - 1] == Slot(true, root)
    ensures AllGenuinely(hss, readOk, genuine, Expected(node, root, hss, readOk, s0))
  {
    hide Built, Sound, NoSecondPreimage, TreeSize, Root, Concat, Off;
    var level, n, vs := Concat(hss), |Concat(hss)|, Expected(node, root, hss, readOk, s0);
    if s0[|s0| - 1].hash == root {
      forall p | 0 <= p < |hss| && vs[p] ensures Genuinely(hss, readOk, genuine, p) {
        LeavesAreGenuine(node, s0, genuine, hss, p);
      }
    } else if Root(node, level) == root {
      RootDetermines(node, level, genuine);
      FilledIsSound(node, s1, level, Prefix(n, n), NoShield(n));
      BuiltLast(node, s1, level, Prefix(n, n));
      forall p | 0 <= p < |hss| && vs[p] ensures Genuinely(hss, readOk, genuine, p) {
        OffWithin(hss, p);
      }
    } else {
      OnlyRootSound(node, s1, genuine);
    }
  }

  /** Leaves that a trusted tree holds are genuine. */
  lemma LeavesAreGenuine<H>(node: (H, H) -> H, s: seq<Slot<H>>, genuine: seq<H>, hss: seq<seq<H>>, p: nat)
    requires IsTree(s, |genuine|) && Sound(node, s, genuine, NoShield(|genuine|))
    requires Off(hss, |hss|) == |genuine| && p < |hss| && Matches(s, hss, p)
    ensures var o := Off(hss, p); o + |hss[p]| <= |genuine| && hss[p] == genuine[o..o + |hss[p]|]
  {
    OffWithin(hss, p);
    var o := Off(hss, p);
    forall q | 0 <= q < |hss[p]| ensures hss[p][q] == genuine[o + q] {
      assert s[o + q] == Slot(true, hss[p][q]);
    }
  }

  /** Hashes all pieces of sub-file `k`.  If the tree has the torrent's root, a piece is valid iff it could be read
      and its chunks are the leaves in the tree, and the tree stays as it is.  If not, the tree is filled: when that
      gives the root, the pieces that could be read are valid; otherwise none is, and the tree holds only the root.
      Main result: either way the counters are exact, the tree can be trusted for the genuine leaves, and every
      valid piece has the genuine chunks. */
  method HashSubFile<H(==, !new)>(t: Torrent, ghost k: nat, leaf: seq<byte> -> H, tree: MerkleTree<H>, root: H,
                                  ds: seq<seq<byte>>, readOk: seq<bool>)
    requires t.Hashing() && t.merkle && ReadSubFile(t.layout, k, ds, readOk) && t.i == t.layout.First(k)
    requires tree.Valid() && |Concat(PieceLeaves(leaf, tree.node, ds))| == tree.size >= 1
    requires tree.Slots()[TreeSize(tree.size) - 1].hash == root || tree.Slots() == Empty(tree.size, tree.zero)
    modifies t, t.pieces, tree.d
    ensures t.Hashing() && t.i == t.layout.First(k) + |ds| && tree.Valid()
    ensures var hss, s0 := PieceLeaves(leaf, tree.node, ds), old(tree.Slots());
      Off(hss, |hss|) == tree.size && TreeAfter(tree.node, tree.zero, root, Concat(hss), s0, tree.Slots()) &&
      Judged(old(t.Flags()), t.Flags(), t.layout.First(k), Expected(tree.node, root, hss, readOk, s0)) &&
      forall genuine :: TrustedBefore(tree.node, tree.zero, root, s0, tree.size, genuine) ==>
        tree.Trusted(genuine) && AllGenuinely(hss, readOk, genuine, Expected(tree.node, root, hss, readOk, s0))
  {
    hide Filling, HasLeaves, Judged, Concat, Off, Map.PerFile, FileLeaves, TreeSize, Ledger, Built, Sound,
         NoSecondPreimage, Root, Matches, Torrent.Structure, Torrent.StructureBut, Torrent.AtPiece, Torrent.Flags;
    ghost var hss, s0, flags0, f := PieceLeaves(leaf, tree.node, ds), tree.Slots(), t.Flags(), t.layout.First(k);
    ghost var vs: seq<bool> := [];
    PerPiece(t);
    HashingStart(tree.node, tree.zero, root, s0, hss, readOk, flags0, f);
    var j, p := 0, 0;
    while p < |ds|
      invariant 0 <= p <= |ds| && t.Hashing() && t.i == f + p && tree.Valid() && j == Off(hss, p) && |vs| == p
      invariant TreeUnderway(tree.node, tree.zero, s0, tree.Slots(), s0[|s0| - 1].hash == root, hss, p)
      invariant Verdicts(s0, s0[|s0| - 1].hash == root, hss, readOk, p, vs)
      invariant Judged(flags0, t.Flags(), f,
                       if p == |ds| && tree.Slots()[TreeSize(tree.size) - 1].hash != root then None(|ds|) else vs)
    {
      ghost var v;
      j, v := HashNext(t, k, leaf, tree, root, ds[p], readOk[p], j, p, ds, readOk, vs, flags0, s0);
      vs := vs + [v];
      p := p + 1;
    }
    SettleTree(tree, root, hss, readOk, s0, vs);
  }

  /** Takes the tree back to its root if filling it did not give that root. */
  method SettleTree<H(==, !new)>(tree: MerkleTree<H>, root: H, ghost hss: seq<seq<H>>, ghost readOk: seq<bool>,
                                 ghost s0: seq<Slot<H>>, ghost vs: seq<bool>)
    requires tree.Valid() && |Concat(hss)| == tree.size == Off(hss, |hss|) && tree.size >= 1 && |hss| == |readOk|
    requires |s0| == TreeSize(tree.size)
    requires TreeUnderway(tree.node, tree.zero, s0, tree.Slots(), s0[|s0| - 1].hash == root, hss, |hss|)
    requires Verdicts(s0, s0[|s0| - 1].hash == root, hss, readOk, |hss|, vs)
    modifies tree.d
    ensures tree.Valid() && TreeAfter(tree.node, tree.zero, root, Concat(hss), s0, tree.Slots())
    ensures Expected(tree.node, root, hss, readOk, s0) ==
            if old(tree.Slots()[TreeSize(tree.size) - 1].hash) == root then vs else None(|hss|)
    ensures forall genuine :: TrustedBefore(tree.node, tree.zero, root, s0, tree.size, genuine) ==>
      tree.Trusted(genuine) && AllGenuinely(hss, readOk, genuine, Expected(tree.node, root, hss, readOk, s0))
  {
    hide Filling, HasLeaves, Concat, Off, TreeSize, Built, Sound, NoSecondPreimage, Root, Matches;
    ghost var s := tree.Slots();
    var top := tree.GetRoot();
    if top != root {
      tree.Invalidate();
      tree.SetRoot(root);
    }
    HashingEnd(tree.node, tree.zero, root, s0, s, tree.Slots(), hss, readOk, vs);
    forall genuine | TrustedBefore(tree.node, tree.zero, root, s0, tree.size, genuine)
      ensures tree.Trusted(genuine) && AllGenuinely(hss, readOk, genuine, Expected(tree.node, root, hss, readOk, s0))
    {
      TrustAfter(tree.node, tree.zero, root, hss, readOk, s0, tree.Slots(), genuine);
    }
  }

  lemma HashingStart<H>(node: (H, H) -> H, zero: H, root: H, s0: seq<Slot<H>>, hss: seq<seq<H>>, readOk: seq<bool>,
                        flags0: seq<bool>, f: nat)
    requires IsTree(s0, |Concat(hss)|) && |hss| == |readOk| && f <= |flags0|
    requires s0[|s0| - 1].hash == root || s0 == Empty(|Concat(hss)|, zero)
    ensures Off(hss, 0) == 0 && Off(hss, |hss|) == |Concat(hss)| && Judged(flags0, flags0, f, [])
    ensures s0[|s0| - 1].hash == root || root != zero
    ensures TreeUnderway(node, zero, s0, s0, s0[|s0| - 1].hash == root, hss, 0)
    ensures Verdicts(s0, s0[|s0| - 1].hash == root, hss, readOk, 0, [])
  {
    ConcatLength(hss);
    FillingStart(node, zero, Concat(hss));
  }

  lemma HashingEnd<H>(node: (H, H) -> H, zero: H, root: H, s0: seq<Slot<H>>, s: seq<Slot<H>>, s1: seq<Slot<H>>,
                      hss: seq<seq<H>>, readOk: seq<bool>, vs: seq<bool>)
    requires IsTree(s0, |Concat(hss)|) && IsTree(s, |Concat(hss)|) && |hss| == |readOk| &&
      Off(hss, |hss|) == |Concat(hss)|
    requires TreeUnderway(node, zero, s0, s, s0[|s0| - 1].hash == root, hss, |hss|)
    requires Verdicts(s0, s0[|s0| - 1].hash == root, hss, readOk, |hss|, vs)
    requires s1 == if s[|s| - 1].hash == root then s else OnlyRoot(|Concat(hss)|, zero, root)
    ensures TreeAfter(node, zero, root, Concat(hss), s0, s1)
    ensures Expected(node, root, hss, readOk, s0) == if s[|s| - 1].hash == root then vs else None(|hss|)
  {
    hide Built, TreeSize, Root, Concat, Off;
    if s0[|s0| - 1].hash != root {
      FillingEnd(node, zero, s, Concat(hss));
    }
  }
}
