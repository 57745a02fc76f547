/** Hashing a whole Merkle torrent, sub-file after sub-file, from files laid out with gaps between them. */
module MerkleWhole {
  import opened Basics
  import opened Layout
  import opened Accounting
  import opened Storage
  import opened Torrents
  import opened MerkleLevels
  import opened MerkleFlat
  import opened MerkleSoundness
  import opened MerkleStream
  import opened MerkleTrees
  import opened MerkleHashing
  import opened MerkleTorrents

  // The files and their pieces.

  /** Every file has the size of its sub-file, and everything comes in whole segments and chunks. */
  ghost predicate OnFiles(m: Map, files: seq<seq<byte>>) {
    m.PerFile() && m.Seamless() && m.Aligned() && m.len % CHUNK == 0 && |files| == |m.subs| &&
    forall k :: 0 <= k < |files| ==> |files[k]| == m.subs[k].size && |files[k]| % SEGMENT == 0
  }

  /** The bytes of piece `p` of sub-file `k`. */
  ghost function PieceOf(m: Map, files: seq<seq<byte>>, k: nat, p: nat): (d: seq<byte>)
    requires OnFiles(m, files) && k < |files| && p < m.Count(k)
  {
    PieceInFile(m, k, p);
    var o := m.starts[m.First(k) + p] - m.subs[k].offset;
    files[k][o..o + m.sizes[m.First(k) + p]]
  }

  lemma PieceInFile(m: Map, k: nat, p: nat)
    requires m.PerFile() && k < |m.subs| && p < m.Count(k)
    ensures m.Ordered() && m.First(k) + p < |m.sizes| && m.First(k) + m.Count(k) <= |m.sizes|
    ensures m.subs[k].offset <= m.starts[m.First(k) + p] && m.Stop(m.First(k) + p) <= m.subs[k].End()
  {
    var f, c := m.First(k), m.Count(k);
    assert m.OwnsPieces(k, f, c);
    InOrder(m, f, f + p);
    InOrder(m, f + p, f + c - 1);
  }

  /** All pieces of a sub-file but the last have full length. */
  lemma PieceLength(m: Map, k: nat, p: nat)
    requires m.PerFile() && m.Aligned() && k < |m.subs| && p < m.Count(k)
    ensures m.First(k) + p < |m.sizes|
    ensures p + 1 < m.Count(k) ==> m.sizes[m.First(k) + p] == m.len
    ensures m.starts[m.First(k) + p] == m.subs[k].offset + p * m.len
  {
    hide Map.PerFile, Map.First, Map.Count, Map.Aligned;
    Owns(m, k);
    var f, c := m.First(k), m.Count(k);
    StartAt(m, f);
    StartAt(m, f + p);
    Distribute(f, p, m.len);
    if p + 1 < c {
      assert m.Stop(f + p) == m.starts[f + p + 1];
      StartAt(m, f + p + 1);
    }
  }

  lemma Owns(m: Map, k: nat)
    requires m.PerFile() && k < |m.subs|
    ensures m.Ordered() && m.OwnsPieces(k, m.First(k), m.Count(k))
  {
  }

  lemma StartAt(m: Map, p: nat)
    requires m.Aligned() && p < |m.starts|
    ensures m.starts[p] == p * m.len
  {
  }

  lemma Distribute(f: nat, p: nat, len: nat)
    ensures (f + p) * len == f * len + p * len && (f + p + 1) * len == (f + p) * len + len
  {
  }

  lemma WholeSegments(m: Map, files: seq<seq<byte>>, k: nat, p: nat)
    requires OnFiles(m, files) && k < |files| && p < m.Count(k)
    ensures m.First(k) + p < |m.sizes| && m.sizes[m.First(k) + p] % SEGMENT == 0
  {
    hide Map.Seamless, Map.Aligned;
    PieceLength(m, k, p);
    var f, c := m.First(k), m.Count(k);
    assert m.OwnsPieces(k, f, c);
    if p + 1 == c {
      Multiple(p, m.len);
      Segments(|files[k]|, p * m.len, m.sizes[f + p]);
    } else {
      Segments(m.len, 0, m.len);
    }
  }

  lemma Segments(size: nat, done: nat, rest: nat)
    requires (size % SEGMENT == 0 || size % CHUNK == 0) && done % CHUNK == 0 && size == done + rest
    ensures rest % SEGMENT == 0
  {
  }

  lemma Multiple(p: nat, len: nat)
    requires len % CHUNK == 0
    ensures p * len % CHUNK == 0
  {
    var q := len / CHUNK;
    assert len == q * CHUNK;
    assert p * len == (p * q) * CHUNK;
  }

  /** Sub-files have their pieces one after the other. */
  lemma NextFirst(m: Map, k: nat)
    requires m.PerFile() && m.Seamless() && k < |m.subs|
    ensures m.len >= 1 && m.First(0) == 0
    ensures k + 1 < |m.subs| ==> m.First(k + 1) == m.First(k) + m.Count(k)
    ensures k + 1 == |m.subs| ==> m.First(k) + m.Count(k) == |m.sizes|
  {
    var f, c := m.First(k), m.Count(k);
    assert m.OwnsPieces(k, f, c);
    if f + c < |m.sizes| {
      NextCursor(m, f + c - 1, k);
      var g := m.First(k + 1);
      assert m.OwnsPieces(k + 1, g, m.Count(k + 1));
      InOrder(m, g, f + c);
      InOrder(m, f + c, g);
    } else if k + 1 < |m.subs| {
      var g := m.First(k + 1);
      assert m.OwnsPieces(k + 1, g, m.Count(k + 1));
      InOrder(m, g, f + c - 1);
    }
  }

  // The number of leaves.

  lemma {:induction false} LeafCount<H>(leaf: seq<byte> -> H, node: (H, H) -> H, r: seq<byte>)
    ensures |FileLeaves(leaf, node, r)| == (|r| + CHUNK - 1) / CHUNK
    decreases |r|
  {
    if |r| > CHUNK {
      LeafCount(leaf, node, r[CHUNK..]);
    }
  }

  /** What was read of the pieces is as long as the sub-file. */
  lemma {:induction false} ReadLength(m: Map, k: nat, ds: seq<seq<byte>>, readOk: seq<bool>, q: nat)
    requires m.Aligned() && ReadSubFile(m, k, ds, readOk) && q <= |ds|
    ensures Off(ds, q) == if q < |ds| then q * m.len else m.subs[k].size
  {
    if q > 0 {
      ReadLength(m, k, ds, readOk, q - 1);
      PieceLength(m, k, q - 1);
      OffStep(ds, q - 1);
      assert q * m.len == (q - 1) * m.len + m.len;
      if q == |ds| {
        assert m.OwnsPieces(k, m.First(k), m.Count(k));
      }
    } else {
      assert m.OwnsPieces(k, m.First(k), m.Count(k));
      assert 0 * m.len == 0;
    }
  }

  lemma TreeFits<H>(leaf: seq<byte> -> H, node: (H, H) -> H, m: Map, k: nat, ds: seq<seq<byte>>, readOk: seq<bool>)
    requires m.Aligned() && m.len % CHUNK == 0 && ReadSubFile(m, k, ds, readOk)
    ensures |Concat(PieceLeaves(leaf, node, ds))| == (m.subs[k].size + CHUNK - 1) / CHUNK
  {
    forall p | 0 <= p < |ds| - 1 ensures |ds[p]| % CHUNK == 0 {
      PieceLength(m, k, p);
    }
    WholeSubFile(leaf, node, ds);
    LeafCount(leaf, node, Concat(ds));
    ConcatLength(ds);
    ReadLength(m, k, ds, readOk, |ds|);
  }

  // Reading.

  /** Reads `size0` bytes at `offset0`, which lie in sub-file `k`: the sub-files before it are passed over. */
  method ReadGapped(subs: seq<SubFile>, files: seq<seq<byte>>, offset0: nat, size0: nat, ghost k: nat)
    returns (d: seq<byte>)
    requires |files| == |subs| && k < |subs| && |files[k]| == subs[k].size && size0 > 0
    requires forall j :: 0 <= j < k ==> subs[j].End() <= offset0
    requires subs[k].offset <= offset0 && offset0 + size0 <= subs[k].End()
    ensures d == files[k][offset0 - subs[k].offset..offset0 - subs[k].offset + size0]
  {
    d := [];
    var offset, size, j := offset0, size0, 0;
    while j < |subs|
      invariant j <= k && offset == offset0 && size == size0 && d == []
    {
      if offset < subs[j].End() {
        assert j == k;
        var cb := Min(size, subs[j].End() - offset);
        d := d + files[j][offset - subs[j].offset..offset - subs[j].offset + cb];
        return;
      }
      j := j + 1;
    }
  }

  /** What a failed read leaves in the buffer: anything. */
  method Garbage(n: nat) returns (d: seq<byte>)
    ensures |d| == n
  {
    d := [];
    while |d| < n
      invariant |d| <= n
    {
      var x: byte :| true;
      d := d + [x];
    }
  }

  /** Reads the pieces of sub-file `k`; any of the reads may fail. */
  method ReadPieces(m: Map, files: seq<seq<byte>>, k: nat) returns (ds: seq<seq<byte>>, readOk: seq<bool>)
    requires OnFiles(m, files) && k < |files|
    ensures ReadSubFile(m, k, ds, readOk)
    ensures forall p :: 0 <= p < |ds| && readOk[p] ==> ds[p] == PieceOf(m, files, k, p)
  {
    ds, readOk := [], [];
    NextFirst(m, k);
    assert m.OwnsPieces(k, m.First(k), m.Count(k));
    var p, f := 0, m.First(k);
    while p < m.Count(k)
      invariant p <= m.Count(k) && |ds| == |readOk| == p
      invariant forall q :: 0 <= q < p ==> |ds[q]| == m.sizes[f + q] && |ds[q]| % SEGMENT == 0
      invariant forall q :: 0 <= q < p && readOk[q] ==> ds[q] == PieceOf(m, files, k, q)
    {
      var d, ok := ReadOne(m, files, k, p);
      ds, readOk, p := ds + [d], readOk + [ok], p + 1;
    }
  }

  method ReadOne(m: Map, files: seq<seq<byte>>, k: nat, p: nat) returns (d: seq<byte>, ok: bool)
    requires OnFiles(m, files) && k < |files| && p < m.Count(k)
    ensures m.First(k) + p < |m.sizes| && |d| == m.sizes[m.First(k) + p] && |d| % SEGMENT == 0
    ensures ok ==> d == PieceOf(m, files, k, p)
  {
    hide Map.Seamless, Map.Aligned, Map.PerFile;
    PieceInFile(m, k, p);
    WholeSegments(m, files, k, p);
    InOrder(m, m.First(k) + p, m.First(k) + p);
    var i := m.First(k) + p;
    ok := *;
    if ok {
      d := ReadGapped(m.subs, files, m.starts[i], m.sizes[i], k);
    } else {
      d := Garbage(m.sizes[i]);
    }
  }

  // The whole torrent.

  /** The trees of the sub-files, each with its torrent's root or new, and none sharing its slots with another. */
  ghost predicate Trees<H(!new)>(m: Map, trees: seq<MerkleTree<H>>, roots: seq<H>, from: nat)
    reads trees, set k | 0 <= k < |trees| :: trees[k].d
  {
    |trees| == |roots| == |m.subs| &&
    (forall j, k :: 0 <= j < k < |trees| ==> trees[j] != trees[k] && trees[j].d != trees[k].d) &&
    (forall k :: 0 <= k < |trees| ==> trees[k].Valid() && trees[k].size == (m.subs[k].size + CHUNK - 1) / CHUNK) &&
    (forall k :: from <= k < |trees| ==> trees[k].size >= 1 && Ready(trees[k], roots[k]))
  }

  ghost predicate Ready<H(!new)>(tree: MerkleTree<H>, root: H)
    reads tree, tree.d
    requires tree.Valid() && tree.size >= 1
  {
    tree.Slots()[TreeSize(tree.size) - 1].hash == root || tree.Slots() == Empty(tree.size, tree.zero)
  }

  /** How sub-file `k` came out: tree `s1` after `s0`, and the verdicts on its pieces. */
  ghost predicate Settled<H>(m: Map, k: nat, node: (H, H) -> H, zero: H, root: H, hss: seq<seq<H>>, readOk: seq<bool>,
                             s0: seq<Slot<H>>, s1: seq<Slot<H>>, flags: seq<bool>)
  {
    m.len >= 1 && k < |m.subs| && |hss| == |readOk| == m.Count(k) && m.First(k) + |hss| <= |flags| &&
    IsTree(s0, |Concat(hss)|) && Off(hss, |hss|) == |Concat(hss)| && TreeAfter(node, zero, root, Concat(hss), s0, s1) &&
    forall q :: 0 <= q < |hss| ==> flags[m.First(k) + q] == Expected(node, root, hss, readOk, s0)[q]
  }

  lemma StaysSettled<H>(m: Map, k: nat, node: (H, H) -> H, zero: H, root: H, hss: seq<seq<H>>, readOk: seq<bool>,
                        s0: seq<Slot<H>>, s1: seq<Slot<H>>, flags: seq<bool>, flags': seq<bool>, f: nat, vs: seq<bool>)
    requires Settled(m, k, node, zero, root, hss, readOk, s0, s1, flags) && Judged(flags, flags', f, vs)
    requires m.First(k) + m.Count(k) <= f
    ensures Settled(m, k, node, zero, root, hss, readOk, s0, s1, flags')
  {
  }

  lemma FirstRises(m: Map, j: nat, k: nat)
    requires m.PerFile() && m.Seamless() && j < k < |m.subs|
    ensures m.First(j) + m.Count(j) <= m.First(k)
  {
    assert m.OwnsPieces(j, m.First(j), m.Count(j)) && m.OwnsPieces(k, m.First(k), m.Count(k));
    InOrder(m, m.First(k), m.First(j) + m.Count(j) - 1);
  }

  /** Hashes sub-file `k` from its file. */
  method HashFile<H(==, !new)>(t: Torrent, k: nat, leaf: seq<byte> -> H, tree: MerkleTree<H>, root: H,
                               files: seq<seq<byte>>)
    returns (ghost hss: seq<seq<H>>, ghost readOk: seq<bool>)
    requires t.Hashing() && t.merkle && OnFiles(t.layout, files) && k < |files| && t.i == t.layout.First(k)
    requires tree.Valid() && tree.size == (t.layout.subs[k].size + CHUNK - 1) / CHUNK && tree.size >= 1
    requires Ready(tree, root)
    modifies t, t.pieces, tree.d
    ensures t.Hashing() && t.i == t.layout.First(k) + t.layout.Count(k) && tree.Valid()
    ensures FromFile(t.layout, files, leaf, tree.node, k, hss, readOk)
    ensures Settled(t.layout, k, tree.node, tree.zero, root, hss, readOk, old(tree.Slots()), tree.Slots(), t.Flags())
    ensures exists vs :: Judged(old(t.Flags()), t.Flags(), t.layout.First(k), vs)
  {
    hide Map.Seamless, Map.Aligned, Map.PerFile, Concat, Off, TreeSize, FileLeaves, TreeAfter,
         Torrent.Structure, Torrent.AtPiece, Torrent.Flags, Ledger;
    var ds, ok := ReadPieces(t.layout, files, k);
    readOk := ok;
    hss := PieceLeaves(leaf, tree.node, ds);
    TreeFits(leaf, tree.node, t.layout, k, ds, ok);
    ghost var s0 := tree.Slots();
    HashSubFile(t, k, leaf, tree, root, ds, ok);
    forall p | 0 <= p < |hss| ensures |hss[p]| == (t.layout.sizes[t.layout.First(k) + p] + CHUNK - 1) / CHUNK {
      LeafCount(leaf, tree.node, ds[p]);
    }
    ghost var vs := Expected(tree.node, root, hss, ok, s0);
    assert Judged(old(t.Flags()), t.Flags(), t.layout.First(k), vs);
  }

  /** `hss` are the chunk roots of the pieces of sub-file `k`, wherever reading succeeded. */
  ghost predicate FromFile<H>(m: Map, files: seq<seq<byte>>, leaf: seq<byte> -> H, node: (H, H) -> H, k: nat,
                              hss: seq<seq<H>>, readOk: seq<bool>)
    requires OnFiles(m, files) && k < |files|
  {
    |hss| == |readOk| == m.Count(k) && m.First(k) + |hss| <= |m.sizes| &&
    |Concat(hss)| == (m.subs[k].size + CHUNK - 1) / CHUNK &&
    (forall p :: 0 <= p < |hss| ==> |hss[p]| == (m.sizes[m.First(k) + p] + CHUNK - 1) / CHUNK) &&
    forall p :: 0 <= p < |hss| && readOk[p] ==> hss[p] == FileLeaves(leaf, node, PieceOf(m, files, k, p))
  }

  /** The first `n` sub-files are settled, the trees of the others, now with the slots `s1s`, are as they were. */
  ghost predicate SettledTo<H(!new)>(m: Map, trees: seq<MerkleTree<H>>, roots: seq<H>, n: nat, flags: seq<bool>,
                                     s0s: seq<seq<Slot<H>>>, s1s: seq<seq<Slot<H>>>, hsss: seq<seq<seq<H>>>,
                                     readOks: seq<seq<bool>>)
  {
    n <= |trees| == |roots| == |s0s| == |s1s| && |hsss| == |readOks| == n &&
    (forall k :: 0 <= k < n ==> SettledAt(m, trees, roots, k, flags, s0s, s1s, hsss[k], readOks[k])) &&
    (forall k :: n <= k < |trees| ==> s1s[k] == s0s[k])
  }

  ghost predicate SettledAt<H(!new)>(m: Map, trees: seq<MerkleTree<H>>, roots: seq<H>, k: nat, flags: seq<bool>,
                                     s0s: seq<seq<Slot<H>>>, s1s: seq<seq<Slot<H>>>, hss: seq<seq<H>>,
                                     readOk: seq<bool>)
    requires k < |trees| == |roots| == |s0s| == |s1s|
  {
    Settled(m, k, trees[k].node, trees[k].zero, roots[k], hss, readOk, s0s[k], s1s[k], flags)
  }

  lemma SettledOneMore<H(!new)>(m: Map, trees: seq<MerkleTree<H>>, roots: seq<H>, k: nat, flags: seq<bool>,
                                s0s: seq<seq<Slot<H>>>, s1s: seq<seq<Slot<H>>>, hsss: seq<seq<seq<H>>>,
                                readOks: seq<seq<bool>>, flags': seq<bool>, s: seq<Slot<H>>, hss: seq<seq<H>>,
                                readOk: seq<bool>, vs: seq<bool>)
    requires k < |trees| == |m.subs| && m.PerFile() && m.Seamless() && m.len >= 1
    requires SettledTo(m, trees, roots, k, flags, s0s, s1s, hsss, readOks)
    requires Judged(flags, flags', m.First(k), vs)
    requires Settled(m, k, trees[k].node, trees[k].zero, roots[k], hss, readOk, s0s[k], s, flags')
    ensures SettledTo(m, trees, roots, k + 1, flags', s0s, s1s[k := s], hsss + [hss], readOks + [readOk])
  {
    hide Settled, Judged, Map.PerFile, Map.Seamless;
    var s2s := s1s[k := s];
    forall j | 0 <= j < k
      ensures SettledAt(m, trees, roots, j, flags', s0s, s2s, (hsss + [hss])[j], (readOks + [readOk])[j])
    {
      assert SettledAt(m, trees, roots, j, flags, s0s, s1s, hsss[j], readOks[j]);
      FirstRises(m, j, k);
      StaysSettled(m, j, trees[j].node, trees[j].zero, roots[j], hsss[j], readOks[j], s0s[j], s1s[j], flags, flags',
                   m.First(k), vs);
    }
  }

  ghost function AllSlots<H(!new)>(trees: seq<MerkleTree<H>>): (ss: seq<seq<Slot<H>>>)
    requires forall k :: 0 <= k < |trees| ==> trees[k].Valid()
    reads trees, set k | 0 <= k < |trees| :: trees[k].d
    ensures |ss| == |trees| && forall k :: 0 <= k < |trees| ==> ss[k] == trees[k].Slots()
  {
    if trees == [] then [] else AllSlots(trees[..|trees| - 1]) + [trees[|trees| - 1].Slots()]
  }

  /** Where the hasher stands when `n` sub-files are done. */
  ghost function StartOf(m: Map, n: nat): nat
    requires m.len >= 1 && n <= |m.subs|
  {
    if n < |m.subs| then m.First(n) else |m.sizes|
  }

  /** The torrent, its trees and what is known of them when `n` sub-files are done. */
  ghost predicate Underway<H(!new)>(t: Torrent, leaf: seq<byte> -> H, trees: seq<MerkleTree<H>>, roots: seq<H>,
                                    files: seq<seq<byte>>, n: nat, s0s: seq<seq<Slot<H>>>, hsss: seq<seq<seq<H>>>,
                                    readOks: seq<seq<bool>>)
    reads t, t.pieces, trees, set k | 0 <= k < |trees| :: trees[k].d
  {
    t.Hashing() && t.merkle && OnFiles(t.layout, files) && Trees(t.layout, trees, roots, n) && n <= |trees| == |s0s| &&
    |hsss| == |readOks| == n && t.layout.len >= 1 && t.i == StartOf(t.layout, n) &&
    (forall j :: 0 <= j < n ==> FromFile(t.layout, files, leaf, trees[j].node, j, hsss[j], readOks[j])) &&
    SettledTo(t.layout, trees, roots, n, t.Flags(), s0s, AllSlots(trees), hsss, readOks)
  }

  method HashNextFile<H(==, !new)>(t: Torrent, leaf: seq<byte> -> H, trees: seq<MerkleTree<H>>, roots: seq<H>,
                                   files: seq<seq<byte>>, k: nat, ghost s0s: seq<seq<Slot<H>>>,
                                   ghost hsss: seq<seq<seq<H>>>, ghost readOks: seq<seq<bool>>)
    returns (ghost hss: seq<seq<H>>, ghost readOk: seq<bool>)
    requires k < |trees| && Underway(t, leaf, trees, roots, files, k, s0s, hsss, readOks)
    modifies t, t.pieces, trees[k].d
    ensures Underway(t, leaf, trees, roots, files, k + 1, s0s, hsss + [hss], readOks + [readOk])
  {
    hide Map.Seamless, Map.Aligned, Map.PerFile, Settled, FromFile, Judged, TreeSize, Ready, SettledTo, AllSlots,
         Torrent.Structure, Torrent.AtPiece, Torrent.Flags, Ledger;
    ghost var m, flags, s1s := t.layout, t.Flags(), AllSlots(trees);
    NextFirst(m, k);
    AsBefore(m, trees, roots, k, flags, s0s, s1s, hsss, readOks);
    hss, readOk := HashFile(t, k, leaf, trees[k], roots[k], files);
    ghost var vs :| Judged(flags, t.Flags(), m.First(k), vs);
    SettledOneMore(m, trees, roots, k, flags, s0s, s1s, hsss, readOks, t.Flags(), trees[k].Slots(), hss, readOk, vs);
    assert AllSlots(trees) == s1s[k := trees[k].Slots()];
  }

  lemma AsBefore<H(!new)>(m: Map, trees: seq<MerkleTree<H>>, roots: seq<H>, n: nat, flags: seq<bool>,
                          s0s: seq<seq<Slot<H>>>, s1s: seq<seq<Slot<H>>>, hsss: seq<seq<seq<H>>>,
                          readOks: seq<seq<bool>>)
    requires SettledTo(m, trees, roots, n, flags, s0s, s1s, hsss, readOks)
    ensures |s0s| == |s1s| == |trees| && forall k :: n <= k < |trees| ==> s1s[k] == s0s[k]
  {
  }

  /** Hashes all sub-files. */
  method HashFiles<H(==, !new)>(t: Torrent, leaf: seq<byte> -> H, trees: seq<MerkleTree<H>>, roots: seq<H>,
                                files: seq<seq<byte>>)
    returns (ghost hsss: seq<seq<seq<H>>>, ghost readOks: seq<seq<bool>>)
    requires t.Hashing() && t.merkle && t.i == 0 && OnFiles(t.layout, files) && Trees(t.layout, trees, roots, 0)
    modifies t, t.pieces, set k | 0 <= k < |trees| :: trees[k].d
    ensures Underway(t, leaf, trees, roots, files, |trees|, old(AllSlots(trees)), hsss, readOks)
  {
    hide Map.Seamless, Map.Aligned, Map.PerFile, Settled, FromFile, Judged, TreeSize, Ready,
         Torrent.Structure, Torrent.AtPiece, Torrent.Flags, Ledger;
    ghost var s0s := AllSlots(trees);
    hsss, readOks := [], [];
    PerPiece(t);
    NextFirst(t.layout, 0);
    assert Underway(t, leaf, trees, roots, files, 0, s0s, hsss, readOks);
    hide Underway;
    var k := 0;
    while k < |trees|
      invariant 0 <= k <= |trees| && Underway(t, leaf, trees, roots, files, k, s0s, hsss, readOks)
    {
      ghost var hss, readOk;
      hss, readOk := HashNextFile(t, leaf, trees, roots, files, k, s0s, hsss, readOks);
      hsss, readOks, k := hsss + [hss], readOks + [readOk], k + 1;
    }
  }

  /** Hashes a Merkle torrent.  Main result: the counters of missing bytes are exact, every tree can be trusted for the
      genuine leaves of its sub-file, and every valid piece has on disk the genuine chunks. */
  method HashTorrent<H(==, !new)>(t: Torrent, leaf: seq<byte> -> H, trees: seq<MerkleTree<H>>, roots: seq<H>,
                                  files: seq<seq<byte>>)
    returns (ghost hsss: seq<seq<seq<H>>>, ghost readOks: seq<seq<bool>>)
    requires t.Hashing() && t.merkle && t.i == 0 && OnFiles(t.layout, files) && Trees(t.layout, trees, roots, 0)
    modifies t, t.pieces, set k | 0 <= k < |trees| :: trees[k].d
    ensures t.Running() && Underway(t, leaf, trees, roots, files, |trees|, old(AllSlots(trees)), hsss, readOks)
    ensures forall k, genuine :: 0 <= k < |trees| && BelongsTo(trees[k], roots[k], old(AllSlots(trees))[k], genuine) ==>
      trees[k].Trusted(genuine) && ValidAreGenuine(t.layout, files, leaf, trees[k].node, k, t.Flags(), genuine)
  {
    ghost var s0s := AllSlots(trees);
    hsss, readOks := HashFiles(t, leaf, trees, roots, files);
    hide Underway, BelongsTo, ValidAreGenuine, OnFiles, Trees, Sound, Torrent.Hashing, Torrent.Running, Torrent.Flags;
    AllCounted(t, leaf, trees, roots, files, s0s, hsss, readOks);
    forall k, genuine | 0 <= k < |trees| && BelongsTo(trees[k], roots[k], s0s[k], genuine)
      ensures trees[k].Trusted(genuine) && ValidAreGenuine(t.layout, files, leaf, trees[k].node, k, t.Flags(), genuine)
    {
      TrustedTree(t, leaf, trees, roots, files, s0s, hsss, readOks, k, genuine);
    }
  }

  /** `genuine` are the leaves of the root `root`, and tree, with the slots `s0`, is new or can be trusted for them. */
  ghost predicate BelongsTo<H(!new)>(tree: MerkleTree<H>, root: H, s0: seq<Slot<H>>, genuine: seq<H>)
    reads tree
  {
    TrustedBefore(tree.node, tree.zero, root, s0, tree.size, genuine)
  }

  lemma AllCounted<H(!new)>(t: Torrent, leaf: seq<byte> -> H, trees: seq<MerkleTree<H>>, roots: seq<H>,
                            files: seq<seq<byte>>, s0s: seq<seq<Slot<H>>>, hsss: seq<seq<seq<H>>>,
                            readOks: seq<seq<bool>>)
    requires Underway(t, leaf, trees, roots, files, |trees|, s0s, hsss, readOks)
    ensures t.Running()
  {
    hide Torrent.Structure, Torrent.AtPiece, Torrent.Flags, Ledger, SettledTo, FromFile, Trees, OnFiles;
    PerPiece(t);
    SubsCount(t, trees, roots);
  }

  lemma SubsCount<H(!new)>(t: Torrent, trees: seq<MerkleTree<H>>, roots: seq<H>)
    requires Trees(t.layout, trees, roots, |trees|)
    ensures |trees| == |t.layout.subs|
  {
  }

  lemma TrustedTree<H(!new)>(t: Torrent, leaf: seq<byte> -> H, trees: seq<MerkleTree<H>>, roots: seq<H>,
                             files: seq<seq<byte>>, s0s: seq<seq<Slot<H>>>, hsss: seq<seq<seq<H>>>,
                             readOks: seq<seq<bool>>, k: nat, genuine: seq<H>)
    requires Underway(t, leaf, trees, roots, files, |trees|, s0s, hsss, readOks)
    requires k < |trees| && BelongsTo(trees[k], roots[k], s0s[k], genuine)
    ensures trees[k].Trusted(genuine) && ValidAreGenuine(t.layout, files, leaf, trees[k].node, k, t.Flags(), genuine)
  {
    hide Torrent.Hashing, Torrent.Flags, Settled, Map.Seamless, Map.Aligned, Map.PerFile, Concat, Off, TreeSize, Sound,
         NoSecondPreimage, Root, FileLeaves, ValidAreGenuine;
    assert FromFile(t.layout, files, leaf, trees[k].node, k, hsss[k], readOks[k]);
    assert SettledAt(t.layout, trees, roots, k, t.Flags(), s0s, AllSlots(trees), hsss[k], readOks[k]);
    TrustedFile(t.layout, files, leaf, trees[k].node, trees[k].zero, roots[k], k, hsss[k], readOks[k], s0s[k],
                trees[k].Slots(), t.Flags(), genuine);
  }

  /** Where the leaves of piece `q` begin. */
  lemma {:induction false} LeavesBegin<H>(m: Map, files: seq<seq<byte>>, leaf: seq<byte> -> H, node: (H, H) -> H,
                                          k: nat, hss: seq<seq<H>>, readOk: seq<bool>, q: nat)
    requires OnFiles(m, files) && k < |files| && FromFile(m, files, leaf, node, k, hss, readOk) && q < |hss|
    ensures Off(hss, q) == q * (m.len / CHUNK)
  {
    if q > 0 {
      LeavesBegin(m, files, leaf, node, k, hss, readOk, q - 1);
      PieceLength(m, k, q - 1);
      OffStep(hss, q - 1);
      WholeChunks(m.len);
      assert q * (m.len / CHUNK) == (q - 1) * (m.len / CHUNK) + m.len / CHUNK;
    } else {
      assert 0 * (m.len / CHUNK) == 0;
    }
  }

  lemma WholeChunks(len: nat)
    requires len % CHUNK == 0
    ensures (len + CHUNK - 1) / CHUNK == len / CHUNK
  {
  }

  lemma TrustedFile<H(!new)>(m: Map, files: seq<seq<byte>>, leaf: seq<byte> -> H, node: (H, H) -> H, zero: H, root: H,
                             k: nat, hss: seq<seq<H>>, readOk: seq<bool>, s0: seq<Slot<H>>, s1: seq<Slot<H>>,
                             flags: seq<bool>, genuine: seq<H>)
    requires OnFiles(m, files) && k < |files| && FromFile(m, files, leaf, node, k, hss, readOk)
    requires Settled(m, k, node, zero, root, hss, readOk, s0, s1, flags)
    requires |genuine| == |Concat(hss)| && TrustedBefore(node, zero, root, s0, |genuine|, genuine)
    ensures Sound(node, s1, genuine, NoShield(|genuine|)) && s1[|s1| - 1] == Slot(true, root)
    ensures ValidAreGenuine(m, files, leaf, node, k, flags, genuine)
  {
    hide Map.Seamless, Map.Aligned, Map.PerFile, Concat, Off, TreeSize, TreeAfter, TrustedBefore, Sound, FileLeaves,
         Expected;
    TrustAfter(node, zero, root, hss, readOk, s0, s1, genuine);
    forall p | 0 <= p < m.Count(k) && flags[m.First(k) + p]
      ensures PieceIsGenuine(m, files, leaf, node, k, p, genuine)
    {
      assert Expected(node, root, hss, readOk, s0)[p];
      assert Genuinely(hss, readOk, genuine, p);
      LeavesBegin(m, files, leaf, node, k, hss, readOk, p);
      OffWithin(hss, p);
    }
  }

  /** Every valid piece of sub-file `k` has on disk the chunks whose leaves are `genuine`. */
  ghost predicate ValidAreGenuine<H>(m: Map, files: seq<seq<byte>>, leaf: seq<byte> -> H, node: (H, H) -> H, k: nat,
                                     flags: seq<bool>, genuine: seq<H>)
  {
    OnFiles(m, files) && k < |files| && m.First(k) + m.Count(k) <= |flags| &&
    forall p :: 0 <= p < m.Count(k) && flags[m.First(k) + p] ==>
      PieceIsGenuine(m, files, leaf, node, k, p, genuine)
  }

  /** The chunks of piece `p` are the leaves from `p` times the chunks of a full piece on. */
  ghost predicate PieceIsGenuine<H>(m: Map, files: seq<seq<byte>>, leaf: seq<byte> -> H, node: (H, H) -> H, k: nat,
                                    p: nat, genuine: seq<H>)
    requires OnFiles(m, files) && k < |files| && p < m.Count(k)
  {
    var hs, o := FileLeaves(leaf, node, PieceOf(m, files, k, p)), p * (m.len / CHUNK);
    o + |hs| <= |genuine| && hs == genuine[o..o + |hs|]
  }
}
