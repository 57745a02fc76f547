/** The layouts that the metadata of a torrent gives rise to, and counting pieces from bytes. */
module InfoLayout {
  import opened Layout
  import opened Basics

  function CeilDiv(a: nat, b: nat): nat
    requires b >= 1
  {
    (a + b - 1) / b
  }

  lemma CeilBounds(a: nat, b: nat)
    requires b >= 1
    ensures a <= CeilDiv(a, b) * b < a + b
  {
    var q, r := (a + b - 1) / b, (a + b - 1) % b;
    assert a + b - 1 == q * b + r;
  }

  lemma CeilUnique(a: nat, b: nat, n: nat)
    requires b >= 1
    ensures CeilDiv(a, b) == n <==> a <= n * b < a + b
  {
    CeilBounds(a, b);
    var c := CeilDiv(a, b);
    if a <= n * b < a + b && c != n {
      if c < n { MulStep(c, n, b); } else { MulStep(n, c, b); }
    }
  }

  lemma MulStep(p: nat, q: nat, len: nat)
    requires p < q
    ensures p * len + len <= q * len
  {
    assert q * len == (q - p) * len + p * len;
    assert (q - p) * len >= len by { assert (q - p) * len == (q - p - 1) * len + len; }
  }

  /** Sub-files placed one after the other from `offset` on; in a Merkle torrent each starts a new piece. */
  function Place(merkle: bool, len: nat, fs: seq<nat>, offset: nat): (subs: seq<SubFile>)
    requires len >= 1
    ensures |subs| == |fs|
  {
    if fs == [] then []
    else
      var next := if merkle then CeilDiv(offset + fs[0], len) * len else offset + fs[0];
      [SubFile(offset, fs[0])] + Place(merkle, len, fs[1..], next)
  }

  /** In both layouts the sub-files keep their sizes and their order. */
  lemma {:induction false} PlaceSizes(merkle: bool, len: nat, fs: seq<nat>, offset: nat, k: nat)
    requires len >= 1 && k < |fs|
    ensures Place(merkle, len, fs, offset)[k].size == fs[k]
    decreases |fs|
  {
    if k > 0 {
      PlaceSizes(merkle, len, fs[1..], if merkle then CeilDiv(offset + fs[0], len) * len else offset + fs[0], k - 1);
    }
  }

  function Starts(n: nat, len: nat): (s: seq<nat>)
    ensures |s| == n && forall p :: 0 <= p < n ==> s[p] == p * len
  {
    seq(n, p => p * len)
  }

  /** Size of piece `p` of those that cover `total` bytes: full ones and a rest. */
  function PieceSize(total: nat, len: nat, p: nat): nat {
    if p * len >= total then 0 else Min(len, total - p * len)
  }

  function PieceSizes(total: nat, len: nat): (s: seq<nat>)
    requires len >= 1
    ensures |s| == CeilDiv(total, len) && forall p :: 0 <= p < |s| ==> s[p] == PieceSize(total, len, p)
  {
    seq(CeilDiv(total, len), p requires 0 <= p => PieceSize(total, len, p))
  }

  /** The layout of a torrent without Merkle trees. */
  function Plain(len: nat, fs: seq<nat>): Map
    requires len >= 1
  {
    Map(len, Starts(CeilDiv(Total(fs), len), len), PieceSizes(Total(fs), len), Place(false, len, fs, 0))
  }

  lemma {:induction false} PlainPlace(len: nat, fs: seq<nat>, offset: nat)
    requires len >= 1 && fs != []
    ensures var subs := Place(false, len, fs, offset);
      subs[0].offset == offset && subs[|subs| - 1].End() == offset + Total(fs) &&
      (forall k :: 0 <= k < |subs| ==> offset <= subs[k].offset && subs[k].End() <= offset + Total(fs)) &&
      (forall k :: 0 <= k < |subs| - 1 ==> subs[k + 1].offset == subs[k].End()) &&
      (forall j, k :: 0 <= j < k < |subs| ==> subs[j].End() <= subs[k].offset)
    decreases |fs|
  {
    if |fs| > 1 {
      var subs, rest := Place(false, len, fs, offset), Place(false, len, fs[1..], offset + fs[0]);
      PlainPlace(len, fs[1..], offset + fs[0]);
      assert forall k :: 1 <= k < |subs| ==> subs[k] == rest[k - 1];
    }
  }

  lemma PlainPieces(total: nat, len: nat, p: nat)
    requires len >= 1 && p < CeilDiv(total, len)
    ensures var n, s := CeilDiv(total, len), PieceSizes(total, len);
      1 <= s[p] <= len && (p + 1 < n ==> s[p] == len && p * len + s[p] == (p + 1) * len) &&
      (p + 1 == n ==> p * len + s[p] == total) && p * len + s[p] <= total
  {
    var n := CeilDiv(total, len);
    CeilBounds(total, len);
    MulStep(p, n, len);
    assert (p + 1) * len == p * len + len;
    if p + 1 < n {
      MulStep(p + 1, n, len);
    }
  }

  /** Ordered and contiguous, with every piece at a multiple of the piece length. */
  lemma PlainContiguous(len: nat, fs: seq<nat>)
    requires len >= 1 && Total(fs) >= 1
    ensures Plain(len, fs).Contiguous() && Plain(len, fs).Aligned()
  {
    var m, total := Plain(len, fs), Total(fs);
    var n := CeilDiv(total, len);
    CeilBounds(total, len);
    assert n >= 1 by { assert 0 * len == 0; }
    PlainPlace(len, fs, 0);
    forall p | 0 <= p < n
      ensures 1 <= m.sizes[p] <= len && (p + 1 < n ==> m.starts[p + 1] == m.Stop(p)) &&
        (p + 1 == n ==> m.Stop(p) == total)
    {
      PlainPieces(total, len, p);
    }
    forall p, q | 0 <= p < q < n ensures m.Stop(p) <= m.starts[q] {
      PlainPieces(total, len, p);
      MulStep(p, q, len);
    }
    forall k | 0 <= k < |m.subs| ensures m.Edge(k + 1) == m.subs[k].End() {
    }
  }

  /** Contiguity is what the hasher's cursor needs. */
  lemma ContiguousSeamless(m: Map)
    requires m.Contiguous()
    ensures m.Seamless()
  {
    var n := |m.sizes|;
    forall k: nat, p: nat ensures m.Seam(k, p) {
      if k < |m.subs| && p < n {
        assert m.Edge(k + 1) == m.subs[k].End();
        assert p + 1 < n ==> m.starts[p + 1] == m.Stop(p) && m.Stop(p) < m.Stop(p + 1);
        StopsRise(m, p, n - 1);
        EdgesRise(m, k + 1, |m.subs|);
      }
    }
  }

  lemma StopsRise(m: Map, p: nat, q: nat)
    requires m.Ordered() && p <= q < |m.sizes|
    ensures m.Stop(p) <= m.Stop(q) && (p < q ==> m.Stop(p) < m.Stop(q))
  {
  }

  lemma EdgesRise(m: Map, j: nat, k: nat)
    requires m.Ordered() && j <= k <= |m.subs|
    ensures m.Edge(j) <= m.Edge(k)
  {
  }

  /** The metadata of a torrent without Merkle trees always gives a layout its hasher can walk. */
  lemma PlainSeamless(len: nat, fs: seq<nat>)
    requires len >= 1 && Total(fs) >= 1
    ensures Plain(len, fs).Seamless()
  {
    PlainContiguous(len, fs);
    ContiguousSeamless(Plain(len, fs));
  }

  // Merkle torrents.

  /** Number of pieces of the first `k` files, each starting a new piece. */
  function FirstOf(fs: seq<nat>, len: nat, k: nat): nat
    requires len >= 1 && k <= |fs|
  {
    if k == 0 then 0 else FirstOf(fs, len, k - 1) + CeilDiv(fs[k - 1], len)
  }

  lemma {:induction false} FirstOfTail(fs: seq<nat>, len: nat, k: nat)
    requires len >= 1 && 1 <= k <= |fs|
    ensures FirstOf(fs, len, k) == CeilDiv(fs[0], len) + FirstOf(fs[1..], len, k - 1)
    decreases k
  {
    if k > 1 { FirstOfTail(fs, len, k - 1); }
  }

  function OwnSizes(len: nat, fs: seq<nat>): (s: seq<nat>)
    requires len >= 1
  {
    if fs == [] then [] else PieceSizes(fs[0], len) + OwnSizes(len, fs[1..])
  }

  /** The layout of a Merkle torrent; the piece length is a power of two, so that rounding up to a multiple of
      it is what the source's masking does. */
  function PerFileMap(len: nat, fs: seq<nat>): Map
    requires len >= 1
  {
    Map(len, Starts(|OwnSizes(len, fs)|, len), OwnSizes(len, fs), Place(true, len, fs, 0))
  }

  /** The sub-files of a layout are the files of the metadata, in their order. */
  lemma FilesKept(len: nat, fs: seq<nat>)
    requires len >= 1
    ensures var m := Plain(len, fs); |m.subs| == |fs| && forall k :: 0 <= k < |fs| ==> m.subs[k].size == fs[k]
    ensures var m := PerFileMap(len, fs); |m.subs| == |fs| && forall k :: 0 <= k < |fs| ==> m.subs[k].size == fs[k]
  {
    forall k | 0 <= k < |fs| ensures forall merkle :: Place(merkle, len, fs, 0)[k].size == fs[k] {
      PlaceSizes(true, len, fs, 0, k);
      PlaceSizes(false, len, fs, 0, k);
    }
  }

  lemma AlignUp(len: nat, q: nat, f: nat)
    requires len >= 1
    ensures CeilDiv(q * len + f, len) == q + CeilDiv(f, len)
  {
    CeilBounds(f, len);
    var c := CeilDiv(f, len);
    assert (q + c) * len == q * len + c * len;
    CeilUnique(q * len + f, len, q + c);
  }

  lemma {:induction false} PlacedAt(len: nat, fs: seq<nat>, q: nat, k: nat)
    requires len >= 1 && k < |fs|
    ensures Place(true, len, fs, q * len)[k] == SubFile((q + FirstOf(fs, len, k)) * len, fs[k])
    decreases |fs|
  {
    if k > 0 {
      AlignUp(len, q, fs[0]);
      PlacedAt(len, fs[1..], q + CeilDiv(fs[0], len), k - 1);
      FirstOfTail(fs, len, k);
    }
  }

  lemma {:induction false} OwnSizeAt(len: nat, fs: seq<nat>, k: nat, j: nat)
    requires len >= 1 && k < |fs| && j < CeilDiv(fs[k], len)
    ensures FirstOf(fs, len, k) + j < |OwnSizes(len, fs)|
    ensures OwnSizes(len, fs)[FirstOf(fs, len, k) + j] == PieceSize(fs[k], len, j)
    decreases |fs|
  {
    if k > 0 {
      OwnSizeAt(len, fs[1..], k - 1, j);
      FirstOfTail(fs, len, k);
    }
  }

  lemma {:induction false} OwnSizesLength(len: nat, fs: seq<nat>)
    requires len >= 1
    ensures |OwnSizes(len, fs)| == FirstOf(fs, len, |fs|)
    decreases |fs|
  {
    if fs != [] {
      OwnSizesLength(len, fs[1..]);
      FirstOfTail(fs, len, |fs|);
    }
  }

  lemma {:induction false} OwnerOf(len: nat, fs: seq<nat>, p: nat) returns (k: nat, j: nat)
    requires len >= 1 && p < |OwnSizes(len, fs)|
    ensures k < |fs| && j < CeilDiv(fs[k], len) && p == FirstOf(fs, len, k) + j
    decreases |fs|
  {
    if p < CeilDiv(fs[0], len) {
      k, j := 0, p;
    } else {
      k, j := OwnerOf(len, fs[1..], p - CeilDiv(fs[0], len));
      k := k + 1;
      FirstOfTail(fs, len, k);
    }
  }

  lemma {:induction false} FirstOfRises(fs: seq<nat>, len: nat, j: nat, k: nat)
    requires len >= 1 && j <= k <= |fs|
    ensures FirstOf(fs, len, j) <= FirstOf(fs, len, k)
    decreases k
  {
    if j < k { FirstOfRises(fs, len, j, k - 1); }
  }

  lemma PerFileOrdered(len: nat, fs: seq<nat>)
    requires len >= 1 && fs != [] && forall k :: 0 <= k < |fs| ==> fs[k] > 0
    ensures PerFileMap(len, fs).Ordered()
  {
    var m := PerFileMap(len, fs);
    var n := |m.sizes|;
    PlacedAt(len, fs, 0, 0);
    CeilBounds(fs[0], len);
    assert CeilDiv(fs[0], len) >= 1;
    OwnSizeAt(len, fs, 0, 0);
    forall p | 0 <= p < n ensures 1 <= m.sizes[p] <= len {
      var k, j := OwnerOf(len, fs, p);
      OwnSizeAt(len, fs, k, j);
      PlainPieces(fs[k], len, j);
    }
    forall p, q | 0 <= p < q < n ensures m.Stop(p) <= m.starts[q] {
      MulStep(p, q, len);
    }
    forall j, k | 0 <= j < k < |m.subs| ensures m.subs[j].End() <= m.subs[k].offset {
      PlacedAt(len, fs, 0, j);
      PlacedAt(len, fs, 0, k);
      CeilBounds(fs[j], len);
      FirstOfRises(fs, len, j + 1, k);
      EndBeforeNext(len, FirstOf(fs, len, j), CeilDiv(fs[j], len), fs[j], FirstOf(fs, len, k));
    }
  }

  lemma EndBeforeNext(len: nat, f: nat, c: nat, size: nat, g: nat)
    requires size <= c * len && f + c <= g
    ensures f * len + size <= g * len
  {
    assert g * len == f * len + c * len + (g - f - c) * len;
  }

  /** Where the pieces of file `k` of a Merkle torrent are. */
  lemma PerFileFirst(len: nat, fs: seq<nat>, k: nat)
    requires len >= 1 && k < |fs|
    ensures var m, f := PerFileMap(len, fs), FirstOf(fs, len, k);
      m.subs[k] == SubFile(f * len, fs[k]) && m.First(k) == f && m.Count(k) == CeilDiv(fs[k], len)
  {
    PlacedAt(len, fs, 0, k);
    MulDiv(FirstOf(fs, len, k), len);
  }

  lemma PerFileStop(len: nat, fs: seq<nat>, k: nat, j: nat)
    requires len >= 1 && k < |fs| && j < CeilDiv(fs[k], len)
    ensures var m, p, c := PerFileMap(len, fs), FirstOf(fs, len, k) + j, CeilDiv(fs[k], len);
      p < |m.sizes| && m.starts[p] == p * len &&
      (j + 1 < c ==> m.Stop(p) == (p + 1) * len) &&
      (j + 1 == c ==> m.Stop(p) == FirstOf(fs, len, k) * len + fs[k])
  {
    hide Place, OwnSizes, CeilDiv, FirstOf, PieceSize;
    OwnSizeAt(len, fs, k, j);
    PlainPieces(fs[k], len, j);
    Distribute(FirstOf(fs, len, k), j, len);
  }

  lemma Distribute(f: int, j: int, len: int)
    ensures (f + j) * len == f * len + j * len && (f + j + 1) * len == f * len + (j + 1) * len
  {
  }

  lemma PerFileOwns(len: nat, fs: seq<nat>, k: nat)
    requires len >= 1 && k < |fs| && fs[k] > 0 && PerFileMap(len, fs).Ordered()
    ensures var m := PerFileMap(len, fs); m.OwnsPieces(k, m.First(k), m.Count(k))
  {
    hide Place, OwnSizes, CeilDiv, FirstOf, Map.Ordered, Map.First, Map.Count;
    var m, f, c := PerFileMap(len, fs), FirstOf(fs, len, k), CeilDiv(fs[k], len);
    PerFileFirst(len, fs, k);
    SomePiece(fs[k], len);
    PerFileStop(len, fs, k, 0);
    PerFileStop(len, fs, k, c - 1);
    forall p | f <= p < f + c - 1 ensures m.Stop(p) == m.starts[p + 1] {
      PerFileStop(len, fs, k, p - f);
      PerFileStop(len, fs, k, p + 1 - f);
    }
  }

  lemma SomePiece(size: nat, len: nat)
    requires len >= 1 && size > 0
    ensures CeilDiv(size, len) >= 1
  {
    CeilBounds(size, len);
    assert 0 * len == 0;
  }

  /** The sub-files follow each other at the piece after the last one of the previous sub-file. */
  ghost predicate Chained(m: Map) {
    m.Ordered() && forall k :: 0 <= k < |m.subs| ==> Linked(m, k)
  }

  ghost predicate Linked(m: Map, k: nat)
    requires m.Ordered() && k < |m.subs|
  {
    m.OwnsPieces(k, m.First(k), m.Count(k)) && Next(m, k, m.First(k) + m.Count(k))
  }

  ghost predicate Next(m: Map, k: nat, p: nat)
    requires m.Ordered() && k < |m.subs|
  {
    if k + 1 < |m.subs| then p < |m.sizes| && m.subs[k + 1].offset == m.starts[p] else p == |m.sizes|
  }

  lemma PerFileChained(len: nat, fs: seq<nat>)
    requires len >= 1 && fs != [] && forall k :: 0 <= k < |fs| ==> fs[k] > 0
    ensures Chained(PerFileMap(len, fs))
  {
    hide PerFileMap, Map.Ordered, Linked;
    var m := PerFileMap(len, fs);
    PerFileOrdered(len, fs);
    PerFileSubs(len, fs);
    forall k | 0 <= k < |m.subs| ensures Linked(m, k) {
      PerFileLinked(len, fs, k);
    }
  }

  lemma PerFileSubs(len: nat, fs: seq<nat>)
    requires len >= 1
    ensures |PerFileMap(len, fs).subs| == |fs|
  {
  }

  lemma PerFileLinked(len: nat, fs: seq<nat>, k: nat)
    requires len >= 1 && k < |fs| && fs[k] > 0 && (k + 1 < |fs| ==> fs[k + 1] > 0) && PerFileMap(len, fs).Ordered()
    ensures |PerFileMap(len, fs).subs| == |fs| && Linked(PerFileMap(len, fs), k)
  {
    PerFileSubs(len, fs);
    hide PerFileMap, Map.Ordered;
    PerFileOwns(len, fs, k);
    PerFileNext(len, fs, k);
  }

  lemma PerFileNext(len: nat, fs: seq<nat>, k: nat)
    requires len >= 1 && k < |fs| && (k + 1 < |fs| ==> fs[k + 1] > 0) && PerFileMap(len, fs).Ordered()
    ensures var m := PerFileMap(len, fs); Next(m, k, m.First(k) + m.Count(k))
  {
    hide Place, OwnSizes, CeilDiv, Map.Ordered, Map.First, Map.Count;
    var m := PerFileMap(len, fs);
    PerFileFirst(len, fs, k);
    OwnSizesLength(len, fs);
    assert FirstOf(fs, len, k + 1) == m.First(k) + m.Count(k);
    if k + 1 < |fs| {
      PerFileFirst(len, fs, k + 1);
      SomePiece(fs[k + 1], len);
      PerFileStop(len, fs, k + 1, 0);
    }
  }

  lemma ChainedSeam(m: Map, k: nat, p: nat)
    requires m.Ordered() && k < |m.subs| && p < |m.sizes| && Linked(m, k)
    ensures m.Seam(k, p)
  {
    hide Map.First, Map.Count;
    var f, c := m.First(k), m.Count(k);
    var last := f + c - 1;
    Rising(m, p, last);
    Rising(m, last, p);
    Rising(m, p, f);
    Rising(m, f, p);
    if p > last {
      Rising(m, last + 1, p);
    }
  }

  lemma Rising(m: Map, p: nat, q: nat)
    requires m.Ordered() && p < |m.sizes| && q < |m.sizes|
    ensures m.starts[p] < m.Stop(p) && (p < q ==> m.Stop(p) <= m.starts[q]) && (p == q ==> m.starts[p] == m.starts[q])
  {
  }

  /** The metadata of a Merkle torrent always gives a layout its hasher can walk. */
  lemma PerFileSeamless(len: nat, fs: seq<nat>)
    requires len >= 1 && fs != [] && forall k :: 0 <= k < |fs| ==> fs[k] > 0
    ensures PerFileMap(len, fs).PerFile() && PerFileMap(len, fs).Seamless() && PerFileMap(len, fs).Aligned()
  {
    PerFileChained(len, fs);
    ChainedSeamless(PerFileMap(len, fs));
    ChainedPerFile(PerFileMap(len, fs));
  }

  lemma ChainedPerFile(m: Map)
    requires Chained(m)
    ensures m.PerFile()
  {
    forall k | 0 <= k < |m.subs| ensures m.OwnsPieces(k, m.First(k), m.Count(k)) {
      assert Linked(m, k);
    }
  }

  lemma ChainedSeamless(m: Map)
    requires Chained(m)
    ensures m.Seamless()
  {
    hide Map.First, Map.Count, Map.OwnsPieces, Map.Seam, Linked;
    forall k: nat, p: nat ensures m.Seam(k, p) {
      if k < |m.subs| && p < |m.sizes| {
        ChainedSeam(m, k, p);
      } else {
        NoSeam(m, k, p);
      }
    }
  }

  lemma NoSeam(m: Map, k: nat, p: nat)
    requires m.Ordered() && (k >= |m.subs| || p >= |m.sizes|)
    ensures m.Seam(k, p)
  {
  }

  lemma MulDiv(f: int, len: int)
    requires len >= 1
    ensures (f * len) / len == f
  {
    var q, r := (f * len) / len, (f * len) % len;
    assert f * len == q * len + r;
    assert (f - q) * len == r;
    assert f - q >= 1 ==> (f - q) * len >= len;
    assert f - q <= -1 ==> (f - q) * len <= -len;
  }

  // Numbers of pieces from numbers of bytes.

  /** Invalid pieces among the first `n`. */
  function Invalid(valid: seq<bool>, n: nat): nat
    requires n <= |valid|
  {
    if n == 0 then 0 else Invalid(valid, n - 1) + if valid[n - 1] then 0 else 1
  }

  /** What the invalid pieces among the first `n` lack to full length. */
  function Lack(m: Map, valid: seq<bool>, n: nat): int
    requires n <= |valid| && n <= |m.sizes|
  {
    if n == 0 then 0 else Lack(m, valid, n - 1) + if valid[n - 1] then 0 else m.len - m.sizes[n - 1]
  }

  lemma {:induction false} LackSum(m: Map, valid: seq<bool>, n: nat)
    requires m.Ordered() && n <= |valid| && n <= |m.sizes|
    ensures Open(m.Sizes(), valid, n) == Invalid(valid, n) * m.len - Lack(m, valid, n)
    ensures 0 <= Lack(m, valid, n) && Open(m.Sizes(), valid, n) >= Invalid(valid, n)
  {
    if n > 0 {
      LackSum(m, valid, n - 1);
      assert (Invalid(valid, n - 1) + 1) * m.len == Invalid(valid, n - 1) * m.len + m.len;
    } else {
      assert 0 * m.len == 0;
    }
  }

  /** Dividing the missing bytes by the piece length, rounding up, gives the number of invalid pieces exactly
      when these pieces together lack less than one piece length. */
  lemma InvalidPieces(m: Map, valid: seq<bool>)
    requires m.Ordered() && |valid| == |m.sizes|
    ensures Open(m.Sizes(), valid, |valid|) >= 0
    ensures CeilDiv(Open(m.Sizes(), valid, |valid|), m.len) == Invalid(valid, |valid|) <==>
      Lack(m, valid, |valid|) < m.len
  {
    LackSum(m, valid, |valid|);
    CeilUnique(Open(m.Sizes(), valid, |valid|), m.len, Invalid(valid, |valid|));
  }

  lemma {:induction false} PlainLack(m: Map, valid: seq<bool>, n: nat)
    requires m.Contiguous() && m.Aligned() && n <= |valid| == |m.sizes|
    ensures 0 <= Lack(m, valid, n) < m.len && (n < |m.sizes| ==> Lack(m, valid, n) == 0)
  {
    if n > 0 {
      PlainLack(m, valid, n - 1);
      if n < |m.sizes| {
        assert m.starts[n] == m.Stop(n - 1);
        assert n * m.len == (n - 1) * m.len + m.len;
      }
    }
  }

  function Inverted(valid: seq<bool>): (r: seq<bool>)
    ensures |r| == |valid|
  {
    seq(|valid|, p requires 0 <= p < |valid| => !valid[p])
  }

  lemma {:induction false} OpenInverted(m: Map, valid: seq<bool>, n: nat)
    requires m.Ordered() && n <= |valid| == |m.sizes|
    ensures Open(m.Sizes(), valid, n) + Open(m.Sizes(), Inverted(valid), n) ==
      Open(m.Sizes(), seq(|valid|, _ => false), n)
    ensures Invalid(valid, n) + Invalid(Inverted(valid), n) == n
  {
    if n > 0 { OpenInverted(m, valid, n - 1); }
  }

  lemma {:induction false} OpenAll(m: Map, n: nat)
    requires m.Contiguous() && n <= |m.sizes|
    ensures Open(m.Sizes(), seq(|m.sizes|, _ => false), n) == if n == 0 then 0 else m.Stop(n - 1)
  {
    if n > 0 {
      OpenAll(m, n - 1);
      assert n > 1 ==> m.starts[n - 1] == m.Stop(n - 2);
    }
  }

  /** Without Merkle trees both ceilings are exact: the missing bytes give the number of invalid pieces and the
      remaining ones the number of valid pieces. */
  lemma PieceCounts(m: Map, valid: seq<bool>, left: int)
    requires m.Contiguous() && m.Aligned() && |valid| == |m.sizes| && left == Open(m.Sizes(), valid, |valid|)
    ensures 0 <= left <= m.Edge(|m.subs|)
    ensures CeilDiv(left, m.len) == Invalid(valid, |valid|)
    ensures CeilDiv(m.Edge(|m.subs|) - left, m.len) == |valid| - Invalid(valid, |valid|)
  {
    hide Open, Invalid, Lack, CeilDiv, Inverted;
    var n := |valid|;
    PlainLack(m, valid, n);
    PlainLack(m, Inverted(valid), n);
    InvalidPieces(m, valid);
    InvalidPieces(m, Inverted(valid));
    OpenInverted(m, valid, n);
    OpenAll(m, n);
    assert seq(|valid|, _ => false) == seq(|m.sizes|, _ => false);
  }

  /** Likewise for the other formula: dividing the bytes that are there gives the number of valid pieces exactly when
      the valid pieces together lack less than one piece length.  `total` is the size of the torrent. */
  lemma ValidPieces(m: Map, valid: seq<bool>, total: int)
    requires m.Ordered() && |valid| == |m.sizes| && total == Open(m.Sizes(), seq(|valid|, _ => false), |valid|)
    ensures total - Open(m.Sizes(), valid, |valid|) >= 0
    ensures CeilDiv(total - Open(m.Sizes(), valid, |valid|), m.len) == |valid| - Invalid(valid, |valid|) <==>
            Lack(m, Inverted(valid), |valid|) < m.len
  {
    OpenInverted(m, valid, |valid|);
    InvalidPieces(m, Inverted(valid));
  }

  // The sizes of the pieces of a Merkle torrent add up to the sizes of its files.

  lemma {:induction false} OpenIsTotal(m: Map, n: nat)
    requires n <= |m.sizes|
    ensures Open(m.Sizes(), seq(|m.sizes|, _ => false), n) == Total(m.sizes[..n])
  {
    if n > 0 {
      OpenIsTotal(m, n - 1);
      assert m.sizes[..n] == m.sizes[..n - 1] + [m.sizes[n - 1]];
      TotalAppend(m.sizes[..n - 1], m.sizes[n - 1]);
    }
  }

  lemma {:induction false} PiecesCover(size: nat, len: nat, n: nat)
    requires len >= 1 && n <= CeilDiv(size, len)
    ensures Total(PieceSizes(size, len)[..n]) == Min(n * len, size)
  {
    if n > 0 {
      var s := PieceSizes(size, len);
      PiecesCover(size, len, n - 1);
      PlainPieces(size, len, n - 1);
      assert s[..n] == s[..n - 1] + [s[n - 1]];
      TotalAppend(s[..n - 1], s[n - 1]);
      assert n * len == (n - 1) * len + len;
      CeilBounds(size, len);
    } else {
      assert 0 * len == 0;
    }
  }

  lemma {:induction false} OwnSizesTotal(len: nat, fs: seq<nat>)
    requires len >= 1
    ensures Total(OwnSizes(len, fs)) == Total(fs)
  {
    if fs != [] {
      OwnSizesTotal(len, fs[1..]);
      var s := PieceSizes(fs[0], len);
      TotalOfConcat(s, OwnSizes(len, fs[1..]));
      PiecesCover(fs[0], len, |s|);
      CeilBounds(fs[0], len);
      assert s[..|s|] == s;
    }
  }

  /** Both formulas for a Merkle torrent with these files. */
  lemma MerkleCounts(len: nat, fs: seq<nat>, valid: seq<bool>)
    requires len >= 1 && fs != [] && (forall k :: 0 <= k < |fs| ==> fs[k] > 0) && |valid| == |OwnSizes(len, fs)|
    ensures var m, n := PerFileMap(len, fs), |valid|;
      m.Ordered() && 0 <= Open(m.Sizes(), valid, n) <= Total(fs) &&
      (CeilDiv(Open(m.Sizes(), valid, n), len) == Invalid(valid, n) <==> Lack(m, valid, n) < len) &&
      (CeilDiv(Total(fs) - Open(m.Sizes(), valid, n), len) == n - Invalid(valid, n) <==>
        Lack(m, Inverted(valid), n) < len)
  {
    hide Open, Invalid, Lack, CeilDiv, Inverted, Total, OwnSizes, Map.Ordered;
    var m := PerFileMap(len, fs);
    PerFileOrdered(len, fs);
    OpenIsTotal(m, |m.sizes|);
    OwnSizesTotal(len, fs);
    assert m.sizes[..|m.sizes|] == m.sizes;
    InvalidPieces(m, valid);
    ValidPieces(m, valid, Total(fs));
  }

  /** In a Merkle torrent they are not always: two files of one byte are two pieces, but count as one piece when both
      are missing, and as one when both are there. */
  lemma MerkleCountsFail(len: nat)
    requires len >= 2
    ensures var m := PerFileMap(len, [1, 1]);
      m.Ordered() && |m.sizes| == 2 && Open(m.Sizes(), [false, false], 2) == 2 &&
      Total([1, 1]) - Open(m.Sizes(), [true, true], 2) == 2 &&
      CeilDiv(2, len) == 1 && Invalid([false, false], 2) == 2 && 2 - Invalid([true, true], 2) == 2
  {
    var fs: seq<nat> := [1, 1];
    var m := PerFileMap(len, fs);
    PerFileOrdered(len, fs);
    CeilUnique(1, len, 1);
    CeilUnique(2, len, 1);
    assert fs[1..] == [1] && fs[1..][1..] == [];
    assert PieceSize(1, len, 0) == 1;
    assert PieceSizes(1, len) == [1];
    assert OwnSizes(len, fs[1..]) == [1] + OwnSizes(len, []);
    assert m.sizes == [1] + OwnSizes(len, fs[1..]);
    assert Open(m.Sizes(), [false, false], 1) == 1;
    assert Open(m.Sizes(), [true, true], 1) == 0 && Invalid([true, true], 1) == 0;
    assert Total(fs) == 2;
  }
}
