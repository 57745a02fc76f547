/** Where the sub-files and the pieces of a torrent lie in its address space, and how much of a sub-file is
    covered by pieces still missing. */
module Layout {
  import opened Basics

  /** A file of the torrent: bytes `offset` to `offset + size`. */
  datatype SubFile = SubFile(offset: nat, size: nat)
  {
    function End(): nat {
      offset + size
    }
  }

  /** Number of bytes two half-open intervals have in common. */
  function Inter(a: int, b: int, c: int, d: int): int {
    Max(0, Min(b, d) - Max(a, c))
  }

  /** Sum of the weights of the first `n` pieces that are not valid. */
  function Open(weights: seq<int>, valid: seq<bool>, n: nat): int
    requires n <= |weights| && n <= |valid|
  {
    if n == 0 then 0 else Open(weights, valid, n - 1) + if valid[n - 1] then 0 else weights[n - 1]
  }

  lemma {:induction false} OpenUpdate(weights: seq<int>, valid: seq<bool>, n: nat, p: nat, v: bool)
    requires n <= |weights| && n <= |valid| && p < |valid| && p < |weights|
    ensures Open(weights, valid[p := v], n) ==
            Open(weights, valid, n) + if p < n && valid[p] != v then (if v then -weights[p] else weights[p]) else 0
  {
    if n > 0 { OpenUpdate(weights, valid, n - 1, p, v); }
  }

  /** The layout of a torrent with piece length `len`: `starts` and `sizes` of the pieces, and the sub-files. */
  datatype Map = Map(len: nat, starts: seq<nat>, sizes: seq<nat>, subs: seq<SubFile>)
  {
    /** End of piece `p`. */
    function Stop(p: nat): nat
      requires p < |starts| && p < |sizes|
    {
      starts[p] + sizes[p]
    }

    /** Pieces and sub-files are both in ascending order. */
    ghost predicate Ordered() {
      len >= 1 && |starts| == |sizes| >= 1 && |subs| >= 1 && subs[0].offset == 0 && starts[0] == 0 &&
      (forall p :: 0 <= p < |sizes| ==> 1 <= sizes[p] <= len) &&
      (forall p, q :: 0 <= p < q < |sizes| ==> Stop(p) <= starts[q]) &&
      (forall j, k :: 0 <= j < k < |subs| ==> subs[j].End() <= subs[k].offset)
    }

    /** Piece `p` starts at `p` times the piece length. */
    ghost predicate Aligned() {
      |starts| == |sizes| && forall p :: 0 <= p < |starts| ==> starts[p] == p * len
    }

    /** How sub-file `k` meets piece `p`: a sub-file that ends inside the piece is continued at once by the
        next sub-file; one that ends with the piece is continued at the start of the next piece; and a piece
        that ends inside a sub-file is continued at once by the next piece. */
    ghost predicate Seam(k: nat, p: nat)
      requires |starts| == |sizes|
    {
      k < |subs| && p < |sizes| ==>
        (starts[p] <= subs[k].End() < Stop(p) ==> k + 1 < |subs| && subs[k + 1].offset == subs[k].End()) &&
        (subs[k].End() == Stop(p) && p + 1 < |sizes| ==> k + 1 < |subs| && subs[k + 1].offset == starts[p + 1]) &&
        (subs[k].offset < Stop(p) < subs[k].End() ==> p + 1 < |sizes| && starts[p + 1] == Stop(p))
    }

    ghost predicate Seamless() {
      Ordered() && forall k: nat, p: nat :: Seam(k, p)
    }

    /** Where sub-file `k` begins; for k = |subs|, where the torrent ends. */
    function Edge(k: nat): nat
      requires k <= |subs| && |subs| >= 1
    {
      if k < |subs| then subs[k].offset else subs[k - 1].End()
    }

    /** In a torrent without Merkle trees neither sub-files nor pieces leave gaps. */
    ghost predicate Contiguous() {
      Ordered() &&
      (forall k :: 0 <= k < |subs| ==> Edge(k + 1) == subs[k].End()) &&
      (forall p :: 0 <= p < |sizes| - 1 ==> starts[p + 1] == Stop(p)) &&
      Edge(|subs|) == Stop(|sizes| - 1)
    }

    /** Bytes sub-file `k` shares with piece `p`. */
    function Shared(k: nat, p: nat): int
      requires k < |subs| && p < |starts| && p < |sizes|
    {
      Inter(subs[k].offset, subs[k].End(), starts[p], Stop(p))
    }

    function Weights(k: nat): (w: seq<int>)
      requires k < |subs| && |starts| == |sizes|
      ensures |w| == |sizes| && forall p :: 0 <= p < |w| ==> w[p] == Shared(k, p)
    {
      seq(|sizes|, p requires 0 <= p < |sizes| => Shared(k, p))
    }

    function Sizes(): (w: seq<int>)
      ensures |w| == |sizes| && forall p :: 0 <= p < |w| ==> w[p] == sizes[p]
    {
      seq(|sizes|, p requires 0 <= p < |sizes| => sizes[p])
    }

    /** First piece of sub-file `k` of a Merkle torrent. */
    function First(k: nat): nat
      requires k < |subs| && len >= 1
    {
      subs[k].offset / len
    }

    /** Number of pieces of sub-file `k` of a Merkle torrent. */
    function Count(k: nat): nat
      requires k < |subs| && len >= 1
    {
      (subs[k].size + len - 1) / len
    }

    /** In a Merkle torrent every sub-file has its own pieces. */
    ghost predicate PerFile() {
      Ordered() && forall k {:trigger subs[k]} :: 0 <= k < |subs| ==> OwnsPieces(k, First(k), Count(k))
    }

    ghost predicate OwnsPieces(k: nat, f: nat, c: nat)
      requires Ordered() && k < |subs|
    {
      subs[k].size > 0 && 1 <= c && f + c <= |sizes| && starts[f] == subs[k].offset &&
      Stop(f + c - 1) == subs[k].End() && forall p :: f <= p < f + c - 1 ==> Stop(p) == starts[p + 1]
    }
  }
}
