/** A torrent on disk: checking its pieces, taking in blocks, and the counters of missing bytes. */
module Torrents {
  import opened Pieces
  import opened Layout
  import opened Accounting
  import opened Storage
  import opened Disks
  import opened Basics

  /** Every valid piece among the first `n` has on disk the bytes its hash was made of. */
  ghost predicate AllMatch(m: Map, matches: (nat, seq<byte>) -> bool, flat: seq<byte>, valid: seq<bool>, n: nat)
    requires m.Ordered() && |valid| == |m.sizes| && n <= |valid|
  {
    forall p :: 0 <= p < n && valid[p] ==> m.Stop(p) <= |flat| && matches(p, flat[m.starts[p]..m.Stop(p)])
  }

  /** A block written inside an invalid piece does not touch the valid ones. */
  lemma BlockSpares(m: Map, matches: (nat, seq<byte>) -> bool, flat: seq<byte>, valid: seq<bool>, n: nat, a: nat,
                    o: nat, s: seq<byte>)
    requires m.Ordered() && |valid| == |m.sizes| && n <= |valid| && a < |valid| && !valid[a]
    requires AllMatch(m, matches, flat, valid, n)
    requires m.starts[a] <= o && o + |s| <= m.Stop(a) <= |flat|
    ensures AllMatch(m, matches, Splice(flat, o, s), valid, n)
  {
    var flat' := Splice(flat, o, s);
    forall p | 0 <= p < n && valid[p] ensures m.Stop(p) <= |flat'| && matches(p, flat'[m.starts[p]..m.Stop(p)]) {
      InOrder(m, p, a);
      InOrder(m, a, p);
      assert flat'[m.starts[p]..m.Stop(p)] == flat[m.starts[p]..m.Stop(p)];
    }
  }

  /** The block at `o` in a piece of `size` bytes that a piece accepts lies inside it. */
  lemma BlockInside(size: nat, o: nat, cb: nat)
    requires o < size && o % SUB_PIECE == 0 && cb == SubPieceSize(size, o / SUB_PIECE)
    ensures cb > 0 && o + cb <= size
  {
  }

  datatype Outcome = Rejected | Stored | Completed | Spoiled

  class Torrent {
    const layout: Map
    const merkle: bool
    const pieces: seq<Piece>
    const disk: Disk
    const matches: (nat, seq<byte>) -> bool  // do these bytes have the hash of this piece?
    var left: int
    var lefts: seq<int>  // per sub-file
    // cursor of the hasher: next piece, current sub-file, offset in it
    var i: nat
    var k: nat
    var offset: nat

    /** The fixed structure: every piece object stands for one piece of the layout. */
    ghost predicate Structure()
      reads pieces
    {
      layout.Seamless() && (merkle ==> layout.PerFile()) && |pieces| == |layout.sizes| &&
      (forall p, q :: 0 <= p < q < |pieces| ==> pieces[p] != pieces[q]) &&
      (forall p :: 0 <= p < |pieces| ==> pieces[p].Settled() && pieces[p].size == layout.sizes[p])
    }

    /** The same, except that piece `a` may be waiting for its verdict. */
    ghost predicate StructureBut(a: nat)
      reads pieces
    {
      layout.Seamless() && (merkle ==> layout.PerFile()) && |pieces| == |layout.sizes| &&
      (forall p, q :: 0 <= p < q < |pieces| ==> pieces[p] != pieces[q]) &&
      (forall p :: 0 <= p < |pieces| ==>
        pieces[p].size == layout.sizes[p] && if p == a then pieces[p].Valid() else pieces[p].Settled())
    }

    ghost function Flags(): (v: seq<bool>)
      reads pieces
      ensures |v| == |pieces| && forall p :: 0 <= p < |v| ==> v[p] == pieces[p].valid
    {
      seq(|pieces|, p reads pieces requires 0 <= p < |pieces| => pieces[p].valid)
    }

    /** An offset the cursor can have in sub-file `k`. */
    ghost predicate InSub(k: nat, offset: nat) {
      k < |layout.subs| && (offset == 0 || offset < layout.subs[k].size)
    }

    /** The hasher stands at the start of piece `n`, or behind the last one. */
    ghost predicate AtPiece(n: nat)
      reads this`k, this`offset
    {
      layout.Ordered() &&
      (n < |layout.sizes| ==> InSub(k, offset) && layout.subs[k].offset + offset == layout.starts[n])
    }

    /** Invariant of a hashing run: the counters describe the pieces checked so far. */
    ghost predicate Hashing()
      reads this, pieces
    {
      Structure() && AtPiece(i) && i <= |pieces| && Ledger(layout, Flags(), i, left, lefts)
    }

    /** Invariant after hashing: the counters describe all pieces. */
    ghost predicate Running()
      reads this, pieces
    {
      Structure() && Ledger(layout, Flags(), |pieces|, left, lefts)
    }

    /** Opening a torrent: the counters and the hasher start at zero, whatever is known of the pieces. */
    constructor (layout: Map, merkle: bool, pieces: seq<Piece>, disk: Disk, matches: (nat, seq<byte>) -> bool)
      requires layout.Seamless() && (merkle ==> layout.PerFile()) && |pieces| == |layout.sizes|
      requires forall p, q :: 0 <= p < q < |pieces| ==> pieces[p] != pieces[q]
      requires forall p :: 0 <= p < |pieces| ==> pieces[p].Settled() && pieces[p].size == layout.sizes[p]
      ensures this.layout == layout && this.merkle == merkle && this.pieces == pieces && this.disk == disk
      ensures this.matches == matches && i == 0 && Hashing()
    {
      this.layout, this.merkle, this.pieces, this.disk, this.matches := layout, merkle, pieces, disk, matches;
      left, lefts := 0, seq(|layout.subs|, _ => 0);
      i, k, offset := 0, 0, 0;
      new;
      SumZero(|layout.subs|);
    }

    static lemma {:induction false} SumZero(n: nat)
      ensures Sum(seq(n, _ => 0)) == 0
    {
      if n > 0 {
        assert seq(n, _ => 0)[1..] == seq(n - 1, _ => 0);
        SumZero(n - 1);
      }
    }

    lemma Facts(p: nat)
      requires Structure() && p < |pieces|
      ensures layout.Seamless() && layout.Ordered() && (merkle ==> layout.PerFile()) && |pieces| == |layout.sizes|
      ensures pieces[p].size == layout.sizes[p] && StructureBut(p)
    {
    }

    /** Passes the verdict on piece `p` and on no other. */
    method Judge(p: nat, v: bool)
      requires p < |pieces| && StructureBut(p)
      modifies pieces[p]
      ensures Structure() && Flags() == old(Flags())[p := v]
      ensures pieces[p].subPieces == if v then [] else old(pieces[p].subPieces)
    {
      pieces[p].SetValid(v);
    }

    /** One piece of sub-file `k` is declared missing; `books` are the counters with sub-file `k` up to date. */
    method Discard(p: nat, ghost k: nat, ghost f: nat, ghost c: nat,
                   ghost books: seq<int>) returns (ghost books': seq<int>)
      requires Structure() && k < |layout.subs| && layout.OwnsPieces(k, f, c) && f <= p < f + c <= i + 1 <= |pieces|
      requires Ledger(layout, Flags(), i + 1, left, books) && |books| == |layout.subs|
      modifies this`left, pieces[p]
      ensures Structure() && Flags() == old(Flags())[p := false]
      ensures |books'| == |books| && books' == books[k := books'[k]]
      ensures Ledger(layout, Flags(), i + 1, left, books')
    {
      hide Ledger, Structure, StructureBut, Flags, Map.Ordered, Map.OwnsPieces;
      Facts(p);
      Reopen(layout, Flags(), i + 1, left, books, k, f, c, p);
      books' := books[k := books[k] + if pieces[p].valid then layout.sizes[p] else 0];
      if pieces[p].valid {
        left := left + pieces[p].size;
      }
      Judge(p, false);
    }

    /** All pieces of sub-file `k` are declared missing: its tree does not lead to its root. */
    method Rollback(k: nat)
      requires Structure() && merkle && k < |layout.subs| && i < |pieces| && layout.subs[k].End() == layout.Stop(i)
      requires Ledger(layout, Flags(), i + 1, left, lefts)
      modifies this`left, this`lefts, pieces
      ensures Structure() && Ledger(layout, Flags(), i + 1, left, lefts)
      ensures |lefts| == |layout.subs| && lefts[k] == layout.subs[k].size
      ensures TakenBack(layout, true, i, old(Flags()), Flags())
    {
      hide Ledger, Structure, StructureBut, Flags, Map.Ordered, Map.First, Map.Count;
      Facts(i);
      var f, c := layout.First(k), layout.Count(k);
      assert layout.OwnsPieces(k, f, c);
      SameStop(i, f + c - 1);
      LedgerSize(layout, Flags(), i + 1, left, lefts);
      ghost var books, lefts0, valid0 := lefts, lefts, Flags();
      var j := 0;
      while j < c
        invariant 0 <= j <= c && Structure() && lefts == lefts0
        invariant |books| == |layout.subs| && Ledger(layout, Flags(), i + 1, left, books)
        invariant |Flags()| == |valid0| && forall p :: 0 <= p < |valid0| ==>
          (Flags()[p] <==> valid0[p] && !(f <= p < f + j))
        invariant books == lefts0[k := books[k]]
      {
        books := Discard(f + j, k, f, c, books);
        j := j + 1;
      }
      Reopened(layout, Flags(), left, books, k, f, c);
      AllBack(k, valid0, Flags());
      lefts := lefts[k := layout.subs[k].size];
    }

    lemma AllBack(k: nat, valid: seq<bool>, after: seq<bool>)
      requires layout.PerFile() && i < |layout.sizes| && k < |layout.subs| && layout.subs[k].End() == layout.Stop(i)
      requires |after| == |valid|
      requires var f, c := layout.First(k), layout.Count(k);
        forall p :: 0 <= p < |valid| ==> (after[p] <==> valid[p] && !(f <= p < f + c))
      ensures TakenBack(layout, true, i, valid, after)
    {
      assert layout.OwnsPieces(k, layout.First(k), layout.Count(k));
      forall p | 0 <= p < |after| ensures after[p] <==> valid[p] && !Ending(layout, i, p) {
        EndingPieces(layout, i, k, p);
      }
    }

    lemma NoneBack(k: nat, bad: bool, valid: seq<bool>)
      requires layout.Ordered() && i < |layout.sizes| && k < |layout.subs|
      requires bad ==> layout.PerFile() && layout.subs[k].offset < layout.Stop(i) < layout.subs[k].End()
      ensures TakenBack(layout, bad, i, valid, valid)
    {
      forall p | 0 <= p < |valid| ensures !(bad && Ending(layout, i, p)) {
        if bad {
          EndingPieces(layout, i, k, p);
        }
      }
    }

    lemma SameStop(p: nat, q: nat)
      requires layout.Ordered() && p < |layout.sizes| && q < |layout.sizes| && layout.Stop(p) == layout.Stop(q)
      ensures p == q
    {
    }
  
    /** Gives the sub-file under the cursor its bytes of piece `i`; leaving a sub-file of a Merkle torrent whose
        root does not match takes back all its pieces. */
    method Advance(cb0: nat, isValid: bool, rootOk: bool) returns (cb: nat)
      requires Structure() && i < |pieces| && InSub(k, offset) && cb0 > 0
      requires Underway(layout, Flags(), i, k, layout.subs[k].offset + offset, left, lefts)
      requires cb0 == layout.Stop(i) - (layout.subs[k].offset + offset) && isValid == Flags()[i]
      modifies this`left, this`lefts, this`k, this`offset, pieces
      ensures Structure() && cb <= cb0
      ensures cb > 0 ==> k == old(k) + 1 && Flags() == old(Flags()) && InSub(k, offset)
      ensures cb > 0 ==> cb == layout.Stop(i) - (layout.subs[k].offset + offset)
      ensures cb > 0 ==> Underway(layout, Flags(), i, k, layout.subs[k].offset + offset, left, lefts)
      ensures cb == 0 ==> Ledger(layout, Flags(), i + 1, left, lefts) && AtPiece(i + 1)
      ensures cb == 0 ==> TakenBack(layout, merkle && !rootOk, i, old(Flags()), Flags())
    {
      hide TakenBack, Structure, StructureBut, Flags, Underway, Ledger, Map.Seamless, Map.PerFile, Map.Ordered, AtPiece;
      Facts(i);
      ghost var k0, valid := k, Flags();
      var done;
      cb, done := Spread(cb0, isValid);
      assert Flags() == valid;
      if done && merkle && !rootOk {
        Rollback(k - 1);
      } else if cb == 0 {
        NoneBack(k0, merkle && !rootOk, valid);
      }
    }

    /** Counts the bytes of piece `i` for the sub-file under the cursor and moves the cursor on. */
    method Spread(cb0: nat, isValid: bool) returns (cb: nat, done: bool)
      requires Structure() && i < |pieces| && InSub(k, offset) && cb0 > 0
      requires Underway(layout, Flags(), i, k, layout.subs[k].offset + offset, left, lefts)
      requires cb0 == layout.Stop(i) - (layout.subs[k].offset + offset) && isValid == Flags()[i]
      modifies this`lefts, this`k, this`offset
      ensures cb <= cb0 && k == old(k) + if done then 1 else 0
      ensures cb > 0 ==> done && !merkle && InSub(k, offset) && cb == layout.Stop(i) - (layout.subs[k].offset + offset)
      ensures cb > 0 ==> Underway(layout, Flags(), i, k, layout.subs[k].offset + offset, left, lefts)
      ensures cb == 0 ==> Ledger(layout, Flags(), i + 1, left, lefts) && AtPiece(i + 1)
      ensures merkle && done ==> layout.subs[old(k)].End() == layout.Stop(i)
      ensures !done ==> layout.subs[old(k)].offset < layout.Stop(i) < layout.subs[old(k)].End()
    {
      hide Structure, StructureBut, Flags, Underway, Ledger, Map.Seamless, Map.PerFile, Map.Ordered;
      Facts(i);
      ghost var valid := Flags();
      UnderwayFacts(layout, valid, i, k, layout.subs[k].offset + offset, left, lefts);
      var cb1 := Min(cb0, layout.subs[k].size - offset);
      var lefts' := if isValid then lefts else lefts[k := lefts[k] + cb1];
      CursorStep(layout, merkle, valid, i, k, offset, left, lefts, cb0, cb1, lefts');
      cb := cb0 - cb1;
      done := offset + cb1 == layout.subs[k].size;
      lefts, offset, k := lefts', if done then 0 else offset + cb1, if done then k + 1 else k;
      assert Flags() == valid;
    }

    /** Checks the next piece.  `verdict` is the outcome of comparing it with its hash, `rootOk` whether the tree
        of the sub-file reached its root; without validation a piece keeps the state it was loaded with.
        Main result: after every call the counters describe exactly the pieces checked so far. */
    method Run(validate: bool, verdict: bool, rootOk: bool) returns (more: bool)
      requires Hashing()
      modifies this, pieces
      ensures Hashing() && more == (old(i) < |pieces|) && i == old(i) + if more then 1 else 0
      ensures !more ==> Flags() == old(Flags())
      ensures more ==>
        TakenBack(layout, merkle && !rootOk, old(i),
                  if validate then old(Flags())[old(i) := verdict] else old(Flags()), Flags())
    {
      hide TakenBack, Structure, StructureBut, Flags, Underway, Ledger, Map.Seamless, Map.PerFile, Map.Ordered, InSub;
      more := i < |pieces|;
      if more {
        CheckPiece(validate, verdict, rootOk);
        ghost var valid := Flags();
        i := i + 1;
        assert Structure() && Flags() == valid;
      }
    }

    /** Opening without validation: the pieces keep the state they were loaded with, and are only counted. */
    method Resume()
      requires Hashing()
      modifies this, pieces
      ensures Running() && i == |pieces| && (!merkle ==> Flags() == old(Flags()))
    {
      hide Structure, Flags, Ledger, AtPiece;
      ghost var valid := Flags();
      var more := true;
      while more
        invariant Hashing() && (!merkle ==> Flags() == valid) && (!more ==> i == |pieces|)
        decreases |pieces| - i, more
      {
        var rootOk: bool := *;
        ghost var before := Flags();
        more := Run(false, false, rootOk);
        assert !merkle ==> Flags() == before;
      }
    }

    /** Checks piece `i` and goes over its bytes in the sub-files. */
    method CheckPiece(validate: bool, verdict: bool, rootOk: bool)
      requires Hashing() && i < |pieces|
      modifies this`left, this`lefts, this`k, this`offset, pieces
      ensures Structure() && Ledger(layout, Flags(), i + 1, left, lefts) && AtPiece(i + 1)
      ensures TakenBack(layout, merkle && !rootOk, i,
                        if validate then old(Flags())[i := verdict] else old(Flags()), Flags())
    {
      hide TakenBack, Structure, StructureBut, Flags, Underway, Ledger, Map.Seamless, Map.PerFile, Map.Ordered,
        InSub, AtPiece;
      Facts(i);
      var isValid := Begin(validate, verdict);
      RunPiece(layout.sizes[i], isValid, rootOk);
    }

    /** Passes the verdict on piece `i` and counts it for the torrent. */
    method Begin(validate: bool, verdict: bool) returns (isValid: bool)
      requires Hashing() && i < |pieces|
      modifies this`left, this`k, pieces[i]
      ensures Structure() && InSub(k, offset) && layout.subs[k].offset + offset == layout.starts[i]
      ensures Flags() == (if validate then old(Flags())[i := verdict] else old(Flags())) && isValid == Flags()[i]
      ensures Underway(layout, Flags(), i, k, layout.starts[i], left, lefts)
    {
      hide Structure, StructureBut, Flags, Underway, Ledger, AtPiece;
      ghost var valid := Flags();
      isValid := Pass(i, validate, verdict);
      Count(valid, isValid);
    }

    /** Counts piece `i`, whose verdict is `isValid`, for the torrent. */
    method Count(ghost valid: seq<bool>, isValid: bool)
      requires Structure() && i < |pieces| && |valid| == |pieces| && AtPiece(i) && Ledger(layout, valid, i, left, lefts)
      modifies this`left, this`k
      ensures InSub(k, offset) && layout.subs[k].offset + offset == layout.starts[i]
      ensures Underway(layout, valid[i := isValid], i, k, layout.starts[i], left, lefts)
    {
      hide Structure, StructureBut, Flags, Underway, Ledger, Map.Seamless, Map.PerFile, Map.Ordered, AtPiece, InSub;
      StandsAt();
      var first := if i == 0 then 0 else k;
      UnderwayStart(layout, valid, i, isValid, first, left, lefts);
      k, left := first, if isValid then left else left + layout.sizes[i];
    }

    lemma StandsAt()
      requires Structure() && i < |pieces| && AtPiece(i)
      ensures layout.Ordered() && |layout.sizes| == |pieces|
      ensures var first := if i == 0 then 0 else k;
        InSub(first, offset) && first < |layout.subs| && layout.subs[first].offset + offset == layout.starts[i] &&
        layout.subs[first].offset <= layout.starts[i] <= layout.subs[first].End()
    {
      hide StructureBut, Map.Seamless, Map.PerFile, Map.Ordered;
      Facts(i);
      FirstSub();
    }

    /** The verdict on piece `p`; without validation the piece keeps its state. */
    method Pass(p: nat, validate: bool, verdict: bool) returns (isValid: bool)
      requires Structure() && p < |pieces|
      modifies pieces[p]
      ensures Structure() && Flags() == (if validate then old(Flags())[p := verdict] else old(Flags())) &&
        isValid == Flags()[p]
      ensures Flags() == old(Flags())[p := isValid]
    {
      hide Structure, StructureBut, Flags;
      Facts(p);
      JudgedFlag(p);
      if validate {
        Judge(p, verdict);
        isValid := verdict;
      } else {
        isValid := pieces[p].valid;
        assert Flags()[p := isValid] == Flags();
      }
    }

    lemma FirstSub()
      requires layout.Ordered()
      ensures |layout.subs| >= 1 && layout.subs[0].offset == 0 && layout.starts[0] == 0
    {
    }

    lemma JudgedFlag(p: nat)
      requires Structure() && p < |pieces|
      ensures pieces[p].valid == Flags()[p] && pieces[p].size == layout.sizes[p]
    {
    }

    /** Distributes piece `i` to the sub-files. */
    method RunPiece(cb0: nat, isValid: bool, rootOk: bool)
      requires Structure() && i < |pieces| && InSub(k, offset) && cb0 == layout.sizes[i] &&
        layout.subs[k].offset + offset == layout.starts[i]
      requires Underway(layout, Flags(), i, k, layout.starts[i], left, lefts) && isValid == Flags()[i]
      modifies this`left, this`lefts, this`k, this`offset, pieces
      ensures Structure() && Ledger(layout, Flags(), i + 1, left, lefts) && AtPiece(i + 1)
      ensures TakenBack(layout, merkle && !rootOk, i, old(Flags()), Flags())
    {
      hide TakenBack, Structure, StructureBut, Flags, Underway, Ledger, Map.Seamless, Map.PerFile;
      Facts(i);
      var cb := cb0;
      ghost var valid0 := Flags();
      while cb != 0
        invariant Structure() && 0 <= cb
        invariant cb > 0 ==>
          InSub(k, offset) && cb == layout.Stop(i) - (layout.subs[k].offset + offset) && Flags() == valid0
        invariant cb > 0 ==> Underway(layout, Flags(), i, k, layout.subs[k].offset + offset, left, lefts)
        invariant cb == 0 ==> Ledger(layout, Flags(), i + 1, left, lefts) && AtPiece(i + 1)
        invariant cb == 0 ==> TakenBack(layout, merkle && !rootOk, i, valid0, Flags())
        decreases cb, |layout.subs| - k
      {
        cb := Advance(cb, isValid, rootOk);
      }
    }
  
    /** The torrent lies on disk without gaps. */
    ghost predicate OnDisk()
      reads disk
    {
      !merkle && layout.Contiguous() && layout.Aligned() && disk.Valid() && disk.subs == layout.subs
    }

    ghost predicate Genuine(n: nat)
      reads pieces, disk
      requires layout.Ordered() && |pieces| == |layout.sizes| && n <= |pieces|
    {
      AllMatch(layout, matches, disk.Flat(), Flags(), n)
    }

    /** The bytes of piece `p` on disk have its hash. */
    ghost predicate OnDiskMatches(p: nat)
      reads disk
      requires |layout.starts| == |layout.sizes| && p < |layout.sizes|
    {
      layout.Stop(p) <= |disk.Flat()| && matches(p, disk.Flat()[layout.starts[p]..layout.Stop(p)])
    }

    /** The piece that `address` lies in, -1 if none. */
    ghost function PieceAt(address: int): (a: int)
      ensures a < |pieces|
    {
      if layout.len >= 1 && 0 <= address && address / layout.len < |pieces| then address / layout.len else -1
    }

    /** Is a block of `cb` bytes at `address` a whole missing sub-piece of a started piece? */
    ghost predicate Wanted(address: int, cb: nat)
      reads pieces
    {
      var a := PieceAt(address);
      a >= 0 && pieces[a].Wants(address % layout.len, cb)
    }

    /** Has every byte of its piece been received once the block of `cb` bytes at `address` is? */
    ghost predicate Completes(address: int, cb: nat)
      reads pieces
    {
      var a := PieceAt(address);
      a >= 0 && pieces[a].CoveredBut(address % layout.len, cb)
    }

    lemma DiskSize(p: nat)
      requires Structure() && OnDisk() && p < |pieces|
      ensures layout.Stop(p) <= |disk.Flat()|
    {
      var n := |layout.subs|;
      PlacedSub(disk.subs, disk.files, n - 1);
      assert layout.Edge(n) == layout.Stop(|layout.sizes| - 1);
      InOrder(layout, p, |layout.sizes| - 1);
    }

    /** Checks the next piece of a torrent without Merkle trees against its hash; `readOk` tells whether it could
        be read.  A piece is found valid only if its bytes on disk have its hash. */
    method HashPiece(readOk: bool) returns (more: bool)
      requires Hashing() && OnDisk() && Genuine(i)
      modifies this, pieces
      ensures Hashing() && OnDisk() && Genuine(i)
      ensures more == (old(i) < |pieces|) && i == old(i) + if more then 1 else 0
      ensures more ==> Flags() == old(Flags())[old(i) := readOk && OnDiskMatches(old(i))]
    {
      hide Structure, StructureBut, Flags, Ledger, AtPiece, AllMatch, TakenBack, Map.Contiguous, Map.Seamless, Map.PerFile,
        Splice, Concat, Placed;
      if i >= |pieces| {
        return false;
      }
      Facts(i);
      DiskSize(i);
      var ok, d := disk.ReadData(layout.starts[i], layout.sizes[i]);
      var verdict := readOk && matches(i, d);
      ghost var flat, valid := disk.Flat(), Flags();
      more := Run(true, verdict, true);
      NothingTakenBack(i - 1, valid[i - 1 := verdict], Flags());
      GenuineNext(flat, valid, i - 1, verdict);
    }

    lemma NothingTakenBack(p: nat, valid: seq<bool>, after: seq<bool>)
      requires layout.Ordered() && p < |layout.sizes| && |after| == |valid|
      requires TakenBack(layout, false, p, valid, after)
      ensures after == valid
    {
    }

    lemma GenuineNext(flat: seq<byte>, valid: seq<bool>, p: nat, v: bool)
      requires layout.Ordered() && |valid| == |layout.sizes| && p < |valid| && layout.Stop(p) <= |flat|
      requires AllMatch(layout, matches, flat, valid, p) && (v ==> matches(p, flat[layout.starts[p]..layout.Stop(p)]))
      ensures AllMatch(layout, matches, flat, valid[p := v], p + 1)
    {
    }

    /** Takes in one block at offset `o` of piece `a` and, if it was the last one missing, judges the piece by
        what is then on disk. */
    method StoreBlock(a: nat, o: nat, s: seq<byte>) returns (r: Outcome)
      requires Structure() && OnDisk() && a < |pieces|
      modifies pieces[a], disk
      ensures Structure() && OnDisk() && (old(Genuine(|pieces|)) ==> Genuine(|pieces|))
      ensures r == Rejected ==> disk.Flat() == old(disk.Flat())
      ensures r != Rejected ==> o + |s| <= layout.sizes[a] && layout.Stop(a) <= |old(disk.Flat())| &&
                                disk.Flat() == Splice(old(disk.Flat()), layout.starts[a] + o, s)
      ensures r != Rejected <==> old(pieces[a].Wants(o, |s|))
      ensures r == Completed <==> old(pieces[a].Wants(o, |s|)) && old(pieces[a].CoveredBut(o, |s|)) && OnDiskMatches(a)
      ensures r == Completed ==> !old(Flags()[a]) && Flags() == old(Flags())[a := true]
      ensures r != Completed ==> Flags() == old(Flags())
      ensures r == Stored || r == Rejected <==> !old(pieces[a].Wants(o, |s|)) || !old(pieces[a].CoveredBut(o, |s|))
      ensures r != Rejected ==> o / SUB_PIECE < |old(pieces[a].subPieces)|
      ensures pieces[a].subPieces ==
        match r
        case Rejected => old(pieces[a].subPieces)
        case Stored => old(pieces[a].subPieces)[o / SUB_PIECE := SubPiece(true, map[])]
        case _ => []
    {
      hide Structure, StructureBut, Flags, AllMatch, Map.Contiguous, Map.Seamless, Splice, Concat, Placed,
        Piece.Wants, Piece.CoveredBut, Piece.Valid, Piece.Settled;
      Facts(a);
      DiskSize(a);
      var accepted, full := Take(a, o, |s|);
      if !accepted {
        return Rejected;
      }
      if AllMatch(layout, matches, disk.Flat(), Flags(), |pieces|) {
        BlockSpares(layout, matches, disk.Flat(), Flags(), |pieces|, a, layout.starts[a] + o, s);
      }
      disk.WriteBytes(layout.starts[a] + o, s);
      if !full {
        return Stored;
      }
      var ok, d := disk.ReadData(layout.starts[a], layout.sizes[a]);
      if AllMatch(layout, matches, disk.Flat(), Flags(), |pieces|) {
        GenuineSet(disk.Flat(), Flags(), a, matches(a, d));
      }
      Judge(a, matches(a, d));
      r := if matches(a, d) then Completed else Spoiled;
    }

    /** Offers a block of `cb` bytes to piece `a`. */
    method Take(a: nat, o: nat, cb: nat) returns (accepted: bool, full: bool)
      requires Structure() && a < |pieces|
      modifies pieces[a]
      ensures StructureBut(a) && (!full ==> Structure()) && Flags() == old(Flags())
      ensures accepted ==> !Flags()[a] && cb > 0 && o + cb <= layout.sizes[a]
      ensures accepted <==> old(pieces[a].Wants(o, cb))
      ensures full <==> accepted && old(pieces[a].CoveredBut(o, cb))
      ensures accepted ==> o / SUB_PIECE < |old(pieces[a].subPieces)|
      ensures pieces[a].subPieces ==
        if full then [] else if accepted then old(pieces[a].subPieces)[o / SUB_PIECE := SubPiece(true, map[])]
        else old(pieces[a].subPieces)
    {
      if pieces[a].valid {
        return false, false;
      }
      if pieces[a].Wants(o, cb) {
        pieces[a].LastBlock(o, cb);
      }
      accepted := pieces[a].Write(o, cb);
      if accepted {
        BlockInside(layout.sizes[a], o, cb);
      }
      full := accepted && pieces[a].left == 0;
    }

    lemma GenuineSet(flat: seq<byte>, valid: seq<bool>, p: nat, v: bool)
      requires layout.Ordered() && |valid| == |layout.sizes| && p < |valid| && layout.Stop(p) <= |flat|
      requires AllMatch(layout, matches, flat, valid, |valid|) &&
        (v ==> matches(p, flat[layout.starts[p]..layout.Stop(p)]))
      ensures AllMatch(layout, matches, flat, valid[p := v], |valid|)
    {
    }
  
    /** Takes the bytes of piece `a` off the counters of the sub-files it lies in. */
    method TakeOff(a: nat)
      requires layout.Ordered() && layout.Contiguous() && a < |layout.sizes| && |lefts| == |layout.subs|
      modifies this`lefts
      ensures |lefts| == |layout.subs| && Sum(lefts) == Sum(old(lefts)) - layout.sizes[a]
      ensures forall k :: 0 <= k < |lefts| ==> lefts[k] == old(lefts)[k] - layout.Shared(k, a)
    {
      hide Sum, Map.Shared, Map.Contiguous, Taken;
      var ls := lefts;
      ghost var ls0 := ls;
      var offset, size, k := layout.starts[a], layout.sizes[a], 0;
      TakenStart(layout, a, ls);
      while k < |layout.subs| && size != 0
        invariant 0 <= k <= |layout.subs| == |ls| && 0 <= size && 0 <= offset
        invariant Taken(layout, a, k, offset, size, ls0, ls)
      {
        var cb := if offset >= layout.subs[k].End() then 0 else Min(size, layout.subs[k].End() - offset);
        TakenStep(layout, a, k, offset, size, ls0, ls, cb, ls[k := ls[k] - cb]);
        ls := ls[k := ls[k] - cb];
        size, offset, k := size - cb, offset + cb, k + 1;
      }
      TakenAll(layout, a, k, offset, size, ls0, ls);
      lefts := ls;
    }

    /** Takes in a block from a peer at `address` of the torrent; 0 if it was accepted.  Main result: whatever
        blocks arrive, an accepted block is then in its place on disk and nothing else has changed, a valid piece
        has the bytes of its hash if that was so after hashing (opening without validation does not ensure it),
        and the counters still describe exactly the invalid pieces. */
    method WriteData(address: int, s: seq<byte>) returns (rc: int)
      requires Running() && OnDisk()
      modifies this`left, this`lefts, pieces, disk
      ensures Running() && OnDisk() && (old(Genuine(|pieces|)) ==> Genuine(|pieces|))
      ensures rc == 0 <==> old(Wanted(address, |s|))
      ensures rc != 0 ==> disk.Flat() == old(disk.Flat())
      ensures var a := PieceAt(address);
        Flags() ==
          if rc == 0 && old(Completes(address, |s|)) && OnDiskMatches(a) then old(Flags())[a := true] else old(Flags())
      ensures rc == 0 ==>
        0 <= address && address + |s| <= |old(disk.Flat())| && disk.Flat() == Splice(old(disk.Flat()), address, s)
      ensures forall p :: 0 <= p < |pieces| && old(Flags())[p] ==> Flags()[p]
      ensures rc == 0 ==> address % layout.len / SUB_PIECE < |old(pieces[PieceAt(address)].subPieces)|
      ensures forall p :: 0 <= p < |pieces| ==>
        pieces[p].subPieces ==
          if p != PieceAt(address) || rc != 0 then old(pieces[p].subPieces)
          else if old(Completes(address, |s|)) then []
          else old(pieces[p].subPieces)[address % layout.len / SUB_PIECE := SubPiece(true, map[])]
    {
      hide Structure, StructureBut, Flags, Ledger, Genuine, OnDisk, OnDiskMatches, Splice, Concat, Placed,
        Piece.Wants, Piece.CoveredBut, Piece.Valid, Piece.Settled;
      LenPositive();
      if address < 0 {
        return 1;
      }
      var a := address / layout.len;
      if a >= |pieces| {
        return 1;
      }
      rc := WriteBlock(a, address, s);
    }

    method WriteBlock(a: nat, address: nat, s: seq<byte>) returns (rc: int)
      requires Running() && OnDisk() && layout.len >= 1 && a == address / layout.len && a < |pieces|
      modifies this`left, this`lefts, pieces, disk
      ensures Running() && OnDisk() && (old(Genuine(|pieces|)) ==> Genuine(|pieces|))
      ensures rc == 0 <==> old(pieces[a].Wants(address % layout.len, |s|))
      ensures rc != 0 ==> disk.Flat() == old(disk.Flat())
      ensures Flags() ==
        if rc == 0 && old(pieces[a].CoveredBut(address % layout.len, |s|)) && OnDiskMatches(a)
        then old(Flags())[a := true] else old(Flags())
      ensures rc == 0 ==> address + |s| <= |old(disk.Flat())| && disk.Flat() == Splice(old(disk.Flat()), address, s)
      ensures rc == 0 ==> address % layout.len / SUB_PIECE < |old(pieces[a].subPieces)|
      ensures forall p :: 0 <= p < |pieces| ==>
        pieces[p].subPieces ==
          if p != a || rc != 0 then old(pieces[p].subPieces)
          else if old(pieces[a].CoveredBut(address % layout.len, |s|)) then []
          else old(pieces[p].subPieces)[address % layout.len / SUB_PIECE := SubPiece(true, map[])]
    {
      hide Structure, StructureBut, Flags, Ledger, AllMatch, Map.Contiguous, Map.Seamless, Map.PerFile, Splice,
        Concat, Placed, Piece.Wants, Piece.CoveredBut, OnDiskMatches;
      Facts(a);
      Distinct(a);
      Address(address, a);
      ghost var valid := Flags();
      var r := StoreBlock(a, address % layout.len, s);
      if r == Completed {
        CountOff(a, valid);
      }
      rc := if r == Rejected then 1 else 0;
    }

    /** Piece `a` has become valid: its bytes are no longer missing. */
    method CountOff(a: nat, ghost valid: seq<bool>)
      requires layout.Ordered() && layout.Contiguous() && a < |layout.sizes| == |valid| && !valid[a]
      requires Ledger(layout, valid, |valid|, left, lefts)
      modifies this`left, this`lefts
      ensures Ledger(layout, valid[a := true], |valid|, left, lefts)
    {
      hide Ledger, Sum, Map.Shared;
      LedgerSize(layout, valid, |valid|, left, lefts);
      ghost var left0, lefts0 := left, lefts;
      left := left - layout.sizes[a];
      TakeOff(a);
      Close(layout, valid, left0, lefts0, a, lefts);
    }

    lemma Distinct(a: nat)
      requires Structure() && a < |pieces|
      ensures forall p :: 0 <= p < |pieces| && p != a ==> pieces[p] != pieces[a]
    {
    }

    lemma LenPositive()
      requires Structure()
      ensures layout.len >= 1
    {
    }

    lemma Address(address: nat, a: nat)
      requires layout.len >= 1 && layout.Aligned() && a == address / layout.len && a < |layout.starts|
      ensures address == layout.starts[a] + address % layout.len
    {
      assert address == a * layout.len + address % layout.len;
    }
  }
}
