/** A piece of a torrent and the counters that shadow its sub-pieces. */
module Pieces {

  type PeerId = nat
  type Time = int

  const SUB_PIECE := 16384

  datatype SubPiece = SubPiece(valid: bool, peers: map<PeerId, Time>)

  /** Sub-pieces still missing. */
  function Missing(s: seq<SubPiece>): nat {
    if s == [] then 0 else (if s[0].valid then 0 else 1) + Missing(s[1..])
  }

  predicate Free(x: SubPiece) {
    !x.valid && x.peers == map[]
  }

  /** Missing sub-pieces nobody has been asked for. */
  function Unrequested(s: seq<SubPiece>): nat {
    if s == [] then 0 else (if Free(s[0]) then 1 else 0) + Unrequested(s[1..])
  }

  lemma {:induction false} CountUpdate(s: seq<SubPiece>, i: nat, x: SubPiece)
    requires i < |s|
    ensures Missing(s[i := x]) == Missing(s) - (if s[i].valid then 0 else 1) + (if x.valid then 0 else 1)
    ensures Unrequested(s[i := x]) == Unrequested(s) - (if Free(s[i]) then 1 else 0) + (if Free(x) then 1 else 0)
    decreases |s|
  {
    if i > 0 {
      assert s[i := x][1..] == s[1..][i - 1 := x];
      CountUpdate(s[1..], i - 1, x);
    } else {
      assert s[i := x][1..] == s[1..];
    }
  }

  function Fresh(n: nat): (s: seq<SubPiece>)
    ensures |s| == n && forall k :: 0 <= k < n ==> s[k] == SubPiece(false, map[])
  {
    seq(n, _ => SubPiece(false, map[]))
  }

  lemma {:induction false} CountFresh(n: nat)
    ensures Missing(Fresh(n)) == n && Unrequested(Fresh(n)) == n
  {
    if n > 0 {
      assert Fresh(n)[1..] == Fresh(n - 1);
      CountFresh(n - 1);
    }
  }

  lemma {:induction false} UnrequestedExists(s: seq<SubPiece>) returns (k: nat)
    requires Unrequested(s) > 0
    ensures k < |s| && Free(s[k])
  {
    if Free(s[0]) {
      k := 0;
    } else {
      k := UnrequestedExists(s[1..]);
      k := k + 1;
    }
  }

  lemma {:induction false} MissingExists(s: seq<SubPiece>) returns (k: nat)
    requires Missing(s) > 0
    ensures k < |s| && !s[k].valid
  {
    if !s[0].valid {
      k := 0;
    } else {
      k := MissingExists(s[1..]);
      k := k + 1;
    }
  }

  /** Number of sub-pieces of a piece of `size` bytes. */
  function SubPieces(size: nat): nat {
    (size + SUB_PIECE - 1) / SUB_PIECE
  }

  /** Bytes in sub-piece `b`. */
  function SubPieceSize(size: nat, b: nat): int {
    (if SUB_PIECE * (b + 1) < size then SUB_PIECE * (b + 1) else size) - SUB_PIECE * b
  }

  /** Bytes in the first `n` sub-pieces. */
  function FirstBytes(size: nat, n: nat): int {
    if n == 0 then 0 else FirstBytes(size, n - 1) + SubPieceSize(size, n - 1)
  }

  lemma {:induction false} FirstBytesAre(size: nat, n: nat)
    requires n <= SubPieces(size)
    ensures FirstBytes(size, n) == if n * SUB_PIECE < size then n * SUB_PIECE else size
  {
    if n > 0 {
      FirstBytesAre(size, n - 1);
    }
  }

  /** The sub-pieces make up the piece: none is empty, none is longer than the others but for the last one, which may
      be shorter, together they have all its bytes, and every byte is in the sub-piece it should be in. */
  lemma SubPiecesMakeUp(size: nat)
    ensures forall b :: 0 <= b < SubPieces(size) ==>
      0 < SubPieceSize(size, b) <= SUB_PIECE && (b + 1 < SubPieces(size) ==> SubPieceSize(size, b) == SUB_PIECE)
    ensures FirstBytes(size, SubPieces(size)) == size
    ensures forall x: nat ::
      x < size <==> x / SUB_PIECE < SubPieces(size) && x % SUB_PIECE < SubPieceSize(size, x / SUB_PIECE)
  {
    FirstBytesAre(size, SubPieces(size));
  }

  /** A piece of 256 KB has 16 sub-pieces, one byte more makes 17. */
  lemma SubPiecesOfUsualPiece()
    ensures SubPieces(262144) == 16 && SubPieces(262145) == 17 && SubPieceSize(262145, 16) == 1
  {
  }

  lemma {:induction false} MissingOnly(s: seq<SubPiece>)
    requires forall k :: 0 <= k < |s| ==> s[k].valid
    ensures Missing(s) == 0
  {
    if s != [] {
      MissingOnly(s[1..]);
    }
  }

  /** One sub-piece is missing, and no other, exactly when the count is one. */
  lemma MissingOne(s: seq<SubPiece>, b: nat)
    requires b < |s| && !s[b].valid
    ensures Missing(s) == 1 <==> forall k :: 0 <= k < |s| && k != b ==> s[k].valid
  {
    var x := SubPiece(true, map[]);
    CountUpdate(s, b, x);
    var t := s[b := x];
    if Missing(t) == 0 {
      MissingNone(t);
      assert forall k :: 0 <= k < |s| && k != b ==> s[k] == t[k];
    }
    if forall k :: 0 <= k < |s| && k != b ==> s[k].valid {
      MissingOnly(t);
    }
  }

  class Piece {
    var size: nat
    var valid: bool
    var left: int         // missing sub-pieces
    var unrequested: int  // missing sub-pieces without a requester
    var subPieces: seq<SubPiece>  // empty until the first request

    /** What the counters promise of a piece that is not valid yet: they count, a sub-piece has at most one
        requester, and a received one has none.  The sub-piece list is dropped when the last one arrives;
        until the piece is then judged, `left` is zero. */
    ghost predicate Valid()
      reads this
    {
      if valid then subPieces == []
      else if subPieces == [] then left == 0 || left == unrequested == SubPieces(size)
      else
        |subPieces| == SubPieces(size) && Counted(subPieces, left, unrequested) && left > 0
    }

    /** Not in the moment between the arrival of the last sub-piece and the verdict on the piece. */
    ghost predicate Settled()
      reads this
    {
      Valid() && (!valid && subPieces == [] ==> left == unrequested == SubPieces(size))
    }

    /** Would a block of `cb` bytes at `offset` be a whole missing sub-piece of a started piece? */
    ghost predicate Wants(offset: int, cb: nat)
      reads this
    {
      var b := TruncDiv(offset, SUB_PIECE);
      !valid && 0 <= offset < size && offset % SUB_PIECE == 0 && cb == SubPieceSize(size, b) &&
      b < |subPieces| && !subPieces[b].valid
    }

    /** Every byte of the piece but those of the block at `offset` has been received. */
    ghost predicate CoveredBut(offset: int, cb: nat)
      reads this
    {
      forall x :: 0 <= x < size && !(offset <= x < offset + cb) ==>
        x / SUB_PIECE < |subPieces| && subPieces[x / SUB_PIECE].valid
    }

    /** The count tells whether a wanted block is the last one. */
    lemma LastBlock(offset: int, cb: nat)
      requires Settled() && Wants(offset, cb)
      ensures left == 1 <==> CoveredBut(offset, cb)
    {
      hide Missing, Unrequested;
      var b := offset / SUB_PIECE;
      MissingOne(subPieces, b);
      SubPiecesMakeUp(size);
      if CoveredBut(offset, cb) {
        forall k | 0 <= k < |subPieces| && k != b ensures subPieces[k].valid {
          var x := k * SUB_PIECE;
          assert x / SUB_PIECE == k && x < size;
          assert !(offset <= x < offset + cb);
        }
      }
    }

    /** A started piece that has not been judged wants at least one more block. */
    lemma StillWants() returns (b: nat)
      requires Settled() && !valid && subPieces != []
      ensures b < SubPieces(size) && Wants(b * SUB_PIECE, SubPieceSize(size, b))
    {
      b := MissingExists(subPieces);
      BlockWanted(b);
    }

    lemma BlockWanted(b: nat)
      requires Settled() && !valid && b < |subPieces| && !subPieces[b].valid
      ensures b < SubPieces(size) && SubPieceSize(size, b) >= 0 && Wants(b * SUB_PIECE, SubPieceSize(size, b))
    {
      SubPiecesMakeUp(size);
      assert b * SUB_PIECE / SUB_PIECE == b && b * SUB_PIECE % SUB_PIECE == 0;
      assert b * SUB_PIECE < size;
    }

    constructor (size: nat)
      ensures Settled() && this.size == size && !valid && subPieces == []
    {
      this.size := size;
      valid := false;
      left, unrequested := SubPieces(size), SubPieces(size);
      subPieces := [];
    }

    /** The verdict on a piece: a valid piece needs nothing more, an invalid one starts again. */
    method SetValid(v: bool)
      requires Valid()
      modifies `valid, `left, `unrequested, `subPieces
      ensures Settled() && valid == v
      ensures subPieces == if v then [] else old(subPieces)
    {
      valid := v;
      if v {
        left, unrequested := 0, 0;
        subPieces := [];
      } else if subPieces == [] {
        left, unrequested := SubPieces(size), SubPieces(size);
      }
    }

    /** Hands out the first missing sub-piece nobody has been asked for; -1 if there is none.  The search
        never comes up empty-handed when the counter says there is one. */
    method NextInvalidSubPiece(peer: PeerId, now: Time) returns (b: int)
      requires Settled() && !valid
      modifies `unrequested, `subPieces
      ensures Settled()
      ensures old(unrequested) == 0 <==> b == -1
      ensures b == -1 ==> subPieces == old(subPieces) && unrequested == old(unrequested)
      ensures b != -1 ==>
        var s := if old(subPieces) == [] then Fresh(SubPieces(size)) else old(subPieces);
        0 <= b < |s| && Free(s[b]) && (forall k :: 0 <= k < b ==> !Free(s[k])) &&
        subPieces == s[b := SubPiece(false, map[peer := now])] &&
        SubPieceSize(size, b) >= 0 && Wants(b * SUB_PIECE, SubPieceSize(size, b))
    {
      if unrequested == 0 {
        return -1;
      }
      if subPieces == [] {
        CountFresh(SubPieces(size));
        subPieces := Fresh(SubPieces(size));
      }
      ghost var w := UnrequestedExists(subPieces);
      b := 0;
      while !Free(subPieces[b])
        invariant 0 <= b <= w
        invariant forall k :: 0 <= k < b ==> !Free(subPieces[k])
        decreases |subPieces| - b
      {
        b := b + 1;
      }
      CountUpdate(subPieces, b, SubPiece(false, map[peer := now]));
      subPieces := subPieces[b := SubPiece(false, map[peer := now])];
      unrequested := unrequested - 1;
      BlockWanted(b);
    }

    /** Forgets the request of `peer` for the sub-piece at `offset`. */
    method ErasePeer(peer: PeerId, offset: int)
      requires Valid()
      modifies `unrequested, `subPieces
      ensures Valid() && (old(Settled()) ==> Settled())
      ensures var b := TruncDiv(offset, SUB_PIECE);
        if !valid && 0 <= b < |old(subPieces)| && peer in old(subPieces)[b].peers
        then subPieces == old(subPieces)[b := SubPiece(false, map[])]
        else subPieces == old(subPieces) && unrequested == old(unrequested)
    {
      if valid {
        return;
      }
      var b := TruncDiv(offset, SUB_PIECE);
      if b < 0 || b >= |subPieces| || peer !in subPieces[b].peers {
        return;
      }
      var x := subPieces[b];
      WithoutRequester(subPieces, left, unrequested, b, peer);
      subPieces := subPieces[b := SubPiece(x.valid, x.peers - {peer})];
      assert !x.valid;
      unrequested := unrequested + 1;
    }

    /** Takes in a received block; refuses anything but a whole missing sub-piece of a started piece. */
    method Write(offset: int, cb: nat) returns (accepted: bool)
      requires Settled()
      modifies `left, `unrequested, `subPieces
      ensures Valid() && (!accepted || left != 0 ==> Settled())
      ensures accepted <==> old(Wants(offset, cb))
      ensures !accepted ==> subPieces == old(subPieces) && left == old(left) && unrequested == old(unrequested)
      ensures accepted ==> left == old(left) - 1 && old(left) == Missing(old(subPieces))
      ensures accepted && left != 0 ==> subPieces == old(subPieces)[offset / SUB_PIECE := SubPiece(true, map[])]
      ensures accepted && left == 0 ==> subPieces == []
      ensures accepted && left == 0 ==>
        forall k :: 0 <= k < |old(subPieces)| && k != offset / SUB_PIECE ==> old(subPieces)[k].valid
    {
      var b := TruncDiv(offset, SUB_PIECE);
      if valid || offset < 0 || offset >= size || offset % SUB_PIECE != 0 || cb != SubPieceSize(size, b)
         || b >= |subPieces| || subPieces[b].valid {
        return false;
      }
      var x := SubPiece(true, map[]);
      CountUpdate(subPieces, b, x);
      if subPieces[b].peers == map[] {
        unrequested := unrequested - 1;
      }
      subPieces := subPieces[b := x];
      left := left - 1;
      if left == 0 {
        MissingNone(subPieces);
        assert forall k :: 0 <= k < |subPieces| && k != b ==> subPieces[k] == old(subPieces)[k];
        subPieces := [];
      }
      accepted := true;
    }

    /** Drops the requests of `peer` older than `timeOut`. */
    method CheckPeer(peer: PeerId, timeOut: Time, now: Time) returns (found: bool)
      requires Valid()
      modifies `unrequested, `subPieces
      ensures Valid() && (old(Settled()) ==> Settled())
      ensures |subPieces| == |old(subPieces)|
      ensures forall k :: 0 <= k < |subPieces| ==>
        var x := old(subPieces)[k];
        subPieces[k] == if peer in x.peers && now > x.peers[peer] + timeOut then SubPiece(false, map[]) else x
      ensures found <==> exists k :: 0 <= k < |subPieces| && !Expired(old(subPieces)[k], peer, timeOut, now)
    {
      hide Missing, Unrequested;
      found := false;
      var k := 0;
      while k < |subPieces|
        invariant 0 <= k <= |subPieces| == |old(subPieces)|
        invariant subPieces != [] ==> Counted(subPieces, left, unrequested)
        invariant subPieces == [] ==> unrequested == old(unrequested)
        invariant forall j :: 0 <= j < |subPieces| ==>
          subPieces[j] ==
            if j < k && Expired(old(subPieces)[j], peer, timeOut, now) then SubPiece(false, map[])
            else old(subPieces)[j]
        invariant found <==> exists j :: 0 <= j < k && !Expired(old(subPieces)[j], peer, timeOut, now)
      {
        var x := subPieces[k];
        if peer in x.peers && now - x.peers[peer] > timeOut {
          WithoutRequester(subPieces, left, unrequested, k, peer);
          subPieces := subPieces[k := SubPiece(x.valid, x.peers - {peer})];
          unrequested := unrequested + 1;
        } else {
          found := true;
        }
        k := k + 1;
      }
    }

    /** The state of a piece as it is written to disk. */
    method SaveState() returns (d: seq<int>)
      requires Settled()
      ensures d == Saved(valid, subPieces)
    {
      if valid {
        d := [2];
      } else if subPieces == [] {
        d := [0];
      } else {
        d := [1];
        var k := 0;
        while k < |subPieces|
          invariant 0 <= k <= |subPieces|
          invariant d == [1] + Flags(subPieces[..k])
        {
          assert subPieces[..k + 1][..k] == subPieces[..k];
          d := d + [if subPieces[k].valid then 1 else 0];
          k := k + 1;
        }
        assert subPieces[..k] == subPieces;
      }
    }

    /** Restores a newly created piece from a saved state. */
    method LoadState(d: seq<int>)
      requires Settled() && !valid && subPieces == []
      requires d != [] && (d[0] == 1 ==> |d| >= 1 + SubPieces(size))
      modifies `valid, `left, `unrequested, `subPieces
      ensures valid == (d[0] == 2) && subPieces == Restored(d, SubPieces(size))
      ensures d[0] == 1 ==> Counted(subPieces, left, unrequested) && left == unrequested
      ensures !valid && (d[0] == 1 ==> Missing(subPieces) > 0) ==> Settled()
    {
      if d[0] == 0 {
        valid := false;
      } else if d[0] == 1 {
        valid := false;
        LoadFlags(d);
      } else if d[0] == 2 {
        valid := true;
      }
    }

    method LoadFlags(d: seq<int>)
      requires !valid && d != [] && d[0] == 1 && |d| >= 1 + SubPieces(size)
      modifies `left, `unrequested, `subPieces
      ensures subPieces == Restored(d, SubPieces(size))
      ensures Counted(subPieces, left, unrequested) && left == unrequested
    {
      hide Missing, Unrequested;
      var n := SubPieces(size);
      CountFresh(n);
      var s, l, u := Fresh(n), n as int, n as int;
      var k := 0;
      while k < n
        invariant 0 <= k <= n == |s|
        invariant Counted(s, l, u) && l == u
        invariant forall j :: 0 <= j < n ==> s[j] == SubPiece(j < k && d[1 + j] != 0, map[])
      {
        var x := SubPiece(d[1 + k] != 0, map[]);
        CountUpdate(s, k, x);
        s := s[k := x];
        if x.valid {
          l, u := l - 1, u - 1;
        }
        k := k + 1;
      }
      subPieces, left, unrequested := s, l, u;
    }
  }

  /** The counters shadow the sub-pieces. */
  ghost predicate Counted(s: seq<SubPiece>, left: int, unrequested: int) {
    left == Missing(s) && unrequested == Unrequested(s) &&
    forall k :: 0 <= k < |s| ==> |s[k].peers| <= 1 && (s[k].valid ==> s[k].peers == map[])
  }

  predicate Expired(x: SubPiece, peer: PeerId, timeOut: Time, now: Time) {
    peer in x.peers && now - x.peers[peer] > timeOut
  }

  /** Division as in C: towards zero. */
  function TruncDiv(a: int, b: int): int
    requires b > 0
  {
    if a >= 0 then a / b else -((-a) / b)
  }

  lemma OnlyRequester(m: map<PeerId, Time>, peer: PeerId)
    requires peer in m && |m| <= 1
    ensures m - {peer} == map[]
  {
    assert |m.Keys - {peer}| == |m.Keys| - 1;
  }

  /** Taking away the one requester of a sub-piece makes it a free one. */
  lemma WithoutRequester(s: seq<SubPiece>, left: int, unrequested: int, k: nat, peer: PeerId)
    requires Counted(s, left, unrequested) && k < |s| && peer in s[k].peers
    ensures SubPiece(s[k].valid, s[k].peers - {peer}) == SubPiece(false, map[])
    ensures Counted(s[k := SubPiece(false, map[])], left, unrequested + 1)
  {
    OnlyRequester(s[k].peers, peer);
    CountUpdate(s, k, SubPiece(false, map[]));
  }

  lemma {:induction false} MissingNone(s: seq<SubPiece>)
    requires Missing(s) == 0
    ensures forall k :: 0 <= k < |s| ==> s[k].valid
  {
    if s != [] {
      MissingNone(s[1..]);
      assert forall k :: 1 <= k < |s| ==> s[k] == s[1..][k - 1];
    }
  }

  function Flags(s: seq<SubPiece>): (r: seq<int>)
    ensures |r| == |s| && forall k :: 0 <= k < |s| ==> r[k] == if s[k].valid then 1 else 0
  {
    seq(|s|, k requires 0 <= k < |s| => if s[k].valid then 1 else 0)
  }

  /** 2: valid; 0: nothing received; 1: one flag per sub-piece follows. */
  function Saved(valid: bool, s: seq<SubPiece>): seq<int> {
    if valid then [2] else if s == [] then [0] else [1] + Flags(s)
  }

  /** The same sub-pieces with all requests forgotten. */
  function Forgotten(s: seq<SubPiece>): (r: seq<SubPiece>)
    ensures |r| == |s|
  {
    seq(|s|, k requires 0 <= k < |s| => SubPiece(s[k].valid, map[]))
  }

  /** The sub-pieces that a saved state describes. */
  function Restored(d: seq<int>, n: nat): (r: seq<SubPiece>)
    requires d != [] && (d[0] == 1 ==> |d| >= 1 + n)
  {
    if d[0] == 1 then seq(n, k requires 0 <= k < n => SubPiece(d[1 + k] != 0, map[])) else []
  }

  /** Saving and restoring keeps what was received and forgets the requests; nothing becomes or stops being
      missing. */
  lemma SavedRestored(valid: bool, s: seq<SubPiece>)
    requires valid ==> s == []
    ensures var d := Saved(valid, s);
      (d[0] == 2 <==> valid) && Restored(d, |s|) == Forgotten(s) &&
      Missing(Restored(d, |s|)) == Missing(s) == Unrequested(Restored(d, |s|))
  {
    MissingForgotten(s);
  }

  lemma {:induction false} MissingForgotten(s: seq<SubPiece>)
    ensures Missing(Forgotten(s)) == Missing(s) == Unrequested(Forgotten(s))
  {
    if s != [] {
      assert Forgotten(s)[1..] == Forgotten(s[1..]);
      MissingForgotten(s[1..]);
    }
  }
}
