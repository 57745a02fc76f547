/** Choosing the next piece to ask a peer for. */
module Selection {
  import opened Basics

  /** What the choice looks at in a piece: `started` once sub-pieces have been handed out. */
  datatype Info = Info(valid: bool, priority: int, peers: nat, started: bool, left: nat, unrequested: nat)

  /** The four criteria packed into one number. */
  function Rank(p: Info): int {
    1000000 * Max(0, Min(9 - p.priority, 19))
    + 100000 * Min(p.peers, 3)
    + 100 * (if !p.started then 999 else Min(p.left, 999))
    + Min(p.peers, 99)
  }

  /** The criteria themselves, most important first: urgency, rarity, sub-pieces left, number of peers. */
  datatype Key = Key(urgency: int, rarity: int, chunks: int, peers: int)

  function KeyOf(p: Info): Key {
    Key(Max(0, Min(9 - p.priority, 19)), Min(p.peers, 3), if p.started then Min(p.left, 999) else 999, Min(p.peers, 99))
  }

  predicate Before(a: Key, b: Key) {
    a.urgency < b.urgency ||
    (a.urgency == b.urgency && (a.rarity < b.rarity ||
    (a.rarity == b.rarity && (a.chunks < b.chunks ||
    (a.chunks == b.chunks && a.peers < b.peers)))))
  }

  /** No criterion carries into a more important one: comparing ranks is comparing criteria one by one. */
  lemma RankIsLexicographic(p: Info, q: Info)
    ensures Rank(p) < Rank(q) <==> Before(KeyOf(p), KeyOf(q))
    ensures Rank(p) == Rank(q) <==> KeyOf(p) == KeyOf(q)
  {
    var a, b := KeyOf(p), KeyOf(q);
    assert Rank(p) == 1000000 * a.urgency + 100000 * a.rarity + 100 * a.chunks + a.peers;
    assert Rank(q) == 1000000 * b.urgency + 100000 * b.rarity + 100 * b.chunks + b.peers;
    assert 0 <= a.rarity <= 3 && 0 <= a.chunks <= 999 && 0 <= a.peers <= 99;
    assert 0 <= b.rarity <= 3 && 0 <= b.chunks <= 999 && 0 <= b.peers <= 99;
  }

  /** Of two pieces with different priorities from -9 to 9 the one with the higher priority comes first. */
  lemma HigherPriorityFirst(p: Info, q: Info)
    requires -9 <= q.priority < p.priority <= 9
    ensures Before(KeyOf(p), KeyOf(q)) && Rank(p) < Rank(q)
  {
    RankIsLexicographic(p, q);
  }

  /** Of two pieces with the same priority the one that at most three peers have and fewer peers have comes first; of
      two that are equally rare, the one with fewer sub-pieces left; else the one with fewer peers. */
  lemma RarerFirst(p: Info, q: Info)
    requires p.priority == q.priority
    ensures p.peers < q.peers && p.peers < 3 ==> Before(KeyOf(p), KeyOf(q))
    ensures p.peers >= 3 && q.peers >= 3 && p.started && p.left < 999 && (!q.started || p.left < q.left) ==>
      Before(KeyOf(p), KeyOf(q))
    ensures 3 <= p.peers < q.peers && p.peers < 99 && !p.started && !q.started ==> Before(KeyOf(p), KeyOf(q))
  {
  }

  /** A piece that may be asked for at all. */
  predicate Wanted(p: Info) {
    !p.valid && p.priority != -10 && p.unrequested != 0
  }

  predicate Eligible(ps: seq<Info>, remote: seq<bool>, i: int) {
    0 <= i < |ps| && i < |remote| && Wanted(ps[i]) && remote[i]
  }

  /** The next piece to request from a peer that has the pieces `remote`, or -1; `left` is the number of bytes
      missing.  Ties are broken arbitrarily. */
  method NextInvalidPiece(ps: seq<Info>, remote: seq<bool>, left: int, endMode0: bool) returns (r: int, endMode: bool)
    ensures r == -1 <==> left == 0 || |remote| != |ps| || forall i :: !Eligible(ps, remote, i)
    ensures r != -1 ==>
      0 <= r < |ps| && !ps[r].valid && ps[r].priority != -10 && ps[r].unrequested != 0 && remote[r]
    ensures r != -1 ==>
      Eligible(ps, remote, r) && forall i :: Eligible(ps, remote, i) ==> !Before(KeyOf(ps[i]), KeyOf(ps[r]))
    ensures r != -1 ==>
      forall i :: 0 <= i < |ps| && !ps[i].valid && ps[i].unrequested != 0 && remote[i] ==>
        !(-9 <= ps[r].priority < ps[i].priority <= 9)
    ensures left != 0 && |remote| == |ps| ==>
      (endMode <==> endMode0 || forall i :: 0 <= i < |ps| ==> !Wanted(ps[i]))
  {
    endMode := endMode0;
    if left == 0 || |remote| != |ps| {
      return -1, endMode;
    }
    var best: seq<int> := [];
    var rank := 0x7fff_ffff;
    var unrequested := 0;
    var i := 0;
    while i < |ps|
      invariant 0 <= i <= |ps| && 0 <= unrequested
      invariant unrequested == 0 <==> forall k :: 0 <= k < i ==> !Wanted(ps[k])
      invariant forall k :: 0 <= k < |best| ==> Eligible(ps, remote, best[k]) && Rank(ps[best[k]]) == rank
      invariant forall k :: 0 <= k < i && Eligible(ps, remote, k) ==> best != [] && rank <= Rank(ps[k])
      invariant best == [] ==> rank == 0x7fff_ffff
    {
      if Wanted(ps[i]) {
        unrequested := unrequested + ps[i].unrequested;
        if remote[i] {
          var pieceRank := Rank(ps[i]);
          if pieceRank <= rank {
            if pieceRank < rank {
              best := [];
            }
            rank := pieceRank;
            best := best + [i];
          }
        }
      }
      i := i + 1;
    }
    if !endMode && unrequested == 0 {
      endMode := true;
    }
    if best == [] {
      r := -1;
    } else {
      var k: int :| 0 <= k < |best|;
      r := best[k];
      forall j | Eligible(ps, remote, j) ensures !Before(KeyOf(ps[j]), KeyOf(ps[r])) {
        RankIsLexicographic(ps[j], ps[r]);
      }
      forall i | 0 <= i < |ps| && !ps[i].valid && ps[i].unrequested != 0 && remote[i]
        ensures !(-9 <= ps[r].priority < ps[i].priority <= 9)
      {
        if -9 <= ps[r].priority < ps[i].priority <= 9 {
          HigherPriorityFirst(ps[i], ps[r]);
          assert Eligible(ps, remote, i);
        }
      }
    }
  }
}
