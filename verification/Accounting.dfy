/** Bytes still missing, per torrent and per sub-file, kept in counters. */
module Accounting {
  import opened Layout
  import opened Basics

  /** The counters describe the first `n` pieces: `left` is the size of the invalid ones, and the counter of
      each sub-file is what it shares with them. */
  ghost predicate Books(m: Map, valid: seq<bool>, n: nat, left: int, lefts: seq<int>)
    requires m.Ordered() && |valid| == |m.sizes| && n <= |valid|
  {
    left == Open(m.Sizes(), valid, n) && FileBooks(m, valid, n, lefts)
  }

  ghost predicate FileBooks(m: Map, valid: seq<bool>, n: nat, lefts: seq<int>)
    requires m.Ordered() && |valid| == |m.sizes| && n <= |valid|
  {
    |lefts| == |m.subs| && forall k :: 0 <= k < |lefts| ==> lefts[k] == Open(m.Weights(k), valid, n)
  }

  /** Piece `i` has been distributed to the sub-files before `k` and, of sub-file `k`, up to address `x`. */
  ghost predicate Partly(m: Map, valid: seq<bool>, i: nat, k: nat, x: nat, lefts: seq<int>)
    requires m.Ordered() && |valid| == |m.sizes| && i < |valid| && k < |m.subs|
  {
    |lefts| == |m.subs| && m.subs[k].offset <= x <= m.subs[k].End() && m.starts[i] <= x <= m.Stop(i) &&
    forall j :: 0 <= j < |lefts| ==> lefts[j] == Open(m.Weights(j), valid, i) + Due(m, valid[i], i, k, x, j)
  }

  /** The part of piece `i` that sub-file `j` has been charged with at that point. */
  ghost function Due(m: Map, isValid: bool, i: nat, k: nat, x: nat, j: nat): int
    requires m.Ordered() && i < |m.sizes| && k < |m.subs| && j < |m.subs|
  {
    if isValid || j > k then 0
    else if j == k then x - Max(m.starts[i], m.subs[k].offset)
    else m.Shared(j, i)
  }

  lemma PartlyStart(m: Map, valid: seq<bool>, i: nat, k: nat, lefts: seq<int>)
    requires m.Ordered() && |valid| == |m.sizes| && i < |valid| && k < |m.subs|
    requires FileBooks(m, valid, i, lefts) && m.subs[k].offset <= m.starts[i] <= m.subs[k].End()
    ensures Partly(m, valid, i, k, m.starts[i], lefts)
  {
    hide Open;
    forall j | 0 <= j < k ensures m.Shared(j, i) == 0 {
      assert m.subs[j].End() <= m.subs[k].offset;
    }
  }

  /** Giving sub-file `k` its bytes of piece `i` either finishes the piece or goes on in sub-file k + 1. */
  lemma PartlyStep(m: Map, valid: seq<bool>, i: nat, k: nat, x: nat, lefts: seq<int>, cb: nat, lefts': seq<int>)
    requires m.Seamless() && |valid| == |m.sizes| && i < |valid| && k < |m.subs|
    requires Partly(m, valid, i, k, x, lefts) && x < m.Stop(i)
    requires cb == Min(m.Stop(i) - x, m.subs[k].End() - x)
    requires lefts' == if valid[i] then lefts else lefts[k := lefts[k] + cb]
    ensures x + cb == m.Stop(i) ==> FileBooks(m, valid, i + 1, lefts')
    ensures x + cb < m.Stop(i) ==>
      k + 1 < |m.subs| && x + cb == m.subs[k].End() && Partly(m, valid, i, k + 1, x + cb, lefts')
  {
    hide Open, Due, Map.Shared;
    var y := x + cb;
    if y < m.Stop(i) {
      EndsInside(m, i, k);
      forall j | 0 <= j < |lefts| ensures lefts'[j] == Open(m.Weights(j), valid, i) + Due(m, valid[i], i, k + 1, y, j) {
        DueNext(m, valid[i], i, k, x, y, j);
      }
    } else {
      forall j | 0 <= j < |lefts| ensures lefts'[j] == Open(m.Weights(j), valid, i) + Due(m, valid[i], i, k, y, j) {
        DueSame(m, valid[i], i, k, x, y, j);
      }
      FinishPiece(m, valid, i, k, lefts');
    }
  }

  lemma DueSame(m: Map, isValid: bool, i: nat, k: nat, x: nat, y: nat, j: nat)
    requires m.Ordered() && i < |m.sizes| && k < |m.subs| && j < |m.subs|
    ensures Due(m, isValid, i, k, y, j) == Due(m, isValid, i, k, x, j) + if j == k && !isValid then y - x else 0
  {
  }

  lemma DueNext(m: Map, isValid: bool, i: nat, k: nat, x: nat, y: nat, j: nat)
    requires m.Ordered() && i < |m.sizes| && k + 1 < |m.subs| && j < |m.subs|
    requires m.starts[i] <= x <= y < m.Stop(i) && m.subs[k].offset <= x && y == m.subs[k].End() == m.subs[k + 1].offset
    ensures Due(m, isValid, i, k + 1, y, j) == Due(m, isValid, i, k, x, j) + if j == k && !isValid then y - x else 0
  {
    assert m.Shared(k, i) == y - Max(m.starts[i], m.subs[k].offset);
  }

  lemma EndsInside(m: Map, i: nat, k: nat)
    requires m.Seamless() && i < |m.sizes| && k < |m.subs| && m.starts[i] <= m.subs[k].End() < m.Stop(i)
    ensures k + 1 < |m.subs| && m.subs[k + 1].offset == m.subs[k].End()
  {
    assert m.Seam(k, i);
  }

  lemma FinishPiece(m: Map, valid: seq<bool>, i: nat, k: nat, lefts: seq<int>)
    requires m.Ordered() && |valid| == |m.sizes| && i < |valid| && k < |m.subs|
    requires Partly(m, valid, i, k, m.Stop(i), lefts)
    ensures FileBooks(m, valid, i + 1, lefts)
  {
    forall j | 0 <= j < |lefts| ensures lefts[j] == Open(m.Weights(j), valid, i + 1) {
      if j > k {
        assert m.subs[k].End() <= m.subs[j].offset;
        assert m.Shared(j, i) == 0;
      } else if j == k {
        assert m.Shared(k, i) == m.Stop(i) - Max(m.starts[i], m.subs[k].offset);
      }
    }
  }

  /** Where the next piece starts. */
  lemma NextCursor(m: Map, i: nat, k: nat)
    requires m.Seamless() && i + 1 < |m.sizes| && k < |m.subs|
    requires m.subs[k].offset < m.Stop(i) <= m.subs[k].End() || m.subs[k].End() == m.Stop(i)
    ensures m.Stop(i) < m.subs[k].End() ==> m.starts[i + 1] == m.Stop(i)
    ensures m.Stop(i) == m.subs[k].End() ==> k + 1 < |m.subs| && m.subs[k + 1].offset == m.starts[i + 1]
  {
    assert m.Seam(k, i);
  }

  /** The pieces of sub-file `k` of a Merkle torrent share nothing with the other sub-files. */
  lemma OwnPieces(m: Map, k: nat, f: nat, c: nat, p: nat, j: nat)
    requires m.Ordered() && k < |m.subs| && m.OwnsPieces(k, f, c) && j < |m.subs| && j != k && f <= p < f + c
    ensures m.Shared(j, p) == 0
  {
    assert f < p ==> m.Stop(f) <= m.starts[p];
    assert p < f + c - 1 ==> m.Stop(p) <= m.starts[f + c - 1];
    assert j < k ==> m.subs[j].End() <= m.subs[k].offset;
    assert k < j ==> m.subs[k].End() <= m.subs[j].offset;
  }

  /** With all its pieces missing, all of a sub-file is missing. */
  lemma {:induction false} AllMissing(m: Map, valid: seq<bool>, k: nat, f: nat, c: nat, n: nat)
    requires m.Ordered() && k < |m.subs| && m.OwnsPieces(k, f, c) && |valid| == |m.sizes|
    requires n <= f + c && forall p :: f <= p < f + c ==> !valid[p]
    ensures Open(m.Weights(k), valid, n) == if n <= f then 0 else m.Stop(n - 1) - m.subs[k].offset
    decreases n
  {
    if n > 0 {
      AllMissing(m, valid, k, f, c, n - 1);
      var p := n - 1;
      if p < f {
        assert m.Stop(p) <= m.starts[f];
        assert m.Shared(k, p) == 0;
      } else {
        assert f < p ==> m.Stop(f) <= m.starts[p] && m.Stop(p - 1) == m.starts[p];
        assert p < f + c - 1 ==> m.Stop(p) <= m.starts[f + c - 1];
        assert m.Shared(k, p) == m.sizes[p];
      }
    }
  }

  function Sum(s: seq<int>): int {
    if s == [] then 0 else s[0] + Sum(s[1..])
  }

  lemma {:induction false} SumUpdate(s: seq<int>, k: nat, x: int)
    requires k < |s|
    ensures Sum(s[k := x]) == Sum(s) - s[k] + x
    decreases |s|
  {
    if k > 0 {
      assert s[k := x][1..] == s[1..][k - 1 := x];
      SumUpdate(s[1..], k - 1, x);
    } else {
      assert s[k := x][1..] == s[1..];
    }
  }

  /** The books are right and balance: what the sub-files miss adds up to what the torrent misses. */
  ghost predicate Ledger(m: Map, valid: seq<bool>, n: nat, left: int, lefts: seq<int>)
    requires m.Ordered() && |valid| == |m.sizes| && n <= |valid|
  {
    Books(m, valid, n, left, lefts) && Sum(lefts) == left
  }

  lemma LedgerSize(m: Map, valid: seq<bool>, n: nat, left: int, lefts: seq<int>)
    requires m.Ordered() && |valid| == |m.sizes| && n <= |valid| && Ledger(m, valid, n, left, lefts)
    ensures |lefts| == |m.subs|
  {
  }

  /** Marking a piece of sub-file `k` of a Merkle torrent invalid again. */
  lemma Reopen(m: Map, valid: seq<bool>, n: nat, left: int, lefts: seq<int>, k: nat, f: nat, c: nat, p: nat)
    requires m.Ordered() && |valid| == |m.sizes| && n <= |valid| && k < |m.subs| && m.OwnsPieces(k, f, c)
    requires Ledger(m, valid, n, left, lefts) && f <= p < f + c <= n
    ensures |lefts| == |m.subs|
    ensures var add := if valid[p] then m.sizes[p] else 0;
      Ledger(m, valid[p := false], n, left + add, lefts[k := lefts[k] + add])
  {
    var add, lefts' := if valid[p] then m.sizes[p] else 0, lefts[k := lefts[k] + if valid[p] then m.sizes[p] else 0];
    OpenUpdate(m.Sizes(), valid, n, p, false);
    SumUpdate(lefts, k, lefts[k] + add);
    hide Open;
    forall j | 0 <= j < |lefts'| ensures lefts'[j] == Open(m.Weights(j), valid[p := false], n) {
      OpenUpdate(m.Weights(j), valid, n, p, false);
      if j == k {
        WholePiece(m, k, f, c, p);
      } else {
        OwnPieces(m, k, f, c, p, j);
      }
    }
  }

  lemma WholePiece(m: Map, k: nat, f: nat, c: nat, p: nat)
    requires m.Ordered() && k < |m.subs| && m.OwnsPieces(k, f, c) && f <= p < f + c
    ensures m.Shared(k, p) == m.sizes[p]
  {
    assert f < p ==> m.Stop(f) <= m.starts[p];
    assert p < f + c - 1 ==> m.Stop(p) <= m.starts[f + c - 1];
  }

  /** Once all pieces of sub-file `k` are invalid, its counter is its size. */
  lemma Reopened(m: Map, valid: seq<bool>, left: int, lefts: seq<int>, k: nat, f: nat, c: nat)
    requires m.Ordered() && |valid| == |m.sizes| && k < |m.subs| && m.OwnsPieces(k, f, c)
    requires Ledger(m, valid, f + c, left, lefts) && forall p :: f <= p < f + c ==> !valid[p]
    ensures |lefts| == |m.subs| && lefts[k] == m.subs[k].size
  {
    AllMissing(m, valid, k, f, c, f + c);
  }

  /** Piece `i` has been counted for the torrent and partly distributed to the sub-files. */
  ghost predicate Underway(m: Map, valid: seq<bool>, i: nat, k: nat, x: nat, left: int, lefts: seq<int>)
    requires m.Ordered() && |valid| == |m.sizes| && i < |valid| && k < |m.subs|
  {
    Partly(m, valid, i, k, x, lefts) && left == Open(m.Sizes(), valid, i + 1) &&
    Sum(lefts) + (if valid[i] then 0 else m.Stop(i) - x) == left
  }

  lemma UnderwayStart(m: Map, valid: seq<bool>, i: nat, v: bool, k: nat, left: int, lefts: seq<int>)
    requires m.Ordered() && |valid| == |m.sizes| && i < |valid| && k < |m.subs|
    requires Ledger(m, valid, i, left, lefts) && m.subs[k].offset <= m.starts[i] <= m.subs[k].End()
    ensures Underway(m, valid[i := v], i, k, m.starts[i], left + if v then 0 else m.sizes[i], lefts)
  {
    var valid' := valid[i := v];
    OpenUpdate(m.Sizes(), valid, i, i, v);
    forall j | 0 <= j < |lefts| ensures lefts[j] == Open(m.Weights(j), valid', i) {
      OpenUpdate(m.Weights(j), valid, i, i, v);
    }
    PartlyStart(m, valid', i, k, lefts);
  }

  lemma UnderwayStep(m: Map, valid: seq<bool>, i: nat, k: nat, x: nat, left: int, lefts: seq<int>, cb: nat,
                     lefts': seq<int>)
    requires m.Seamless() && |valid| == |m.sizes| && i < |valid| && k < |m.subs|
    requires Underway(m, valid, i, k, x, left, lefts) && x < m.Stop(i)
    requires cb == Min(m.Stop(i) - x, m.subs[k].End() - x)
    requires |lefts| == |m.subs| && lefts' == if valid[i] then lefts else lefts[k := lefts[k] + cb]
    ensures x + cb == m.Stop(i) ==> Ledger(m, valid, i + 1, left, lefts')
    ensures x + cb < m.Stop(i) ==> k + 1 < |m.subs| && x + cb == m.subs[k].End() == m.subs[k + 1].offset
    ensures x + cb < m.Stop(i) ==> Underway(m, valid, i, k + 1, x + cb, left, lefts')
  {
    hide Open;
    SumUpdate(lefts, k, lefts[k] + cb);
    PartlyStep(m, valid, i, k, x, lefts, cb, lefts');
    if x + cb < m.Stop(i) {
      EndsInside(m, i, k);
    }
  }

  lemma UnderwayFacts(m: Map, valid: seq<bool>, i: nat, k: nat, x: nat, left: int, lefts: seq<int>)
    requires m.Ordered() && |valid| == |m.sizes| && i < |valid| && k < |m.subs| &&
      Underway(m, valid, i, k, x, left, lefts)
    ensures |lefts| == |m.subs| && m.subs[k].offset <= x <= m.subs[k].End() && m.starts[i] <= x <= m.Stop(i)
  {
  }

  /** A sub-file of a Merkle torrent is left only at the end of a piece. */
  lemma LeavesAtStop(m: Map, i: nat, k: nat)
    requires m.PerFile() && i < |m.sizes| && k < |m.subs| && m.starts[i] < m.subs[k].End() <= m.Stop(i)
    ensures m.subs[k].End() == m.Stop(i)
  {
    var q := m.First(k) + m.Count(k) - 1;
    assert m.OwnsPieces(k, m.First(k), m.Count(k));
    InOrder(m, q, i);
    InOrder(m, i, q);
  }

  lemma InOrder(m: Map, p: nat, q: nat)
    requires m.Ordered() && p < |m.sizes| && q < |m.sizes|
    ensures p < q ==> m.Stop(p) <= m.starts[q]
    ensures m.starts[p] < m.Stop(p)
  {
  }

  /** One step of the hasher's cursor, all cases. */
  lemma CursorStep(m: Map, merkle: bool, valid: seq<bool>, i: nat, k: nat, offset: nat, left: int, lefts: seq<int>,
                   cb0: nat, cb1: nat, lefts': seq<int>)
    requires m.Seamless() && (merkle ==> m.PerFile()) && |valid| == |m.sizes| && i < |valid|
    requires k < |m.subs| && (offset == 0 || offset < m.subs[k].size) && |lefts| == |m.subs|
    requires var x := m.subs[k].offset + offset; Underway(m, valid, i, k, x, left, lefts) && 0 < cb0 == m.Stop(i) - x
    requires cb1 == Min(cb0, m.subs[k].size - offset)
    requires lefts' == if valid[i] then lefts else lefts[k := lefts[k] + cb1]
    ensures cb1 == cb0 ==> Ledger(m, valid, i + 1, left, lefts')
    ensures cb1 == cb0 && i + 1 < |m.sizes| ==>
      if offset + cb1 == m.subs[k].size then k + 1 < |m.subs| && m.subs[k + 1].offset == m.starts[i + 1]
      else m.subs[k].offset + offset + cb1 == m.starts[i + 1]
    ensures cb1 < cb0 ==> !merkle && offset + cb1 == m.subs[k].size && k + 1 < |m.subs|
    ensures cb1 < cb0 ==>
      cb0 - cb1 == m.Stop(i) - m.subs[k + 1].offset && Underway(m, valid, i, k + 1, m.subs[k + 1].offset, left, lefts')
    ensures merkle && offset + cb1 == m.subs[k].size ==> m.subs[k].End() == m.Stop(i)
  {
    hide Underway, Ledger;
    var x := m.subs[k].offset + offset;
    UnderwayFacts(m, valid, i, k, x, left, lefts);
    UnderwayStep(m, valid, i, k, x, left, lefts, cb1, lefts');
    if cb1 == cb0 && i + 1 < |m.sizes| {
      NextCursor(m, i, k);
    }
    if merkle && offset + cb1 == m.subs[k].size {
      assert m.OwnsPieces(k, m.First(k), m.Count(k));
      LeavesAtStop(m, i, k);
    }
  }

  /** Piece `a` has become valid. */
  lemma Close(m: Map, valid: seq<bool>, left: int, lefts: seq<int>, a: nat, lefts': seq<int>)
    requires m.Ordered() && |valid| == |m.sizes| && a < |valid| && !valid[a] && Ledger(m, valid, |valid|, left, lefts)
    requires |lefts'| == |lefts| == |m.subs| && Sum(lefts') == Sum(lefts) - m.sizes[a]
    requires forall k :: 0 <= k < |lefts| ==> lefts'[k] == lefts[k] - m.Shared(k, a)
    ensures Ledger(m, valid[a := true], |valid|, left - m.sizes[a], lefts')
  {
    OpenUpdate(m.Sizes(), valid, |valid|, a, true);
    hide Open;
    forall k | 0 <= k < |lefts'| ensures lefts'[k] == Open(m.Weights(k), valid[a := true], |valid|) {
      OpenUpdate(m.Weights(k), valid, |valid|, a, true);
    }
  }

  /** Bytes of piece `a` not yet taken off the sub-files before `k`; `offset` is the address reached. */
  ghost predicate Taken(m: Map, a: nat, k: nat, offset: nat, size: nat, lefts: seq<int>, ls: seq<int>)
    requires m.Ordered() && a < |m.sizes| && k <= |m.subs| && |lefts| == |ls| == |m.subs|
  {
    (forall j :: 0 <= j < |ls| ==> ls[j] == lefts[j] - if j < k then m.Shared(j, a) else 0) &&
    Sum(ls) == Sum(lefts) - (m.sizes[a] - size) && offset + size == m.Stop(a) &&
    (if size > 0 then offset == Max(m.starts[a], m.Edge(k)) else m.Edge(k) >= m.Stop(a))
  }

  lemma TakenStep(m: Map, a: nat, k: nat, offset: nat, size: nat, lefts: seq<int>, ls: seq<int>, cb: nat, ls': seq<int>)
    requires m.Contiguous() && a < |m.sizes| && k < |m.subs| && |lefts| == |ls| == |m.subs| && size > 0
    requires Taken(m, a, k, offset, size, lefts, ls)
    requires cb == if offset >= m.subs[k].End() then 0 else Min(size, m.subs[k].End() - offset)
    requires ls' == ls[k := ls[k] - cb]
    ensures Taken(m, a, k + 1, offset + cb, size - cb, lefts, ls')
  {
    hide Sum, Map.Shared, Map.Contiguous, Map.Ordered, Map.Edge;
    EdgeFacts(m, k);
    SumUpdate(ls, k, ls[k] - cb);
    SharedHere(m, a, k, offset, size, cb);
  }

  lemma EdgeFacts(m: Map, k: nat)
    requires m.Contiguous() && k < |m.subs|
    ensures m.Ordered() && m.Edge(k) == m.subs[k].offset && m.Edge(k + 1) == m.subs[k].End()
  {
  }

  lemma SharedHere(m: Map, a: nat, k: nat, offset: nat, size: nat, cb: nat)
    requires m.Ordered() && a < |m.sizes| && k < |m.subs| && size > 0
    requires offset + size == m.Stop(a) && offset == Max(m.starts[a], m.subs[k].offset)
    requires cb == if offset >= m.subs[k].End() then 0 else Min(size, m.subs[k].End() - offset)
    ensures m.Shared(k, a) == cb
  {
  }

  lemma TakenAll(m: Map, a: nat, k: nat, offset: nat, size: nat, lefts: seq<int>, ls: seq<int>)
    requires m.Contiguous() && a < |m.sizes| && k <= |m.subs| && |lefts| == |ls| == |m.subs|
    requires Taken(m, a, k, offset, size, lefts, ls) && (k == |m.subs| || size == 0)
    ensures size == 0 && Sum(ls) == Sum(lefts) - m.sizes[a]
    ensures forall j :: 0 <= j < |ls| ==> ls[j] == lefts[j] - m.Shared(j, a)
  {
    assert m.Stop(a) <= m.Stop(|m.sizes| - 1);
    forall j | k <= j < |ls| ensures m.Shared(j, a) == 0 {
      assert m.Edge(k) <= m.subs[j].offset;
    }
  }

  lemma TakenStart(m: Map, a: nat, lefts: seq<int>)
    requires m.Ordered() && a < |m.sizes| && |lefts| == |m.subs|
    ensures Taken(m, a, 0, m.starts[a], m.sizes[a], lefts, lefts)
  {
  }

  /** Does piece `p` belong to a sub-file of a Merkle torrent that ends with piece `i`? */
  ghost predicate Ending(m: Map, i: nat, p: int)
    requires m.Ordered() && i < |m.sizes|
  {
    exists k :: 0 <= k < |m.subs| && m.subs[k].End() == m.Stop(i) && m.First(k) <= p < m.First(k) + m.Count(k)
  }

  lemma OneEnds(m: Map, i: nat, k: nat, j: nat)
    requires m.PerFile() && i < |m.sizes| && k < |m.subs| && j < |m.subs|
    requires m.subs[k].offset < m.Stop(i) <= m.subs[k].End() && m.subs[j].End() == m.Stop(i)
    ensures j == k
  {
    assert m.OwnsPieces(j, m.First(j), m.Count(j)) && m.OwnsPieces(k, m.First(k), m.Count(k));
  }

  /** The pieces taken back when sub-file `k` is left behind, or none if it goes on. */
  lemma EndingPieces(m: Map, i: nat, k: nat, p: int)
    requires m.PerFile() && i < |m.sizes| && k < |m.subs| && m.subs[k].offset < m.Stop(i) <= m.subs[k].End()
    ensures Ending(m, i, p) <==> m.subs[k].End() == m.Stop(i) && m.First(k) <= p < m.First(k) + m.Count(k)
  {
    if Ending(m, i, p) {
      var j :| 0 <= j < |m.subs| && m.subs[j].End() == m.Stop(i) && m.First(j) <= p < m.First(j) + m.Count(j);
      OneEnds(m, i, k, j);
    }
  }

  /** The verdicts after piece `i`: of a Merkle sub-file that ends there without reaching its root, no piece
      stays valid; all other verdicts stand. */
  ghost predicate TakenBack(m: Map, bad: bool, i: nat, valid: seq<bool>, after: seq<bool>)
    requires m.Ordered() && i < |m.sizes|
  {
    |after| == |valid| && forall p :: 0 <= p < |after| ==> (after[p] <==> valid[p] && !(bad && Ending(m, i, p)))
  }
}
