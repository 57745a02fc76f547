/** Allocation of upload slots to peers: three passes over the candidates, with a minimum and a maximum
    number of slots per torrent. */
module Choking {
  import opened Basics

  /** What the scheduler looks at in a peer; `torrent` is the torrent it belongs to. */
  datatype Peer = Peer(
    torrent: nat, connected: bool, left: bool, rate: int, remoteInterested: bool, localInterested: bool)

  /** `maxSlots` is the limit actually used: a configured maximum of 0 means INT_MAX. */
  datatype Torrent = Torrent(running: bool, minSlots: int, configuredMax: int)
  {
    function MaxSlots(): int {
      if configuredMax != 0 then configuredMax else 0x7fff_ffff
    }
  }

  /** Peers that may be unchoked at all: fast ones, and interested ones, of running torrents. */
  predicate Candidate(ts: seq<Torrent>, p: Peer)
    requires p.torrent < |ts|
  {
    p.connected && ts[p.torrent].running && p.left && (p.rate > 256 || p.remoteInterested)
  }

  /** Which list a candidate goes to: 0 for the fast senders, 1 for those we are interested in, 2 for the rest. */
  function Class(p: Peer): nat {
    if p.rate > 256 then 0 else if p.localInterested then 1 else 2
  }

  /** Candidate `i` is looked at before candidate `j` whatever the shuffles do: its list comes first, or both are
      fast and it is the slower one (of two equally fast ones, the one met first). */
  predicate Ahead(ps: seq<Peer>, i: nat, j: nat)
    requires i < |ps| && j < |ps|
  {
    Class(ps[i]) < Class(ps[j]) ||
    (Class(ps[i]) == Class(ps[j]) == 0 && (ps[i].rate < ps[j].rate || (ps[i].rate == ps[j].rate && i < j)))
  }

  ghost predicate WellFormed(ts: seq<Torrent>, ps: seq<Peer>) {
    forall i :: 0 <= i < |ps| ==> ps[i].torrent < |ts|
  }

  /** Interested peers of torrent `t` that hold an upload slot. */
  ghost function Served(ts: seq<Torrent>, ps: seq<Peer>, choked: seq<bool>, t: nat): set<nat>
    requires WellFormed(ts, ps) && |choked| == |ps|
  {
    set i | 0 <= i < |ps| && Candidate(ts, ps[i]) && ps[i].torrent == t && ps[i].remoteInterested && !choked[i]
  }

  /** Interested candidates that hold an upload slot. */
  ghost function AllServed(ts: seq<Torrent>, ps: seq<Peer>, choked: seq<bool>): set<nat>
    requires WellFormed(ts, ps) && |choked| == |ps|
  {
    set i | 0 <= i < |ps| && Candidate(ts, ps[i]) && ps[i].remoteInterested && !choked[i]
  }

  /** The working variables of the scheduler shadow the served sets. */
  ghost predicate Accounts(ts: seq<Torrent>, ps: seq<Peer>, choked: seq<bool>, total: int, slots: int,
                           first: seq<int>, second: seq<int>)
    requires WellFormed(ts, ps)
  {
    |choked| == |ps| && |first| == |second| == |ts| && slots >= 0 &&
    slots + |AllServed(ts, ps, choked)| == total &&
    forall t :: 0 <= t < |ts| ==>
      first[t] == ts[t].minSlots - |Served(ts, ps, choked, t)| &&
      second[t] == ts[t].MaxSlots() - |Served(ts, ps, choked, t)|
  }

  lemma OneMore<T>(a: set<T>, b: set<T>, x: T)
    requires x !in a && b == a + {x}
    ensures |b| == |a| + 1
  {
  }

  /** Unchoking one more candidate changes the counts of its torrent only, and only if it is interested. */
  lemma ServedStep(ts: seq<Torrent>, ps: seq<Peer>, choked: seq<bool>, after: seq<bool>, i: nat, t: nat)
    requires WellFormed(ts, ps) && |choked| == |ps| && i < |ps| && Candidate(ts, ps[i]) && choked[i]
    requires after == choked[i := false]
    ensures |Served(ts, ps, after, t)| ==
            |Served(ts, ps, choked, t)| + if ps[i].torrent == t && ps[i].remoteInterested then 1 else 0
  {
    var a, b := Served(ts, ps, choked, t), Served(ts, ps, after, t);
    if ps[i].torrent == t && ps[i].remoteInterested {
      OneMore(a, b, i);
    } else {
      assert b == a;
    }
  }

  lemma AllServedStep(ts: seq<Torrent>, ps: seq<Peer>, choked: seq<bool>, after: seq<bool>, i: nat)
    requires WellFormed(ts, ps) && |choked| == |ps| && i < |ps| && Candidate(ts, ps[i]) && choked[i]
    requires after == choked[i := false]
    ensures |AllServed(ts, ps, after)| == |AllServed(ts, ps, choked)| + if ps[i].remoteInterested then 1 else 0
  {
    var a, b := AllServed(ts, ps, choked), AllServed(ts, ps, after);
    if ps[i].remoteInterested {
      OneMore(a, b, i);
    } else {
      assert b == a;
    }
  }

  /** Slots a limited pass lets a torrent go up to: the minimum in pass 0, the maximum in pass 1. */
  ghost function Limit(torrent: Torrent, pass: int): int {
    if pass == 0 then torrent.minSlots else torrent.MaxSlots()
  }

  ghost predicate Settled(ts: seq<Torrent>, ps: seq<Peer>, choked: seq<bool>, i: nat, pass: int)
    requires WellFormed(ts, ps) && |choked| == |ps| && i < |ps|
  {
    !choked[i] || (pass < 2 && |Served(ts, ps, choked, ps[i].torrent)| >= Limit(ts[ps[i].torrent], pass))
  }

  /** Nothing is left to do in this pass: each listed candidate is unchoked, or its torrent is at the limit. */
  ghost predicate Saturated(ts: seq<Torrent>, ps: seq<Peer>, choked: seq<bool>, list: seq<nat>, pass: int)
    requires WellFormed(ts, ps) && |choked| == |ps|
  {
    forall k :: 0 <= k < |list| ==> list[k] < |ps| && Settled(ts, ps, choked, list[k], pass)
  }

  ghost predicate Grows(ts: seq<Torrent>, ps: seq<Peer>, before: seq<bool>, after: seq<bool>)
    requires WellFormed(ts, ps)
  {
    |before| == |after| == |ps| &&
    (forall i :: 0 <= i < |ps| && after[i] ==> before[i]) &&
    (forall i :: 0 <= i < |ps| && before[i] && !after[i] ==> Candidate(ts, ps[i]))
  }

  lemma ServedMono(ts: seq<Torrent>, ps: seq<Peer>, before: seq<bool>, after: seq<bool>, t: nat)
    requires WellFormed(ts, ps) && Grows(ts, ps, before, after)
    ensures |Served(ts, ps, before, t)| <= |Served(ts, ps, after, t)|
  {
    SubsetSize(Served(ts, ps, before, t), Served(ts, ps, after, t));
  }

  lemma SubsetSize<T>(a: set<T>, b: set<T>)
    requires a <= b
    ensures |a| <= |b|
  {
    assert b == a + (b - a);
  }

  lemma SaturatedMono(ts: seq<Torrent>, ps: seq<Peer>, before: seq<bool>, after: seq<bool>, list: seq<nat>, pass: int)
    requires WellFormed(ts, ps) && Grows(ts, ps, before, after) && Saturated(ts, ps, before, list, pass)
    ensures Saturated(ts, ps, after, list, pass)
  {
    forall k | 0 <= k < |list| ensures list[k] < |ps| && Settled(ts, ps, after, list[k], pass)
    {
      ServedMono(ts, ps, before, after, ps[list[k]].torrent);
    }
  }

  /** In a limited pass no torrent is taken beyond the limit. */
  ghost predicate Within(ts: seq<Torrent>, ps: seq<Peer>, start: seq<bool>, choked: seq<bool>, pass: int)
    requires WellFormed(ts, ps) && |start| == |choked| == |ps|
  {
    pass < 2 ==> forall t :: 0 <= t < |ts| ==>
      |Served(ts, ps, choked, t)| <= Max(|Served(ts, ps, start, t)|, Limit(ts[t], pass))
  }

  /** One unchoking step of the scheduler keeps its books. */
  lemma UnchokeStep(ts: seq<Torrent>, ps: seq<Peer>, choked: seq<bool>, after: seq<bool>, i: nat, total: int,
                    slots: int, first: seq<int>, second: seq<int>)
    requires WellFormed(ts, ps) && Accounts(ts, ps, choked, total, slots, first, second) && slots > 0
    requires i < |ps| && Candidate(ts, ps[i]) && choked[i] && after == choked[i := false]
    ensures var t := ps[i].torrent;
      if ps[i].remoteInterested
      then Accounts(ts, ps, after, total, slots - 1, first[t := first[t] - 1], second[t := second[t] - 1])
      else Accounts(ts, ps, after, total, slots, first, second)
  {
    forall u: nat
      ensures |Served(ts, ps, after, u)| ==
              |Served(ts, ps, choked, u)| + if ps[i].torrent == u && ps[i].remoteInterested then 1 else 0
    {
      ServedStep(ts, ps, choked, after, i, u);
    }
    AllServedStep(ts, ps, choked, after, i);
  }

  lemma WithinStep(ts: seq<Torrent>, ps: seq<Peer>, start: seq<bool>, choked: seq<bool>, after: seq<bool>, i: nat,
                   pass: int)
    requires WellFormed(ts, ps) && |start| == |choked| == |ps| && i < |ps|
    requires Candidate(ts, ps[i]) && choked[i] && after == choked[i := false]
    requires Within(ts, ps, start, choked, pass)
    requires pass < 2 ==> |Served(ts, ps, choked, ps[i].torrent)| < Limit(ts[ps[i].torrent], pass)
    ensures Within(ts, ps, start, after, pass)
  {
    forall t | 0 <= t < |ts| && pass < 2
      ensures |Served(ts, ps, after, t)| <= Max(|Served(ts, ps, start, t)|, Limit(ts[t], pass))
    {
      ServedStep(ts, ps, choked, after, i, t);
    }
  }

  lemma WithinTrans(ts: seq<Torrent>, ps: seq<Peer>, a: seq<bool>, b: seq<bool>, c: seq<bool>, pass: int)
    requires WellFormed(ts, ps) && |a| == |b| == |c| == |ps|
    requires Within(ts, ps, a, b, pass) && Within(ts, ps, b, c, pass)
    ensures Within(ts, ps, a, c, pass)
  {
  }

  ghost predicate AreCandidates(ts: seq<Torrent>, ps: seq<Peer>, list: seq<nat>)
    requires WellFormed(ts, ps)
  {
    forall k :: 0 <= k < |list| ==> list[k] < |ps| && Candidate(ts, ps[list[k]])
  }

  /** `order` lists the candidates, each of them once. */
  ghost predicate Lists(ts: seq<Torrent>, ps: seq<Peer>, order: seq<nat>)
    requires WellFormed(ts, ps)
  {
    AreCandidates(ts, ps, order) && Distinct(order) &&
    forall i :: 0 <= i < |ps| && Candidate(ts, ps[i]) ==> i in order
  }

  ghost predicate Distinct(s: seq<nat>) {
    forall j, k :: 0 <= j < k < |s| ==> s[j] != s[k]
  }

  /** Every candidate is unchoked or held back by the limit of this pass. */
  ghost predicate AllSettled(ts: seq<Torrent>, ps: seq<Peer>, choked: seq<bool>, pass: int)
    requires WellFormed(ts, ps) && |choked| == |ps|
  {
    forall i :: 0 <= i < |ps| && Candidate(ts, ps[i]) ==> Settled(ts, ps, choked, i, pass)
  }

  lemma ListsSettle(ts: seq<Torrent>, ps: seq<Peer>, choked: seq<bool>, order: seq<nat>, pass: int)
    requires WellFormed(ts, ps) && |choked| == |ps| && Lists(ts, ps, order)
    requires Saturated(ts, ps, choked, order, pass)
    ensures AllSettled(ts, ps, choked, pass)
  {
  }

  /** Within a torrent nobody is served before those that come earlier in `order`. */
  ghost predicate Favours(ps: seq<Peer>, choked: seq<bool>, order: seq<nat>)
    requires |choked| == |ps|
  {
    forall p, q :: 0 <= p < q < |order| ==> Precedes(ps, choked, order[p], order[q])
  }

  ghost predicate Precedes(ps: seq<Peer>, choked: seq<bool>, i: nat, j: nat)
    requires |choked| == |ps|
  {
    i < |ps| && j < |ps| && ps[i].torrent == ps[j].torrent && !choked[j] ==> !choked[i]
  }

  /** Serving a candidate whose predecessors have all been dealt with keeps the order of service. */
  lemma FavoursStep(ts: seq<Torrent>, ps: seq<Peer>, choked: seq<bool>, order: seq<nat>, q: nat, pass: int)
    requires WellFormed(ts, ps) && |choked| == |ps| && q < |order| && order[q] < |ps|
    requires Distinct(order) && Favours(ps, choked, order) && Saturated(ts, ps, choked, order[..q], pass)
    requires pass < 2 ==> |Served(ts, ps, choked, ps[order[q]].torrent)| < Limit(ts[ps[order[q]].torrent], pass)
    ensures Favours(ps, choked[order[q] := false], order)
  {
    hide Served;
    var i, after := order[q], choked[order[q] := false];
    forall x, y | 0 <= x < y < |order| ensures Precedes(ps, after, order[x], order[y]) {
      assert Precedes(ps, choked, order[x], order[y]);
      if y == q {
        assert order[..q][x] == order[x] && Settled(ts, ps, choked, order[x], pass);
      }
    }
  }

  lemma AllSettledMono(ts: seq<Torrent>, ps: seq<Peer>, before: seq<bool>, after: seq<bool>, pass: int)
    requires WellFormed(ts, ps) && Grows(ts, ps, before, after) && AllSettled(ts, ps, before, pass)
    ensures AllSettled(ts, ps, after, pass)
  {
    forall i | 0 <= i < |ps| && Candidate(ts, ps[i]) ensures Settled(ts, ps, after, i, pass) {
      ServedMono(ts, ps, before, after, ps[i].torrent);
    }
  }

  /** Some torrent holds more slots than its minimum (its maximum too, if `pass` is 1) entitles it to. */
  ghost predicate SomeoneAbove(ts: seq<Torrent>, ps: seq<Peer>, choked: seq<bool>, pass: int)
    requires WellFormed(ts, ps) && |choked| == |ps|
  {
    exists t :: 0 <= t < |ts| && |Served(ts, ps, choked, t)| > Entitled(ts[t], pass)
  }

  ghost function Entitled(t: Torrent, pass: int): int {
    if pass == 0 then Max(0, t.minSlots) else Max(Max(0, t.minSlots), t.MaxSlots())
  }

  /** What the allocation guarantees, judged from its result alone. */
  ghost predicate SlotPolicy(ts: seq<Torrent>, ps: seq<Peer>, choked: seq<bool>, total: int)
    requires WellFormed(ts, ps) && |choked| == |ps|
  {
    // never more slots than configured
    |AllServed(ts, ps, choked)| <= total &&
    // a slot stays free only if there is nobody left to give it to
    (|AllServed(ts, ps, choked)| < total ==> forall i :: 0 <= i < |ps| && Candidate(ts, ps[i]) ==> !choked[i]) &&
    // beyond the minima only when every torrent has its minimum or all its candidates
    (SomeoneAbove(ts, ps, choked, 0) ==> AllSettled(ts, ps, choked, 0)) &&
    // beyond the maxima only when every torrent has its maximum or all its candidates
    (SomeoneAbove(ts, ps, choked, 1) ==> AllSettled(ts, ps, choked, 1))
  }

  /** With more slots than peers every candidate gets one. */
  lemma AmpleSlots(ts: seq<Torrent>, ps: seq<Peer>, choked: seq<bool>, total: int)
    requires WellFormed(ts, ps) && |choked| == |ps| && SlotPolicy(ts, ps, choked, total) && |ps| < total
    ensures forall i :: 0 <= i < |ps| && Candidate(ts, ps[i]) ==> !choked[i]
  {
    FewBelow(AllServed(ts, ps, choked), |ps|);
  }

  lemma {:induction false} FewBelow(s: set<nat>, n: nat)
    requires forall x :: x in s ==> x < n
    ensures |s| <= n
  {
    if n == 0 {
      assert s == {};
    } else {
      FewBelow(s - {n - 1}, n - 1);
    }
  }

  /** More than 256 bytes a second make a fast sender, whose list comes first, before the peers that have something
      for us and those that only want something; a torrent without a configured maximum has practically none. */
  lemma Thresholds(p: Peer, q: Peer, r: Peer)
    requires p.rate == 257 && q.rate == r.rate == 256 && q.localInterested && !r.localInterested
    ensures Ahead([p, q, r], 0, 1) && Ahead([p, q, r], 1, 2) && !Ahead([q, p, r], 0, 1) && !Ahead([q, r, p], 1, 0)
    ensures Torrent(true, 0, 0).MaxSlots() == 2147483647 && Torrent(true, 0, 5).MaxSlots() == 5
  {
  }

  /** Within a torrent, a candidate is served only after every candidate ahead of it. */
  ghost predicate InOrder(ts: seq<Torrent>, ps: seq<Peer>, choked: seq<bool>)
    requires WellFormed(ts, ps) && |choked| == |ps|
  {
    forall i, j :: 0 <= i < |ps| && 0 <= j < |ps| && Candidate(ts, ps[i]) && Candidate(ts, ps[j]) && Ahead(ps, i, j) ==>
      Precedes(ps, choked, i, j)
  }

  /** The fast senders among the candidates of torrent `t`. */
  ghost function Fast(ts: seq<Torrent>, ps: seq<Peer>, t: nat): set<nat>
    requires WellFormed(ts, ps)
  {
    set i | 0 <= i < |ps| && Candidate(ts, ps[i]) && ps[i].torrent == t && Class(ps[i]) == 0
  }

  ghost function FastServed(ts: seq<Torrent>, ps: seq<Peer>, choked: seq<bool>, t: nat): set<nat>
    requires WellFormed(ts, ps) && |choked| == |ps|
  {
    set i | i in Fast(ts, ps, t) && !choked[i]
  }

  /** Those of them that are slower than peer `i`. */
  ghost function SlowerThan(ts: seq<Torrent>, ps: seq<Peer>, t: nat, i: nat): set<nat>
    requires WellFormed(ts, ps) && i < |ps|
  {
    set j | j in Fast(ts, ps, t) && Ahead(ps, j, i)
  }

  /** Who is served among the fast senders of a torrent, in any state of it and of the others: exactly the slowest, as
      many as are served. */
  lemma SlowestAreServed(ts: seq<Torrent>, ps: seq<Peer>, choked: seq<bool>, t: nat, i: nat)
    requires WellFormed(ts, ps) && |choked| == |ps| && InOrder(ts, ps, choked) && i in Fast(ts, ps, t)
    ensures !choked[i] <==> |SlowerThan(ts, ps, t, i)| < |FastServed(ts, ps, choked, t)|
  {
    var served, slower := FastServed(ts, ps, choked, t), SlowerThan(ts, ps, t, i);
    if !choked[i] {
      forall j | j in slower ensures j in served {
        assert Precedes(ps, choked, j, i);
      }
      assert i in served && i !in slower;
      SubsetSize(slower + {i}, served);
    } else {
      forall j | j in served ensures j in slower {
        assert Ahead(ps, i, j) ==> Precedes(ps, choked, i, j);
      }
      SubsetSize(served, slower);
    }
  }

  /** Five fast and interested peers, faster from one to the next. */
  function Five(): (ps: seq<Peer>)
    ensures |ps| == 5
  {
    seq(5, i => Peer(0, true, true, 1000 + i, true, false))
  }

  /** Five senders, four slots: the fastest goes without. */
  lemma FastestWaits(choked: seq<bool>)
    requires |choked| == 5
    requires var ts, ps := [Torrent(true, 0, 0)], Five();
      SlotPolicy(ts, ps, choked, 4) && InOrder(ts, ps, choked)
    ensures choked[4] && forall i :: 0 <= i < 4 ==> !choked[i]
  {
    var ts, ps := [Torrent(true, 0, 0)], Five();
    var all := {0, 1, 2, 3, 4};
    assert Fast(ts, ps, 0) == all;
    assert AllServed(ts, ps, choked) == FastServed(ts, ps, choked, 0);
    SlowestAreServed(ts, ps, choked, 0, 4);
    assert SlowerThan(ts, ps, 0, 4) == {0, 1, 2, 3};
    forall i | 0 <= i < 4 ensures !choked[i] {
      SlowestAreServed(ts, ps, choked, 0, i);
      assert SlowerThan(ts, ps, 0, i) <= {0, 1, 2};
      SubsetSize(SlowerThan(ts, ps, 0, i), {0, 1, 2});
    }
  }

  /** The three passes together: `c0`, `c1`, `c2`, `c3` are the states before and after each of them, `s1`
      and `s2` the slots left in between. */
  lemma PassesGivePolicy(ts: seq<Torrent>, ps: seq<Peer>, c0: seq<bool>, c1: seq<bool>, c2: seq<bool>, c3: seq<bool>,
                         total: int, s1: int, s2: int, s3: int)
    requires WellFormed(ts, ps) && |c0| == |c1| == |c2| == |c3| == |ps| && s3 >= 0
    requires forall t :: 0 <= t < |ts| ==> Served(ts, ps, c0, t) == {}
    requires Within(ts, ps, c0, c1, 0) && (if s1 == 0 then c2 == c1 && s2 == 0 else AllSettled(ts, ps, c1, 0))
    requires Within(ts, ps, c1, c2, 1) && (if s2 == 0 then c3 == c2 && s3 == 0 else AllSettled(ts, ps, c2, 1))
    requires s3 != 0 ==> AllSettled(ts, ps, c3, 2)
    requires Grows(ts, ps, c1, c2) && Grows(ts, ps, c2, c3)
    requires s3 + |AllServed(ts, ps, c3)| == total
    ensures SlotPolicy(ts, ps, c3, total)
  {
    hide Served, AllServed;
    if s1 != 0 {
      AllSettledMono(ts, ps, c1, c2, 0);
      AllSettledMono(ts, ps, c2, c3, 0);
    }
    if s2 != 0 {
      AllSettledMono(ts, ps, c2, c3, 1);
    }
    if s3 != 0 {
      forall i | 0 <= i < |ps| && Candidate(ts, ps[i]) ensures !c3[i] {
        assert Settled(ts, ps, c3, i, 2);
      }
    }
    assert s1 == 0 ==> !SomeoneAbove(ts, ps, c3, 0);
    assert s2 == 0 ==> !SomeoneAbove(ts, ps, c3, 1);
  }

  class Scheduler {
    const torrents: seq<Torrent>
    const peers: seq<Peer>
    const uploadSlots: nat
    var choked: seq<bool>  // the choke state each peer shall get

    ghost predicate Valid()
      reads this
    {
      WellFormed(torrents, peers) && |choked| == |peers|
    }

    constructor (torrents: seq<Torrent>, peers: seq<Peer>, uploadSlots: nat, choked: seq<bool>)
      requires WellFormed(torrents, peers) && |choked| == |peers|
      ensures Valid() && this.torrents == torrents && this.peers == peers && this.uploadSlots == uploadSlots
      ensures this.choked == choked
    {
      this.torrents := torrents;
      this.peers := peers;
      this.uploadSlots := uploadSlots;
      this.choked := choked;
    }

    /** One loop over one candidate list in pass `a`; the list is the part of `order` from `base` to `end`. */
    method UnchokeList(list: seq<nat>, a: int, slots0: int, first0: seq<int>, second0: seq<int>, ghost total: int,
                       ghost order: seq<nat>, ghost base: nat, ghost end: nat)
      returns (slots: int, first: seq<int>, second: seq<int>)
      requires Valid() && 0 <= a < 3 && Accounts(torrents, peers, choked, total, slots0, first0, second0)
      requires AreCandidates(torrents, peers, order) && Distinct(order)
      requires base <= end <= |order| && list == order[base..end]
      requires slots0 > 0 ==> Saturated(torrents, peers, choked, order[..base], a)
      requires Favours(peers, choked, order)
      modifies this
      ensures Valid() && Accounts(torrents, peers, choked, total, slots, first, second)
      ensures Grows(torrents, peers, old(choked), choked)
      ensures slots <= slots0 && (slots0 == 0 ==> choked == old(choked))
      ensures slots > 0 ==> Saturated(torrents, peers, choked, order[..end], a)
      ensures Within(torrents, peers, old(choked), choked, a)
      ensures Favours(peers, choked, order)
    {
      hide Served, AllServed, Favours, Distinct;
      slots, first, second := slots0, first0, second0;
      var k := 0;
      while slots != 0 && k < |list|
        invariant 0 <= k <= |list|
        invariant Valid() && Accounts(torrents, peers, choked, total, slots, first, second)
        invariant Grows(torrents, peers, old(choked), choked)
        invariant slots <= slots0 && (slots0 == 0 ==> choked == old(choked))
        invariant slots > 0 ==> Saturated(torrents, peers, choked, order[..base + k], a)
        invariant Within(torrents, peers, old(choked), choked, a)
        invariant Favours(peers, choked, order)
      {
        var i := list[k];
        assert i == order[base + k];
        ghost var before := choked;
        slots, first, second := Look(i, a, slots, first, second, total, order, base + k);
        WithinTrans(torrents, peers, old(choked), before, choked, a);
        k := k + 1;
      }
    }

    /** Looks at one candidate, at place `q` of `order`. */
    method Look(i: nat, a: int, slots0: int, first0: seq<int>, second0: seq<int>, ghost total: int,
                ghost order: seq<nat>, ghost q: nat)
      returns (slots: int, first: seq<int>, second: seq<int>)
      requires Valid() && 0 <= a < 3 && Accounts(torrents, peers, choked, total, slots0, first0, second0) && slots0 > 0
      requires AreCandidates(torrents, peers, order) && Distinct(order) && q < |order| && i == order[q]
      requires Saturated(torrents, peers, choked, order[..q], a) && Favours(peers, choked, order)
      modifies this
      ensures Valid() && Accounts(torrents, peers, choked, total, slots, first, second) && slots <= slots0
      ensures Grows(torrents, peers, old(choked), choked) && Within(torrents, peers, old(choked), choked, a)
      ensures Saturated(torrents, peers, choked, order[..q + 1], a) && Favours(peers, choked, order)
    {
      hide Served, AllServed, Favours, Distinct;
      slots, first, second := slots0, first0, second0;
      var t := peers[i].torrent;
      if choked[i] && !(a == 0 && first[t] < 1) && !(a == 1 && second[t] < 1) {
        ghost var before := choked;
        if peers[i].remoteInterested {
          first := first[t := first[t] - 1];
          second := second[t := second[t] - 1];
          slots := slots - 1;
        }
        FavoursStep(torrents, peers, before, order, q, a);
        choked := choked[i := false];
        UnchokeStep(torrents, peers, before, choked, i, total, slots0, first0, second0);
        SaturatedMono(torrents, peers, before, choked, order[..q], a);
        WithinStep(torrents, peers, before, before, choked, i, a);
      }
      assert Settled(torrents, peers, choked, i, a);
      assert order[..q + 1] == order[..q] + [i];
    }

    /** Any reordering. */
    method Shuffle(list: seq<nat>) returns (r: seq<nat>)
      ensures multiset(r) == multiset(list)
    {
      r := list;
      var k := 1;
      while k < |r|
        invariant k >= 1 && |r| == |list| && multiset(r) == multiset(list)
      {
        var j: int :| 0 <= j <= k;
        r := r[k := r[j]][j := r[k]];
        k := k + 1;
      }
    }
  
    /** One pass over all three candidate lists. */
    method Pass(l0: seq<nat>, l1: seq<nat>, l2: seq<nat>, a: int, slots0: int, first0: seq<int>, second0: seq<int>,
                ghost total: int)
      returns (slots: int, first: seq<int>, second: seq<int>)
      requires Valid() && 0 <= a < 3 && Accounts(torrents, peers, choked, total, slots0, first0, second0)
      requires Lists(torrents, peers, l0 + l1 + l2) && Favours(peers, choked, l0 + l1 + l2)
      modifies this
      ensures Valid() && Accounts(torrents, peers, choked, total, slots, first, second)
      ensures Grows(torrents, peers, old(choked), choked) && Within(torrents, peers, old(choked), choked, a)
      ensures slots0 == 0 ==> choked == old(choked) && slots == 0
      ensures slots > 0 ==> AllSettled(torrents, peers, choked, a)
      ensures Favours(peers, choked, l0 + l1 + l2)
    {
      hide Served, AllServed, Favours, Distinct;
      ghost var c0, order := choked, l0 + l1 + l2;
      ghost var m, n := |l0|, |l0| + |l1|;
      assert order[..0] == [] && order[0..m] == l0 && order[m..n] == l1 && order[n..] == l2 &&
        order[..|order|] == order;
      slots, first, second := UnchokeList(l0, a, slots0, first0, second0, total, order, 0, m);
      ghost var c1 := choked;
      slots, first, second := UnchokeList(l1, a, slots, first, second, total, order, m, n);
      ghost var c2 := choked;
      slots, first, second := UnchokeList(l2, a, slots, first, second, total, order, n, |order|);
      WithinTrans(torrents, peers, c0, c1, c2, a);
      WithinTrans(torrents, peers, c0, c2, choked, a);
      if slots > 0 {
        ListsSettle(torrents, peers, choked, order, a);
      }
    }

    /** In ascending order of rate, equally fast ones by their number. */
    ghost predicate SortedByRate(list: seq<nat>) {
      InRange(list) && forall j, k :: 0 <= j < k < |list| ==> Slower(list[j], list[k])
    }

    ghost predicate Slower(i: nat, j: nat)
    {
      i < |peers| && j < |peers| && (peers[i].rate < peers[j].rate || (peers[i].rate == peers[j].rate && i < j))
    }

    ghost predicate InRange(list: seq<nat>) {
      forall k :: 0 <= k < |list| ==> list[k] < |peers|
    }

    lemma Inserted(list: seq<nat>, p: nat, i: nat, r: seq<nat>)
      requires p <= |list| && r == list[..p] + [i] + list[p..]
      ensures forall x :: x in r <==> x in list || x == i
    {
      assert list == list[..p] + list[p..];
      forall x ensures x in r <==> x in list || x == i {
        assert x in r <==> x in list[..p] || x == i || x in list[p..];
        assert x in list <==> x in list[..p] || x in list[p..];
      }
    }

    lemma InsertedSorted(list: seq<nat>, p: nat, i: nat, r: seq<nat>)
      requires p <= |list| && r == list[..p] + [i] + list[p..] && i < |peers| && SortedByRate(list)
      requires p > 0 ==> Slower(list[p - 1], i)
      requires p < |list| ==> peers[list[p]].rate > peers[i].rate
      ensures SortedByRate(r)
    {
      assert forall k :: 0 <= k < |r| ==> r[k] == if k < p then list[k] else if k == p then i else list[k - 1];
      forall j, k | 0 <= j < k < |r| ensures Slower(r[j], r[k]) {
        assert j < p - 1 ==> Slower(list[j], list[p - 1]);
        assert k > p + 1 ==> Slower(list[p], list[k - 1]);
      }
    }

    /** Insertion into the list ordered by rate, behind equal rates. */
    method InsertByRate(list: seq<nat>, i: nat) returns (r: seq<nat>)
      requires i < |peers| && SortedByRate(list) && forall k :: 0 <= k < |list| ==> list[k] < i
      ensures SortedByRate(r)
      ensures forall x :: x in r <==> x in list || x == i
    {
      var p := |list|;
      while p > 0 && peers[list[p - 1]].rate > peers[i].rate
        invariant 0 <= p <= |list|
        invariant p < |list| ==> peers[list[p]].rate > peers[i].rate
      {
        p := p - 1;
      }
      r := list[..p] + [i] + list[p..];
      Inserted(list, p, i, r);
      InsertedSorted(list, p, i, r);
    }

    /** The choke state of peer `i` before any slot is given away. */
    ghost function Initial(before: seq<bool>, i: nat): bool
      requires WellFormed(torrents, peers) && |before| == |peers| && i < |peers|
    {
      if !peers[i].connected then before[i]
      else !(uploadSlots == 0 && torrents[peers[i].torrent].running && peers[i].left)
    }

    /** `list` holds the candidates of class `c` among the first `n` peers, each once. */
    ghost predicate Holds(list: seq<nat>, c: nat, n: nat)
      requires WellFormed(torrents, peers) && n <= |peers|
    {
      Distinct(list) && forall i :: i in list <==> 0 <= i < n && Candidate(torrents, peers[i]) && Class(peers[i]) == c
    }

    lemma HoldsMore(list: seq<nat>, c: nat, n: nat)
      requires WellFormed(torrents, peers) && n < |peers| && Holds(list, c, n)
      ensures if Candidate(torrents, peers[n]) && Class(peers[n]) == c then Holds(list + [n], c, n + 1)
              else Holds(list, c, n + 1)
    {
      assert forall k :: 0 <= k < |list| ==> list[k] in list;
      assert forall i :: i in list + [n] <==> i in list || i == n;
    }

    lemma HoldsInserted(list: seq<nat>, n: nat, r: seq<nat>)
      requires WellFormed(torrents, peers) && n < |peers| && Holds(list, 0, n) && SortedByRate(r)
      requires Candidate(torrents, peers[n]) && Class(peers[n]) == 0 && forall x :: x in r <==> x in list || x == n
      ensures Holds(r, 0, n + 1)
    {
      assert forall j, k :: 0 <= j < k < |r| ==> Slower(r[j], r[k]);
    }

    /** Chokes every connected peer and sorts the candidates into three lists. */
    method Classify() returns (l0: seq<nat>, l1: seq<nat>, l2: seq<nat>)
      requires Valid()
      modifies this
      ensures Valid() && SortedByRate(l0)
      ensures forall i :: 0 <= i < |peers| && !peers[i].connected ==> choked[i] == old(choked)[i]
      ensures forall i :: 0 <= i < |peers| && peers[i].connected && uploadSlots == 0 ==>
        (choked[i] <==> !(torrents[peers[i].torrent].running && peers[i].left))
      ensures uploadSlots != 0 ==> forall i :: 0 <= i < |peers| && peers[i].connected ==> choked[i]
      ensures if uploadSlots == 0 then l0 == l1 == l2 == []
              else Holds(l0, 0, |peers|) && Holds(l1, 1, |peers|) && Holds(l2, 2, |peers|)
    {
      hide Holds, SortedByRate;
      l0, l1, l2 := [], [], [];
      EmptyLists();
      ghost var before := choked;
      var k := 0;
      while k < |peers|
        invariant 0 <= k <= |peers| && Valid() && SortedByRate(l0)
        invariant forall i :: 0 <= i < |peers| ==> choked[i] == if i < k then Initial(before, i) else before[i]
        invariant if uploadSlots == 0 then l0 == l1 == l2 == []
                  else Holds(l0, 0, k) && Holds(l1, 1, k) && Holds(l2, 2, k)
      {
        l0, l1, l2 := Sort(k, l0, l1, l2);
        k := k + 1;
      }
    }

    lemma EmptyLists()
      requires WellFormed(torrents, peers)
      ensures SortedByRate([]) && forall c: nat :: Holds([], c, 0)
    {
    }

    /** One peer of that loop. */
    method Sort(k: nat, l0': seq<nat>, l1': seq<nat>, l2': seq<nat>) returns (l0: seq<nat>, l1: seq<nat>, l2: seq<nat>)
      requires Valid() && k < |peers| && SortedByRate(l0')
      requires if uploadSlots == 0 then l0' == l1' == l2' == []
               else Holds(l0', 0, k) && Holds(l1', 1, k) && Holds(l2', 2, k)
      modifies this
      ensures Valid() && SortedByRate(l0) && choked == old(choked)[k := Initial(old(choked), k)]
      ensures if uploadSlots == 0 then l0 == l1 == l2 == []
              else Holds(l0, 0, k + 1) && Holds(l1, 1, k + 1) && Holds(l2, 2, k + 1)
    {
      hide SortedByRate;
      l0, l1, l2 := l0', l1', l2';
      if uploadSlots != 0 {
        HoldsMore(l0, 0, k);
        HoldsMore(l1, 1, k);
        HoldsMore(l2, 2, k);
        assert forall j :: 0 <= j < |l0| ==> l0[j] in l0;
        hide Holds;
      }
      var p := peers[k];
      if p.connected {
        choked := choked[k := true];
        if !torrents[p.torrent].running || !p.left {
        } else if uploadSlots == 0 {
          choked := choked[k := false];
        } else if p.rate > 256 {
          l0 := InsertByRate(l0, k);
          HoldsInserted(l0', k, l0);
        } else if p.remoteInterested {
          if p.localInterested {
            l1 := l1 + [k];
          } else {
            l2 := l2 + [k];
          }
        }
      }
    }

    lemma ShuffledHolds(list: seq<nat>, c: nat, list': seq<nat>)
      requires WellFormed(torrents, peers) && Holds(list, c, |peers|) && multiset(list') == multiset(list)
      ensures Holds(list', c, |peers|)
    {
      SameMembers(list, list');
      ShuffledDistinct(list, list');
    }

    static lemma SameMembers(a: seq<nat>, b: seq<nat>)
      requires multiset(a) == multiset(b)
      ensures forall x :: x in a <==> x in b
      ensures forall k :: 0 <= k < |b| ==> b[k] in a
    {
      forall x ensures x in a <==> x in b {
        assert x in multiset(a) <==> x in multiset(b);
      }
    }

    /** The three lists one after the other list every candidate once, those ahead of others first. */
    lemma OrderLists(l0: seq<nat>, l1: seq<nat>, l2: seq<nat>)
      requires WellFormed(torrents, peers)
      requires Holds(l0, 0, |peers|) && Holds(l1, 1, |peers|) && Holds(l2, 2, |peers|)
      ensures Lists(torrents, peers, l0 + l1 + l2)
    {
      var order := l0 + l1 + l2;
      forall k | 0 <= k < |order|
        ensures order[k] in order && order[k] < |peers| && Candidate(torrents, peers[order[k]])
      {
        assert order[k] in l0 || order[k] in l1 || order[k] in l2;
      }
      forall j, k | 0 <= j < k < |order| ensures order[j] != order[k] {
        PlaceOf(l0, l1, l2, j);
        PlaceOf(l0, l1, l2, k);
      }
    }

    lemma PlaceOf(l0: seq<nat>, l1: seq<nat>, l2: seq<nat>, k: nat)
      requires WellFormed(torrents, peers) && k < |l0 + l1 + l2|
      requires Holds(l0, 0, |peers|) && Holds(l1, 1, |peers|) && Holds(l2, 2, |peers|)
      ensures var i, m, n := (l0 + l1 + l2)[k], |l0|, |l0| + |l1|;
        i < |peers| && Class(peers[i]) == (if k < m then 0 else if k < n then 1 else 2) &&
        i == if k < m then l0[k] else if k < n then l1[k - m] else l2[k - n]
    {
      var i, m, n := (l0 + l1 + l2)[k], |l0|, |l0| + |l1|;
      if k < m {
        assert i == l0[k] && l0[k] in l0;
      } else if k < n {
        assert i == l1[k - m] && l1[k - m] in l1;
      } else {
        assert i == l2[k - n] && l2[k - n] in l2;
      }
    }

    lemma SortedPlaces(l0: seq<nat>, p: nat, q: nat)
      requires SortedByRate(l0) && p < |l0| && q < |l0| && Slower(l0[p], l0[q])
      ensures p < q
    {
      assert forall j, k :: 0 <= j < k < |l0| ==> Slower(l0[j], l0[k]);
    }

    /** What `Favours` the order of the lists means for the peers. */
    lemma FavoursAhead(l0: seq<nat>, l1: seq<nat>, l2: seq<nat>, choked: seq<bool>, i: nat, j: nat)
      requires WellFormed(torrents, peers) && |choked| == |peers|
      requires Holds(l0, 0, |peers|) && Holds(l1, 1, |peers|) && Holds(l2, 2, |peers|) && SortedByRate(l0)
      requires Favours(peers, choked, l0 + l1 + l2)
      requires i < |peers| && j < |peers| && Candidate(torrents, peers[i]) && Candidate(torrents, peers[j])
      requires Ahead(peers, i, j)
      ensures Precedes(peers, choked, i, j)
    {
      var order := l0 + l1 + l2;
      OrderLists(l0, l1, l2);
      assert i in order && j in order;
      var p :| 0 <= p < |order| && order[p] == i;
      var q :| 0 <= q < |order| && order[q] == j;
      PlaceOf(l0, l1, l2, p);
      PlaceOf(l0, l1, l2, q);
      if p < |l0| && q < |l0| {
        SortedPlaces(l0, p, q);
      }
      assert p < q;
    }

    static lemma ShuffledDistinct(a: seq<nat>, b: seq<nat>)
      requires multiset(a) == multiset(b) && Distinct(a)
      ensures Distinct(b)
    {
      forall x ensures multiset(a)[x] <= 1 {
        DistinctOnce(a, x);
      }
      forall j, k | 0 <= j < k < |b| ensures b[j] != b[k] {
        assert b == b[..j] + [b[j]] + b[j + 1..k] + [b[k]] + b[k + 1..];
        assert b[j] == b[k] ==> multiset(b)[b[j]] >= 2;
      }
    }

    static lemma {:induction false} DistinctOnce(a: seq<nat>, x: nat)
      requires Distinct(a)
      ensures multiset(a)[x] <= 1
    {
      if a != [] {
        var n := |a| - 1;
        assert a == a[..n] + [a[n]];
        DistinctOnce(a[..n], x);
        if a[n] == x {
          assert x !in a[..n];
          assert multiset(a[..n])[x] == 0;
        }
      }
    }

    /** Decides anew which peers are choked.  Main result: with slot limiting on, the outcome satisfies the
        slot policy for any rates, interests and shuffles, and within a torrent nobody gets a slot before a
        candidate that is ahead of it. */
    method UpdateChokes()
      requires Valid()
      modifies this
      ensures Valid()
      ensures uploadSlots != 0 ==> SlotPolicy(torrents, peers, choked, Max(4, uploadSlots))
      ensures uploadSlots != 0 ==> InOrder(torrents, peers, choked)
      ensures forall i :: 0 <= i < |peers| && !peers[i].connected ==> choked[i] == old(choked)[i]
      ensures forall i :: 0 <= i < |peers| && peers[i].connected && uploadSlots == 0 ==>
        (choked[i] <==> !(torrents[peers[i].torrent].running && peers[i].left))
      ensures forall i :: 0 <= i < |peers| && peers[i].connected && uploadSlots != 0 &&
                          !(torrents[peers[i].torrent].running && peers[i].left &&
                            (peers[i].rate > 256 || peers[i].remoteInterested)) ==>
        choked[i]
      ensures forall i :: 0 <= i < |peers| < uploadSlots && peers[i].connected ==>
        (choked[i] <==> !(torrents[peers[i].torrent].running && peers[i].left &&
                          (peers[i].rate > 256 || peers[i].remoteInterested)))
    {
      hide Holds, SortedByRate, SlotPolicy, Favours, Precedes, Ahead, Lists;
      var l0, l1, l2 := Classify();
      if uploadSlots == 0 {
        return;
      }
      var l1', l2' := Shuffle2(l1, l2);
      ShuffledHolds(l1, 1, l1');
      ShuffledHolds(l2, 2, l2');
      OrderLists(l0, l1', l2');
      Allocate(l0, l1', l2');
      forall i, j | 0 <= i < |peers| && 0 <= j < |peers| && Candidate(torrents, peers[i]) &&
                    Candidate(torrents, peers[j]) && Ahead(peers, i, j)
        ensures Precedes(peers, choked, i, j)
      {
        FavoursAhead(l0, l1', l2', choked, i, j);
      }
      if |peers| < uploadSlots {
        AmpleSlots(torrents, peers, choked, Max(4, uploadSlots));
      }
    }

    method Shuffle2(a: seq<nat>, b: seq<nat>) returns (a': seq<nat>, b': seq<nat>)
      ensures multiset(a') == multiset(a) && multiset(b') == multiset(b)
    {
      a' := Shuffle(a);
      b' := Shuffle(b);
    }

    /** The three passes. */
    method Allocate(l0: seq<nat>, l1: seq<nat>, l2: seq<nat>)
      requires Valid() && Lists(torrents, peers, l0 + l1 + l2)
      requires forall i :: 0 <= i < |peers| && Candidate(torrents, peers[i]) ==> choked[i]
      modifies this
      ensures Valid() && SlotPolicy(torrents, peers, choked, Max(4, uploadSlots))
      ensures Grows(torrents, peers, old(choked), choked)
      ensures Favours(peers, choked, l0 + l1 + l2)
    {
      var slots := Max(4, uploadSlots);
      var first := seq(|torrents|, t requires 0 <= t < |torrents| => torrents[t].minSlots);
      var second := seq(|torrents|, t requires 0 <= t < |torrents| => torrents[t].MaxSlots());
      ghost var total, c0 := slots, choked;
      NobodyServed(torrents, peers, choked);
      assert Favours(peers, choked, l0 + l1 + l2);
      hide Served, AllServed, Favours, Lists;
      slots, first, second := Pass(l0, l1, l2, 0, slots, first, second, total);
      ghost var c1, s1 := choked, slots;
      slots, first, second := Pass(l0, l1, l2, 1, slots, first, second, total);
      ghost var c2, s2 := choked, slots;
      slots, first, second := Pass(l0, l1, l2, 2, slots, first, second, total);
      PassesGivePolicy(torrents, peers, c0, c1, c2, choked, total, s1, s2, slots);
    }
  }

  lemma NobodyServed(ts: seq<Torrent>, ps: seq<Peer>, choked: seq<bool>)
    requires WellFormed(ts, ps) && |choked| == |ps|
    requires forall i :: 0 <= i < |ps| && Candidate(ts, ps[i]) ==> choked[i]
    ensures AllServed(ts, ps, choked) == {} && forall t: nat :: Served(ts, ps, choked, t) == {}
  {
  }
}
