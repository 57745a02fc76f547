/** What the peers of a torrent say they have: every piece counts the open links whose
  * remote side has it, every link counts the bytes its remote side lacks. */
module Swarms {
  import opened Basics

  /** One peer link. `remote` is empty until the handshake is over and after a close. */
  datatype Link = Link(remote: seq<bool>, left: int, open: bool)

  predicate Has(l: Link, i: nat) {
    i < |l.remote| && l.remote[i]
  }

  /** The links whose remote side has piece `i`. */
  ghost function Holders(links: map<nat, Link>, i: nat): (r: set<nat>) {
    set id | id in links && Has(links[id], i)
  }

  /** The bytes of the first `n` pieces that a link's remote side lacks. */
  function Lacks(sizes: seq<nat>, l: Link, n: nat): (r: nat)
    requires n <= |sizes|
  {
    if n == 0 then 0 else Lacks(sizes, l, n - 1) + if Has(l, n - 1) then 0 else sizes[n - 1]
  }

  lemma {:induction false} LacksAll(sizes: seq<nat>, l: Link, n: nat)
    requires n <= |sizes| && l.remote == []
    ensures Lacks(sizes, l, n) == Total(sizes[..n])
  {
    if n > 0 {
      LacksAll(sizes, l, n - 1);
      assert sizes[..n] == sizes[..n - 1] + [sizes[n - 1]];
      TotalAppend(sizes[..n - 1], sizes[n - 1]);
    }
  }

  /** Only what a link's remote side has matters. */
  lemma {:induction false} LacksSame(sizes: seq<nat>, l: Link, m: Link, n: nat)
    requires n <= |sizes|
    requires forall i :: 0 <= i < n ==> (Has(l, i) <==> Has(m, i))
    ensures Lacks(sizes, l, n) == Lacks(sizes, m, n)
  {
    if n > 0 {
      LacksSame(sizes, l, m, n - 1);
    }
  }

  lemma {:induction false} LacksOneLess(sizes: seq<nat>, l: Link, v: nat, m: Link, n: nat)
    requires v < n <= |sizes| && v < |l.remote| && !l.remote[v]
    requires m.remote == l.remote[v := true]
    ensures Lacks(sizes, m, n) == Lacks(sizes, l, n) - sizes[v]
  {
    if v == n - 1 {
      LacksSame(sizes, l, m, v);
    } else {
      LacksOneLess(sizes, l, v, m, n - 1);
    }
  }

  /** A link lacks nothing exactly when its remote side has every piece. */
  lemma {:induction false} LacksNothing(sizes: seq<nat>, l: Link, n: nat)
    requires n <= |sizes| && forall i :: 0 <= i < |sizes| ==> sizes[i] > 0
    ensures Lacks(sizes, l, n) == 0 <==> forall i :: 0 <= i < n ==> Has(l, i)
  {
    if n > 0 {
      LacksNothing(sizes, l, n - 1);
    }
  }

  /** Bit `i` of a bitfield message, the first bit of a byte being its highest. */
  predicate Bit(s: seq<bv8>, i: nat)
    requires i < 8 * |s|
  {
    s[i / 8] & (0x80 >> (i % 8)) != 0
  }

  /** The weight of bit `k` of a byte, the highest one being bit 0. */
  function Weight(k: nat): (w: nat)
    ensures w > 0
  {
    if k == 0 then 128 else if k == 1 then 64 else if k == 2 then 32 else if k == 3 then 16
    else if k == 4 then 8 else if k == 5 then 4 else if k == 6 then 2 else 1
  }

  lemma Mask(k: nat)
    requires k < 8
    ensures (0x80 as bv8) >> k == Weight(k) as bv8
  {
  }

  lemma MaskIsShift(b: bv8)
    ensures b & 0x80 != 0 <==> (b >> 7) & 1 == 1
    ensures b & 0x40 != 0 <==> (b >> 6) & 1 == 1
    ensures b & 0x20 != 0 <==> (b >> 5) & 1 == 1
    ensures b & 0x10 != 0 <==> (b >> 4) & 1 == 1
    ensures b & 8 != 0 <==> (b >> 3) & 1 == 1
    ensures b & 4 != 0 <==> (b >> 2) & 1 == 1
    ensures b & 2 != 0 <==> (b >> 1) & 1 == 1
    ensures b & 1 != 0 <==> b & 1 == 1
  {
  }

  lemma HighShifts(b: bv8)
    ensures (b >> 7) as int == b as int / 128 && (b >> 6) as int == b as int / 64
    ensures (b >> 5) as int == b as int / 32 && (b >> 4) as int == b as int / 16
  {
  }

  lemma LowShifts(b: bv8)
    ensures (b >> 3) as int == b as int / 8
    ensures (b >> 2) as int == b as int / 4 && (b >> 1) as int == b as int / 2
  {
  }

  lemma LowestBit(b: bv8)
    ensures b & 1 == 1 <==> b as int % 2 == 1
  {
  }

  lemma ByteBits(b: bv8, k: nat, c: bv8)
    requires k < 8
    requires c == if k == 0 then b >> 7 else if k == 1 then b >> 6 else if k == 2 then b >> 5 else if k == 3 then b >> 4
      else if k == 4 then b >> 3 else if k == 5 then b >> 2 else if k == 6 then b >> 1 else b
    ensures c as int == b as int / Weight(k)
  {
    HighShifts(b);
    LowShifts(b);
  }

  /** A bit by the number its byte is. */
  lemma BitOfNumber(s: seq<bv8>, i: nat)
    requires i < 8 * |s|
    ensures Bit(s, i) <==> s[i / 8] as int / Weight(i % 8) % 2 == 1
  {
    var b, k := s[i / 8], i % 8;
    var c := if k == 0 then b >> 7 else if k == 1 then b >> 6 else if k == 2 then b >> 5 else if k == 3 then b >> 4
      else if k == 4 then b >> 3 else if k == 5 then b >> 2 else if k == 6 then b >> 1 else b;
    Mask(k);
    MaskIsShift(b);
    ByteBits(b, k, c);
    LowestBit(c);
  }

  class Swarm {
    const sizes: seq<nat>
    /** How many open links have each piece. */
    var counts: seq<int>
    var links: map<nat, Link>

    ghost predicate Valid()
      reads this
    {
      && |counts| == |sizes|
      && (forall i :: 0 <= i < |sizes| ==> counts[i] == |Holders(links, i)|)
      && (forall id :: id in links ==> Fits(links[id]))
    }

    /** A link in its place: shaped like the torrent once the handshake is over, and
      * lacking exactly what it counts while it is open. */
    ghost predicate Fits(l: Link)
    {
      && (l.remote == [] || |l.remote| == |sizes|)
      && (!l.open ==> l.remote == [])
      && (l.open ==> l.left == Lacks(sizes, l, |sizes|))
    }

    constructor (sizes: seq<nat>)
      ensures Valid() && links == map[] && this.sizes == sizes
    {
      this.sizes := sizes;
      counts := seq(|sizes|, i => 0);
      links := map[];
      new;
      forall i | 0 <= i < |sizes| ensures Holders(links, i) == {} {
      }
    }

    /** A new link sends its handshake. */
    method Connect(id: nat)
      requires Valid() && id !in links
      modifies this`links
      ensures Valid() && links == old(links)[id := Link([], Total(sizes), true)]
    {
      var l := Link([], Total(sizes), true);
      LacksAll(sizes, l, |sizes|);
      assert sizes[..|sizes|] == sizes;
      forall i | 0 <= i < |sizes| ensures Holders(links[id := l], i) == Holders(links, i) {
      }
      links := links[id := l];
    }

    /** The handshake is over: nothing is known of the remote side's pieces. */
    method Greet(id: nat)
      requires Valid() && id in links && links[id].open && links[id].remote == []
      modifies this`links
      ensures Valid() && id in links && links == old(links)[id := links[id]] && links[id].open
      ensures links[id].remote == seq(|sizes|, i => false)
    {
      var l := links[id].(remote := seq(|sizes|, i => false));
      LacksSame(sizes, links[id], l, |sizes|);
      forall i | 0 <= i < |sizes| ensures Holders(links[id := l], i) == Holders(links, i) {
      }
      links := links[id := l];
    }

    /** The remote side says it has a piece; an index outside the torrent and a piece
      * already known are ignored. */
    method RemoteHas(id: nat, v: nat)
      requires Valid() && id in links && links[id].open && |links[id].remote| == |sizes|
      modifies this
      ensures Valid() && id in links && links == old(links)[id := links[id]] && links[id].open
      ensures links[id].remote == if v < |sizes| then old(links)[id].remote[v := true] else old(links)[id].remote
    {
      if v < |sizes| && !links[id].remote[v] {
        var l := links[id].(left := links[id].left - sizes[v], remote := links[id].remote[v := true]);
        HoldersGain(links, id, v, l);
        LacksOneLess(sizes, links[id], v, l, |sizes|);
        counts := counts[v := counts[v] + 1];
        links := links[id := l];
      } else {
        assert links == links[id := links[id]];
      }
    }

    /** A bitfield message adds to what is known. */
    method Bitfield(id: nat, s: seq<bv8>)
      requires Valid() && id in links && links[id].open && |links[id].remote| == |sizes|
      modifies this
      ensures Valid() && id in links && links == old(links)[id := links[id]] && links[id].open
      ensures |links[id].remote| == |sizes|
      ensures forall i :: 0 <= i < |sizes| ==>
                (links[id].remote[i] <==> old(links)[id].remote[i] || (i < 8 * |s| && Bit(s, i)))
    {
      ghost var links0 := links;
      var i := 0;
      assert links == links0[id := links[id]];
      while i < 8 * |s|
        invariant i <= 8 * |s|
        invariant Valid() && id in links && links == links0[id := links[id]] && links[id].open
        invariant |links[id].remote| == |sizes|
        invariant forall j :: 0 <= j < |sizes| ==>
          (links[id].remote[j] <==> links0[id].remote[j] || (j < i && Bit(s, j)))
      {
        hide Bit;
        if Bit(s, i) {
          RemoteHas(id, i);
        }
        i := i + 1;
      }
    }

    /** Closing a link takes its pieces off the counts. */
    method Close(id: nat)
      requires Valid() && id in links
      modifies this
      ensures Valid() && links == old(links)[id := Link([], old(links)[id].left, false)]
    {
      var remote, left := links[id].remote, links[id].left;
      var c := counts;
      var i := 0;
      while i < |remote|
        invariant i <= |remote|
        invariant |c| == |counts|
        invariant forall j :: 0 <= j < |c| ==> c[j] == counts[j] - (if j < i && remote[j] then 1 else 0)
      {
        c := c[i := c[i] - (if remote[i] then 1 else 0)];
        i := i + 1;
      }
      var l := Link([], left, false);
      HoldersLose(links, id, l);
      counts := c;
      links := links[id := l];
    }

    /** A closed link is dropped from the list. */
    method Forget(id: nat)
      requires Valid() && id in links && !links[id].open
      modifies this`links
      ensures Valid() && links == old(links) - {id}
    {
      forall j | 0 <= j < |sizes| ensures Holders(links - {id}, j) == Holders(links, j) {
      }
      links := links - {id};
    }

    /** A link is to a seeder exactly when the remote side has every piece. */
    method IsSeeder(id: nat) returns (b: bool)
      requires Valid() && id in links && links[id].open
      requires forall i :: 0 <= i < |sizes| ==> sizes[i] > 0
      ensures b <==> forall i :: 0 <= i < |sizes| ==> Has(links[id], i)
      ensures b ==> forall i :: 0 <= i < |sizes| ==> counts[i] >= 1
    {
      LacksNothing(sizes, links[id], |sizes|);
      b := links[id].left == 0;
      if b {
        forall i | 0 <= i < |sizes| ensures counts[i] >= 1 {
          assert id in Holders(links, i);
        }
      }
    }
  }

  lemma HoldersLose(links: map<nat, Link>, id: nat, l: Link)
    requires id in links && l.remote == []
    ensures forall i: nat :: |Holders(links[id := l], i)| == |Holders(links, i)| - (if Has(links[id], i) then 1 else 0)
  {
    forall i: nat
      ensures |Holders(links[id := l], i)| == |Holders(links, i)| - (if Has(links[id], i) then 1 else 0)
    {
      assert Holders(links[id := l], i) == Holders(links, i) - {id};
    }
  }

  lemma HoldersGain(links: map<nat, Link>, id: nat, v: nat, l: Link)
    requires id in links && v < |links[id].remote| && !links[id].remote[v] && l.remote == links[id].remote[v := true]
    ensures |Holders(links[id := l], v)| == |Holders(links, v)| + 1
    ensures forall i: nat :: i != v ==> Holders(links[id := l], i) == Holders(links, i)
  {
    assert Holders(links[id := l], v) == Holders(links, v) + {id};
    forall i: nat | i != v ensures Holders(links[id := l], i) == Holders(links, i) {
    }
  }
}
