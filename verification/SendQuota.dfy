/** Sharing the upload quota of one time slice among the peer links that have something to send. */
module SendQuota {
  import opened Basics

  predicate Sorted(ds: seq<nat>) {
    forall j, k :: 0 <= j < k < |ds| ==> ds[j] <= ds[k]
  }

  lemma ShareSmaller(quota: nat, n: nat)
    requires n >= 1
    ensures 0 <= quota / n <= quota
  {
  }

  /** What a link that wants `d` gets when `quota` is left for it and others, `n` in all. */
  function Share(d: nat, quota: nat, n: nat): (q: nat)
    requires n >= 1
    ensures q <= quota
  {
    ShareSmaller(quota, n);
    Min(d, quota / n)
  }

  /** What one round offers to links with demands `ds`: each link in turn gets its demand or an equal share
      of what is left for it and the links behind it. */
  function Offers(ds: seq<nat>, quota: nat): (os: seq<nat>)
    ensures |os| == |ds|
  {
    if ds == [] then []
    else
      var q := Share(ds[0], quota, |ds|);
      [q] + Offers(ds[1..], quota - q)
  }

  lemma {:induction false} TotalAtLeast(ds: seq<nat>, m: nat)
    requires forall k :: 0 <= k < |ds| ==> ds[k] >= m
    ensures Total(ds) >= |ds| * m
  {
    if ds != [] {
      TotalAtLeast(ds[1..], m);
      assert |ds| * m == m + |ds[1..]| * m;
    }
  }

  lemma ShareBounds(quota: nat, n: nat)
    requires n >= 1
    ensures n * (quota / n) <= quota < n * (quota / n + 1)
  {
    assert quota == n * (quota / n) + quota % n;
    assert n * (quota / n + 1) == n * (quota / n) + n;
  }

  lemma MulOrder(n: nat, a: int, b: int)
    requires n >= 1 && n * a > n * b
    ensures a > b
  {
    assert a <= b ==> n * a <= n * b;
  }

  /** An equal share leaves the other links at most one byte more each. */
  lemma LeftForOthers(quota: nat, n: nat)
    requires n >= 1
    ensures quota / n <= quota && quota - quota / n <= (n - 1) * (quota / n + 1)
  {
    var share := quota / n;
    ShareBounds(quota, n);
    assert n * (share + 1) == (n - 1) * (share + 1) + share + 1;
    assert n * share == (n - 1) * share + share;
  }

  lemma ShareLevel(quota: nat, n: nat, m: nat)
    requires n >= 1 && m >= 1 && n * (m - 1) <= quota <= n * m
    ensures m - 1 <= quota / n <= m
    ensures quota / n <= quota && (n - 1) * (m - 1) <= quota - quota / n <= (n - 1) * m
  {
    var share := quota / n;
    ShareBounds(quota, n);
    MulOrder(n, share + 1, m - 1);
    assert n * (m + 1) == n * m + n;
    MulOrder(n, m + 1, share);
    assert n * (m - 1) == (n - 1) * (m - 1) + (m - 1) && n * m == (n - 1) * m + m;
    if share == m {
      assert quota == n * m;
    }
  }

  lemma OffersHead(ds: seq<nat>, quota: nat)
    requires ds != []
    ensures var q := Min(ds[0], quota / |ds|);
      q <= quota && Offers(ds, quota)[0] == q && Offers(ds, quota)[1..] == Offers(ds[1..], quota - q)
  {
    LeftForOthers(quota, |ds|);
  }

  /** With the demands in ascending order nothing is held back: a round offers the whole quota, or everything
      that is asked for. */
  lemma {:induction false} OffersUseQuota(ds: seq<nat>, quota: nat)
    requires Sorted(ds)
    ensures Total(Offers(ds, quota)) == Min(quota, Total(ds))
    decreases |ds|
  {
    if ds != [] {
      hide Offers;
      var n, rest := |ds|, ds[1..];
      var share := quota / n;
      var q := Min(ds[0], share);
      OffersHead(ds, quota);
      OffersUseQuota(rest, quota - q);
      if ds[0] > share {
        LeftForOthers(quota, n);
        TotalAtLeast(rest, share + 1);
      }
    }
  }

  /** Links that all want more than they can get are served equally, up to one byte. */
  lemma {:induction false} OffersLevel(ds: seq<nat>, quota: nat, m: nat)
    requires m >= 1 && forall k :: 0 <= k < |ds| ==> ds[k] >= m
    requires |ds| * (m - 1) <= quota <= |ds| * m
    ensures forall k :: 0 <= k < |ds| ==> m - 1 <= Offers(ds, quota)[k] <= m
    decreases |ds|
  {
    if ds != [] {
      hide Offers;
      var os := Offers(ds, quota);
      var share := quota / |ds|;
      ShareLevel(quota, |ds|, m);
      OffersHead(ds, quota);
      OffersLevel(ds[1..], quota - share, m);
      assert forall k :: 1 <= k < |ds| ==> os[k] == os[1..][k - 1];
    }
  }

  lemma ShareLeft(quota: nat, n: nat, share: nat, q: nat)
    requires n >= 1 && n * share <= quota && q <= quota / n
    ensures share <= quota / n && q <= quota && (n - 1) * share <= quota - q
  {
    var s := quota / n;
    ShareBounds(quota, n);
    MulOrder(n, s + 1, share);
    MulMono(n - 1, share, s);
    assert n * s == (n - 1) * s + s && n * share == (n - 1) * share + share;
  }

  /** Later links are never offered less than the equal share. */
  lemma {:induction false} OffersAtLeastShare(ds: seq<nat>, quota: nat, share: nat)
    requires |ds| * share <= quota
    ensures forall k :: 0 <= k < |ds| ==> Offers(ds, quota)[k] >= Min(ds[k], share)
    decreases |ds|
  {
    if ds != [] {
      var q := Min(ds[0], quota / |ds|);
      ShareLeft(quota, |ds|, share, q);
      hide Offers;
      OffersHead(ds, quota);
      OffersAtLeastShare(ds[1..], quota - q, share);
      var os := Offers(ds, quota);
      assert forall k :: 1 <= k < |ds| ==> os[k] == os[1..][k - 1];
    }
  }

  lemma MulMono(n: nat, a: nat, b: nat)
    requires a <= b
    ensures n * a <= n * b
  {
  }

  /** Max-min fairness: no link is offered more than one byte above a link that did not get all it wants. */
  lemma {:induction false} OffersFair(ds: seq<nat>, quota: nat, i: nat, k: nat)
    requires Sorted(ds) && i < |ds| && k < |ds|
    requires Offers(ds, quota)[i] < ds[i]
    ensures Offers(ds, quota)[k] <= Offers(ds, quota)[i] + 1
    decreases |ds|
  {
    var n, rest, os := |ds|, ds[1..], Offers(ds, quota);
    var share := quota / n;
    hide Offers;
    OffersHead(ds, quota);
    var q := Min(ds[0], share);
    ShareBounds(quota, n);
    if ds[0] > share {
      assert n * (share + 1 - 1) <= quota <= n * (share + 1);
      OffersLevel(ds, quota, share + 1);
    } else if k == 0 {
      assert n * share <= quota;
      OffersAtLeastShare(ds, quota, share);
    } else {
      assert i > 0;
      OffersFair(rest, quota - q, i - 1, k - 1);
    }
  }

  /** Everything the sockets have accepted. */
  class Wire {
    var bytes: nat
    ghost var refusals: nat  // how often a socket failed or took less than it was given

    constructor ()
      ensures bytes == 0
    {
      bytes, refusals := 0, 0;
    }
  }

  /** The sending half of a peer link; blocks and requests are represented by their sizes. */
  class PeerLink {
    const wire: Wire
    var canSend: bool
    var closed: bool
    var localChoked: bool
    var writeBuffer: seq<nat>
    var remoteRequests: seq<nat>
    ghost var sent: nat      // bytes put on the wire so far
    ghost var returned: nat  // quota that was offered and not used so far

    constructor (wire: Wire)
      ensures this.wire == wire && !closed
    {
      this.wire := wire;
      canSend, closed, localChoked := false, false, true;
      writeBuffer, remoteRequests := [], [];
      sent, returned := 0, 0;
    }

    ghost function Account(): Book
      reads this
    {
      Book(sent, returned, canSend, writeBuffer == [])
    }

    /** Turns the oldest request into a block, if it can be read, and queues pending announcements. */
    method FillBuffer()
      modifies this`writeBuffer, this`remoteRequests
      ensures old(writeBuffer) <= writeBuffer
      ensures remoteRequests ==
        if old(writeBuffer) == [] && !localChoked && old(remoteRequests) != [] then old(remoteRequests)[1..]
        else old(remoteRequests)
      ensures old(writeBuffer) == [] && writeBuffer != [] ==>
        !localChoked && old(remoteRequests) != [] && writeBuffer[0] == old(remoteRequests)[0] + 13
    {
      if writeBuffer == [] && !localChoked && remoteRequests != [] {
        var readable: bool := *;
        if readable {
          writeBuffer := [remoteRequests[0] + 13];
        }
        remoteRequests := remoteRequests[1..];
      }
      if writeBuffer != [] {
        var haves: seq<nat> := *;
        writeBuffer := writeBuffer + haves;
      }
    }

    /** Sends at most `quota` bytes; what the socket does is chosen arbitrarily.  Every byte of quota is
        either on the wire or returned, a failure always leaves quota over, and as long as the socket takes what it
        is given, quota is returned only when nothing is left to send. */
    method Send(quota: nat) returns (left: nat, failed: bool)
      modifies this`canSend, this`writeBuffer, this`remoteRequests, this`sent, this`returned, wire
      ensures left <= quota && wire.bytes + left == old(wire.bytes) + quota
      ensures sent == old(sent) + quota - left && returned == old(returned) + left
      ensures failed ==> left > 0
      ensures wire.refusals >= old(wire.refusals)
      ensures wire.refusals == old(wire.refusals) ==>
        !failed && canSend == old(canSend) && (left == 0 || !canSend || writeBuffer == [])
    {
      left, failed := Transmit(quota);
      sent, returned := sent + quota - left, returned + left;
    }

    method Transmit(quota: nat) returns (left: nat, failed: bool)
      modifies this`canSend, this`writeBuffer, this`remoteRequests, wire
      ensures left <= quota && wire.bytes + left == old(wire.bytes) + quota
      ensures failed ==> left > 0
      ensures wire.refusals >= old(wire.refusals)
      ensures wire.refusals == old(wire.refusals) ==>
        !failed && canSend == old(canSend) && (left == 0 || !canSend || writeBuffer == [])
    {
      left, failed := quota, false;
      while canSend && left != 0
        invariant left <= quota && wire.bytes + left == old(wire.bytes) + quota && !failed
        invariant wire.refusals >= old(wire.refusals)
        invariant wire.refusals == old(wire.refusals) ==> canSend == old(canSend)
        decreases canSend, left
      {
        FillBuffer();
        if writeBuffer == [] {
          return;
        }
        var n := Min(writeBuffer[0], left);
        var r: int :| -2 <= r <= n;  // -1: would block, -2: other error
        if r != n || r == 0 {
          wire.refusals := wire.refusals + 1;
        }
        if r == -1 {
          canSend := false;
          return;
        }
        if r == -2 {
          failed := true;
          return;
        }
        if r == 0 {
          return;
        }
        if r != n {
          canSend := false;
        }
        left := left - r;
        wire.bytes := wire.bytes + r;
        writeBuffer := if r == writeBuffer[0] then writeBuffer[1..] else writeBuffer[0 := writeBuffer[0] - r];
      }
    }
  }

  /** A link waiting for quota, with the size of its send buffer when it was entered. */
  datatype Entry = Entry(demand: nat, link: PeerLink)

  function Demands(links: seq<Entry>): (ds: seq<nat>)
    ensures |ds| == |links| && forall k :: 0 <= k < |ds| ==> ds[k] == links[k].demand
  {
    seq(|links|, k requires 0 <= k < |links| => links[k].demand)
  }

  /** What a link has done so far: bytes sent, quota returned, and whether its socket takes more and its buffer is
      empty. */
  datatype Book = Book(sent: nat, returned: nat, canSend: bool, empty: bool)

  ghost function Books(links: seq<Entry>): (r: seq<Book>)
    reads set e | e in links :: e.link
    ensures |r| == |links|
    ensures forall i :: 0 <= i < |r| ==> r[i] == links[i].link.Account()
  {
    seq(|links|, i reads set e | e in links :: e.link requires 0 <= i < |links| => links[i].link.Account())
  }

  /** In a round, the first `k` links were each offered their part, used some and returned the rest; nothing has
      happened to the others. */
  ghost predicate Offered(before: seq<Book>, after: seq<Book>, k: nat, offers: seq<nat>, lefts: seq<nat>) {
    k <= |before| == |after| && |offers| == |lefts| == k && before[k..] == after[k..] &&
    forall i :: 0 <= i < k ==>
      lefts[i] <= offers[i] && after[i].sent == before[i].sent + offers[i] - lefts[i] &&
      after[i].returned == before[i].returned + lefts[i]
  }

  /** No socket refused anything: of the first `k` links those that returned quota have nothing left to send. */
  ghost predicate Smooth(before: seq<Book>, after: seq<Book>, k: nat, lefts: seq<nat>) {
    k <= |before| == |after| && |lefts| == k &&
    forall i :: 0 <= i < k ==>
      after[i].canSend == before[i].canSend && (lefts[i] == 0 || !after[i].canSend || after[i].empty)
  }

  lemma OfferedOneMore(b0: seq<Book>, b: seq<Book>, x: Book, k: nat, offers: seq<nat>, lefts: seq<nat>, q: nat, l: nat)
    requires Offered(b0, b, k, offers, lefts) && k < |b| && l <= q
    requires x.sent == b[k].sent + q - l && x.returned == b[k].returned + l
    ensures Offered(b0, b[k := x], k + 1, offers + [q], lefts + [l])
    ensures Smooth(b0, b, k, lefts) && x.canSend == b[k].canSend && (l == 0 || !x.canSend || x.empty) ==>
      Smooth(b0, b[k := x], k + 1, lefts + [l])
  {
    assert b[k] == b[k..][0] == b0[k..][0] == b0[k];
    assert b[k := x][k + 1..] == b[k..][1..] && b0[k + 1..] == b0[k..][1..];
  }

  /** The entries whose offer was used up, in their order. */
  ghost function Keep(links: seq<Entry>, lefts: seq<nat>): (r: seq<Entry>)
    requires |links| == |lefts|
    ensures |r| <= |links|
  {
    if links == [] then []
    else
      var n := |links| - 1;
      Keep(links[..n], lefts[..n]) + if lefts[n] == 0 then [links[n]] else []
  }

  class Server {
    const wire: Wire
    var sendQuota: nat

    constructor (wire: Wire, quota: nat)
      ensures this.wire == wire && sendQuota == quota
    {
      this.wire := wire;
      sendQuota := quota;
    }

    /** The links waiting for quota: in ascending order of demand, each at most once. */
    ghost predicate Waiting(links: seq<Entry>) {
      Sorted(Demands(links)) &&
      (forall k :: 0 <= k < |links| ==> links[k].demand > 0 && links[k].link.wire == wire) &&
      (forall j, k :: 0 <= j < k < |links| ==> links[j].link != links[k].link)
    }

    ghost predicate AllOpen(links: seq<Entry>)
      reads set e | e in links :: e.link
    {
      forall k :: 0 <= k < |links| ==> !links[k].link.closed
    }

    /** Offers one of `j` links its share; a link whose socket fails is closed and returns quota. */
    method Offer(e: Entry, j: nat) returns (q: nat, left: nat)
      requires j >= 1 && e.link.wire == wire && !e.link.closed
      modifies this`sendQuota, wire, e.link
      ensures q == Share(e.demand, old(sendQuota), j) && sendQuota == old(sendQuota) - q && left <= q
      ensures wire.bytes + left == old(wire.bytes) + q
      ensures e.link.sent == old(e.link.sent) + q - left && e.link.returned == old(e.link.returned) + left
      ensures e.link.closed ==> left > 0
      ensures wire.refusals >= old(wire.refusals)
      ensures wire.refusals == old(wire.refusals) ==>
        e.link.canSend == old(e.link.canSend) && (left == 0 || !e.link.canSend || e.link.writeBuffer == [])
    {
      q := Share(e.demand, sendQuota, j);
      sendQuota := sendQuota - q;
      var failed;
      left, failed := e.link.Send(q);
      if failed {
        e.link.closed := true;
      }
    }

    /** Offers link `k` its share; nothing happens to the others. */
    method OfferAt(links: seq<Entry>, ghost kept: seq<Entry>, k: nat, j: nat) returns (q: nat, left: nat)
      requires Waiting(links) && k < |links| && j >= 1 && AllOpen(links[k..]) && KeptFrom(kept, links, k)
      requires AllOpen(kept)
      modifies this`sendQuota, wire, links[k].link
      ensures q == Share(links[k].demand, old(sendQuota), j) && sendQuota == old(sendQuota) - q && left <= q
      ensures wire.bytes + left == old(wire.bytes) + q
      ensures AllOpen(links[k + 1..]) && AllOpen(kept) && (left == 0 ==> AllOpen(kept + [links[k]]))
      ensures wire.refusals >= old(wire.refusals)
      ensures var b, x := old(Books(links)), Books(links)[k];
        Books(links) == b[k := x] && x.sent == b[k].sent + q - left && x.returned == b[k].returned + left &&
        (wire.refusals == old(wire.refusals) ==>
          x.canSend == b[k].canSend && (left == 0 || !x.canSend || x.empty))
    {
      hide Share, Demands, Sorted;
      ghost var b := Books(links);
      assert links[k] == links[k..][0];
      assert forall i :: 0 <= i < |kept| ==> kept[i] in links[..k];
      assert links[k + 1..] == links[k..][1..];
      q, left := Offer(links[k], j);
      assert forall i :: 0 <= i < |links| && i != k ==> links[i].link != links[k].link;
      assert Books(links) == b[k := Books(links)[k]];
    }

    /** One round: every waiting link is offered its share; exactly the links that return some of it are dropped. */
    method Round(links: seq<Entry>) returns (kept: seq<Entry>, ghost offers: seq<nat>, ghost lefts: seq<nat>)
      requires Waiting(links) && AllOpen(links) && sendQuota > 0 && links != []
      modifies this`sendQuota, wire, set e | e in links :: e.link
      ensures offers == Offers(Demands(links), old(sendQuota))
      ensures Offered(old(Books(links)), Books(links), |links|, offers, lefts) && kept == Keep(links, lefts)
      ensures wire.refusals >= old(wire.refusals)
      ensures wire.refusals == old(wire.refusals) ==> Smooth(old(Books(links)), Books(links), |links|, lefts)
      ensures sendQuota + wire.bytes == old(sendQuota) + old(wire.bytes)
      ensures Waiting(kept) && (forall e :: e in kept ==> e in links) && AllOpen(kept)
      ensures |kept| < |links| || (|kept| == |links| && sendQuota < old(sendQuota))
      ensures sendQuota <= old(sendQuota)
    {
      hide Offers, Total, Demands, Share, Offered, Smooth, Keep, Books, Paid, Sifted, Waiting, AllOpen;
      ghost var ds, quota0, bytes0, b0, refusals0 := Demands(links), sendQuota, wire.bytes, Books(links), wire.refusals;
      offers, lefts := [], [];
      kept := [];
      var j, k, quotaLeft := |links|, 0, 0;
      NothingYet(links, b0, quota0);
      while k < |links|
        invariant 0 <= k <= |links| && j == |links| - k && wire.bytes >= bytes0 && wire.refusals >= refusals0
        invariant Paid(ds, quota0, k, offers, sendQuota, wire.bytes - bytes0, quotaLeft)
        invariant Sifted(links, k, lefts, kept, quotaLeft) && AllOpen(kept) && AllOpen(links[k..])
        invariant Offered(b0, Books(links), k, offers, lefts)
        invariant wire.refusals == refusals0 ==> Smooth(b0, Books(links), k, lefts)
      {
        ghost var b, quota := Books(links), sendQuota;
        SiftedFrom(links, k, lefts, kept, quotaLeft);
        var q, left := OfferAt(links, kept, k, j);
        OfferedOneMore(b0, b, Books(links)[k], k, offers, lefts, q, left);
        PaidStep(ds, quota0, k, offers, quota, wire.bytes - bytes0 - (q - left), quotaLeft, q, left);
        SiftedStep(links, k, lefts, kept, quotaLeft, left);
        assert kept + [] == kept;
        if left == 0 {
          kept := kept + [links[k]];
        }
        offers, lefts := offers + [q], lefts + [left];
        quotaLeft := quotaLeft + left;
        j, k := j - 1, k + 1;
      }
      RoundEnd(links, quota0, offers, lefts, kept, sendQuota, wire.bytes - bytes0, quotaLeft);
      ghost var b := Books(links);
      sendQuota := sendQuota + quotaLeft;
      assert Books(links) == b && AllOpen(kept);
    }

    /** The first `k` links were offered what they should be, and what was offered was spent or returned. */
    static ghost predicate Paid(ds: seq<nat>, quota0: nat, k: nat, offers: seq<nat>, quota: nat, spent: nat,
                                quotaLeft: nat)
    {
      k <= |ds| && |offers| == k && offers + Offers(ds[k..], quota) == Offers(ds, quota0) &&
      quota + Total(offers) == quota0 && spent + quotaLeft == Total(offers)
    }

    /** Of the first `k` links those that returned nothing are kept. */
    ghost predicate Sifted(links: seq<Entry>, k: nat, lefts: seq<nat>, kept: seq<Entry>, quotaLeft: nat) {
      k <= |links| && |lefts| == k && Waiting(kept) && KeptFrom(kept, links, k) && kept == Keep(links[..k], lefts) &&
      (|kept| == k ==> quotaLeft == 0)
    }

    lemma NothingYet(links: seq<Entry>, b: seq<Book>, quota: nat)
      requires |b| == |links|
      ensures Offered(b, b, 0, [], []) && Smooth(b, b, 0, []) && links[0..] == links && AllOpen([])
      ensures Paid(Demands(links), quota, 0, [], quota, 0, 0) && Sifted(links, 0, [], [], 0)
    {
      assert Demands(links)[0..] == Demands(links);
    }

    static lemma PaidStep(ds: seq<nat>, quota0: nat, k: nat, offers: seq<nat>, quota: nat, spent: nat, quotaLeft: nat,
                          q: nat, left: nat)
      requires Paid(ds, quota0, k, offers, quota, spent, quotaLeft) && k < |ds|
      requires q == Share(ds[k], quota, |ds| - k) && left <= q
      ensures Paid(ds, quota0, k + 1, offers + [q], quota - q, spent + q - left, quotaLeft + left)
    {
      hide Offers, Share;
      OffersStep(ds, k, quota, offers, q);
      TotalAppend(offers, q);
    }

    lemma SiftedFrom(links: seq<Entry>, k: nat, lefts: seq<nat>, kept: seq<Entry>, quotaLeft: nat)
      requires Sifted(links, k, lefts, kept, quotaLeft)
      ensures KeptFrom(kept, links, k)
    {
    }

    lemma SiftedStep(links: seq<Entry>, k: nat, lefts: seq<nat>, kept: seq<Entry>, quotaLeft: nat, left: nat)
      requires Waiting(links) && Sifted(links, k, lefts, kept, quotaLeft) && k < |links|
      ensures Sifted(links, k + 1, lefts + [left], kept + (if left == 0 then [links[k]] else []), quotaLeft + left)
    {
      hide Waiting;
      KeptStep(kept, links, k);
      KeepStep(links, k, lefts, left);
      assert kept + [] == kept;
    }

    lemma KeepStep(links: seq<Entry>, k: nat, lefts: seq<nat>, left: nat)
      requires k < |links| && |lefts| == k
      ensures Keep(links[..k + 1], lefts + [left]) == Keep(links[..k], lefts) + if left == 0 then [links[k]] else []
    {
      assert links[..k + 1][..k] == links[..k] && (lefts + [left])[..k] == lefts;
    }

    lemma RoundEnd(links: seq<Entry>, quota: nat, offers: seq<nat>, lefts: seq<nat>, kept: seq<Entry>, rest: nat,
                   spent: nat, quotaLeft: nat)
      requires Waiting(links) && links != [] && quota > 0
      requires Paid(Demands(links), quota, |links|, offers, rest, spent, quotaLeft)
      requires Sifted(links, |links|, lefts, kept, quotaLeft)
      ensures offers == Offers(Demands(links), quota) && kept == Keep(links, lefts) && |kept| <= |links|
      ensures Waiting(kept) && (forall e :: e in kept ==> e in links) && rest + quotaLeft + spent == quota
      ensures |kept| < |links| || rest + quotaLeft < quota
    {
      var ds := Demands(links);
      assert ds[|ds|..] == [] && links[..|links|] == links;
      assert offers + [] == offers;
      OffersUseQuota(ds, quota);
    }

    /** The kept entries come from the part of `links` before `k`, in order. */
    ghost predicate KeptFrom(kept: seq<Entry>, links: seq<Entry>, k: nat)
      requires k <= |links|
    {
      forall e :: e in kept ==> e in links[..k] && (k < |links| ==> e.demand <= links[k].demand)
    }

    lemma KeptStep(kept: seq<Entry>, links: seq<Entry>, k: nat)
      requires Waiting(kept) && Waiting(links) && k < |links| && KeptFrom(kept, links, k)
      ensures KeptFrom(kept, links, k + 1)
      ensures Waiting(kept + [links[k]]) && KeptFrom(kept + [links[k]], links, k + 1)
    {
      assert links[..k + 1] == links[..k] + [links[k]];
      KeptSorted(kept, links, k);
      assert k + 1 < |links| ==> Demands(links)[k] <= Demands(links)[k + 1];
    }

    static lemma OffersStep(ds: seq<nat>, k: nat, quota: nat, offers: seq<nat>, q: nat)
      requires k < |ds| && q == Share(ds[k], quota, |ds| - k)
      ensures q <= quota
      ensures offers + Offers(ds[k..], quota) == (offers + [q]) + Offers(ds[k + 1..], quota - q)
    {
      OffersHead(ds[k..], quota);
      assert ds[k..][1..] == ds[k + 1..];
      var os := Offers(ds[k..], quota);
      assert os == [os[0]] + os[1..];
    }

    lemma KeptSorted(kept: seq<Entry>, links: seq<Entry>, k: nat)
      requires Waiting(kept) && Waiting(links) && k < |links|
      requires KeptFrom(kept, links, k)
      ensures Waiting(kept + [links[k]])
      ensures forall i :: 0 <= i < |kept| ==> kept[i].link != links[k].link
    {
      var r := kept + [links[k]];
      forall i | 0 <= i < |kept| ensures kept[i].link != links[k].link {
        assert kept[i] in links[..k];
      }
      forall i, j | 0 <= i < j < |r| ensures Demands(r)[i] <= Demands(r)[j] {
        if j == |kept| {
          assert kept[i] in kept;
        } else {
          assert Demands(kept)[i] <= Demands(kept)[j];
        }
      }
    }

    lemma {:induction false} KeepMembers(links: seq<Entry>, lefts: seq<nat>, i: nat)
      requires |links| == |lefts| && i < |links|
      requires forall j, k :: 0 <= j < k < |links| ==> links[j] != links[k]
      ensures links[i] in Keep(links, lefts) <==> lefts[i] == 0
      ensures forall e :: e in Keep(links, lefts) ==> e in links
    {
      var n := |links| - 1;
      KeepInside(links, lefts);
      KeepInside(links[..n], lefts[..n]);
      if i < n {
        KeepMembers(links[..n], lefts[..n], i);
      }
    }

    lemma {:induction false} KeepInside(links: seq<Entry>, lefts: seq<nat>)
      requires |links| == |lefts|
      ensures forall e :: e in Keep(links, lefts) ==> e in links
    {
      if links != [] {
        KeepInside(links[..|links| - 1], lefts[..|links| - 1]);
      }
    }

    lemma KeepExactly(links: seq<Entry>, before: seq<Book>, after: seq<Book>, offers: seq<nat>, lefts: seq<nat>)
      requires Waiting(links) && |before| == |links| && Offered(before, after, |links|, offers, lefts)
      ensures forall i :: 0 <= i < |links| ==>
        after[i].returned >= before[i].returned &&
        (links[i] in Keep(links, lefts) <==> after[i].returned == before[i].returned)
      ensures Smooth(before, after, |links|, lefts) ==>
        forall i :: 0 <= i < |links| ==>
          after[i].canSend == before[i].canSend &&
          (links[i] in Keep(links, lefts) || !after[i].canSend || after[i].empty)
    {
      hide Keep, Demands, Sorted;
      forall i | 0 <= i < |links| ensures links[i] in Keep(links, lefts) <==> lefts[i] == 0 {
        KeepMembers(links, lefts, i);
      }
    }

    /** One round, link by link. */
    method Turn(links: seq<Entry>) returns (kept: seq<Entry>)
      requires Waiting(links) && AllOpen(links) && sendQuota > 0 && links != []
      modifies this`sendQuota, wire, set e | e in links :: e.link
      ensures sendQuota + wire.bytes == old(sendQuota) + old(wire.bytes)
      ensures Waiting(kept) && (forall e :: e in kept ==> e in links) && AllOpen(kept)
      ensures |kept| < |links| || (|kept| == |links| && sendQuota < old(sendQuota))
      ensures sendQuota <= old(sendQuota)
      ensures forall e :: e in links ==>
        e.link.returned >= old(e.link.returned) && (e in kept <==> e.link.returned == old(e.link.returned))
      ensures wire.refusals >= old(wire.refusals)
      ensures wire.refusals == old(wire.refusals) ==>
        forall e :: e in links ==>
          e.link.canSend == old(e.link.canSend) && (e in kept || !e.link.canSend || e.link.writeBuffer == [])
    {
      hide Waiting, AllOpen, Offered, Smooth, Keep, Offers, Books;
      ghost var b := Books(links);
      ghost var offers, lefts;
      kept, offers, lefts := Round(links);
      KeepExactly(links, b, Books(links), offers, lefts);
    }

    /** Links behind different entries are different. */
    lemma OtherLink(links0: seq<Entry>, links: seq<Entry>, e: Entry)
      requires Waiting(links0) && (forall x :: x in links ==> x in links0) && e in links0 && e !in links
      ensures forall x :: x in links ==> x.link != e.link
    {
    }

    /** All rounds of a time slice.  The quota is conserved, it never goes negative, and the loop ends: each
        round puts a byte on the wire or drops a link.  A link is dropped exactly if it returned quota, so at the end
        quota is left only if no link wants it; if the sockets take what they are given, it is left only if every
        link has sent all it had. */
    method SendRounds(links0: seq<Entry>) returns (links: seq<Entry>)
      requires Waiting(links0) && AllOpen(links0)
      modifies this`sendQuota, wire, set e | e in links0 :: e.link
      ensures sendQuota + wire.bytes == old(sendQuota) + old(wire.bytes)
      ensures sendQuota == 0 || links == []
      ensures (forall e :: e in links ==> e in links0) && AllOpen(links)
      ensures forall e :: e in links0 ==> (e in links <==> e.link.returned == old(e.link.returned))
      ensures wire.refusals == old(wire.refusals) && (forall e :: e in links0 ==> old(e.link.canSend)) ==>
        forall e :: e in links0 && e !in links ==> e.link.writeBuffer == []
    {
      hide Waiting, AllOpen;
      links := links0;
      while sendQuota != 0 && links != []
        invariant Waiting(links) && AllOpen(links) && forall e :: e in links ==> e in links0
        invariant sendQuota + wire.bytes == old(sendQuota) + old(wire.bytes)
        invariant forall e :: e in links0 ==> e.link.returned >= old(e.link.returned)
        invariant forall e :: e in links0 ==> (e in links <==> e.link.returned == old(e.link.returned))
        invariant wire.refusals >= old(wire.refusals)
        invariant wire.refusals == old(wire.refusals) && (forall e :: e in links0 ==> old(e.link.canSend)) ==>
          forall e :: e in links0 ==> e.link.canSend && (e in links || e.link.writeBuffer == [])
        decreases sendQuota, |links|
      {
        forall e | e in links0 && e !in links ensures forall x :: x in links ==> x.link != e.link {
          OtherLink(links0, links, e);
        }
        links := Turn(links);
      }
    }
  }
}
