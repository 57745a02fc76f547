/** Length-prefixed messages cut out of the byte stream of a peer link. */
module Framing {
  import opened RingBuffers
  import opened Basics

  type Message = seq<byte>

  const MAX_MESSAGE := 32768
  const BUFFER_SIZE := 33792

  /** Four bytes, most significant first. */
  function ReadInt(s: seq<byte>): (n: nat)
    requires |s| >= 4
  {
    var a: int, b: int, c: int, d: int := s[0], s[1], s[2], s[3];
    ((a * 256 + b) * 256 + c) * 256 + d
  }

  /** All messages dispatched so far, the bytes not yet part of a whole message, and whether the link has
      to be closed. */
  datatype Parse = Parse(messages: seq<Message>, rest: seq<byte>, closed: bool)

  /** The framing of a stream, independent of any buffer.  `sent` lists the messages already dispatched;
      `refuse` is the message handler: it may object to the last message of the history it is given. */
  function Frames(refuse: seq<Message> -> bool, sent: seq<Message>, s: seq<byte>): (p: Parse)
    decreases |s|
  {
    if |s| < 4 then Parse(sent, s, false)
    else
      var n := ReadInt(s);
      if n > MAX_MESSAGE then Parse(sent, s, true)
      else if |s| < 4 + n then Parse(sent, s, false)
      else if n == 0 then Frames(refuse, sent, s[4..])
      else
        var sent' := sent + [s[4..4 + n]];
        if refuse(sent') then Parse(sent', s[4 + n..], true)
        else Frames(refuse, sent', s[4 + n..])
  }

  // The definition unfolded once, case by case.

  lemma FramesWait(refuse: seq<Message> -> bool, sent: seq<Message>, s: seq<byte>)
    requires |s| >= 4 ==> ReadInt(s) <= MAX_MESSAGE && |s| < 4 + ReadInt(s)
    ensures Frames(refuse, sent, s) == Parse(sent, s, false)
  {
  }

  lemma FramesTooLong(refuse: seq<Message> -> bool, sent: seq<Message>, s: seq<byte>)
    requires |s| >= 4 && ReadInt(s) > MAX_MESSAGE
    ensures Frames(refuse, sent, s) == Parse(sent, s, true)
  {
  }

  lemma FramesKeepAlive(refuse: seq<Message> -> bool, sent: seq<Message>, s: seq<byte>)
    requires |s| >= 4 && ReadInt(s) == 0
    ensures Frames(refuse, sent, s) == Frames(refuse, sent, s[4..])
  {
  }

  lemma FramesMessage(refuse: seq<Message> -> bool, sent: seq<Message>, s: seq<byte>, n: nat)
    requires |s| >= 4 + n && n == ReadInt(s) && 1 <= n <= MAX_MESSAGE
    ensures var sent' := sent + [s[4..4 + n]];
      Frames(refuse, sent, s) ==
      if refuse(sent') then Parse(sent', s[4 + n..], true) else Frames(refuse, sent', s[4 + n..])
  {
  }

  /** Framing a stream in two parts is framing it at once: message boundaries do not depend on how the
      bytes arrive. */
  lemma {:induction false} FramesOfConcat(refuse: seq<Message> -> bool, sent: seq<Message>, s: seq<byte>, t: seq<byte>)
    ensures var p := Frames(refuse, sent, s);
      Frames(refuse, sent, s + t) ==
      if p.closed then Parse(p.messages, p.rest + t, true) else Frames(refuse, p.messages, p.rest + t)
    decreases |s|
  {
    hide Frames;
    if |s| < 4 || (ReadInt(s) <= MAX_MESSAGE && |s| < 4 + ReadInt(s)) {
      FramesWait(refuse, sent, s);
    } else {
      var n := ReadInt(s);
      assert ReadInt(s + t) == n;
      if n > MAX_MESSAGE {
        FramesTooLong(refuse, sent, s);
        FramesTooLong(refuse, sent, s + t);
      } else {
        assert (s + t)[4 + n..] == s[4 + n..] + t;
        if n == 0 {
          FramesKeepAlive(refuse, sent, s);
          FramesKeepAlive(refuse, sent, s + t);
          FramesOfConcat(refuse, sent, s[4..], t);
        } else {
          FramesMessage(refuse, sent, s, n);
          FramesMessage(refuse, sent, s + t, n);
          assert (s + t)[4..4 + n] == s[4..4 + n];
          FramesOfConcat(refuse, sent + [s[4..4 + n]], s[4 + n..], t);
        }
      }
    }
  }

  /** Later bytes never retract a message. */
  lemma {:induction false} FramesGrow(refuse: seq<Message> -> bool, sent: seq<Message>, s: seq<byte>)
    ensures sent <= Frames(refuse, sent, s).messages
    decreases |s|
  {
    if |s| >= 4 {
      var n := ReadInt(s);
      if n <= MAX_MESSAGE && |s| >= 4 + n {
        if n == 0 {
          FramesGrow(refuse, sent, s[4..]);
        } else {
          var sent' := sent + [s[4..4 + n]];
          assert sent <= sent';
          FramesGrow(refuse, sent', s[4 + n..]);
        }
      }
    }
  }

  /** What waits for more bytes is less than one maximal message, so it leaves room in the buffer. */
  lemma {:induction false} RestLeavesRoom(refuse: seq<Message> -> bool, sent: seq<Message>, s: seq<byte>)
    requires !Frames(refuse, sent, s).closed
    ensures |Frames(refuse, sent, s).rest| < 4 + MAX_MESSAGE < BUFFER_SIZE
    decreases |s|
  {
    if |s| >= 4 {
      var n := ReadInt(s);
      if |s| >= 4 + n {
        if n == 0 {
          RestLeavesRoom(refuse, sent, s[4..]);
        } else {
          RestLeavesRoom(refuse, sent + [s[4..4 + n]], s[4 + n..]);
        }
      }
    }
  }

  /** The bytes a list of messages takes on the wire. */
  function Encode(ms: seq<Message>): (s: seq<byte>)
    requires forall k :: 0 <= k < |ms| ==> 1 <= |ms[k]| <= MAX_MESSAGE
  {
    if ms == [] then [] else EncodeInt(|ms[0]|) + ms[0] + Encode(ms[1..])
  }

  function EncodeInt(n: nat): (s: seq<byte>)
    requires n < 0x1_0000_0000
    ensures |s| == 4
  {
    [n / 256 / 256 / 256 % 256, n / 256 / 256 % 256, n / 256 % 256, n % 256]
  }

  lemma IntRoundTrip(n: nat)
    requires n < 0x1_0000_0000
    ensures ReadInt(EncodeInt(n)) == n
  {
    var a := n / 256;
    var b := a / 256;
    assert n == 256 * a + n % 256 && a == 256 * b + a % 256 && b == 256 * (b / 256) + b % 256;
  }

  /** The first byte weighs most, both ways. */
  lemma BigEndian(n: nat, s: seq<byte>)
    requires n < 0x1_0000_0000 && |s| >= 4
    ensures EncodeInt(n) == [n / 0x100_0000, n / 0x1_0000 % 256, n / 0x100 % 256, n % 256]
    ensures var a: int, b: int, c: int, d: int := s[0], s[1], s[2], s[3];
      ReadInt(s) == 0x100_0000 * a + 0x1_0000 * b + 0x100 * c + d
  {
  }

  /** A block of 16 KB with its header is dispatched. */
  lemma BlockDispatched(refuse: seq<Message> -> bool, sent: seq<Message>, m: Message)
    requires |m| == 9 + 16384
    ensures Frames(refuse, sent, [0, 0, 64, 9] + m).messages == sent + [m]
  {
    var s: seq<byte> := [0, 0, 64, 9] + m;
    assert s[4..4 + |m|] == m && s[4 + |m|..] == [];
    FramesMessage(refuse, sent, s, |m|);
  }

  /** A length of 32768 is the largest one accepted: the link waits for such a message and is closed for a longer
      one. */
  lemma LongestMessage(refuse: seq<Message> -> bool, sent: seq<Message>)
    ensures Frames(refuse, sent, [0, 0, 128, 0]) == Parse(sent, [0, 0, 128, 0], false)
    ensures Frames(refuse, sent, [0, 0, 128, 1]) == Parse(sent, [0, 0, 128, 1], true)
  {
  }

  lemma EncodeHead(ms: seq<Message>)
    requires ms != [] && forall k :: 0 <= k < |ms| ==> 1 <= |ms[k]| <= MAX_MESSAGE
    ensures var s, n := Encode(ms), |ms[0]|;
      |s| >= 4 + n && ReadInt(s) == n && s[4..4 + n] == ms[0] && s[4 + n..] == Encode(ms[1..])
  {
    var s := Encode(ms);
    IntRoundTrip(|ms[0]|);
    assert s[..4] == EncodeInt(|ms[0]|);
  }

  /** The handler objects to none of the messages `ms` arriving after the history `sent`. */
  predicate Accepts(refuse: seq<Message> -> bool, sent: seq<Message>, ms: seq<Message>)
    decreases |ms|
  {
    ms == [] || (!refuse(sent + [ms[0]]) && Accepts(refuse, sent + [ms[0]], ms[1..]))
  }

  /** A receiver whose handler objects to nothing gets back exactly the messages sent. */
  lemma {:induction false} FramesOfEncode(refuse: seq<Message> -> bool, sent: seq<Message>, ms: seq<Message>)
    requires forall k :: 0 <= k < |ms| ==> 1 <= |ms[k]| <= MAX_MESSAGE
    requires Accepts(refuse, sent, ms)
    ensures Frames(refuse, sent, Encode(ms)) == Parse(sent + ms, [], false)
    decreases |ms|
  {
    hide Frames, Encode, Accepts;
    if ms == [] {
      FramesNone(refuse, sent, ms);
    } else {
      var m, s, sent' := ms[0], Encode(ms), sent + [ms[0]];
      EncodeHead(ms);
      AcceptsHead(refuse, sent, ms);
      FramesMessage(refuse, sent, s, |m|);
      FramesOfEncode(refuse, sent', ms[1..]);
      assert sent' + ms[1..] == sent + ms;
    }
  }

  lemma FramesNone(refuse: seq<Message> -> bool, sent: seq<Message>, ms: seq<Message>)
    requires ms == []
    ensures Frames(refuse, sent, Encode(ms)) == Parse(sent + ms, [], false)
  {
    assert sent + ms == sent;
  }

  lemma AcceptsHead(refuse: seq<Message> -> bool, sent: seq<Message>, ms: seq<Message>)
    requires ms != [] && Accepts(refuse, sent, ms)
    ensures !refuse(sent + [ms[0]]) && Accepts(refuse, sent + [ms[0]], ms[1..])
  {
  }

  /** The receiving half of a peer link in its message phase. */
  class Link {
    const refuse: seq<Message> -> bool
    const ring: RingBuffer
    var canRecv: bool
    var closed: bool
    var dispatched: seq<Message>
    ghost var stream: seq<byte>  // every byte received so far

    /** The link refines the framing of its stream; the buffer holds exactly the unfinished bytes. */
    ghost predicate Valid()
      reads this, ring, ring.d
    {
      ring.Valid() &&
      (ring.Capacity() == 0 || ring.Capacity() == BUFFER_SIZE) &&
      (!closed ==> Frames(refuse, [], stream) == Parse(dispatched, ring.Contents(), false)) &&
      (closed ==> dispatched <= Frames(refuse, [], stream).messages)
    }

    constructor (refuse: seq<Message> -> bool)
      ensures Valid() && fresh(ring) && fresh(ring.d) && !closed && stream == [] && this.refuse == refuse
    {
      this.refuse := refuse;
      ring := new RingBuffer();
      canRecv := false;
      closed := false;
      dispatched := [];
      stream := [];
    }

    /** Reads from the socket until it would block, fails or ends, or the buffer is full.  What the socket
        does is chosen arbitrarily; `got` is what it delivered. */
    method Recv() returns (failed: bool, ghost got: seq<byte>)
      requires ring.Valid() && (ring.Capacity() == 0 || ring.Capacity() == BUFFER_SIZE)
      modifies this`canRecv, this`stream, ring, ring.d
      ensures ring.Valid() && (ring.Capacity() == 0 || ring.Capacity() == BUFFER_SIZE)
      ensures fresh(ring.d) || ring.d == old(ring.d)
      ensures stream == old(stream) + got && ring.Contents() == old(ring.Contents()) + got
      ensures !failed && canRecv ==> |ring.Contents()| == BUFFER_SIZE
    {
      hide RingBuffer.Contents;
      got := [];
      failed := false;
      var size := ring.Size();
      if canRecv && size == 0 {
        ring.Resize(BUFFER_SIZE);
      }
      while canRecv && !failed
        invariant ring.Valid() && (ring.Capacity() == 0 || ring.Capacity() == BUFFER_SIZE)
        invariant canRecv ==> ring.Capacity() == BUFFER_SIZE
        invariant fresh(ring.d) || ring.d == old(ring.d)
        invariant stream == old(stream) + got && ring.Contents() == old(ring.Contents()) + got
        decreases canRecv, !failed, ring.Capacity() - |ring.Contents()|
      {
        var n := ring.CbW();
        if n == 0 {
          return;
        }
        var r: int :| -2 <= r <= n;  // -1: would block, -2: other error, 0: end of stream
        if r <= 0 {
          canRecv, failed := r != -1, r != -1;
        } else {
          var data := SocketData(r);
          canRecv := r == n;
          ring.Put(data);
          stream, got := stream + data, got + data;
        }
      }
    }

    /** Any `r` bytes. */
    method SocketData(r: nat) returns (data: seq<byte>)
      ensures |data| == r
    {
      data := *;
      if |data| != r {
        data := seq(r, _ => 0);
      }
    }

    /** Dispatches all whole messages that do not wrap. */
    method DispatchRun() returns (failed: bool)
      requires ring.Valid()
      modifies this`dispatched, ring
      ensures ring.Valid() && ring.d == old(ring.d) && |ring.Contents()| <= |old(ring.Contents())|
      ensures |ring.Contents()| == |old(ring.Contents())| ==> ring.CbR() == old(ring.CbR())
      ensures failed ==>
        Parse(dispatched, ring.Contents(), true) == Frames(refuse, old(dispatched), old(ring.Contents()))
      ensures !failed ==>
        Frames(refuse, dispatched, ring.Contents()) == Frames(refuse, old(dispatched), old(ring.Contents()))
      ensures !failed && ring.CbR() == |ring.Contents()| ==>
        Frames(refuse, dispatched, ring.Contents()) == Parse(dispatched, ring.Contents(), false)
    {
      hide Frames, RingBuffer.Contents;
      while ring.CbR() >= 4
        invariant ring.Valid() && ring.d == old(ring.d) && |ring.Contents()| <= |old(ring.Contents())|
        invariant |ring.Contents()| == |old(ring.Contents())| ==> ring.CbR() == old(ring.CbR())
        invariant Frames(refuse, dispatched, ring.Contents()) == Frames(refuse, old(dispatched), old(ring.Contents()))
        decreases |ring.Contents()|
      {
        var s := ring.Peek();
        ghost var c := ring.Contents();
        var n := ReadInt(s);
        assert ReadInt(c) == n;
        if n != 0 {
          if n > MAX_MESSAGE {
            FramesTooLong(refuse, dispatched, c);
            return true;
          }
          if |s| < 4 + n {
            if |s| == |c| {
              FramesWait(refuse, dispatched, c);
            }
            return false;
          }
          var m := s[4..4 + n];
          assert m == c[4..4 + n];
          FramesMessage(refuse, dispatched, c, n);
          ring.Consume(4 + n);
          dispatched := dispatched + [m];
          if refuse(dispatched) {
            return true;
          }
        } else {
          FramesKeepAlive(refuse, dispatched, c);
          ring.Consume(4);
        }
      }
      if ring.CbR() == |ring.Contents()| {
        FramesWait(refuse, dispatched, ring.Contents());
      }
      return false;
    }

    /** Dispatches all whole messages in the buffer, making it contiguous when one wraps. */
    method Dispatch() returns (failed: bool)
      requires ring.Valid() && (ring.Capacity() == 0 || ring.Capacity() == BUFFER_SIZE)
      modifies this`dispatched, ring, ring.d
      ensures ring.Valid() && (ring.Capacity() == 0 || ring.Capacity() == BUFFER_SIZE)
      ensures fresh(ring.d) || ring.d == old(ring.d)
      ensures Parse(dispatched, ring.Contents(), failed) == Frames(refuse, old(dispatched), old(ring.Contents()))
    {
      hide Frames, RingBuffer.Contents;
      while true
        invariant ring.Valid() && ring.d == old(ring.d)
        invariant Frames(refuse, dispatched, ring.Contents()) == Frames(refuse, old(dispatched), old(ring.Contents()))
        decreases |ring.Contents()|, if ring.CbR() == |ring.Contents()| then 0 else 1
      {
        failed := DispatchRun();
        if failed {
          return;
        }
        var all := ring.CbRead();
        if ring.CbR() == all {
          break;
        }
        ring.Combine();
      }
      if ring.CbR() == 0 {
        ring.Resize(0);
      }
    }

    /** One readiness event of the socket.  Main result: whatever the chunking and the wrapping, the
        messages dispatched over a run are those of the framed stream; and an open link always has room
        for the next byte, so it never stalls. */
    method PostSelect(readable: bool)
      requires Valid() && !closed
      modifies this`canRecv, this`closed, this`dispatched, this`stream, ring, ring.d
      ensures Valid()
      ensures fresh(ring.d) || ring.d == old(ring.d)
      ensures old(stream) <= stream && old(dispatched) <= dispatched
      ensures !closed ==> ring.Capacity() == 0 || |ring.Contents()| + 1021 <= ring.Capacity()
    {
      hide Frames, RingBuffer.Contents;
      if readable {
        canRecv := true;
      }
      ghost var s0, m0, c0 := stream, dispatched, ring.Contents();
      if canRecv {
        var failed, got := Recv();
        FramesOfConcat(refuse, [], s0, got);
        FramesGrow(refuse, m0, c0 + got);
        if failed {
          closed := true;
          return;
        }
        closed := Dispatch();
      }
      if !closed {
        RestLeavesRoom(refuse, [], stream);
      }
    }
  }
}
