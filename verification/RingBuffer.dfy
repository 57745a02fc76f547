/** The byte ring buffer of a peer link: a bounded FIFO stored with wrap-around in one array. */
module RingBuffers {
  import opened Basics

  class RingBuffer {
    var d: array<byte>  // one byte longer than the capacity; empty while no buffer is allocated
    var r: nat
    var w: nat

    ghost predicate Valid()
      reads this
    {
      if d.Length == 0 then r == 0 && w == 0 else d.Length >= 2 && r < d.Length && w < d.Length
    }

    /** The bytes waiting to be read, oldest first. */
    ghost function Contents(): (s: seq<byte>)
      reads this, d
      requires Valid()
    {
      if r <= w then d[r..w] else d[r..] + d[..w]
    }

    ghost function Capacity(): (n: nat)
      reads this
    {
      if d.Length == 0 then 0 else d.Length - 1
    }

    constructor ()
      ensures Valid() && fresh(d) && Capacity() == 0 && Contents() == []
    {
      d := new byte[0];
      r, w := 0, 0;
    }

    /** Allocates an empty buffer, or releases it. */
    method Resize(capacity: nat)
      modifies this
      ensures Valid() && fresh(d) && Capacity() == capacity && Contents() == []
    {
      if capacity != 0 {
        d := new byte[capacity + 1](_ => 0);
      } else {
        d := new byte[0];
      }
      r, w := 0, 0;
    }

    method Size() returns (n: nat)
      requires Valid()
      ensures n == Capacity() && (n == 0 ==> Contents() == [])
    {
      n := if d.Length == 0 then 0 else d.Length - 1;
    }

    /** Number of bytes readable without wrapping. */
    function CbR(): (n: nat)
      reads this
      requires Valid()
    {
      if r <= w then w - r else d.Length - r
    }

    /** The readable bytes up to the wrap: a prefix of the contents, empty only if the buffer is. */
    method Peek() returns (s: seq<byte>)
      requires Valid()
      ensures s <= Contents() && |s| == CbR() && |Contents()| <= Capacity()
      ensures s == [] || r <= w ==> s == Contents()
    {
      s := if r <= w then d[r..w] else d[r..];
    }

    method CbRead() returns (n: nat)
      requires Valid()
      ensures n == |Contents()|
    {
      n := if r <= w then w - r else d.Length - r + w;
    }

    /** The room left before the wrap or before the read cursor. */
    ghost function Room(): int
      reads this
      requires Valid()
    {
      if d.Length == 0 then 0
      else if r <= w then (if r == 0 then d.Length - 1 else d.Length) - w
      else r - 1 - w
    }

    /** Number of bytes writable without wrapping; zero exactly when the buffer is full. */
    method CbW() returns (n: nat)
      requires Valid()
      ensures n == Room() && n <= Capacity() - |Contents()|
      ensures n == 0 <==> |Contents()| == Capacity()
    {
      n := if d.Length == 0 then 0
           else if r <= w then (if r == 0 then d.Length - 1 else d.Length) - w
           else r - 1 - w;
    }

    method CbWrite() returns (n: nat)
      requires Valid()
      ensures |Contents()| + n == Capacity()
    {
      n := if d.Length == 0 then 0 else if r <= w then d.Length - w + r - 1 else r - w - 1;
    }

    /** Copies bytes to the write cursor and advances it. */
    method Put(s: seq<byte>)
      requires Valid() && |s| <= Room()
      modifies `w, d
      ensures Valid() && d == old(d)
      ensures Contents() == old(Contents()) + s
      ensures w == if old(w) + |s| == d.Length then 0 else old(w) + |s|
    {
      forall k | 0 <= k < |s| {
        d[w + k] := s[k];
      }
      if r <= w {
        assert d[r..w + |s|] == old(d[r..w]) + s;
      } else {
        assert d[r..] == old(d[r..]);
        assert d[..w + |s|] == old(d[..w]) + s;
      }
      w := w + |s|;
      if w == d.Length {
        w := 0;
      }
    }

    /** Appends a byte string, in two parts if it wraps. */
    method Write(s: seq<byte>)
      requires Valid() && |Contents()| + |s| <= Capacity()
      modifies `w, d
      ensures Valid() && d == old(d)
      ensures Contents() == old(Contents()) + s
    {
      var n := CbW();
      var cb := if |s| < n then |s| else n;
      ghost var was := Contents();
      Put(s[..cb]);
      var rest := s[cb..];
      Joined(was, s, cb);
      if |rest| != 0 {
        Put(rest);
      }
    }

    lemma Joined(was: seq<byte>, s: seq<byte>, cb: nat)
      requires cb <= |s|
      ensures was + s[..cb] + s[cb..] == was + s && (s[cb..] == [] ==> was + s[..cb] == was + s)
    {
      assert s == s[..cb] + s[cb..];
    }

    /** Advances the read cursor over bytes that do not wrap. */
    method Consume(v: nat)
      requires Valid() && v <= CbR()
      modifies `r, `w
      ensures Valid() && v <= |old(Contents())|
      ensures Contents() == old(Contents())[v..]
      ensures v == old(CbR()) ==> r <= w
    {
      r := r + v;
      if r == d.Length {
        r := 0;
      }
      if r == w {
        r, w := 0, 0;
      }
    }

    /** Takes everything out, in two parts if it wraps. */
    method Drain() returns (s: seq<byte>)
      requires Valid()
      modifies `r, `w
      ensures Valid() && s == old(Contents()) && |s| <= Capacity()
    {
      hide Contents;
      ghost var all := Contents();
      var s0 := Peek();
      Consume(|s0|);
      var s1 := Peek();
      Consume(|s1|);
      s := s0 + s1;
      assert s == all;
    }

    /** Makes the contents contiguous without changing them. */
    method Combine()
      requires Valid()
      modifies `r, `w, d
      ensures Valid() && d == old(d)
      ensures Contents() == old(Contents()) && CbR() == |Contents()|
    {
      var s := Drain();
      forall k | 0 <= k < |s| {
        d[k] := s[k];
      }
      r := 0;
      w := |s|;
    }
  }
}
