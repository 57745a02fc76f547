/** SHA-1 as specified in sections 4 and 6.1 of RFC 3174, and the context that computes it piecemeal. */
module Sha1 {
  import opened Basics

  const WORD := 0x1_0000_0000

  /** The five words of an intermediate hash. */
  datatype State = State(a: bv32, b: bv32, c: bv32, d: bv32, e: bv32)

  const INITIAL := State(0x67452301, 0xEFCDAB89, 0x98BADCFE, 0x10325476, 0xC3D2E1F0)

  // The specification.

  function Rotl(n: nat, x: bv32): bv32
    requires 0 < n < 32
  {
    (x << n) | (x >> (32 - n))
  }

  function Word(block: seq<byte>, t: nat): bv32
    requires |block| == 64 && t < 16
  {
    (block[4 * t] as bv32 << 24) | (block[4 * t + 1] as bv32 << 16) |
    (block[4 * t + 2] as bv32 << 8) | (block[4 * t + 3] as bv32)
  }

  function Mix(p: bv32, q: bv32, r: bv32, s: bv32): bv32 {
    Rotl(1, p ^ q ^ r ^ s)
  }

  /** Word `t` of the message schedule. */
  function W(block: seq<byte>, t: nat): bv32
    requires |block| == 64
  {
    if t < 16 then Word(block, t) else Mix(W(block, t - 3), W(block, t - 8), W(block, t - 14), W(block, t - 16))
  }

  function Choice(b: bv32, c: bv32, d: bv32): bv32 {
    (b & c) | (!b & d)
  }

  function Parity(b: bv32, c: bv32, d: bv32): bv32 {
    b ^ c ^ d
  }

  function Majority(b: bv32, c: bv32, d: bv32): bv32 {
    (b & c) | (b & d) | (c & d)
  }

  /** In every bit that `m` has, `x` and `y` are the same. */
  predicate Agree(x: bv32, y: bv32, m: bv32) {
    x & m == y & m
  }

  /** Every bit is that of `c` where `b` has a one, and that of `d` where it has a zero. */
  lemma ChoiceBits(b: bv32, c: bv32, d: bv32)
    ensures Agree(Choice(b, c, d), c, b) && Agree(Choice(b, c, d), d, !b)
  {
  }

  /** Where two agree they have the majority. */
  lemma MajorityAgreed(b: bv32, c: bv32, d: bv32)
    ensures Agree(Majority(b, c, d), b, !(b ^ c))
  {
  }

  /** Where two differ the third one decides. */
  lemma MajorityDecided(b: bv32, c: bv32, d: bv32)
    ensures Agree(Majority(b, c, d), d, b ^ c)
  {
  }

  function F(t: nat, b: bv32, c: bv32, d: bv32): bv32 {
    if t < 20 then Choice(b, c, d) else if 40 <= t < 60 then Majority(b, c, d) else Parity(b, c, d)
  }

  function K(t: nat): bv32 {
    if t < 20 then 0x5A827999 else if t < 40 then 0x6ED9EBA1 else if t < 60 then 0x8F1BBCDC else 0xCA62C1D6
  }

  function Temp(a: bv32, f: bv32, e: bv32, w: bv32, k: bv32): bv32 {
    Rotl(5, a) + f + e + w + k
  }

  function Step(s: State, t: nat, w: bv32): State {
    State(Temp(s.a, F(t, s.b, s.c, s.d), s.e, w, K(t)), s.a, Rotl(30, s.b), s.c, s.d)
  }

  /** The working variables after `n` steps. */
  function Steps(s: State, block: seq<byte>, n: nat): State
    requires |block| == 64
  {
    if n == 0 then s else Step(Steps(s, block, n - 1), n - 1, W(block, n - 1))
  }

  function Add(s: State, t: State): State {
    State(s.a + t.a, s.b + t.b, s.c + t.c, s.d + t.d, s.e + t.e)
  }

  /** One 512-bit block. */
  function Process(h: State, block: seq<byte>): State
    requires |block| == 64
  {
    Add(h, Steps(h, block, 80))
  }

  /** All blocks of a padded message. */
  function Blocks(h: State, s: seq<byte>): State
    requires |s| % 64 == 0
    decreases |s|
  {
    if s == [] then h else Blocks(Process(h, s[..64]), s[64..])
  }

  /** Four bytes, most significant first. */
  function Be32(x: nat): (s: seq<byte>)
    ensures |s| == 4
  {
    [x / 0x100_0000 % 256, x / 0x1_0000 % 256, x / 0x100 % 256, x % 256]
  }

  /** Zero bytes that fill up to 8 bytes before the end of a block. */
  function ZeroBytes(n: nat): (z: nat)
    ensures (n + 1 + z + 8) % 64 == 0 && z < 64
  {
    if n % 64 <= 55 then 55 - n % 64 else 119 - n % 64
  }

  /** A one bit, zeros up to 8 bytes before the end of a block, and the length in bits. */
  function Padding(n: nat): (s: seq<byte>)
    ensures (n + |s|) % 64 == 0
  {
    [0x80] + Zeros(ZeroBytes(n)) + Be32(8 * n / WORD % WORD) + Be32(8 * n % WORD)
  }

  function Digest(message: seq<byte>): State {
    Blocks(INITIAL, message + Padding(|message|))
  }

  function WordAt(h: State, k: nat): bv32
    requires k < 5
  {
    if k == 0 then h.a else if k == 1 then h.b else if k == 2 then h.c else if k == 3 then h.d else h.e
  }

  /** Byte `j` of a word, the most significant one first. */
  function Octet(w: bv32, j: nat): bv32
    requires j < 4
  {
    (if j == 0 then w >> 24 else if j == 1 then w >> 16 else if j == 2 then w >> 8 else w) & 0xff
  }

  /** Byte `i` of the digest. */
  function DigestByte(h: State, i: nat): bv32
    requires i < 20
  {
    Octet(WordAt(h, i / 4), i % 4)
  }

  lemma OctetsOf(w: bv32)
    ensures w == (Octet(w, 0) << 24) | (Octet(w, 1) << 16) | (Octet(w, 2) << 8) | Octet(w, 3)
  {
  }

  /** The bytes of the digest are those of its five words, most significant first. */
  lemma DigestBytes(h: State, k: nat)
    requires k < 5
    ensures WordAt(h, k) ==
      (DigestByte(h, 4 * k) << 24) | (DigestByte(h, 4 * k + 1) << 16) |
      (DigestByte(h, 4 * k + 2) << 8) | DigestByte(h, 4 * k + 3)
  {
    hide Octet, WordAt;
    OctetsOf(WordAt(h, k));
    assert 4 * k / 4 == (4 * k + 1) / 4 == (4 * k + 2) / 4 == (4 * k + 3) / 4 == k;
  }

  // Lemmas about blocks.

  lemma {:induction false} BlocksAppend(h: State, s: seq<byte>, b: seq<byte>)
    requires |s| % 64 == 0 && |b| == 64
    ensures Blocks(h, s + b) == Process(Blocks(h, s), b)
    decreases |s|
  {
    hide Process;
    if s == [] {
      assert s + b == b && b[..64] == b && b[64..] == [];
    } else {
      assert (s + b)[..64] == s[..64] && (s + b)[64..] == s[64..] + b;
      BlocksAppend(Process(h, s[..64]), s[64..], b);
    }
  }

  /** The part of a message that fills whole blocks, and the rest. */
  function Whole(s: seq<byte>): (r: seq<byte>)
    ensures |r| == |s| - |s| % 64 && |r| % 64 == 0
  {
    s[..|s| - |s| % 64]
  }

  function Rest(s: seq<byte>): (r: seq<byte>)
    ensures |r| == |s| % 64
  {
    s[|s| - |s| % 64..]
  }

  lemma OneMore(s: seq<byte>, x: byte)
    ensures |s| % 64 < 63 ==> Whole(s + [x]) == Whole(s) && Rest(s + [x]) == Rest(s) + [x]
    ensures |s| % 64 == 63 ==> Whole(s + [x]) == Whole(s) + (Rest(s) + [x]) && Rest(s + [x]) == []
  {
    assert s == Whole(s) + Rest(s);
  }

  // One block, as the program computes it.

  method Schedule(block: seq<byte>) returns (w: seq<bv32>)
    requires |block| == 64
    ensures |w| == 80 && forall t :: 0 <= t < 80 ==> w[t] == W(block, t)
  {
    hide Word, Mix;
    w := [];
    var t := 0;
    while t < 16
      invariant 0 <= t <= 16 && |w| == t && forall j :: 0 <= j < t ==> w[j] == W(block, j)
    {
      w := w + [Word(block, t)];
      t := t + 1;
    }
    while t < 80
      invariant 16 <= t <= 80 && |w| == t && forall j :: 0 <= j < t ==> w[j] == W(block, j)
    {
      w := w + [Mix(w[t - 3], w[t - 8], w[t - 14], w[t - 16])];
      t := t + 1;
    }
  }

  /** Twenty steps with the same logical function and constant. */
  method Twenty(h: State, block: seq<byte>, w: seq<bv32>, start: nat, s0: State) returns (s: State)
    requires |block| == 64 && |w| == 80 && (forall t :: 0 <= t < 80 ==> w[t] == W(block, t))
    requires start in {0, 20, 40, 60} && s0 == Steps(h, block, start)
    ensures s == Steps(h, block, start + 20)
  {
    hide W, Rotl, Temp, Choice, Parity, Majority, K;
    var a, b, c, d, e := s0.a, s0.b, s0.c, s0.d, s0.e;
    var k := K(start);
    var t := start;
    while t < start + 20
      invariant start <= t <= start + 20 && State(a, b, c, d, e) == Steps(h, block, t)
    {
      var f := if start == 0 then Choice(b, c, d) else if start == 40 then Majority(b, c, d) else Parity(b, c, d);
      SameConstant(start, t);
      e, d, c, b, a := d, c, Rotl(30, b), a, Temp(a, f, e, w[t], k);
      t := t + 1;
    }
    s := State(a, b, c, d, e);
  }

  lemma SameConstant(start: nat, t: nat)
    requires start in {0, 20, 40, 60} && start <= t < start + 20
    ensures K(t) == K(start)
  {
  }

  method ProcessMessageBlock(h: State, block: seq<byte>) returns (r: State)
    requires |block| == 64
    ensures r == Process(h, block)
  {
    hide W, Steps, Add;
    var w := Schedule(block);
    StepsZero(h, block);
    var s := Twenty(h, block, w, 0, h);
    s := Twenty(h, block, w, 20, s);
    s := Twenty(h, block, w, 40, s);
    s := Twenty(h, block, w, 60, s);
    r := Add(h, s);
  }

  lemma StepsZero(h: State, block: seq<byte>)
    requires |block| == 64
    ensures Steps(h, block, 0) == h
  {
  }

  const SUCCESS := 0
  const STATE_ERROR := 3

  /** A message has to be shorter than 2^64 bits. */
  predicate Fits(n: nat) {
    8 * n < WORD * WORD
  }

  lemma NextLength(n: nat)
    requires Fits(n)
    ensures var low, high := 8 * n % WORD, 8 * n / WORD;
      high < WORD && (Fits(n + 1) <==> !(low + 8 == WORD && high + 1 == WORD)) &&
      (low + 8 < WORD ==> 8 * (n + 1) % WORD == low + 8 && 8 * (n + 1) / WORD == high) &&
      (low + 8 >= WORD ==> low + 8 == WORD && 8 * (n + 1) % WORD == 0 && 8 * (n + 1) / WORD == high + 1)
  {
  }

  lemma Regroup(w: seq<byte>, rest: seq<byte>, one: seq<byte>, zeros: seq<byte>, high: seq<byte>, low: seq<byte>)
    ensures (w + rest) + (one + zeros + high + low) == w + (rest + one + zeros + (high + low))
  {
  }

  lemma RegroupTwo(w: seq<byte>, rest: seq<byte>, one: seq<byte>, some: seq<byte>, more: seq<byte>, len: seq<byte>)
    ensures w + (rest + one + (some + more) + len) == w + (rest + one + some) + (more + len)
  {
  }

  lemma PaddedShape(m: seq<byte>, len: seq<byte>)
    requires len == Be32(8 * |m| / WORD % WORD) + Be32(8 * |m| % WORD)
    ensures m + Padding(|m|) == Whole(m) + (Rest(m) + [0x80] + Zeros(ZeroBytes(|m|)) + len)
  {
    hide Be32, Zeros;
    assert m == Whole(m) + Rest(m);
    Regroup(Whole(m), Rest(m), [0x80], Zeros(ZeroBytes(|m|)), Be32(8 * |m| / WORD % WORD), Be32(8 * |m| % WORD));
  }

  /** The padded message in blocks: one more block if the rest leaves room for the length, else two. */
  lemma DigestBlocks(m: seq<byte>, len: seq<byte>)
    requires len == Be32(8 * |m| / WORD % WORD) + Be32(8 * |m| % WORD)
    ensures var h, r := Blocks(INITIAL, Whole(m)), |m| % 64;
      Digest(m) ==
      if r <= 55 then Process(h, Rest(m) + [0x80] + Zeros(55 - r) + len)
      else Process(Process(h, Rest(m) + [0x80] + Zeros(63 - r)), Zeros(56) + len)
  {
    hide Blocks, Process, Be32, Whole, Rest, Padding, Zeros;
    PaddedShape(m, len);
    if |m| % 64 <= 55 {
      BlocksAppend(INITIAL, Whole(m), Rest(m) + [0x80] + Zeros(55 - |m| % 64) + len);
    } else {
      TwoBlocks(Whole(m), Rest(m), len);
    }
  }

  lemma TwoBlocks(w: seq<byte>, rest: seq<byte>, len: seq<byte>)
    requires |w| % 64 == 0 && 55 < |rest| < 64 && |len| == 8
    ensures Blocks(INITIAL, w + (rest + [0x80] + Zeros(119 - |rest|) + len))
         == Process(Process(Blocks(INITIAL, w), rest + [0x80] + Zeros(63 - |rest|)), Zeros(56) + len)
  {
    hide Blocks, Process, Zeros;
    var b, c := rest + [0x80] + Zeros(63 - |rest|), Zeros(56) + len;
    ZerosSplit(63 - |rest|, 56);
    RegroupTwo(w, rest, [0x80], Zeros(63 - |rest|), Zeros(56), len);
    AppendTwo(w, b, c);
  }

  lemma ZerosSplit(a: nat, b: nat)
    ensures Zeros(a + b) == Zeros(a) + Zeros(b)
  {
  }

  lemma AppendTwo(w: seq<byte>, b: seq<byte>, c: seq<byte>)
    requires |w| % 64 == 0 && |b| == 64 && |c| == 64
    ensures Blocks(INITIAL, w + b + c) == Process(Process(Blocks(INITIAL, w), b), c)
  {
    hide Blocks, Process;
    BlocksAppend(INITIAL, w, b);
    assert |w + b| % 64 == 0;
    BlocksAppend(INITIAL, w + b, c);
  }

  lemma EmptyStart()
    ensures Whole([]) == [] && Rest([]) == [] && Blocks(INITIAL, []) == INITIAL
  {
  }

  class Context {
    const block: array<byte>
    var index: nat
    var lengthLow: nat
    var lengthHigh: nat
    var hash: State
    var computed: bool
    var corrupted: int
    ghost var message: seq<byte>  // everything put in so far

    /** While a message is being put in: the hash covers its whole blocks, the buffer holds the rest, and the two
        length words its length in bits. */
    ghost predicate Open()
      reads this, block
    {
      block.Length == 64 && corrupted == 0 && !computed && Fits(|message|) &&
      index == |message| % 64 && block[..index] == Rest(message) && hash == Blocks(INITIAL, Whole(message)) &&
      lengthLow == 8 * |message| % WORD && lengthHigh == 8 * |message| / WORD
    }

    /** After the digest has been computed. */
    ghost predicate Closed()
      reads this
    {
      block.Length == 64 && corrupted == 0 && computed && hash == Digest(message)
    }

    constructor ()
      ensures Open() && fresh(block) && message == []
    {
      hide Blocks, Whole, Rest;
      block := new byte[64](_ => 0);
      index, lengthLow, lengthHigh := 0, 0, 0;
      hash := INITIAL;
      computed, corrupted := false, 0;
      message := [];
      new;
      EmptyStart();
      assert block[..0] == [];
    }

    /** Puts one byte in; reports a message that has become too long. */
    method AddByte(x: byte)
      requires Open()
      modifies this, block
      ensures message == old(message) + [x]
      ensures if Fits(|message|) then Open() else corrupted == 1 && !computed && block.Length == 64
    {
      hide Blocks, Process, Whole, Rest, Fits;
      ghost var m := message;
      OneMore(m, x);
      CountByte();
      StoreByte(x);
      message := m + [x];
      if index == 64 {
        BlocksAppend(INITIAL, Whole(m), Rest(m) + [x]);
        assert block[..64] == block[..];
        hash := ProcessMessageBlock(hash, block[..]);
        index := 0;
        assert block[..0] == [];
      }
    }

    method StoreByte(x: byte)
      requires block.Length == 64 && index < 64
      modifies this`index, block
      ensures index == old(index) + 1 && block[..index] == old(block[..index]) + [x]
    {
      block[index] := x;
      index := index + 1;
    }

    /** Advances the 64-bit length, kept in two words, by one byte. */
    method CountByte()
      requires Fits(|message|) && corrupted == 0 && lengthLow == 8 * |message| % WORD &&
        lengthHigh == 8 * |message| / WORD
      modifies this`lengthLow, this`lengthHigh, this`corrupted
      ensures if Fits(|message| + 1)
              then corrupted == 0 && lengthLow == 8 * (|message| + 1) % WORD && lengthHigh == 8 * (|message| + 1) / WORD
              else corrupted == 1
    {
      NextLength(|message|);
      lengthLow := (lengthLow + 8) % WORD;
      if lengthLow == 0 {
        lengthHigh := (lengthHigh + 1) % WORD;
        if lengthHigh == 0 {
          corrupted := 1;
        }
      }
    }

    /** Puts a chunk of the message in.  However a message is cut into chunks, the context ends up the same; too
        long a message and input after the digest are detected. */
    method Input(data: seq<byte>) returns (rc: int)
      requires Open() || Closed() || (corrupted != 0 && block.Length == 64)
      modifies this, block
      ensures data == [] ==>
        rc == SUCCESS && hash == old(hash) && message == old(message) &&
        corrupted == old(corrupted) && computed == old(computed)
      ensures data == [] && old(Open()) ==> Open()
      ensures data != [] && old(Open()) ==> rc == SUCCESS
      ensures data != [] && old(Open()) && Fits(|old(message)| + |data|) ==> Open() && message == old(message) + data
      ensures data != [] && old(Open()) && !Fits(|old(message)| + |data|) ==> corrupted != 0
      ensures data != [] && old(Closed()) ==> rc == STATE_ERROR && corrupted != 0
      ensures data != [] && old(corrupted) != 0 ==> rc != SUCCESS && corrupted != 0
    {
      if |data| == 0 {
        return SUCCESS;
      }
      if computed {
        corrupted := STATE_ERROR;
        return STATE_ERROR;
      }
      if corrupted != 0 {
        return corrupted;
      }
      hide Blocks, Whole, Rest;
      var k := 0;
      while k < |data| && corrupted == 0
        invariant 0 <= k <= |data| && message == old(message) + data[..k]
        invariant if corrupted == 0 then Open() else !Fits(|message|)
      {
        AddByte(data[k]);
        assert data[..k + 1] == data[..k] + [data[k]];
        k := k + 1;
      }
      assert k == |data| ==> data[..k] == data;
      rc := SUCCESS;
    }
  
    method FillZeros(limit: nat)
      requires block.Length == 64 && index <= limit <= 64
      modifies this`index, block
      ensures index == limit && block[..index] == old(block[..index]) + Zeros(limit - old(index))
    {
      ghost var b0, i0 := block[..index], index;
      while index < limit
        invariant i0 <= index <= limit && block[..index] == b0 + Zeros(index - i0)
      {
        assert Zeros(index - i0) + [0] == Zeros(index + 1 - i0);
        StoreByte(0);
      }
    }

    method ProcessFull()
      requires block.Length == 64 && index == 64
      modifies this`hash, this`index
      ensures index == 0 && hash == Process(old(hash), block[..])
    {
      hash := ProcessMessageBlock(hash, block[..]);
      index := 0;
    }

    /** Writes the length into the last 8 bytes of the block and processes it. */
    method Seal()
      requires block.Length == 64 && index == 56
      modifies this`hash, this`index, block
      ensures index == 0 && hash == Process(old(hash), old(block[..56]) + (Be32(lengthHigh) + Be32(lengthLow)))
    {
      hide Process, Blocks;
      ghost var b := block[..56];
      var hi, lo := Be32(lengthHigh), Be32(lengthLow);
      block[56], block[57], block[58], block[59] := hi[0], hi[1], hi[2], hi[3];
      block[60], block[61], block[62], block[63] := lo[0], lo[1], lo[2], lo[3];
      index := 64;
      assert block[..] == b + (hi + lo);
      ProcessFull();
    }

    /** Appends the padding and processes the last one or two blocks; the index stays in the block throughout. */
    method PadMessage()
      requires Open()
      modifies this`hash, this`index, block
      ensures hash == Digest(message)
    {
      hide Blocks, Process, Digest, Whole, Rest, Zeros, Be32, Fits;
      ghost var r, h := Rest(message), hash;
      HighWord(|message|);
      DigestBlocks(message, Be32(lengthHigh) + Be32(lengthLow));
      if index > 55 {
        StoreByte(0x80);
        FillZeros(64);
        assert block[..64] == block[..];
        ProcessFull();
        assert block[..0] == [];
        FillZeros(56);
        assert [] + Zeros(56) == Zeros(56);
      } else {
        StoreByte(0x80);
        FillZeros(56);
      }
      Seal();
    }

    lemma HighWord(n: nat)
      requires Fits(n)
      ensures 8 * n / WORD % WORD == 8 * n / WORD
    {
    }

    /** The digest of everything put in; asking again gives it again.  Main result: for every message and every way
        of cutting it into chunks this is the digest the specification prescribes. */
    method Result() returns (rc: int, digest: seq<bv32>)
      requires Open() || Closed() || (corrupted != 0 && block.Length == 64)
      modifies this, block
      ensures old(corrupted) != 0 ==> rc == old(corrupted) && corrupted == old(corrupted)
      ensures old(corrupted) == 0 ==> rc == SUCCESS && Closed() && message == old(message)
      ensures rc == SUCCESS && old(corrupted) == 0 ==>
        |digest| == 20 && forall k :: 0 <= k < 20 ==> digest[k] == DigestByte(Digest(message), k)
    {
      hide Digest, Blocks, Whole, Rest, DigestByte;
      if corrupted != 0 {
        return corrupted, [];
      }
      if !computed {
        PadMessage();
        Clear();
        lengthLow, lengthHigh := 0, 0;
        computed := true;
      }
      digest := [];
      var k := 0;
      var h := hash;
      while k < 20
        invariant 0 <= k <= 20 && |digest| == k && forall j :: 0 <= j < k ==> digest[j] == DigestByte(h, j)
      {
        digest := digest + [DigestByte(h, k)];
        k := k + 1;
      }
      rc := SUCCESS;
    }

    method Clear()
      requires block.Length == 64
      modifies block
      ensures forall k :: 0 <= k < 64 ==> block[k] == 0
    {
      var k := 0;
      while k < 64
        invariant 0 <= k <= 64 && forall j :: 0 <= j < k ==> block[j] == 0
      {
        block[k] := 0;
        k := k + 1;
      }
    }
  }
}
