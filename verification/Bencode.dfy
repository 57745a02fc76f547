/** Bencoded values: printing, parsing, and the size computed beforehand. */
module Bencode {
  import opened Basics

  const COLON: byte := 58
  const MINUS: byte := 45
  const PLUS: byte := 43
  const ZERO: byte := 48
  const CH_D: byte := 100
  const CH_E: byte := 101
  const CH_I: byte := 105
  const CH_L: byte := 108

  const MAX_INT := 0x7fff_ffff
  const MAX_LONG := 0x7fff_ffff_ffff_ffff

  /** A dictionary is kept in the order of its keys. */
  datatype Value = Int(i: int) | Str(s: seq<byte>) | List(l: seq<Value>) | Dict(d: seq<Entry>)
  datatype Entry = Entry(key: seq<byte>, value: Value)

  /** `Short` if the input ends inside a length, a number, a list or a dictionary, `Bad` if it fails otherwise. */
  datatype Result = Ok(value: Value, rest: seq<byte>) | Bad | Short | Throws

  /** Order of strings: byte by byte, a proper prefix first. */
  predicate Less(a: seq<byte>, b: seq<byte>)
    decreases |a|
  {
    b != [] && (a == [] || a[0] < b[0] || (a[0] == b[0] && Less(a[1..], b[1..])))
  }

  lemma {:induction false} LessAsym(a: seq<byte>, b: seq<byte>)
    requires Less(a, b)
    ensures a != b && !Less(b, a)
    decreases |a|
  {
    if a != [] && a[0] == b[0] { LessAsym(a[1..], b[1..]); }
  }

  lemma {:induction false} LessTrans(a: seq<byte>, b: seq<byte>, c: seq<byte>)
    requires Less(a, b) && Less(b, c)
    ensures Less(a, c)
    decreases |a|
  {
    if a != [] && a[0] == b[0] && b[0] == c[0] { LessTrans(a[1..], b[1..], c[1..]); }
  }

  lemma {:induction false} LessTotal(a: seq<byte>, b: seq<byte>)
    ensures a == b || Less(a, b) || Less(b, a)
    decreases |a|
  {
    if a != [] && b != [] && a[0] == b[0] {
      LessTotal(a[1..], b[1..]);
      assert a == [a[0]] + a[1..] && b == [b[0]] + b[1..];
    }
  }

  /** Up to `k` both are the same; there `a` ends, or has the smaller byte. */
  predicate DiffersAt(a: seq<byte>, b: seq<byte>, k: nat) {
    k <= |a| && k < |b| && a[..k] == b[..k] && (k == |a| || a[k] < b[k])
  }

  /** The order is decided at the first difference. */
  lemma {:induction false} LessMeans(a: seq<byte>, b: seq<byte>)
    ensures Less(a, b) <==> exists k: nat :: DiffersAt(a, b, k)
    decreases |a|
  {
    if a != [] && b != [] && a[0] == b[0] {
      LessMeans(a[1..], b[1..]);
      if Less(a, b) {
        var k: nat :| DiffersAt(a[1..], b[1..], k);
        assert a[..k + 1] == [a[0]] + a[1..][..k] && b[..k + 1] == [b[0]] + b[1..][..k];
        assert DiffersAt(a, b, k + 1);
      }
      forall k: nat | DiffersAt(a, b, k) ensures Less(a, b) {
        assert k > 0;
        assert a[1..][..k - 1] == a[..k][1..] && b[1..][..k - 1] == b[..k][1..];
        assert DiffersAt(a[1..], b[1..], k - 1);
      }
    } else {
      if Less(a, b) {
        assert DiffersAt(a, b, 0);
      }
      forall k: nat | DiffersAt(a, b, k) ensures Less(a, b) {
        assert k == 0;
      }
    }
  }

  predicate Sorted(d: seq<Entry>) {
    forall j, k :: 0 <= j < k < |d| ==> Less(d[j].key, d[k].key)
  }

  /** Values the program can hold: 64-bit integers, strings whose length is an int, ordered dictionaries. */
  predicate WellFormed(v: Value)
    decreases v
  {
    match v
    case Int(i) => -MAX_LONG - 1 <= i <= MAX_LONG
    case Str(s) => |s| <= MAX_INT
    case List(l) => forall k :: 0 <= k < |l| ==> WellFormed(l[k])
    case Dict(d) => Sorted(d) && forall k :: 0 <= k < |d| ==> |d[k].key| <= MAX_INT && WellFormed(d[k].value)
  }

  function Digits(n: nat): (s: seq<byte>)
    ensures s != [] && forall k :: 0 <= k < |s| ==> IsDigit(s[k])
  {
    if n < 10 then [ZERO + n] else Digits(n / 10) + [ZERO + n % 10]
  }

  predicate IsDigit(c: byte) {
    48 <= c <= 57
  }

  /** `n` in decimal. */
  function Decimal(n: int): (s: seq<byte>)
    ensures s != []
  {
    if n < 0 then [MINUS] + Digits(-n) else Digits(n)
  }

  function Print(v: Value): (s: seq<byte>)
    decreases v, 1
  {
    match v
    case Int(i) => [CH_I] + Decimal(i) + [CH_E]
    case Str(s) => PrintString(s)
    case List(l) => [CH_L] + PrintList(l) + [CH_E]
    case Dict(d) => [CH_D] + PrintDict(d) + [CH_E]
  }

  function PrintString(s: seq<byte>): seq<byte> {
    Decimal(|s|) + [COLON] + s
  }

  function PrintList(l: seq<Value>): seq<byte>
    decreases l, 0
  {
    if l == [] then [] else Print(l[0]) + PrintList(l[1..])
  }

  function PrintDict(d: seq<Entry>): seq<byte>
    decreases d, 0
  {
    if d == [] then [] else PrintString(d[0].key) + Print(d[0].value) + PrintDict(d[1..])
  }

  /** The number a maximal run of digits stands for, continuing from `acc`. */
  function ReadDigits(s: seq<byte>, acc: nat): nat
    decreases |s|
  {
    if s != [] && IsDigit(s[0]) then ReadDigits(s[1..], 10 * acc + (s[0] - ZERO)) else acc
  }

  predicate IsSpace(c: byte) {
    c == 32 || 9 <= c <= 13
  }

  function SkipSpaces(s: seq<byte>): seq<byte> {
    if s != [] && IsSpace(s[0]) then SkipSpaces(s[1..]) else s
  }

  function Clamp(n: int): int {
    if n > MAX_LONG then MAX_LONG else if n < -MAX_LONG - 1 then -MAX_LONG - 1 else n
  }

  /** The C library's conversion of a string to a 64-bit integer. */
  function Atoll(s: seq<byte>): (n: int)
    ensures -MAX_LONG - 1 <= n <= MAX_LONG
  {
    var t := SkipSpaces(s);
    if t != [] && t[0] == MINUS then Clamp(0 - ReadDigits(t[1..], 0))
    else if t != [] && t[0] == PLUS then Clamp(ReadDigits(t[1..], 0))
    else Clamp(ReadDigits(t, 0))
  }

  /** The same for an int: the upper half of the 64-bit result is dropped. */
  function Atoi(s: seq<byte>): (n: int)
    ensures -MAX_INT - 1 <= n <= MAX_INT
  {
    var n := Atoll(s) % 0x1_0000_0000;
    if n > MAX_INT then n - 0x1_0000_0000 else n
  }

  /** Position of the first `c`, or the length. */
  function Find(s: seq<byte>, c: byte): (k: nat)
    ensures k <= |s| && (k < |s| ==> s[k] == c) && forall j :: 0 <= j < k ==> s[j] != c
    decreases |s|
  {
    if s == [] || s[0] == c then 0 else 1 + Find(s[1..], c)
  }

  /** A dictionary with `key` set to `value`. */
  function Put(d: seq<Entry>, key: seq<byte>, value: Value): (r: seq<Entry>)
    decreases |d|
  {
    if d == [] then [Entry(key, value)]
    else if key == d[0].key then [Entry(key, value)] + d[1..]
    else if Less(key, d[0].key) then [Entry(key, value)] + d
    else [d[0]] + Put(d[1..], key, value)
  }

  /** Parses one value from the front of `s`.  What is left over is a proper suffix. */
  function Parse(s: seq<byte>): (r: Result)
    ensures r.Ok? ==> |r.rest| < |s| && r.rest == s[|s| - |r.rest|..]
    decreases |s|, 1
  {
    if s == [] then Bad
    else if IsDigit(s[0]) then ParseString(s)
    else if s[0] == CH_D then Prefixed(ParseDict(s[1..], []), s)
    else if s[0] == CH_I then
      var k := Find(s[1..], CH_E);
      if k == |s| - 1 then Short else Ok(Int(Atoll(s[1..])), s[k + 2..])
    else if s[0] == CH_L then Prefixed(ParseList(s[1..], []), s)
    else Bad
  }

  /** A result for s[1..] is one for `s`. */
  function Prefixed(r: Result, s: seq<byte>): (q: Result)
    requires s != [] && (r.Ok? ==> |r.rest| < |s| - 1 && r.rest == s[1..][|s| - 1 - |r.rest|..])
    ensures q == r && (r.Ok? ==> |r.rest| < |s| && r.rest == s[|s| - |r.rest|..])
  {
    r
  }

  function ParseString(s: seq<byte>): (r: Result)
    requires s != []
    ensures r.Ok? ==> |r.rest| < |s| && r.rest == s[|s| - |r.rest|..]
  {
    var k := Find(s, COLON);
    if k == |s| then Short
    else
      var l := Atoi(s);
      if l > |s| - k - 1 then Bad
      else if l < 0 then Throws
      else Ok(Str(s[k + 1..k + 1 + l]), s[k + 1 + l..])
  }

  function ParseList(s: seq<byte>, acc: seq<Value>): (r: Result)
    ensures r.Ok? ==> |r.rest| < |s| && r.rest == s[|s| - |r.rest|..]
    decreases |s|, 2
  {
    if s == [] then Short
    else if s[0] == CH_E then Ok(List(acc), s[1..])
    else
      match Parse(s)
      case Ok(v, t) => ParseList(t, acc + [v])
      case Bad => Bad
      case Short => Short
      case Throws => Throws
  }

  function ParseDict(s: seq<byte>, acc: seq<Entry>): (r: Result)
    ensures r.Ok? ==> |r.rest| < |s| && r.rest == s[|s| - |r.rest|..]
    decreases |s|, 2
  {
    if s == [] then Short
    else if s[0] == CH_E then Ok(Dict(acc), s[1..])
    else
      match Parse(s)
      case Bad => Bad
      case Short => Short
      case Throws => Throws
      case Ok(k, t) =>
        if !k.Str? then Bad
        else
          match Parse(t)
          case Ok(v, u) => ParseDict(u, Put(acc, k.s, v))
          case Bad => Bad
          case Short => Short
          case Throws => Throws
  }

  // Numbers.

  lemma {:induction false} ReadBack(n: nat, t: seq<byte>)
    ensures ReadDigits(Digits(n) + t, 0) == ReadDigits(t, n)
    decreases n
  {
    if n < 10 {
      assert ([ZERO + n] + t)[1..] == t;
    } else {
      var c: byte := ZERO + n % 10;
      assert Digits(n) + t == Digits(n / 10) + ([c] + t);
      ReadBack(n / 10, [c] + t);
      assert ([c] + t)[1..] == t;
    }
  }

  lemma AtollBack(n: int, t: seq<byte>)
    requires -MAX_LONG - 1 <= n <= MAX_LONG && (t == [] || !IsDigit(t[0]))
    ensures Atoll(Decimal(n) + t) == n
  {
    hide Digits, ReadDigits, SkipSpaces;
    var s := Decimal(n) + t;
    NoSpaces(s);
    NoDigits(t, if n < 0 then -n else n);
    if n < 0 {
      assert s[1..] == Digits(-n) + t;
      ReadBack(-n, t);
    } else {
      ReadBack(n, t);
    }
  }

  lemma NoSpaces(s: seq<byte>)
    requires s != [] && !IsSpace(s[0])
    ensures SkipSpaces(s) == s
  {
  }

  lemma NoDigits(t: seq<byte>, acc: nat)
    requires t == [] || !IsDigit(t[0])
    ensures ReadDigits(t, acc) == acc
  {
  }

  lemma AtoiBack(n: nat, t: seq<byte>)
    requires n <= MAX_INT && (t == [] || !IsDigit(t[0]))
    ensures Atoi(Decimal(n) + t) == n
  {
    AtollBack(n, t);
  }

  // Round trip.

  lemma FindAfter(a: seq<byte>, c: byte, t: seq<byte>)
    requires forall k :: 0 <= k < |a| ==> a[k] != c
    ensures Find(a + [c] + t, c) == |a|
  {
    var s := a + [c] + t;
    assert s[|a|] == c;
  }

  lemma {:induction false} DecimalPlain(n: int)
    ensures forall k :: 0 <= k < |Decimal(n)| ==> Decimal(n)[k] != CH_E && Decimal(n)[k] != COLON
    ensures n >= 0 ==> IsDigit(Decimal(n)[0])
  {
  }

  lemma IntBack(i: int, t: seq<byte>)
    requires -MAX_LONG - 1 <= i <= MAX_LONG
    ensures Parse(Print(Int(i)) + t) == Ok(Int(i), t)
  {
    hide Decimal, Atoll, Find;
    var d := Decimal(i);
    var s := Print(Int(i)) + t;
    DecimalPlain(i);
    assert s[1..] == d + [CH_E] + t;
    FindAfter(d, CH_E, t);
    assert s[|d| + 2..] == t;
    assert d + [CH_E] + t == d + ([CH_E] + t);
    AtollBack(i, [CH_E] + t);
  }

  lemma StringBack(x: seq<byte>, t: seq<byte>)
    requires |x| <= MAX_INT
    ensures Parse(PrintString(x) + t) == Ok(Str(x), t)
  {
    hide Decimal, Atoi, Find;
    var d := Decimal(|x|);
    var s := PrintString(x) + t;
    DecimalPlain(|x|);
    assert s == d + [COLON] + (x + t);
    FindAfter(d, COLON, x + t);
    assert s == d + ([COLON] + (x + t));
    AtoiBack(|x|, [COLON] + (x + t));
    assert s[|d| + 1..] == x + t;
    assert s[|d| + 1..|d| + 1 + |x|] == x && s[|d| + 1 + |x|..] == t;
    assert s[0] == d[0];
  }

  /** A printed value never starts like the end of a list. */
  lemma PrintStart(v: Value)
    ensures Print(v) != [] && Print(v)[0] != CH_E
  {
    if v.Str? { DecimalPlain(|v.s|); }
  }

  lemma {:induction false} PutLast(d: seq<Entry>, key: seq<byte>, value: Value)
    requires forall k :: 0 <= k < |d| ==> Less(d[k].key, key)
    ensures Put(d, key, value) == d + [Entry(key, value)]
    decreases |d|
  {
    if d != [] {
      LessAsym(d[0].key, key);
      PutLast(d[1..], key, value);
    }
  }

  /** Main result: parsing what was printed, followed by anything, gives back the value and leaves the rest. */
  lemma {:induction false} RoundTrip(v: Value, t: seq<byte>)
    requires WellFormed(v)
    ensures Parse(Print(v) + t) == Ok(v, t)
    decreases v, 1
  {
    hide Parse, Print, PrintList, PrintDict, ParseList, ParseDict;
    match v {
      case Int(i) => IntBack(i, t);
      case Str(x) =>
        StringBack(x, t);
        PrintOfString(x);
      case List(l) =>
        ListBack(l, [], t);
        assert [] + l == l;
        ListPrefix(l, t);
      case Dict(d) =>
        assert [] + d == d;
        DictBack(d, [], t);
        DictPrefix(d, t);
    }
  }

  lemma PrintOfString(x: seq<byte>)
    ensures Print(Str(x)) == PrintString(x)
  {
  }

  lemma ListPrefix(l: seq<Value>, t: seq<byte>)
    requires ParseList(PrintList(l) + [CH_E] + t, []) == Ok(List(l), t)
    ensures Parse(Print(List(l)) + t) == Ok(List(l), t)
  {
    hide ParseList, PrintList;
    var s := Print(List(l)) + t;
    assert s[0] == CH_L && s[1..] == PrintList(l) + [CH_E] + t;
  }

  lemma DictPrefix(d: seq<Entry>, t: seq<byte>)
    requires ParseDict(PrintDict(d) + [CH_E] + t, []) == Ok(Dict(d), t)
    ensures Parse(Print(Dict(d)) + t) == Ok(Dict(d), t)
  {
    hide ParseDict, PrintDict;
    var s := Print(Dict(d)) + t;
    assert s[0] == CH_D && s[1..] == PrintDict(d) + [CH_E] + t;
  }

  lemma {:induction false} ListBack(l: seq<Value>, acc: seq<Value>, t: seq<byte>)
    requires forall k :: 0 <= k < |l| ==> WellFormed(l[k])
    ensures ParseList(PrintList(l) + [CH_E] + t, acc) == Ok(List(acc + l), t)
    decreases l, 0
  {
    hide Parse, Print;
    var s := PrintList(l) + [CH_E] + t;
    if l == [] {
      assert s[1..] == t && acc + l == acc;
    } else {
      var rest := PrintList(l[1..]) + [CH_E] + t;
      assert s == Print(l[0]) + rest;
      PrintStart(l[0]);
      RoundTrip(l[0], rest);
      ListBack(l[1..], acc + [l[0]], t);
      assert acc + [l[0]] + l[1..] == acc + l;
    }
  }

  lemma {:induction false} DictBack(d: seq<Entry>, acc: seq<Entry>, t: seq<byte>)
    requires Sorted(acc + d)
    requires forall k :: 0 <= k < |d| ==> |d[k].key| <= MAX_INT && WellFormed(d[k].value)
    ensures ParseDict(PrintDict(d) + [CH_E] + t, acc) == Ok(Dict(acc + d), t)
    decreases d, 0
  {
    hide Parse, Print;
    var s := PrintDict(d) + [CH_E] + t;
    if d == [] {
      assert s[1..] == t && acc + d == acc;
    } else {
      var e, rest := d[0], PrintDict(d[1..]) + [CH_E] + t;
      assert s == PrintString(e.key) + (Print(e.value) + rest);
      StringStart(e.key);
      StringBack(e.key, Print(e.value) + rest);
      RoundTrip(e.value, rest);
      AppendKey(acc, d);
      DictBack(d[1..], acc + [e], t);
      assert acc + [e] + d[1..] == acc + d;
    }
  }

  lemma StringStart(x: seq<byte>)
    ensures PrintString(x) != [] && PrintString(x)[0] != CH_E
  {
    DecimalPlain(|x|);
  }

  lemma AppendKey(acc: seq<Entry>, d: seq<Entry>)
    requires d != [] && Sorted(acc + d)
    ensures Put(acc, d[0].key, d[0].value) == acc + [d[0]]
    ensures acc + [d[0]] + d[1..] == acc + d
  {
    var all := acc + d;
    forall k | 0 <= k < |acc| ensures Less(acc[k].key, d[0].key) {
      assert Less(all[k].key, all[|acc|].key);
    }
    PutLast(acc, d[0].key, d[0].value);
  }

  // The size computed before printing.

  function Size(v: Value): nat
    decreases v, 1
  {
    match v
    case Int(i) => |Decimal(i)| + 2
    case Str(s) => |Decimal(|s|)| + |s| + 1
    case List(l) => 2 + SizeList(l)
    case Dict(d) => 2 + SizeDict(d)
  }

  function SizeList(l: seq<Value>): nat
    decreases l, 0
  {
    if l == [] then 0 else Size(l[0]) + SizeList(l[1..])
  }

  function SizeDict(d: seq<Entry>): nat
    decreases d, 0
  {
    if d == [] then 0 else |Decimal(|d[0].key|)| + |d[0].key| + Size(d[0].value) + 1 + SizeDict(d[1..])
  }

  /** The size computed beforehand is the number of bytes printed. */
  lemma {:induction false} SizeExact(v: Value)
    ensures |Print(v)| == Size(v)
    decreases v, 1
  {
    match v {
      case Int(i) =>
      case Str(s) =>
      case List(l) => SizeListExact(l);
      case Dict(d) => SizeDictExact(d);
    }
  }

  lemma {:induction false} SizeListExact(l: seq<Value>)
    ensures |PrintList(l)| == SizeList(l)
    decreases l, 0
  {
    if l != [] {
      SizeExact(l[0]);
      SizeListExact(l[1..]);
    }
  }

  lemma {:induction false} SizeDictExact(d: seq<Entry>)
    ensures |PrintDict(d)| == SizeDict(d)
    decreases d, 0
  {
    if d != [] {
      SizeExact(d[0].value);
      SizeDictExact(d[1..]);
    }
  }

  // How far the printer writes: a length is printed with a terminating NUL, which the next byte overwrites.

  /** One past the last byte written while printing `v` into a buffer. */
  function Reach(v: Value): nat
    decreases v, 1
  {
    match v
    case Int(i) => |Decimal(i)| + 2
    case Str(s) => ReachString(s)
    case List(l) => Max(ReachList(l, 1), Size(v))
    case Dict(d) => Max(ReachDict(d, 1), Size(v))
  }

  function ReachString(s: seq<byte>): nat {
    Max(|Decimal(|s|)| + 2, |Decimal(|s|)| + 1 + |s|)
  }

  /** The same for list elements printed from `offset` on. */
  function ReachList(l: seq<Value>, offset: nat): nat
    decreases l, 0
  {
    if l == [] then offset else Max(offset + Reach(l[0]), ReachList(l[1..], offset + Size(l[0])))
  }

  function ReachDict(d: seq<Entry>, offset: nat): nat
    decreases d, 0
  {
    if d == [] then offset
    else
      var key, next := d[0].key, offset + |Decimal(|d[0].key|)| + 1 + |d[0].key|;
      Max(Max(offset + ReachString(key), next + Reach(d[0].value)), ReachDict(d[1..], next + Size(d[0].value)))
  }

  /** Printing stays inside the reserved buffer for every value but the empty string on its own, whose terminating
      NUL lands one byte behind it. */
  lemma {:induction false} StaysInside(v: Value)
    ensures Reach(v) == Size(v) + if v == Str([]) then 1 else 0
    decreases v, 1
  {
    match v {
      case Int(i) =>
      case Str(s) =>
      case List(l) => ListInside(l, 1);
      case Dict(d) => DictInside(d, 1);
    }
  }

  lemma {:induction false} ListInside(l: seq<Value>, offset: nat)
    ensures ReachList(l, offset) <= offset + SizeList(l) + 1
    decreases l, 0
  {
    hide Reach, Size;
    if l != [] {
      StaysInside(l[0]);
      ListInside(l[1..], offset + Size(l[0]));
    }
  }

  lemma {:induction false} DictInside(d: seq<Entry>, offset: nat)
    ensures ReachDict(d, offset) <= offset + SizeDict(d) + 1
    decreases d, 0
  {
    hide Reach, Size, Decimal;
    if d != [] {
      StaysInside(d[0].value);
      DictInside(d[1..], offset + |Decimal(|d[0].key|)| + 1 + |d[0].key| + Size(d[0].value));
    }
  }

  // Everything that parses is a value the printer can print.

  lemma {:induction false} PutKeepsOrder(d: seq<Entry>, key: seq<byte>, value: Value)
    requires Sorted(d)
    ensures Sorted(Put(d, key, value))
    ensures forall k :: 0 <= k < |Put(d, key, value)| ==>
      Put(d, key, value)[k] == Entry(key, value) || Put(d, key, value)[k] in d
    decreases |d|
  {
    if d != [] {
      var r := Put(d, key, value);
      if key == d[0].key {
        assert forall k :: 1 <= k < |r| ==> r[k] == d[k];
      } else if Less(key, d[0].key) {
        assert forall k :: 1 <= k < |r| ==> r[k] == d[k - 1];
        forall k | 1 <= k < |d| ensures Less(key, d[k].key) {
          LessTrans(key, d[0].key, d[k].key);
        }
      } else {
        LessTotal(key, d[0].key);
        var p := Put(d[1..], key, value);
        PutKeepsOrder(d[1..], key, value);
        assert forall k :: 1 <= k < |r| ==> r[k] == p[k - 1];
        forall k | 0 <= k < |p| ensures Less(d[0].key, p[k].key) {
          if p[k] != Entry(key, value) {
            assert p[k] in d[1..];
          }
        }
      }
    }
  }

  lemma {:induction false} ParsedWellFormed(s: seq<byte>)
    ensures Parse(s).Ok? ==> WellFormed(Parse(s).value)
    decreases |s|, 1
  {
    if s != [] && !IsDigit(s[0]) {
      if s[0] == CH_D {
        ParsedDict(s[1..], []);
      } else if s[0] == CH_L {
        ParsedList(s[1..], []);
      }
    }
  }

  lemma {:induction false} ParsedList(s: seq<byte>, acc: seq<Value>)
    requires WellFormed(List(acc))
    ensures ParseList(s, acc).Ok? ==> WellFormed(ParseList(s, acc).value)
    decreases |s|, 2
  {
    hide Parse;
    if s != [] && s[0] != CH_E {
      ParsedWellFormed(s);
      var r := Parse(s);
      if r.Ok? {
        ParsedList(r.rest, acc + [r.value]);
      }
    }
  }

  lemma {:induction false} ParsedDict(s: seq<byte>, acc: seq<Entry>)
    requires WellFormed(Dict(acc))
    ensures ParseDict(s, acc).Ok? ==> WellFormed(ParseDict(s, acc).value)
    decreases |s|, 2
  {
    hide Parse, Put;
    if s != [] && s[0] != CH_E {
      ParsedWellFormed(s);
      var k := Parse(s);
      if k.Ok? && k.value.Str? {
        ParsedWellFormed(k.rest);
        var v := Parse(k.rest);
        if v.Ok? {
          PutWellFormed(acc, k.value.s, v.value);
          ParsedDict(v.rest, Put(acc, k.value.s, v.value));
        }
      }
    }
  }

  lemma PutWellFormed(d: seq<Entry>, key: seq<byte>, value: Value)
    requires WellFormed(Dict(d)) && |key| <= MAX_INT && WellFormed(value)
    ensures WellFormed(Dict(Put(d, key, value)))
  {
    PutKeepsOrder(d, key, value);
    var r := Put(d, key, value);
    forall k | 0 <= k < |r| ensures |r[k].key| <= MAX_INT && WellFormed(r[k].value) {
      if r[k] != Entry(key, value) {
        assert r[k] in d;
      }
    }
  }

  /** Whatever parses, in whatever order its dictionaries were written, is normalised by printing: the printed
      form parses to the same value. */
  lemma Normalised(s: seq<byte>, t: seq<byte>)
    requires Parse(s).Ok?
    ensures Parse(Print(Parse(s).value) + t) == Ok(Parse(s).value, t)
  {
    ParsedWellFormed(s);
    RoundTrip(Parse(s).value, t);
  }

  lemma OneItem(v: Value, rest: seq<Value>)
    ensures PrintList([v] + rest) == Print(v) + PrintList(rest)
  {
    assert ([v] + rest)[1..] == rest;
  }

  lemma OneEntry(e: Entry, rest: seq<Entry>)
    ensures PrintDict([e] + rest) == PrintString(e.key) + Print(e.value) + PrintDict(rest)
  {
    assert ([e] + rest)[1..] == rest;
  }

  /** The bytes printed for a number (i-42e), a string (2:ab), a list (li7e0:e) and a dictionary (d1:ai1e2:ablee). */
  lemma PrintedBytes()
    ensures Print(Int(-42)) == [105, 45, 52, 50, 101]
    ensures Print(Str([97, 98])) == [50, 58, 97, 98]
    ensures Print(List([Int(7), Str([])])) == [108, 105, 55, 101, 48, 58, 101]
    ensures Print(Dict([Entry([97], Int(1)), Entry([97, 98], List([]))])) ==
      [100, 49, 58, 97, 105, 49, 101, 50, 58, 97, 98, 108, 101, 101]
  {
    assert Digits(42) == Digits(4) + [50];
    PrintedList();
    PrintedDict();
  }

  lemma PrintedList()
    ensures Print(List([Int(7), Str([])])) == [108, 105, 55, 101, 48, 58, 101]
  {
    hide PrintList;
    NothingPrinted();
    OneItem(Str([]), []);
    OneItem(Int(7), [Str([])]);
    assert [Str([])] + [] == [Str([])] && [Int(7)] + [Str([])] == [Int(7), Str([])];
  }

  lemma PrintedDict()
    ensures Print(Dict([Entry([97], Int(1)), Entry([97, 98], List([]))])) ==
      [100, 49, 58, 97, 105, 49, 101, 50, 58, 97, 98, 108, 101, 101]
  {
    hide PrintDict;
    var a, b := Entry([97], Int(1)), Entry([97, 98], List([]));
    NothingPrinted();
    OneEntry(b, []);
    OneEntry(a, [b]);
    assert [b] + [] == [b] && [a] + [b] == [a, b];
    assert Print(List([])) == [108, 101];
  }

  lemma NothingPrinted()
    ensures PrintList([]) == [] == PrintDict([])
  {
  }

  /** The value a dictionary has for `key`. */
  function Get(d: seq<Entry>, key: seq<byte>): Option<Value>
    decreases |d|
  {
    if d == [] then None else if d[0].key == key then Some(d[0].value) else Get(d[1..], key)
  }

  /** Setting one key changes the value of that key only. */
  lemma {:induction false} GetPut(d: seq<Entry>, key: seq<byte>, value: Value, x: seq<byte>)
    requires Sorted(d)
    ensures Get(Put(d, key, value), x) == if x == key then Some(value) else Get(d, x)
    decreases |d|
  {
    var r := Put(d, key, value);
    if d == [] {
      assert r[1..] == [];
    } else if key == d[0].key {
      assert r[1..] == d[1..];
    } else if Less(key, d[0].key) {
      assert r[1..] == d;
    } else {
      GetPut(d[1..], key, value, x);
      assert r[1..] == Put(d[1..], key, value);
    }
  }

  // The parser as it runs, over a buffer with a cursor.

  datatype Code = Fine | Failed | Thrown

  /** Outcome `code`, `v` with the cursor at `pos` of `d` means result `r`; after a failure the cursor is one past the
      end exactly when the input was too short. */
  ghost predicate Means(code: Code, v: Value, d: seq<byte>, pos: nat, r: Result) {
    match code
    case Fine => pos <= |d| && r == Ok(v, d[pos..])
    case Failed => r == if pos == |d| + 1 then Short else Bad
    case Thrown => r == Throws
  }

  method Scan(d: seq<byte>, start: nat, c: byte) returns (pos: nat)
    requires start <= |d|
    ensures start <= pos <= |d| && pos - start == Find(d[start..], c)
  {
    pos := start;
    while pos < |d| && d[pos] != c
      invariant start <= pos <= |d|
      invariant pos - start + Find(d[pos..], c) == Find(d[start..], c)
    {
      assert d[pos..][1..] == d[pos + 1..];
      pos := pos + 1;
    }
  }

  /** Where the cursor may stand: inside the buffer, and one past its end only after a failure. */
  ghost predicate Stands(code: Code, d: seq<byte>, start: nat, pos: nat) {
    start <= pos <= |d| + if code == Failed then 1 else 0
  }

  /** Reads one value from the buffer `d`, starting at `start`; never looks beyond the end.  When the end comes too
      early the cursor is left one past it, and never otherwise. */
  method Read(d: seq<byte>, start: nat) returns (code: Code, v: Value, pos: nat)
    requires start <= |d|
    ensures Stands(code, d, start, pos)
    ensures Means(code, v, d, pos, Parse(d[start..])) && (code == Fine ==> start < pos)
    decreases |d| - start, 1
  {
    v, pos := Int(0), start;
    if start >= |d| {
      return Failed, v, pos;
    }
    ghost var s := d[start..];
    assert s[1..] == d[start + 1..];
    if IsDigit(d[start]) {
      code, v, pos := ReadString(d, start);
    } else if d[start] == CH_D {
      code, v, pos := ReadDict(d, start + 1);
    } else if d[start] == CH_I {
      pos := Scan(d, start + 1, CH_E);
      if pos >= |d| {
        return Failed, v, pos + 1;
      }
      v := Int(Atoll(d[start + 1..]));
      pos := pos + 1;
      code := Fine;
      assert d[pos..] == s[pos - start..];
    } else if d[start] == CH_L {
      code, v, pos := ReadList(d, start + 1);
    } else {
      code, pos := Failed, start + 1;
    }
  }

  method ReadString(d: seq<byte>, start: nat) returns (code: Code, v: Value, pos: nat)
    requires start < |d| && IsDigit(d[start])
    ensures Stands(code, d, start, pos)
    ensures Means(code, v, d, pos, ParseString(d[start..])) && (code == Fine ==> start < pos)
  {
    ghost var s := d[start..];
    v := Int(0);
    pos := Scan(d, start, COLON);
    if pos >= |d| {
      return Failed, v, pos + 1;
    }
    pos := pos + 1;
    var l := Atoi(d[start..]);
    if pos + l > |d| {
      return Failed, v, pos;
    }
    if l < 0 {
      return Thrown, v, pos;
    }
    assert s[pos - start..pos - start + l] == d[pos..pos + l] && s[pos - start + l..] == d[pos + l..];
    return Fine, Str(d[pos..pos + l]), pos + l;
  }

  lemma ListStep(s: seq<byte>, acc: seq<Value>)
    requires s != [] && s[0] != CH_E
    ensures var r := Parse(s); ParseList(s, acc) == if r.Ok? then ParseList(r.rest, acc + [r.value]) else r
  {
    hide Parse;
  }

  lemma ListEnd(s: seq<byte>, acc: seq<Value>)
    ensures s == [] ==> ParseList(s, acc) == Short
    ensures s != [] && s[0] == CH_E ==> ParseList(s, acc) == Ok(List(acc), s[1..])
  {
  }

  method ReadList(d: seq<byte>, start: nat) returns (code: Code, v: Value, pos: nat)
    requires start <= |d|
    ensures Stands(code, d, start, pos)
    ensures Means(code, v, d, pos, ParseList(d[start..], []))
    decreases |d| - start, 2
  {
    hide Parse, ParseList;
    var acc: seq<Value> := [];
    pos := start;
    while pos < |d| && d[pos] != CH_E
      invariant start <= pos <= |d|
      invariant ParseList(d[pos..], acc) == ParseList(d[start..], [])
      decreases |d| - pos
    {
      ListStep(d[pos..], acc);
      var c, w, p := Read(d, pos);
      if c != Fine {
        return c, Int(0), p;
      }
      acc, pos := acc + [w], p;
    }
    ListEnd(d[pos..], acc);
    if pos >= |d| {
      return Failed, Int(0), pos + 1;
    }
    assert d[pos..][1..] == d[pos + 1..];
    return Fine, List(acc), pos + 1;
  }

  lemma DictStep(s: seq<byte>, acc: seq<Entry>)
    requires s != [] && s[0] != CH_E
    ensures var r := Parse(s);
      (!r.Ok? ==> ParseDict(s, acc) == r) && (r.Ok? && !r.value.Str? ==> ParseDict(s, acc) == Bad)
    ensures var r := Parse(s);
      r.Ok? && r.value.Str? ==>
        var q := Parse(r.rest);
        ParseDict(s, acc) == if q.Ok? then ParseDict(q.rest, Put(acc, r.value.s, q.value)) else q
  {
    hide Parse;
  }

  lemma DictEnd(s: seq<byte>, acc: seq<Entry>)
    ensures s == [] ==> ParseDict(s, acc) == Short
    ensures s != [] && s[0] == CH_E ==> ParseDict(s, acc) == Ok(Dict(acc), s[1..])
  {
  }

  method ReadDict(d: seq<byte>, start: nat) returns (code: Code, v: Value, pos: nat)
    requires start <= |d|
    ensures Stands(code, d, start, pos)
    ensures Means(code, v, d, pos, ParseDict(d[start..], []))
    decreases |d| - start, 2
  {
    hide Parse, ParseDict, Put;
    var acc: seq<Entry> := [];
    pos := start;
    while pos < |d| && d[pos] != CH_E
      invariant start <= pos <= |d|
      invariant ParseDict(d[pos..], acc) == ParseDict(d[start..], [])
      decreases |d| - pos
    {
      DictStep(d[pos..], acc);
      var c, k, p := Read(d, pos);
      if c != Fine || !k.Str? {
        return if c == Fine then Failed else c, Int(0), p;
      }
      var c', w, p' := Read(d, p);
      if c' != Fine {
        return c', Int(0), p';
      }
      acc, pos := Put(acc, k.s, w), p';
    }
    DictEnd(d[pos..], acc);
    if pos >= |d| {
      return Failed, Int(0), pos + 1;
    }
    assert d[pos..][1..] == d[pos + 1..];
    return Fine, Dict(acc), pos + 1;
  }

  /** A number without its end: the cursor is left one past the two bytes. */
  method NumberCutShort() returns (pos: nat)
    ensures pos == 3
  {
    var code, v;
    code, v, pos := Read([CH_I, ZERO + 1], 0);
    assert [CH_I, ZERO + 1][0..] == [CH_I, ZERO + 1];
    assert [CH_I, ZERO + 1][1..] == [ZERO + 1] && [ZERO + 1][1..] == [];
    assert Find([ZERO + 1], CH_E) == 1;
  }
}
