/** The XIF tree format: a first pass with the structure and the small values, a second one with the external
    payloads. */
module Xif {
  import opened Basics

  const BIN32: byte := 0
  const BINARY: byte := 1
  const INT32: byte := 2
  const STRING: byte := 3
  const EXTERNAL: byte := 4
  const FLOAT: byte := 5
  const UNKNOWN: byte := 6

  const WORD := 0x1_0000_0000
  const HALF := 0x8000_0000
  const FILE_ID := 0x1a464958
  const VERSION_FAST := 2
  const HEADER := 20

  /** `Word` covers the types held in four bytes (bin32, int32, float), `Data` the ones stored in place. */
  datatype Value = Word(kind: byte, bits: int) | Data(kind: byte, data: seq<byte>) | External(data: seq<byte>)
  datatype Key = Key(keys: seq<KeyEntry>, values: seq<ValueEntry>)
  datatype KeyEntry = KeyEntry(id: int, key: Key)
  datatype ValueEntry = ValueEntry(id: int, value: Value)

  // Four-byte integers, least significant byte first.

  /** The 32-bit signed integer congruent to `n`. */
  function Wrap(n: int): (r: int)
    ensures -HALF <= r < HALF && (r - n) % WORD == 0 && (-HALF <= n < HALF ==> r == n)
  {
    var m := n % WORD;
    if m < HALF then m else m - WORD
  }

  function WriteInt(n: int): (s: seq<byte>)
    ensures |s| == 4
  {
    var m := n % WORD;
    [m % 256, m / 256 % 256, m / 256 / 256 % 256, m / 256 / 256 / 256]
  }

  function ReadInt(s: seq<byte>): (n: int)
    requires |s| >= 4
    ensures -HALF <= n < HALF
  {
    var a: int, b: int, c: int, d: int := s[0], s[1], s[2], s[3];
    Wrap(a + 256 * (b + 256 * (c + 256 * d)))
  }

  lemma QuotientOfSum(a: int, w: int, m: int)
    requires w > 0
    ensures (a * w + m) / w == a + m / w
  {
    assert a * w + m == (a + m / w) * w + m % w;
    QuotientUnique(a * w + m, w, a + m / w, m % w);
  }

  lemma QuotientUnique(n: int, w: int, q: int, r: int)
    requires w > 0 && n == q * w + r && 0 <= r < w
    ensures n / w == q
  {
    var d := n / w - q;
    assert n == (n / w) * w + n % w;
    assert d * w == r - n % w;
    assert d >= 1 ==> d * w >= w;
    assert d <= -1 ==> d * w <= -w;
  }

  /** A multiple of 256 times the weight does not matter for a digit. */
  lemma SameDigit(q: int, c: int, w: int, m: int)
    requires w > 0
    ensures (q * c * 256 * w + m) / w % 256 == m / w % 256
  {
    QuotientOfSum(q * c * 256, w, m);
    QuotientOfSum(q * c, 256, m / w);
    assert (q * c * 256 + m / w) / 256 == q * c + m / w / 256;
  }

  lemma Compose(a: int, b: int, r1: int, q2: int, r2: int)
    requires 0 <= r1 < a && 0 <= r2 < b
    ensures (q2 * b + r2) * a + r1 == q2 * (a * b) + (r2 * a + r1) && 0 <= r2 * a + r1 < a * b
  {
    assert (q2 * b + r2) * a == q2 * b * a + r2 * a == q2 * (a * b) + r2 * a;
    assert r2 * a <= (b - 1) * a;
  }

  lemma QuotientTwice(m: int, a: int, b: int)
    requires a > 0 && b > 0
    ensures a * b > 0 && m / a / b == m / (a * b)
  {
    var q1, r1 := m / a, m % a;
    var q2, r2 := q1 / b, q1 % b;
    Compose(a, b, r1, q2, r2);
    QuotientUnique(m, a * b, q2, r2 * a + r1);
  }

  lemma DigitOf(n: int, c: int, w: int)
    requires w > 0 && c * 256 * w == WORD
    ensures n / w % 256 == n % WORD / w % 256
  {
    var q, m := n / WORD, n % WORD;
    assert n == q * WORD + m == q * c * 256 * w + m;
    SameDigit(q, c, w, m);
  }

  /** Byte `j` has the weight 256 to the power of `j`. */
  lemma LittleEndian(n: int)
    ensures WriteInt(n) == [n % 256, n / 0x100 % 256, n / 0x1_0000 % 256, n / 0x100_0000 % 256]
  {
    var m := n % WORD;
    DigitOf(n, 0x100_0000, 1);
    DigitOf(n, 0x1_0000, 0x100);
    DigitOf(n, 0x100, 0x1_0000);
    DigitOf(n, 1, 0x100_0000);
    QuotientTwice(m, 256, 256);
    QuotientTwice(m, 0x1_0000, 256);
    assert m / 1 == m && n / 1 == n && 0 <= m / 0x100_0000 < 256;
  }

  /** Reading adds the bytes up with the same weights, up to multiples of 2 to the power of 32. */
  lemma LittleEndianRead(s: seq<byte>)
    requires |s| >= 4
    ensures var a: int, b: int, c: int, d: int := s[0], s[1], s[2], s[3];
      (ReadInt(s) - (a + 0x100 * b + 0x1_0000 * c + 0x100_0000 * d)) % WORD == 0
  {
  }

  lemma WrapCongruent(a: int, b: int)
    requires (a - b) % WORD == 0
    ensures Wrap(a) == Wrap(b)
  {
    var k := (a - b) / WORD;
    assert a == b + k * WORD;
    assert (b + k * WORD) % WORD == b % WORD;
  }

  lemma IntBack(n: int, t: seq<byte>)
    ensures ReadInt(WriteInt(n) + t) == Wrap(n)
  {
    var m := n % WORD;
    var a := m / 256;
    var b := a / 256;
    assert m == 256 * a + m % 256 && a == 256 * b + a % 256 && b == 256 * (b / 256) + b % 256;
    var s := WriteInt(n) + t;
    assert s[0] == m % 256 && s[1] == a % 256 && s[2] == b % 256 && s[3] == b / 256;
    WrapCongruent(m, n);
  }

  lemma SmallInt(n: int)
    requires -HALF <= n < HALF
    ensures Wrap(n) == n
  {
  }

  /** Ids are stored as differences and added up again, all in 32 bits. */
  lemma DeltaBack(id: int, next: int)
    requires -HALF <= next < HALF
    ensures Wrap(id + Wrap(next - id)) == next
  {
    var d := Wrap(next - id);
    assert (d - (next - id)) % WORD == 0;
    assert id + d - next == d - (next - id);
    WrapCongruent(id + d, next);
  }

  // First pass: the bytes of a tree.

  function FormatValue(v: Value): seq<byte> {
    match v
    case Word(kind, bits) => [kind] + WriteInt(bits)
    case Data(kind, data) => [kind] + WriteInt(|data|) + data
    case External(data) => [EXTERNAL] + WriteInt(|data|)
  }

  function Format(k: Key): seq<byte>
    decreases k, 1
  {
    WriteInt(|k.keys|) + FormatKeys(k.keys, 0) + (WriteInt(|k.values|) + FormatValues(k.values, 0))
  }

  function FormatKeys(es: seq<KeyEntry>, id: int): seq<byte>
    decreases es, 0
  {
    if es == [] then [] else WriteInt(es[0].id - id) + FormatEntry(es[0]) + FormatKeys(es[1..], es[0].id)
  }

  function FormatEntry(e: KeyEntry): seq<byte>
    decreases e, 1
  {
    Format(e.key)
  }

  function FormatValues(es: seq<ValueEntry>, id: int): seq<byte> {
    if es == [] then [] else WriteInt(es[0].id - id) + FormatValue(es[0].value) + FormatValues(es[1..], es[0].id)
  }

  // What saving writes.  The type of data of unknown type is guessed from the data; if the guess is a number, the four
  // bytes beside the data, which nothing has set, are written in its place.

  /** Data of unknown type that is taken for a number: four bytes that are no string. */
  predicate TakenForInt(v: Value) {
    v.Data? && v.kind == UNKNOWN && |v.data| == 4 &&
    !(v.data[3] == 0 && forall k :: 0 <= k < 3 ==> v.data[k] == 9 || v.data[k] >= 0x20)
  }

  function SaveValue(v: Value, stale: seq<byte>): seq<byte> {
    match v
    case Word(kind, bits) => [kind] + WriteInt(bits)
    case Data(kind, data) => [kind] + WriteInt(|data|) + (if TakenForInt(v) then stale else data)
    case External(data) => [EXTERNAL] + WriteInt(|data|)
  }

  /** The value whose bytes those are. */
  function WrittenValue(v: Value, stale: seq<byte>): Value {
    if TakenForInt(v) then Data(v.kind, stale) else v
  }

  /** Number of values taken for numbers in a tree. */
  function Taken(k: Key): nat
    decreases k, 1
  {
    TakenKeys(k.keys) + TakenValues(k.values)
  }

  function TakenKeys(es: seq<KeyEntry>): nat
    decreases es, 0
  {
    if es == [] then 0 else TakenEntry(es[0]) + TakenKeys(es[1..])
  }

  function TakenEntry(e: KeyEntry): nat
    decreases e, 1
  {
    Taken(e.key)
  }

  function TakenValues(es: seq<ValueEntry>): nat {
    if es == [] then 0 else (if TakenForInt(es[0].value) then 1 else 0) + TakenValues(es[1..])
  }

  /** Four stale bytes for each of `n` values. */
  predicate Words(stale: seq<seq<byte>>, n: nat) {
    |stale| == n && forall i :: 0 <= i < n ==> |stale[i]| == 4
  }

  /** The tree that saving `k` writes, `stale` being the bytes beside the values taken for numbers, in the order in
      which they are saved. */
  function Written(k: Key, stale: seq<seq<byte>>): Key
    requires Words(stale, Taken(k))
    decreases k, 1
  {
    var n := TakenKeys(k.keys);
    Key(WrittenKeys(k.keys, stale[..n]), WrittenValues(k.values, stale[n..]))
  }

  function WrittenKeys(es: seq<KeyEntry>, stale: seq<seq<byte>>): seq<KeyEntry>
    requires Words(stale, TakenKeys(es))
    decreases es, 0
  {
    if es == [] then []
    else
      var n := TakenEntry(es[0]);
      [WrittenEntry(es[0], stale[..n])] + WrittenKeys(es[1..], stale[n..])
  }

  function WrittenEntry(e: KeyEntry, stale: seq<seq<byte>>): KeyEntry
    requires Words(stale, TakenEntry(e))
    decreases e, 1
  {
    KeyEntry(e.id, Written(e.key, stale))
  }

  function WrittenValues(es: seq<ValueEntry>, stale: seq<seq<byte>>): seq<ValueEntry>
    requires Words(stale, TakenValues(es))
  {
    if es == [] then []
    else if TakenForInt(es[0].value) then
      [ValueEntry(es[0].id, WrittenValue(es[0].value, stale[0]))] + WrittenValues(es[1..], stale[1..])
    else [es[0]] + WrittenValues(es[1..], stale)
  }

  function Save(k: Key, stale: seq<seq<byte>>): seq<byte>
    requires Words(stale, Taken(k))
  {
    Format(Written(k, stale))
  }

  /** The data of the values taken for numbers. */
  function TakenData(k: Key): (d: seq<seq<byte>>)
    decreases k, 1
  {
    TakenDataKeys(k.keys) + TakenDataValues(k.values)
  }

  function TakenDataKeys(es: seq<KeyEntry>): seq<seq<byte>>
    decreases es, 0
  {
    if es == [] then [] else TakenDataEntry(es[0]) + TakenDataKeys(es[1..])
  }

  function TakenDataEntry(e: KeyEntry): seq<seq<byte>>
    decreases e, 1
  {
    TakenData(e.key)
  }

  function TakenDataValues(es: seq<ValueEntry>): seq<seq<byte>> {
    if es == [] then []
    else (if TakenForInt(es[0].value) then [es[0].value.data] else []) + TakenDataValues(es[1..])
  }

  // Second pass: the external payloads, keys before values.

  function Payload(v: Value): seq<byte> {
    if v.External? then v.data else []
  }

  function SaveExternal(k: Key): seq<byte>
    decreases k, 1
  {
    ExternalKeys(k.keys) + ExternalValues(k.values)
  }

  function ExternalKeys(es: seq<KeyEntry>): seq<byte>
    decreases es, 0
  {
    if es == [] then [] else ExternalEntry(es[0]) + ExternalKeys(es[1..])
  }

  function ExternalEntry(e: KeyEntry): seq<byte>
    decreases e, 1
  {
    SaveExternal(e.key)
  }

  function ExternalValues(es: seq<ValueEntry>): seq<byte> {
    if es == [] then [] else Payload(es[0].value) + ExternalValues(es[1..])
  }

  // Loading.  Reading beyond the data is an error.

  datatype Loaded<T> = Ok(value: T, rest: seq<byte>) | Bad

  function LoadValue(s: seq<byte>): (r: Loaded<Value>)
    ensures r.Ok? ==> |r.rest| < |s|
  {
    if |s| < 5 then Bad
    else
      var n, t := ReadInt(s[1..]), s[5..];
      if s[0] == BIN32 || s[0] == INT32 || s[0] == FLOAT then Ok(Word(s[0], n), t)
      else if n < 0 then Bad
      else if s[0] == EXTERNAL then Ok(External(Zeros(n)), t)
      else if n > |t| then Bad
      else Ok(Data(s[0], t[..n]), t[n..])
  }

  function PutKey(es: seq<KeyEntry>, id: int, key: Key): seq<KeyEntry>
    decreases |es|
  {
    if es == [] then [KeyEntry(id, key)]
    else if id == es[0].id then [KeyEntry(id, key)] + es[1..]
    else if id < es[0].id then [KeyEntry(id, key)] + es
    else [es[0]] + PutKey(es[1..], id, key)
  }

  function PutValue(es: seq<ValueEntry>, id: int, value: Value): seq<ValueEntry>
    decreases |es|
  {
    if es == [] then [ValueEntry(id, value)]
    else if id == es[0].id then [ValueEntry(id, value)] + es[1..]
    else if id < es[0].id then [ValueEntry(id, value)] + es
    else [es[0]] + PutValue(es[1..], id, value)
  }

  function Load(s: seq<byte>): (r: Loaded<Key>)
    ensures r.Ok? ==> |r.rest| < |s|
    decreases |s|, 1
  {
    if |s| < 4 || ReadInt(s) < 0 then Bad
    else
      match LoadKeys(ReadInt(s), 0, s[4..], [])
      case Bad => Bad
      case Ok(keys, t) =>
        if |t| < 4 || ReadInt(t) < 0 then Bad
        else
          match LoadValues(ReadInt(t), 0, t[4..], [])
          case Bad => Bad
          case Ok(values, u) => Ok(Key(keys, values), u)
  }

  function LoadKeys(count: nat, id: int, s: seq<byte>, acc: seq<KeyEntry>): (r: Loaded<seq<KeyEntry>>)
    ensures r.Ok? ==> |r.rest| <= |s|
    decreases |s|, 0, count
  {
    if count == 0 then Ok(acc, s)
    else if |s| < 4 then Bad
    else
      var next := Wrap(id + ReadInt(s));
      match Load(s[4..])
      case Bad => Bad
      case Ok(key, t) => LoadKeys(count - 1, next, t, PutKey(acc, next, key))
  }

  function LoadValues(count: nat, id: int, s: seq<byte>, acc: seq<ValueEntry>): (r: Loaded<seq<ValueEntry>>)
    ensures r.Ok? ==> |r.rest| <= |s|
    decreases count
  {
    if count == 0 then Ok(acc, s)
    else if |s| < 4 then Bad
    else
      var next := Wrap(id + ReadInt(s));
      match LoadValue(s[4..])
      case Bad => Bad
      case Ok(v, t) => LoadValues(count - 1, next, t, PutValue(acc, next, v))
  }

  /** Fills the external values of a loaded tree with consecutive payloads. */
  function Fill(k: Key, s: seq<byte>): (r: Loaded<Key>)
    decreases k, 1
  {
    match FillKeys(k.keys, s)
    case Bad => Bad
    case Ok(keys, t) =>
      match FillValues(k.values, t)
      case Bad => Bad
      case Ok(values, u) => Ok(Key(keys, values), u)
  }

  function FillKeys(es: seq<KeyEntry>, s: seq<byte>): (r: Loaded<seq<KeyEntry>>)
    decreases es, 0
  {
    if es == [] then Ok([], s)
    else
      match FillEntry(es[0], s)
      case Bad => Bad
      case Ok(e, t) =>
        match FillKeys(es[1..], t)
        case Bad => Bad
        case Ok(rest, u) => Ok([e] + rest, u)
  }

  function FillEntry(e: KeyEntry, s: seq<byte>): (r: Loaded<KeyEntry>)
    decreases e, 1
  {
    match Fill(e.key, s)
    case Bad => Bad
    case Ok(key, t) => Ok(KeyEntry(e.id, key), t)
  }

  function FillValues(es: seq<ValueEntry>, s: seq<byte>): (r: Loaded<seq<ValueEntry>>) {
    if es == [] then Ok([], s)
    else
      var v := es[0].value;
      var n := |Payload(v)|;
      if n > |s| then Bad
      else
        match FillValues(es[1..], s[n..])
        case Bad => Bad
        case Ok(rest, u) => Ok([ValueEntry(es[0].id, if v.External? then External(s[..n]) else v)] + rest, u)
  }

  // Trees the program can hold.

  predicate GoodValue(v: Value) {
    match v
    case Word(kind, bits) => (kind == BIN32 || kind == INT32 || kind == FLOAT) && -HALF <= bits < HALF
    case Data(kind, data) =>
      kind != BIN32 && kind != INT32 && kind != FLOAT && kind != EXTERNAL && |data| < HALF
    case External(data) => |data| < HALF
  }

  predicate Id(n: int) {
    -HALF <= n < HALF
  }

  ghost predicate Good(k: Key)
    decreases k
  {
    |k.keys| < HALF && |k.values| < HALF &&
    KeysAscend(k.keys) && ValuesAscend(k.values) &&
    (forall i :: 0 <= i < |k.keys| ==> Id(k.keys[i].id) && Good(k.keys[i].key)) &&
    GoodValues(k.values)
  }

  ghost predicate GoodKeys(es: seq<KeyEntry>) {
    forall i :: 0 <= i < |es| ==> Id(es[i].id) && Good(es[i].key)
  }

  ghost predicate GoodValues(es: seq<ValueEntry>) {
    forall i :: 0 <= i < |es| ==> Id(es[i].id) && GoodValue(es[i].value)
  }

  lemma GoodTails(ks: seq<KeyEntry>, vs: seq<ValueEntry>)
    ensures GoodKeys(ks) && ks != [] ==> Id(ks[0].id) && Good(ks[0].key) && GoodKeys(ks[1..])
    ensures GoodValues(vs) && vs != [] ==> Id(vs[0].id) && GoodValue(vs[0].value) && GoodValues(vs[1..])
  {
  }

  /** The tree as the first pass leaves it: external values have their size but not their contents. */
  function BlankValue(v: Value): Value {
    if v.External? then External(Zeros(|v.data|)) else v
  }

  function Blank(k: Key): Key
    decreases k, 1
  {
    Key(BlankKeys(k.keys), BlankValues(k.values))
  }

  function BlankKeys(es: seq<KeyEntry>): seq<KeyEntry>
    decreases es, 0
  {
    if es == [] then [] else [BlankEntry(es[0])] + BlankKeys(es[1..])
  }

  function BlankEntry(e: KeyEntry): KeyEntry
    decreases e, 1
  {
    KeyEntry(e.id, Blank(e.key))
  }

  function BlankValues(es: seq<ValueEntry>): seq<ValueEntry> {
    if es == [] then [] else [ValueEntry(es[0].id, BlankValue(es[0].value))] + BlankValues(es[1..])
  }

  // The first pass restores the blank tree.

  lemma FormatBack(v: Value, t: seq<byte>)
    requires GoodValue(v)
    ensures LoadValue(FormatValue(v) + t) == Ok(BlankValue(v), t)
  {
    match v {
      case Word(kind, bits) => FieldBack(kind, bits, t, FormatValue(v) + t);
      case Data(kind, data) =>
        var u := data + t;
        assert FormatValue(v) + t == [kind] + WriteInt(|data|) + u;
        FieldBack(kind, |data|, u, FormatValue(v) + t);
        assert u[..|data|] == data && u[|data|..] == t;
      case External(data) => FieldBack(EXTERNAL, |data|, t, FormatValue(v) + t);
    }
  }

  /** The type byte and the four bytes that follow it in every value. */
  lemma FieldBack(kind: byte, n: int, t: seq<byte>, s: seq<byte>)
    requires -HALF <= n < HALF && s == [kind] + WriteInt(n) + t
    ensures |s| >= 5 && s[0] == kind && ReadInt(s[1..]) == n && s[5..] == t
  {
    hide WriteInt, ReadInt, Wrap;
    assert s[1..] == WriteInt(n) + t;
    IntBack(n, t);
    SmallInt(n);
  }

  lemma {:induction false} PutKeyLast(es: seq<KeyEntry>, id: int, key: Key)
    requires forall i :: 0 <= i < |es| ==> es[i].id < id
    ensures PutKey(es, id, key) == es + [KeyEntry(id, key)]
    decreases |es|
  {
    if es != [] { PutKeyLast(es[1..], id, key); }
  }

  lemma {:induction false} PutValueLast(es: seq<ValueEntry>, id: int, value: Value)
    requires forall i :: 0 <= i < |es| ==> es[i].id < id
    ensures PutValue(es, id, value) == es + [ValueEntry(id, value)]
    decreases |es|
  {
    if es != [] { PutValueLast(es[1..], id, value); }
  }

  ghost predicate ValuesAscend(es: seq<ValueEntry>) {
    forall i, j :: 0 <= i < j < |es| ==> es[i].id < es[j].id
  }

  ghost predicate KeysAscend(es: seq<KeyEntry>) {
    forall i, j :: 0 <= i < j < |es| ==> es[i].id < es[j].id
  }

  lemma ValuesStep(count: nat, id: int, next: int, u: seq<byte>, v: Value, rest: seq<byte>, acc: seq<ValueEntry>)
    requires count >= 1 && Id(next) && LoadValue(u) == Ok(v, rest)
    ensures LoadValues(count, id, WriteInt(next - id) + u, acc) ==
      LoadValues(count - 1, next, rest, PutValue(acc, next, v))
  {
    hide LoadValue, WriteInt, ReadInt, Wrap, PutValue;
    var s := WriteInt(next - id) + u;
    IntBack(next - id, u);
    DeltaBack(id, next);
    assert s[4..] == u;
  }

  lemma KeysStep(count: nat, id: int, next: int, u: seq<byte>, k: Key, rest: seq<byte>, acc: seq<KeyEntry>)
    requires count >= 1 && Id(next) && Load(u) == Ok(k, rest)
    ensures LoadKeys(count, id, WriteInt(next - id) + u, acc) == LoadKeys(count - 1, next, rest, PutKey(acc, next, k))
  {
    hide Load, WriteInt, ReadInt, Wrap, PutKey;
    var s := WriteInt(next - id) + u;
    IntBack(next - id, u);
    DeltaBack(id, next);
    assert s[4..] == u;
  }

  lemma {:induction false} ValuesBack(es: seq<ValueEntry>, id: int, acc: seq<ValueEntry>, t: seq<byte>)
    requires ValuesAscend(acc + es) && GoodValues(es)
    ensures LoadValues(|es|, id, FormatValues(es, id) + t, acc) == Ok(acc + BlankValues(es), t)
    decreases |es|
  {
    hide LoadValues, LoadValue, FormatValue, WriteInt, BlankValue, FormatValues, BlankValues, GoodValue, GoodValues,
      ValuesAscend;
    if es == [] {
      NothingBack([], es, id, [], acc, t);
    } else {
      GoodTails([], es);
      var e, rest := es[0], FormatValues(es[1..], es[0].id) + t;
      var v, u := BlankValue(e.value), FormatValue(e.value) + rest;
      ValuesHead(es, id, t, acc);
      FormatBack(e.value, rest);
      ValuesStep(|es|, id, e.id, u, v, rest, acc);
      AppendValue(acc, es, v);
      ValuesBack(es[1..], e.id, acc + [ValueEntry(e.id, v)], t);
    }
  }

  lemma NothingBack(ks: seq<KeyEntry>, vs: seq<ValueEntry>, id: int, kacc: seq<KeyEntry>, vacc: seq<ValueEntry>,
                    t: seq<byte>)
    requires ks == [] && vs == []
    ensures LoadValues(|vs|, id, FormatValues(vs, id) + t, vacc) == Ok(vacc + BlankValues(vs), t)
    ensures LoadKeys(|ks|, id, FormatKeys(ks, id) + t, kacc) == Ok(kacc + BlankKeys(ks), t)
  {
    assert FormatValues(vs, id) + t == t && vacc + BlankValues(vs) == vacc;
    assert FormatKeys(ks, id) + t == t && kacc + BlankKeys(ks) == kacc;
  }

  lemma Regroup<T>(a: seq<T>, b: seq<T>, c: seq<T>, t: seq<T>)
    ensures a + b + c + t == a + (b + (c + t))
  {
  }

  lemma Prepend<T>(acc: seq<T>, x: T, rest: seq<T>)
    ensures acc + ([x] + rest) == acc + [x] + rest
  {
  }

  lemma ValuesHead(es: seq<ValueEntry>, id: int, t: seq<byte>, acc: seq<ValueEntry>)
    requires es != []
    ensures FormatValues(es, id) + t ==
            WriteInt(es[0].id - id) + (FormatValue(es[0].value) + (FormatValues(es[1..], es[0].id) + t))
    ensures acc + BlankValues(es) == acc + [ValueEntry(es[0].id, BlankValue(es[0].value))] + BlankValues(es[1..])
  {
    hide WriteInt, FormatValue, BlankValue;
    Regroup(WriteInt(es[0].id - id), FormatValue(es[0].value), FormatValues(es[1..], es[0].id), t);
    Prepend(acc, ValueEntry(es[0].id, BlankValue(es[0].value)), BlankValues(es[1..]));
  }

  lemma KeysHead(es: seq<KeyEntry>, id: int, t: seq<byte>, acc: seq<KeyEntry>)
    requires es != []
    ensures FormatKeys(es, id) + t ==
            WriteInt(es[0].id - id) + (FormatEntry(es[0]) + (FormatKeys(es[1..], es[0].id) + t))
    ensures acc + BlankKeys(es) == acc + [KeyEntry(es[0].id, Blank(es[0].key))] + BlankKeys(es[1..])
  {
    hide WriteInt, FormatEntry, Blank, Format;
    Regroup(WriteInt(es[0].id - id), FormatEntry(es[0]), FormatKeys(es[1..], es[0].id), t);
    Prepend(acc, KeyEntry(es[0].id, Blank(es[0].key)), BlankKeys(es[1..]));
  }

  lemma AppendValue(acc: seq<ValueEntry>, es: seq<ValueEntry>, v: Value)
    requires es != [] && ValuesAscend(acc + es)
    ensures PutValue(acc, es[0].id, v) == acc + [ValueEntry(es[0].id, v)]
    ensures ValuesAscend(acc + [ValueEntry(es[0].id, v)] + es[1..])
  {
    var all, all' := acc + es, acc + [ValueEntry(es[0].id, v)] + es[1..];
    assert forall i :: 0 <= i < |all| ==> all'[i].id == all[i].id;
    forall i | 0 <= i < |acc| ensures acc[i].id < es[0].id {
      assert all[i].id < all[|acc|].id;
    }
    PutValueLast(acc, es[0].id, v);
  }

  lemma AppendKey(acc: seq<KeyEntry>, es: seq<KeyEntry>, k: Key)
    requires es != [] && KeysAscend(acc + es)
    ensures PutKey(acc, es[0].id, k) == acc + [KeyEntry(es[0].id, k)]
    ensures KeysAscend(acc + [KeyEntry(es[0].id, k)] + es[1..])
  {
    var all, all' := acc + es, acc + [KeyEntry(es[0].id, k)] + es[1..];
    assert forall i :: 0 <= i < |all| ==> all'[i].id == all[i].id;
    forall i | 0 <= i < |acc| ensures acc[i].id < es[0].id {
      assert all[i].id < all[|acc|].id;
    }
    PutKeyLast(acc, es[0].id, k);
  }

  lemma {:induction false} KeysBack(es: seq<KeyEntry>, id: int, acc: seq<KeyEntry>, t: seq<byte>)
    requires KeysAscend(acc + es) && GoodKeys(es)
    ensures LoadKeys(|es|, id, FormatKeys(es, id) + t, acc) == Ok(acc + BlankKeys(es), t)
    decreases es, 0
  {
    hide LoadKeys, Load, FormatEntry, WriteInt, Blank, Good, FormatKeys, BlankKeys, GoodKeys, KeysAscend;
    if es == [] {
      NothingBack(es, [], id, acc, [], t);
    } else {
      GoodTails(es, []);
      var e, rest := es[0], FormatKeys(es[1..], es[0].id) + t;
      var k, u := Blank(e.key), FormatEntry(e) + rest;
      KeysHead(es, id, t, acc);
      EntryBack(e, rest);
      KeysStep(|es|, id, e.id, u, k, rest, acc);
      AppendKey(acc, es, k);
      KeysBack(es[1..], e.id, acc + [KeyEntry(e.id, k)], t);
    }
  }

  lemma {:induction false} EntryBack(e: KeyEntry, t: seq<byte>)
    requires Good(e.key)
    ensures Load(FormatEntry(e) + t) == Ok(Blank(e.key), t)
    decreases e, 1
  {
    TreeBack(e.key, t);
  }

  lemma {:induction false} TreeBack(k: Key, t: seq<byte>)
    requires Good(k)
    ensures Load(Format(k) + t) == Ok(Blank(k), t)
    decreases k, 1
  {
    hide LoadKeys, LoadValues, FormatKeys, FormatValues, WriteInt, ReadInt, BlankKeys, BlankValues;
    var s := Format(k) + t;
    var u := WriteInt(|k.values|) + (FormatValues(k.values, 0) + t);
    assert s == WriteInt(|k.keys|) + (FormatKeys(k.keys, 0) + u);
    IntBack(|k.keys|, FormatKeys(k.keys, 0) + u);
    assert s[4..] == FormatKeys(k.keys, 0) + u;
    assert [] + k.keys == k.keys && [] + k.values == k.values;
    KeysBack(k.keys, 0, [], u);
    IntBack(|k.values|, FormatValues(k.values, 0) + t);
    assert u[4..] == FormatValues(k.values, 0) + t;
    ValuesBack(k.values, 0, [], t);
    assert [] + BlankKeys(k.keys) == BlankKeys(k.keys) && [] + BlankValues(k.values) == BlankValues(k.values);
  }

  // The tree that is written differs from the one that is saved in the values taken for numbers only.

  lemma {:induction false} WrittenLength(k: Key, stale: seq<seq<byte>>)
    requires Words(stale, Taken(k))
    ensures |Format(Written(k, stale))| == |Format(k)|
    decreases k, 1
  {
    hide FormatKeys, FormatValues, WrittenKeys, WrittenValues;
    var n := TakenKeys(k.keys);
    WrittenKeysLength(k.keys, stale[..n], 0);
    WrittenValuesLength(k.values, stale[n..], 0);
  }

  lemma {:induction false} WrittenKeysLength(es: seq<KeyEntry>, stale: seq<seq<byte>>, id: int)
    requires Words(stale, TakenKeys(es))
    ensures |FormatKeys(WrittenKeys(es, stale), id)| == |FormatKeys(es, id)|
    decreases es, 0
  {
    if es != [] {
      hide FormatEntry, WrittenEntry, WriteInt;
      var n := TakenEntry(es[0]);
      WrittenEntryLength(es[0], stale[..n]);
      WrittenKeysLength(es[1..], stale[n..], es[0].id);
      var ws := WrittenKeys(es, stale);
      assert ws[0] == WrittenEntry(es[0], stale[..n]) && ws[1..] == WrittenKeys(es[1..], stale[n..]);
    }
  }

  lemma {:induction false} WrittenEntryLength(e: KeyEntry, stale: seq<seq<byte>>)
    requires Words(stale, TakenEntry(e))
    ensures WrittenEntry(e, stale).id == e.id && |FormatEntry(WrittenEntry(e, stale))| == |FormatEntry(e)|
    decreases e, 1
  {
    WrittenLength(e.key, stale);
  }

  lemma {:induction false} WrittenValuesLength(es: seq<ValueEntry>, stale: seq<seq<byte>>, id: int)
    requires Words(stale, TakenValues(es))
    ensures |FormatValues(WrittenValues(es, stale), id)| == |FormatValues(es, id)|
    decreases |es|
  {
    if es != [] {
      hide WriteInt;
      var rest := if TakenForInt(es[0].value) then stale[1..] else stale;
      WrittenValuesLength(es[1..], rest, es[0].id);
      var ws := WrittenValues(es, stale);
      assert ws[0].id == es[0].id && ws[1..] == WrittenValues(es[1..], rest);
    }
  }

  lemma {:induction false} WrittenGood(k: Key, stale: seq<seq<byte>>)
    requires Words(stale, Taken(k)) && Good(k)
    ensures Good(Written(k, stale))
    decreases k, 1
  {
    var n := TakenKeys(k.keys);
    WrittenKeysGood(k.keys, stale[..n]);
    WrittenValuesGood(k.values, stale[n..]);
  }

  lemma {:induction false} WrittenKeysGood(es: seq<KeyEntry>, stale: seq<seq<byte>>)
    requires Words(stale, TakenKeys(es)) && GoodKeys(es)
    ensures var ws := WrittenKeys(es, stale);
      |ws| == |es| && GoodKeys(ws) && forall i :: 0 <= i < |es| ==> ws[i].id == es[i].id
    decreases es, 0
  {
    if es != [] {
      hide Good, Written;
      var n := TakenEntry(es[0]);
      GoodTails(es, []);
      WrittenEntryGood(es[0], stale[..n]);
      WrittenKeysGood(es[1..], stale[n..]);
    }
  }

  lemma {:induction false} WrittenEntryGood(e: KeyEntry, stale: seq<seq<byte>>)
    requires Words(stale, TakenEntry(e)) && Good(e.key)
    ensures Good(WrittenEntry(e, stale).key)
    decreases e, 1
  {
    WrittenGood(e.key, stale);
  }

  lemma {:induction false} WrittenValuesGood(es: seq<ValueEntry>, stale: seq<seq<byte>>)
    requires Words(stale, TakenValues(es)) && GoodValues(es)
    ensures var ws := WrittenValues(es, stale);
      |ws| == |es| && GoodValues(ws) && forall i :: 0 <= i < |es| ==> ws[i].id == es[i].id
    decreases |es|
  {
    if es != [] {
      GoodTails([], es);
      WrittenValuesGood(es[1..], if TakenForInt(es[0].value) then stale[1..] else stale);
    }
  }

  lemma {:induction false} WrittenExternal(k: Key, stale: seq<seq<byte>>)
    requires Words(stale, Taken(k))
    ensures SaveExternal(Written(k, stale)) == SaveExternal(k)
    decreases k, 1
  {
    hide ExternalKeys, ExternalValues, WrittenKeys, WrittenValues;
    var n := TakenKeys(k.keys);
    WrittenKeysExternal(k.keys, stale[..n]);
    WrittenValuesExternal(k.values, stale[n..]);
  }

  lemma {:induction false} WrittenKeysExternal(es: seq<KeyEntry>, stale: seq<seq<byte>>)
    requires Words(stale, TakenKeys(es))
    ensures ExternalKeys(WrittenKeys(es, stale)) == ExternalKeys(es)
    decreases es, 0
  {
    if es != [] {
      hide ExternalEntry, WrittenEntry;
      var n := TakenEntry(es[0]);
      WrittenEntryExternal(es[0], stale[..n]);
      WrittenKeysExternal(es[1..], stale[n..]);
      var ws := WrittenKeys(es, stale);
      assert ws[0] == WrittenEntry(es[0], stale[..n]) && ws[1..] == WrittenKeys(es[1..], stale[n..]);
    }
  }

  lemma {:induction false} WrittenEntryExternal(e: KeyEntry, stale: seq<seq<byte>>)
    requires Words(stale, TakenEntry(e))
    ensures ExternalEntry(WrittenEntry(e, stale)) == ExternalEntry(e)
    decreases e, 1
  {
    WrittenExternal(e.key, stale);
  }

  lemma {:induction false} WrittenValuesExternal(es: seq<ValueEntry>, stale: seq<seq<byte>>)
    requires Words(stale, TakenValues(es))
    ensures ExternalValues(WrittenValues(es, stale)) == ExternalValues(es)
    decreases |es|
  {
    if es != [] {
      var rest := if TakenForInt(es[0].value) then stale[1..] else stale;
      WrittenValuesExternal(es[1..], rest);
      var ws := WrittenValues(es, stale);
      assert Payload(ws[0].value) == Payload(es[0].value) && ws[1..] == WrittenValues(es[1..], rest);
    }
  }

  /** Saving writes the tree itself exactly when the stale bytes happen to be the data. */
  lemma {:induction false} WrittenSame(k: Key, stale: seq<seq<byte>>)
    requires Words(stale, Taken(k))
    ensures |TakenData(k)| == Taken(k)
    ensures Written(k, stale) == k <==> stale == TakenData(k)
    decreases k, 1
  {
    hide TakenDataKeys, TakenDataValues, WrittenKeys, WrittenValues, TakenKeys, TakenValues;
    var n := TakenKeys(k.keys);
    WrittenKeysSame(k.keys, stale[..n]);
    WrittenValuesSame(k.values, stale[n..]);
    SplitSame(stale, n, TakenDataKeys(k.keys), TakenDataValues(k.values));
  }

  lemma SplitSame<T>(s: seq<T>, n: nat, a: seq<T>, b: seq<T>)
    requires n <= |s| && |a| == n
    ensures s == a + b <==> s[..n] == a && s[n..] == b
  {
    if s[..n] == a && s[n..] == b {
      assert s == s[..n] + s[n..];
    }
  }

  lemma {:induction false} WrittenKeysSame(es: seq<KeyEntry>, stale: seq<seq<byte>>)
    requires Words(stale, TakenKeys(es))
    ensures |TakenDataKeys(es)| == TakenKeys(es)
    ensures WrittenKeys(es, stale) == es <==> stale == TakenDataKeys(es)
    decreases es, 0
  {
    if es != [] {
      hide TakenDataEntry, WrittenEntry, TakenEntry;
      var n := TakenEntry(es[0]);
      WrittenEntrySame(es[0], stale[..n]);
      WrittenKeysSame(es[1..], stale[n..]);
      SplitSame(stale, n, TakenDataEntry(es[0]), TakenDataKeys(es[1..]));
      var ws := WrittenKeys(es, stale);
      HeadSame(ws, es, WrittenEntry(es[0], stale[..n]), WrittenKeys(es[1..], stale[n..]));
    }
  }

  lemma HeadSame<T>(ws: seq<T>, es: seq<T>, x: T, rest: seq<T>)
    requires es != [] && ws == [x] + rest
    ensures ws == es <==> x == es[0] && rest == es[1..]
  {
    if ws == es {
      assert rest == ws[1..];
    }
    if x == es[0] && rest == es[1..] {
      assert es == [es[0]] + es[1..];
    }
  }

  lemma {:induction false} WrittenEntrySame(e: KeyEntry, stale: seq<seq<byte>>)
    requires Words(stale, TakenEntry(e))
    ensures |TakenDataEntry(e)| == TakenEntry(e)
    ensures WrittenEntry(e, stale) == e <==> stale == TakenDataEntry(e)
    decreases e, 1
  {
    WrittenSame(e.key, stale);
  }

  lemma {:induction false} WrittenValuesSame(es: seq<ValueEntry>, stale: seq<seq<byte>>)
    requires Words(stale, TakenValues(es))
    ensures |TakenDataValues(es)| == TakenValues(es)
    ensures WrittenValues(es, stale) == es <==> stale == TakenDataValues(es)
    decreases |es|
  {
    if es != [] {
      var e := es[0];
      var n := if TakenForInt(e.value) then 1 else 0;
      WrittenValuesSame(es[1..], stale[n..]);
      SplitSame(stale, n, if n == 1 then [e.value.data] else [], TakenDataValues(es[1..]));
      var x := if n == 1 then ValueEntry(e.id, WrittenValue(e.value, stale[0])) else e;
      assert n == 0 ==> stale[n..] == stale && stale[..n] == [];
      HeadSame(WrittenValues(es, stale), es, x, WrittenValues(es[1..], stale[n..]));
      assert n == 1 ==> (stale[..1] == [e.value.data] <==> stale[0] == e.value.data);
    }
  }

  /** A saved value comes back, but for external contents, exactly when it is not taken for a number or the stale
      bytes are its data. */
  lemma ValueBack(v: Value, stale: seq<byte>, t: seq<byte>)
    requires GoodValue(v) && |stale| == 4
    ensures LoadValue(SaveValue(v, stale) + t) == Ok(BlankValue(WrittenValue(v, stale)), t)
    ensures LoadValue(SaveValue(v, stale) + t) == Ok(BlankValue(v), t) <==> (TakenForInt(v) ==> stale == v.data)
  {
    hide WriteInt, LoadValue;
    var w := WrittenValue(v, stale);
    assert SaveValue(v, stale) == FormatValue(w);
    FormatBack(w, t);
  }

  /** The first pass gives back the tree that was written, its external values blank. */
  lemma KeyBack(k: Key, stale: seq<seq<byte>>, t: seq<byte>)
    requires Good(k) && Words(stale, Taken(k))
    ensures Load(Save(k, stale) + t) == Ok(Blank(Written(k, stale)), t)
  {
    WrittenGood(k, stale);
    TreeBack(Written(k, stale), t);
  }

  // The second pass puts every payload back into its value.

  lemma {:induction false} FillBack(k: Key, t: seq<byte>)
    ensures Fill(Blank(k), SaveExternal(k) + t) == Ok(k, t)
    decreases k, 1
  {
    hide FillKeys, FillValues, BlankKeys, BlankValues, ExternalKeys, ExternalValues;
    var u := ExternalValues(k.values) + t;
    assert SaveExternal(k) + t == ExternalKeys(k.keys) + u;
    FillKeysBack(k.keys, u);
    FillValuesBack(k.values, t);
  }

  lemma {:induction false} FillKeysBack(es: seq<KeyEntry>, t: seq<byte>)
    ensures FillKeys(BlankKeys(es), ExternalKeys(es) + t) == Ok(es, t)
    decreases es, 0
  {
    if es == [] {
      assert ExternalKeys(es) + t == t;
    } else {
      hide FillEntry, BlankEntry, ExternalEntry;
      var u := ExternalKeys(es[1..]) + t;
      assert ExternalKeys(es) + t == ExternalEntry(es[0]) + u;
      FillEntryBack(es[0], u);
      FillKeysBack(es[1..], t);
      var bs := BlankKeys(es);
      assert bs[0] == BlankEntry(es[0]) && bs[1..] == BlankKeys(es[1..]);
      assert [es[0]] + es[1..] == es;
    }
  }

  lemma {:induction false} FillEntryBack(e: KeyEntry, t: seq<byte>)
    ensures FillEntry(BlankEntry(e), ExternalEntry(e) + t) == Ok(e, t)
    decreases e, 1
  {
    FillBack(e.key, t);
  }

  lemma {:induction false} FillValuesBack(es: seq<ValueEntry>, t: seq<byte>)
    ensures FillValues(BlankValues(es), ExternalValues(es) + t) == Ok(es, t)
    decreases |es|
  {
    if es == [] {
      assert ExternalValues(es) + t == t;
    } else {
      hide FillValues, BlankValues, ExternalValues;
      var e, u := es[0], ExternalValues(es[1..]) + t;
      FillValuesBack(es[1..], t);
      ExternalHead(es, t);
      BlankHead(es);
      FillStep(BlankValues(es), ExternalValues(es) + t, es[1..], t, e.value.External?, Payload(e.value), u);
      assert [e] + es[1..] == es;
    }
  }

  lemma ExternalHead(es: seq<ValueEntry>, t: seq<byte>)
    requires es != []
    ensures ExternalValues(es) + t == Payload(es[0].value) + (ExternalValues(es[1..]) + t)
  {
  }

  lemma BlankHead(es: seq<ValueEntry>)
    requires es != []
    ensures var bs := BlankValues(es);
      bs != [] && bs[0] == ValueEntry(es[0].id, BlankValue(es[0].value)) && bs[1..] == BlankValues(es[1..])
  {
  }

  lemma FillStep(bs: seq<ValueEntry>, s: seq<byte>, rest: seq<ValueEntry>, t: seq<byte>, external: bool, p: seq<byte>,
                 u: seq<byte>)
    requires bs != [] && s == p + u && |Payload(bs[0].value)| == |p| && bs[0].value.External? == external
    requires FillValues(bs[1..], u) == Ok(rest, t)
    ensures FillValues(bs, s) == Ok([ValueEntry(bs[0].id, if external then External(p) else bs[0].value)] + rest, t)
  {
    assert s[..|p|] == p && s[|p|..] == u;
  }

  // Sizes computed beforehand.

  function ValueSize(v: Value): nat {
    match v
    case Word(kind, _) => if kind == FLOAT then 4 else 0
    case Data(_, data) => if TakenForInt(v) then 0 else |data|
    case External(_) => 0
  }

  function Size(k: Key): nat
    decreases k, 1
  {
    8 + SizeKeys(k.keys) + SizeValues(k.values)
  }

  function SizeKeys(es: seq<KeyEntry>): nat
    decreases es, 0
  {
    if es == [] then 0 else 4 + SizeEntry(es[0]) + SizeKeys(es[1..])
  }

  function SizeEntry(e: KeyEntry): nat
    decreases e, 1
  {
    Size(e.key)
  }

  function SizeValues(es: seq<ValueEntry>): nat {
    if es == [] then 0 else 9 + ValueSize(es[0].value) + SizeValues(es[1..])
  }

  /** Number of float values in a tree. */
  function Floats(k: Key): nat
    decreases k, 1
  {
    FloatsKeys(k.keys) + FloatsValues(k.values)
  }

  function FloatsKeys(es: seq<KeyEntry>): nat
    decreases es, 0
  {
    if es == [] then 0 else FloatsEntry(es[0]) + FloatsKeys(es[1..])
  }

  function FloatsEntry(e: KeyEntry): nat
    decreases e, 1
  {
    Floats(e.key)
  }

  function FloatsValues(es: seq<ValueEntry>): nat {
    if es == [] then 0
    else (if es[0].value.Word? && es[0].value.kind == FLOAT then 1 else 0) + FloatsValues(es[1..])
  }

  lemma {:induction false} SizeOfFormat(k: Key)
    ensures Size(k) + 4 * Taken(k) == |Format(k)| + 4 * Floats(k)
    decreases k, 1
  {
    hide FormatKeys, FormatValues, SizeKeys, SizeValues, FloatsKeys, FloatsValues, TakenKeys, TakenValues;
    SizeOfKeys(k.keys, 0);
    SizeOfValues(k.values, 0);
  }

  lemma {:induction false} SizeOfKeys(es: seq<KeyEntry>, id: int)
    ensures SizeKeys(es) + 4 * TakenKeys(es) == |FormatKeys(es, id)| + 4 * FloatsKeys(es)
    decreases es, 0
  {
    hide SizeEntry, FormatEntry, FloatsEntry, TakenEntry;
    if es != [] {
      SizeOfEntry(es[0]);
      SizeOfKeys(es[1..], es[0].id);
    }
  }

  lemma {:induction false} SizeOfEntry(e: KeyEntry)
    ensures SizeEntry(e) + 4 * TakenEntry(e) == |FormatEntry(e)| + 4 * FloatsEntry(e)
    decreases e, 1
  {
    SizeOfFormat(e.key);
  }

  lemma {:induction false} SizeOfValues(es: seq<ValueEntry>, id: int)
    ensures SizeValues(es) + 4 * TakenValues(es) == |FormatValues(es, id)| + 4 * FloatsValues(es)
    decreases |es|
  {
    if es != [] { SizeOfValues(es[1..], es[0].id); }
  }

  /** The size computed for the first pass is four bytes too many for every float value, and four bytes too few for
      every value taken for a number. */
  lemma SizeOfSave(k: Key, stale: seq<seq<byte>>)
    requires Words(stale, Taken(k))
    ensures Size(k) + 4 * Taken(k) == |Save(k, stale)| + 4 * Floats(k)
  {
    SizeOfFormat(k);
    WrittenLength(k, stale);
  }

  /** Without any float value the size can be wrong too: here it is four bytes short. */
  lemma SizeTooSmall(stale: seq<byte>)
    requires |stale| == 4
    ensures var k := Key([], [ValueEntry(1, Data(UNKNOWN, [1, 2, 3, 4]))]);
      Words([stale], Taken(k)) && Floats(k) == 0 && Size(k) == 17 && |Save(k, [stale])| == 21
  {
    hide TakenValues, FloatsValues, SizeValues, TakenDataValues;
    var e := ValueEntry(1, Data(UNKNOWN, [1, 2, 3, 4]));
    assert TakenForInt(e.value);
    NoValues();
    OneMoreValue(e, [], [e]);
    SizeOfSave(Key([], [e]), [stale]);
  }

  lemma NoValues()
    ensures TakenValues([]) == FloatsValues([]) == SizeValues([]) == 0 && TakenDataValues([]) == []
  {
  }

  lemma OneMoreValue(e: ValueEntry, rest: seq<ValueEntry>, es: seq<ValueEntry>)
    requires es == [e] + rest
    ensures TakenValues(es) == (if TakenForInt(e.value) then 1 else 0) + TakenValues(rest)
    ensures FloatsValues(es) == (if e.value.Word? && e.value.kind == FLOAT then 1 else 0) + FloatsValues(rest)
    ensures SizeValues(es) == 9 + ValueSize(e.value) + SizeValues(rest)
    ensures TakenDataValues(es) == (if TakenForInt(e.value) then [e.value.data] else []) + TakenDataValues(rest)
  {
    assert es[0] == e && es[1..] == rest;
  }

  // Bytes behind what is loaded make no difference.

  lemma ReadIntExtends(s: seq<byte>, t: seq<byte>)
    requires |s| >= 4
    ensures ReadInt(s + t) == ReadInt(s) && (s + t)[4..] == s[4..] + t
  {
  }

  lemma LoadValueExtends(s: seq<byte>, t: seq<byte>)
    requires LoadValue(s).Ok?
    ensures var r := LoadValue(s); LoadValue(s + t) == Ok(r.value, r.rest + t)
  {
    assert (s + t)[1..] == s[1..] + t && (s + t)[5..] == s[5..] + t;
    ReadIntExtends(s[1..], t);
    var n := ReadInt(s[1..]);
    if 0 <= n <= |s[5..]| {
      assert (s[5..] + t)[..n] == s[5..][..n] && (s[5..] + t)[n..] == s[5..][n..] + t;
    }
  }

  lemma {:induction false} LoadExtends(s: seq<byte>, t: seq<byte>)
    requires Load(s).Ok?
    ensures var r := Load(s); Load(s + t) == Ok(r.value, r.rest + t)
    decreases |s|, 1
  {
    hide ReadInt, LoadKeys, LoadValues;
    ReadIntExtends(s, t);
    LoadKeysExtends(ReadInt(s), 0, s[4..], [], t);
    var u := LoadKeys(ReadInt(s), 0, s[4..], []).rest;
    ReadIntExtends(u, t);
    LoadValuesExtends(ReadInt(u), 0, u[4..], [], t);
  }

  lemma {:induction false} LoadKeysExtends(count: nat, id: int, s: seq<byte>, acc: seq<KeyEntry>, t: seq<byte>)
    requires LoadKeys(count, id, s, acc).Ok?
    ensures var r := LoadKeys(count, id, s, acc); LoadKeys(count, id, s + t, acc) == Ok(r.value, r.rest + t)
    decreases |s|, 0, count
  {
    hide ReadInt, Load, PutKey, Wrap;
    if count > 0 {
      ReadIntExtends(s, t);
      LoadExtends(s[4..], t);
      var next, r := Wrap(id + ReadInt(s)), Load(s[4..]);
      LoadKeysExtends(count - 1, next, r.rest, PutKey(acc, next, r.value), t);
    }
  }

  lemma {:induction false} LoadValuesExtends(count: nat, id: int, s: seq<byte>, acc: seq<ValueEntry>, t: seq<byte>)
    requires LoadValues(count, id, s, acc).Ok?
    ensures var r := LoadValues(count, id, s, acc); LoadValues(count, id, s + t, acc) == Ok(r.value, r.rest + t)
    decreases count
  {
    hide ReadInt, LoadValue, PutValue, Wrap;
    if count > 0 {
      ReadIntExtends(s, t);
      LoadValueExtends(s[4..], t);
      var next, r := Wrap(id + ReadInt(s)), LoadValue(s[4..]);
      LoadValuesExtends(count - 1, next, r.rest, PutValue(acc, next, r.value), t);
    }
  }

  lemma {:induction false} FillExtends(k: Key, s: seq<byte>, t: seq<byte>)
    requires Fill(k, s).Ok?
    ensures var r := Fill(k, s); Fill(k, s + t) == Ok(r.value, r.rest + t)
    decreases k, 1
  {
    hide FillKeys, FillValues;
    FillKeysExtends(k.keys, s, t);
    FillValuesExtends(k.values, FillKeys(k.keys, s).rest, t);
  }

  lemma {:induction false} FillKeysExtends(es: seq<KeyEntry>, s: seq<byte>, t: seq<byte>)
    requires FillKeys(es, s).Ok?
    ensures var r := FillKeys(es, s); FillKeys(es, s + t) == Ok(r.value, r.rest + t)
    decreases es, 0
  {
    if es != [] {
      hide FillEntry;
      FillEntryExtends(es[0], s, t);
      FillKeysExtends(es[1..], FillEntry(es[0], s).rest, t);
    }
  }

  lemma {:induction false} FillEntryExtends(e: KeyEntry, s: seq<byte>, t: seq<byte>)
    requires FillEntry(e, s).Ok?
    ensures var r := FillEntry(e, s); FillEntry(e, s + t) == Ok(r.value, r.rest + t)
    decreases e, 1
  {
    FillExtends(e.key, s, t);
  }

  lemma {:induction false} FillValuesExtends(es: seq<ValueEntry>, s: seq<byte>, t: seq<byte>)
    requires FillValues(es, s).Ok?
    ensures var r := FillValues(es, s); FillValues(es, s + t) == Ok(r.value, r.rest + t)
    decreases |es|
  {
    if es != [] {
      var n := |Payload(es[0].value)|;
      assert (s + t)[n..] == s[n..] + t && (s + t)[..n] == s[..n];
      FillValuesExtends(es[1..], s[n..], t);
    }
  }

  // The whole file.

  /** The file in the uncompressed layout.  The buffer is as long as the computed sizes say: `junk` is what the two
      passes leave unwritten at its end, and what they write beyond it is not part of the file. */
  function VData(k: Key, stale: seq<seq<byte>>, junk: seq<byte>): seq<byte>
    requires Words(stale, Taken(k)) && |junk| == Max(0, 4 * Floats(k) - 4 * Taken(k))
  {
    SizeOfSave(k, stale);
    WriteInt(FILE_ID) + WriteInt(VERSION_FAST) + WriteInt(0) + WriteInt(Size(k)) + WriteInt(|SaveExternal(k)|)
    + (Save(k, stale) + (SaveExternal(k) + junk))[..Size(k) + |SaveExternal(k)|]
  }

  /** The body of a file behind its header, loaded in both passes. */
  function LoadBody(body: seq<byte>): (int, Loaded<Key>) {
    match Load(body)
    case Bad => (1, Bad)
    case Ok(blank, t) =>
      match Fill(blank, t)
      case Bad => (1, Bad)
      case Ok(k, u) => (if u == [] then 0 else 1, Ok(k, u))
  }

  /** Loads such a file: the error code and the tree. */
  function LoadKey(d: seq<byte>): (int, Loaded<Key>) {
    if |d| < HEADER || ReadInt(d) != FILE_ID || ReadInt(d[4..]) != VERSION_FAST || ReadInt(d[8..]) != 0 then (1, Bad)
    else LoadBody(d[HEADER..])
  }

  lemma HeaderBack(a: int, b: int, c: int, x: seq<byte>, s: seq<byte>)
    requires -HALF <= a < HALF && -HALF <= b < HALF && -HALF <= c < HALF
    requires s == WriteInt(a) + WriteInt(b) + WriteInt(c) + x
    ensures |s| >= 12 && ReadInt(s) == a && ReadInt(s[4..]) == b && ReadInt(s[8..]) == c && s[12..] == x
  {
    hide WriteInt, ReadInt, Wrap;
    SmallInt(a);
    SmallInt(b);
    SmallInt(c);
    assert s == WriteInt(a) + (WriteInt(b) + WriteInt(c) + x);
    IntBack(a, WriteInt(b) + WriteInt(c) + x);
    assert s[4..] == WriteInt(b) + (WriteInt(c) + x);
    IntBack(b, WriteInt(c) + x);
    assert s[8..] == WriteInt(c) + x;
    IntBack(c, x);
  }

  lemma FileBody(k: Key, stale: seq<seq<byte>>, junk: seq<byte>)
    requires Words(stale, Taken(k)) && |junk| == Max(0, 4 * Floats(k) - 4 * Taken(k))
    ensures Size(k) + |SaveExternal(k)| <= |Save(k, stale) + (SaveExternal(k) + junk)|
    ensures LoadKey(VData(k, stale, junk)) ==
            LoadBody((Save(k, stale) + (SaveExternal(k) + junk))[..Size(k) + |SaveExternal(k)|])
  {
    hide Load, Save, Fill, SaveExternal, WriteInt, ReadInt, Size, Floats, Taken;
    SizeOfSave(k, stale);
    var d := VData(k, stale, junk);
    var body := (Save(k, stale) + (SaveExternal(k) + junk))[..Size(k) + |SaveExternal(k)|];
    var x := WriteInt(Size(k)) + WriteInt(|SaveExternal(k)|) + body;
    assert d == WriteInt(FILE_ID) + WriteInt(VERSION_FAST) + WriteInt(0) + x;
    HeaderBack(FILE_ID, VERSION_FAST, 0, x, d);
    assert x[8..] == body;
    assert d[HEADER..] == d[12..][8..];
  }

  lemma WholeBody(k: Key, stale: seq<seq<byte>>, junk: seq<byte>)
    requires Good(k) && Words(stale, Taken(k))
    ensures LoadBody(Save(k, stale) + (SaveExternal(k) + junk)) ==
            (if junk == [] then 0 else 1, Ok(Written(k, stale), junk))
  {
    hide Load, Save, Fill, SaveExternal, Good, Taken, Written;
    KeyBack(k, stale, SaveExternal(k) + junk);
    WrittenExternal(k, stale);
    FillBack(Written(k, stale), junk);
  }

  /** A body that is cut short is never loaded without error. */
  lemma CutBody(whole: seq<byte>, n: nat)
    requires n < |whole| && LoadBody(whole).1.Ok? && LoadBody(whole).1.rest == []
    ensures LoadBody(whole[..n]).0 == 1
  {
    hide Load, Fill;
    var s, t := whole[..n], whole[n..];
    assert whole == s + t;
    if Load(s).Ok? && Fill(Load(s).value, Load(s).rest).Ok? {
      LoadExtends(s, t);
      FillExtends(Load(s).value, Load(s).rest, t);
    }
  }

  /** Main result: the two passes write beyond the end of the buffer exactly when more values are taken for numbers
      than there are floats, and the file is reported as correct exactly when there are as many.  Unless they write
      beyond the end the tree that was written comes back, and that is the tree itself exactly when the stale bytes
      are the data of the values taken for numbers. */
  lemma FileRoundTrip(k: Key, stale: seq<seq<byte>>, junk: seq<byte>)
    requires Good(k) && Words(stale, Taken(k)) && |junk| == Max(0, 4 * Floats(k) - 4 * Taken(k))
    ensures |Save(k, stale)| + |SaveExternal(k)| > Size(k) + |SaveExternal(k)| <==> Taken(k) > Floats(k)
    ensures LoadKey(VData(k, stale, junk)).0 == 0 <==> Taken(k) == Floats(k)
    ensures Taken(k) <= Floats(k) ==> LoadKey(VData(k, stale, junk)).1 == Ok(Written(k, stale), junk)
    ensures Written(k, stale) == k <==> stale == TakenData(k)
  {
    hide Load, Save, Fill, SaveExternal, Size, Floats, Good, Taken, Written, VData, LoadKey, LoadBody, TakenData;
    SizeOfSave(k, stale);
    WrittenSame(k, stale);
    FileBody(k, stale, junk);
    WholeBody(k, stale, junk);
    var whole, n := Save(k, stale) + (SaveExternal(k) + junk), Size(k) + |SaveExternal(k)|;
    if Taken(k) <= Floats(k) {
      assert whole[..n] == whole;
    } else {
      CutBody(whole, n);
    }
  }

  /** Two faults can hide each other: with one float and one value taken for a number the file is reported as correct,
      and still only the stale bytes decide whether the tree has come back. */
  lemma FaultsCancel(stale: seq<byte>)
    requires |stale| == 4
    ensures var k := Key([], [ValueEntry(1, Word(FLOAT, 0)), ValueEntry(2, Data(UNKNOWN, [1, 2, 3, 4]))]);
      Words([stale], Taken(k)) && Floats(k) == 1 == Taken(k) && LoadKey(VData(k, [stale], [])).0 == 0 &&
      (LoadKey(VData(k, [stale], [])).1 == Ok(k, []) <==> stale == [1, 2, 3, 4])
  {
    hide TakenValues, FloatsValues, SizeValues, TakenDataValues, LoadKey, VData, Written;
    var f, v := ValueEntry(1, Word(FLOAT, 0)), ValueEntry(2, Data(UNKNOWN, [1, 2, 3, 4]));
    var k := Key([], [f, v]);
    assert TakenForInt(v.value);
    NoValues();
    OneMoreValue(v, [], [v]);
    OneMoreValue(f, [v], [f, v]);
    assert TakenData(k) == [[1, 2, 3, 4]];
    assert GoodValue(f.value) && GoodValue(v.value) && Good(k);
    assert [stale][0] == stale;
    FileRoundTrip(k, [stale], []);
  }
}
