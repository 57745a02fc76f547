/** A small XIF file byte by byte: a key below the root, a number, a string and external values at two levels. */
module XifExample {
  import opened Basics
  import opened Xif

  function Child(): Key {
    Key([], [ValueEntry(1, External([6]))])
  }

  function Number(): ValueEntry {
    ValueEntry(2, Word(INT32, 300))
  }

  function Text(): ValueEntry {
    ValueEntry(7, Data(STRING, [97, 98, 0]))
  }

  function Outside(): ValueEntry {
    ValueEntry(9, External([7, 8]))
  }

  function Root(): Key {
    Key([KeyEntry(5, Child())], [Number(), Text(), Outside()])
  }

  function ChildBytes(): seq<byte> {
    [0, 0, 0, 0, 1, 0, 0, 0] + [1, 0, 0, 0, 4, 1, 0, 0, 0]
  }

  function ValueBytes(): seq<byte> {
    [2, 0, 0, 0, 2, 44, 1, 0, 0] + [5, 0, 0, 0, 3, 3, 0, 0, 0, 97, 98, 0] + [2, 0, 0, 0, 4, 2, 0, 0, 0]
  }

  /** Number of keys, the id and the contents of each; number of values, the difference of ids, type, number or size,
      and contents of each. */
  function TreeBytes(): seq<byte> {
    [1, 0, 0, 0] + [5, 0, 0, 0] + ChildBytes() + ([3, 0, 0, 0] + ValueBytes())
  }

  /** Id, version, size before compression, size of the first pass, size of the second pass; then both passes. */
  function FileBytes(): seq<byte> {
    [0x58, 0x49, 0x46, 0x1a] + [2, 0, 0, 0] + [0, 0, 0, 0] + [59, 0, 0, 0] + [3, 0, 0, 0] + (TreeBytes() + [6, 7, 8])
  }

  /** A list of values of which the first is `e`. */
  lemma FirstValue(e: ValueEntry, rest: seq<ValueEntry>, id: int, es: seq<ValueEntry>)
    requires es == [e] + rest
    ensures FormatValues(es, id) == WriteInt(e.id - id) + FormatValue(e.value) + FormatValues(rest, e.id)
    ensures ExternalValues(es) == Payload(e.value) + ExternalValues(rest)
    ensures SizeValues(es) == 9 + ValueSize(e.value) + SizeValues(rest)
    ensures TakenValues(es) == (if TakenForInt(e.value) then 1 else 0) + TakenValues(rest)
    ensures FloatsValues(es) == (if e.value.Word? && e.value.kind == FLOAT then 1 else 0) + FloatsValues(rest)
  {
    assert es[0] == e && es[1..] == rest;
  }

  lemma NoValue(id: int)
    ensures FormatValues([], id) == [] == ExternalValues([])
    ensures SizeValues([]) == TakenValues([]) == FloatsValues([]) == 0
  {
  }

  lemma SmallBytes(n: nat)
    requires n < 256
    ensures WriteInt(n) == [n, 0, 0, 0]
  {
    LittleEndian(n);
  }

  /** What is written for the values of the example. */
  lemma Fields(n: nat)
    requires n < 256
    ensures FormatValue(Word(INT32, 300)) == [2, 44, 1, 0, 0]
    ensures FormatValue(Data(STRING, [97, 98, 0])) == [3, 3, 0, 0, 0, 97, 98, 0]
    ensures forall d :: |d| == n ==> FormatValue(External(d)) == [4, n, 0, 0, 0]
  {
    hide WriteInt;
    LittleEndian(300);
    SmallBytes(3);
    SmallBytes(n);
  }

  lemma ChildBack()
    ensures Format(Child()) == ChildBytes() && SaveExternal(Child()) == [6]
  {
    hide FormatValues, ExternalValues, FormatValue, WriteInt, FormatKeys, ExternalKeys;
    var e := ValueEntry(1, External([6]));
    SmallBytes(0);
    SmallBytes(1);
    Fields(1);
    NoValue(1);
    NoKey(0);
    FirstValue(e, [], 0, [e]);
  }

  lemma NoKey(id: int)
    ensures FormatKeys([], id) == [] == ExternalKeys([])
    ensures SizeKeys([]) == TakenKeys([]) == FloatsKeys([]) == 0
  {
  }

  lemma OneKey(e: KeyEntry)
    ensures FormatKeys([e], 0) == WriteInt(e.id) + Format(e.key) && ExternalKeys([e]) == SaveExternal(e.key)
    ensures SizeKeys([e]) == 4 + Size(e.key) && TakenKeys([e]) == Taken(e.key) && FloatsKeys([e]) == Floats(e.key)
  {
    hide Format, SaveExternal, Size, Taken, Floats, WriteInt;
    NoKey(e.id);
    assert [e][0] == e && [e][1..] == [];
  }

  lemma ChildCounts()
    ensures Size(Child()) == 17 && Taken(Child()) == Floats(Child()) == 0 && Good(Child())
  {
    hide SizeValues, TakenValues, FloatsValues, SizeKeys, TakenKeys, FloatsKeys;
    var e := ValueEntry(1, External([6]));
    NoValue(1);
    NoKey(0);
    FirstValue(e, [], 0, [e]);
    assert GoodValue(e.value) && Id(e.id);
  }

  lemma ValuesAre()
    ensures FormatValues(Root().values, 0) == ValueBytes() && ExternalValues(Root().values) == [7, 8]
  {
    hide FormatValues, ExternalValues, FormatValue, WriteInt;
    SmallBytes(2);
    SmallBytes(5);
    Fields(2);
    NoValue(9);
    FirstValue(Outside(), [], 7, [Outside()]);
    FirstValue(Text(), [Outside()], 2, [Text(), Outside()]);
    FirstValue(Number(), [Text(), Outside()], 0, [Number(), Text(), Outside()]);
  }

  lemma ValueCounts()
    ensures var es := Root().values; SizeValues(es) == 30 && TakenValues(es) == FloatsValues(es) == 0
  {
    hide SizeValues, TakenValues, FloatsValues, FormatValues, ExternalValues;
    NoValue(9);
    FirstValue(Outside(), [], 7, [Outside()]);
    FirstValue(Text(), [Outside()], 2, [Text(), Outside()]);
    FirstValue(Number(), [Text(), Outside()], 0, [Number(), Text(), Outside()]);
  }

  lemma RootBytes()
    ensures Format(Root()) == TreeBytes() && SaveExternal(Root()) == [6, 7, 8]
  {
    hide FormatKeys, FormatValues, ExternalKeys, ExternalValues, WriteInt, Child, ChildBytes, ValueBytes;
    SmallBytes(1);
    SmallBytes(3);
    SmallBytes(5);
    ChildBack();
    ValuesAre();
    OneKey(KeyEntry(5, Child()));
    assert Root().keys == [KeyEntry(5, Child())];
  }

  lemma RootCounts()
    ensures Size(Root()) == 59 && Taken(Root()) == Floats(Root()) == 0 && Good(Root())
  {
    hide SizeValues, TakenValues, FloatsValues, SizeKeys, TakenKeys, FloatsKeys, Child, FormatKeys, ExternalKeys;
    ChildCounts();
    ValueCounts();
    OneKey(KeyEntry(5, Child()));
    assert Root().keys == [KeyEntry(5, Child())];
    assert GoodValue(Number().value) && GoodValue(Text().value) && GoodValue(Outside().value);
  }

  /** Type codes, byte order, header and the order of the two passes: exactly these bytes are written for the tree,
      and they load as the tree. */
  lemma FileOfRoot()
    ensures Words([], Taken(Root())) && Floats(Root()) == 0
    ensures VData(Root(), [], []) == FileBytes()
    ensures LoadKey(FileBytes()) == (0, Ok(Root(), []))
  {
    hide Root, TreeBytes, Size, Floats, Taken, Save, SaveExternal, Good, LoadKey, Written, WriteInt, TakenData, Format;
    RootBytes();
    RootCounts();
    WrittenSame(Root(), []);
    FileRoundTrip(Root(), [], []);
    assert TakenData(Root()) == [];
    SaveIs();
    SmallBytes(0);
    SmallBytes(2);
    SmallBytes(3);
    SmallBytes(59);
    LittleEndian(FILE_ID);
    SizeOfSave(Root(), []);
  }

  /** The type byte tells a number (0, 2 and 5), an external value (4) and data in place (any other) apart. */
  lemma TypeCodes(kind: byte)
    ensures LoadValue([kind, 2, 0, 0, 0, 8, 9]) ==
      if kind == 0 || kind == 2 || kind == 5 then Ok(Word(kind, 2), [8, 9])
      else if kind == 4 then Ok(External([0, 0]), [8, 9])
      else Ok(Data(kind, [8, 9]), [])
  {
    var s: seq<byte> := [kind, 2, 0, 0, 0, 8, 9];
    assert s[1..] == [2, 0, 0, 0, 8, 9] && s[5..] == [8, 9];
    assert ReadInt(s[1..]) == 2;
    assert s[5..][..2] == [8, 9] && s[5..][2..] == [];
    assert Zeros(2) == [0, 0];
  }

  lemma SaveIs()
    requires Taken(Root()) == 0 && Written(Root(), []) == Root()
    ensures Save(Root(), []) == Format(Root())
  {
  }
}
