/**
 * What the codec does outside its round trip: inputs it rejects, outputs it
 * cannot read back, and an input on which its reader never stops.
 */
module NbtQuirks {
  import opened Wrappers
  import opened Wire
  import opened Tags
  import opened NbtParse
  import opened NbtEncode
  import opened NbtRoundTrip
  import opened NbtRoot

  /** A tag kind the version does not dispatch on fails both in the reader and in the writer. */
  lemma UnknownKindFails(v: Version, kind: int, p: Payload, d: seq<byte>, pos: int, fuel: nat)
    requires !KnownKind(v, kind) && fuel >= 1
    ensures ParsePayload(v, d, kind, pos, fuel) == Err(UnknownTagType(kind))
    ensures EncodePayload(v, kind, p) == Err(UnknownTagType(kind))
  {
  }

  /** An End-kind payload reads nothing; the Later writer writes nothing for it, the Earlier one the text "undefined". */
  lemma EndPayload(v: Version, d: seq<byte>, pos: int, fuel: nat)
    requires fuel >= 1
    ensures ParsePayload(v, d, TAG_END, pos, fuel) == Ok((EndP, pos))
    ensures EncodePayload(v, TAG_END, EndP) == Ok(if v == Later then [] else UNDEFINED)
  {
  }

  /**
   * IntArray: the Earlier version knows no kind 11, and the Later reader,
   * after reading the count and the ints, returns an undeclared variable, so
   * it never yields an IntArray, whatever the input. The Later writer does
   * write one.
   */
  lemma IntArrayNeverDecodes(v: Version, d: seq<byte>, pos: int, fuel: nat, xs: seq<int>)
    ensures ParsePayload(v, d, TAG_INT_ARRAY, pos, fuel).Err?
    ensures v == Earlier && fuel >= 1 ==> ParsePayload(v, d, TAG_INT_ARRAY, pos, fuel) == Err(UnknownTagType(TAG_INT_ARRAY))
    ensures EncodePayload(Later, TAG_INT_ARRAY, IntArrayP(xs)) == Ok(WriteInt(|xs|) + WriteInts(xs))
  {
  }

  /** Both encoders reject a root object with more than one key, with none, or whose one tag is not a compound. */
  lemma EncodeRootErrors(data: seq<Entry>, enclose: bool)
    ensures |data| > 1 ==>
      EncodeLater(data, enclose) == Err(TooManyRootTags(|data|)) && EncodeEarlier(data, enclose) == Err(TooManyRootTags(|data|))
    ensures |data| == 0 ==> EncodeLater(data, enclose) == Err(MissingRootTag) && EncodeEarlier(data, enclose) == Err(MissingRootTag)
    ensures |data| == 1 && data[0].tag.kind != TAG_COMPOUND ==>
      EncodeLater(data, enclose) == Err(BadRootTag(data[0].tag.kind)) && EncodeEarlier(data, enclose) == Err(BadRootTag(data[0].tag.kind))
  {
  }

  /** The reader rejects a root whose tag id, after any wrapper skip, is not a compound's. */
  lemma RootMustBeCompound(v: Version, d: seq<byte>, fuel: nat)
    requires |d| >= 3 && (d[1] != 0 || d[2] != 0) && d[0] != TAG_COMPOUND
    ensures ParseRoot(v, d, fuel) == Err(BadRootTag(Signed([d[0]])))
  {
    assert Substr(d, 0, 1) == [d[0]];
    assert Substr(d, 1, 2) == [d[1], d[2]];
    SignedPair(d[1], d[2]);
  }

  /** Two bytes read as a signed short. */
  lemma SignedPair(hi: byte, lo: byte)
    ensures Signed([hi, lo]) == (if hi >= 0x80 then hi - 0x100 else hi as int) * 0x100 + lo
  {
    SignedSnoc([hi], lo);
    assert [hi] + [lo] == [hi, lo];
  }

  /** The bytes of the first j entries of a compound begin the bytes of all of them. */
  lemma {:induction false} EntriesPrefix(v: Version, es: seq<Entry>, j: nat)
    requires j <= |es| && EncodeEntries(v, es).Ok?
    ensures EncodeEntries(v, es[..j]).Ok? && EncodeEntries(v, es[..j]).value <= EncodeEntries(v, es).value
    decreases |es|
  {
    if j == |es| {
      assert es[..j] == es;
    } else {
      var front := es[..|es| - 1];
      assert front[..j] == es[..j];
      EntriesPrefix(v, front, j);
    }
  }

  /** The kind, name and payload of a compound's first entry begin the bytes of its entries. */
  lemma FirstEntryBytes(v: Version, es: seq<Entry>, pl: seq<byte>)
    requires es != [] && EncodeEntries(v, es).Ok?
    requires EncodePayload(v, es[0].tag.kind, es[0].tag.payload) == Ok(pl)
    ensures WriteByte(es[0].tag.kind) + WriteString(es[0].name) + pl <= EncodeEntries(v, es).value
  {
    EntriesPrefix(v, es, 1);
    assert es[..0] == [];
    EntriesSnoc(v, es, 0);
    assert EncodeEntries(v, es[..1]).value == WriteByte(es[0].tag.kind) + WriteString(es[0].name) + pl;
  }

  /** A root that looks wrapped, a compound id and a zero short, is rejected with the next byte as its id unless that is a compound's. */
  lemma WrappedRootId(v: Version, d: seq<byte>, k: int, fuel: nat)
    requires At(d, 0, WriteByte(TAG_COMPOUND) + WriteShort(0) + WriteByte(k))
    requires 0 <= k < 0x80 && k != TAG_COMPOUND
    ensures ParseRoot(v, d, fuel) == Err(BadRootTag(k))
  {
    AtThree(d, 0, WriteByte(TAG_COMPOUND), WriteShort(0), WriteByte(k));
    ReadByteAt(d, 0, TAG_COMPOUND);
    ReadShortAt(d, 1, 0);
    ReadByteAt(d, 3, k);
  }

  /**
   * The root reader on a compound entry with an empty name: the zero name
   * length is taken for the unnamed wrapper's, so the byte after it is read as
   * the root's tag id. That byte is the compound's End byte when it has no
   * entries, else its first entry's kind; when that kind is a compound's, the
   * first entry is read as the root.
   */
  lemma EmptyNameRead(v: Version, es: seq<Entry>, x: seq<byte>, rest: seq<byte>, d: seq<byte>, fuel: nat)
    requires EntriesEncodable(v, es) && EncodeEntries(v, es) == Ok(x)
    requires d == WriteByte(TAG_COMPOUND) + WriteString([]) + x + WriteByte(TAG_END) + rest
    requires fuel >= Size(CompoundP(es))
    ensures es == [] ==> ParseRoot(v, d, fuel) == Err(BadRootTag(TAG_END))
    ensures es != [] && es[0].tag.kind != TAG_COMPOUND ==> ParseRoot(v, d, fuel) == Err(BadRootTag(es[0].tag.kind))
    ensures es != [] && es[0].tag.kind == TAG_COMPOUND ==> ParseRoot(v, d, fuel) == Ok([es[0]])
  {
    var head := WriteByte(TAG_COMPOUND) + WriteShort(0);
    if es == [] {
      assert d == head + WriteByte(TAG_END) + rest;
      PrefixAt(head + WriteByte(TAG_END), rest);
      WrappedRootId(v, d, TAG_END, fuel);
    } else {
      assert EntryEncodable(v, es[0]);
      PayloadEncodes(v, es[0].tag.kind, es[0].tag.payload);
      var pl := EncodePayload(v, es[0].tag.kind, es[0].tag.payload).value;
      FirstEntryBytes(v, es, pl);
      if es[0].tag.kind != TAG_COMPOUND {
        FirstEntryKindRead(v, es, x, pl, rest, d, fuel);
      } else {
        assert Size(CompoundP(es)) == 2 + Size(es[0].tag.payload) + EntriesSize(es, 1);
        FirstEntryRootRead(v, es, x, pl, rest, d, fuel);
      }
    }
  }

  /** The first entry's kind, not a compound's, is read as the root's id. */
  lemma FirstEntryKindRead(v: Version, es: seq<Entry>, x: seq<byte>, pl: seq<byte>, rest: seq<byte>, d: seq<byte>, fuel: nat)
    requires es != [] && 0 <= es[0].tag.kind < 0x80 && es[0].tag.kind != TAG_COMPOUND
    requires WriteByte(es[0].tag.kind) + WriteString(es[0].name) + pl <= x
    requires d == WriteByte(TAG_COMPOUND) + WriteString([]) + x + WriteByte(TAG_END) + rest
    ensures ParseRoot(v, d, fuel) == Err(BadRootTag(es[0].tag.kind))
  {
    var head := WriteByte(TAG_COMPOUND) + WriteShort(0);
    var k := WriteByte(es[0].tag.kind);
    var after := x[1..] + WriteByte(TAG_END) + rest;
    assert x == k + x[1..];
    assert d == head + k + after;
    PrefixAt(head + k, after);
    WrappedRootId(v, d, es[0].tag.kind, fuel);
  }

  /** A first entry of the compound kind is read as the root. */
  lemma FirstEntryRootRead(v: Version, es: seq<Entry>, x: seq<byte>, pl: seq<byte>, rest: seq<byte>, d: seq<byte>, fuel: nat)
    requires es != [] && es[0].tag.kind == TAG_COMPOUND && EntryEncodable(v, es[0])
    requires EncodePayload(v, TAG_COMPOUND, es[0].tag.payload) == Ok(pl)
    requires WriteByte(TAG_COMPOUND) + WriteString(es[0].name) + pl <= x
    requires d == WriteByte(TAG_COMPOUND) + WriteString([]) + x + WriteByte(TAG_END) + rest
    requires fuel >= Size(es[0].tag.payload)
    ensures ParseRoot(v, d, fuel) == Ok([es[0]])
  {
    var first := WriteByte(TAG_COMPOUND) + WriteString(es[0].name) + pl;
    var tail := x[|first|..];
    assert x == first + tail;
    assert d == Enclosed(first + tail, true) + rest;
    RootReads(v, es[0], pl, tail, true, rest, d, fuel);
  }

  /**
   * A root with an empty name, otherwise one the Later round trip gives back,
   * is not read back from the Later writer's unwrapped output: decode fails
   * with the End byte or the first entry's kind as the root's id, or, when the
   * first entry is a compound, gives that entry as the root.
   */
  lemma EmptyRootNameLater(data: seq<Entry>, es: seq<Entry>, rest: seq<byte>, inflate: seq<byte> -> Option<seq<byte>>, fuel: nat)
    requires RootEncodable(Later, data, true) && data[0] == Entry([], Tag(TAG_COMPOUND, CompoundP(es)))
    requires fuel >= Size(CompoundP(es))
    ensures EncodeLater(data, false).Ok?
    ensures es == [] ==> DecodeLater(EncodeLater(data, false).value + rest, inflate, fuel) == Err(BadRootTag(TAG_END))
    ensures es != [] && es[0].tag.kind != TAG_COMPOUND ==>
      DecodeLater(EncodeLater(data, false).value + rest, inflate, fuel) == Err(BadRootTag(es[0].tag.kind))
    ensures es != [] && es[0].tag.kind == TAG_COMPOUND ==>
      DecodeLater(EncodeLater(data, false).value + rest, inflate, fuel) == Ok([es[0]])
    ensures DecodeLater(EncodeLater(data, false).value + rest, inflate, fuel) != Ok(data)
  {
    PayloadEncodes(Later, TAG_COMPOUND, CompoundP(es));
    var x := EncodeEntries(Later, es).value;
    LaterBytes(data, false, x + WriteByte(TAG_END));
    var d := EncodeLater(data, false).value + rest;
    assert d == WriteByte(TAG_COMPOUND) + WriteString([]) + x + WriteByte(TAG_END) + (WriteByte(TAG_END) + rest);
    assert d[0] == TAG_COMPOUND;
    EmptyNameRead(Later, es, x, WriteByte(TAG_END) + rest, d, fuel);
    if es != [] {
      assert Size(CompoundP(es)) == 2 + Size(es[0].tag.payload) + EntriesSize(es, 1);
    }
  }

  /** The same for the Earlier writer's unwrapped output and the Earlier decode. */
  lemma EmptyRootNameEarlier(data: seq<Entry>, es: seq<Entry>, rest: seq<byte>, inflate: seq<byte> -> Option<seq<byte>>, fuel: nat)
    requires RootEncodable(Earlier, data, true) && data[0] == Entry([], Tag(TAG_COMPOUND, CompoundP(es)))
    requires fuel >= Size(CompoundP(es))
    ensures EncodeEarlier(data, false).Ok?
    ensures es == [] ==> DecodeEarlier(EncodeEarlier(data, false).value + rest, inflate, fuel) == Err(BadRootTag(TAG_END))
    ensures es != [] && es[0].tag.kind != TAG_COMPOUND ==>
      DecodeEarlier(EncodeEarlier(data, false).value + rest, inflate, fuel) == Err(BadRootTag(es[0].tag.kind))
    ensures es != [] && es[0].tag.kind == TAG_COMPOUND ==>
      DecodeEarlier(EncodeEarlier(data, false).value + rest, inflate, fuel) == Ok([es[0]])
    ensures DecodeEarlier(EncodeEarlier(data, false).value + rest, inflate, fuel) != Ok(data)
  {
    PayloadEncodes(Earlier, TAG_COMPOUND, CompoundP(es));
    var x := EncodeEntries(Earlier, es).value;
    EarlierBytes(data, false, x + WriteByte(TAG_END));
    var d := EncodeEarlier(data, false).value + rest;
    assert d == WriteByte(TAG_COMPOUND) + WriteString([]) + x + WriteByte(TAG_END) + rest;
    EmptyNameRead(Earlier, es, x, rest, d, fuel);
    EarlierNeverInflates(d, inflate, fuel);
    if es != [] {
      assert Size(CompoundP(es)) == 2 + Size(es[0].tag.payload) + EntriesSize(es, 1);
    }
  }

  /**
   * A crafted input: a root compound named "A" whose first entry is a Byte
   * with a name length of -4. The reader's pointer moves back by 4 onto the
   * name byte, which it reads as the Byte payload, and it stands again before
   * the same entry. The reader never finishes: for every step bound it runs
   * out of steps.
   */
  const CIRCULAR: seq<byte> := [0x0A, 0x00, 0x01, 0x41, 0x01, 0xFF, 0xFC]

  /** The entry the circular input stores over and over. */
  const CIRCULAR_ENTRY: Entry := Entry([], Tag(TAG_BYTE, ByteP(0x41)))

  /** The reads the circular input's entry loop makes. */
  lemma CircularReads()
    ensures SignedAt(CIRCULAR, 4, 1) == Ok((TAG_BYTE, 5))
    ensures StringAt(CIRCULAR, 5) == Ok(([], 3))
    ensures Substr(CIRCULAR, 3, 1) == [0x41]
  {
    var d := CIRCULAR;
    assert d[4..5] == [0x01];
    assert Substr(d, 4, 1) == [0x01];
    assert d[5..7] == [0xFF, 0xFC];
    assert Substr(d, 5, 2) == [0xFF, 0xFC];
    SignedPair(0xFF, 0xFC);
    assert d[3..4] == [0x41];
  }

  lemma {:induction false} CircularEntries(v: Version, acc: seq<Entry>, fuel: nat)
    requires acc == [] || acc == [CIRCULAR_ENTRY]
    ensures ParseEntries(v, CIRCULAR, 4, acc, fuel) == Err(OutOfFuel)
    decreases fuel
  {
    var d := CIRCULAR;
    CircularReads();
    if fuel >= 1 {
      assert ParseEntries(v, d, 4, acc, fuel) == EntryAt(v, d, TAG_BYTE, 5, acc, fuel - 1);
      if fuel >= 2 {
        assert ParsePayload(v, d, TAG_BYTE, 3, fuel - 1) == Ok((ByteP(0x41), 4));
        assert Put(acc, [], Tag(TAG_BYTE, ByteP(0x41))) == [CIRCULAR_ENTRY];
        CircularEntries(v, [CIRCULAR_ENTRY], fuel - 1);
      }
    }
  }

  /** Neither version's decode finishes on the circular input, whatever the step bound. */
  lemma CircularNeverEnds(inflate: seq<byte> -> Option<seq<byte>>, fuel: nat)
    ensures DecodeLater(CIRCULAR, inflate, fuel) == Err(OutOfFuel)
    ensures DecodeEarlier(CIRCULAR, inflate, fuel) == Err(OutOfFuel)
  {
    var d := CIRCULAR;
    assert Substr(d, 0, 1) == [0x0A];
    assert Substr(d, 1, 1) == [0x00];
    assert Substr(d, 1, 2) == [0x00, 0x01];
    assert Substr(d, 3, 1) == [0x41];
    SignedPair(0x00, 0x01);
    assert StringAt(d, 1) == Ok(([0x41], 4));
    assert !IsGzip(d);
    if fuel >= 1 {
      CircularEntries(Later, [], fuel - 1);
      CircularEntries(Earlier, [], fuel - 1);
      assert ParsePayload(Later, d, TAG_COMPOUND, 4, fuel) == Err(OutOfFuel);
      assert ParsePayload(Earlier, d, TAG_COMPOUND, 4, fuel) == Err(OutOfFuel);
    }
    assert ParseRoot(Later, d, fuel) == Err(OutOfFuel);
    assert ParseRoot(Earlier, d, fuel) == Err(OutOfFuel);
  }
}
