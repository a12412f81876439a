/**
 * The codec at the level of whole inputs and outputs: decode after encode
 * gives the root object back, with or without the unnamed wrapper and
 * whatever bytes follow; the two versions' outputs differ by the Later
 * writer's extra End byte; and the gzip branch of the Earlier decode never
 * fires.
 */
module NbtRoot {
  import opened Wrappers
  import opened Wire
  import opened Tags
  import opened NbtParse
  import opened NbtEncode
  import opened NbtRoundTrip

  /**
   * A root object that decode gives back: a single compound entry that is
   * encodable, whose name is non-empty unless the output is wrapped in the
   * unnamed compound.
   */
  predicate RootEncodable(v: Version, data: seq<Entry>, enclose: bool) {
    |data| == 1 && data[0].tag.kind == TAG_COMPOUND && EntryEncodable(v, data[0])
    && (enclose || data[0].name != [])
  }

  /** The bytes x stand at the start of x + rest. */
  lemma PrefixAt(x: seq<byte>, rest: seq<byte>)
    ensures At(x + rest, 0, x)
  {
    forall i | 0 <= i < |x| ensures (x + rest)[0 + i] == x[i] {
    }
  }

  /**
   * The root reader, on bytes that start with the root entry (kind, name,
   * compound payload, then anything), wrapped in the unnamed compound or not,
   * gives back the one-entry root object.
   */
  lemma RootReads(v: Version, top: Entry, pl: seq<byte>, tail: seq<byte>, enclose: bool, rest: seq<byte>, d: seq<byte>, fuel: nat)
    requires top.tag.kind == TAG_COMPOUND && EntryEncodable(v, top) && (enclose || top.name != [])
    requires EncodePayload(v, TAG_COMPOUND, top.tag.payload) == Ok(pl)
    requires d == Enclosed(WriteByte(TAG_COMPOUND) + WriteString(top.name) + pl + tail, enclose) + rest
    requires fuel >= Size(top.tag.payload)
    ensures ParseRoot(v, d, fuel) == Ok([top])
  {
    var entry := WriteByte(TAG_COMPOUND) + WriteString(top.name) + pl;
    var h := if enclose then 3 else 0;
    PrefixAt(Enclosed(entry + tail, enclose), rest);
    if enclose {
      AtThree(d, 0, WriteByte(TAG_COMPOUND) + WriteShort(0), entry + tail, WriteByte(TAG_END));
      AtSplit(d, 0, WriteByte(TAG_COMPOUND), WriteShort(0), 1);
      ReadShortAt(d, 1, 0);
    } else {
      AtThree(d, 0, WriteByte(TAG_COMPOUND), WriteString(top.name), pl + tail);
      AtSplit(d, 1, WriteShort(|top.name|), top.name, 3);
      ReadShortAt(d, 1, |top.name|);
    }
    AtSplit(d, h, entry, tail, h + |entry|);
    EntryHeader(d, h, TAG_COMPOUND, top.name, pl);
    PayloadRoundTrip(v, TAG_COMPOUND, top.tag.payload, pl, d, h + 3 + |top.name|, fuel);
  }

  /** What the Later writer outputs for a root object: its one entry, the End byte of the root compound, the optional wrapper. */
  lemma LaterBytes(data: seq<Entry>, enclose: bool, pl: seq<byte>)
    requires |data| == 1 && data[0].tag.kind == TAG_COMPOUND
    requires EncodePayload(Later, TAG_COMPOUND, data[0].tag.payload) == Ok(pl)
    ensures EncodeLater(data, enclose)
         == Ok(Enclosed(WriteByte(TAG_COMPOUND) + WriteString(data[0].name) + pl + WriteByte(TAG_END), enclose))
  {
    var e := data[0];
    assert data[..|data| - 1] == [];
    assert EncodeEntries(Later, data[..|data| - 1]) == Ok([]);
    assert [] + WriteByte(e.tag.kind) + WriteString(e.name) + pl == WriteByte(TAG_COMPOUND) + WriteString(e.name) + pl;
    assert EncodeEntries(Later, data) == Ok(WriteByte(TAG_COMPOUND) + WriteString(e.name) + pl);
  }

  /** What the Earlier writer outputs for a root object: kind, name and payload of its one entry, the optional wrapper. */
  lemma EarlierBytes(data: seq<Entry>, enclose: bool, pl: seq<byte>)
    requires |data| == 1 && data[0].tag.kind == TAG_COMPOUND
    requires EncodePayload(Earlier, TAG_COMPOUND, data[0].tag.payload) == Ok(pl)
    ensures EncodeEarlier(data, enclose)
         == Ok(Enclosed(WriteByte(TAG_COMPOUND) + WriteString(data[0].name) + pl, enclose))
  {
  }

  /** Output that starts with a compound's kind byte does not pass the Later gzip test. */
  lemma NotGzip(x: seq<byte>, rest: seq<byte>, enclose: bool, d: seq<byte>)
    requires Enclosed(WriteByte(TAG_COMPOUND) + x, enclose) + rest == d
    ensures !IsGzip(d)
  {
    assert d[0] == TAG_COMPOUND;
  }

  /**
   * Later round trip: decode gives back every encodable root object from the
   * output of encode, wrapped or not, whatever bytes follow it, once the step
   * bound covers the tree.
   */
  lemma LaterRoundTrip(data: seq<Entry>, enclose: bool, rest: seq<byte>, inflate: seq<byte> -> Option<seq<byte>>, fuel: nat)
    requires RootEncodable(Later, data, enclose) && fuel >= Size(data[0].tag.payload)
    ensures EncodeLater(data, enclose).Ok?
    ensures DecodeLater(EncodeLater(data, enclose).value + rest, inflate, fuel) == Ok(data)
  {
    var top := data[0];
    PayloadEncodes(Later, TAG_COMPOUND, top.tag.payload);
    var pl := EncodePayload(Later, TAG_COMPOUND, top.tag.payload).value;
    LaterBytes(data, enclose, pl);
    var entry := WriteString(top.name) + pl + WriteByte(TAG_END);
    assert WriteByte(TAG_COMPOUND) + WriteString(top.name) + pl + WriteByte(TAG_END) == WriteByte(TAG_COMPOUND) + entry;
    var d := EncodeLater(data, enclose).value + rest;
    NotGzip(entry, rest, enclose, d);
    RootReads(Later, top, pl, WriteByte(TAG_END), enclose, rest, d, fuel);
    assert data == [top];
  }

  /** Earlier round trip: the same, for the Earlier writer's output and the Earlier decode. */
  lemma EarlierRoundTrip(data: seq<Entry>, enclose: bool, rest: seq<byte>, inflate: seq<byte> -> Option<seq<byte>>, fuel: nat)
    requires RootEncodable(Earlier, data, enclose) && fuel >= Size(data[0].tag.payload)
    ensures EncodeEarlier(data, enclose).Ok?
    ensures DecodeEarlier(EncodeEarlier(data, enclose).value + rest, inflate, fuel) == Ok(data)
  {
    var top := data[0];
    PayloadEncodes(Earlier, TAG_COMPOUND, top.tag.payload);
    var pl := EncodePayload(Earlier, TAG_COMPOUND, top.tag.payload).value;
    EarlierBytes(data, enclose, pl);
    var entry := WriteByte(TAG_COMPOUND) + WriteString(top.name) + pl;
    assert entry + [] == entry;
    var d := EncodeEarlier(data, enclose).value + rest;
    RootReads(Earlier, top, pl, [], enclose, rest, d, fuel);
    assert data == [top];
    EarlierNeverInflates(d, inflate, fuel);
  }

  /**
   * The Earlier gzip test compares a signed byte with 0x8B, which no signed
   * byte equals: decode never hands its input to the inflater, it reads the
   * root directly once two bytes are present.
   */
  lemma EarlierNeverInflates(d: seq<byte>, inflate: seq<byte> -> Option<seq<byte>>, fuel: nat)
    ensures DecodeEarlier(d, inflate, fuel) == if |d| < 2 then Err(Truncated) else ParseRoot(Earlier, d, fuel)
  {
    if |d| >= 2 {
      assert Substr(d, 1, 1) == [d[1]];
      assert SignedAt(d, 1, 1).value.0 < 0x80;
    }
  }

  /**
   * Later writes the root with its compound writer: one End byte more than
   * the Earlier writer, inside any wrapping.
   */
  lemma LaterExtraEnd(data: seq<Entry>, enclose: bool)
    requires |data| == 1 && data[0].tag.kind == TAG_COMPOUND && Encodable(Earlier, TAG_COMPOUND, data[0].tag.payload)
    ensures EncodeLater(data, enclose).Ok? && EncodeEarlier(data, enclose).Ok?
    ensures EncodeLater(data, false).value == EncodeEarlier(data, false).value + [TAG_END]
    ensures EncodeLater(data, true).value == [0x0A, 0x00, 0x00] + EncodeEarlier(data, false).value + [0x00, 0x00]
  {
    var top := data[0];
    PayloadEncodes(Earlier, TAG_COMPOUND, top.tag.payload);
    SameEncoding(TAG_COMPOUND, top.tag.payload);
    var pl := EncodePayload(Earlier, TAG_COMPOUND, top.tag.payload).value;
    LaterBytes(data, enclose, pl);
    LaterBytes(data, false, pl);
    LaterBytes(data, true, pl);
    EarlierBytes(data, enclose, pl);
    EarlierBytes(data, false, pl);
  }

  /**
   * Apart from the End kind, which the Earlier writer writes as the text
   * "undefined", both versions write the same bytes for the same tree.
   */
  lemma {:induction false} SameEncoding(kind: int, p: Payload)
    requires Encodable(Earlier, kind, p)
    ensures EncodePayload(Later, kind, p) == EncodePayload(Earlier, kind, p)
    decreases p, 1
  {
    match p
    case ListP(t, items) => SameItems(t, items);
    case CompoundP(es) => SameEntries(es);
    case _ =>
  }

  lemma {:induction false} SameItems(t: int, items: seq<Payload>)
    requires ItemsEncodable(Earlier, t, items)
    ensures EncodeItems(Later, t, items) == EncodeItems(Earlier, t, items)
    decreases items, 0
  {
    if items != [] {
      SameItems(t, items[..|items| - 1]);
      SameEncoding(t, items[|items| - 1]);
    }
  }

  lemma {:induction false} SameEntries(es: seq<Entry>)
    requires forall i :: 0 <= i < |es| ==> EntryEncodable(Earlier, es[i])
    ensures EncodeEntries(Later, es) == EncodeEntries(Earlier, es)
    decreases es, 0
  {
    if es != [] {
      var e := es[|es| - 1];
      SameEntries(es[..|es| - 1]);
      SameEncoding(e.tag.kind, e.tag.payload);
    }
  }

  /** What the Earlier version can write and read back, the Later version can too. */
  lemma {:induction false} LaterEncodable(kind: int, p: Payload)
    requires Encodable(Earlier, kind, p)
    ensures Encodable(Later, kind, p)
    decreases p, 1
  {
    match p
    case ListP(t, items) =>
      forall i | 0 <= i < |items| ensures Encodable(Later, t, items[i]) {
        assert Encodable(Earlier, t, items[i]);
        LaterEncodable(t, items[i]);
      }
    case CompoundP(es) =>
      forall i | 0 <= i < |es| ensures EntryEncodable(Later, es[i]) {
        assert EntryEncodable(Earlier, es[i]);
        LaterEncodable(es[i].tag.kind, es[i].tag.payload);
      }
    case _ =>
  }
}
