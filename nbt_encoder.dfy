/**
 * The Later writer as the source writes it: an object whose writeTagData
 * methods append to its returnData string. Every method is proved to append
 * exactly the bytes NbtEncode describes.
 */
module NbtEncoder {
  import opened Wrappers
  import opened Wire
  import opened Tags
  import opened NbtEncode

  /** Success appends exactly the bytes of a successful spec; failure reports the spec's error. */
  predicate Appended(r: Outcome<NbtError>, spec: Result<seq<byte>, NbtError>, before: seq<byte>, after: seq<byte>) {
    (spec.Ok? ==> r == Pass && after == before + spec.value) &&
    (spec.Err? ==> r == Fail(spec.error))
  }

  class Encoder {
    var returnData: seq<byte>

    constructor ()
      ensures returnData == []
    {
      returnData := [];
    }

    /** encode: check the root object, write it with the compound writer, optionally wrap it. */
    method Encode(data: seq<Entry>, encloseInUnnamedCompoundTag: bool) returns (r: Result<seq<byte>, NbtError>)
      requires EntriesShaped(Later, data)
      modifies this
      ensures r == EncodeLater(data, encloseInUnnamedCompoundTag)
      ensures r.Ok? ==> returnData == r.value
    {
      returnData := [];
      var count := |data|;  // the for-in loop counts the keys of the root object
      if count > 1 {
        return Err(TooManyRootTags(count));
      }
      if count == 0 {
        return Err(MissingRootTag);  // data[undefined].type
      }
      var starterTagId := data[0].tag.kind;
      if starterTagId != TAG_COMPOUND {
        return Err(BadRootTag(starterTagId));
      }
      assert RootEntry(data) == Ok(data[0]);
      var written := WriteTagDataCompound(data);
      if written.Fail? {
        return Err(written.error);
      }
      assert returnData == EncodeCompound(Later, data).value;
      if encloseInUnnamedCompoundTag {
        returnData := WriteByte(TAG_COMPOUND) + WriteShort(0) + returnData + WriteByte(TAG_END);
      }
      r := Ok(returnData);
    }

    method WriteTagData(kind: int, p: Payload) returns (r: Outcome<NbtError>)
      requires Shaped(Later, kind, p)
      modifies this
      decreases p, 2
      ensures Appended(r, EncodePayload(Later, kind, p), old(returnData), returnData)
    {
      if !KnownKind(Later, kind) {
        return Fail(UnknownTagType(kind));
      }
      r := Pass;
      match p
      case EndP =>
      case ByteP(b) => returnData := returnData + WriteByte(b);
      case ShortP(s) => returnData := returnData + WriteShort(s);
      case IntP(i) => returnData := returnData + WriteInt(i);
      case LongP(bs) => returnData := returnData + bs;
      case FloatP(bs) => returnData := returnData + bs;
      case DoubleP(bs) => returnData := returnData + bs;
      case ByteArrayP(xs) => WriteTagDataByteArray(xs);
      case StringP(cs) => returnData := returnData + WriteString(cs);
      case ListP(t, items) => r := WriteTagDataList(t, items);
      case CompoundP(es) => r := WriteTagDataCompound(es);
      case IntArrayP(xs) => WriteTagDataIntArray(xs);
    }

    method WriteTagDataByteArray(byteArray: seq<int>)
      modifies this
      ensures returnData == old(returnData) + WriteInt(|byteArray|) + LowBytes(byteArray)
    {
      returnData := returnData + WriteInt(|byteArray|);
      var i := 0;
      while i < |byteArray|
        invariant 0 <= i <= |byteArray|
        invariant returnData == old(returnData) + WriteInt(|byteArray|) + LowBytes(byteArray[..i])
      {
        assert LowBytes(byteArray[..i + 1]) == LowBytes(byteArray[..i]) + WriteByte(byteArray[i]);
        returnData := returnData + WriteByte(byteArray[i]);
        i := i + 1;
      }
      assert byteArray[..i] == byteArray;
    }

    method WriteTagDataIntArray(intArray: seq<int>)
      modifies this
      ensures returnData == old(returnData) + WriteInt(|intArray|) + WriteInts(intArray)
    {
      returnData := returnData + WriteInt(|intArray|);
      var i := 0;
      while i < |intArray|
        invariant 0 <= i <= |intArray|
        invariant returnData == old(returnData) + WriteInt(|intArray|) + WriteInts(intArray[..i])
      {
        assert intArray[..i + 1][..i] == intArray[..i];
        returnData := returnData + WriteInt(intArray[i]);
        i := i + 1;
      }
      assert intArray[..i] == intArray;
    }

    method WriteTagDataList(ofTagId: int, list: seq<Payload>) returns (r: Outcome<NbtError>)
      requires forall i :: 0 <= i < |list| ==> Shaped(Later, ofTagId, list[i])
      modifies this
      decreases list, 1
      ensures Appended(r, EncodeList(Later, ofTagId, list), old(returnData), returnData)
    {
      var length := |list|;
      returnData := returnData + (WriteByte(ofTagId) + WriteInt(length));
      ghost var header := returnData;
      ghost var body: seq<byte> := [];
      var i := 0;
      while i < length
        invariant 0 <= i <= length
        invariant EncodeItems(Later, ofTagId, list[..i]) == Ok(body)
        invariant returnData == header + body
      {
        ItemsSnoc(Later, ofTagId, list, i);
        var written := WriteTagData(ofTagId, list[i]);
        if written.Fail? {
          ItemsErrorPropagates(Later, ofTagId, list, i + 1);
          return written;
        }
        ghost var x := EncodePayload(Later, ofTagId, list[i]).value;
        Concat(header, body, x);
        body := body + x;
        i := i + 1;
      }
      assert list[..i] == list;
      Concat(old(returnData), WriteByte(ofTagId) + WriteInt(length), body);
      r := Pass;
    }

    method WriteTagDataCompound(data: seq<Entry>) returns (r: Outcome<NbtError>)
      requires EntriesShaped(Later, data)
      modifies this
      decreases data, 1
      ensures Appended(r, EncodeCompound(Later, data), old(returnData), returnData)
    {
      ghost var body: seq<byte> := [];
      var i := 0;
      while i < |data|
        invariant 0 <= i <= |data|
        invariant EncodeEntries(Later, data[..i]) == Ok(body)
        invariant returnData == old(returnData) + body
      {
        EntriesSnoc(Later, data, i);
        var tag := data[i].tag;
        returnData := returnData + WriteByte(tag.kind);
        returnData := returnData + WriteString(data[i].name);
        var written := WriteTagData(tag.kind, tag.payload);
        if written.Fail? {
          EntriesErrorPropagates(Later, data, i + 1);
          return written;
        }
        ghost var x := EncodePayload(Later, tag.kind, tag.payload).value;
        Concat4(old(returnData), body, WriteByte(tag.kind), WriteString(data[i].name), x);
        body := body + WriteByte(tag.kind) + WriteString(data[i].name) + x;
        i := i + 1;
      }
      assert data[..i] == data;
      returnData := returnData + WriteByte(TAG_END);
      Concat(old(returnData), body, WriteByte(TAG_END));
      r := Pass;
    }
  }

  lemma Concat(a: seq<byte>, b: seq<byte>, c: seq<byte>)
    ensures a + b + c == a + (b + c)
  {
  }

  lemma Concat4(a: seq<byte>, b: seq<byte>, c: seq<byte>, d: seq<byte>, e: seq<byte>)
    ensures a + b + c + d + e == a + (b + c + d + e)
  {
  }
}

/**
 * The Earlier writer: the same writeTagData family, but each method returns
 * the bytes it produces instead of appending to the object.
 */
module NbtEncoderEarlier {
  import opened Wrappers
  import opened Wire
  import opened Tags
  import opened NbtEncode

  /** encode: check the root object, write kind, name and payload of its one tag, optionally wrap them. */
  method Encode(data: seq<Entry>, encloseInUnnamedCompoundTag: bool) returns (r: Result<seq<byte>, NbtError>)
    requires EntriesShaped(Earlier, data)
    ensures r == EncodeEarlier(data, encloseInUnnamedCompoundTag)
  {
    var count := |data|;  // the for-in loop counts the keys of the root object
    if count > 1 {
      return Err(TooManyRootTags(count));
    }
    if count == 0 {
      return Err(MissingRootTag);  // data[undefined].type
    }
    var starterTagId := data[0].tag.kind;
    if starterTagId != TAG_COMPOUND {
      return Err(BadRootTag(starterTagId));
    }
    assert RootEntry(data) == Ok(data[0]);
    var returnData: seq<byte> := [];
    if encloseInUnnamedCompoundTag {
      returnData := returnData + WriteByte(TAG_COMPOUND);
      returnData := returnData + WriteShort(0);
    }
    returnData := returnData + WriteByte(starterTagId);
    returnData := returnData + WriteString(data[0].name);
    var payload :- WriteTagData(starterTagId, data[0].tag.payload);
    returnData := returnData + payload;
    if encloseInUnnamedCompoundTag {
      returnData := returnData + WriteByte(TAG_END);
    }
    RootLayout(encloseInUnnamedCompoundTag, WriteByte(starterTagId), WriteString(data[0].name), payload);
    r := Ok(returnData);
  }

  /** The appends of encode, in order, lay out the wrapped root. */
  lemma RootLayout(enclose: bool, kind: seq<byte>, name: seq<byte>, payload: seq<byte>)
    ensures var start := if enclose then [] + WriteByte(TAG_COMPOUND) + WriteShort(0) else [];
      var out := start + kind + name + payload;
      (if enclose then out + WriteByte(TAG_END) else out) == Enclosed(kind + name + payload, enclose)
  {
  }

  /** writeTagData; for the End kind it returns nothing, which its callers concatenate as "undefined". */
  method WriteTagData(tagId: int, p: Payload) returns (r: Result<seq<byte>, NbtError>)
    requires Shaped(Earlier, tagId, p)
    decreases p, 2
    ensures r == EncodePayload(Earlier, tagId, p)
  {
    if !KnownKind(Earlier, tagId) {
      return Err(UnknownTagType(tagId));
    }
    match p
    case EndP => r := Ok(UNDEFINED);
    case ByteP(b) => r := Ok(WriteByte(b));
    case ShortP(s) => r := Ok(WriteShort(s));
    case IntP(i) => r := Ok(WriteInt(i));
    case LongP(bs) => r := Ok(bs);
    case FloatP(bs) => r := Ok(bs);
    case DoubleP(bs) => r := Ok(bs);
    case ByteArrayP(xs) =>
      var s := WriteTagDataByteArray(xs);
      r := Ok(s);
    case StringP(cs) => r := Ok(WriteString(cs));
    case ListP(t, items) => r := WriteTagDataList(t, items);
    case CompoundP(es) => r := WriteTagDataCompound(es);
  }

  method WriteTagDataByteArray(byteArray: seq<int>) returns (s: seq<byte>)
    ensures s == WriteInt(|byteArray|) + LowBytes(byteArray)
  {
    var returnString: seq<byte> := [];
    var i := 0;
    while i < |byteArray|
      invariant 0 <= i <= |byteArray|
      invariant returnString == LowBytes(byteArray[..i])
    {
      assert LowBytes(byteArray[..i + 1]) == LowBytes(byteArray[..i]) + WriteByte(byteArray[i]);
      returnString := returnString + WriteByte(byteArray[i]);
      i := i + 1;
    }
    assert byteArray[..i] == byteArray;
    s := WriteInt(|returnString|) + returnString;
  }

  method WriteTagDataList(ofTagId: int, list: seq<Payload>) returns (r: Result<seq<byte>, NbtError>)
    requires forall i :: 0 <= i < |list| ==> Shaped(Earlier, ofTagId, list[i])
    decreases list, 1
    ensures r == EncodeList(Earlier, ofTagId, list)
  {
    var length := |list|;
    var returnData: seq<byte> := [];
    var i := 0;
    while i < length
      invariant 0 <= i <= length
      invariant EncodeItems(Earlier, ofTagId, list[..i]) == Ok(returnData)
    {
      ItemsSnoc(Earlier, ofTagId, list, i);
      var item := WriteTagData(ofTagId, list[i]);
      if item.Err? {
        ItemsErrorPropagates(Earlier, ofTagId, list, i + 1);
        return Err(item.error);
      }
      returnData := returnData + item.value;
      i := i + 1;
    }
    assert list[..i] == list;
    r := Ok(WriteByte(ofTagId) + WriteInt(length) + returnData);
  }

  method WriteTagDataCompound(data: seq<Entry>) returns (r: Result<seq<byte>, NbtError>)
    requires EntriesShaped(Earlier, data)
    decreases data, 1
    ensures r == EncodeCompound(Earlier, data)
  {
    var returnData: seq<byte> := [];
    var i := 0;
    while i < |data|
      invariant 0 <= i <= |data|
      invariant EncodeEntries(Earlier, data[..i]) == Ok(returnData)
    {
      EntriesSnoc(Earlier, data, i);
      var tag := data[i].tag;
      returnData := returnData + WriteByte(tag.kind);
      returnData := returnData + WriteString(data[i].name);
      var payload := WriteTagData(tag.kind, tag.payload);
      if payload.Err? {
        EntriesErrorPropagates(Earlier, data, i + 1);
        return Err(payload.error);
      }
      returnData := returnData + payload.value;
      i := i + 1;
    }
    assert data[..i] == data;
    r := Ok(returnData + WriteByte(TAG_END));
  }
}
