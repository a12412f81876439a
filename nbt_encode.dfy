/**
 * What the NBT writers produce, as functions of the tag tree. Both versions
 * write the same layout; they differ in the End kind (Later writes nothing,
 * Earlier appends the text "undefined", the value its writer returns for that
 * kind), in IntArray (Later only) and in the root: Later writes the root object
 * with its compound writer, so one more End byte follows.
 */
module NbtEncode {
  import opened Wrappers
  import opened Wire
  import opened Tags

  /** The text "undefined", which string concatenation makes of a missing return value. */
  const UNDEFINED: seq<byte> := [0x75, 0x6E, 0x64, 0x65, 0x66, 0x69, 0x6E, 0x65, 0x64]

  /** String.fromCharCode on each item, keeping the low octet. */
  function LowBytes(xs: seq<int>): seq<byte> {
    seq(|xs|, i requires 0 <= i < |xs| => xs[i] % 256)
  }

  /** writeInt of each item in turn. */
  function WriteInts(xs: seq<int>): seq<byte> {
    if xs == [] then [] else WriteInts(xs[..|xs| - 1]) + WriteInt(xs[|xs| - 1])
  }

  /** writeTagData: the payload bytes of a tag of the given kind. */
  function EncodePayload(v: Version, kind: int, p: Payload): Result<seq<byte>, NbtError>
    decreases p
  {
    if !KnownKind(v, kind) then Err(UnknownTagType(kind))
    else match p
      case EndP => Ok(if v == Later then [] else UNDEFINED)
      case ByteP(b) => Ok(WriteByte(b))
      case ShortP(s) => Ok(WriteShort(s))
      case IntP(i) => Ok(WriteInt(i))
      case LongP(bs) => Ok(bs)
      case FloatP(bs) => Ok(bs)
      case DoubleP(bs) => Ok(bs)
      case ByteArrayP(xs) => Ok(WriteInt(|xs|) + LowBytes(xs))
      case StringP(cs) => Ok(WriteString(cs))
      case ListP(t, items) => EncodeList(v, t, items)
      case CompoundP(es) => EncodeCompound(v, es)
      case IntArrayP(xs) => Ok(WriteInt(|xs|) + WriteInts(xs))
  }

  /** writeTagData_list: the element kind, the count, then each element. */
  function EncodeList(v: Version, t: int, items: seq<Payload>): Result<seq<byte>, NbtError>
    decreases items, 1
  {
    var body :- EncodeItems(v, t, items);
    Ok(WriteByte(t) + WriteInt(|items|) + body)
  }

  /** The elements of a list, in order. */
  function EncodeItems(v: Version, t: int, items: seq<Payload>): Result<seq<byte>, NbtError>
    decreases items, 0
  {
    if items == [] then Ok([])
    else
      var front :- EncodeItems(v, t, items[..|items| - 1]);
      var last :- EncodePayload(v, t, items[|items| - 1]);
      Ok(front + last)
  }

  /** writeTagData_compound: every entry, then an End byte. */
  function EncodeCompound(v: Version, es: seq<Entry>): Result<seq<byte>, NbtError>
    decreases es, 1
  {
    var body :- EncodeEntries(v, es);
    Ok(body + WriteByte(TAG_END))
  }

  /** The entries of a compound, in order: kind byte, name, payload. */
  function EncodeEntries(v: Version, es: seq<Entry>): Result<seq<byte>, NbtError>
    decreases es, 0
  {
    if es == [] then Ok([])
    else
      var front :- EncodeEntries(v, es[..|es| - 1]);
      var e := es[|es| - 1];
      var pl :- EncodePayload(v, e.tag.kind, e.tag.payload);
      Ok(front + WriteByte(e.tag.kind) + WriteString(e.name) + pl)
  }

  /** The checks both encoders make on the root object: exactly one key, holding a compound. */
  function RootEntry(data: seq<Entry>): Result<Entry, NbtError> {
    if |data| > 1 then Err(TooManyRootTags(|data|))
    else if |data| == 0 then Err(MissingRootTag)
    else if data[0].tag.kind != TAG_COMPOUND then Err(BadRootTag(data[0].tag.kind))
    else Ok(data[0])
  }

  /** The unnamed wrapper compound some inputs carry around the root. */
  function Enclosed(body: seq<byte>, enclose: bool): seq<byte> {
    if enclose then WriteByte(TAG_COMPOUND) + WriteShort(0) + body + WriteByte(TAG_END) else body
  }

  /** Later encode: the root object goes through the compound writer. */
  function EncodeLater(data: seq<Entry>, enclose: bool): Result<seq<byte>, NbtError>
  {
    var top :- RootEntry(data);
    var body :- EncodeCompound(Later, data);
    Ok(Enclosed(body, enclose))
  }

  /** Earlier encode: kind, name and payload of the root tag. */
  function EncodeEarlier(data: seq<Entry>, enclose: bool): Result<seq<byte>, NbtError>
  {
    var top :- RootEntry(data);
    var pl :- EncodePayload(Earlier, top.tag.kind, top.tag.payload);
    Ok(Enclosed(WriteByte(top.tag.kind) + WriteString(top.name) + pl, enclose))
  }

  /** Extending the written entries by one: the entry's bytes follow, or its error is the result. */
  lemma EntriesSnoc(v: Version, es: seq<Entry>, i: nat)
    requires i < |es|
    requires EncodeEntries(v, es[..i]).Ok?
    ensures var pl := EncodePayload(v, es[i].tag.kind, es[i].tag.payload);
      EncodeEntries(v, es[..i + 1])
      == if pl.Ok? then Ok(EncodeEntries(v, es[..i]).value + WriteByte(es[i].tag.kind) + WriteString(es[i].name) + pl.value)
         else Err(pl.error)
  {
    assert es[..i + 1][..i] == es[..i];
  }

  /** Extending the written elements by one. */
  lemma ItemsSnoc(v: Version, t: int, items: seq<Payload>, i: nat)
    requires i < |items|
    requires EncodeItems(v, t, items[..i]).Ok?
    ensures var x := EncodePayload(v, t, items[i]);
      EncodeItems(v, t, items[..i + 1])
      == if x.Ok? then Ok(EncodeItems(v, t, items[..i]).value + x.value) else Err(x.error)
  {
    assert items[..i + 1][..i] == items[..i];
  }

  /** A failure in a prefix of the entries is the failure of the whole compound. */
  lemma {:induction false} EntriesErrorPropagates(v: Version, es: seq<Entry>, j: nat)
    requires j <= |es|
    requires EncodeEntries(v, es[..j]).Err?
    ensures EncodeEntries(v, es) == EncodeEntries(v, es[..j])
    decreases |es|
  {
    if j < |es| {
      var front := es[..|es| - 1];
      assert front[..j] == es[..j];
      EntriesErrorPropagates(v, front, j);
    } else {
      assert es[..j] == es;
    }
  }

  /** A failure in a prefix of the elements is the failure of the whole list. */
  lemma {:induction false} ItemsErrorPropagates(v: Version, t: int, items: seq<Payload>, j: nat)
    requires j <= |items|
    requires EncodeItems(v, t, items[..j]).Err?
    ensures EncodeItems(v, t, items) == EncodeItems(v, t, items[..j])
    decreases |items|
  {
    if j < |items| {
      var front := items[..|items| - 1];
      assert front[..j] == items[..j];
      ItemsErrorPropagates(v, t, front, j);
    } else {
      assert items[..j] == items;
    }
  }
}
