/**
 * What the NBT reader yields, as functions of the input bytes and the
 * pointer position. A reader step returns the value read and the pointer
 * after it, or the error that made the reader throw.
 *
 * A string's length is a signed 16-bit field and the cursor adds it to the
 * pointer whatever its sign, so a crafted input can send the reader back over
 * bytes it has already read and loop for ever. The functions therefore carry
 * a `fuel` bound: every payload and every compound entry costs one unit, and
 * running out is the error OutOfFuel.
 */
module NbtParse {
  import opened Wrappers
  import opened Wire
  import opened Tags

  /** A value read and the pointer after the read. */
  type Step<T> = Result<(T, int), NbtError>

  /** The value of a step, without the pointer. */
  function ValueOf<T>(s: Step<T>): Result<T, NbtError> {
    match s
    case Ok(vp) => Ok(vp.0)
    case Err(e) => Err(e)
  }

  /** r is what step s reads and, when s succeeds, the pointer stands where s left it. */
  predicate Stepped<T(==)>(r: Result<T, NbtError>, s: Step<T>, pointer: int) {
    r == ValueOf(s) && (s.Ok? ==> pointer == s.value.1)
  }

  /**
   * readBuffer for n bytes at pointer p: a length below one yields the empty
   * string without any bounds check, otherwise the read fails unless n bytes
   * remain before the end.
   */
  function BufferAt(d: seq<byte>, p: int, n: int): (r: Result<seq<byte>, NbtError>)
    ensures n < 1 ==> r == Ok([])
    ensures n >= 1 ==> (r.Ok? <==> p + n <= |d|)
    ensures r.Ok? && n >= 1 && p >= 0 ==> r.value == d[p..p + n]
    ensures r.Ok? ==> |r.value| <= n || n < 1
  {
    if n < 1 then Ok([])
    else if p + n > |d| then Err(Truncated)
    else Ok(Substr(d, p, n))
  }

  /** readByte / readShort / readInt: a signed big-endian field of `width` bytes. */
  function SignedAt(d: seq<byte>, p: int, width: nat): Step<int>
    requires 0 < width <= 4
  {
    match BufferAt(d, p, width)
    case Err(e) => Err(e)
    case Ok(bs) => Ok((Signed(bs), p + width))
  }

  /** readLong / readFloat / readDouble: a block of `width` bytes, handed to the converter uninterpreted. */
  function BlockAt(d: seq<byte>, p: int, width: nat): Step<seq<byte>>
    requires width > 0
  {
    match BufferAt(d, p, width)
    case Err(e) => Err(e)
    case Ok(bs) => Ok((bs, p + width))
  }

  /** readString: a signed 16-bit length, then that many bytes; the pointer moves by the length whatever its sign. */
  function StringAt(d: seq<byte>, p: int): Step<seq<byte>> {
    match SignedAt(d, p, 2)
    case Err(e) => Err(e)
    case Ok(len) =>
      match BufferAt(d, len.1, len.0)
      case Err(e) => Err(e)
      case Ok(bs) => Ok((bs, len.1 + len.0))
  }

  /** charCodeAt(i) & 0xff: past the end of the string charCodeAt gives NaN, which masks to 0. */
  function CharCode(s: seq<byte>, i: int): byte {
    if 0 <= i < |s| then s[i] else 0
  }

  /** The first n masked char codes of s (none when n is not positive). */
  function ByteItems(s: seq<byte>, n: int): seq<int> {
    seq(if n < 0 then 0 else n, i => CharCode(s, i))
  }

  /** readTagData_byteArray: a signed 32-bit count, that many bytes, one masked char code per counted item. */
  function ByteArrayAt(d: seq<byte>, p: int): Step<Payload> {
    match SignedAt(d, p, 4)
    case Err(e) => Err(e)
    case Ok(n) =>
      match BufferAt(d, n.1, n.0)
      case Err(e) => Err(e)
      case Ok(bs) => Ok((ByteArrayP(ByteItems(bs, n.0)), n.1 + n.0))
  }

  /** The loop of readTagData_intArray: read 32-bit ints until n have been read. */
  function IntsFrom(d: seq<byte>, n: int, p: int, acc: seq<int>): Step<seq<int>>
    decreases n - |acc|
  {
    if |acc| >= n then Ok((acc, p))
    else
      match SignedAt(d, p, 4)
      case Err(e) => Err(e)
      case Ok(x) => IntsFrom(d, n, x.1, acc + [x.0])
  }

  /**
   * readTagData_intArray (Later): reads the count and the ints, then returns a
   * variable that was never declared, which throws.
   */
  function IntArrayAt(d: seq<byte>, p: int): Step<Payload> {
    match SignedAt(d, p, 4)
    case Err(e) => Err(e)
    case Ok(n) =>
      match IntsFrom(d, n.0, n.1, [])
      case Err(e) => Err(e)
      case Ok(_) => Err(UndeclaredVariable)
  }

  /** readTagData for the kinds whose payload holds no other payload. */
  function ScalarAt(v: Version, d: seq<byte>, kind: int, p: int): Step<Payload> {
    if kind == TAG_END then Ok((EndP, p))
    else if kind == TAG_BYTE then
      match SignedAt(d, p, 1)
      case Err(e) => Err(e)
      case Ok(x) => Ok((ByteP(x.0), x.1))
    else if kind == TAG_SHORT then
      match SignedAt(d, p, 2)
      case Err(e) => Err(e)
      case Ok(x) => Ok((ShortP(x.0), x.1))
    else if kind == TAG_INT then
      match SignedAt(d, p, 4)
      case Err(e) => Err(e)
      case Ok(x) => Ok((IntP(x.0), x.1))
    else if kind == TAG_LONG then
      match BlockAt(d, p, 8)
      case Err(e) => Err(e)
      case Ok(x) => Ok((LongP(x.0), x.1))
    else if kind == TAG_FLOAT then
      match BlockAt(d, p, 4)
      case Err(e) => Err(e)
      case Ok(x) => Ok((FloatP(x.0), x.1))
    else if kind == TAG_DOUBLE then
      match BlockAt(d, p, 8)
      case Err(e) => Err(e)
      case Ok(x) => Ok((DoubleP(x.0), x.1))
    else if kind == TAG_BYTE_ARRAY then ByteArrayAt(d, p)
    else if kind == TAG_STRING then
      match StringAt(d, p)
      case Err(e) => Err(e)
      case Ok(x) => Ok((StringP(x.0), x.1))
    else if kind == TAG_INT_ARRAY && v == Later then IntArrayAt(d, p)
    else Err(UnknownTagType(kind))
  }

  /**
   * readTagData: the payload of a tag of the given kind at pointer p. Lists and
   * compounds read further payloads; every other kind is read by ScalarAt.
   */
  function ParsePayload(v: Version, d: seq<byte>, kind: int, p: int, fuel: nat): Step<Payload>
    decreases fuel, 0, 0
  {
    if fuel == 0 then Err(OutOfFuel)
    else if kind == TAG_LIST then ListAt(v, d, p, fuel - 1)
    else if kind == TAG_COMPOUND then CompoundAt(v, d, p, fuel - 1)
    else ScalarAt(v, d, kind, p)
  }

  /** readTagData_compound: the entries, read until an End tag. */
  function CompoundAt(v: Version, d: seq<byte>, p: int, fuel: nat): Step<Payload>
    decreases fuel, 3, 0
  {
    match ParseEntries(v, d, p, [], fuel)
    case Err(e) => Err(e)
    case Ok(x) => Ok((CompoundP(x.0), x.1))
  }

  /** readTagData_list: the element kind (a signed byte), a signed 32-bit count, then the elements. */
  function ListAt(v: Version, d: seq<byte>, p: int, fuel: nat): Step<Payload>
    decreases fuel, 2, 0
  {
    match SignedAt(d, p, 1)
    case Err(e) => Err(e)
    case Ok(kind) =>
      match SignedAt(d, kind.1, 4)
      case Err(e) => Err(e)
      case Ok(n) =>
        match ParseItems(v, d, kind.0, n.0, n.1, [], fuel)
        case Err(e) => Err(e)
        case Ok(items) => Ok((ListP(kind.0, items.0), items.1))
  }

  /** The loop of readTagData_list: read payloads of one kind until n have been read. */
  function ParseItems(v: Version, d: seq<byte>, kind: int, n: int, p: int, acc: seq<Payload>, fuel: nat): Step<seq<Payload>>
    decreases fuel, 1, n - |acc|
  {
    if |acc| >= n then Ok((acc, p))
    else
      match ParsePayload(v, d, kind, p, fuel)
      case Err(e) => Err(e)
      case Ok(x) => ParseItems(v, d, kind, n, x.1, acc + [x.0], fuel)
  }

  /** readTagData_compound: read a tag id, then continue the entry loop with it. */
  function ParseEntries(v: Version, d: seq<byte>, p: int, acc: seq<Entry>, fuel: nat): Step<seq<Entry>>
    decreases fuel, 2, 0
  {
    match SignedAt(d, p, 1)
    case Err(e) => Err(e)
    case Ok(id) => EntriesFrom(v, d, id.0, id.1, acc, fuel)
  }

  /**
   * One turn of the compound loop with tag id already read: id 0 ends the
   * compound; any other id costs one unit of fuel and introduces an entry.
   */
  function EntriesFrom(v: Version, d: seq<byte>, id: int, p: int, acc: seq<Entry>, fuel: nat): Step<seq<Entry>>
    decreases fuel, 1, 0
  {
    if id == TAG_END then Ok((acc, p))
    else if fuel == 0 then Err(OutOfFuel)
    else EntryAt(v, d, id, p, acc, fuel - 1)
  }

  /**
   * The rest of an entry whose tag id is already read: its name and its
   * payload follow, and the entry is stored under the name, overwriting an
   * earlier entry of the same name; then the loop goes on.
   */
  function EntryAt(v: Version, d: seq<byte>, id: int, p: int, acc: seq<Entry>, fuel: nat): Step<seq<Entry>>
    decreases fuel, 4, 0
  {
    match StringAt(d, p)
    case Err(e) => Err(e)
    case Ok(name) =>
      match ParsePayload(v, d, id, name.1, fuel)
      case Err(e) => Err(e)
      case Ok(pl) => ParseEntries(v, d, pl.1, Put(acc, name.0, Tag(id, pl.0)), fuel)
  }

  /**
   * The root: a tag id; when the two bytes after it read as a zero short, the
   * reader takes them for an unnamed wrapper compound, skips them and reads the
   * id again. The id must be a compound's; its name and payload follow, and any
   * bytes after the payload are ignored. The result is an object with one key.
   */
  function ParseRoot(v: Version, d: seq<byte>, fuel: nat): Result<seq<Entry>, NbtError> {
    var first :- SignedAt(d, 0, 1);
    var peek :- SignedAt(d, 1, 2);
    var id :- if peek.0 == 0 then SignedAt(d, 3, 1) else Ok(first);
    if id.0 != TAG_COMPOUND then Err(BadRootTag(id.0))
    else
      var name :- StringAt(d, id.1);
      var pl :- ParsePayload(v, d, TAG_COMPOUND, name.1, fuel);
      Ok([Entry(name.0, Tag(TAG_COMPOUND, pl.0))])
  }

  /** The output of the gzip collaborator, or the error it signals. */
  function Inflated(inflate: seq<byte> -> Option<seq<byte>>, d: seq<byte>): Result<seq<byte>, NbtError> {
    match inflate(d)
    case None => Err(IntegrityError)
    case Some(x) => Ok(x)
  }

  /** The Later gzip test: the masked char codes at 0 and 1 are 0x1F and 0x8B (a short input masks to 0). */
  predicate IsGzip(d: seq<byte>) {
    CharCode(d, 0) == 0x1F && CharCode(d, 1) == 0x8B
  }

  /** Later decode: inflate gzip input first, then read the root. */
  function DecodeLater(d: seq<byte>, inflate: seq<byte> -> Option<seq<byte>>, fuel: nat): Result<seq<Entry>, NbtError> {
    if IsGzip(d) then
      var x :- Inflated(inflate, d);
      ParseRoot(Later, x, fuel)
    else ParseRoot(Later, d, fuel)
  }

  /**
   * Earlier decode: the gzip test compares two signed bytes read from the
   * input with 0x1F and 0x8B, then the root is read from position 0.
   */
  function DecodeEarlier(d: seq<byte>, inflate: seq<byte> -> Option<seq<byte>>, fuel: nat): Result<seq<Entry>, NbtError> {
    var byte1 :- SignedAt(d, 0, 1);
    var byte2 :- SignedAt(d, 1, 1);
    var source :- if byte1.0 == 0x1F && byte2.0 == 0x8B then Inflated(inflate, d) else Ok(d);
    ParseRoot(Earlier, source, fuel)
  }
}
