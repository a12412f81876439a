/**
 * The in-memory tag tree of the NBT codec. A tag is the pair the codec
 * builds for every value, {type, payload}; a compound's payload is an object
 * keyed by tag name, modelled as an insertion-ordered association list in
 * which a repeated name overwrites the earlier value in place.
 */
module Tags {
  import opened Wrappers
  import opened Wire

  /** Earlier: js/NbtParser.js (tag kinds 0..10); Later: src/NbtParser.js (adds kind 11). */
  datatype Version = Earlier | Later

  const TAG_END: int := 0
  const TAG_BYTE: int := 1
  const TAG_SHORT: int := 2
  const TAG_INT: int := 3
  const TAG_LONG: int := 4
  const TAG_FLOAT: int := 5
  const TAG_DOUBLE: int := 6
  const TAG_BYTE_ARRAY: int := 7
  const TAG_STRING: int := 8
  const TAG_LIST: int := 9
  const TAG_COMPOUND: int := 10
  const TAG_INT_ARRAY: int := 11

  /** Why an encode or decode call throws. */
  datatype NbtError =
    | Truncated                    // readBuffer ran past the end of the data
    | UnknownTagType(id: int)      // readTagData/writeTagData met a kind it does not dispatch on
    | BadRootTag(id: int)          // the root tag is not a compound
    | TooManyRootTags(count: nat)  // encode: the root object has more than one key
    | MissingRootTag               // encode: the root object has no key (a TypeError in the source)
    | UndeclaredVariable           // Later IntArray read returns a variable that was never declared
    | IntegrityError               // the gzip collaborator rejected the input
    | OutOfFuel                    // the reader did not finish within the model's step bound

  /** The tag kinds the version's readTagData/writeTagData dispatch on. */
  predicate KnownKind(v: Version, kind: int) {
    0 <= kind <= 10 || (v == Later && kind == TAG_INT_ARRAY)
  }

  /**
   * A payload. Long, Float and Double stay the raw big-endian byte blocks the
   * converters would interpret; strings and names are byte strings.
   */
  datatype Payload =
    | EndP
    | ByteP(b: int)
    | ShortP(s: int)
    | IntP(i: int)
    | LongP(long: seq<byte>)
    | FloatP(float: seq<byte>)
    | DoubleP(double: seq<byte>)
    | ByteArrayP(bytes: seq<int>)
    | StringP(chars: seq<byte>)
    | ListP(ofType: int, list: seq<Payload>)
    | CompoundP(entries: seq<Entry>)
    | IntArrayP(ints: seq<int>)

  /** {type, payload} */
  datatype Tag = Tag(kind: int, payload: Payload)

  /** One key of a compound object and the tag stored under it. */
  datatype Entry = Entry(name: seq<byte>, tag: Tag)

  /** The tag kind whose payload shape p has. */
  function KindOf(p: Payload): (k: int)
    ensures 0 <= k <= 11
  {
    match p
    case EndP => TAG_END
    case ByteP(_) => TAG_BYTE
    case ShortP(_) => TAG_SHORT
    case IntP(_) => TAG_INT
    case LongP(_) => TAG_LONG
    case FloatP(_) => TAG_FLOAT
    case DoubleP(_) => TAG_DOUBLE
    case ByteArrayP(_) => TAG_BYTE_ARRAY
    case StringP(_) => TAG_STRING
    case ListP(_, _) => TAG_LIST
    case CompoundP(_) => TAG_COMPOUND
    case IntArrayP(_) => TAG_INT_ARRAY
  }

  /**
   * The payload has the shape the writer expects for `kind`, recursively.
   * A kind the version does not know constrains nothing: the writer rejects it
   * before looking at the payload.
   */
  predicate Shaped(v: Version, kind: int, p: Payload)
    decreases p
  {
    !KnownKind(v, kind) ||
    (KindOf(p) == kind &&
     match p
     case ListP(t, items) => forall i :: 0 <= i < |items| ==> Shaped(v, t, items[i])
     case CompoundP(es) => forall i :: 0 <= i < |es| ==> Shaped(v, es[i].tag.kind, es[i].tag.payload)
     case _ => true)
  }

  /** Every entry's payload is shaped for its own kind. */
  predicate EntriesShaped(v: Version, es: seq<Entry>) {
    forall i :: 0 <= i < |es| ==> Shaped(v, es[i].tag.kind, es[i].tag.payload)
  }

  predicate HasName(es: seq<Entry>, name: seq<byte>) {
    exists i :: 0 <= i < |es| && es[i].name == name
  }

  /** No two entries share a name, as for the keys of an object. */
  predicate UniqueNames(es: seq<Entry>) {
    forall i, j :: 0 <= i < j < |es| ==> es[i].name != es[j].name
  }

  /** The position of the first entry from position k on that is named name, if any. */
  function Find(es: seq<Entry>, name: seq<byte>, k: nat): (r: Option<nat>)
    ensures r.Some? ==> k <= r.value < |es| && es[r.value].name == name
    decreases |es| - k
  {
    if k >= |es| then None
    else if es[k].name == name then Some(k)
    else Find(es, name, k + 1)
  }

  /** Find gives the first position from k on that holds name, and None when there is none. */
  lemma {:induction false} FindSpec(es: seq<Entry>, name: seq<byte>, k: nat)
    ensures Find(es, name, k).None? ==> forall j :: k <= j < |es| ==> es[j].name != name
    ensures Find(es, name, k).Some? ==> forall j :: k <= j < Find(es, name, k).value ==> es[j].name != name
    decreases |es| - k
  {
    if k < |es| && es[k].name != name {
      FindSpec(es, name, k + 1);
    }
  }

  /** obj[name]: the tag stored under name, if any. */
  function Lookup(es: seq<Entry>, name: seq<byte>): Option<Tag> {
    match Find(es, name, 0)
    case None => None
    case Some(i) => Some(es[i].tag)
  }

  /** Lookup finds a tag exactly for the names the object holds, and that tag is stored under the name. */
  lemma LookupHas(es: seq<Entry>, name: seq<byte>)
    ensures Lookup(es, name).Some? <==> HasName(es, name)
    ensures Lookup(es, name).Some? ==> exists i :: 0 <= i < |es| && es[i] == Entry(name, Lookup(es, name).value)
  {
    var r := Find(es, name, 0);
    FindSpec(es, name, 0);
    if r.Some? {
      assert es[r.value] == Entry(name, Lookup(es, name).value);
    }
  }

  /**
   * obj[name] = tag: an existing key keeps its position and gets the new
   * value, a new key goes last.
   */
  function Put(es: seq<Entry>, name: seq<byte>, tag: Tag): seq<Entry> {
    match Find(es, name, 0)
    case None => es + [Entry(name, tag)]
    case Some(i) => es[i := Entry(name, tag)]
  }

  /** Assignment grows the object by one exactly when the name is new. */
  lemma PutSize(es: seq<Entry>, name: seq<byte>, tag: Tag)
    ensures |Put(es, name, tag)| == if HasName(es, name) then |es| else |es| + 1
  {
    FindSpec(es, name, 0);
  }

  /** A name new to the object is appended with its tag. */
  lemma PutNew(es: seq<Entry>, name: seq<byte>, tag: Tag)
    requires !HasName(es, name)
    ensures Put(es, name, tag) == es + [Entry(name, tag)]
  {
    FindSpec(es, name, 0);
  }

  /** Where the first entry named name stands, Find from 0 says so. */
  lemma FindFirst(es: seq<Entry>, name: seq<byte>, i: nat)
    requires i < |es| && es[i].name == name
    requires forall j :: 0 <= j < i ==> es[j].name != name
    ensures Find(es, name, 0) == Some(i)
  {
    FindSpec(es, name, 0);
  }

  /** When no entry is named name, Find from 0 says so. */
  lemma FindNone(es: seq<Entry>, name: seq<byte>)
    requires forall j :: 0 <= j < |es| ==> es[j].name != name
    ensures Find(es, name, 0) == None
  {
    FindSpec(es, name, 0);
  }

  /** After the assignment the key holds the new tag. */
  lemma PutLookup(es: seq<Entry>, name: seq<byte>, tag: Tag)
    ensures Lookup(Put(es, name, tag), name) == Some(tag)
  {
    var after := Put(es, name, tag);
    FindSpec(es, name, 0);
    match Find(es, name, 0)
    case None =>
      FindFirst(after, name, |es|);
    case Some(i) =>
      FindFirst(after, name, i);
  }

  /** Every other key keeps its tag. */
  lemma PutOthers(es: seq<Entry>, name: seq<byte>, tag: Tag, other: seq<byte>)
    requires other != name
    ensures Lookup(Put(es, name, tag), other) == Lookup(es, other)
  {
    var after := Put(es, name, tag);
    FindSpec(es, name, 0);
    FindSpec(es, other, 0);
    assert forall j :: 0 <= j < |es| ==> (after[j].name == other <==> es[j].name == other);
    match Find(es, other, 0)
    case None =>
      FindNone(after, other);
    case Some(i) =>
      FindFirst(after, other, i);
  }

  /** In an object without repeated keys, assignment to an existing key replaces it where it stands. */
  lemma PutInPlace(es: seq<Entry>, name: seq<byte>, tag: Tag, i: int)
    requires UniqueNames(es) && 0 <= i < |es| && es[i].name == name
    ensures Put(es, name, tag) == es[i := Entry(name, tag)]
  {
    FindFirst(es, name, i);
  }

  /** Assignment never introduces a repeated key. */
  lemma PutUnique(es: seq<Entry>, name: seq<byte>, tag: Tag)
    requires UniqueNames(es)
    ensures UniqueNames(Put(es, name, tag))
  {
    if HasName(es, name) {
      var i :| 0 <= i < |es| && es[i].name == name;
      PutInPlace(es, name, tag, i);
    }
  }
}
