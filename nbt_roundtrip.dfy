/**
 * Encoding then decoding gives the tag tree back, for both versions, under
 * the conditions the wire format needs: values fit their fields, names in a
 * compound are distinct and no entry has the End kind, no IntArray (the Later
 * reader cannot return one), and the root has a non-empty name unless it is
 * wrapped in the unnamed compound. The lemmas at the end show what happens
 * outside those conditions.
 */
module NbtRoundTrip {
  import opened Wrappers
  import opened Wire
  import opened Tags
  import opened NbtParse
  import opened NbtEncode

  /** Largest count a signed 32-bit field holds, plus one. */
  const COUNT_LIMIT: int := 0x8000_0000
  /** Largest string length a signed 16-bit field holds, plus one. */
  const STRING_LIMIT: int := 0x8000

  /** A tree whose bytes read back as the same tree. */
  predicate Encodable(v: Version, kind: int, p: Payload)
    decreases p, 1
  {
    0 <= kind <= 10 && KindOf(p) == kind &&
    match p
    case EndP => v == Later
    case ByteP(b) => -0x80 <= b < 0x80
    case ShortP(s) => -0x8000 <= s < 0x8000
    case IntP(i) => -0x8000_0000 <= i < 0x8000_0000
    case LongP(bs) => |bs| == 8
    case FloatP(bs) => |bs| == 4
    case DoubleP(bs) => |bs| == 8
    case ByteArrayP(xs) => |xs| < COUNT_LIMIT && forall i :: 0 <= i < |xs| ==> 0 <= xs[i] < 256
    case StringP(cs) => |cs| < STRING_LIMIT
    case ListP(t, items) => -0x80 <= t < 0x80 && |items| < COUNT_LIMIT && ItemsEncodable(v, t, items)
    case CompoundP(es) => EntriesEncodable(v, es)
    case IntArrayP(_) => false
  }

  /** Every element of a list is an encodable payload of the list's element kind. */
  predicate ItemsEncodable(v: Version, t: int, items: seq<Payload>)
    decreases items, 0
  {
    forall i :: 0 <= i < |items| ==> Encodable(v, t, items[i])
  }

  /** The names of a compound are distinct and every entry is encodable. */
  predicate EntriesEncodable(v: Version, es: seq<Entry>)
    decreases es, 0
  {
    UniqueNames(es) && forall i :: 0 <= i < |es| ==> EntryEncodable(v, es[i])
  }

  /** An entry whose kind is not End, whose name fits a short length field, and whose payload is encodable. */
  predicate EntryEncodable(v: Version, e: Entry)
    decreases e, 0
  {
    1 <= e.tag.kind && |e.name| < STRING_LIMIT && Encodable(v, e.tag.kind, e.tag.payload)
  }

  /** A reader step bound that suffices to read p: one unit per payload and per compound entry. */
  function Size(p: Payload): nat
    decreases p
  {
    match p
    case ListP(_, items) => 1 + ItemsSize(items)
    case CompoundP(es) => 1 + EntriesSize(es, 0)
    case _ => 1
  }

  function ItemsSize(items: seq<Payload>): nat
    decreases items
  {
    if items == [] then 0 else Size(items[0]) + ItemsSize(items[1..])
  }

  /** The reader steps for the entries es[k..]. */
  function EntriesSize(es: seq<Entry>, k: nat): nat
    decreases es, |es| - k
  {
    if k >= |es| then 0 else 1 + Size(es[k].tag.payload) + EntriesSize(es, k + 1)
  }

  /** The bytes bs stand in d from position pos on. */
  predicate At(d: seq<byte>, pos: int, bs: seq<byte>) {
    0 <= pos && pos + |bs| <= |d| && forall i :: 0 <= i < |bs| ==> d[pos + i] == bs[i]
  }

  /** At is the slice of d from pos being bs. */
  lemma AtSlice(d: seq<byte>, pos: int, bs: seq<byte>)
    ensures At(d, pos, bs) <==> 0 <= pos && pos + |bs| <= |d| && d[pos..pos + |bs|] == bs
  {
    if 0 <= pos && pos + |bs| <= |d| {
      if At(d, pos, bs) {
        assert d[pos..pos + |bs|] == bs;
      }
      if d[pos..pos + |bs|] == bs {
        forall i | 0 <= i < |bs| ensures d[pos + i] == bs[i] {
          assert d[pos..pos + |bs|][i] == d[pos + i];
        }
      }
    }
  }

  lemma AtSplit(d: seq<byte>, pos: int, a: seq<byte>, b: seq<byte>, q: int)
    requires At(d, pos, a + b) && q == pos + |a|
    ensures At(d, pos, a) && At(d, q, b)
  {
    forall i | 0 <= i < |a| ensures d[pos + i] == a[i] {
      assert (a + b)[i] == a[i];
    }
    forall i | 0 <= i < |b| ensures d[q + i] == b[i] {
      assert (a + b)[|a| + i] == b[i];
    }
  }

  /** A written signed byte reads back as its value. */
  lemma ReadByteAt(d: seq<byte>, pos: int, x: int)
    requires -0x80 <= x < 0x80 && At(d, pos, WriteByte(x))
    ensures SignedAt(d, pos, 1) == Ok((x, pos + 1))
  {
    AtSlice(d, pos, WriteByte(x));
    ByteBack(x);
  }

  /** A written signed short reads back as its value. */
  lemma ReadShortAt(d: seq<byte>, pos: int, x: int)
    requires -0x8000 <= x < 0x8000 && At(d, pos, WriteShort(x))
    ensures SignedAt(d, pos, 2) == Ok((x, pos + 2))
  {
    AtSlice(d, pos, WriteShort(x));
    ShortBack(x);
  }

  /** A written signed int reads back as its value. */
  lemma ReadIntAt(d: seq<byte>, pos: int, x: int)
    requires -0x8000_0000 <= x < 0x8000_0000 && At(d, pos, WriteInt(x))
    ensures SignedAt(d, pos, 4) == Ok((x, pos + 4))
  {
    AtSlice(d, pos, WriteInt(x));
    IntBack(x);
  }

  lemma ReadString(d: seq<byte>, pos: int, cs: seq<byte>)
    requires |cs| < STRING_LIMIT && At(d, pos, WriteString(cs))
    ensures StringAt(d, pos) == Ok((cs, pos + 2 + |cs|))
  {
    AtSplit(d, pos, WriteShort(|cs|), cs, pos + 2);
    ReadShortAt(d, pos, |cs|);
    ReadBuffer(d, pos + 2, cs);
  }

  lemma LowBytesIdentity(xs: seq<int>)
    requires forall i :: 0 <= i < |xs| ==> 0 <= xs[i] < 256
    ensures LowBytes(xs) == xs
  {
  }

  lemma ReadBuffer(d: seq<byte>, pos: int, bs: seq<byte>)
    requires At(d, pos, bs)
    ensures BufferAt(d, pos, |bs|) == Ok(bs)
  {
    AtSlice(d, pos, bs);
  }

  lemma ReadByteArray(d: seq<byte>, pos: int, xs: seq<int>)
    requires |xs| < COUNT_LIMIT && forall i :: 0 <= i < |xs| ==> 0 <= xs[i] < 256
    requires At(d, pos, WriteInt(|xs|) + LowBytes(xs))
    ensures ByteArrayAt(d, pos) == Ok((ByteArrayP(xs), pos + 4 + |xs|))
  {
    var bs := LowBytes(xs);
    assert At(d, pos, WriteInt(|xs|)) && At(d, pos + 4, bs) by {
      AtSplit(d, pos, WriteInt(|xs|), bs, pos + 4);
    }
    assert SignedAt(d, pos, 4) == Ok((|xs|, pos + 4)) by {
      ReadIntAt(d, pos, |xs|);
    }
    assert BufferAt(d, pos + 4, |xs|) == Ok(bs) by {
      ReadBuffer(d, pos + 4, bs);
    }
    assert ByteItems(bs, |xs|) == xs by {
      LowBytesIdentity(xs);
    }
  }


  /** An encodable payload is written without error. */
  lemma {:induction false} PayloadEncodes(v: Version, kind: int, p: Payload)
    requires Encodable(v, kind, p)
    ensures EncodePayload(v, kind, p).Ok?
    decreases p, 1
  {
    match p
    case ListP(t, items) => ItemsEncode(v, t, items);
    case CompoundP(es) => EntriesEncode(v, es);
    case _ =>
  }

  lemma {:induction false} ItemsEncode(v: Version, t: int, items: seq<Payload>)
    requires ItemsEncodable(v, t, items)
    ensures EncodeItems(v, t, items).Ok?
    decreases items, 0
  {
    if items != [] {
      ItemsEncode(v, t, items[..|items| - 1]);
      PayloadEncodes(v, t, items[|items| - 1]);
    }
  }

  lemma {:induction false} EntriesEncode(v: Version, es: seq<Entry>)
    requires forall i :: 0 <= i < |es| ==> EntryEncodable(v, es[i])
    ensures EncodeEntries(v, es).Ok?
    decreases es, 0
  {
    if es != [] {
      var e := es[|es| - 1];
      EntriesEncode(v, es[..|es| - 1]);
      PayloadEncodes(v, e.tag.kind, e.tag.payload);
    }
  }

  /**
   * The elements rest of an encodable list are written as the chunks pls, one
   * per element, first element first.
   */
  predicate ItemsChunked(v: Version, t: int, rest: seq<Payload>, pls: seq<seq<byte>>)
    decreases rest
  {
    |pls| == |rest| &&
    (rest != [] ==>
       Encodable(v, t, rest[0]) && EncodePayload(v, t, rest[0]) == Ok(pls[0]) &&
       ItemsChunked(v, t, rest[1..], pls[1..]))
  }

  /** The entries es[k..] are encodable and their payloads are written as the chunks pls[k..], one per entry. */
  predicate EntriesChunked(v: Version, es: seq<Entry>, pls: seq<seq<byte>>, k: nat)
    decreases |es| - k
  {
    |pls| == |es| &&
    (k < |es| ==>
       EntryEncodable(v, es[k]) && EncodePayload(v, es[k].tag.kind, es[k].tag.payload) == Ok(pls[k]) &&
       EntriesChunked(v, es, pls, k + 1))
  }

  /** EntriesChunked from the statement about every entry. */
  lemma {:induction false} ChunkedFrom(v: Version, es: seq<Entry>, pls: seq<seq<byte>>, k: nat)
    requires |pls| == |es|
    requires forall j :: k <= j < |es| ==>
      EntryEncodable(v, es[j]) && EncodePayload(v, es[j].tag.kind, es[j].tag.payload) == Ok(pls[j])
    ensures EntriesChunked(v, es, pls, k)
    decreases |es| - k
  {
    if k < |es| {
      ChunkedFrom(v, es, pls, k + 1);
    }
  }

  /** The bytes each element of an encodable list is written as. */
  lemma {:induction false} ItemChunks(v: Version, t: int, items: seq<Payload>) returns (pls: seq<seq<byte>>)
    requires ItemsEncodable(v, t, items)
    ensures ItemsChunked(v, t, items, pls)
    ensures forall i :: 0 <= i < |items| ==> EncodePayload(v, t, items[i]) == Ok(pls[i])
    decreases |items|
  {
    if items == [] {
      pls := [];
    } else {
      var more := ItemChunks(v, t, items[1..]);
      PayloadEncodes(v, t, items[0]);
      pls := [EncodePayload(v, t, items[0]).value] + more;
      assert pls[1..] == more;
    }
  }

  /** The bytes the payload of each entry of an encodable compound is written as. */
  lemma {:induction false} EntryChunks(v: Version, es: seq<Entry>) returns (pls: seq<seq<byte>>)
    requires forall i :: 0 <= i < |es| ==> EntryEncodable(v, es[i])
    ensures |pls| == |es|
    ensures forall j :: 0 <= j < |es| ==>
      EntryEncodable(v, es[j]) && EncodePayload(v, es[j].tag.kind, es[j].tag.payload) == Ok(pls[j])
    decreases |es|
  {
    if es == [] {
      pls := [];
    } else {
      var n := |es| - 1;
      var front := EntryChunks(v, es[..n]);
      PayloadEncodes(v, es[n].tag.kind, es[n].tag.payload);
      pls := front + [EncodePayload(v, es[n].tag.kind, es[n].tag.payload).value];
      forall j | 0 <= j < |es|
        ensures EntryEncodable(v, es[j]) && EncodePayload(v, es[j].tag.kind, es[j].tag.payload) == Ok(pls[j])
      {
        if j < n {
          assert es[..n][j] == es[j];
        }
      }
    }
  }

  /** The chunks of bytes one after another, first chunk first. */
  function Joined(parts: seq<seq<byte>>): seq<byte> {
    if parts == [] then [] else parts[0] + Joined(parts[1..])
  }

  /** The bytes of the compound entries es[k..], whose payloads are written as pls: kind, name and payload of each, in order. */
  function EntriesBytes(es: seq<Entry>, pls: seq<seq<byte>>, k: nat): seq<byte>
    requires |es| == |pls|
    decreases |es| - k
  {
    if k >= |es| then []
    else WriteByte(es[k].tag.kind) + WriteString(es[k].name) + pls[k] + EntriesBytes(es, pls, k + 1)
  }

  lemma Assoc5(h: seq<byte>, m: seq<byte>, a: seq<byte>, b: seq<byte>, c: seq<byte>)
    ensures h + (m + a + b + c) == h + m + a + b + c
  {
  }

  /** The last chunk comes last. */
  lemma {:induction false} JoinedLast(parts: seq<seq<byte>>)
    requires parts != []
    ensures Joined(parts) == Joined(parts[..|parts| - 1]) + parts[|parts| - 1]
    decreases |parts|
  {
    var n := |parts| - 1;
    if n > 0 {
      JoinedLast(parts[1..]);
      assert parts[1..][..n - 1] == parts[..n][1..];
      Assoc5(parts[0], Joined(parts[..n][1..]), parts[n], [], []);
    }
  }

  /** The last entry's bytes come last. */
  lemma {:induction false} EntriesBytesLast(es: seq<Entry>, pls: seq<seq<byte>>, k: nat)
    requires |es| == |pls| && k < |es|
    ensures var n := |es| - 1;
      EntriesBytes(es, pls, k) == EntriesBytes(es[..n], pls[..n], k) + WriteByte(es[n].tag.kind) + WriteString(es[n].name) + pls[n]
    decreases |es| - k
  {
    var n := |es| - 1;
    if k < n {
      EntriesBytesLast(es, pls, k + 1);
      assert es[..n][k] == es[k] && pls[..n][k] == pls[k];
      Assoc5(WriteByte(es[k].tag.kind) + WriteString(es[k].name) + pls[k], EntriesBytes(es[..n], pls[..n], k + 1),
             WriteByte(es[n].tag.kind), WriteString(es[n].name), pls[n]);
    }
  }

  /** Items whose payloads are written as pls are written as the chunks pls one after another. */
  lemma {:induction false} ItemsJoined(v: Version, t: int, items: seq<Payload>, pls: seq<seq<byte>>)
    requires |pls| == |items| && forall i :: 0 <= i < |items| ==> EncodePayload(v, t, items[i]) == Ok(pls[i])
    ensures EncodeItems(v, t, items) == Ok(Joined(pls))
    decreases |items|
  {
    if items != [] {
      var n := |items| - 1;
      ItemsJoined(v, t, items[..n], pls[..n]);
      JoinedLast(pls);
    }
  }

  /** Entries whose payloads are written as pls are written as their entry bytes, first entry first. */
  lemma {:induction false} EntriesJoined(v: Version, es: seq<Entry>, pls: seq<seq<byte>>)
    requires |pls| == |es|
    requires forall i :: 0 <= i < |es| ==> EncodePayload(v, es[i].tag.kind, es[i].tag.payload) == Ok(pls[i])
    ensures EncodeEntries(v, es) == Ok(EntriesBytes(es, pls, 0))
    decreases |es|
  {
    if es != [] {
      var n := |es| - 1;
      EntriesJoined(v, es[..n], pls[..n]);
      EntriesBytesLast(es, pls, 0);
    }
  }

  /** An encodable list is written as its header and its elements' chunks. */
  lemma ListWritten(v: Version, t: int, items: seq<Payload>, x: seq<byte>) returns (pls: seq<seq<byte>>)
    requires ItemsEncodable(v, t, items) && EncodeList(v, t, items) == Ok(x)
    ensures ItemsChunked(v, t, items, pls) && x == WriteByte(t) + WriteInt(|items|) + Joined(pls)
  {
    pls := ItemChunks(v, t, items);
    ItemsJoined(v, t, items, pls);
  }

  /** An encodable compound is written as its entries' bytes and the End byte. */
  lemma CompoundWritten(v: Version, es: seq<Entry>, x: seq<byte>) returns (pls: seq<seq<byte>>)
    requires EntriesEncodable(v, es) && EncodeCompound(v, es) == Ok(x)
    ensures EntriesChunked(v, es, pls, 0) && x == EntriesBytes(es, pls, 0) + WriteByte(TAG_END)
  {
    pls := EntryChunks(v, es);
    ChunkedFrom(v, es, pls, 0);
    EntriesJoined(v, es, pls);
  }

  lemma MoveFirst<T>(acc: seq<T>, rest: seq<T>)
    requires rest != []
    ensures acc + [rest[0]] + rest[1..] == acc + rest
  {
  }

  lemma Reassociate(a: seq<byte>, b: seq<byte>, c: seq<byte>, e: seq<byte>, f: seq<byte>)
    ensures (a + b + c + e) + f == (a + b + c) + (e + f)
  {
  }

  lemma AtThree(d: seq<byte>, pos: int, a: seq<byte>, b: seq<byte>, c: seq<byte>)
    requires At(d, pos, a + b + c)
    ensures At(d, pos, a) && At(d, pos + |a|, b) && At(d, pos + |a| + |b|, c)
  {
    AtSplit(d, pos, a + b, c, pos + |a| + |b|);
    AtSplit(d, pos, a, b, pos + |a|);
  }

  /** The bytes of one compound entry read back as its kind, its name, and the start of its payload. */
  lemma EntryHeader(d: seq<byte>, pos: int, kind: int, name: seq<byte>, x: seq<byte>)
    requires At(d, pos, WriteByte(kind) + WriteString(name) + x)
    requires 1 <= kind <= 10 && |name| < STRING_LIMIT
    ensures kind != TAG_END && SignedAt(d, pos, 1) == Ok((kind, pos + 1))
    ensures StringAt(d, pos + 1) == Ok((name, pos + 3 + |name|))
    ensures At(d, pos + 3 + |name|, x)
  {
    AtThree(d, pos, WriteByte(kind), WriteString(name), x);
    ReadByteAt(d, pos, kind);
    ReadString(d, pos + 1, name);
  }

  /** The bytes of a list header read back as its element kind and count. */
  lemma ListHeader(d: seq<byte>, pos: int, t: int, n: int, body: seq<byte>)
    requires At(d, pos, WriteByte(t) + WriteInt(n) + body)
    requires -0x80 <= t < 0x80 && 0 <= n < COUNT_LIMIT
    ensures SignedAt(d, pos, 1) == Ok((t, pos + 1))
    ensures SignedAt(d, pos + 1, 4) == Ok((n, pos + 5))
    ensures At(d, pos + 5, body)
  {
    AtThree(d, pos, WriteByte(t), WriteInt(n), body);
    ReadByteAt(d, pos, t);
    ReadIntAt(d, pos + 1, n);
  }

  /** One turn of the list reader's loop. */
  lemma ParseItemsStep(v: Version, d: seq<byte>, kind: int, n: int, p: int, acc: seq<Payload>, fuel: nat, x: Payload, q: int)
    requires |acc| < n && ParsePayload(v, d, kind, p, fuel) == Ok((x, q))
    ensures ParseItems(v, d, kind, n, p, acc, fuel) == ParseItems(v, d, kind, n, q, acc + [x], fuel)
  {
  }

  /** One turn of the compound reader's loop, for an entry whose kind is not End. */
  lemma ParseEntriesStep(v: Version, d: seq<byte>, p: int, acc: seq<Entry>, fuel: nat, t: Tag, name: seq<byte>,
                         q: int, n: int, r: int)
    requires fuel >= 1 && t.kind != TAG_END
    requires SignedAt(d, p, 1) == Ok((t.kind, p + 1))
    requires StringAt(d, p + 1) == Ok((name, q))
    requires ParsePayload(v, d, t.kind, q, fuel - 1) == Ok((t.payload, q + n)) && r == q + n
    ensures ParseEntries(v, d, p, acc, fuel) == ParseEntries(v, d, r, Put(acc, name, t), fuel - 1)
  {
    assert ParseEntries(v, d, p, acc, fuel) == EntryAt(v, d, t.kind, p + 1, acc, fuel - 1);
  }

  /** Reading the bytes x of an encodable payload gives the payload and stops right after x. */
  lemma {:induction false} PayloadRoundTrip(v: Version, kind: int, p: Payload, x: seq<byte>, d: seq<byte>, pos: int, fuel: nat)
    requires Encodable(v, kind, p) && EncodePayload(v, kind, p) == Ok(x)
    requires At(d, pos, x) && fuel >= Size(p)
    ensures ParsePayload(v, d, kind, pos, fuel) == Ok((p, pos + |x|))
    decreases p, 3
  {
    if p.ListP? {
      ListRoundTrip(v, kind, p, x, d, pos, fuel);
    } else if p.CompoundP? {
      CompoundRoundTrip(v, kind, p, x, d, pos, fuel);
    } else {
      ScalarRoundTrip(v, kind, p, x, d, pos);
    }
  }

  /** A payload that holds no other payload reads back. */
  lemma ScalarRoundTrip(v: Version, kind: int, p: Payload, x: seq<byte>, d: seq<byte>, pos: int)
    requires Encodable(v, kind, p) && !p.ListP? && !p.CompoundP?
    requires EncodePayload(v, kind, p) == Ok(x) && At(d, pos, x)
    ensures ScalarAt(v, d, kind, pos) == Ok((p, pos + |x|))
  {
    if p.ByteP? || p.ShortP? || p.IntP? {
      NumberRoundTrip(v, kind, p, x, d, pos);
    } else if p.LongP? || p.FloatP? || p.DoubleP? {
      BlockRoundTrip(v, kind, p, x, d, pos);
    } else {
      SequenceRoundTrip(v, kind, p, x, d, pos);
    }
  }

  /** A byte, short or int payload reads back. */
  lemma NumberRoundTrip(v: Version, kind: int, p: Payload, x: seq<byte>, d: seq<byte>, pos: int)
    requires Encodable(v, kind, p) && (p.ByteP? || p.ShortP? || p.IntP?)
    requires EncodePayload(v, kind, p) == Ok(x) && At(d, pos, x)
    ensures ScalarAt(v, d, kind, pos) == Ok((p, pos + |x|))
  {
    match p
    case ByteP(b) => ByteRoundTrip(v, d, pos, b);
    case ShortP(s) => ShortRoundTrip(v, d, pos, s);
    case IntP(i) => IntRoundTrip(v, d, pos, i);
  }

  /** A long, float or double payload reads back. */
  lemma BlockRoundTrip(v: Version, kind: int, p: Payload, x: seq<byte>, d: seq<byte>, pos: int)
    requires Encodable(v, kind, p) && (p.LongP? || p.FloatP? || p.DoubleP?)
    requires EncodePayload(v, kind, p) == Ok(x) && At(d, pos, x)
    ensures ScalarAt(v, d, kind, pos) == Ok((p, pos + |x|))
  {
    match p
    case LongP(bs) => LongRoundTrip(v, d, pos, bs);
    case FloatP(bs) => FloatRoundTrip(v, d, pos, bs);
    case DoubleP(bs) => DoubleRoundTrip(v, d, pos, bs);
  }

  /** An End, byte array or string payload reads back. */
  lemma SequenceRoundTrip(v: Version, kind: int, p: Payload, x: seq<byte>, d: seq<byte>, pos: int)
    requires Encodable(v, kind, p) && (p.EndP? || p.ByteArrayP? || p.StringP?)
    requires EncodePayload(v, kind, p) == Ok(x) && At(d, pos, x)
    ensures ScalarAt(v, d, kind, pos) == Ok((p, pos + |x|))
  {
    match p
    case ByteArrayP(xs) => ByteArrayRoundTrip(v, d, pos, xs);
    case StringP(cs) => StringRoundTrip(v, d, pos, cs);
    case EndP =>
  }

  /** A written byte payload reads back. */
  lemma ByteRoundTrip(v: Version, d: seq<byte>, pos: int, b: int)
    requires -0x80 <= b < 0x80 && At(d, pos, WriteByte(b))
    ensures ScalarAt(v, d, TAG_BYTE, pos) == Ok((ByteP(b), pos + |WriteByte(b)|))
  {
    ReadByteAt(d, pos, b);
  }

  /** A written short payload reads back. */
  lemma ShortRoundTrip(v: Version, d: seq<byte>, pos: int, s: int)
    requires -0x8000 <= s < 0x8000 && At(d, pos, WriteShort(s))
    ensures ScalarAt(v, d, TAG_SHORT, pos) == Ok((ShortP(s), pos + |WriteShort(s)|))
  {
    ReadShortAt(d, pos, s);
  }

  /** A written int payload reads back. */
  lemma IntRoundTrip(v: Version, d: seq<byte>, pos: int, i: int)
    requires -0x8000_0000 <= i < 0x8000_0000 && At(d, pos, WriteInt(i))
    ensures ScalarAt(v, d, TAG_INT, pos) == Ok((IntP(i), pos + |WriteInt(i)|))
  {
    ReadIntAt(d, pos, i);
  }

  /** A long payload's eight bytes read back. */
  lemma LongRoundTrip(v: Version, d: seq<byte>, pos: int, bs: seq<byte>)
    requires |bs| == 8 && At(d, pos, bs)
    ensures ScalarAt(v, d, TAG_LONG, pos) == Ok((LongP(bs), pos + |bs|))
  {
    ReadBuffer(d, pos, bs);
  }

  /** A float payload's four bytes read back. */
  lemma FloatRoundTrip(v: Version, d: seq<byte>, pos: int, bs: seq<byte>)
    requires |bs| == 4 && At(d, pos, bs)
    ensures ScalarAt(v, d, TAG_FLOAT, pos) == Ok((FloatP(bs), pos + |bs|))
  {
    ReadBuffer(d, pos, bs);
  }

  /** A double payload's eight bytes read back. */
  lemma DoubleRoundTrip(v: Version, d: seq<byte>, pos: int, bs: seq<byte>)
    requires |bs| == 8 && At(d, pos, bs)
    ensures ScalarAt(v, d, TAG_DOUBLE, pos) == Ok((DoubleP(bs), pos + |bs|))
  {
    ReadBuffer(d, pos, bs);
  }

  /** A written byte array of octets reads back. */
  lemma ByteArrayRoundTrip(v: Version, d: seq<byte>, pos: int, xs: seq<int>)
    requires |xs| < COUNT_LIMIT && forall i :: 0 <= i < |xs| ==> 0 <= xs[i] < 256
    requires At(d, pos, WriteInt(|xs|) + LowBytes(xs))
    ensures ScalarAt(v, d, TAG_BYTE_ARRAY, pos) == Ok((ByteArrayP(xs), pos + |WriteInt(|xs|) + LowBytes(xs)|))
  {
    ReadByteArray(d, pos, xs);
  }

  /** A written string reads back. */
  lemma StringRoundTrip(v: Version, d: seq<byte>, pos: int, cs: seq<byte>)
    requires |cs| < STRING_LIMIT && At(d, pos, WriteString(cs))
    ensures ScalarAt(v, d, TAG_STRING, pos) == Ok((StringP(cs), pos + |WriteString(cs)|))
  {
    ReadString(d, pos, cs);
  }

  /** A list payload reads back: its header, then its elements. */
  lemma {:induction false} ListRoundTrip(v: Version, kind: int, p: Payload, x: seq<byte>, d: seq<byte>, pos: int, fuel: nat)
    requires Encodable(v, kind, p) && p.ListP?
    requires EncodePayload(v, kind, p) == Ok(x) && At(d, pos, x) && fuel >= Size(p)
    ensures ParsePayload(v, d, kind, pos, fuel) == Ok((p, pos + |x|))
    decreases p, 2
  {
    var pls := ListWritten(v, p.ofType, p.list, x);
    ListReads(v, p.ofType, p.list, pls, d, pos, fuel - 1);
  }

  /** A list header and the chunks of its elements read back as the list. */
  lemma {:induction false} ListReads(v: Version, t: int, items: seq<Payload>, pls: seq<seq<byte>>, d: seq<byte>, pos: int, fuel: nat)
    requires -0x80 <= t < 0x80 && |items| < COUNT_LIMIT && ItemsChunked(v, t, items, pls)
    requires At(d, pos, WriteByte(t) + WriteInt(|items|) + Joined(pls)) && fuel >= ItemsSize(items)
    ensures ListAt(v, d, pos, fuel) == Ok((ListP(t, items), pos + 5 + |Joined(pls)|))
    decreases items, 2
  {
    ListHeader(d, pos, t, |items|, Joined(pls));
    ItemsRead(v, t, |items|, [], items, pls, d, pos + 5, fuel);
    assert [] + items == items;
  }

  /** The list reader's loop, with the elements acc read, reads the elements rest still to read. */
  lemma {:induction false} ItemsRead(v: Version, t: int, n: int, acc: seq<Payload>, rest: seq<Payload>, pls: seq<seq<byte>>,
                                     d: seq<byte>, pos: int, fuel: nat)
    requires |acc| + |rest| == n && ItemsChunked(v, t, rest, pls)
    requires At(d, pos, Joined(pls)) && fuel >= ItemsSize(rest)
    ensures ParseItems(v, d, t, n, pos, acc, fuel) == Ok((acc + rest, pos + |Joined(pls)|))
    decreases rest, 1
  {
    if rest == [] {
      assert acc + rest == acc;
    } else {
      var q := ItemsNext(v, t, n, acc, rest, pls, d, pos, fuel);
      ItemsRead(v, t, n, acc + [rest[0]], rest[1..], pls[1..], d, q, fuel);
      MoveFirst(acc, rest);
    }
  }

  /** One turn of the list reader's loop reads the next element and stops where the following one starts. */
  lemma {:induction false} ItemsNext(v: Version, t: int, n: int, acc: seq<Payload>, rest: seq<Payload>, pls: seq<seq<byte>>,
                                     d: seq<byte>, pos: int, fuel: nat) returns (q: int)
    requires |acc| + |rest| == n && rest != [] && ItemsChunked(v, t, rest, pls)
    requires At(d, pos, Joined(pls)) && fuel >= ItemsSize(rest)
    ensures ParseItems(v, d, t, n, pos, acc, fuel) == ParseItems(v, d, t, n, q, acc + [rest[0]], fuel)
    ensures ItemsChunked(v, t, rest[1..], pls[1..]) && fuel >= ItemsSize(rest[1..])
    ensures At(d, q, Joined(pls[1..])) && q + |Joined(pls[1..])| == pos + |Joined(pls)|
    decreases rest, 0
  {
    q := pos + |pls[0]|;
    AtSplit(d, pos, pls[0], Joined(pls[1..]), q);
    PayloadRoundTrip(v, t, rest[0], pls[0], d, pos, fuel);
    ParseItemsStep(v, d, t, n, pos, acc, fuel, rest[0], q);
  }

  /** A compound payload reads back: its entries, then the End byte. */
  lemma {:induction false} CompoundRoundTrip(v: Version, kind: int, p: Payload, x: seq<byte>, d: seq<byte>, pos: int, fuel: nat)
    requires Encodable(v, kind, p) && p.CompoundP?
    requires EncodePayload(v, kind, p) == Ok(x) && At(d, pos, x) && fuel >= Size(p)
    ensures ParsePayload(v, d, kind, pos, fuel) == Ok((p, pos + |x|))
    decreases p, 2
  {
    var pls := CompoundWritten(v, p.entries, x);
    CompoundReads(v, p.entries, pls, d, pos, fuel - 1);
  }

  /** The entries' bytes and the End byte read back as the entries. */
  lemma {:induction false} CompoundReads(v: Version, es: seq<Entry>, pls: seq<seq<byte>>, d: seq<byte>, pos: int, fuel: nat)
    requires UniqueNames(es) && EntriesChunked(v, es, pls, 0)
    requires At(d, pos, EntriesBytes(es, pls, 0) + WriteByte(TAG_END)) && fuel >= EntriesSize(es, 0)
    ensures ParseEntries(v, d, pos, [], fuel) == Ok((es, pos + |EntriesBytes(es, pls, 0)| + 1))
    decreases es, |es| + 1
  {
    FreshFromUnique(es, 0);
    assert Reading(v, es, pls, [], d, pos, fuel);
    EntriesRead(v, es, pls, [], d, pos, pos + |EntriesBytes(es, pls, 0)| + 1, fuel);
  }

  /**
   * The state of the compound reader's loop part way through reading the
   * entries es: it has stored the first |acc| of them, their names are fresh
   * from there on, the bytes of the rest and the End byte stand at pos, and
   * fuel suffices for them.
   */
  predicate Reading(v: Version, es: seq<Entry>, pls: seq<seq<byte>>, acc: seq<Entry>, d: seq<byte>, pos: int, fuel: nat) {
    && |acc| <= |es| && (forall i :: 0 <= i < |acc| ==> acc[i] == es[i])
    && FreshFrom(es, |acc|) && EntriesChunked(v, es, pls, |acc|)
    && At(d, pos, EntriesBytes(es, pls, |acc|) + WriteByte(TAG_END)) && fuel >= EntriesSize(es, |acc|)
  }

  /** From any state of its loop, the compound reader reads the remaining entries and the End byte, stopping at end. */
  lemma {:induction false} EntriesRead(v: Version, es: seq<Entry>, pls: seq<seq<byte>>, acc: seq<Entry>,
                                       d: seq<byte>, pos: int, end: int, fuel: nat)
    requires Reading(v, es, pls, acc, d, pos, fuel)
    requires end == pos + |EntriesBytes(es, pls, |acc|)| + 1
    ensures ParseEntries(v, d, pos, acc, fuel) == Ok((es, end))
    decreases es, |es| - |acc|, 2
  {
    if |acc| == |es| {
      EntriesEnd(v, es, pls, acc, d, pos, end, fuel);
    } else {
      EntriesStep(v, es, pls, acc, d, pos, end, fuel);
    }
  }

  /** One turn of the loop, then the rest of it. */
  lemma {:induction false} EntriesStep(v: Version, es: seq<Entry>, pls: seq<seq<byte>>, acc: seq<Entry>,
                                       d: seq<byte>, pos: int, end: int, fuel: nat)
    requires Reading(v, es, pls, acc, d, pos, fuel) && |acc| < |es|
    requires end == pos + |EntriesBytes(es, pls, |acc|)| + 1
    ensures ParseEntries(v, d, pos, acc, fuel) == Ok((es, end))
    decreases es, |es| - |acc|, 1
  {
    var r, next := EntriesNext(v, es, pls, acc, d, pos, fuel);
    EntriesRead(v, es, pls, next, d, r, end, fuel - 1);
  }

  /** With every entry read, the compound reader's loop stops at the End byte. */
  lemma EntriesEnd(v: Version, es: seq<Entry>, pls: seq<seq<byte>>, acc: seq<Entry>, d: seq<byte>, pos: int, end: int, fuel: nat)
    requires |acc| == |es| == |pls| && forall i :: 0 <= i < |acc| ==> acc[i] == es[i]
    requires At(d, pos, EntriesBytes(es, pls, |acc|) + WriteByte(TAG_END))
    requires end == pos + |EntriesBytes(es, pls, |acc|)| + 1
    ensures ParseEntries(v, d, pos, acc, fuel) == Ok((es, end))
  {
    assert EntriesBytes(es, pls, |acc|) + WriteByte(TAG_END) == WriteByte(TAG_END);
    ReadByteAt(d, pos, TAG_END);
    assert acc == es;
  }

  /**
   * One turn of the compound reader's loop reads entry k, whose name is new,
   * appends it, and stops where entry k + 1 starts.
   */
  lemma {:induction false} EntriesNext(v: Version, es: seq<Entry>, pls: seq<seq<byte>>, acc: seq<Entry>,
                                       d: seq<byte>, pos: int, fuel: nat) returns (r: int, next: seq<Entry>)
    requires Reading(v, es, pls, acc, d, pos, fuel) && |acc| < |es|
    ensures fuel >= 1 && Reading(v, es, pls, next, d, r, fuel - 1) && |next| == |acc| + 1
    ensures ParseEntries(v, d, pos, acc, fuel) == ParseEntries(v, d, r, next, fuel - 1)
    ensures r + |EntriesBytes(es, pls, |next|)| == pos + |EntriesBytes(es, pls, |acc|)|
    decreases es, |es| - |acc|, 0
  {
    var k := |acc|;
    r := pos + 3 + |es[k].name| + |pls[k]|;
    next := acc + [es[k]];
    EntriesSplit(es, pls, k, d, pos, r);
    EntryParse(v, acc, es[k], pls[k], d, pos, r, fuel);
    PutNext(es, acc);
  }

  /** Storing the next entry, whose name is new, after the entries acc before it appends it. */
  lemma PutNext(es: seq<Entry>, acc: seq<Entry>)
    requires |acc| < |es| && forall i :: 0 <= i < |acc| ==> acc[i] == es[i]
    requires forall i :: 0 <= i < |acc| ==> es[i].name != es[|acc|].name
    ensures Put(acc, es[|acc|].name, es[|acc|].tag) == acc + [es[|acc|]]
  {
    PutNew(acc, es[|acc|].name, es[|acc|].tag);
  }

  /** From entry k on, no entry's name occurs among the names before it. */
  predicate FreshFrom(es: seq<Entry>, k: nat)
    decreases |es| - k
  {
    k >= |es| || ((forall i :: 0 <= i < k ==> es[i].name != es[k].name) && FreshFrom(es, k + 1))
  }

  lemma {:induction false} FreshFromUnique(es: seq<Entry>, k: nat)
    requires UniqueNames(es)
    ensures FreshFrom(es, k)
    decreases |es| - k
  {
    if k < |es| {
      FreshFromUnique(es, k + 1);
    }
  }

  /** Where entry k's bytes and the bytes after it stand. */
  lemma EntriesSplit(es: seq<Entry>, pls: seq<seq<byte>>, k: nat, d: seq<byte>, pos: int, r: int)
    requires k < |es| == |pls|
    requires At(d, pos, EntriesBytes(es, pls, k) + WriteByte(TAG_END))
    requires r == pos + 3 + |es[k].name| + |pls[k]|
    ensures At(d, pos, WriteByte(es[k].tag.kind) + WriteString(es[k].name) + pls[k])
    ensures At(d, r, EntriesBytes(es, pls, k + 1) + WriteByte(TAG_END))
    ensures |EntriesBytes(es, pls, k)| == 3 + |es[k].name| + |pls[k]| + |EntriesBytes(es, pls, k + 1)|
  {
    var e := es[k];
    var more := EntriesBytes(es, pls, k + 1);
    Reassociate(WriteByte(e.tag.kind), WriteString(e.name), pls[k], more, WriteByte(TAG_END));
    AtSplit(d, pos, WriteByte(e.tag.kind) + WriteString(e.name) + pls[k], more + WriteByte(TAG_END), r);
  }

  /** One turn of the compound reader's loop reads the next entry and stores it. */
  lemma EntryParse(v: Version, acc: seq<Entry>, e: Entry, x: seq<byte>, d: seq<byte>, pos: int, r: int, fuel: nat)
    requires EntryEncodable(v, e) && EncodePayload(v, e.tag.kind, e.tag.payload) == Ok(x)
    requires At(d, pos, WriteByte(e.tag.kind) + WriteString(e.name) + x)
    requires fuel >= 1 + Size(e.tag.payload) && r == pos + 3 + |e.name| + |x|
    ensures ParseEntries(v, d, pos, acc, fuel) == ParseEntries(v, d, r, Put(acc, e.name, e.tag), fuel - 1)
    decreases e, 3
  {
    EntryHeader(d, pos, e.tag.kind, e.name, x);
    PayloadRoundTrip(v, e.tag.kind, e.tag.payload, x, d, pos + 3 + |e.name|, fuel - 1);
    ParseEntriesStep(v, d, pos, acc, fuel, e.tag, e.name, pos + 3 + |e.name|, |x|, r);
  }
}
