/**
 * The NBT reader as the source writes it: an object holding the input and a
 * pointer into it, whose read methods advance the pointer. Every method is
 * proved to read exactly what the functions of NbtParse describe.
 */
module NbtDecoder {
  import opened Wrappers
  import opened Wire
  import opened Tags
  import opened NbtParse

  class Decoder {
    /** Which NbtParser this object is. */
    const version: Version
    /** binaryNbtData */
    var nbtData: seq<byte>
    var pointer: int

    constructor (version: Version)
      ensures this.version == version && nbtData == [] && pointer == 0
    {
      this.version := version;
      nbtData := [];
      pointer := 0;
    }

    /**
     * readBuffer, with the length given in bytes. Unless peekOnly, the pointer
     * moves by n after a successful read, also when n is zero or negative.
     */
    method ReadBuffer(n: int, peekOnly: bool) returns (r: Result<seq<byte>, NbtError>)
      modifies this`pointer
      ensures r == BufferAt(nbtData, old(pointer), n)
      ensures pointer == if r.Ok? && !peekOnly then old(pointer) + n else old(pointer)
    {
      if n < 1 {
        r := Ok([]);
      } else if pointer + n > |nbtData| {
        return Err(Truncated);
      } else {
        r := Ok(Substr(nbtData, pointer, n));
      }
      if !peekOnly {
        pointer := pointer + n;
      }
    }

    method ReadByte(peekOnly: bool) returns (r: Result<int, NbtError>)
      modifies this`pointer
      ensures r == ValueOf(SignedAt(nbtData, old(pointer), 1))
      ensures pointer == if r.Ok? && !peekOnly then old(pointer) + 1 else old(pointer)
    {
      var bs :- ReadBuffer(1, peekOnly);
      r := Ok(Signed(bs));
    }

    method ReadShort(peekOnly: bool) returns (r: Result<int, NbtError>)
      modifies this`pointer
      ensures r == ValueOf(SignedAt(nbtData, old(pointer), 2))
      ensures pointer == if r.Ok? && !peekOnly then old(pointer) + 2 else old(pointer)
    {
      var bs :- ReadBuffer(2, peekOnly);
      r := Ok(Signed(bs));
    }

    /** readInt hands peekOnly to the converter, not to readBuffer: the pointer always moves. */
    method ReadInt(peekOnly: bool) returns (r: Result<int, NbtError>)
      modifies this`pointer
      ensures r == ValueOf(SignedAt(nbtData, old(pointer), 4))
      ensures pointer == if r.Ok? then old(pointer) + 4 else old(pointer)
    {
      var bs :- ReadBuffer(4, false);
      r := Ok(Signed(bs));
    }

    /** readLong, readFloat and readDouble: a block of `width` bytes; peekOnly is ignored as in readInt. */
    method ReadBlock(width: nat, peekOnly: bool) returns (r: Result<seq<byte>, NbtError>)
      requires width > 0
      modifies this`pointer
      ensures r == ValueOf(BlockAt(nbtData, old(pointer), width))
      ensures pointer == if r.Ok? then old(pointer) + width else old(pointer)
    {
      r := ReadBuffer(width, false);
    }

    method ReadString() returns (r: Result<seq<byte>, NbtError>)
      modifies this`pointer
      ensures Stepped(r, StringAt(nbtData, old(pointer)), pointer)
    {
      var length :- ReadShort(false);
      r := ReadBuffer(length, false);
    }

    method ReadTagData(kind: int, fuel: nat) returns (r: Result<Payload, NbtError>)
      modifies this`pointer
      decreases fuel, 0, 0
      ensures Stepped(r, ParsePayload(version, nbtData, kind, old(pointer), fuel), pointer)
    {
      if fuel == 0 {
        return Err(OutOfFuel);
      }
      if kind == TAG_END {
        r := Ok(EndP);
      } else if kind == TAG_BYTE {
        var x :- ReadByte(false);
        r := Ok(ByteP(x));
      } else if kind == TAG_SHORT {
        var x :- ReadShort(false);
        r := Ok(ShortP(x));
      } else if kind == TAG_INT {
        var x :- ReadInt(false);
        r := Ok(IntP(x));
      } else if kind == TAG_LONG {
        var x :- ReadBlock(8, false);
        r := Ok(LongP(x));
      } else if kind == TAG_FLOAT {
        var x :- ReadBlock(4, false);
        r := Ok(FloatP(x));
      } else if kind == TAG_DOUBLE {
        var x :- ReadBlock(8, false);
        r := Ok(DoubleP(x));
      } else if kind == TAG_BYTE_ARRAY {
        r := ReadByteArray();
      } else if kind == TAG_STRING {
        var x :- ReadString();
        r := Ok(StringP(x));
      } else if kind == TAG_LIST {
        r := ReadList(fuel - 1);
      } else if kind == TAG_COMPOUND {
        var x :- ReadCompound(fuel - 1);
        r := Ok(CompoundP(x));
      } else if kind == TAG_INT_ARRAY && version == Later {
        r := ReadIntArray();
      } else {
        r := Err(UnknownTagType(kind));
      }
    }

    method ReadByteArray() returns (r: Result<Payload, NbtError>)
      modifies this`pointer
      ensures Stepped(r, ByteArrayAt(nbtData, old(pointer)), pointer)
    {
      var byteLength :- ReadInt(false);
      var byteString :- ReadBuffer(byteLength, false);
      var byteArray: seq<int> := [];
      var i := 0;
      while i < byteLength
        invariant 0 <= i && (i <= byteLength || i == 0)
        invariant byteArray == ByteItems(byteString, i)
      {
        byteArray := byteArray + [CharCode(byteString, i)];
        i := i + 1;
      }
      assert ByteItems(byteString, i) == ByteItems(byteString, byteLength);
      r := Ok(ByteArrayP(byteArray));
    }

    /** readTagData_intArray (Later): the count and the ints are read, then the undeclared result throws. */
    method ReadIntArray() returns (r: Result<Payload, NbtError>)
      modifies this`pointer
      ensures Stepped(r, IntArrayAt(nbtData, old(pointer)), pointer)
    {
      var arrayLength :- ReadInt(false);
      ghost var start := pointer;
      var intArray: seq<int> := [];
      var i := 0;
      while i < arrayLength
        invariant i == |intArray|
        invariant IntsFrom(nbtData, arrayLength, pointer, intArray) == IntsFrom(nbtData, arrayLength, start, [])
        decreases arrayLength - i
      {
        var x :- ReadInt(false);
        intArray := intArray + [x];
        i := i + 1;
      }
      r := Err(UndeclaredVariable);
    }

    method ReadList(fuel: nat) returns (r: Result<Payload, NbtError>)
      modifies this`pointer
      decreases fuel, 2, 0
      ensures Stepped(r, ListAt(version, nbtData, old(pointer), fuel), pointer)
    {
      var tagId :- ReadByte(false);
      var length :- ReadInt(false);
      ghost var start := pointer;
      var returnArray: seq<Payload> := [];
      var i := 0;
      while i < length
        invariant i == |returnArray|
        invariant ParseItems(version, nbtData, tagId, length, pointer, returnArray, fuel)
               == ParseItems(version, nbtData, tagId, length, start, [], fuel)
        decreases length - i
      {
        var x :- ReadTagData(tagId, fuel);
        returnArray := returnArray + [x];
        i := i + 1;
      }
      r := Ok(ListP(tagId, returnArray));
    }

    method ReadCompound(fuel: nat) returns (r: Result<seq<Entry>, NbtError>)
      modifies this`pointer
      decreases fuel, 2, 0
      ensures Stepped(r, ParseEntries(version, nbtData, old(pointer), [], fuel), pointer)
    {
      var returnData: seq<Entry> := [];
      var steps: nat := fuel;
      var tagId :- ReadByte(false);
      while tagId != TAG_END
        invariant steps <= fuel
        invariant EntriesFrom(version, nbtData, tagId, pointer, returnData, steps)
               == ParseEntries(version, nbtData, old(pointer), [], fuel)
        decreases steps
      {
        if steps == 0 {
          return Err(OutOfFuel);
        }
        ghost var entry, acc := pointer, returnData;
        assert EntriesFrom(version, nbtData, tagId, entry, acc, steps)
            == EntryAt(version, nbtData, tagId, entry, acc, steps - 1);
        var tagName :- ReadString();
        var payload :- ReadTagData(tagId, steps - 1);
        returnData := Put(returnData, tagName, Tag(tagId, payload));
        steps := steps - 1;
        assert EntryAt(version, nbtData, tagId, entry, acc, steps)
            == ParseEntries(version, nbtData, pointer, returnData, steps);
        tagId :- ReadByte(false);
      }
      r := Ok(returnData);
    }

    /** The root reading shared by both versions' decode, from pointer 0. */
    method ReadRoot(fuel: nat) returns (r: Result<seq<Entry>, NbtError>)
      requires pointer == 0
      modifies this`pointer
      ensures r == ParseRoot(version, nbtData, fuel)
    {
      var starterTagId :- ReadByte(false);
      var nameLength :- ReadShort(true);
      if nameLength == 0 {
        pointer := pointer + 2;
        starterTagId :- ReadByte(false);
      }
      if starterTagId != TAG_COMPOUND {
        return Err(BadRootTag(starterTagId));
      }
      var starterTagName :- ReadString();
      var payload :- ReadTagData(starterTagId, fuel);
      r := Ok([Entry(starterTagName, Tag(starterTagId, payload))]);
    }

    /** decodeNonGzipped (Later). */
    method DecodeNonGzipped(binaryNbtData: seq<byte>, fuel: nat) returns (r: Result<seq<Entry>, NbtError>)
      requires version == Later
      modifies this
      ensures nbtData == binaryNbtData
      ensures r == ParseRoot(Later, binaryNbtData, fuel)
    {
      nbtData := binaryNbtData;
      pointer := 0;
      r := ReadRoot(fuel);
    }

    /** decode (Later): gzip input goes through the inflate collaborator first. */
    method Decode(binaryData: seq<byte>, inflate: seq<byte> -> Option<seq<byte>>, fuel: nat)
      returns (r: Result<seq<Entry>, NbtError>)
      requires version == Later
      modifies this
      ensures r == DecodeLater(binaryData, inflate, fuel)
    {
      if CharCode(binaryData, 0) == 0x1F && CharCode(binaryData, 1) == 0x8B {
        var inflated := inflate(binaryData);
        match inflated {
          case None =>
            r := Err(IntegrityError);
          case Some(data) =>
            r := DecodeNonGzipped(data, fuel);
        }
      } else {
        r := DecodeNonGzipped(binaryData, fuel);
      }
    }

    /** decode (Earlier): reads two bytes for the gzip test, then the root from position 0. */
    method DecodeEarlierData(binaryNbtData: seq<byte>, inflate: seq<byte> -> Option<seq<byte>>, fuel: nat)
      returns (r: Result<seq<Entry>, NbtError>)
      requires version == Earlier
      modifies this
      ensures r == DecodeEarlier(binaryNbtData, inflate, fuel)
    {
      nbtData := binaryNbtData;
      pointer := 0;
      var byte1 :- ReadByte(false);
      var byte2 :- ReadByte(false);
      if byte1 == 0x1F && byte2 == 0x8B {
        // readByte is signed, so byte2 never equals 0x8B and the inflate call is never reached
        assert false;
      }
      pointer := 0;
      r := ReadRoot(fuel);
    }
  }
}
