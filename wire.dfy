/**
 * Bytes on the wire: the big-endian two's-complement fields of one, two and
 * four bytes that the codec's scalar converters write and read, and the
 * substring primitive the cursor uses to cut bytes out of the input.
 */
module Wire {

  /** One octet of NBT data. */
  type byte = x: int | 0 <= x < 256

  /** 256 to the power n. */
  function Scale(n: nat): (r: int)
  {
    if n == 0 then 1 else 0x100 * Scale(n - 1)
  }

  /** The number a big-endian unsigned field denotes: each octet is one base-256 digit, the first the highest. */
  function Unsigned(bs: seq<byte>): int
  {
    if bs == [] then 0 else Unsigned(bs[..|bs| - 1]) * 0x100 + bs[|bs| - 1]
  }

  /**
   * Two's-complement reading of a big-endian field (the signed converters
   * toByte, toShort, toInt): the first octet is a signed digit, every later
   * one an unsigned base-256 digit.
   */
  function Signed(bs: seq<byte>): int
  {
    if bs == [] then 0
    else if |bs| == 1 then (if bs[0] >= 0x80 then bs[0] - 0x100 else bs[0])
    else Signed(bs[..|bs| - 1]) * 0x100 + bs[|bs| - 1]
  }

  /** An unsigned field of n bytes denotes a number below 256 to the power n. */
  lemma {:induction false} UnsignedRange(bs: seq<byte>)
    ensures 0 <= Unsigned(bs) < Scale(|bs|)
  {
    if bs != [] {
      UnsignedRange(bs[..|bs| - 1]);
    }
  }

  /**
   * The signed reading is the unsigned one, less 256 to the power n when the
   * high bit is set: the value lies in the two's-complement range of 8n bits.
   */
  lemma {:induction false} SignedTwosComplement(bs: seq<byte>)
    requires bs != []
    ensures Signed(bs) == if 2 * Unsigned(bs) >= Scale(|bs|) then Unsigned(bs) - Scale(|bs|) else Unsigned(bs)
    ensures -Scale(|bs|) <= 2 * Signed(bs) < Scale(|bs|)
  {
    UnsignedRange(bs);
    if |bs| == 1 {
      assert bs[..0] == [];
    } else {
      SignedTwosComplement(bs[..|bs| - 1]);
      UnsignedRange(bs[..|bs| - 1]);
    }
  }

  /** The low octet of n; negative n wraps to two's complement. */
  function Octet(n: int): byte {
    n % 256
  }

  /** writeByte: String.fromCharCode(n), of which a byte consumer keeps the low octet. */
  function WriteByte(n: int): seq<byte> {
    [Octet(n)]
  }

  /** writeShort: a 16-bit big-endian field, high octet first. */
  function WriteShort(n: int): seq<byte> {
    [Octet(n / 0x100), Octet(n)]
  }

  /** writeInt: a 32-bit big-endian field, high octet first. */
  function WriteInt(n: int): seq<byte> {
    [Octet(n / 0x100 / 0x100 / 0x100), Octet(n / 0x100 / 0x100), Octet(n / 0x100), Octet(n)]
  }

  /** writeString: a 16-bit length, then the bytes of the string. */
  function WriteString(s: seq<byte>): seq<byte> {
    WriteShort(|s|) + s
  }

  /** Reading one more low octet: the number read so far, shifted by one digit, plus that octet. */
  lemma SignedSnoc(bs: seq<byte>, b: byte)
    requires bs != []
    ensures Signed(bs + [b]) == Signed(bs) * 0x100 + b
  {
    assert (bs + [b])[..|bs|] == bs;
  }

  /** A written byte reads back as its value, for every value a signed byte holds. */
  lemma ByteBack(n: int)
    requires -0x80 <= n < 0x80
    ensures Signed(WriteByte(n)) == n
  {
  }

  /** A written short reads back as its value, for every value a signed short holds. */
  lemma ShortBack(n: int)
    requires -0x8000 <= n < 0x8000
    ensures Signed(WriteShort(n)) == n
  {
    var n1 := n / 0x100;
    SignedSnoc([Octet(n1)], Octet(n));
    assert [Octet(n1)] + [Octet(n)] == WriteShort(n);
  }

  /** A written int reads back as its value, for every value a signed int holds. */
  lemma IntBack(n: int)
    requires -0x8000_0000 <= n < 0x8000_0000
    ensures Signed(WriteInt(n)) == n
  {
    var n1 := n / 0x100;
    var n2 := n1 / 0x100;
    var n3 := n2 / 0x100;
    var b1 := [Octet(n3)];
    var b2 := b1 + [Octet(n2)];
    var b3 := b2 + [Octet(n1)];
    assert Signed(b1) == n3;
    SignedSnoc(b1, Octet(n2));
    assert Signed(b2) == n2;
    SignedSnoc(b2, Octet(n1));
    assert Signed(b3) == n1;
    SignedSnoc(b3, Octet(n));
    assert b3 + [Octet(n)] == WriteInt(n);
  }

  /**
   * String.prototype.substr(start, n) on the input: a negative start counts
   * from the end (clamped at 0), and the result stops at the end of the input.
   */
  function Substr(d: seq<byte>, start: int, n: int): (r: seq<byte>)
    ensures 0 <= start && n >= 0 && start + n <= |d| ==> r == d[start..start + n]
    ensures |r| <= if n < 0 then 0 else n
  {
    var s := if start >= 0 then start else if |d| + start >= 0 then |d| + start else 0;
    if s >= |d| || n <= 0 then []
    else d[s..if s + n <= |d| then s + n else |d|]
  }
}
