/** The unsigned 32-bit helpers and the CRC32 delegation of kafka.common.utils.Utils.
    Java has no unsigned int: the value travels as a long and is masked to its low 32 bits. */
module Utils {
  import opened Results
  import opened BigEndian
  import opened Buffers

  /** 2^32, one more than the largest unsigned 32-bit value. */
  const UINT32_LIMIT: nat := 0x1_0000_0000

  /** `x & 0xffffffffL` for a Java long `x`: its low 32 bits as a non-negative value. */
  function MaskLow32(x: int): (m: nat)
    ensures m < UINT32_LIMIT && m < Pow256(4)
    ensures 0 <= x < UINT32_LIMIT ==> m == x
    ensures (x - m) % UINT32_LIMIT == 0
  {
    Pow256Values();
    x % UINT32_LIMIT
  }

  /** `(int) x` for a Java long `x`: its low 32 bits read as a signed int. */
  function IntCast(x: int): (i: int)
    ensures InSignedRange(i, 4)
    ensures TwosComplement(i, 4) == MaskLow32(x)
  {
    ToSigned(MaskLow32(x), 4)
  }

  /** ByteBuffer.getInt(): four bytes at the cursor as a signed int. */
  function GetInt(b: Buffer): Result<(int, Buffer)>
    requires b.Valid()
  {
    var got :- GetBytes(b, 4);
    Ok((DecodeInt(got.0), got.1))
  }

  /** ByteBuffer.getInt(index). */
  function GetIntAt(b: Buffer, index: int): Result<int>
  {
    var bs :- GetBytesAt(b, index, 4);
    Ok(DecodeInt(bs))
  }

  /** ByteBuffer.putInt(x). */
  function PutInt(b: Buffer, x: int): Result<Buffer>
    requires b.Valid() && InSignedRange(x, 4)
  {
    PutBytes(b, EncodeInt(x, 4))
  }

  /** ByteBuffer.putInt(index, x). */
  function PutIntAt(b: Buffer, index: int, x: int): Result<Buffer>
    requires InSignedRange(x, 4)
  {
    PutBytesAt(b, index, EncodeInt(x, 4))
  }

  /** readUnsignedInt(buffer): the four bytes at the cursor as an unsigned big-endian
      value; the cursor moves on by exactly four. */
  function ReadUnsignedInt(b: Buffer): (r: Result<(nat, Buffer)>)
    requires b.Valid()
    ensures r.Ok? <==> b.Remaining() >= 4
    ensures r.Err? ==> r.error == BufferUnderflow
    ensures r.Ok? ==> r.value.0 < UINT32_LIMIT && r.value.0 == FromBigEndian(b.data[b.pos..b.pos + 4])
    ensures r.Ok? ==> r.value.1 == Buffer(b.data, b.pos + 4)
  {
    var got :- GetInt(b);
    Ok((MaskLow32(got.0), got.1))
  }

  /** readUnsignedInt(buffer, index): the four bytes at `index` as an unsigned big-endian
      value. Only a value comes back, so the cursor cannot move. */
  function ReadUnsignedIntAt(b: Buffer, index: int): (r: Result<nat>)
    ensures r.Ok? <==> 0 <= index && index + 4 <= |b.data|
    ensures r.Err? ==> r.error == IndexOutOfBounds
    ensures r.Ok? ==> r.value < UINT32_LIMIT && r.value == FromBigEndian(b.data[index..index + 4])
  {
    var x :- GetIntAt(b, index);
    Ok(MaskLow32(x))
  }

  /** writetUnsignedInt(buffer, value): the low 32 bits of `value` as four big-endian bytes at
      the cursor, which moves on by four; higher bits are dropped without an error. */
  function WriteUnsignedInt(b: Buffer, value: int): (r: Result<Buffer>)
    requires b.Valid()
    ensures r.Ok? <==> b.Remaining() >= 4
    ensures r.Err? ==> r.error == BufferOverflow
    ensures r.Ok? ==> r.value.Valid() && r.value.pos == b.pos + 4 && |r.value.data| == |b.data|
    ensures r.Ok? ==> r.value.data[b.pos..b.pos + 4] == ToBigEndian(value % UINT32_LIMIT, 4)
    ensures r.Ok? ==> forall k :: 0 <= k < |b.data| && !(b.pos <= k < b.pos + 4) ==> r.value.data[k] == b.data[k]
  {
    PutInt(b, IntCast(MaskLow32(value)))
  }

  /** writeUnsignedInt(buffer, index, value): as WriteUnsignedInt but at `index`; only bytes
      index..index+3 change and the cursor stays where it was. */
  function WriteUnsignedIntAt(b: Buffer, index: int, value: int): (r: Result<Buffer>)
    ensures r.Ok? <==> 0 <= index && index + 4 <= |b.data|
    ensures r.Err? ==> r.error == IndexOutOfBounds
    ensures r.Ok? ==> r.value.pos == b.pos && |r.value.data| == |b.data|
    ensures r.Ok? ==> r.value.data[index..index + 4] == ToBigEndian(value % UINT32_LIMIT, 4)
    ensures r.Ok? ==> forall k :: 0 <= k < |b.data| && !(index <= k < index + 4) ==> r.value.data[k] == b.data[k]
  {
    PutIntAt(b, index, IntCast(MaskLow32(value)))
  }

  /** Reading back from where a relative write started yields the value modulo 2^32 (the value
      itself when it fits) and ends at the cursor the write left. */
  lemma ReadAfterWrite(b: Buffer, value: int)
    requires b.Valid() && b.Remaining() >= 4
    ensures WriteUnsignedInt(b, value).Ok?
    ensures var w := WriteUnsignedInt(b, value).value;
      ReadUnsignedInt(Buffer(w.data, b.pos)) == Ok((value % UINT32_LIMIT, w))
    ensures 0 <= value < UINT32_LIMIT ==>
      ReadUnsignedInt(Buffer(WriteUnsignedInt(b, value).value.data, b.pos)).value.0 == value
  {
    Pow256Values();
    var w := WriteUnsignedInt(b, value).value;
    FromToBigEndian(value % UINT32_LIMIT, 4);
    assert w.data[b.pos..b.pos + 4] == ToBigEndian(value % UINT32_LIMIT, 4);
  }

  /** The same round trip for the absolute pair, which never moves the cursor. */
  lemma ReadAfterWriteAt(b: Buffer, index: int, value: int)
    requires 0 <= index && index + 4 <= |b.data|
    ensures WriteUnsignedIntAt(b, index, value).Ok?
    ensures var w := WriteUnsignedIntAt(b, index, value).value;
      w.pos == b.pos && ReadUnsignedIntAt(w, index) == Ok(value % UINT32_LIMIT)
    ensures 0 <= value < UINT32_LIMIT ==>
      ReadUnsignedIntAt(WriteUnsignedIntAt(b, index, value).value, index) == Ok(value)
  {
    Pow256Values();
    FromToBigEndian(value % UINT32_LIMIT, 4);
  }

  /** crc32(bytes, offset, size): the checksum of the segment. The Crc32 class is not part of
      this model, so the checksum of a byte string is the parameter `checksum`. */
  function Crc32Range(bytes: seq<Byte>, offset: nat, size: nat, checksum: seq<Byte> -> nat): nat
    requires offset + size <= |bytes|
  {
    checksum(bytes[offset..offset + size])
  }

  /** crc32(bytes): the whole-array form checksums exactly all of the array. */
  function Crc32(bytes: seq<Byte>, checksum: seq<Byte> -> nat): (c: nat)
    ensures c == checksum(bytes)
  {
    assert bytes[0..|bytes|] == bytes;
    Crc32Range(bytes, 0, |bytes|, checksum)
  }
}
