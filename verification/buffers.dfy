/** A model of java.nio.ByteBuffer as the engine uses it: a fixed run of bytes (up to
    the buffer's limit) and a cursor. Relative operations move the cursor and fail when
    too few bytes remain; absolute operations name an index and leave the cursor alone. */
module Buffers {
  import opened Results
  import opened BigEndian

  datatype Buffer = Buffer(data: seq<Byte>, pos: nat) {

    /** ByteBuffer's own invariant: the cursor never passes the limit. */
    predicate Valid() {
      pos <= |data|
    }

    /** Bytes between the cursor and the limit. */
    function Remaining(): nat
      requires Valid()
    {
      |data| - pos
    }
  }

  /** `data` with the bytes from `at` on overwritten by `bs`; the length never changes. */
  function Splice(data: seq<Byte>, at: nat, bs: seq<Byte>): (r: seq<Byte>)
    requires at + |bs| <= |data|
    ensures |r| == |data|
    ensures r[at..at + |bs|] == bs
    ensures forall k :: 0 <= k < |data| && !(at <= k < at + |bs|) ==> r[k] == data[k]
  {
    data[..at] + bs + data[at + |bs|..]
  }

  /** Two adjacent overwrites are one overwrite with the concatenation. */
  lemma SpliceSplice(data: seq<Byte>, at: nat, a: seq<Byte>, c: seq<Byte>)
    requires at + |a| + |c| <= |data|
    ensures Splice(Splice(data, at, a), at + |a|, c) == Splice(data, at, a + c)
  {
    var lhs := Splice(Splice(data, at, a), at + |a|, c);
    var rhs := Splice(data, at, a + c);
    forall k | 0 <= k < |data|
      ensures lhs[k] == rhs[k]
    {
      if at <= k < at + |a| {
        assert lhs[k] == Splice(data, at, a)[k] == a[k - at];
        assert rhs[k] == (a + c)[k - at];
      } else if at + |a| <= k < at + |a| + |c| {
        assert lhs[k] == c[k - at - |a|];
        assert rhs[k] == (a + c)[k - at];
      }
    }
  }

  /** Relative bulk get (ByteBuffer.get(byte[])): `n` bytes from the cursor, which moves past them. */
  function GetBytes(b: Buffer, n: nat): (r: Result<(seq<Byte>, Buffer)>)
    requires b.Valid()
    ensures r.Ok? <==> n <= b.Remaining()
    ensures r.Err? ==> r.error == BufferUnderflow
    ensures r.Ok? ==> r.value.1.Valid() && r.value.1.data == b.data && r.value.1.pos == b.pos + n
    ensures r.Ok? ==> |r.value.0| == n && b.data[b.pos..r.value.1.pos] == r.value.0
  {
    if b.Remaining() < n then Err(BufferUnderflow)
    else Ok((b.data[b.pos..b.pos + n], Buffer(b.data, b.pos + n)))
  }

  /** Relative bulk put (ByteBuffer.put(byte[])): overwrite from the cursor, which moves past the bytes. */
  function PutBytes(b: Buffer, bs: seq<Byte>): (r: Result<Buffer>)
    requires b.Valid()
    ensures r.Ok? <==> |bs| <= b.Remaining()
    ensures r.Err? ==> r.error == BufferOverflow
    ensures r.Ok? ==> r.value.Valid() && r.value.pos == b.pos + |bs| && |r.value.data| == |b.data|
    ensures r.Ok? ==> r.value.data[b.pos..r.value.pos] == bs
    ensures r.Ok? ==> forall k :: 0 <= k < |b.data| && !(b.pos <= k < b.pos + |bs|) ==> r.value.data[k] == b.data[k]
  {
    if b.Remaining() < |bs| then Err(BufferOverflow)
    else Ok(Buffer(Splice(b.data, b.pos, bs), b.pos + |bs|))
  }

  /** Absolute get (ByteBuffer.get{Short,Int,Long}(index)) of `n` bytes; the cursor is not involved. */
  function GetBytesAt(b: Buffer, index: int, n: nat): (r: Result<seq<Byte>>)
    ensures r.Ok? <==> 0 <= index && index + n <= |b.data|
    ensures r.Err? ==> r.error == IndexOutOfBounds
    ensures r.Ok? ==> |r.value| == n && forall k :: 0 <= k < n ==> r.value[k] == b.data[index + k]
  {
    if index < 0 || index > |b.data| - n then Err(IndexOutOfBounds)
    else Ok(b.data[index..index + n])
  }

  /** Absolute put (ByteBuffer.put{Short,Int,Long}(index, x)): overwrite at `index`, cursor unchanged. */
  function PutBytesAt(b: Buffer, index: int, bs: seq<Byte>): (r: Result<Buffer>)
    ensures r.Ok? <==> 0 <= index && index + |bs| <= |b.data|
    ensures r.Err? ==> r.error == IndexOutOfBounds
    ensures r.Ok? ==> r.value.pos == b.pos && |r.value.data| == |b.data|
    ensures r.Ok? ==> r.value.data[index..index + |bs|] == bs
    ensures r.Ok? ==> forall k :: 0 <= k < |b.data| && !(index <= k < index + |bs|) ==> r.value.data[k] == b.data[k]
  {
    if index < 0 || index > |b.data| - |bs| then Err(IndexOutOfBounds)
    else Ok(Buffer(Splice(b.data, index, bs), b.pos))
  }
}
