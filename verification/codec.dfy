/** Reading, writing and sizing values of every wire type. Schema.read, Schema.write and
    Schema.sizeOf are the Struct case: they walk the fields in slot order and hand each value to
    that field's type, so these functions recurse through nested schemas and arrays.

    `Encode` is the reference layout: the bytes a value occupies on the wire. `Write` follows
    the source's buffer-threading traversal and is proved to lay down exactly `Encode`. */
module Codec {
  import opened Results
  import opened BigEndian
  import opened Buffers
  import opened Types

  /** The prefix written for a null STRING, BYTES or array. */
  const ABSENT: int := -1

  // ---------------------------------------------------------------- sizeOf

  /** Type.sizeOf(value): bytes the value takes on the wire. */
  function SizeOf(t: Type, v: Value): nat
    requires Conforms(t, v)
    decreases t, 0
  {
    match t
    case Int8 | Int16 | Int32 | Int64 => Width(t)
    case Str => 2 + (if v.s.Some? then |v.s.value| else 0)
    case Bytes => 4 + (if v.b.Some? then |v.b.value| else 0)
    case ArrayOf(e) => 4 + (if v.elems.Some? then ElementsSize(e, v.elems.value) else 0)
    case Struct(s) => SchemaSizeOf(s, v.r)
  }

  function ElementsSize(e: Type, vs: seq<Value>): nat
    requires forall i :: 0 <= i < |vs| ==> Conforms(e, vs[i])
    decreases e, |vs|
  {
    if |vs| == 0 then 0 else SizeOf(e, vs[0]) + ElementsSize(e, vs[1..])
  }

  /** Schema.sizeOf(record). */
  function SchemaSizeOf(s: Schema, r: Record): nat
    requires RecordConforms(s, r)
    decreases s, |s.fields| + 1
  {
    FieldsSizeFrom(s, r, 0)
  }

  /** The sizeOf loop from slot i on. */
  function FieldsSizeFrom(s: Schema, r: Record, i: nat): nat
    requires RecordConforms(s, r) && i <= |s.fields|
    decreases s, |s.fields| - i
  {
    if i == |s.fields| then 0
    else SizeOf(s.fields[i].tp, GetValue(r, s.fields[i])) + FieldsSizeFrom(s, r, i + 1)
  }

  // ---------------------------------------------------------------- layout

  /** The bytes `v` occupies on the wire as a `t`. */
  function Encode(t: Type, v: Value): (bs: seq<Byte>)
    requires Conforms(t, v)
    ensures |bs| == SizeOf(t, v)
    decreases t, 0
  {
    match t
    case Int8 | Int16 | Int32 | Int64 => EncodeInt(v.n, Width(t))
    case Str => EncodeSized(2, v.s)
    case Bytes => EncodeSized(4, v.b)
    case ArrayOf(e) =>
      if v.elems.None? then EncodeInt(ABSENT, 4)
      else EncodeInt(|v.elems.value|, 4) + EncodeElements(e, v.elems.value)
    case Struct(s) => EncodeFieldsFrom(s, v.r, 0)
  }

  /** A length-prefixed payload (STRING with a 2-byte prefix, BYTES with a 4-byte one), or the
      prefix -1 alone for null. */
  function EncodeSized(width: nat, payload: Option<seq<Byte>>): (bs: seq<Byte>)
    requires width >= 1 && (payload.Some? ==> |payload.value| < Half(width))
    ensures |bs| == width + (if payload.Some? then |payload.value| else 0)
  {
    if payload.None? then EncodeInt(ABSENT, width) else EncodeInt(|payload.value|, width) + payload.value
  }

  function EncodeElements(e: Type, vs: seq<Value>): (bs: seq<Byte>)
    requires forall i :: 0 <= i < |vs| ==> Conforms(e, vs[i])
    ensures |bs| == ElementsSize(e, vs)
    decreases e, |vs|
  {
    if |vs| == 0 then [] else Encode(e, vs[0]) + EncodeElements(e, vs[1..])
  }

  function EncodeFieldsFrom(s: Schema, r: Record, i: nat): (bs: seq<Byte>)
    requires RecordConforms(s, r) && i <= |s.fields|
    ensures |bs| == FieldsSizeFrom(s, r, i)
    decreases s, |s.fields| - i
  {
    if i == |s.fields| then []
    else Encode(s.fields[i].tp, GetValue(r, s.fields[i])) + EncodeFieldsFrom(s, r, i + 1)
  }

  // ---------------------------------------------------------------- write

  /** Type.write(buffer, value). Each leaf puts its prefix and then its payload at the cursor;
      composite types write their parts in order. The whole value fits exactly when its size
      fits, and then the buffer holds its encoding at the old cursor and the cursor has moved
      on by its size. */
  function Write(t: Type, b: Buffer, v: Value): (res: Result<Buffer>)
    requires Conforms(t, v) && b.Valid()
    ensures res.Ok? <==> SizeOf(t, v) <= b.Remaining()
    ensures res.Err? ==> res.error == BufferOverflow
    ensures res.Ok? ==> res.value == Buffer(Splice(b.data, b.pos, Encode(t, v)), b.pos + SizeOf(t, v))
    decreases t, 1
  {
    match t
    case Int8 | Int16 | Int32 | Int64 => PutBytes(b, EncodeInt(v.n, Width(t)))
    case Str => WriteSized(b, 2, v.s)
    case Bytes => WriteSized(b, 4, v.b)
    case ArrayOf(e) => WriteArray(e, b, v.elems)
    case Struct(s) => SchemaWrite(s, b, v.r)
  }

  /** STRING and BYTES write: the length prefix (-1 for null), then the payload. */
  function WriteSized(b: Buffer, width: nat, payload: Option<seq<Byte>>): (res: Result<Buffer>)
    requires b.Valid() && width >= 1 && (payload.Some? ==> |payload.value| < Half(width))
    ensures res.Ok? <==> |EncodeSized(width, payload)| <= b.Remaining()
    ensures res.Err? ==> res.error == BufferOverflow
    ensures res.Ok? ==> res.value == Buffer(Splice(b.data, b.pos, EncodeSized(width, payload)), b.pos + |EncodeSized(width, payload)|)
  {
    if payload.None? then PutBytes(b, EncodeInt(ABSENT, width))
    else
      var prefix := EncodeInt(|payload.value|, width);
      var b1 :- PutBytes(b, prefix);
      var res := PutBytes(b1, payload.value);
      if res.Ok? then
        SpliceSplice(b.data, b.pos, prefix, payload.value);
        res
      else res
  }

  /** ArrayOf.write: the element count (-1 for null), then each element in order. */
  function WriteArray(e: Type, b: Buffer, elems: Option<seq<Value>>): (res: Result<Buffer>)
    requires b.Valid() && Conforms(ArrayOf(e), ArrayV(elems))
    ensures res.Ok? <==> SizeOf(ArrayOf(e), ArrayV(elems)) <= b.Remaining()
    ensures res.Err? ==> res.error == BufferOverflow
    ensures res.Ok? ==> res.value == Buffer(Splice(b.data, b.pos, Encode(ArrayOf(e), ArrayV(elems))),
                                            b.pos + SizeOf(ArrayOf(e), ArrayV(elems)))
    decreases ArrayOf(e), 0
  {
    if elems.None? then PutBytes(b, EncodeInt(ABSENT, 4))
    else
      var vs := elems.value;
      var prefix := EncodeInt(|vs|, 4);
      var b1 :- PutBytes(b, prefix);
      var res := WriteElements(e, b1, vs);
      if res.Ok? then
        SpliceSplice(b.data, b.pos, prefix, EncodeElements(e, vs));
        res
      else res
  }

  /** ArrayOf's element loop. */
  function WriteElements(e: Type, b: Buffer, vs: seq<Value>): (res: Result<Buffer>)
    requires forall i :: 0 <= i < |vs| ==> Conforms(e, vs[i])
    requires b.Valid()
    ensures res.Ok? <==> ElementsSize(e, vs) <= b.Remaining()
    ensures res.Err? ==> res.error == BufferOverflow
    ensures res.Ok? ==> res.value == Buffer(Splice(b.data, b.pos, EncodeElements(e, vs)), b.pos + ElementsSize(e, vs))
    decreases e, |vs| + 1
  {
    if |vs| == 0 then
      assert Splice(b.data, b.pos, []) == b.data;
      Ok(b)
    else
      var b1 :- Write(e, b, vs[0]);
      var res := WriteElements(e, b1, vs[1..]);
      if res.Ok? then
        SpliceSplice(b.data, b.pos, Encode(e, vs[0]), EncodeElements(e, vs[1..]));
        res
      else res
  }

  /** Schema.write(buffer, record). */
  function SchemaWrite(s: Schema, b: Buffer, r: Record): (res: Result<Buffer>)
    requires RecordConforms(s, r) && b.Valid()
    ensures res.Ok? <==> SchemaSizeOf(s, r) <= b.Remaining()
    ensures res.Err? ==> res.error == BufferOverflow
    ensures res.Ok? ==> res.value == Buffer(Splice(b.data, b.pos, EncodeFieldsFrom(s, r, 0)), b.pos + SchemaSizeOf(s, r))
    decreases s, |s.fields| + 1
  {
    WriteFieldsFrom(s, b, r, 0)
  }

  /** The write loop from slot i on: the value for each field is looked up in the record by
      the field and handed to the field's type. */
  function WriteFieldsFrom(s: Schema, b: Buffer, r: Record, i: nat): (res: Result<Buffer>)
    requires RecordConforms(s, r) && i <= |s.fields| && b.Valid()
    ensures res.Ok? <==> FieldsSizeFrom(s, r, i) <= b.Remaining()
    ensures res.Err? ==> res.error == BufferOverflow
    ensures res.Ok? ==> res.value == Buffer(Splice(b.data, b.pos, EncodeFieldsFrom(s, r, i)), b.pos + FieldsSizeFrom(s, r, i))
    decreases s, |s.fields| - i
  {
    if i == |s.fields| then
      assert Splice(b.data, b.pos, []) == b.data;
      Ok(b)
    else
      var f := s.fields[i];
      var b1 :- Write(f.tp, b, GetValue(r, f));
      var res := WriteFieldsFrom(s, b1, r, i + 1);
      if res.Ok? then
        SpliceSplice(b.data, b.pos, Encode(f.tp, GetValue(r, f)), EncodeFieldsFrom(s, r, i + 1));
        res
      else res
  }

  // ---------------------------------------------------------------- read

  /** The failures a read can report: the bytes ran out, or a length or count prefix was
      negative without being the null marker. */
  predicate ReadFailure(e: Error) {
    e == BufferUnderflow || (e.NegativeSize? && e.size < ABSENT)
  }

  /** A signed length or count prefix of `width` bytes at the cursor. */
  function GetPrefix(b: Buffer, width: nat): (res: Result<(int, Buffer)>)
    requires b.Valid() && width >= 1
    ensures res.Err? ==> res.error == BufferUnderflow
    ensures res.Ok? <==> width <= b.Remaining()
    ensures res.Ok? ==> res.value.1 == Buffer(b.data, b.pos + width)
    ensures res.Ok? ==> InSignedRange(res.value.0, width)
  {
    var got :- GetBytes(b, width);
    Ok((DecodeInt(got.0), got.1))
  }

  /** Type.read(buffer). A prefix of -1 reads as null; any other negative prefix is an error. */
  function Read(t: Type, b: Buffer): (res: Result<(Value, Buffer)>)
    requires b.Valid()
    ensures res.Err? ==> ReadFailure(res.error)
    ensures res.Ok? ==> res.value.1.Valid() && res.value.1.data == b.data && b.pos <= res.value.1.pos
    decreases t, 1
  {
    match t
    case Int8 | Int16 | Int32 | Int64 =>
      var got :- GetBytes(b, Width(t));
      Ok((IntV(DecodeInt(got.0)), got.1))
    case Str =>
      var got :- ReadSized(b, 2);
      Ok((StrV(got.0), got.1))
    case Bytes =>
      var got :- ReadSized(b, 4);
      Ok((BytesV(got.0), got.1))
    case ArrayOf(e) => ReadArray(e, b)
    case Struct(s) => SchemaRead(s, b)
  }

  /** STRING and BYTES read: the length prefix, then that many bytes; -1 is null. */
  function ReadSized(b: Buffer, width: nat): (res: Result<(Option<seq<Byte>>, Buffer)>)
    requires b.Valid() && width >= 1
    ensures res.Err? ==> ReadFailure(res.error)
    ensures res.Ok? ==> res.value.1.Valid() && res.value.1.data == b.data && b.pos <= res.value.1.pos
  {
    var len :- GetPrefix(b, width);
    if len.0 == ABSENT then Ok((None, len.1))
    else if len.0 < 0 then Err(NegativeSize(len.0))
    else
      var body :- GetBytes(len.1, len.0);
      Ok((Some(body.0), body.1))
  }

  /** ArrayOf.read: the element count, then that many elements; -1 is null. */
  function ReadArray(e: Type, b: Buffer): (res: Result<(Value, Buffer)>)
    requires b.Valid()
    ensures res.Err? ==> ReadFailure(res.error)
    ensures res.Ok? ==> res.value.0.ArrayV?
    ensures res.Ok? ==> res.value.1.Valid() && res.value.1.data == b.data && b.pos <= res.value.1.pos
    decreases ArrayOf(e), 0
  {
    var count :- GetPrefix(b, 4);
    if count.0 == ABSENT then Ok((ArrayV(None), count.1))
    else if count.0 < 0 then Err(NegativeSize(count.0))
    else
      var elems :- ReadElements(e, count.1, count.0);
      Ok((ArrayV(Some(elems.0)), elems.1))
  }

  /** ArrayOf's element loop: `n` elements, one after another. */
  function ReadElements(e: Type, b: Buffer, n: nat): (res: Result<(seq<Value>, Buffer)>)
    requires b.Valid()
    ensures res.Err? ==> ReadFailure(res.error)
    ensures res.Ok? ==> |res.value.0| == n
    ensures res.Ok? ==> res.value.1.Valid() && res.value.1.data == b.data && b.pos <= res.value.1.pos
    decreases e, n + 1
  {
    if n == 0 then Ok(([], b))
    else
      var first :- Read(e, b);
      var rest :- ReadElements(e, first.1, n - 1);
      Ok(([first.0] + rest.0, rest.1))
  }

  /** Schema.read(buffer): one value per slot, read by that slot's type, in a record bound to
      this schema. */
  function SchemaRead(s: Schema, b: Buffer): (res: Result<(Value, Buffer)>)
    requires b.Valid()
    ensures res.Err? ==> ReadFailure(res.error)
    ensures res.Ok? ==> res.value.0.RecordV? && res.value.0.r.schema == s
    ensures res.Ok? ==> |res.value.0.r.values| == |s.fields|
    ensures res.Ok? ==> res.value.1.Valid() && res.value.1.data == b.data && b.pos <= res.value.1.pos
    decreases s, |s.fields| + 1
  {
    var got :- ReadFieldsFrom(s, b, 0);
    Ok((RecordV(Record(s, got.0)), got.1))
  }

  /** The read loop from slot i on. */
  function ReadFieldsFrom(s: Schema, b: Buffer, i: nat): (res: Result<(seq<Value>, Buffer)>)
    requires b.Valid() && i <= |s.fields|
    ensures res.Err? ==> ReadFailure(res.error)
    ensures res.Ok? ==> |res.value.0| == |s.fields| - i
    ensures res.Ok? ==> res.value.1.Valid() && res.value.1.data == b.data && b.pos <= res.value.1.pos
    decreases s, |s.fields| - i
  {
    if i == |s.fields| then Ok(([], b))
    else
      var first :- Read(s.fields[i].tp, b);
      var rest :- ReadFieldsFrom(s, first.1, i + 1);
      Ok(([first.0] + rest.0, rest.1))
  }
}
