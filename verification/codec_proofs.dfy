/** What the engine promises about every type, nested schemas and arrays included:
    reading back what was written returns the value and ends where the write ended, and what
    a read accepts is exactly the encoding of what it returns. */
module CodecProofs {
  import opened Results
  import opened BigEndian
  import opened Buffers
  import opened Types
  import opened Codec

  /** A run of bytes that spells `a + c` spells `a` and then `c`. */
  lemma SliceSplit(data: seq<Byte>, pos: nat, a: seq<Byte>, c: seq<Byte>)
    requires pos + |a| + |c| <= |data| && data[pos..pos + |a| + |c|] == a + c
    ensures data[pos..pos + |a|] == a
    ensures data[pos + |a|..pos + |a| + |c|] == c
  {
    assert data[pos..pos + |a|] == data[pos..pos + |a| + |c|][..|a|];
    assert data[pos + |a|..pos + |a| + |c|] == data[pos..pos + |a| + |c|][|a|..];
  }

  /** Two adjacent runs of bytes form one run. */
  lemma SliceJoin(data: seq<Byte>, p: nat, q: nat, r: nat)
    requires p <= q <= r <= |data|
    ensures data[p..r] == data[p..q] + data[q..r]
  {
  }

  /** The prefix a read decodes is the one whose encoding sits at the cursor. */
  lemma GetPrefixEncodes(b: Buffer, width: nat)
    requires b.Valid() && width >= 1 && GetPrefix(b, width).Ok?
    ensures EncodeInt(GetPrefix(b, width).value.0, width) == b.data[b.pos..b.pos + width]
  {
    EncodeDecodeInt(b.data[b.pos..b.pos + width]);
  }

  lemma PrefixValues()
    ensures Half(2) == MAX_SHORT + 1 && Half(4) == MAX_INT + 1
  {
    Pow256Values();
  }

  // ---------------------------------------------------------------- one step of each loop

  /** The elements' encoding and size: the first element's, then the rest's. */
  lemma ElementsCons(e: Type, vs: seq<Value>)
    requires |vs| > 0 && forall i :: 0 <= i < |vs| ==> Conforms(e, vs[i])
    ensures Conforms(e, vs[0])
    ensures EncodeElements(e, vs) == Encode(e, vs[0]) + EncodeElements(e, vs[1..])
    ensures ElementsSize(e, vs) == SizeOf(e, vs[0]) + ElementsSize(e, vs[1..])
  {
    hide Encode, SizeOf, Conforms;
  }

  /** The slots' encoding and size from slot `i`: slot `i`'s, then the later slots'. */
  lemma FieldsCons(s: Schema, r: Record, i: nat)
    requires RecordConforms(s, r) && i < |s.fields|
    ensures |r.values| == |s.fields|
    ensures Conforms(s.fields[i].tp, r.values[i])
    ensures EncodeFieldsFrom(s, r, i) == Encode(s.fields[i].tp, r.values[i]) + EncodeFieldsFrom(s, r, i + 1)
    ensures FieldsSizeFrom(s, r, i) == SizeOf(s.fields[i].tp, r.values[i]) + FieldsSizeFrom(s, r, i + 1)
  {
    hide Encode, SizeOf, Conforms;
  }

  /** No elements: nothing to encode, nothing to read. */
  lemma ElementsNil(e: Type, b: Buffer)
    requires b.Valid()
    ensures EncodeElements(e, []) == [] && ElementsSize(e, []) == 0
    ensures ReadElements(e, b, 0) == Ok(([], b))
  {
  }

  /** No slots left: nothing to encode, nothing to read. */
  lemma FieldsNil(s: Schema, r: Record)
    requires RecordConforms(s, r)
    ensures |r.values| == |s.fields|
    ensures EncodeFieldsFrom(s, r, |s.fields|) == [] && FieldsSizeFrom(s, r, |s.fields|) == 0
  {
  }

  lemma ReadFieldsEnd(s: Schema, b: Buffer)
    requires b.Valid()
    ensures ReadFieldsFrom(s, b, |s.fields|) == Ok(([], b))
  {
  }

  /** Reading `n` elements succeeds when the first and then the other `n - 1` read. */
  lemma ReadElementsStep(e: Type, b: Buffer, n: nat, v: Value, b1: Buffer, rest: seq<Value>, b2: Buffer)
    requires b.Valid() && n >= 1
    requires Read(e, b) == Ok((v, b1)) && b1.Valid()
    requires ReadElements(e, b1, n - 1) == Ok((rest, b2))
    ensures ReadElements(e, b, n) == Ok(([v] + rest, b2))
  {
    hide Read;
  }

  /** Reading slots from `i` succeeds when slot `i` and then the later slots read. */
  lemma ReadFieldsStep(s: Schema, b: Buffer, i: nat, v: Value, b1: Buffer, rest: seq<Value>, b2: Buffer)
    requires b.Valid() && i < |s.fields|
    requires Read(s.fields[i].tp, b) == Ok((v, b1)) && b1.Valid()
    requires ReadFieldsFrom(s, b1, i + 1) == Ok((rest, b2))
    ensures ReadFieldsFrom(s, b, i) == Ok(([v] + rest, b2))
  {
    hide Read;
  }

  // ---------------------------------------------------------------- read after write

  /** Reading a value's encoding returns the value and moves the cursor by its size. */
  lemma {:induction false} ReadWritten(t: Type, v: Value, b: Buffer)
    requires Conforms(t, v) && b.Valid() && SizeOf(t, v) <= b.Remaining()
    requires b.data[b.pos..b.pos + SizeOf(t, v)] == Encode(t, v)
    ensures Read(t, b) == Ok((v, Buffer(b.data, b.pos + SizeOf(t, v))))
    decreases t, 1
  {
    hide Read, Encode, SizeOf, Conforms;
    match t
    case Int8 | Int16 | Int32 | Int64 => ReadIntWritten(t, v, b);
    case Str => ReadStrWritten(t, v, b);
    case Bytes => ReadBytesWritten(t, v, b);
    case ArrayOf(_) => ReadArrayWritten(t, v, b);
    case Struct(_) => ReadStructWritten(t, v, b);
  }

  lemma ReadIntWritten(t: Type, v: Value, b: Buffer)
    requires IsInt(t) && Conforms(t, v) && b.Valid() && SizeOf(t, v) <= b.Remaining()
    requires b.data[b.pos..b.pos + SizeOf(t, v)] == Encode(t, v)
    ensures Read(t, b) == Ok((v, Buffer(b.data, b.pos + SizeOf(t, v))))
  {
    var w := Width(t);
    assert SizeOf(t, v) == w;
    var got := GetBytes(b, w).value;
    assert got.0 == EncodeInt(v.n, w);
    DecodeEncodeInt(v.n, w);
  }

  lemma ReadStrWritten(t: Type, v: Value, b: Buffer)
    requires t == Str && Conforms(t, v) && b.Valid() && SizeOf(t, v) <= b.Remaining()
    requires b.data[b.pos..b.pos + SizeOf(t, v)] == Encode(t, v)
    ensures Read(t, b) == Ok((v, Buffer(b.data, b.pos + SizeOf(t, v))))
  {
    hide ReadSized, EncodeSized, EncodeInt, DecodeInt, ReadArray, SchemaRead, ElementsSize, SchemaSizeOf,
      EncodeElements, EncodeFieldsFrom, RecordConforms, Half;
    PrefixValues();
    assert |EncodeSized(2, v.s)| == SizeOf(t, v);
    ReadSizedWritten(b, 2, v.s);
  }

  lemma ReadBytesWritten(t: Type, v: Value, b: Buffer)
    requires t == Bytes && Conforms(t, v) && b.Valid() && SizeOf(t, v) <= b.Remaining()
    requires b.data[b.pos..b.pos + SizeOf(t, v)] == Encode(t, v)
    ensures Read(t, b) == Ok((v, Buffer(b.data, b.pos + SizeOf(t, v))))
  {
    hide ReadSized, EncodeSized, EncodeInt, DecodeInt, ReadArray, SchemaRead, ElementsSize, SchemaSizeOf,
      EncodeElements, EncodeFieldsFrom, RecordConforms, Half;
    PrefixValues();
    assert |EncodeSized(4, v.b)| == SizeOf(t, v);
    ReadSizedWritten(b, 4, v.b);
  }

  lemma ReadSizedWritten(b: Buffer, width: nat, payload: Option<seq<Byte>>)
    requires width >= 1 && (payload.Some? ==> |payload.value| < Half(width))
    requires b.Valid() && |EncodeSized(width, payload)| <= b.Remaining()
    requires b.data[b.pos..b.pos + |EncodeSized(width, payload)|] == EncodeSized(width, payload)
    ensures ReadSized(b, width) == Ok((payload, Buffer(b.data, b.pos + |EncodeSized(width, payload)|)))
  {
    if payload.None? {
      DecodeEncodeInt(ABSENT, width);
    } else {
      SliceSplit(b.data, b.pos, EncodeInt(|payload.value|, width), payload.value);
      DecodeEncodeInt(|payload.value|, width);
    }
  }

  lemma {:induction false} ReadArrayWritten(t: Type, v: Value, b: Buffer)
    requires t.ArrayOf? && Conforms(t, v) && b.Valid() && SizeOf(t, v) <= b.Remaining()
    requires b.data[b.pos..b.pos + SizeOf(t, v)] == Encode(t, v)
    ensures Read(t, b) == Ok((v, Buffer(b.data, b.pos + SizeOf(t, v))))
    decreases t, 0
  {
    hide ReadElements, EncodeElements, ElementsSize, EncodeInt, DecodeInt, ReadSized, SchemaRead, EncodeSized,
      SchemaSizeOf, EncodeFieldsFrom, RecordConforms, Half, GetBytes;
    PrefixValues();
    if v.elems.None? {
      DecodeEncodeInt(ABSENT, 4);
    } else {
      var vs := v.elems.value;
      SliceSplit(b.data, b.pos, EncodeInt(|vs|, 4), EncodeElements(t.elem, vs));
      DecodeEncodeInt(|vs|, 4);
      ReadElementsWritten(t.elem, vs, Buffer(b.data, b.pos + 4));
    }
  }

  lemma {:induction false} ReadElementsWritten(e: Type, vs: seq<Value>, b: Buffer)
    requires forall i :: 0 <= i < |vs| ==> Conforms(e, vs[i])
    requires b.Valid() && ElementsSize(e, vs) <= b.Remaining()
    requires b.data[b.pos..b.pos + ElementsSize(e, vs)] == EncodeElements(e, vs)
    ensures ReadElements(e, b, |vs|) == Ok((vs, Buffer(b.data, b.pos + ElementsSize(e, vs))))
    decreases e, |vs| + 1
  {
    hide Read, ReadElements, Encode, EncodeElements, SizeOf, ElementsSize, Conforms;
    if |vs| == 0 {
      ElementsNil(e, b);
    } else {
      ElementsCons(e, vs);
      var b1 := Buffer(b.data, b.pos + SizeOf(e, vs[0]));
      SliceSplit(b.data, b.pos, Encode(e, vs[0]), EncodeElements(e, vs[1..]));
      ReadWritten(e, vs[0], b);
      ReadElementsWritten(e, vs[1..], b1);
      ReadElementsStep(e, b, |vs|, vs[0], b1, vs[1..], Buffer(b.data, b1.pos + ElementsSize(e, vs[1..])));
      assert [vs[0]] + vs[1..] == vs;
    }
  }

  lemma {:induction false} ReadStructWritten(t: Type, v: Value, b: Buffer)
    requires t.Struct? && Conforms(t, v) && b.Valid() && SizeOf(t, v) <= b.Remaining()
    requires b.data[b.pos..b.pos + SizeOf(t, v)] == Encode(t, v)
    ensures Read(t, b) == Ok((v, Buffer(b.data, b.pos + SizeOf(t, v))))
    decreases t, 0
  {
    hide ReadFieldsFrom, EncodeFieldsFrom, FieldsSizeFrom, ReadArray, ReadSized, ElementsSize,
      EncodeElements, EncodeSized, EncodeInt, GetBytes, DecodeInt;
    var s := t.schema;
    ReadFieldsWritten(s, v.r, b, 0);
    assert v.r.values[0..] == v.r.values;
  }

  lemma {:induction false} ReadFieldsWritten(s: Schema, r: Record, b: Buffer, i: nat)
    requires RecordConforms(s, r) && i <= |s.fields|
    requires b.Valid() && FieldsSizeFrom(s, r, i) <= b.Remaining()
    requires b.data[b.pos..b.pos + FieldsSizeFrom(s, r, i)] == EncodeFieldsFrom(s, r, i)
    ensures ReadFieldsFrom(s, b, i) == Ok((r.values[i..], Buffer(b.data, b.pos + FieldsSizeFrom(s, r, i))))
    decreases s, |s.fields| - i
  {
    hide Read, ReadFieldsFrom, Encode, EncodeFieldsFrom, SizeOf, FieldsSizeFrom, Conforms, RecordConforms;
    if i == |s.fields| {
      FieldsNil(s, r);
      ReadFieldsEnd(s, b);
      assert r.values[i..] == [];
    } else {
      FieldsCons(s, r, i);
      var t := s.fields[i].tp;
      var v := r.values[i];
      var b1 := Buffer(b.data, b.pos + SizeOf(t, v));
      SliceSplit(b.data, b.pos, Encode(t, v), EncodeFieldsFrom(s, r, i + 1));
      ReadWritten(t, v, b);
      ReadFieldsWritten(s, r, b1, i + 1);
      ReadFieldsStep(s, b, i, v, b1, r.values[i + 1..], Buffer(b.data, b1.pos + FieldsSizeFrom(s, r, i + 1)));
      assert [r.values[i]] + r.values[i + 1..] == r.values[i..];
    }
  }

  /** Round trip through a buffer: write a value, move the cursor back to where the write
      started, and the read returns the same value and stops where the write stopped. */
  lemma WriteThenRead(t: Type, v: Value, b: Buffer)
    requires Conforms(t, v) && b.Valid() && SizeOf(t, v) <= b.Remaining()
    ensures Write(t, b, v).Ok?
    ensures Read(t, Buffer(Write(t, b, v).value.data, b.pos)) == Ok((v, Write(t, b, v).value))
  {
    hide Write, Read, Encode, SizeOf, Conforms;
    var w := Write(t, b, v).value;
    var size := SizeOf(t, v);
    assert w.data == Splice(b.data, b.pos, Encode(t, v));
    assert w.data[b.pos..b.pos + size] == Encode(t, v);
    ReadWritten(t, v, Buffer(w.data, b.pos));
  }

  /** The round trip for Schema.write followed by Schema.read: the record read back has the
      written record's values, and the cursor ends where the write ended. */
  lemma SchemaWriteThenRead(s: Schema, r: Record, b: Buffer)
    requires RecordConforms(s, r) && b.Valid() && SchemaSizeOf(s, r) <= b.Remaining()
    ensures SchemaWrite(s, b, r).Ok?
    ensures var w := SchemaWrite(s, b, r).value;
      SchemaRead(s, Buffer(w.data, b.pos)) == Ok((RecordV(r), w))
  {
    WriteThenRead(Struct(s), RecordV(r), b);
  }

  // ---------------------------------------------------------------- what a read accepts

  /** The concatenation of each slot's encoding, in slot order. */
  function EncodeSlots(fs: seq<Field>, vs: seq<Value>): seq<Byte>
    requires |fs| == |vs| && forall k :: 0 <= k < |fs| ==> Conforms(fs[k].tp, vs[k])
  {
    if |fs| == 0 then [] else Encode(fs[0].tp, vs[0]) + EncodeSlots(fs[1..], vs[1..])
  }

  /** The sum of each slot's size, in slot order. */
  function SumSizes(fs: seq<Field>, vs: seq<Value>): nat
    requires |fs| == |vs| && forall k :: 0 <= k < |fs| ==> Conforms(fs[k].tp, vs[k])
  {
    if |fs| == 0 then 0 else SizeOf(fs[0].tp, vs[0]) + SumSizes(fs[1..], vs[1..])
  }

  /** The first of `n >= 1` elements read, and the other `n - 1` read after it. */
  lemma ReadElementsUncons(e: Type, b: Buffer, n: nat)
    requires b.Valid() && n >= 1 && ReadElements(e, b, n).Ok?
    ensures Read(e, b).Ok?
    ensures var b1 := Read(e, b).value.1;
      && ReadElements(e, b1, n - 1).Ok?
      && ReadElements(e, b, n).value
         == ([Read(e, b).value.0] + ReadElements(e, b1, n - 1).value.0, ReadElements(e, b1, n - 1).value.1)
  {
    hide Read;
  }

  /** Slot `i` read, and the later slots read after it. */
  lemma ReadFieldsUncons(s: Schema, b: Buffer, i: nat)
    requires b.Valid() && i < |s.fields| && ReadFieldsFrom(s, b, i).Ok?
    ensures Read(s.fields[i].tp, b).Ok?
    ensures var b1 := Read(s.fields[i].tp, b).value.1;
      && ReadFieldsFrom(s, b1, i + 1).Ok?
      && ReadFieldsFrom(s, b, i).value
         == ([Read(s.fields[i].tp, b).value.0] + ReadFieldsFrom(s, b1, i + 1).value.0, ReadFieldsFrom(s, b1, i + 1).value.1)
  {
    hide Read;
  }

  /** Whatever a read returns conforms to the type, is exactly what sits between the old and
      the new cursor when encoded, and the cursor moved by its size. */
  lemma {:induction false} ReadIsEncoding(t: Type, b: Buffer)
    requires ValidType(t) && b.Valid() && Read(t, b).Ok?
    ensures var (v, b') := Read(t, b).value;
      && Conforms(t, v)
      && b'.pos == b.pos + SizeOf(t, v)
      && b.data[b.pos..b'.pos] == Encode(t, v)
    decreases t, 1
  {
    hide Read, Encode, SizeOf, Conforms, ValidType;
    match t
    case Int8 | Int16 | Int32 | Int64 => ReadIntIsEncoding(t, b);
    case Str => ReadStrIsEncoding(t, b);
    case Bytes => ReadBytesIsEncoding(t, b);
    case ArrayOf(_) => ReadArrayIsEncoding(t, b);
    case Struct(_) => ReadStructIsEncoding(t, b);
  }

  lemma ReadIntIsEncoding(t: Type, b: Buffer)
    requires IsInt(t) && b.Valid() && Read(t, b).Ok?
    ensures var (v, b') := Read(t, b).value;
      && Conforms(t, v)
      && b'.pos == b.pos + SizeOf(t, v)
      && b.data[b.pos..b'.pos] == Encode(t, v)
  {
    hide EncodeInt, DecodeInt, ReadSized, ReadArray, SchemaRead, EncodeSized, EncodeElements, EncodeFieldsFrom,
      ElementsSize, SchemaSizeOf, RecordConforms;
    EncodeDecodeInt(b.data[b.pos..b.pos + Width(t)]);
  }

  lemma ReadStrIsEncoding(t: Type, b: Buffer)
    requires t == Str && b.Valid() && Read(t, b).Ok?
    ensures var (v, b') := Read(t, b).value;
      && Conforms(t, v)
      && b'.pos == b.pos + SizeOf(t, v)
      && b.data[b.pos..b'.pos] == Encode(t, v)
  {
    hide ReadSized, EncodeSized, EncodeInt, DecodeInt, ReadArray, SchemaRead, ElementsSize, SchemaSizeOf,
      EncodeElements, EncodeFieldsFrom, RecordConforms, Half;
    PrefixValues();
    ReadSizedIsEncoding(b, 2);
  }

  lemma ReadBytesIsEncoding(t: Type, b: Buffer)
    requires t == Bytes && b.Valid() && Read(t, b).Ok?
    ensures var (v, b') := Read(t, b).value;
      && Conforms(t, v)
      && b'.pos == b.pos + SizeOf(t, v)
      && b.data[b.pos..b'.pos] == Encode(t, v)
  {
    hide ReadSized, EncodeSized, EncodeInt, DecodeInt, ReadArray, SchemaRead, ElementsSize, SchemaSizeOf,
      EncodeElements, EncodeFieldsFrom, RecordConforms, Half;
    PrefixValues();
    ReadSizedIsEncoding(b, 4);
  }

  lemma ReadSizedIsEncoding(b: Buffer, width: nat)
    requires width >= 1 && b.Valid() && ReadSized(b, width).Ok?
    ensures var (payload, b') := ReadSized(b, width).value;
      && (payload.Some? ==> |payload.value| < Half(width))
      && b'.pos == b.pos + |EncodeSized(width, payload)|
      && b.data[b.pos..b'.pos] == EncodeSized(width, payload)
  {
    hide EncodeInt, DecodeInt, GetBytes, Half;
    var len := GetPrefix(b, width).value;
    GetPrefixEncodes(b, width);
    var b' := ReadSized(b, width).value.1;
    if len.0 != ABSENT {
      SliceJoin(b.data, b.pos, b.pos + width, b'.pos);
    }
  }

  lemma {:induction false} ReadArrayIsEncoding(t: Type, b: Buffer)
    requires t.ArrayOf? && ValidType(t) && b.Valid() && Read(t, b).Ok?
    ensures var (v, b') := Read(t, b).value;
      && Conforms(t, v)
      && b'.pos == b.pos + SizeOf(t, v)
      && b.data[b.pos..b'.pos] == Encode(t, v)
    decreases t, 0
  {
    hide ReadElements, EncodeElements, ElementsSize, EncodeInt, DecodeInt, ReadSized, SchemaRead, EncodeSized,
      SchemaSizeOf, EncodeFieldsFrom, RecordConforms, Half, GetBytes;
    PrefixValues();
    var count := GetPrefix(b, 4).value;
    GetPrefixEncodes(b, 4);
    var b' := Read(t, b).value.1;
    if count.0 != ABSENT {
      ReadElementsIsEncoding(t.elem, count.1, count.0);
      SliceJoin(b.data, b.pos, b.pos + 4, b'.pos);
    }
  }

  lemma {:induction false} ReadElementsIsEncoding(e: Type, b: Buffer, n: nat)
    requires ValidType(e) && b.Valid() && ReadElements(e, b, n).Ok?
    ensures var (vs, b') := ReadElements(e, b, n).value;
      && (forall i :: 0 <= i < |vs| ==> Conforms(e, vs[i]))
      && b'.pos == b.pos + ElementsSize(e, vs)
      && b.data[b.pos..b'.pos] == EncodeElements(e, vs)
    decreases e, n + 1
  {
    hide Read, ReadElements, Encode, EncodeElements, SizeOf, ElementsSize, Conforms, ValidType;
    if n == 0 {
      ElementsNil(e, b);
    } else {
      ReadElementsUncons(e, b, n);
      var first := Read(e, b).value;
      var rest := ReadElements(e, first.1, n - 1).value;
      ReadIsEncoding(e, b);
      ReadElementsIsEncoding(e, first.1, n - 1);
      var vs := [first.0] + rest.0;
      assert vs[0] == first.0 && vs[1..] == rest.0;
      assert forall i :: 1 <= i < |vs| ==> vs[i] == rest.0[i - 1];
      ElementsCons(e, vs);
      SliceJoin(b.data, b.pos, first.1.pos, rest.1.pos);
    }
  }

  lemma {:induction false} ReadStructIsEncoding(t: Type, b: Buffer)
    requires t.Struct? && ValidType(t) && b.Valid() && Read(t, b).Ok?
    ensures var (v, b') := Read(t, b).value;
      && Conforms(t, v)
      && b'.pos == b.pos + SizeOf(t, v)
      && b.data[b.pos..b'.pos] == Encode(t, v)
    decreases t, 0
  {
    hide ReadFieldsFrom, EncodeFieldsFrom, FieldsSizeFrom, ReadArray, ReadSized, ElementsSize,
      EncodeElements, EncodeSized, EncodeInt, GetBytes, DecodeInt, EncodeSlots, SumSizes;
    var s := t.schema;
    ReadFieldsIsEncoding(s, b, 0);
    var vs := ReadFieldsFrom(s, b, 0).value.0;
    assert s.fields[0..] == s.fields;
    var r := Record(s, vs);
    assert RecordConforms(s, r);
    EncodeFieldsIsSlots(s, r, 0);
    assert r.values[0..] == r.values;
  }

  lemma {:induction false} ReadFieldsIsEncoding(s: Schema, b: Buffer, i: nat)
    requires b.Valid() && i <= |s.fields| && ReadFieldsFrom(s, b, i).Ok?
    requires forall k :: 0 <= k < |s.fields| ==> ValidType(s.fields[k].tp)
    ensures var (vs, b') := ReadFieldsFrom(s, b, i).value;
      && (forall k :: 0 <= k < |vs| ==> Conforms(s.fields[i + k].tp, vs[k]))
      && b'.pos == b.pos + SumSizes(s.fields[i..], vs)
      && b.data[b.pos..b'.pos] == EncodeSlots(s.fields[i..], vs)
    decreases s, |s.fields| - i
  {
    hide Read, ReadFieldsFrom, Encode, SizeOf, Conforms, ValidType;
    if i == |s.fields| {
      ReadFieldsEnd(s, b);
    } else {
      ReadFieldsUncons(s, b, i);
      var first := Read(s.fields[i].tp, b).value;
      var rest := ReadFieldsFrom(s, first.1, i + 1).value;
      ReadIsEncoding(s.fields[i].tp, b);
      ReadFieldsIsEncoding(s, first.1, i + 1);
      var vs := [first.0] + rest.0;
      assert vs[1..] == rest.0;
      assert s.fields[i..][1..] == s.fields[i + 1..];
      SliceJoin(b.data, b.pos, first.1.pos, rest.1.pos);
    }
  }

  // ---------------------------------------------------------------- schema layout and size

  /** The write loop from slot i lays down the slot encodings from i on, in slot order, and
      the size loop adds up the same slots' sizes. */
  lemma {:induction false} EncodeFieldsIsSlots(s: Schema, r: Record, i: nat)
    requires RecordConforms(s, r) && i <= |s.fields|
    ensures EncodeFieldsFrom(s, r, i) == EncodeSlots(s.fields[i..], r.values[i..])
    ensures FieldsSizeFrom(s, r, i) == SumSizes(s.fields[i..], r.values[i..])
    decreases |s.fields| - i
  {
    if i < |s.fields| {
      EncodeFieldsIsSlots(s, r, i + 1);
      assert s.fields[i..][1..] == s.fields[i + 1..];
      assert r.values[i..][1..] == r.values[i + 1..];
    }
  }

  /** Schema.sizeOf is the sum of the fields' sizes and Schema.write's bytes are the fields'
      encodings back to back, both in slot order; an empty schema takes no bytes. */
  lemma SchemaLayout(s: Schema, r: Record)
    requires RecordConforms(s, r)
    ensures SchemaSizeOf(s, r) == SumSizes(s.fields, r.values)
    ensures Encode(Struct(s), RecordV(r)) == EncodeSlots(s.fields, r.values)
    ensures |s.fields| == 0 ==> SchemaSizeOf(s, r) == 0
  {
    EncodeFieldsIsSlots(s, r, 0);
    assert s.fields[0..] == s.fields && r.values[0..] == r.values;
  }
}
