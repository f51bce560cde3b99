/** The data model of the engine: wire types (the `Type` family, of which `Schema` is one
    member), fields, schemas, and the values and records that the types read and write. */
module Types {
  import opened Results
  import opened BigEndian

  /** The wire types. `Struct` is a Schema used as a type, which is how schemas nest in
      schemas and in arrays. */
  datatype Type =
    | Int8 | Int16 | Int32 | Int64
    | Str                      // STRING: 2-byte length, then that many UTF-8 bytes
    | Bytes                    // BYTES: 4-byte length, then that many bytes
    | ArrayOf(elem: Type)      // 4-byte count, then that many elements
    | Struct(schema: Schema)   // the fields' encodings back to back

  /** A named, documented slot. `index` is the slot once a schema adopts the field. */
  datatype Field = Field(index: int, name: string, tp: Type, doc: string)

  /** The fields in slot order, and the same fields keyed by name. */
  datatype Schema = Schema(fields: seq<Field>, byName: map<string, Field>)

  /** The value a type reads or writes. `None` stands for Java's null, which the length-prefixed
      types write as length -1. A string is held as its UTF-8 bytes. */
  datatype Value =
    | IntV(n: int)
    | StrV(s: Option<seq<Byte>>)
    | BytesV(b: Option<seq<Byte>>)
    | ArrayV(elems: Option<seq<Value>>)
    | RecordV(r: Record)

  /** A value per slot of the schema that shaped it. */
  datatype Record = Record(schema: Schema, values: seq<Value>)

  /** The index a field carries before a schema adopts it. */
  const NO_INDEX: int := -1

  /** Largest Java short and int: the largest length a STRING, and a BYTES or array, can announce. */
  const MAX_SHORT: nat := 0x7fff
  const MAX_INT: nat := 0x7fff_ffff

  /** A field as the catalogue declares it, not yet in any schema. */
  function Unattached(name: string, tp: Type, doc: string): Field
  {
    Field(NO_INDEX, name, tp, doc)
  }

  predicate IsInt(t: Type) {
    t.Int8? || t.Int16? || t.Int32? || t.Int64?
  }

  /** Bytes on the wire of a fixed-width integer type. */
  function Width(t: Type): (w: nat)
    requires IsInt(t)
    ensures w >= 1
  {
    match t
    case Int8 => 1
    case Int16 => 2
    case Int32 => 4
    case Int64 => 8
  }

  predicate DistinctNames(fs: seq<Field>) {
    forall i, j :: 0 <= i < j < |fs| ==> fs[i].name != fs[j].name
  }

  function NameSet(fs: seq<Field>): set<string> {
    set i | 0 <= i < |fs| :: fs[i].name
  }

  /** What the Schema constructor establishes: each field sits at its own index, names are
      unique, and the by-name map holds exactly the fields, under their names. */
  predicate WellFormed(s: Schema) {
    && (forall i :: 0 <= i < |s.fields| ==> s.fields[i].index == i)
    && DistinctNames(s.fields)
    && s.byName.Keys == NameSet(s.fields)
    && (forall i :: 0 <= i < |s.fields| ==> s.fields[i].name in s.byName && s.byName[s.fields[i].name] == s.fields[i])
  }

  /** Every schema reachable from `t` is well formed. */
  predicate ValidType(t: Type)
    decreases t
  {
    match t
    case ArrayOf(e) => ValidType(e)
    case Struct(s) => WellFormed(s) && forall i :: 0 <= i < |s.fields| ==> ValidType(s.fields[i].tp)
    case _ => true
  }

  /** `v` is a value `t` can write: integers in range, lengths and counts that fit their prefix,
      records built for exactly this schema. */
  predicate Conforms(t: Type, v: Value)
    decreases t
  {
    match t
    case Int8 | Int16 | Int32 | Int64 => v.IntV? && InSignedRange(v.n, Width(t))
    case Str => v.StrV? && (v.s.Some? ==> |v.s.value| <= MAX_SHORT)
    case Bytes => v.BytesV? && (v.b.Some? ==> |v.b.value| <= MAX_INT)
    case ArrayOf(e) =>
      && v.ArrayV?
      && (v.elems.Some? ==>
            && |v.elems.value| <= MAX_INT
            && forall i :: 0 <= i < |v.elems.value| ==> Conforms(e, v.elems.value[i]))
    case Struct(s) => v.RecordV? && RecordConforms(s, v.r)
  }

  /** `r` is bound to the well-formed schema `s` and holds a conforming value for each slot. */
  predicate RecordConforms(s: Schema, r: Record)
    decreases s
  {
    && WellFormed(s)
    && r.schema == s
    && |r.values| == |s.fields|
    && forall i :: 0 <= i < |s.fields| ==> Conforms(s.fields[i].tp, r.values[i])
  }

  /** Record.get(field): the value in the field's slot. */
  function GetValue(r: Record, f: Field): Value
    requires 0 <= f.index < |r.values|
  {
    r.values[f.index]
  }
}
