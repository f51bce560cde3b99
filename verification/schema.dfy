/** kafka.common.protocol.types.Schema: construction from a field list and the positional and
    by-name lookups. Reading, writing and sizing live in Codec, because Schema is also a Type
    and those three recurse through every type. */
module Schemas {
  import opened Results
  import opened Types

  /** `s` holds copies of `fs` in input order, each carrying its slot as its index. */
  predicate Adopts(s: Schema, fs: seq<Field>) {
    && |s.fields| == |fs|
    && forall i :: 0 <= i < |fs| ==> s.fields[i] == Field(i, fs[i].name, fs[i].tp, fs[i].doc)
  }

  /** Slot `j` is the first whose name already occurs in an earlier slot. */
  predicate FirstRepeat(fs: seq<Field>, j: int) {
    && 0 <= j < |fs|
    && DistinctNames(fs[..j])
    && fs[j].name in NameSet(fs[..j])
  }

  /** The constructor Schema(Field... fs). The loop visits the input in order, fails on the
      first name it has already seen, and otherwise adopts a copy of each field at its slot and
      files it under its name. */
  function NewSchema(fs: seq<Field>): (r: Result<Schema>)
    ensures r.Ok? <==> DistinctNames(fs)
    ensures r.Ok? ==> WellFormed(r.value) && Adopts(r.value, fs)
    ensures r.Err? ==> exists j :: FirstRepeat(fs, j) && r.error == DuplicateField(fs[j].name)
    decreases |fs|
  {
    if |fs| == 0 then Ok(Schema([], map[]))
    else
      var n := |fs| - 1;
      var f := fs[n];
      match NewSchema(fs[..n])
      case Err(e) =>
        RepeatInPrefix(fs, n, e);
        Err(e)
      case Ok(prev) =>
        AdoptedNames(prev, fs[..n]);
        if f.name in prev.byName then
          assert FirstRepeat(fs, n);
          RepeatNotDistinct(fs, n);
          Err(DuplicateField(f.name))
        else
          var s := Extend(prev, f);
          ExtendAdopts(prev, fs);
          Ok(s)
  }

  /** Loop step: adopt `f` at the next slot and file it under its name. */
  function Extend(prev: Schema, f: Field): Schema
  {
    var adopted := Field(|prev.fields|, f.name, f.tp, f.doc);
    Schema(prev.fields + [adopted], prev.byName[f.name := adopted])
  }

  lemma ExtendAdopts(prev: Schema, fs: seq<Field>)
    requires |fs| >= 1
    requires WellFormed(prev) && Adopts(prev, fs[..|fs| - 1])
    requires fs[|fs| - 1].name !in prev.byName
    ensures WellFormed(Extend(prev, fs[|fs| - 1])) && Adopts(Extend(prev, fs[|fs| - 1]), fs)
    ensures DistinctNames(fs)
  {
    var n := |fs| - 1;
    var f := fs[n];
    var s := Extend(prev, f);
    AdoptedNames(prev, fs[..n]);
    ExtendDistinct(fs, n);
    var adopted := Field(n, f.name, f.tp, f.doc);
    NameSetAppend(prev.fields, adopted);
    assert DistinctNames(s.fields) by {
      forall i, j | 0 <= i < j < |s.fields| ensures s.fields[i].name != s.fields[j].name {
        assert s.fields[i].name == fs[i].name && s.fields[j].name == fs[j].name;
      }
    }
    forall i | 0 <= i < |s.fields|
      ensures s.fields[i].name in s.byName && s.byName[s.fields[i].name] == s.fields[i]
    {
      if i < n {
        assert s.fields[i] == prev.fields[i];
        assert s.fields[i].name != f.name;
      }
    }
  }

  lemma RepeatInPrefix(fs: seq<Field>, n: nat, e: Error)
    requires n == |fs| - 1
    requires exists j :: FirstRepeat(fs[..n], j) && e == DuplicateField(fs[..n][j].name)
    ensures !DistinctNames(fs)
    ensures exists j :: FirstRepeat(fs, j) && e == DuplicateField(fs[j].name)
  {
    var j :| FirstRepeat(fs[..n], j) && e == DuplicateField(fs[..n][j].name);
    assert fs[..n][..j] == fs[..j];
    assert FirstRepeat(fs, j);
    RepeatNotDistinct(fs, j);
  }

  lemma PrefixDistinct(fs: seq<Field>, n: nat)
    requires n <= |fs|
    ensures DistinctNames(fs) ==> DistinctNames(fs[..n])
  {
  }

  lemma AdoptedNames(s: Schema, fs: seq<Field>)
    requires Adopts(s, fs)
    ensures NameSet(s.fields) == NameSet(fs)
  {
    forall x | x in NameSet(fs) ensures x in NameSet(s.fields) {
      var i :| 0 <= i < |fs| && fs[i].name == x;
      assert s.fields[i].name == x;
    }
  }

  lemma RepeatNotDistinct(fs: seq<Field>, n: nat)
    requires n < |fs| && fs[n].name in NameSet(fs[..n])
    ensures !DistinctNames(fs)
  {
    var i :| 0 <= i < n && fs[..n][i].name == fs[n].name;
    assert fs[i].name == fs[n].name;
  }

  lemma ExtendDistinct(fs: seq<Field>, n: nat)
    requires n == |fs| - 1 && DistinctNames(fs[..n]) && fs[n].name !in NameSet(fs[..n])
    ensures DistinctNames(fs)
  {
    forall i, j | 0 <= i < j < |fs| ensures fs[i].name != fs[j].name {
      if j == n {
        assert fs[..n][i].name == fs[i].name;
      } else {
        assert fs[..n][i] == fs[i] && fs[..n][j] == fs[j];
      }
    }
  }

  lemma NameSetAppend(fs: seq<Field>, f: Field)
    ensures NameSet(fs + [f]) == NameSet(fs) + {f.name}
  {
    var ext := fs + [f];
    forall x | x in NameSet(fs) ensures x in NameSet(ext) {
      var i :| 0 <= i < |fs| && fs[i].name == x;
      assert ext[i].name == x;
    }
    assert ext[|fs|].name == f.name;
  }

  /** numFields(): the number of slots. */
  function NumFields(s: Schema): nat
  {
    |s.fields|
  }

  /** get(int slot): the field in that slot; any other slot is an index error. */
  function GetSlot(s: Schema, slot: int): (r: Result<Field>)
    ensures r.Ok? <==> 0 <= slot < NumFields(s)
    ensures r.Err? ==> r.error == IndexOutOfBounds
    ensures r.Ok? ==> r.value in s.fields
    ensures r.Ok? && WellFormed(s) ==> r.value.index == slot
  {
    if 0 <= slot < |s.fields| then Ok(s.fields[slot]) else Err(IndexOutOfBounds)
  }

  /** get(String name): the field filed under `name`, or null when no field has that name. */
  function GetByName(s: Schema, name: string): (r: Option<Field>)
    requires WellFormed(s)
    ensures r.Some? <==> exists i :: 0 <= i < |s.fields| && s.fields[i].name == name
    ensures r.Some? ==> r.value.name == name && 0 <= r.value.index < |s.fields| && s.fields[r.value.index] == r.value
  {
    if name in s.byName then
      var i :| 0 <= i < |s.fields| && s.fields[i].name == name;
      assert s.byName[name] == s.fields[i];
      Some(s.byName[name])
    else
      None
  }

  /** Positional and by-name lookup agree: the field in slot i is the one filed under its own name. */
  lemma {:induction false} SlotAndNameAgree(s: Schema, i: int)
    requires WellFormed(s) && 0 <= i < NumFields(s)
    ensures GetSlot(s, i).Ok?
    ensures GetByName(s, GetSlot(s, i).value.name) == Some(GetSlot(s, i).value)
  {
    var f := s.fields[i];
    var g := GetByName(s, f.name).value;
    assert s.fields[g.index].name == f.name;
    assert g.index == i by { assert DistinctNames(s.fields); }
  }

  /** A schema built from `fs` answers lookups from the input alone: slot i gives input i adopted
      at i, and a name gives the input field of that name, or null if none has it. */
  lemma {:induction false} LookupsFollowInput(fs: seq<Field>, name: string)
    requires DistinctNames(fs)
    ensures NewSchema(fs).Ok?
    ensures NumFields(NewSchema(fs).value) == |fs|
    ensures forall i :: 0 <= i < |fs| ==>
      GetSlot(NewSchema(fs).value, i) == Ok(Field(i, fs[i].name, fs[i].tp, fs[i].doc))
    ensures GetByName(NewSchema(fs).value, name).None? <==> name !in NameSet(fs)
    ensures forall i :: 0 <= i < |fs| && fs[i].name == name ==>
      GetByName(NewSchema(fs).value, name) == Some(Field(i, name, fs[i].tp, fs[i].doc))
  {
    var s := NewSchema(fs).value;
    AdoptedNames(s, fs);
    forall i | 0 <= i < |fs| && fs[i].name == name
      ensures GetByName(s, name) == Some(Field(i, name, fs[i].tp, fs[i].doc))
    {
      SlotAndNameAgree(s, i);
    }
  }
}
