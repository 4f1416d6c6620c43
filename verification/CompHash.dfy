/** `CompositeHash`: writing keys into a buffer that is reused. */
module CompHash {
  import opened Bytes
  import opened CompTypes
  import opened CompSpec
  import opened CompRecover

  /** `bytes` was written at `off` and nothing else changed. */
  ghost predicate Wrote(before: seq<byte>, after: seq<byte>, off: nat, bytes: seq<byte>) {
    off + |bytes| <= |before| && after == before[..off] + bytes + before[off + |bytes|..]
  }

  lemma WroteThen(s0: seq<byte>, s1: seq<byte>, s2: seq<byte>, off: nat, a: seq<byte>, b: seq<byte>)
    requires Wrote(s0, s1, off, a) && Wrote(s1, s2, off + |a|, b)
    ensures Wrote(s0, s2, off, a + b)
  {
    assert s1[..off + |a|] == s0[..off] + a;
    assert s1[off + |a| + |b|..] == s0[off + |a| + |b|..];
  }

  lemma WroteOneMore(s0: seq<byte>, s1: seq<byte>, s2: seq<byte>, off: nat, piece: seq<byte>, n: nat)
    requires n < |piece| && Wrote(s0, s1, off, piece[..n]) && Wrote(s1, s2, off + n, [piece[n]])
    ensures Wrote(s0, s2, off, piece[..n + 1])
  {
    hide Wrote;
    WroteThen(s0, s1, s2, off, piece[..n], [piece[n]]);
    assert piece[..n] + [piece[n]] == piece[..n + 1];
  }

  lemma WroteNothing(s: seq<byte>, off: nat)
    requires off <= |s|
    ensures Wrote(s, s, off, [])
  {
  }

  predicate OnUnit(off: nat, unit: nat) {
    if unit == 4 then off % 4 == 0 else off % 8 == 0
  }

  lemma GapStep(off: nat, unit: nat)
    requires unit == 4 || unit == 8
    ensures if OnUnit(off, unit) then Gap(off, unit) == 0 else Gap(off, unit) == 1 + Gap(off + 1, unit)
  {
    if unit == 4 { OneMoreOf4(off); } else { OneMoreOf8(off); }
  }

  lemma OneMoreOf4(off: nat)
    ensures (off + 1) % 4 == if off % 4 == 3 then 0 else off % 4 + 1
  {
  }

  lemma OneMoreOf8(off: nat)
    ensures (off + 1) % 8 == if off % 8 == 7 then 0 else off % 8 + 1
  {
  }

  method PutByte(buf: array<byte>, off: nat, b: byte)
    requires off < buf.Length
    modifies buf
    ensures Wrote(old(buf[..]), buf[..], off, [b])
  {
    buf[off] := b;
  }

  /** Zeroes up to the next multiple of the unit. */
  method AlignAndPad(buf: array<byte>, off: nat, unit: nat) returns (at: nat)
    requires (unit == 4 || unit == 8) && off + Gap(off, unit) <= buf.Length
    modifies buf
    ensures at == off + Gap(off, unit) && Wrote(old(buf[..]), buf[..], off, Zeros(at - off))
  {
    hide Wrote, Gap, OnUnit;
    at := off;
    WroteNothing(buf[..], off);
    GapStep(at, unit);
    while !OnUnit(at, unit)
      invariant off <= at && at + Gap(at, unit) == off + Gap(off, unit)
      invariant OnUnit(at, unit) ==> Gap(at, unit) == 0
      invariant Wrote(old(buf[..]), buf[..], off, Zeros(at - off))
      decreases Gap(at, unit)
    {
      ghost var s := buf[..];
      GapStep(at, unit);
      PutByte(buf, at, 0);
      WroteThen(old(buf[..]), s, buf[..], off, Zeros(at - off), [0]);
      at := at + 1;
      GapStep(at, unit);
      assert Zeros(at - 1 - off) + [0] == Zeros(at - off);
    }
  }

  method Put(buf: array<byte>, off: nat, piece: seq<byte>) returns (end: nat)
    requires off + |piece| <= buf.Length
    modifies buf
    ensures end == off + |piece| && Wrote(old(buf[..]), buf[..], off, piece)
  {
    hide Wrote;
    end := off;
    WroteNothing(buf[..], off);
    assert piece[..0] == [];
    while end < off + |piece|
      invariant off <= end <= off + |piece|
      invariant Wrote(old(buf[..]), buf[..], off, piece[..end - off])
    {
      ghost var s := buf[..];
      var n := end - off;
      PutByte(buf, end, piece[n]);
      WroteOneMore(old(buf[..]), s, buf[..], off, piece, n);
      end := end + 1;
    }
    assert piece[..end - off] == piece;
  }

  method PutAligned(buf: array<byte>, off: nat, unit: nat, piece: seq<byte>) returns (end: nat)
    requires (unit == 4 || unit == 8) && off + Gap(off, unit) + |piece| <= buf.Length
    modifies buf
    ensures end == off + |Aligned(off, unit, piece)| && Wrote(old(buf[..]), buf[..], off, Aligned(off, unit, piece))
  {
    hide Gap, Wrote;
    var at := AlignAndPad(buf, off, unit);
    ghost var s := buf[..];
    end := Put(buf, at, piece);
    WroteThen(old(buf[..]), s, buf[..], off, Zeros(at - off), piece);
  }

  // ---- Tags of the values that are there ----

  predicate TagsMatch(t: Type, v: Val) {
    TypeTag(t) == ValTag(v) && SameKind(t, v) && match v {
      case RecordVal(vals) => TagsMatchFields(t.fields, vals)
      case VectorVal(elems) => Length(elems) < TWO_TO_THE_32 && TagsMatchElems(t.elem, elems)
      case _ => true
    }
  }

  predicate TagsMatchFields(fs: Fields, vs: Vals) {
    match fs
    case NoFields => vs.Nil?
    case Fields(t, _, rest) => vs.Vals? && (vs.v.Some? ==> TagsMatch(t, vs.v.value)) && TagsMatchFields(rest, vs.rest)
  }

  predicate TagsMatchElems(t: Type, vs: Vals) {
    vs.Vals? ==> (vs.v.Some? ==> TagsMatch(t, vs.v.value)) && TagsMatchElems(t, vs.rest)
  }

  /** Computing a size has looked at every tag. */
  lemma {:induction false} SizedMatch(t: Type, v: Val, sz: nat, optional: bool)
    requires Fits(t, v) && Size(t, Some(v), sz, optional, false) != 0
    ensures TagsMatch(t, v)
    decreases t, 0
  {
    hide Gap, TypeTag, ValTag;
    var sz' := if optional then sz + 1 else sz;
    if v.RecordVal? {
      SizedFieldsMatch(t.fields, v.vals, sz');
    } else if v.VectorVal? {
      SizedElemsMatch(t.elem, v.elems, SizeAlign(sz', 4));
    }
  }

  lemma {:induction false} SizedFieldsMatch(fs: Fields, vs: Vals, sz: nat)
    requires FitFields(fs, vs) && SizeFields(fs, Some(vs), sz, false) != 0
    ensures TagsMatchFields(fs, vs)
    decreases fs, 0
  {
    hide Size, Fits, TagsMatch;
    if fs.Fields? {
      if vs.v.Some? { SizedMatch(fs.t, vs.v.value, sz, fs.optional); }
      SizedFieldsMatch(fs.rest, vs.rest, Size(fs.t, vs.v, sz, fs.optional, false));
    }
  }

  lemma {:induction false} SizedElemsMatch(t: Type, vs: Vals, sz: nat)
    requires FitElems(t, vs) && SizeElems(t, vs, sz, false) != 0
    ensures TagsMatchElems(t, vs)
    decreases t, 1, vs
  {
    hide Size, Gap, Fits, TagsMatch;
    if vs.Vals? {
      var head := SizeAlign(SizeAlign(sz, 4), 4);
      if vs.v.Some? { SizedMatch(t, vs.v.value, head, false); }
      SizedElemsMatch(t, vs.rest, if vs.v.Some? then Size(t, vs.v, head, false, false) else head);
    }
  }

  // ---- Writing a value ----

  function Weight(t: Type): nat {
    match t
    case RecordType(fs) => 1 + WeightFields(fs)
    case VectorType(e) => 1 + Weight(e)
    case _ => 0
  }

  function WeightFields(fs: Fields): nat {
    if fs.NoFields? then 0 else 1 + Weight(fs.t) + WeightFields(fs.rest)
  }

  function End(e: Emission, off: nat): Option<nat> {
    if e.ok then Some(off + |e.bytes|) else None
  }

  /** `SingleValHash`, from the marker of an optional field on. */
  method SingleValHash(check: bool, buf: array<byte>, off: nat, t: Type, v: Option<Val>, optional: bool)
    returns (end: Option<nat>)
    requires if v.Some? then Fits(t, v.value) && (check || TagsMatch(t, v.value)) else optional
    requires off + |EmitField(t, optional, v, off).bytes| <= buf.Length
    modifies buf
    ensures var e := EmitField(t, optional, v, off);
      end == End(e, off) && Wrote(old(buf[..]), buf[..], off, e.bytes)
    decreases Weight(t), 1
  {
    hide Emit, Fits, TagsMatch, Wrote;
    var kp := off;
    WroteNothing(buf[..], off);
    if optional {
      PutByte(buf, kp, if v.Some? then 1 else 0);
      kp := kp + 1;
      if v.None? {
        return Some(kp);
      }
    }
    ghost var s, m := buf[..], Marker(optional, true);
    end := HashValue(check, buf, kp, t, v.value);
    WroteThen(old(buf[..]), s, buf[..], off, m, Emit(t, v.value, kp).bytes);
  }

  method HashValue(check: bool, buf: array<byte>, off: nat, t: Type, v: Val) returns (end: Option<nat>)
    requires Fits(t, v) && (check || TagsMatch(t, v))
    requires off + |Emit(t, v, off).bytes| <= buf.Length
    modifies buf
    ensures var e := Emit(t, v, off);
      end == End(e, off) && Wrote(old(buf[..]), buf[..], off, e.bytes)
    decreases Weight(t), 0
  {
    hide Wrote, Gap, Image, TypeTag, ValTag;
    if check && TypeTag(t) != ValTag(v) {
      WroteNothing(buf[..], off);
      return None;
    }
    if v.RecordVal? {
      end := HashFields(check, buf, off, t.fields, v.vals);
    } else if v.VectorVal? {
      end := HashElems(check, buf, off, t.elem, v.elems);
    } else {
      var kp := PutAligned(buf, off, Unit(t), Image(v));
      end := Some(kp);
    }
  }

  /** The fields of a record, one after the other. */
  method HashFields(check: bool, buf: array<byte>, off: nat, fields: Fields, vals: Vals) returns (end: Option<nat>)
    requires FitFields(fields, vals) && (check || TagsMatchFields(fields, vals))
    requires off + |EmitFields(fields, vals, off).bytes| <= buf.Length
    modifies buf
    ensures var e := EmitFields(fields, vals, off);
      end == End(e, off) && Wrote(old(buf[..]), buf[..], off, e.bytes)
    decreases WeightFields(fields), 0
  {
    hide Wrote, Fits, TagsMatch, EmitField, EmitFields, Weight;
    var fs, vs, kp := fields, vals, off;
    ghost var done: seq<byte> := [];
    WroteNothing(buf[..], off);
    NothingBefore(EmitFields(fields, vals, off));
    while fs.Fields?
      invariant FitFields(fs, vs) && (check || TagsMatchFields(fs, vs)) && WeightFields(fs) <= WeightFields(fields)
      invariant kp == off + |done| && Wrote(old(buf[..]), buf[..], off, done)
      invariant EmitFields(fields, vals, off) == Then(Emission(done, true), EmitFields(fs, vs, kp))
      decreases WeightFields(fs)
    {
      ghost var s, e := buf[..], EmitField(fs.t, fs.optional, vs.v, kp);
      FieldStep(done, fs, vs, kp);
      if vs.v.None? && !fs.optional {
        return None;
      }
      var next := SingleValHash(check, buf, kp, fs.t, vs.v, fs.optional);
      WroteThen(old(buf[..]), s, buf[..], off, done, e.bytes);
      if next.None? {
        return None;
      }
      kp, done := next.value, done + e.bytes;
      fs, vs := fs.rest, vs.rest;
    }
    NoFieldsLeft(done, vs, kp);
    end := Some(kp);
  }

  lemma NothingBefore(e: Emission)
    ensures Then(Emission([], true), e) == e
  {
    assert [] + e.bytes == e.bytes;
  }

  lemma NoFieldsLeft(done: seq<byte>, vs: Vals, kp: nat)
    requires vs.Nil?
    ensures Then(Emission(done, true), EmitFields(NoFields, vs, kp)) == Emission(done, true)
  {
    assert done + [] == done;
  }

  /** What is left to write after a field. */
  lemma FieldStep(done: seq<byte>, fs: Fields, vs: Vals, kp: nat)
    requires fs.Fields? && vs.Vals?
    ensures var e := EmitField(fs.t, fs.optional, vs.v, kp);
      var left := Then(Emission(done, true), EmitFields(fs, vs, kp));
      && |done| + |e.bytes| <= |left.bytes|
      && (vs.v.None? && !fs.optional ==> left == Emission(done, false))
      && left == if e.ok then Then(Emission(done + e.bytes, true), EmitFields(fs.rest, vs.rest, kp + |e.bytes|))
        else Emission(done + e.bytes, false)
  {
    hide Emit;
    var e := EmitField(fs.t, fs.optional, vs.v, kp);
    if e.ok {
      var f := EmitFields(fs.rest, vs.rest, kp + |e.bytes|);
      assert done + (e.bytes + f.bytes) == done + e.bytes + f.bytes;
    }
    assert done + [] == done;
  }

  /** The size of a vector, then its elements, each with its index and whether it is there. */
  method HashElems(check: bool, buf: array<byte>, off: nat, t: Type, elems: Vals) returns (end: Option<nat>)
    requires FitElems(t, elems) && (check || TagsMatchElems(t, elems)) && Length(elems) < TWO_TO_THE_32
    requires off + |VectorEmission(t, elems, off).bytes| <= buf.Length
    modifies buf
    ensures var e := VectorEmission(t, elems, off);
      end == End(e, off) && Wrote(old(buf[..]), buf[..], off, e.bytes)
    decreases Weight(t), 2
  {
    hide Wrote, Fits, TagsMatch, EmitElem, Gap, EmitElems, Aligned, LittleEndian, VectorEmission;
    VectorStart(t, elems, off);
    var kp := PutAligned(buf, off, 4, LittleEndian(4, Length(elems)));
    var vs, i := elems, 0;
    ghost var done := Word(off, Length(elems));
    while vs.Vals?
      invariant FitElems(t, vs) && (check || TagsMatchElems(t, vs))
      invariant kp == off + |done| && Wrote(old(buf[..]), buf[..], off, done)
      invariant VectorEmission(t, elems, off) == Then(Emission(done, true), EmitElems(t, vs, i, kp))
      decreases vs
    {
      ghost var s, e := buf[..], EmitElem(t, vs.v, i, kp);
      ElemStep(t, done, vs, i, kp);
      var next := HashElem(check, buf, kp, t, vs.v, i);
      WroteThen(old(buf[..]), s, buf[..], off, done, e.bytes);
      if next.None? {
        return None;
      }
      kp, done := next.value, done + e.bytes;
      vs, i := vs.rest, i + 1;
    }
    ElemsEnd(t, done, i, kp);
    end := Some(kp);
  }

  function VectorEmission(t: Type, elems: Vals, off: nat): Emission {
    var n := Word(off, Length(elems));
    Then(Emission(n, true), EmitElems(t, elems, 0, off + |n|))
  }

  lemma VectorStart(t: Type, elems: Vals, off: nat)
    ensures var n := Word(off, Length(elems));
      VectorEmission(t, elems, off) == Then(Emission(n, true), EmitElems(t, elems, 0, off + |n|))
  {
  }

  lemma ElemsEnd(t: Type, done: seq<byte>, i: nat, kp: nat)
    ensures Then(Emission(done, true), EmitElems(t, Nil, i, kp)) == Emission(done, true)
  {
  }

  /** What is left to write after an element. */
  lemma ElemStep(t: Type, done: seq<byte>, vs: Vals, i: nat, kp: nat)
    requires vs.Vals?
    ensures var e := EmitElem(t, vs.v, i, kp);
      var left := Then(Emission(done, true), EmitElems(t, vs, i, kp));
      && |done| + |e.bytes| <= |left.bytes|
      && left == if e.ok then Then(Emission(done + e.bytes, true), EmitElems(t, vs.rest, i + 1, kp + |e.bytes|))
        else Emission(done + e.bytes, false)
  {
    hide EmitElem;
    var e := EmitElem(t, vs.v, i, kp);
    if e.ok {
      var f := EmitElems(t, vs.rest, i + 1, kp + |e.bytes|);
      assert done + (e.bytes + f.bytes) == done + e.bytes + f.bytes;
    }
  }

  method HashElem(check: bool, buf: array<byte>, off: nat, t: Type, v: Option<Val>, i: nat) returns (end: Option<nat>)
    requires v.Some? ==> Fits(t, v.value) && (check || TagsMatch(t, v.value))
    requires off + |EmitElem(t, v, i, off).bytes| <= buf.Length
    modifies buf
    ensures var e := EmitElem(t, v, i, off);
      end == End(e, off) && Wrote(old(buf[..]), buf[..], off, e.bytes)
    decreases Weight(t), 1
  {
    hide Wrote, Fits, TagsMatch, Emit, ElemHead;
    var kp := PutElemHead(buf, off, i, v.Some?);
    end := Some(kp);
    if v.Some? {
      ghost var s := buf[..];
      end := HashValue(check, buf, kp, t, v.value);
      WroteThen(old(buf[..]), s, buf[..], off, ElemHead(i, true, off), Emit(t, v.value, kp).bytes);
    }
  }

  method PutElemHead(buf: array<byte>, off: nat, i: nat, present: bool) returns (end: nat)
    requires off + |ElemHead(i, present, off)| <= buf.Length
    modifies buf
    ensures end == off + |ElemHead(i, present, off)| && Wrote(old(buf[..]), buf[..], off, ElemHead(i, present, off))
  {
    hide Wrote, Gap, Aligned, LittleEndian;
    var kp := PutAligned(buf, off, 4, LittleEndian(4, i));
    ghost var s, index := buf[..], Word(off, i);
    end := PutAligned(buf, kp, 4, LittleEndian(4, if present then 1 else 0));
    WroteThen(old(buf[..]), s, buf[..], off, index, Word(off + |index|, if present then 1 else 0));
  }

  // ---- Whole keys ----

  predicate AllPresent(vs: Vals) {
    vs.Vals? ==> vs.v.Some? && AllPresent(vs.rest)
  }

  predicate NoneOptional(fs: Fields) {
    fs.Fields? ==> !fs.optional && NoneOptional(fs.rest)
  }

  function Count(fs: Fields): nat {
    if fs.NoFields? then 0 else 1 + Count(fs.rest)
  }

  /** One index that is not a record. */
  predicate Singleton(types: Fields) {
    types.Fields? && types.rest.NoFields? && !types.t.RecordType?
  }

  lemma FlatTyped(t: Type, v: Val)
    requires FlatType(t)
    ensures Typed(t, v) <==> Fits(t, v) && TypeTag(t) == ValTag(v)
    ensures Typed(t, v) ==> Flat(v)
  {
  }

  /** The key, if there is one: for well-typed values that can be measured. */
  function KeyOf(types: Fields, vs: Vals): Option<seq<byte>>
    requires types.Fields? && NoneOptional(types) && (Singleton(types) ==> FlatType(types.t))
  {
    if !TypedFields(types, vs) then None
    else if Singleton(types) then FlatTyped(types.t, vs.v.value); SingletonKey(types.t, vs.v.value)
    else if MeasuredFields(types, vs) then Some(Key(types, vs)) else None
  }

  /** The hash of a list of index values, with the buffer that is kept if the types alone say
      how long a key can get. */
  class CompositeHash {
    const types: Fields
    const key: array?<byte>

    ghost predicate Valid() {
      && types.Fields? && NoneOptional(types) && SolidFields(types)
      && var size := SizeFields(types, None, 0, true);
        if !Singleton(types) && size > 0 then key != null && key.Length == (size / 8 + 1) * 8 else key == null
    }

    constructor (types: Fields)
      requires types.Fields? && NoneOptional(types) && SolidFields(types)
      ensures Valid() && this.types == types && (key != null ==> fresh(key))
    {
      this.types := types;
      var size := SizeFields(types, None, 0, true);
      if !Singleton(types) && size > 0 {
        var k := new byte[(size / 8 + 1) * 8];
        this.key := k;
      } else {
        this.key := null;
      }
    }

    /** There is a key exactly for well-typed values that can be measured, and it is a function
        of the types and the values: what the buffer held before plays no part. */
    method ComputeHash(vs: Vals, check: bool) returns (r: Option<seq<byte>>)
      requires Valid() && AllPresent(vs) && (Singleton(types) ==> FlatType(types.t))
      requires if check then Count(types) == Length(vs) ==> FitFields(types, vs) else TagsMatchFields(types, vs)
      modifies if key == null then {} else {key}
      ensures r == KeyOf(types, vs)
    {
      hide FitFields, TagsMatchFields, TypedFields, MeasuredFields, SizeFields, EmitFields, Wrote;
      if Singleton(types) {
        r := ComputeSingletonHash(vs, check);
        return;
      }
      if check && Count(types) != Length(vs) {
        if TypedFields(types, vs) { TypedLength(types, vs); }
        return None;
      }
      if !check { MatchFit(types, vs); }
      HasSize(types, vs);
      EmitFieldsOk(types, vs, 0);
      var k, check' := key, check;
      if k == null {
        var sz := SizeFields(types, Some(vs), 0, false);
        if sz == 0 {
          return None;
        }
        SizedFieldsMatch(types, vs, 0);
        FieldsWithin(types, vs, Some(vs), 0, 0, false);
        k := new byte[(sz / 8 + 1) * 8];
        check' := false;
      } else {
        FieldsWithin(types, vs, None, 0, 0, true);
      }
      ghost var before := k[..];
      var end := HashFields(check', k, 0, types, vs);
      if end.None? {
        return None;
      }
      KeyAtStart(k[..], Key(types, vs), before);
      r := Some(k[..end.value]);
    }

    /** `ComputeSingletonHash`: a bare value, a string without its length. */
    method ComputeSingletonHash(vs: Vals, check: bool) returns (r: Option<seq<byte>>)
      requires Valid() && Singleton(types) && FlatType(types.t) && AllPresent(vs)
      requires if check then Count(types) == Length(vs) ==> FitFields(types, vs) else TagsMatchFields(types, vs)
      ensures r == KeyOf(types, vs)
    {
      hide SizeFields;
      if check && Length(vs) != 1 {
        if TypedFields(types, vs) { TypedLength(types, vs); }
        return None;
      }
      if !check { MatchFit(types, vs); }
      assert Count(types) == 1 + Count(types.rest) == 1;
      assert vs.Vals? && vs.v.Some? && FitFields(types.rest, vs.rest);
      assert TypedFields(types.rest, vs.rest);
      var v := vs.v.value;
      FlatTyped(types.t, v);
      if !check { assert TagsMatch(types.t, v); }
      if check && ValTag(v) != TypeTag(types.t) {
        return None;
      }
      r := if v.StringVal? then Some(v.s) else Some(Image(v));
    }
  }

  // A record whose optional field is a record with a required string.
  const STRING_FIELD: Fields := Fields(StringType, false, NoFields)
  const OPTIONAL_RECORD: Fields := Fields(RecordType(STRING_FIELD), true, NoFields)
  const NESTED: Fields := Fields(RecordType(OPTIONAL_RECORD), false, NoFields)

  const ABSENT: Vals := Vals(None, Nil)

  lemma StringNotSized(fs: Fields)
    requires fs.Fields? && fs.t.StringType? && !fs.optional
    ensures !AbsentSizedFields(fs, false)
  {
  }

  lemma RecordNotMeasured(fs: Fields)
    requires fs.Fields? && fs.t.RecordType? && !AbsentSizedFields(fs.t.fields, false)
    ensures !MeasuredFields(fs, ABSENT)
  {
    hide AbsentSizedFields;
  }

  lemma AbsentNotMeasured()
    ensures !MeasuredFields(OPTIONAL_RECORD, ABSENT)
  {
    hide AbsentSizedFields, MeasuredFields;
    StringNotSized(STRING_FIELD);
    RecordNotMeasured(OPTIONAL_RECORD);
  }

  lemma NestedNotMeasured(v: Val)
    requires v == RecordVal(ABSENT)
    ensures !MeasuredFields(NESTED, Vals(Some(v), Nil))
  {
    AbsentNotMeasured();
    assert !Measured(RecordType(OPTIONAL_RECORD), v);
  }

  lemma NestedTyped(v: Val)
    requires v == RecordVal(ABSENT)
    ensures TypedFields(NESTED, Vals(Some(v), Nil)) && NoneOptional(NESTED) && SolidFields(NESTED)
  {
    assert TypedFields(OPTIONAL_RECORD, ABSENT);
    assert Typed(RecordType(OPTIONAL_RECORD), v);
    assert SolidFields(STRING_FIELD) && Solid(RecordType(STRING_FIELD)) && SolidFields(OPTIONAL_RECORD);
    assert Solid(RecordType(OPTIONAL_RECORD));
  }

  /** Where that field is absent the record is well typed but has no key. */
  lemma AbsentWithoutKey(v: Val)
    requires v == RecordVal(ABSENT)
    ensures var vs := Vals(Some(v), Nil);
      NoneOptional(NESTED) && SolidFields(NESTED) && TypedFields(NESTED, vs) && KeyOf(NESTED, vs) == None
  {
    hide TypedFields, MeasuredFields, NoneOptional, SolidFields, Key, SingletonKey;
    NestedTyped(v);
    NestedNotMeasured(v);
  }

  lemma KeyAtStart(after: seq<byte>, bytes: seq<byte>, before: seq<byte>)
    requires Wrote(before, after, 0, bytes)
    ensures |bytes| <= |after| && after[..|bytes|] == bytes
  {
  }

  /** Where there is a fixed size, or one for the values, is decided by the values. */
  lemma HasSize(types: Fields, vs: Vals)
    requires types.Fields? && SolidFields(types) && FitFields(types, vs)
    ensures TypedFields(types, vs) && SizeFields(types, None, 0, true) != 0 ==> MeasuredFields(types, vs)
    ensures TypedFields(types, vs) ==> (SizeFields(types, Some(vs), 0, false) != 0 <==> MeasuredFields(types, vs))
  {
    hide FitFields, TypedFields, MeasuredFields, SizeFields, SolidFields, AbsentSizedFields;
    AbsentFieldsSize(types, 0, true);
    if TypedFields(types, vs) {
      FieldsSize(types, vs, 0);
      if SizeFields(types, None, 0, true) != 0 { FixedIsMeasured(types, vs); }
    }
  }

  lemma {:induction false} TypedLength(fs: Fields, vs: Vals)
    requires TypedFields(fs, vs)
    ensures Count(fs) == Length(vs)
    decreases fs
  {
    if fs.Fields? { TypedLength(fs.rest, vs.rest); }
  }

  lemma {:induction false} MatchFits(t: Type, v: Val)
    requires TagsMatch(t, v)
    ensures Fits(t, v)
    decreases v
  {
    if v.RecordVal? {
      MatchFit(t.fields, v.vals);
    } else if v.VectorVal? {
      MatchElemsFit(t.elem, v.elems);
    }
  }

  lemma {:induction false} MatchFit(fs: Fields, vs: Vals)
    requires TagsMatchFields(fs, vs)
    ensures FitFields(fs, vs)
    decreases vs
  {
    if fs.Fields? {
      if vs.v.Some? { MatchFits(fs.t, vs.v.value); }
      MatchFit(fs.rest, vs.rest);
    }
  }

  lemma {:induction false} MatchElemsFit(t: Type, vs: Vals)
    requires TagsMatchElems(t, vs)
    ensures FitElems(t, vs)
    decreases vs
  {
    if vs.Vals? {
      if vs.v.Some? { MatchFits(t, vs.v.value); }
      MatchElemsFit(t, vs.rest);
    }
  }
}
