/** What a composite key holds, what it takes to read it back, and how much room it needs. */
module CompSpec {
  import opened Bytes
  import opened CompTypes

  // ---- What is written ----

  /** The bytes written and whether the end was reached. */
  datatype Emission = Emission(bytes: seq<byte>, ok: bool)

  /** How far `off` is from the next multiple of `unit`. */
  function Gap(off: nat, unit: nat): (n: nat)
    requires unit == 4 || unit == 8
    ensures n < unit
  {
    var r := if unit == 4 then off % 4 else off % 8;
    if r == 0 then 0 else unit - r
  }

  /** Padding up to the alignment, then the piece itself. */
  function Aligned(off: nat, unit: nat, piece: seq<byte>): (s: seq<byte>)
    requires unit == 4 || unit == 8
    ensures |s| == Gap(off, unit) + |piece|
  {
    Zeros(Gap(off, unit)) + piece
  }

  function Word(off: nat, x: nat): (s: seq<byte>)
    ensures |s| == Gap(off, 4) + 4
  {
    Aligned(off, 4, LittleEndian(4, x))
  }

  function Marker(optional: bool, present: bool): seq<byte> {
    if optional then [if present then 1 else 0] else []
  }

  /** Continue after what has been written. */
  function Then(e: Emission, f: Emission): Emission {
    Emission(e.bytes + f.bytes, f.ok)
  }

  /** A value that the script's type checker lets through: it may differ from its type in the
      tag, which is looked at here, but not in the kind of aggregate. */
  predicate Fits(t: Type, v: Val) {
    TypeTag(t) == ValTag(v) ==> SameKind(t, v) && match v {
      case RecordVal(vals) => FitFields(t.fields, vals)
      case VectorVal(elems) => Length(elems) < TWO_TO_THE_32 && FitElems(t.elem, elems)
      case _ => true
    }
  }

  predicate FitFields(fs: Fields, vs: Vals) {
    match fs
    case NoFields => vs.Nil?
    case Fields(t, _, rest) => vs.Vals? && (vs.v.Some? ==> Fits(t, vs.v.value)) && FitFields(rest, vs.rest)
  }

  predicate FitElems(t: Type, vs: Vals) {
    vs.Vals? ==> (vs.v.Some? ==> Fits(t, vs.v.value)) && FitElems(t, vs.rest)
  }

  /** What `SingleValHash` writes for a value at offset `off`. */
  function Emit(t: Type, v: Val, off: nat): Emission
    decreases v
  {
    if TypeTag(t) != ValTag(v) || !SameKind(t, v) then Emission([], false)
    else
      match v
      case RecordVal(vals) => EmitFields(t.fields, vals, off)
      case VectorVal(elems) =>
        var n := Word(off, Length(elems));
        Then(Emission(n, true), EmitElems(t.elem, elems, 0, off + |n|))
      case _ => Emission(Aligned(off, Unit(t), Image(v)), true)
  }

  /** A field: its marker if it is optional, then its value if it is there. */
  function EmitField(t: Type, optional: bool, v: Option<Val>, off: nat): Emission
    decreases v, 0
  {
    var m := Marker(optional, v.Some?);
    if v.None? then Emission(m, optional) else Then(Emission(m, true), Emit(t, v.value, off + |m|))
  }

  function EmitFields(fs: Fields, vs: Vals, off: nat): Emission
    decreases vs, 1
  {
    if fs.NoFields? || vs.Nil? then Emission([], fs.NoFields? && vs.Nil?)
    else
      var e := EmitField(fs.t, fs.optional, vs.v, off);
      if !e.ok then e else Then(e, EmitFields(fs.rest, vs.rest, off + |e.bytes|))
  }

  /** What comes before an element: its index and whether it is there. */
  function ElemHead(i: nat, present: bool, off: nat): seq<byte> {
    var index := Word(off, i);
    index + Word(off + |index|, if present then 1 else 0)
  }

  function EmitElem(t: Type, v: Option<Val>, i: nat, off: nat): Emission
    decreases v, 0
  {
    var head := ElemHead(i, v.Some?, off);
    if v.None? then Emission(head, true) else Then(Emission(head, true), Emit(t, v.value, off + |head|))
  }

  function EmitElems(t: Type, vs: Vals, i: nat, off: nat): Emission
    decreases vs, 1
  {
    if vs.Nil? then Emission([], true)
    else
      var e := EmitElem(t, vs.v, i, off);
      if !e.ok then e else Then(e, EmitElems(t, vs.rest, i + 1, off + |e.bytes|))
  }

  // ---- When it is written to the end ----

  /** Every tag matches and every required field is there. */
  predicate Typed(t: Type, v: Val) {
    TypeTag(t) == ValTag(v) && SameKind(t, v) && match v {
      case RecordVal(vals) => TypedFields(t.fields, vals)
      case VectorVal(elems) => Length(elems) < TWO_TO_THE_32 && TypedElems(t.elem, elems)
      case _ => true
    }
  }

  predicate TypedFields(fs: Fields, vs: Vals) {
    match fs
    case NoFields => vs.Nil?
    case Fields(t, optional, rest) =>
      vs.Vals? && (if vs.v.Some? then Typed(t, vs.v.value) else optional) && TypedFields(rest, vs.rest)
  }

  predicate TypedElems(t: Type, vs: Vals) {
    vs.Vals? ==> (vs.v.Some? ==> Typed(t, vs.v.value)) && TypedElems(t, vs.rest)
  }

  /** Writing reaches the end exactly for well-typed values. */
  lemma {:induction false} EmitOk(t: Type, v: Val, off: nat)
    requires Fits(t, v)
    ensures Emit(t, v, off).ok <==> Typed(t, v)
    decreases v
  {
    hide Word, Aligned, Image;
    if TypeTag(t) == ValTag(v) {
      if v.RecordVal? {
        EmitFieldsOk(t.fields, v.vals, off);
      } else if v.VectorVal? {
        EmitElemsOk(t.elem, v.elems, 0, off + |Word(off, Length(v.elems))|);
      }
    }
  }

  lemma {:induction false} EmitFieldsOk(fs: Fields, vs: Vals, off: nat)
    requires FitFields(fs, vs)
    ensures EmitFields(fs, vs, off).ok <==> TypedFields(fs, vs)
    decreases vs
  {
    hide Word, Aligned, Image;
    if fs.Fields? {
      var e := EmitField(fs.t, fs.optional, vs.v, off);
      if vs.v.Some? { EmitOk(fs.t, vs.v.value, off + |Marker(fs.optional, true)|); }
      EmitFieldsOk(fs.rest, vs.rest, off + |e.bytes|);
    }
  }

  lemma {:induction false} EmitElemsOk(t: Type, vs: Vals, i: nat, off: nat)
    requires FitElems(t, vs)
    ensures EmitElems(t, vs, i, off).ok <==> TypedElems(t, vs)
    decreases vs
  {
    hide ElemHead, Emit, Typed, Fits;
    if vs.Vals? {
      var e := EmitElem(t, vs.v, i, off);
      if vs.v.Some? {
        EmitOk(t, vs.v.value, off + |ElemHead(i, true, off)|);
      }
      EmitElemsOk(t, vs.rest, i + 1, off + |e.bytes|);
    }
  }

  // ---- How much room is set aside ----

  /** Rounds up to the unit and adds the unit. */
  function SizeAlign(sz: nat, unit: nat): nat
    requires unit == 4 || unit == 8
  {
    sz + Gap(sz, unit) + unit
  }

  function Head(vs: Option<Vals>): Option<Val> {
    if vs.Some? && vs.value.Vals? then vs.value.v else None
  }

  function Tail(vs: Option<Vals>): Option<Vals> {
    if vs.Some? && vs.value.Vals? then Some(vs.value.rest) else None
  }

  /** `SingleTypeKeySize` with tags checked: the size with one value added, 0 if there is none.
      Without a value the type alone has to decide. */
  function Size(t: Type, v: Option<Val>, sz: nat, optional: bool, fixed: bool): nat
    decreases t, 0
  {
    var sz' := if optional then sz + 1 else sz;
    if v.Some? && (TypeTag(t) != ValTag(v.value) || !SameKind(t, v.value)) then 0
    else if FixedSize(t) then SizeAlign(sz', Unit(t)) + FixedWidth(t) - Unit(t)
    else if t.RecordType? then SizeFields(t.fields, if v.Some? then Some(v.value.vals) else None, sz', fixed)
    else if v.None? then if optional && !fixed then sz' else 0
    else if t.StringType? then SizeAlign(sz', 4) + |v.value.s|
    else SizeElems(t.elem, v.value.elems, SizeAlign(sz', 4), fixed)
  }

  function SizeFields(fs: Fields, vs: Option<Vals>, sz: nat, fixed: bool): nat
    decreases fs, 0
  {
    if fs.NoFields? then sz
    else
      var sz' := Size(fs.t, Head(vs), sz, fs.optional, fixed);
      if sz' == 0 then 0 else SizeFields(fs.rest, Tail(vs), sz', fixed)
  }

  function SizeElems(t: Type, vs: Vals, sz: nat, fixed: bool): nat
    decreases t, 1, vs
  {
    if vs.Nil? then sz
    else
      var head := SizeAlign(SizeAlign(sz, 4), 4);
      var sz' := if vs.v.Some? then Size(t, vs.v, head, false, fixed) else head;
      if sz' == 0 then 0 else SizeElems(t, vs.rest, sz', fixed)
  }

  lemma GapMonotone(off: nat, sz: nat, unit: nat)
    requires off <= sz && (unit == 4 || unit == 8)
    ensures off + Gap(off, unit) <= sz + Gap(sz, unit)
  {
  }

  /** A computed size is never smaller than what there was. */
  lemma {:induction false} SizeGrows(t: Type, v: Option<Val>, sz: nat, optional: bool, fixed: bool)
    ensures Size(t, v, sz, optional, fixed) != 0 ==> Size(t, v, sz, optional, fixed) >= if optional then sz + 1 else sz
    decreases t, 0
  {
    hide Gap, TypeTag, ValTag;
    var sz' := if optional then sz + 1 else sz;
    if t.RecordType? {
      SizeFieldsGrow(t.fields, if v.Some? && v.value.RecordVal? then Some(v.value.vals) else None, sz', fixed);
    } else if t.VectorType? && v.Some? && v.value.VectorVal? {
      SizeElemsGrow(t.elem, v.value.elems, SizeAlign(sz', 4), fixed);
    }
  }

  lemma {:induction false} SizeFieldsGrow(fs: Fields, vs: Option<Vals>, sz: nat, fixed: bool)
    ensures SizeFields(fs, vs, sz, fixed) != 0 ==> SizeFields(fs, vs, sz, fixed) >= sz
    decreases fs, 0
  {
    if fs.Fields? {
      hide Size;
      SizeGrows(fs.t, Head(vs), sz, fs.optional, fixed);
      SizeFieldsGrow(fs.rest, Tail(vs), Size(fs.t, Head(vs), sz, fs.optional, fixed), fixed);
    }
  }

  lemma {:induction false} SizeElemsGrow(t: Type, vs: Vals, sz: nat, fixed: bool)
    ensures SizeElems(t, vs, sz, fixed) != 0 ==> SizeElems(t, vs, sz, fixed) >= sz
    decreases t, 1, vs
  {
    if vs.Vals? {
      hide Size, Gap;
      var head := SizeAlign(SizeAlign(sz, 4), 4);
      SizeGrows(t, vs.v, head, false, fixed);
      SizeElemsGrow(t, vs.rest, if vs.v.Some? then Size(t, vs.v, head, false, fixed) else head, fixed);
    }
  }

  /** The size of a value's own, or a size that depends on the type alone. */
  predicate Estimates(w: Option<Val>, v: Option<Val>, fixed: bool) {
    w == v || (w.None? && fixed)
  }

  lemma FixedImage(t: Type, v: Val)
    requires FixedSize(t) && SameKind(t, v)
    ensures |Image(v)| == FixedWidth(t) && Flat(v)
  {
  }

  lemma TextImage(v: Val)
    requires v.StringVal?
    ensures |Image(v)| == 4 + |v.s|
  {
  }

  /** What is written for a field stays within the size that was computed for it, even if the
      writing stops in the middle. */
  lemma {:induction false} FieldWithin(t: Type, v: Option<Val>, w: Option<Val>, off: nat, sz: nat, optional: bool,
    fixed: bool)
    requires off <= sz && Estimates(w, v, fixed) && Size(t, w, sz, optional, fixed) != 0
    ensures off + |EmitField(t, optional, v, off).bytes| <= Size(t, w, sz, optional, fixed)
    decreases t, 0
  {
    hide Gap, TypeTag, ValTag, SameKind, Image, Emit, Size;
    SizeGrows(t, w, sz, optional, fixed);
    if v.Some? {
      ValueWithin(t, v.value, w, off + |Marker(optional, true)|, sz, optional, fixed);
    }
  }

  lemma {:induction false} ValueWithin(t: Type, v: Val, w: Option<Val>, off: nat, sz: nat, optional: bool, fixed: bool)
    requires off <= (if optional then sz + 1 else sz) && Estimates(w, Some(v), fixed)
    requires Size(t, w, sz, optional, fixed) != 0
    ensures off + |Emit(t, v, off).bytes| <= Size(t, w, sz, optional, fixed)
    decreases t, -1
  {
    SizeGrows(t, w, sz, optional, fixed);
    hide Gap, TypeTag, ValTag, Image;
    var sz' := if optional then sz + 1 else sz;
    if TypeTag(t) == ValTag(v) && SameKind(t, v) {
      if FixedSize(t) {
        GapMonotone(off, sz', Unit(t));
        FixedImage(t, v);
      } else if t.RecordType? {
        FieldsWithin(t.fields, v.vals, if w.Some? then Some(v.vals) else None, off, sz', fixed);
      } else if t.VectorType? {
        GapMonotone(off, sz', 4);
        ElemsWithin(t.elem, v.elems, 0, off + |Word(off, Length(v.elems))|, SizeAlign(sz', 4), fixed);
      } else {
        GapMonotone(off, sz', 4);
        TextImage(v);
      }
    }
  }

  lemma {:induction false} FieldsWithin(fs: Fields, vs: Vals, w: Option<Vals>, off: nat, sz: nat, fixed: bool)
    requires off <= sz && (w == Some(vs) || (w.None? && fixed)) && SizeFields(fs, w, sz, fixed) != 0
    ensures off + |EmitFields(fs, vs, off).bytes| <= SizeFields(fs, w, sz, fixed)
    decreases fs, 0
  {
    hide Size, EmitField;
    SizeFieldsGrow(fs, w, sz, fixed);
    if fs.Fields? && vs.Vals? {
      var sz' := Size(fs.t, Head(w), sz, fs.optional, fixed);
      FieldWithin(fs.t, vs.v, Head(w), off, sz, fs.optional, fixed);
      SizeFieldsGrow(fs.rest, Tail(w), sz', fixed);
      FieldsWithin(fs.rest, vs.rest, Tail(w), off + |EmitField(fs.t, fs.optional, vs.v, off).bytes|, sz', fixed);
    }
  }

  lemma {:induction false} ElemsWithin(t: Type, vs: Vals, i: nat, off: nat, sz: nat, fixed: bool)
    requires off <= sz && SizeElems(t, vs, sz, fixed) != 0
    ensures off + |EmitElems(t, vs, i, off).bytes| <= SizeElems(t, vs, sz, fixed)
    decreases t, 1, vs
  {
    hide Size, Emit, ElemHead, SizeAlign;
    if vs.Vals? {
      var head := SizeAlign(SizeAlign(sz, 4), 4);
      HeadWithin(i, vs.v.Some?, off, sz);
      var off' := off + |ElemHead(i, vs.v.Some?, off)|;
      var sz' := head;
      if vs.v.Some? {
        ValueWithin(t, vs.v.value, vs.v, off', head, false, fixed);
        sz' := Size(t, vs.v, head, false, fixed);
      }
      SizeElemsGrow(t, vs.rest, sz', fixed);
      ElemsWithin(t, vs.rest, i + 1, off + |EmitElem(t, vs.v, i, off).bytes|, sz', fixed);
    }
  }

  lemma HeadWithin(i: nat, present: bool, off: nat, sz: nat)
    requires off <= sz
    ensures off + |ElemHead(i, present, off)| <= SizeAlign(SizeAlign(sz, 4), 4)
  {
    hide Gap;
    GapMonotone(off, sz, 4);
    GapMonotone(off + |Word(off, i)|, SizeAlign(sz, 4), 4);
  }

  // ---- Exactly when there is a size ----

  /** No record type without fields. */
  predicate Solid(t: Type) {
    match t
    case RecordType(fs) => fs.Fields? && SolidFields(fs)
    case VectorType(e) => Solid(e)
    case _ => true
  }

  predicate SolidFields(fs: Fields) {
    fs.Fields? ==> Solid(fs.t) && SolidFields(fs.rest)
  }

  /** An absent value of this type can be given a size: no required string or vector inside. */
  predicate AbsentSized(t: Type, optional: bool, fixed: bool) {
    match t
    case StringType => optional && !fixed
    case VectorType(_) => optional && !fixed
    case RecordType(fs) => AbsentSizedFields(fs, fixed)
    case _ => true
  }

  predicate AbsentSizedFields(fs: Fields, fixed: bool) {
    fs.Fields? ==> AbsentSized(fs.t, fs.optional, fixed) && AbsentSizedFields(fs.rest, fixed)
  }

  /** No optional record is absent whose type has a required string or vector. */
  predicate Measured(t: Type, v: Val) {
    match v
    case RecordVal(vals) => t.RecordType? ==> MeasuredFields(t.fields, vals)
    case VectorVal(elems) => t.VectorType? ==> MeasuredElems(t.elem, elems)
    case _ => true
  }

  predicate MeasuredFields(fs: Fields, vs: Vals) {
    fs.Fields? && vs.Vals? ==>
      && (if vs.v.Some? then Measured(fs.t, vs.v.value) else AbsentSized(fs.t, fs.optional, false))
      && MeasuredFields(fs.rest, vs.rest)
  }

  predicate MeasuredElems(t: Type, vs: Vals) {
    vs.Vals? ==> (vs.v.Some? ==> Measured(t, vs.v.value)) && MeasuredElems(t, vs.rest)
  }

  lemma {:induction false} AbsentSize(t: Type, sz: nat, optional: bool, fixed: bool)
    requires Solid(t)
    ensures Size(t, None, sz, optional, fixed) != 0 <==> AbsentSized(t, optional, fixed)
    decreases t, 0
  {
    hide Gap;
    if t.RecordType? {
      AbsentFieldsSize(t.fields, if optional then sz + 1 else sz, fixed);
    }
  }

  lemma {:induction false} AbsentFieldsSize(fs: Fields, sz: nat, fixed: bool)
    requires SolidFields(fs) && (fs.Fields? || sz > 0)
    ensures SizeFields(fs, None, sz, fixed) != 0 <==> AbsentSizedFields(fs, fixed)
    decreases fs, 0
  {
    hide Size, AbsentSized;
    if fs.Fields? {
      AbsentSize(fs.t, sz, fs.optional, fixed);
      var sz' := Size(fs.t, None, sz, fs.optional, fixed);
      if sz' != 0 { AbsentFieldsSize(fs.rest, sz', fixed); }
    }
  }

  lemma {:induction false} ValueSize(t: Type, v: Val, sz: nat, optional: bool)
    requires Solid(t) && Typed(t, v)
    ensures Size(t, Some(v), sz, optional, false) != 0 <==> Measured(t, v)
    decreases t, 0
  {
    hide Gap, TypeTag, ValTag;
    var sz' := if optional then sz + 1 else sz;
    if t.RecordType? {
      FieldsSize(t.fields, v.vals, sz');
    } else if t.VectorType? {
      ElemsSize(t.elem, v.elems, SizeAlign(sz', 4));
    }
  }

  /** A well-typed list of values has a size exactly if it is measured. */
  lemma {:induction false} FieldsSize(fs: Fields, vs: Vals, sz: nat)
    requires SolidFields(fs) && TypedFields(fs, vs) && (fs.Fields? || sz > 0)
    ensures SizeFields(fs, Some(vs), sz, false) != 0 <==> MeasuredFields(fs, vs)
    decreases fs, 0
  {
    hide Size, Measured, AbsentSized, Typed;
    if fs.Fields? {
      if vs.v.Some? {
        ValueSize(fs.t, vs.v.value, sz, fs.optional);
      } else {
        AbsentSize(fs.t, sz, fs.optional, false);
      }
      var sz' := Size(fs.t, vs.v, sz, fs.optional, false);
      if sz' != 0 { FieldsSize(fs.rest, vs.rest, sz'); }
    }
  }

  lemma {:induction false} ElemsSize(t: Type, vs: Vals, sz: nat)
    requires Solid(t) && TypedElems(t, vs) && sz > 0
    ensures SizeElems(t, vs, sz, false) != 0 <==> MeasuredElems(t, vs)
    decreases t, 1, vs
  {
    hide Size, Measured, Gap, Typed, Solid;
    if vs.Vals? {
      var head := SizeAlign(SizeAlign(sz, 4), 4);
      if vs.v.Some? {
        ValueSize(t, vs.v.value, head, false);
      }
      var sz' := if vs.v.Some? then Size(t, vs.v, head, false, false) else head;
      if sz' != 0 { ElemsSize(t, vs.rest, sz'); }
    }
  }

  /** Where the types alone give a size, every list of values is measured. */
  lemma {:induction false} FixedIsMeasured(fs: Fields, vs: Vals)
    requires AbsentSizedFields(fs, true) && TypedFields(fs, vs)
    ensures MeasuredFields(fs, vs)
    decreases fs, 0
  {
    if fs.Fields? {
      if vs.v.Some? {
        if fs.t.RecordType? { FixedIsMeasured(fs.t.fields, vs.v.value.vals); }
      } else {
        FixedIsSized(fs.t, fs.optional);
      }
      FixedIsMeasured(fs.rest, vs.rest);
    }
  }

  lemma {:induction false} FixedIsSized(t: Type, optional: bool)
    requires AbsentSized(t, optional, true)
    ensures AbsentSized(t, optional, false)
    decreases t, 0
  {
    if t.RecordType? { FixedFieldsSized(t.fields); }
  }

  lemma {:induction false} FixedFieldsSized(fs: Fields)
    requires AbsentSizedFields(fs, true)
    ensures AbsentSizedFields(fs, false)
    decreases fs, 0
  {
    if fs.Fields? {
      FixedIsSized(fs.t, fs.optional);
      FixedFieldsSized(fs.rest);
    }
  }

  /** Anything but a record without fields takes up room. */
  lemma {:induction false} EmitNonempty(t: Type, v: Val, off: nat)
    requires Solid(t) && Typed(t, v)
    ensures Emit(t, v, off).bytes != []
    decreases t, 0
  {
    hide Gap, TypeTag, ValTag;
    if t.RecordType? {
      EmitFieldsNonempty(t.fields, v.vals, off);
    }
  }

  lemma {:induction false} EmitFieldsNonempty(fs: Fields, vs: Vals, off: nat)
    requires SolidFields(fs) && fs.Fields? && TypedFields(fs, vs)
    ensures EmitFields(fs, vs, off).bytes != []
    decreases fs, 0
  {
    hide Emit, Typed;
    if vs.v.Some? {
      EmitNonempty(fs.t, vs.v.value, off + |Marker(fs.optional, true)|);
    }
  }
}
