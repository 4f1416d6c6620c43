/** Reading the values back out of a composite key. */
module CompRecover {
  import opened Bytes
  import opened CompTypes
  import opened CompSpec

  /** What was read and where reading goes on. */
  datatype Read<T> = Read(v: T, off: nat)

  /** A piece of the key after alignment; `None` where the source would leave the key. */
  function Piece(key: seq<byte>, off: nat, unit: nat, n: nat): (r: Option<Read<seq<byte>>>)
    requires unit == 4 || unit == 8
    ensures r.Some? ==> |r.value.v| == n
  {
    var at := off + Gap(off, unit);
    if at + n > |key| then None else Some(Read(key[at..at + n], at + n))
  }

  function WordAt(key: seq<byte>, off: nat): (r: Option<Read<nat>>)
    ensures r.Some? ==> r.value.v < TWO_TO_THE_32
  {
    var p := Piece(key, off, 4, 4);
    if p.None? then None
    else
      FromLittleEndianBound(p.value.v);
      Pow256Words();
      Some(Read(FromLittleEndian(p.value.v), p.value.off))
  }

  /** `Assign` to a vector, which grows as needed. */
  function Assign(vs: Vals, i: nat, v: Option<Val>): Vals {
    if i == 0 then Vals(v, if vs.Nil? then Nil else vs.rest)
    else if vs.Nil? then Vals(None, Assign(Nil, i - 1, v))
    else Vals(vs.v, Assign(vs.rest, i - 1, v))
  }

  /** `RecoverOneVal` after the marker. */
  function Recover(t: Type, key: seq<byte>, off: nat): Option<Read<Val>>
    decreases t, 0
  {
    match t
    case RecordType(fs) =>
      (match RecoverFields(fs, key, off)
       case None => None
       case Some(r) => Some(Read(RecordVal(r.v), r.off)))
    case VectorType(e) =>
      (match WordAt(key, off)
       case None => None
       case Some(n) =>
         match RecoverElems(e, key, n.off, n.v, Nil)
         case None => None
         case Some(r) => Some(Read(VectorVal(r.v), r.off)))
    case StringType =>
      (match WordAt(key, off)
       case None => None
       case Some(n) =>
         if n.v >= TWO_TO_THE_31 || n.off + n.v > |key| then None
         else Some(Read(StringVal(key[n.off..n.off + n.v]), n.off + n.v)))
    case _ =>
      match Piece(key, off, Unit(t), FixedWidth(t))
      case None => None
      case Some(p) => Some(Read(FromImage(t, p.v), p.off))
  }

  /** `RecoverOneVal`: nothing may be left to read only where nothing was written. */
  function RecoverField(t: Type, optional: bool, key: seq<byte>, off: nat): Option<Read<Option<Val>>>
    decreases t, 1
  {
    if off >= |key| then None
    else if optional && key[off] == 0 then Some(Read(None, off + 1))
    else
      match Recover(t, key, if optional then off + 1 else off)
      case None => None
      case Some(r) => Some(Read(Some(r.v), r.off))
  }

  function RecoverFields(fs: Fields, key: seq<byte>, off: nat): Option<Read<Vals>>
    decreases fs, 0
  {
    if fs.NoFields? then Some(Read(Nil, off))
    else
      match RecoverField(fs.t, fs.optional, key, off)
      case None => None
      case Some(r) =>
        match RecoverFields(fs.rest, key, r.off)
        case None => None
        case Some(rs) => Some(Read(Vals(r.v, rs.v), rs.off))
  }

  /** The `n` elements that are left, assigned to what there is. */
  function RecoverElems(t: Type, key: seq<byte>, off: nat, n: nat, vs: Vals): Option<Read<Vals>>
    decreases t, 2, n
  {
    if n == 0 then Some(Read(vs, off))
    else
      match RecoverElem(t, key, off)
      case None => None
      case Some(r) => RecoverElems(t, key, r.off, n - 1, Assign(vs, r.v.0, r.v.1))
  }

  function RecoverElem(t: Type, key: seq<byte>, off: nat): Option<Read<(nat, Option<Val>)>>
    decreases t, 1, 0
  {
    match WordAt(key, off)
    case None => None
    case Some(index) =>
      match WordAt(key, index.off)
      case None => None
      case Some(have) =>
        if have.v == 0 then Some(Read((index.v, None), have.off))
        else if have.off >= |key| then None
        else
          match Recover(t, key, have.off)
          case None => None
          case Some(r) => Some(Read((index.v, Some(r.v)), r.off))
  }

  // ---- Reading back what was written ----

  predicate At(key: seq<byte>, off: nat, bytes: seq<byte>) {
    off + |bytes| <= |key| && key[off..off + |bytes|] == bytes
  }

  lemma AtSplit(key: seq<byte>, off: nat, a: seq<byte>, b: seq<byte>)
    requires At(key, off, a + b)
    ensures At(key, off, a) && At(key, off + |a|, b)
  {
    var s := key[off..off + |a + b|];
    assert s[..|a|] == a && s[|a|..] == b;
    assert key[off..off + |a|] == s[..|a|];
    assert key[off + |a|..off + |a| + |b|] == s[|a|..];
  }

  lemma PieceAt(key: seq<byte>, off: nat, unit: nat, piece: seq<byte>)
    requires (unit == 4 || unit == 8) && At(key, off, Aligned(off, unit, piece))
    ensures Piece(key, off, unit, |piece|) == Some(Read(piece, off + |Aligned(off, unit, piece)|))
  {
    hide Gap;
    AtSplit(key, off, Zeros(Gap(off, unit)), piece);
  }

  lemma WordReadBack(key: seq<byte>, off: nat, x: nat)
    requires x < TWO_TO_THE_32 && At(key, off, Word(off, x))
    ensures WordAt(key, off) == Some(Read(x, off + |Word(off, x)|))
  {
    hide Gap, At;
    PieceAt(key, off, 4, LittleEndian(4, x));
    Pow256Words();
    LittleEndianRoundTrip(4, x);
  }

  lemma TextReadBack(key: seq<byte>, off: nat, s: Text)
    requires At(key, off, Aligned(off, 4, Image(StringVal(s))))
    ensures Recover(StringType, key, off) == Some(Read(StringVal(s), off + |Aligned(off, 4, Image(StringVal(s)))|))
  {
    hide Gap, At, Word, Aligned, LittleEndian, WordAt;
    TextIs(off, s);
    AtSplit(key, off, Word(off, |s|), s);
    WordReadBack(key, off, |s|);
    AtIs(key, off + |Word(off, |s|)|, s);
  }

  lemma TextIs(off: nat, s: Text)
    ensures Aligned(off, 4, Image(StringVal(s))) == Word(off, |s|) + s
  {
    hide Gap, LittleEndian;
    AppendAssoc(Zeros(Gap(off, 4)), LittleEndian(4, |s|), s);
  }

  lemma AtIs(key: seq<byte>, off: nat, bytes: seq<byte>)
    requires At(key, off, bytes)
    ensures off + |bytes| <= |key| && key[off..off + |bytes|] == bytes
  {
  }

  lemma TypedInside(t: Type, v: Val)
    requires Solid(t) && Typed(t, v)
    ensures t.RecordType? ==> v.RecordVal? && SolidFields(t.fields) && TypedFields(t.fields, v.vals)
    ensures t.VectorType? ==>
      v.VectorVal? && Solid(t.elem) && TypedElems(t.elem, v.elems) && Length(v.elems) < TWO_TO_THE_32
  {
    hide SolidFields, TypedFields, TypedElems, Length;
  }

  /** Where the key holds what was written for a value, that value is read. */
  lemma {:induction false} ValueReadBack(t: Type, v: Val, key: seq<byte>, off: nat)
    requires Solid(t) && Typed(t, v) && At(key, off, Emit(t, v, off).bytes)
    ensures Recover(t, key, off) == Some(Read(v, off + |Emit(t, v, off).bytes|))
    decreases t, 0
  {
    hide Gap, At, Word, Piece, WordAt, Image, FromImage, RecoverFields, RecoverElems, EmitFields, EmitElems, Aligned;
    hide Solid, TypedFields, TypedElems;
    TypedInside(t, v);
    if t.RecordType? {
      FieldsReadBack(t.fields, v.vals, key, off);
    } else if t.VectorType? {
      var n := Length(v.elems);
      AtSplit(key, off, Word(off, n), EmitElems(t.elem, v.elems, 0, off + |Word(off, n)|).bytes);
      WordReadBack(key, off, n);
      ElemsReadBack(t.elem, v.elems, 0, Nil, key, off + |Word(off, n)|);
    } else if t.StringType? {
      TextReadBack(key, off, v.s);
    } else {
      ImageRoundTrip(t, v);
      PieceAt(key, off, Unit(t), Image(v));
    }
  }

  lemma {:induction false} FieldsReadBack(fs: Fields, vs: Vals, key: seq<byte>, off: nat)
    requires SolidFields(fs) && TypedFields(fs, vs) && At(key, off, EmitFields(fs, vs, off).bytes)
    ensures RecoverFields(fs, key, off) == Some(Read(vs, off + |EmitFields(fs, vs, off).bytes|))
    decreases fs, 0
  {
    hide At, Emit, Recover, Typed, Solid;
    if fs.Fields? {
      var e := EmitField(fs.t, fs.optional, vs.v, off);
      var off' := off + |e.bytes|;
      FieldOk(fs.t, fs.optional, vs.v, off);
      AtSplit(key, off, e.bytes, EmitFields(fs.rest, vs.rest, off').bytes);
      FieldReadBack(fs.t, fs.optional, vs.v, key, off);
      hide RecoverField, EmitField;
      FieldsReadBack(fs.rest, vs.rest, key, off');
    }
  }

  lemma FieldOk(t: Type, optional: bool, v: Option<Val>, off: nat)
    requires if v.Some? then Typed(t, v.value) else optional
    ensures EmitField(t, optional, v, off).ok
  {
    if v.Some? {
      TypedFits(t, v.value);
      EmitOk(t, v.value, off + |Marker(optional, true)|);
    }
  }

  lemma {:induction false} FieldReadBack(t: Type, optional: bool, v: Option<Val>, key: seq<byte>, off: nat)
    requires Solid(t) && (if v.Some? then Typed(t, v.value) else optional)
    requires At(key, off, EmitField(t, optional, v, off).bytes)
    ensures RecoverField(t, optional, key, off) == Some(Read(v, off + |EmitField(t, optional, v, off).bytes|))
    decreases t, 1
  {
    hide Emit, Recover, Typed, Solid;
    if v.Some? {
      var m := Marker(optional, true);
      EmitNonempty(t, v.value, off + |m|);
      AtSplit(key, off, m, Emit(t, v.value, off + |m|).bytes);
      ValueReadBack(t, v.value, key, off + |m|);
    }
  }

  function Concat(vs: Vals, ws: Vals): Vals {
    if vs.Nil? then ws else Vals(vs.v, Concat(vs.rest, ws))
  }

  lemma {:induction false} AssignAtEnd(vs: Vals, v: Option<Val>, ws: Vals)
    ensures Length(Assign(vs, Length(vs), v)) == Length(vs) + 1
    ensures Concat(Assign(vs, Length(vs), v), ws) == Concat(vs, Vals(v, ws))
    decreases vs
  {
    if vs.Vals? {
      AssignAtEnd(vs.rest, v, ws);
    }
  }

  lemma {:induction false} ConcatNil(vs: Vals)
    ensures Concat(vs, Nil) == vs
    decreases vs
  {
    if vs.Vals? { ConcatNil(vs.rest); }
  }

  lemma {:induction false} ElemsReadBack(t: Type, vs: Vals, i: nat, done: Vals, key: seq<byte>, off: nat)
    requires Solid(t) && TypedElems(t, vs) && i + Length(vs) < TWO_TO_THE_32 && Length(done) == i
    requires At(key, off, EmitElems(t, vs, i, off).bytes)
    ensures RecoverElems(t, key, off, Length(vs), done) ==
      Some(Read(Concat(done, vs), off + |EmitElems(t, vs, i, off).bytes|))
    decreases t, 2, vs
  {
    hide At, Emit, Typed, Solid, RecoverElem, EmitElem, Assign, Concat;
    if vs.Nil? {
      ConcatNil(done);
    } else {
      NextElem(t, vs);
      hide EmitElems, RecoverElems, TypedElems, Length;
      FirstReadBack(t, vs, i, done, key, off);
      AssignAtEnd(done, vs.v, vs.rest);
      ElemsReadBack(t, vs.rest, i + 1, Assign(done, i, vs.v), key, off + |EmitElem(t, vs.v, i, off).bytes|);
    }
  }

  /** The first element is read, and what is left is the rest, behind it. */
  lemma {:induction false} FirstReadBack(t: Type, vs: Vals, i: nat, done: Vals, key: seq<byte>, off: nat)
    requires Solid(t) && vs.Vals? && (vs.v.Some? ==> Typed(t, vs.v.value)) && i < TWO_TO_THE_32
    requires At(key, off, EmitElems(t, vs, i, off).bytes)
    ensures var off' := off + |EmitElem(t, vs.v, i, off).bytes|;
      var rest := EmitElems(t, vs.rest, i + 1, off').bytes;
      && At(key, off', rest) && off + |EmitElems(t, vs, i, off).bytes| == off' + |rest|
      && RecoverElems(t, key, off, 1 + Length(vs.rest), done) ==
         RecoverElems(t, key, off', Length(vs.rest), Assign(done, i, vs.v))
    decreases t, 2, vs, 0
  {
    hide At, Emit, Typed, Solid, RecoverElem, EmitElem, Assign, EmitElems, RecoverElems, Length;
    var e := EmitElem(t, vs.v, i, off);
    ElemOk(t, vs.v, i, off);
    FirstElem(t, vs, i, off);
    AtSplit(key, off, e.bytes, EmitElems(t, vs.rest, i + 1, off + |e.bytes|).bytes);
    ElemReadBack(t, vs.v, i, key, off);
    RecoverFirst(t, key, off, 1 + Length(vs.rest), done);
  }

  lemma NextElem(t: Type, vs: Vals)
    requires vs.Vals? && TypedElems(t, vs)
    ensures TypedElems(t, vs.rest) && (vs.v.Some? ==> Typed(t, vs.v.value))
    ensures Length(vs) == 1 + Length(vs.rest) && vs == Vals(vs.v, vs.rest)
  {
    hide Typed;
  }

  lemma FirstElem(t: Type, vs: Vals, i: nat, off: nat)
    requires vs.Vals? && EmitElem(t, vs.v, i, off).ok
    ensures var e := EmitElem(t, vs.v, i, off);
      EmitElems(t, vs, i, off).bytes == e.bytes + EmitElems(t, vs.rest, i + 1, off + |e.bytes|).bytes
  {
    hide EmitElem;
  }

  lemma RecoverFirst(t: Type, key: seq<byte>, off: nat, n: nat, done: Vals)
    requires n > 0
    ensures var r := RecoverElem(t, key, off);
      r.Some? ==>
        RecoverElems(t, key, off, n, done) ==
        RecoverElems(t, key, r.value.off, n - 1, Assign(done, r.value.v.0, r.value.v.1))
  {
    hide RecoverElem, Assign;
  }

  lemma ElemOk(t: Type, v: Option<Val>, i: nat, off: nat)
    requires v.Some? ==> Typed(t, v.value)
    ensures EmitElem(t, v, i, off).ok
  {
    if v.Some? {
      TypedFits(t, v.value);
      EmitOk(t, v.value, off + |ElemHead(i, true, off)|);
    }
  }

  lemma {:induction false} ElemReadBack(t: Type, v: Option<Val>, i: nat, key: seq<byte>, off: nat)
    requires Solid(t) && (v.Some? ==> Typed(t, v.value)) && i < TWO_TO_THE_32
    requires At(key, off, EmitElem(t, v, i, off).bytes)
    ensures RecoverElem(t, key, off) == Some(Read((i, v), off + |EmitElem(t, v, i, off).bytes|))
    decreases t, 1
  {
    hide Emit, Recover, Typed, Solid, Word, WordAt;
    var head := ElemHead(i, v.Some?, off);
    var index, have := Word(off, i), if v.Some? then 1 else 0;
    if v.Some? {
      EmitNonempty(t, v.value, off + |head|);
      AtSplit(key, off, head, Emit(t, v.value, off + |head|).bytes);
      ValueReadBack(t, v.value, key, off + |head|);
    }
    AtSplit(key, off, index, Word(off + |index|, have));
    WordReadBack(key, off, i);
    WordReadBack(key, off + |index|, have);
  }

  // ---- Well-typed values fit ----

  lemma {:induction false} TypedFits(t: Type, v: Val)
    requires Typed(t, v)
    ensures Fits(t, v)
    decreases v
  {
    if v.RecordVal? {
      TypedFieldsFit(t.fields, v.vals);
    } else if v.VectorVal? {
      TypedElemsFit(t.elem, v.elems);
    }
  }

  lemma {:induction false} TypedFieldsFit(fs: Fields, vs: Vals)
    requires TypedFields(fs, vs)
    ensures FitFields(fs, vs)
    decreases vs
  {
    if fs.Fields? {
      if vs.v.Some? { TypedFits(fs.t, vs.v.value); }
      TypedFieldsFit(fs.rest, vs.rest);
    }
  }

  lemma {:induction false} TypedElemsFit(t: Type, vs: Vals)
    requires TypedElems(t, vs)
    ensures FitElems(t, vs)
    decreases vs
  {
    if vs.Vals? {
      if vs.v.Some? { TypedFits(t, vs.v.value); }
      TypedElemsFit(t, vs.rest);
    }
  }

  // ---- Whole keys ----

  /** The key of a list of values, or what there is of it. */
  function Key(types: Fields, vs: Vals): seq<byte> {
    EmitFields(types, vs, 0).bytes
  }

  /** `RecoverVals`: the values, if they take up the whole key. */
  function RecoverVals(types: Fields, key: seq<byte>): Option<Vals> {
    match RecoverFields(types, key, 0)
    case None => None
    case Some(r) => if r.off == |key| then Some(r.v) else None
  }

  /** The values of a key are the values it was made from. */
  lemma KeyRecovers(types: Fields, vs: Vals)
    requires SolidFields(types) && TypedFields(types, vs)
    ensures RecoverVals(types, Key(types, vs)) == Some(vs)
  {
    hide EmitFields, RecoverFields;
    FieldsReadBack(types, vs, Key(types, vs), 0);
  }

  /** Two lists of values have the same key exactly if they are the same. */
  lemma KeysIdentify(types: Fields, vs: Vals, ws: Vals)
    requires SolidFields(types) && TypedFields(types, vs) && TypedFields(types, ws)
    ensures Key(types, vs) == Key(types, ws) <==> vs == ws
  {
    hide Key, RecoverVals;
    KeyRecovers(types, vs);
    KeyRecovers(types, ws);
  }

  // ---- A single value that is not a record ----

  /** `ComputeSingletonHash`: the bare value, a string without its length. */
  function SingletonKey(t: Type, v: Val): Option<seq<byte>>
    requires FlatType(t) && Fits(t, v)
  {
    if TypeTag(t) != ValTag(v) then None
    else if v.StringVal? then Some(v.s)
    else Some(Image(v))
  }

  function RecoverSingleton(t: Type, key: seq<byte>): Option<Val>
    requires FlatType(t)
  {
    if t.StringType? then if |key| < TWO_TO_THE_31 then Some(StringVal(key)) else None
    else if |key| == FixedWidth(t) then Some(FromImage(t, key))
    else None
  }

  lemma SingletonRecovers(t: Type, v: Val)
    requires FlatType(t) && Fits(t, v)
    ensures SingletonKey(t, v).Some? <==> TypeTag(t) == ValTag(v)
    ensures SingletonKey(t, v).Some? ==> RecoverSingleton(t, SingletonKey(t, v).value) == Some(v)
  {
    if TypeTag(t) == ValTag(v) && !v.StringVal? {
      ImageRoundTrip(t, v);
    }
  }
}
