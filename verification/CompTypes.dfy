/** Index types and values of composite hash keys, and how single words look in memory. */
module CompTypes {
  import opened Bytes

  const TWO_TO_THE_31: nat := 0x8000_0000
  const TWO_TO_THE_63: int := 0x8000_0000_0000_0000

  type Int64 = x: int | -TWO_TO_THE_63 <= x < TWO_TO_THE_63
  type Word64 = x: int | 0 <= x < TWO_TO_THE_64
  type Word32 = x: int | 0 <= x < TWO_TO_THE_32
  type Text = s: seq<byte> | |s| < TWO_TO_THE_31

  /** `InternalTypeTag`. */
  datatype Tag = TInt | TUnsigned | TDouble | TAddr | TString | TOther

  /** An index type.  The fields of a record are a list, and so is a type list, whose members
      are never optional. */
  datatype Type =
    | IntType | CountType | DoubleType | AddrType | FuncType | StringType
    | VectorType(elem: Type)
    | RecordType(fields: Fields)
  datatype Fields = NoFields | Fields(t: Type, optional: bool, rest: Fields)

  /** A value; a double is its bit pattern, a function its unique number. */
  datatype Val =
    | IntVal(i: Int64) | CountVal(c: Word64) | DoubleVal(bits: Word64)
    | AddrVal(a: Quad) | FuncVal(id: Word32) | StringVal(s: Text)
    | VectorVal(elems: Vals)
    | RecordVal(vals: Vals)
  datatype Vals = Nil | Vals(v: Option<Val>, rest: Vals)

  function TypeTag(t: Type): Tag {
    match t
    case IntType => TInt
    case CountType => TUnsigned
    case DoubleType => TDouble
    case AddrType => TAddr
    case StringType => TString
    case FuncType => TOther
    case VectorType(_) => TOther
    case RecordType(_) => TOther
  }

  function ValTag(v: Val): Tag {
    match v
    case IntVal(_) => TInt
    case CountVal(_) => TUnsigned
    case DoubleVal(_) => TDouble
    case AddrVal(_) => TAddr
    case StringVal(_) => TString
    case FuncVal(_) => TOther
    case VectorVal(_) => TOther
    case RecordVal(_) => TOther
  }

  function Length(vs: Vals): nat {
    if vs.Nil? then 0 else 1 + Length(vs.rest)
  }

  // ---- Words in memory ----

  function LittleEndian(k: nat, x: nat): (s: seq<byte>)
    ensures |s| == k
  {
    if k == 0 then [] else [x % 256] + LittleEndian(k - 1, x / 256)
  }

  function FromLittleEndian(s: seq<byte>): nat {
    if s == [] then 0 else s[0] as int + 256 * FromLittleEndian(s[1..])
  }

  lemma {:induction false} LittleEndianRoundTrip(k: nat, x: nat)
    requires x < Pow256(k)
    ensures FromLittleEndian(LittleEndian(k, x)) == x
  {
    if k != 0 {
      assert LittleEndian(k, x)[1..] == LittleEndian(k - 1, x / 256);
      LittleEndianRoundTrip(k - 1, x / 256);
    }
  }

  lemma {:induction false} FromLittleEndianBound(s: seq<byte>)
    ensures FromLittleEndian(s) < Pow256(|s|)
  {
    if s != [] {
      FromLittleEndianBound(s[1..]);
    }
  }

  // ---- Values that are one piece of memory ----

  predicate Flat(v: Val) {
    !v.VectorVal? && !v.RecordVal?
  }

  predicate FixedSize(t: Type) {
    t.IntType? || t.CountType? || t.DoubleType? || t.AddrType? || t.FuncType?
  }

  predicate FlatType(t: Type) {
    FixedSize(t) || t.StringType?
  }

  /** `sizeof` the type a flat value is aligned to. */
  function Unit(t: Type): nat {
    if t.IntType? || t.CountType? || t.DoubleType? then 8 else 4
  }

  function FixedWidth(t: Type): nat {
    if t.AddrType? then 16 else Unit(t)
  }

  /** What is stored for a flat value. */
  function Image(v: Val): (s: seq<byte>)
    requires Flat(v)
  {
    match v
    case IntVal(i) => LittleEndian(8, if i < 0 then i + TWO_TO_THE_64 else i)
    case CountVal(c) => LittleEndian(8, c)
    case DoubleVal(bits) => LittleEndian(8, bits)
    case AddrVal(a) => a
    case FuncVal(id) => LittleEndian(4, id)
    case StringVal(s) => LittleEndian(4, |s|) + s
  }

  /** What is read back from the memory of a value of fixed size. */
  function FromImage(t: Type, s: seq<byte>): Val
    requires FixedSize(t) && |s| == FixedWidth(t)
  {
    FromLittleEndianBound(s);
    Pow256Words();
    var x := FromLittleEndian(s);
    match t
    case IntType => IntVal(if x < TWO_TO_THE_63 then x else x - TWO_TO_THE_64)
    case CountType => CountVal(x)
    case DoubleType => DoubleVal(x)
    case AddrType => AddrVal(s)
    case FuncType => FuncVal(x)
  }

  predicate SameKind(t: Type, v: Val) {
    && (t.IntType? <==> v.IntVal?) && (t.CountType? <==> v.CountVal?) && (t.DoubleType? <==> v.DoubleVal?)
    && (t.AddrType? <==> v.AddrVal?) && (t.FuncType? <==> v.FuncVal?) && (t.StringType? <==> v.StringVal?)
    && (t.VectorType? <==> v.VectorVal?) && (t.RecordType? <==> v.RecordVal?)
  }

  lemma ImageRoundTrip(t: Type, v: Val)
    requires FixedSize(t) && SameKind(t, v)
    ensures |Image(v)| == FixedWidth(t) && FromImage(t, Image(v)) == v
  {
    Pow256Words();
    match v
    case IntVal(i) => LittleEndianRoundTrip(8, if i < 0 then i + TWO_TO_THE_64 else i);
    case CountVal(c) => LittleEndianRoundTrip(8, c);
    case DoubleVal(bits) => LittleEndianRoundTrip(8, bits);
    case AddrVal(a) =>
    case FuncVal(id) => LittleEndianRoundTrip(4, id);
  }
}
