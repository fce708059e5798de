/**
 * The record the encoder reads and the decoder writes, in place of Go's
 * reflection: a type is a kind with its element or field types, and a
 * value mirrors its type. A struct field carries its `icl` tag text.
 */
module Records {
  import opened Wrappers
  import Numbers

  /** The integer widths of Go's sized kinds; Int and Uint are 64 bits wide. */
  datatype Width = W8 | W16 | W32 | W64

  function Bits(w: Width): (n: nat)
    ensures n >= 8
  {
    match w
    case W8 => 8
    case W16 => 16
    case W32 => 32
    case W64 => 64
  }

  datatype Type =
    | StringT
    | BoolT
    | IntT(width: Width)
    | UintT(width: Width)
    | FloatT(bits: nat)
    | PointerT(elem: Type)
    | SliceT(elem: Type)
    | MapT(elem: Type)
    | StructT(fields: seq<Field>)
      /** Any kind the engine has no case for (interface, array, chan, func, ...). */
    | OtherT

  /** A struct field: its `icl` tag text ("" when absent) and its type. */
  datatype Field = Field(tag: string, typ: Type)

  datatype Value =
    | StrV(s: string)
    | BoolV(b: bool)
    | IntV(i: int)
    | UintV(u: nat)
    | FloatV(x: real)
    | PtrV(pointee: Option<Value>)
      /** A nil slice is not the same as an empty one: only the first is zero. */
    | SliceV(elems: seq<Value>, nonNil: bool)
      /** Map entries in one iteration order. */
    | MapV(entries: seq<(string, Value)>, nonNil: bool)
    | StructV(fields: seq<Value>)
    | OtherV(isZero: bool)

  /** The primitive kinds: the ones assignPrimitiveNode and buildPrimitiveNode handle. */
  predicate IsPrimitive(t: Type) {
    t.StringT? || t.BoolT? || t.IntT? || t.UintT? || t.FloatT?
  }

  /** Signed range of a width. */
  predicate IntFits(i: int, w: Width) {
    -Numbers.Pow2(Bits(w) - 1) <= i < Numbers.Pow2(Bits(w) - 1)
  }

  /** A value of type t, with every integer inside its width. */
  predicate HasType(v: Value, t: Type)
    decreases v
  {
    match v
    case StrV(_) => t.StringT?
    case BoolV(_) => t.BoolT?
    case IntV(i) => t.IntT? && IntFits(i, t.width)
    case UintV(u) => t.UintT? && u < Numbers.Pow2(Bits(t.width))
    case FloatV(_) => t.FloatT?
    case PtrV(p) => t.PointerT? && (p.Some? ==> HasType(p.value, t.elem))
    case SliceV(es, nonNil) =>
      && t.SliceT? && (es != [] ==> nonNil)
      && forall k :: 0 <= k < |es| ==> HasType(es[k], t.elem)
    case MapV(es, nonNil) =>
      && t.MapT? && (es != [] ==> nonNil)
      && forall k :: 0 <= k < |es| ==> HasType(es[k].1, t.elem)
    case StructV(vs) =>
      && t.StructT? && |vs| == |t.fields|
      && forall k :: 0 <= k < |vs| ==> HasType(vs[k], t.fields[k].typ)
    case OtherV(_) => t.OtherT?
  }

  /** reflect.Zero: the zero value of a type. */
  function Zero(t: Type): (v: Value)
    ensures HasType(v, t)
    ensures IsZero(v)
  {
    match t
    case StringT => StrV("")
    case BoolT => BoolV(false)
    case IntT(_) => IntV(0)
    case UintT(_) => UintV(0)
    case FloatT(_) => FloatV(0.0)
    case PointerT(_) => PtrV(None)
    case SliceT(_) => SliceV([], false)
    case MapT(_) => MapV([], false)
    case StructT(fs) => StructV(ZeroFields(fs))
    case OtherT => OtherV(true)
  }

  function ZeroFields(fs: seq<Field>): (vs: seq<Value>)
    ensures |vs| == |fs|
    ensures forall k :: 0 <= k < |fs| ==> HasType(vs[k], fs[k].typ) && IsZero(vs[k])
  {
    if fs == [] then [] else [Zero(fs[0].typ)] + ZeroFields(fs[1..])
  }

  /** reflect.Value.IsZero. */
  predicate IsZero(v: Value)
    decreases v
  {
    match v
    case StrV(s) => s == ""
    case BoolV(b) => !b
    case IntV(i) => i == 0
    case UintV(u) => u == 0
    case FloatV(x) => x == 0.0
    case PtrV(p) => p.None?
    case SliceV(_, nonNil) => !nonNil
    case MapV(_, nonNil) => !nonNil
    case StructV(vs) => forall k :: 0 <= k < |vs| ==> IsZero(vs[k])
    case OtherV(z) => z
  }
}
