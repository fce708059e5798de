/**
 * The decoder of decoder.go: it walks an Ast and writes what it finds into
 * a record, field by field, using the `icl` tags to find the fields.
 *
 * Go writes through reflect.Value handles in place; here every operation
 * takes the value it would write into and returns the value it leaves
 * behind, and the caller stores that value back where the handle pointed.
 * The `Decoder` object keeps the state the source keeps on `*Decoder`:
 * the shared parameter counter, the set of block names already seen per
 * field, and (in place of fresh addresses) a counter naming the slice
 * elements it creates.
 */
module Decoding {
  import opened Wrappers
  import opened Tokens
  import opened Syntax
  import opened Records
  import StructTags
  import Numbers

  datatype DecodeError =
    /** "invalid icl key" from a field's tag. */
    | InvalidKey(key: string)
    /** "invalid type": a literal node of the wrong kind for the field. */
    | InvalidType(kind: Type)
    /** A strconv error: the text is not a number of the field's width. */
    | BadNumber(text: string)
    /** "node is not a slice". */
    | NotASlice
    /** "node is not a map". */
    | NotAMap
    /** "unknown": a kind assign has no case for. */
    | UnknownKind
    /** ".param fields must be a string". */
    | ParamNotString
    /** "multiple ... blocks found for field that is not a slice". */
    | MultipleBlocks(literal: string)
    /** A Go panic: a nil node, a field lookup on a non-struct, a bad tag slice bound. */
    | Panic

  /** How parseTags failing reads to the decoder: an out-of-range slice bound panics. */
  function TagFailure(e: StructTags.TagError): DecodeError {
    match e
    case InvalidKey(k) => InvalidKey(k)
    case OutOfRange => Panic
  }

  // ---------------------------------------------------------------------
  // parseIntKind, parseUintKind

  /** parseIntKind: base-10 text within the signed range of the width. */
  function ParseIntKind(s: string, w: Width): (r: Result<int, DecodeError>)
    ensures r.Success? ==> IntFits(r.value, w)
    ensures r.Failure? ==> r.error == BadNumber(s)
  {
    match Numbers.ParseInt(s, Bits(w))
    case None => Failure(BadNumber(s))
    case Some(i) => Success(i)
  }

  /** parseUintKind: unsigned base-10 text below 2 to the width. */
  function ParseUintKind(s: string, w: Width): (r: Result<nat, DecodeError>)
    ensures r.Success? ==> r.value < Numbers.Pow2(Bits(w))
    ensures |s| > 0 && (s[0] == '-' || s[0] == '+') ==> r == Failure(BadNumber(s))
    ensures r.Failure? ==> r.error == BadNumber(s)
  {
    match Numbers.ParseUint(s, Bits(w))
    case None => Failure(BadNumber(s))
    case Some(n) => Success(n)
  }

  /** An integer's base-10 text parses back exactly when it fits the width. */
  lemma {:induction false} ParseIntKindFormat(i: int, w: Width)
    ensures ParseIntKind(Numbers.FormatInt(i), w) ==
              (if IntFits(i, w) then Success(i) else Failure(BadNumber(Numbers.FormatInt(i))))
  {
    Numbers.ParseFormatInt(i, Bits(w));
  }

  /** The unsigned counterpart. */
  lemma {:induction false} ParseUintKindFormat(n: nat, w: Width)
    ensures ParseUintKind(Numbers.FormatUint(n), w) ==
              (if n < Numbers.Pow2(Bits(w)) then Success(n) else Failure(BadNumber(Numbers.FormatUint(n))))
  {
    Numbers.ParseFormatUint(n, Bits(w));
  }

  // ---------------------------------------------------------------------
  // assignPrimitiveNode

  /** The type assignPrimitiveNode writes: the kind itself, or a slice of it. */
  function Target(t: Type, isSlice: bool): Type {
    if isSlice then SliceT(t) else t
  }

  /** Store x: append it to the slice, or replace the value. */
  function Put(cur: Value, x: Value, isSlice: bool): Value
    requires isSlice ==> cur.SliceV?
  {
    if isSlice then SliceV(cur.elems + [x], true) else x
  }

  /** The `env(NAME)` case of assignPrimitiveNode: the variable's text, read as the kind t. */
  function AssignEnv(val: string, cur: Value, t: Type, isSlice: bool, parseFloat: (string, nat) -> Option<real>)
    : (r: Result<Value, DecodeError>)
    ensures r.Success? && HasType(cur, Target(t, isSlice)) ==> HasType(r.value, Target(t, isSlice))
    ensures r.Success? && isSlice ==> r.value == cur
    ensures r.Success? && isSlice ==> !(t.StringT? || t.BoolT? || t.IntT? || t.UintT? || t.FloatT?)
    ensures isSlice && (t.StringT? || t.BoolT?) ==> r == Failure(Panic)
    ensures !(t.StringT? || t.BoolT? || t.IntT? || t.UintT? || t.FloatT?) ==> r == Success(cur)
    ensures t.StringT? && !isSlice ==> r == Success(StrV(val))
    ensures t.BoolT? && !isSlice ==> r == Success(BoolV(val == "true"))
  {
    match t
    case StringT => if isSlice then Failure(Panic) else Success(StrV(val))
    case BoolT => if isSlice then Failure(Panic) else Success(BoolV(val == "true"))
    case IntT(w) =>
      (match ParseIntKind(val, w)
       case Failure(e) => Failure(e)
       case Success(i) => if isSlice then Failure(Panic) else Success(IntV(i)))
    case UintT(w) =>
      (match ParseUintKind(val, w)
       case Failure(e) => Failure(e)
       case Success(u) => if isSlice then Failure(Panic) else Success(UintV(u)))
    case FloatT(bits) =>
      (match parseFloat(val, bits)
       case None => Failure(BadNumber(val))
       case Some(x) => if isSlice then Failure(Panic) else Success(FloatV(x)))
    case _ => Success(cur)
  }

  /** The NumberNode case of assignPrimitiveNode: the text read as the numeric kind t. */
  function AssignNumber(text: string, cur: Value, t: Type, isSlice: bool, parseFloat: (string, nat) -> Option<real>)
    : (r: Result<Value, DecodeError>)
    requires isSlice ==> cur.SliceV?
    ensures r.Success? && HasType(cur, Target(t, isSlice)) ==> HasType(r.value, Target(t, isSlice))
    ensures r.Success? ==> t.IntT? || t.UintT? || t.FloatT?
    ensures r.Success? && isSlice ==> r.value.SliceV? && r.value.nonNil && cur.elems <= r.value.elems && |r.value.elems| == |cur.elems| + 1
    ensures !(t.IntT? || t.UintT? || t.FloatT?) ==> r == Failure(InvalidType(t))
    ensures t.FloatT? ==> (parseFloat(text, t.bits).None? <==> r == Failure(BadNumber(text)))
    ensures t.FloatT? && parseFloat(text, t.bits).Some? ==>
              r == if isSlice && t.bits != 64 then Failure(Panic) else Success(Put(cur, FloatV(parseFloat(text, t.bits).value), isSlice))
  {
    match t
    case IntT(w) =>
      (match ParseIntKind(text, w)
       case Failure(e) => Failure(e)
       case Success(i) => Success(Put(cur, IntV(i), isSlice)))
    case UintT(w) =>
      (match ParseUintKind(text, w)
       case Failure(e) => Failure(e)
       case Success(u) => Success(Put(cur, UintV(u), isSlice)))
    case FloatT(bits) =>
      (match parseFloat(text, bits)
       case None => Failure(BadNumber(text))
       case Some(x) =>
         // the parsed float64 only appends to a []float64: into a []float32 reflect.Append panics
         if isSlice && bits != 64 then Failure(Panic) else Success(Put(cur, FloatV(x), isSlice)))
    case _ => Failure(InvalidType(t))
  }

  /**
   * assignPrimitiveNode: write the literal n into cur, whose kind is t (or,
   * with isSlice, append it to the slice cur of element kind t).  An
   * `env(NAME)` node reads the variable through getenv; floats are read
   * through parseFloat.
   */
  function AssignPrimitive(n: Node, cur: Value, t: Type, isSlice: bool,
                           getenv: string -> string, parseFloat: (string, nat) -> Option<real>)
    : (r: Result<Value, DecodeError>)
    requires isSlice ==> cur.SliceV?
    ensures r.Success? && HasType(cur, Target(t, isSlice)) ==> HasType(r.value, Target(t, isSlice))
    ensures r.Success? && isSlice ==>
              r.value.SliceV? && cur.elems <= r.value.elems && |r.value.elems| <= |cur.elems| + 1
    ensures r.Success? && isSlice && r.value != cur ==> r.value.nonNil
    ensures r.Success? && n.StringNode? ==> t.StringT? && r.value == Put(cur, StrV(n.text), isSlice)
    ensures r.Success? && n.BooleanNode? ==> t.BoolT? && r.value == Put(cur, BoolV(n.flag), isSlice)
    ensures r.Success? && n.NumberNode? ==> t.IntT? || t.UintT? || t.FloatT?
    ensures n.NumberNode? && isSlice && t == FloatT(32) && parseFloat(n.text, 32).Some? ==> r == Failure(Panic)
    ensures (n.StringNode? && !t.StringT?) || (n.BooleanNode? && !t.BoolT?) ==> r == Failure(InvalidType(t))
    ensures n.Nil? || n.NilAssign? ==> r == Failure(Panic)
    ensures !(n.EnvarNode? || n.StringNode? || n.BooleanNode? || n.NumberNode? || n.Nil? || n.NilAssign?) ==>
              r == Failure(InvalidType(t))
  {
    match n
    case Nil => Failure(Panic)
    case NilAssign => Failure(Panic)
    case EnvarNode(_, id) => AssignEnv(getenv(id.value), cur, t, isSlice, parseFloat)
    case StringNode(_, text) =>
      if !t.StringT? then Failure(InvalidType(t)) else Success(Put(cur, StrV(text), isSlice))
    case BooleanNode(_, flag) =>
      if !t.BoolT? then Failure(InvalidType(t)) else Success(Put(cur, BoolV(flag), isSlice))
    case NumberNode(_, text) => AssignNumber(text, cur, t, isSlice, parseFloat)
    case _ => Failure(InvalidType(t))
  }

  /**
   * The slice-element loop of assign: append each element in turn; the
   * first failing element stops the loop, keeping the elements before it,
   * and its error is returned beside the value.
   */
  function AppendAll(entries: seq<Node>, cur: Value, t: Type,
                     getenv: string -> string, parseFloat: (string, nat) -> Option<real>)
    : (r: (Value, Option<DecodeError>))
    requires cur.SliceV?
    ensures r.0.SliceV? && cur.elems <= r.0.elems && |r.0.elems| <= |cur.elems| + |entries|
    ensures r.0 == cur || r.0.nonNil
    ensures HasType(cur, SliceT(t)) ==> HasType(r.0, SliceT(t))
    decreases |entries|
  {
    if entries == [] then (cur, None)
    else match AssignPrimitive(entries[0], cur, t, true, getenv, parseFloat)
      case Failure(e) => (cur, Some(e))
      case Success(next) => AppendAll(entries[1..], next, t, getenv, parseFloat)
  }

  /**
   * The element loop over a + b is the loop over a and then, unless an
   * element of a failed, the loop over b from where a left the slice.
   */
  lemma {:induction false} AppendAllSplit(a: seq<Node>, b: seq<Node>, cur: Value, t: Type,
                                          getenv: string -> string, parseFloat: (string, nat) -> Option<real>)
    requires cur.SliceV?
    ensures var r := AppendAll(a, cur, t, getenv, parseFloat);
            AppendAll(a + b, cur, t, getenv, parseFloat) ==
              if r.1.Some? then r else AppendAll(b, r.0, t, getenv, parseFloat)
    decreases |a|
  {
    if a != [] {
      assert (a + b)[0] == a[0] && (a + b)[1..] == a[1..] + b;
      match AssignPrimitive(a[0], cur, t, true, getenv, parseFloat)
      case Failure(_) =>
      case Success(next) => AppendAllSplit(a[1..], b, next, t, getenv, parseFloat);
    } else {
      assert a + b == b;
    }
  }

  /**
   * An error from the element loop is the error of element j, written to
   * the slice the elements before it left, all of which succeeded.
   */
  lemma {:induction false} AppendAllFailure(entries: seq<Node>, cur: Value, t: Type,
                                            getenv: string -> string, parseFloat: (string, nat) -> Option<real>)
    requires cur.SliceV?
    ensures var r := AppendAll(entries, cur, t, getenv, parseFloat);
            r.1.Some? ==>
              exists j :: 0 <= j < |entries| && AppendAll(entries[..j], cur, t, getenv, parseFloat) == (r.0, None)
                          && AssignPrimitive(entries[j], r.0, t, true, getenv, parseFloat) == Failure(r.1.value)
    decreases |entries|
  {
    var r := AppendAll(entries, cur, t, getenv, parseFloat);
    if entries != [] && r.1.Some? {
      match AssignPrimitive(entries[0], cur, t, true, getenv, parseFloat)
      case Failure(e) =>
        assert AppendAll(entries[..0], cur, t, getenv, parseFloat) == (r.0, None);
      case Success(next) =>
        var rest := entries[1..];
        AppendAllFailure(rest, next, t, getenv, parseFloat);
        var j :| 0 <= j < |rest| && AppendAll(rest[..j], next, t, getenv, parseFloat) == (r.0, None)
                 && AssignPrimitive(rest[j], r.0, t, true, getenv, parseFloat) == Failure(r.1.value);
        assert entries[..j + 1][0] == entries[0] && entries[..j + 1][1..] == rest[..j];
        assert AppendAll(entries[..j + 1], cur, t, getenv, parseFloat) == (r.0, None);
        assert entries[j + 1] == rest[j];
    }
  }

  // ---------------------------------------------------------------------
  // findTargetField

  datatype Lookup =
    | Found(index: nat, tags: StructTags.Tags)
    | NotFound
    | LookupError(err: DecodeError)

  /** A field the lookup for name passes over whatever the counter: untagged, or tagged for another key. */
  predicate Passed(f: Field, name: string) {
    f.tag == "" ||
    (StructTags.TagsOf(f.tag).Success? && StructTags.TagsOf(f.tag).value.key != name && name != ".param")
  }

  /** A field whose tag answers the lookup for name: its key is name, or name is `.param`. */
  predicate Eligible(f: Field, name: string) {
    f.tag != "" && StructTags.TagsOf(f.tag).Success? &&
    (StructTags.TagsOf(f.tag).value.key == name || name == ".param")
  }

  /** An eligible `.param` field the lookup may skip while it counts parameters. */
  predicate SkippableParam(f: Field, name: string) {
    Eligible(f, name) && StructTags.TagsOf(f.tag).value.isParam
  }

  /**
   * The scan of findTargetField from field i, having skipped `counter`
   * param fields: the first eligible field wins, except that the first
   * `skip` eligible param fields are skipped.
   */
  function LookupFrom(fields: seq<Field>, name: string, skip: int, i: nat, counter: int): (r: Lookup)
    requires i <= |fields|
    ensures r.Found? ==>
              && i <= r.index < |fields| && Eligible(fields[r.index], name)
              && StructTags.TagsOf(fields[r.index].tag) == Success(r.tags)
              && forall k :: i <= k < r.index ==> Passed(fields[k], name) || SkippableParam(fields[k], name)
    ensures r.NotFound? ==>
              forall k :: i <= k < |fields| ==> Passed(fields[k], name) || SkippableParam(fields[k], name)
    ensures r.LookupError? ==>
              exists k :: i <= k < |fields| && fields[k].tag != "" && StructTags.TagsOf(fields[k].tag).Failure? &&
                          r.err == TagFailure(StructTags.TagsOf(fields[k].tag).error)
    decreases |fields| - i
  {
    if i == |fields| then NotFound
    else if fields[i].tag == "" then LookupFrom(fields, name, skip, i + 1, counter)
    else match StructTags.TagsOf(fields[i].tag)
      case Failure(e) => LookupError(TagFailure(e))
      case Success(tag) =>
        if tag.key != name && name != ".param" then LookupFrom(fields, name, skip, i + 1, counter)
        else if tag.isParam && counter < skip then LookupFrom(fields, name, skip, i + 1, counter + 1)
        else Found(i, tag)
  }

  /** findTargetField on a value of type t: NumField panics unless t is a struct. */
  function FieldLookup(t: Type, name: string, skip: int): (r: Lookup)
    ensures r.Found? ==> t.StructT? && r.index < |t.fields| && Eligible(t.fields[r.index], name)
    ensures !t.StructT? ==> r == LookupError(Panic)
  {
    if t.StructT? then LookupFrom(t.fields, name, skip, 0, 0) else LookupError(Panic)
  }

  /** The number of fields tagged exactly `.param` among fields[i..p]. */
  function ParamCount(fields: seq<Field>, i: nat, p: nat): nat
    requires i <= p <= |fields|
    decreases p - i
  {
    if i == p then 0 else (if fields[i].tag == ".param" then 1 else 0) + ParamCount(fields, i + 1, p)
  }

  /**
   * Parameter slots: when every tagged field before p is a `.param` field
   * and j of them precede p, the lookup for `.param` with counter j finds
   * field p.  So with the param fields declared first, the j-th block
   * parameter lands in the j-th `.param` field.
   */
  lemma {:induction false} ParamSlot(fields: seq<Field>, p: nat, j: nat)
    requires p < |fields| && fields[p].tag == ".param"
    requires forall k :: 0 <= k < p ==> fields[k].tag == "" || fields[k].tag == ".param"
    requires j == ParamCount(fields, 0, p)
    ensures FieldLookup(StructT(fields), ".param", j) == Found(p, StructTags.ParamTags)
  {
    ParamSlotFrom(fields, p, j, 0, 0);
  }

  lemma {:induction false} ParamSlotFrom(fields: seq<Field>, p: nat, skip: int, i: nat, counter: int)
    requires i <= p < |fields| && fields[p].tag == ".param"
    requires forall k :: i <= k < p ==> fields[k].tag == "" || fields[k].tag == ".param"
    requires counter + ParamCount(fields, i, p) == skip
    ensures LookupFrom(fields, ".param", skip, i, counter) == Found(p, StructTags.ParamTags)
    decreases p - i
  {
    if i < p {
      if fields[i].tag == ".param" {
        assert StructTags.TagsOf(fields[i].tag) == Success(StructTags.ParamTags);
      }
      ParamSlotFrom(fields, p, skip, i + 1, if fields[i].tag == ".param" then counter + 1 else counter);
    } else {
      assert StructTags.TagsOf(fields[i].tag) == Success(StructTags.ParamTags);
    }
  }

  /** Adding one field to the counted range adds one when it is a `.param` field. */
  lemma {:induction false} ParamCountLast(fields: seq<Field>, i: nat, p: nat)
    requires i <= p < |fields|
    ensures ParamCount(fields, i, p + 1) == ParamCount(fields, i, p) + (if fields[p].tag == ".param" then 1 else 0)
    decreases p - i
  {
    if i < p {
      ParamCountLast(fields, i + 1, p);
    }
  }

  /** The count of `.param` fields before a position never falls as the position moves right. */
  lemma {:induction false} ParamCountMono(fields: seq<Field>, a: nat, b: nat)
    requires a <= b <= |fields|
    ensures ParamCount(fields, 0, a) <= ParamCount(fields, 0, b)
    decreases b - a
  {
    if a < b {
      ParamCountLast(fields, 0, b - 1);
      ParamCountMono(fields, a, b - 1);
    }
  }

  /** With more than j `.param` fields before m, the one with j before it exists. */
  lemma {:induction false} NthParam(fields: seq<Field>, m: nat, j: nat) returns (p: nat)
    requires m <= |fields| && j < ParamCount(fields, 0, m)
    ensures p < m && fields[p].tag == ".param" && ParamCount(fields, 0, p) == j
    decreases m
  {
    ParamCountLast(fields, 0, m - 1);
    if j < ParamCount(fields, 0, m - 1) {
      p := NthParam(fields, m - 1, j);
    } else {
      p := m - 1;
    }
  }

  /** The tagged fields among fields[..m] are all `.param` string fields. */
  predicate ParamsFirst(fields: seq<Field>, m: nat) {
    m <= |fields| &&
    forall k :: 0 <= k < m ==> fields[k].tag == "" || (fields[k].tag == ".param" && fields[k].typ.StringT?)
  }

  /**
   * out is base with parameter i written into the `.param` field of
   * fields[..m] that has pc + i `.param` fields before it.
   */
  predicate Binds(out: seq<Value>, base: seq<Value>, fields: seq<Field>, m: nat, pc: nat, params: seq<Token>)
    requires m <= |fields|
  {
    |out| == |fields| && |base| == |fields| &&
    forall k :: 0 <= k < |fields| ==>
      out[k] ==
        if k < m && fields[k].tag == ".param" && pc <= ParamCount(fields, 0, k) < pc + |params|
        then StrV(params[ParamCount(fields, 0, k) - pc].literal)
        else base[k]
  }

  /**
   * Parameter binding: when the struct declares its `.param` string fields
   * before any other tagged field, and there are slots for every
   * parameter, block's parameter loop from counter pc writes parameter i
   * into the `.param` field with pc + i `.param` fields before it, leaves
   * every other field alone, reports no error and advances the counter by
   * the number of parameters.
   */
  lemma {:induction false} ParamBinding(params: seq<Token>, sv: Value, fields: seq<Field>, m: nat, pc: nat)
    requires HasType(sv, StructT(fields)) && ParamsFirst(fields, m)
    requires pc + |params| <= ParamCount(fields, 0, m)
    ensures var r := BindAll(params, sv, StructT(fields), pc);
            && r.2.None? && r.1 == pc + |params| && r.0.StructV?
            && Binds(r.0.fields, sv.fields, fields, m, pc, params)
    decreases |params|
  {
    var st := StructT(fields);
    if params == [] {
      assert BindAll(params, sv, st, pc) == (sv, pc, None);
    } else {
      var p := BindFirst(params, sv, fields, m, pc);
      var next := SetField(sv, p, StrV(params[0].literal));
      ParamBinding(params[1..], next, fields, m, pc + 1);
      BindsShift(BindAll(params[1..], next, st, pc + 1).0.fields, sv.fields, fields, m, pc, params, p);
    }
  }

  /** The first step of ParamBinding: the first parameter goes into the `.param` field with pc before it. */
  lemma {:induction false} BindFirst(params: seq<Token>, sv: Value, fields: seq<Field>, m: nat, pc: nat) returns (p: nat)
    requires HasType(sv, StructT(fields)) && ParamsFirst(fields, m)
    requires params != [] && pc + |params| <= ParamCount(fields, 0, m)
    ensures p < m && fields[p].tag == ".param" && ParamCount(fields, 0, p) == pc
    ensures HasType(SetField(sv, p, StrV(params[0].literal)), StructT(fields))
    ensures SetField(sv, p, StrV(params[0].literal)).fields == sv.fields[p := StrV(params[0].literal)]
    ensures BindAll(params, sv, StructT(fields), pc) ==
              BindAll(params[1..], SetField(sv, p, StrV(params[0].literal)), StructT(fields), pc + 1)
  {
    var st := StructT(fields);
    p := NthParam(fields, m, pc);
    ParamSlot(fields, p, pc);
    SetFieldType(sv, st, p, StrV(params[0].literal));
    BindFound(params, sv, st, pc, p);
  }

  /** Binding the first parameter into field p, then the rest from pc + 1, binds all from pc. */
  lemma {:induction false} BindsShift(out: seq<Value>, base: seq<Value>, fields: seq<Field>, m: nat, pc: nat, params: seq<Token>, p: nat)
    requires m <= |fields| && |base| == |fields| && params != []
    requires p < m && fields[p].tag == ".param" && ParamCount(fields, 0, p) == pc
    requires Binds(out, base[p := StrV(params[0].literal)], fields, m, pc + 1, params[1..])
    ensures Binds(out, base, fields, m, pc, params)
  {
    forall k | 0 <= k < m && k != p && fields[k].tag == ".param"
      ensures ParamCount(fields, 0, k) != pc
    {
      ParamCountDistinct(fields, k, p);
    }
  }

  /** One step of the parameter loop that finds the string field p. */
  lemma {:induction false} BindFound(params: seq<Token>, sv: Value, st: Type, pc: int, p: nat)
    requires HasType(sv, st) && params != []
    requires FieldLookup(st, ".param", pc) == Found(p, StructTags.ParamTags)
    requires st.fields[p].typ.StringT?
    requires HasType(SetField(sv, p, StrV(params[0].literal)), st)
    ensures BindAll(params, sv, st, pc) == BindAll(params[1..], SetField(sv, p, StrV(params[0].literal)), st, pc + 1)
  {
  }

  /** Writing a value of the field's type keeps the struct well typed. */
  lemma {:induction false} SetFieldType(sv: Value, st: Type, k: nat, x: Value)
    requires HasType(sv, st) && st.StructT? && k < |st.fields| && HasType(x, st.fields[k].typ)
    ensures HasType(SetField(sv, k, x), st)
  {
    var v := SetField(sv, k, x);
    assert forall j :: 0 <= j < |v.fields| ==> v.fields[j] == if j == k then x else sv.fields[j];
  }

  /** Two different `.param` fields have different counts before them. */
  lemma {:induction false} ParamCountDistinct(fields: seq<Field>, k: nat, p: nat)
    requires k < |fields| && p < |fields| && k != p && fields[k].tag == ".param" && fields[p].tag == ".param"
    ensures ParamCount(fields, 0, k) != ParamCount(fields, 0, p)
  {
    if k < p {
      ParamCountLast(fields, 0, k);
      ParamCountMono(fields, k + 1, p);
    } else {
      ParamCountLast(fields, 0, p);
      ParamCountMono(fields, p + 1, k);
    }
  }

  // ---------------------------------------------------------------------
  // The decoder

  /** Where a value lives, in place of its address: the steps from the root. */
  datatype PathStep = FieldStep(index: nat) | Deref | NewElem(id: nat)
  type Loc = seq<PathStep>

  /** The block-name sets only grow. */
  predicate Grows(before: map<Loc, set<string>>, after: map<Loc, set<string>>) {
    forall l :: l in before ==> l in after && before[l] <= after[l]
  }

  /** What a pointer points at, a fresh zero value when it is nil. */
  function Pointee(pv: Value, t: Type): Value
    requires pv.PtrV?
  {
    if pv.pointee.None? then Zero(t) else pv.pointee.value
  }

  /** Field k of struct value sv set to x. */
  function SetField(sv: Value, k: nat, x: Value): Value
    requires sv.StructV? && k < |sv.fields|
  {
    StructV(sv.fields[k := x])
  }

  /**
   * The parameter loop of block, from the parameter counter pc: a
   * parameter with no `.param` field left is dropped, a found field must
   * be a string and takes the parameter's literal.  The result is the
   * value, the final counter and the error that stopped the loop.
   */
  function BindAll(params: seq<Token>, sv: Value, st: Type, pc: int): (r: (Value, int, Option<DecodeError>))
    requires HasType(sv, st)
    ensures HasType(r.0, st)
    decreases |params|
  {
    if params == [] then (sv, pc, None)
    else match FieldLookup(st, ".param", pc)
      case NotFound => BindAll(params[1..], sv, st, pc)
      case LookupError(e) => (sv, pc, Some(e))
      case Found(k, _) =>
        if !st.fields[k].typ.StringT? then (sv, pc + 1, Some(ParamNotString))
        else BindAll(params[1..], SetField(sv, k, StrV(params[0].literal)), st, pc + 1)
  }

  /**
   * The outcome of the kind switch of assign on the (dereferenced) field
   * value: the new value, the error returned at once (a shape error or a
   * panic), and the error set aside in setErr.
   */
  datatype Written = Written(v: Value, err: Option<DecodeError>, setErr: Option<DecodeError>)

  /**
   * The kind switch of assign: a primitive takes assignPrimitiveNode, a
   * slice the element loop, a map only an empty map literal, and any
   * other kind is set aside as "unknown".  A panic from a write is
   * returned; any other write error is only set aside.
   */
  function Write(value: Node, rv: Value, rt: Type,
                 getenv: string -> string, parseFloat: (string, nat) -> Option<real>): (r: Written)
    requires HasType(rv, rt)
    ensures HasType(r.v, rt)
    ensures r.err.Some? ==>
              r.v == rv && r.setErr.None? && (r.err.value.Panic? || r.err.value.NotASlice? || r.err.value.NotAMap?)
    ensures IsPrimitive(rt) ==>
              var p := AssignPrimitive(value, rv, rt, false, getenv, parseFloat);
              (p.Success? ==> r == Written(p.value, None, None)) &&
              (p == Failure(Panic) ==> r.err == Some(Panic)) &&
              (p.Failure? && p.error != Panic ==> r == Written(rv, None, Some(p.error)))
    ensures rt.SliceT? && !value.SliceNode? ==> r.err == Some(NotASlice)
    ensures rt.SliceT? && value.SliceNode? ==>
              var a := AppendAll(value.elements, rv, rt.elem, getenv, parseFloat);
              (a.1 == Some(Panic) ==> r.err == Some(Panic)) &&
              (a.1 != Some(Panic) ==> r == Written(a.0, None, a.1))
    ensures rt.MapT? && !value.MapNode? ==> r.err == Some(NotAMap)
    ensures rt.MapT? && value.MapNode? ==> (r.err.None? <==> value.entries == []) && r.setErr.None?
    ensures !(IsPrimitive(rt) || rt.SliceT? || rt.MapT?) ==> r == Written(rv, None, Some(UnknownKind))
  {
    if IsPrimitive(rt) then
      match AssignPrimitive(value, rv, rt, false, getenv, parseFloat)
      case Success(x) => Written(x, None, None)
      case Failure(e) => if e == Panic then Written(rv, Some(Panic), None) else Written(rv, None, Some(e))
    else if rt.SliceT? then
      if !value.SliceNode? then Written(rv, Some(NotASlice), None)
      else
        var a := AppendAll(value.elements, rv, rt.elem, getenv, parseFloat);
        if a.1 == Some(Panic) then Written(rv, Some(Panic), None) else Written(a.0, None, a.1)
    else if rt.MapT? then
      if !value.MapNode? then Written(rv, Some(NotAMap), None)
      else if value.entries != [] then Written(rv, Some(Panic), None)
      else Written(rv, None, None)
    else Written(rv, None, Some(UnknownKind))
  }

  /**
   * assign once the field is found: write the node's value into the field
   * value fv of type ft.  Null leaves a pointer alone; otherwise a nil
   * pointer is allocated and the write goes to its pointee, and when a
   * write error was set aside with the pointee still zero the pointer is
   * reset to nil.  Only shape errors and panics are returned.
   */
  function AssignField(value: Node, fv: Value, ft: Type,
                       getenv: string -> string, parseFloat: (string, nat) -> Option<real>)
    : (r: (Value, Option<DecodeError>))
    requires HasType(fv, ft)
    ensures HasType(r.0, ft)
    ensures r.1.Some? ==> r.1.value.Panic? || r.1.value.NotASlice? || r.1.value.NotAMap?
    ensures r.1 == Some(Panic) ==> r.0 == fv
    ensures !ft.PointerT? ==> var w := Write(value, fv, ft, getenv, parseFloat); r == (w.v, w.err)
    ensures ft.PointerT? && value.NullNode? ==> r == (fv, None)
    ensures ft.PointerT? && !value.NullNode? ==>
              var w := Write(value, Pointee(fv, ft.elem), ft.elem, getenv, parseFloat);
              && r.1 == w.err
              && (w.err.Some? && w.err != Some(Panic) ==> r.0 == PtrV(Some(w.v)))
              && (w.err.None? ==> (r.0.pointee.None? <==> w.setErr.Some? && IsZero(w.v)))
              && (w.err.None? && r.0.pointee.Some? ==> r.0.pointee.value == w.v)
  {
    if !ft.PointerT? then
      var w := Write(value, fv, ft, getenv, parseFloat);
      (w.v, w.err)
    else if value.NullNode? then (fv, None)
    else
      var w := Write(value, Pointee(fv, ft.elem), ft.elem, getenv, parseFloat);
      if w.err == Some(Panic) then (fv, Some(Panic))
      else if w.err.Some? then (PtrV(Some(w.v)), w.err)
      else if w.setErr.Some? && IsZero(w.v) then (PtrV(None), None)
      else (PtrV(Some(w.v)), None)
  }

  /**
   * assign: look the name up with the parameter counter pc; a name with no
   * tagged field changes nothing, a tag error is returned, and a found
   * field takes AssignField's write while every other field stays.
   */
  function AssignResult(name: string, value: Node, sv: Value, st: Type, pc: int,
                        getenv: string -> string, parseFloat: (string, nat) -> Option<real>)
    : (r: (Value, Option<DecodeError>))
    requires HasType(sv, st)
    ensures HasType(r.0, st)
    ensures FieldLookup(st, name, pc).NotFound? ==> r == (sv, None)
    ensures FieldLookup(st, name, pc).LookupError? ==> r == (sv, Some(FieldLookup(st, name, pc).err))
    ensures FieldLookup(st, name, pc).Found? ==>
              var k := FieldLookup(st, name, pc).index;
              && r.0.StructV? && |r.0.fields| == |sv.fields|
              && (forall j :: 0 <= j < |sv.fields| && j != k ==> r.0.fields[j] == sv.fields[j])
              && (r.0.fields[k], r.1) == AssignField(value, sv.fields[k], st.fields[k].typ, getenv, parseFloat)
  {
    match FieldLookup(st, name, pc)
    case NotFound => (sv, None)
    case LookupError(e) => (sv, Some(e))
    case Found(k, _) =>
      var w := AssignField(value, sv.fields[k], st.fields[k].typ, getenv, parseFloat);
      SetFieldType(sv, st, k, w.0);
      (SetField(sv, k, w.0), w.1)
  }

  /** The value a block decodes into and its type: a fresh element for a slice or a nil pointer, else the field itself. */
  function BlockStart(fv: Value, ft: Type): (r: (Value, Type))
    requires HasType(fv, ft)
    ensures HasType(r.0, r.1)
    ensures ft.SliceT? || (ft.PointerT? && fv.pointee.None?) ==> r == (Zero(ft.elem), ft.elem)
    ensures !(ft.SliceT? || (ft.PointerT? && fv.pointee.None?)) ==> r == (fv, ft)
  {
    if ft.SliceT? || (ft.PointerT? && fv.pointee.None?) then (Zero(ft.elem), ft.elem) else (fv, ft)
  }

  class Decoder {
    const ast: Ast
    const rootType: Type
    const getenv: string -> string
    const parseFloat: (string, nat) -> Option<real>
    var target: Value
    var paramCounter: int
    var blockMap: map<Loc, set<string>>
    var allocs: nat

    /** NewDecoder. */
    constructor (a: Ast, rootType: Type, target: Value,
                 getenv: string -> string, parseFloat: (string, nat) -> Option<real>)
      ensures this.ast == a && this.rootType == rootType && this.target == target
      ensures this.getenv == getenv && this.parseFloat == parseFloat
      ensures paramCounter == 0 && blockMap == map[] && allocs == 0
    {
      this.ast := a;
      this.rootType := rootType;
      this.target := target;
      this.getenv := getenv;
      this.parseFloat := parseFloat;
      paramCounter := 0;
      blockMap := map[];
      allocs := 0;
    }

    /**
     * What node does to one node, from the record `before` with parameter
     * counter pc to the record `after` with counter pc2 and error e.  An
     * assignment is AssignResult with the counter; a block looks its name
     * up the same way: not found changes nothing, a tag error is returned,
     * and a found field is the only one that changes, a slice field
     * growing by at most one element, with only a panic getting through.
     * A nil assignment panics and every other node is ignored.
     */
    ghost predicate NodeStep(n: Node, st: Type, pc: int, pc2: int, before: Value, after: Value, e: Option<DecodeError>) {
      && HasType(before, st) && HasType(after, st)
      && (n.AssignNode? ==>
            (after, e) == AssignResult(n.name.value, n.expr, before, st, pc, getenv, parseFloat) && pc2 == pc)
      && (n.BlockNode? ==> BlockStep(n.token.literal, st, pc, pc2, before, after, e))
      && (n.NilAssign? ==> after == before && e == Some(Panic) && pc2 == pc)
      && (!(n.AssignNode? || n.BlockNode? || n.NilAssign?) ==> after == before && e.None? && pc2 == pc)
    }

    /** The block case of NodeStep, for a block named name. */
    ghost predicate BlockStep(name: string, st: Type, pc: int, pc2: int, before: Value, after: Value, e: Option<DecodeError>)
      requires HasType(before, st) && HasType(after, st)
    {
      match FieldLookup(st, name, pc)
      case NotFound => after == before && e.None? && pc2 == pc
      case LookupError(x) => after == before && e == Some(x) && pc2 == pc
      case Found(k, _) =>
        && after.StructV? && |after.fields| == |before.fields|
        && (forall j :: 0 <= j < |before.fields| && j != k ==> after.fields[j] == before.fields[j])
        && (e.None? || e == Some(Panic))
        && (st.fields[k].typ.SliceT? ==>
              before.fields[k].SliceV? && after.fields[k].SliceV? &&
              before.fields[k].elems <= after.fields[k].elems && |after.fields[k].elems| <= |before.fields[k].elems| + 1)
    }

    /**
     * A walk over nodes: walk[j] and pcs[j] are the record and the counter
     * before node j, walk[j+1] and pcs[j+1] after it; every node walked
     * but the last gave no error, the last gave e, and the walk stops
     * early only at an error.
     */
    ghost predicate Walked(nodes: seq<Node>, st: Type, pcs: seq<int>, walk: seq<Value>, e: Option<DecodeError>) {
      && 1 <= |walk| <= |nodes| + 1 && |pcs| == |walk|
      && (forall j :: 0 <= j < |walk| - 1 ==>
            NodeStep(nodes[j], st, pcs[j], pcs[j + 1], walk[j], walk[j + 1], if j == |walk| - 2 then e else None))
      && (e.None? ==> |walk| == |nodes| + 1)
      && (e.Some? ==> |walk| >= 2)
    }

    /**
     * What block does outside the duplicate case: the parameters are bound
     * into BlockStart's value with the counter from zero; a binding error
     * stops there, otherwise the body is walked from the bound value and
     * counter, and the value the walk leaves is reattached to the field.
     * pc is the counter block leaves.
     */
    ghost predicate BlockRun(n: Node, fv: Value, ft: Type, pc: int, pcs: seq<int>, walk: seq<Value>,
                             v: Value, err: Option<DecodeError>)
      requires n.BlockNode? && HasType(fv, ft)
    {
      var (rv, rt) := BlockStart(fv, ft);
      var b := BindAll(n.params, rv, rt, 0);
      if b.2.Some? then err == b.2 && pc == b.1 && v == Reattach(fv, ft, b.0, false)
      else
        && Walked(n.body.nodes, rt, pcs, walk, err) && walk[0] == b.0 && pcs[0] == b.1 && pc == pcs[|pcs| - 1]
        && HasType(walk[|walk| - 1], rt) && v == Reattach(fv, ft, walk[|walk| - 1], err.None?)
    }

    /**
     * The counter block leaves is not reset afterwards: a block with one
     * parameter, bound to a struct's only `.param` field, and an empty
     * body leaves the counter at 1.
     */
    lemma {:induction false} BlockLeavesCounter(n: Node, pc: int, pcs: seq<int>, walk: seq<Value>, v: Value, err: Option<DecodeError>)
      requires n.BlockNode? && |n.params| == 1 && n.body.nodes == []
      requires BlockRun(n, StructV([StrV("")]), StructT([Field(".param", StringT)]), pc, pcs, walk, v, err)
      ensures pc == 1 && err.None? && v == StructV([StrV(n.params[0].literal)])
    {
      var fields := [Field(".param", StringT)];
      assert ParamsFirst(fields, 1);
      ParamBinding(n.params, StructV([StrV("")]), fields, 1, 0);
      var b := BindAll(n.params, StructV([StrV("")]), StructT(fields), 0);
      assert b.2.None? && b.1 == 1;
      assert b.0 == StructV([StrV(n.params[0].literal)]);
    }

    /** findTargetField: scan the fields of a struct of type t in declaration order. */
    method FindTargetField(name: string, t: Type) returns (r: Lookup)
      ensures r == FieldLookup(t, name, paramCounter)
    {
      if !t.StructT? {
        return LookupError(Panic);
      }
      var fields := t.fields;
      var counter := 0;
      var i := 0;
      while i < |fields|
        invariant 0 <= i <= |fields|
        invariant LookupFrom(fields, name, paramCounter, 0, 0) == LookupFrom(fields, name, paramCounter, i, counter)
      {
        if fields[i].tag == "" {
          i := i + 1;
          continue;
        }
        var tag := StructTags.ParseTags(fields[i].tag);
        if tag.Failure? {
          return LookupError(TagFailure(tag.error));
        }
        if tag.value.key != name && name != ".param" {
          i := i + 1;
          continue;
        }
        if tag.value.isParam && counter < paramCounter {
          counter := counter + 1;
          i := i + 1;
          continue;
        }
        return Found(i, tag.value);
      }
      return NotFound;
    }

    /** The slice-element loop of assign. */
    method AppendElements(entries: seq<Node>, cur: Value, t: Type) returns (v: Value, setErr: Option<DecodeError>)
      requires cur.SliceV?
      ensures (v, setErr) == AppendAll(entries, cur, t, getenv, parseFloat)
    {
      v := cur;
      var i := 0;
      while i < |entries|
        invariant 0 <= i <= |entries| && v.SliceV?
        invariant AppendAll(entries, cur, t, getenv, parseFloat) == AppendAll(entries[i..], v, t, getenv, parseFloat)
      {
        assert entries[i..][1..] == entries[i + 1..];
        var r := AssignPrimitive(entries[i], v, t, true, getenv, parseFloat);
        if r.Failure? {
          return v, Some(r.error);
        }
        v := r.value;
        i := i + 1;
      }
      return v, None;
    }

    /** The kind switch of assign on the dereferenced field value rv of type rt. */
    method WriteKind(value: Node, rv: Value, rt: Type) returns (w: Written)
      requires HasType(rv, rt)
      ensures w == Write(value, rv, rt, getenv, parseFloat)
    {
      if !IsPrimitive(rt) {
        w := WriteComposite(value, rv, rt);
        return;
      }
      var r := AssignPrimitive(value, rv, rt, false, getenv, parseFloat);
      if r.Success? {
        w := Written(r.value, None, None);
      } else if r.error == Panic {
        w := Written(rv, Some(Panic), None);
      } else {
        w := Written(rv, None, Some(r.error));
      }
    }

    /** The slice, map and default cases of the kind switch of assign. */
    method WriteComposite(value: Node, rv: Value, rt: Type) returns (w: Written)
      requires HasType(rv, rt) && !IsPrimitive(rt)
      ensures w == Write(value, rv, rt, getenv, parseFloat)
    {
      if rt.SliceT? {
        if !value.SliceNode? {
          return Written(rv, Some(NotASlice), None);
        }
        var v, setErr := AppendElements(value.elements, rv, rt.elem);
        w := if setErr == Some(Panic) then Written(rv, Some(Panic), None) else Written(v, None, setErr);
      } else if rt.MapT? {
        if !value.MapNode? {
          return Written(rv, Some(NotAMap), None);
        }
        w := if value.entries != [] then Written(rv, Some(Panic), None) else Written(rv, None, None);
      } else {
        w := Written(rv, None, Some(UnknownKind));
      }
    }

    /**
     * The body of assign once the field is found: null leaves a pointer
     * alone, a nil pointer is allocated before the write, and reset after
     * it when a write error was set aside and the pointee is still zero.
     */
    method AssignValue(value: Node, fv: Value, ft: Type) returns (v: Value, err: Option<DecodeError>)
      requires HasType(fv, ft)
      ensures (v, err) == AssignField(value, fv, ft, getenv, parseFloat)
    {
      if !ft.PointerT? {
        var w := WriteKind(value, fv, ft);
        return w.v, w.err;
      }
      if value.NullNode? {
        return fv, None;
      }
      var w := WriteKind(value, Pointee(fv, ft.elem), ft.elem);
      if w.err == Some(Panic) {
        return fv, Some(Panic);
      }
      if w.err.Some? {
        return PtrV(Some(w.v)), w.err;
      }
      v := if w.setErr.Some? && IsZero(w.v) then PtrV(None) else PtrV(Some(w.v));
      err := None;
    }

    /** assign: find the field the node names and write its value there. */
    method Assign(name: string, value: Node, sv: Value, st: Type) returns (v: Value, err: Option<DecodeError>)
      requires HasType(sv, st)
      ensures (v, err) == AssignResult(name, value, sv, st, paramCounter, getenv, parseFloat)
    {
      var r := FindTargetField(name, st);
      match r
      case NotFound =>
        return sv, None;
      case LookupError(e) =>
        return sv, Some(e);
      case Found(k, _) =>
        var fv;
        fv, err := AssignValue(value, sv.fields[k], st.fields[k].typ);
        v := SetField(sv, k, fv);
    }

    /**
     * block: decode a block into the field value fv of type ft, found at
     * loc.  A non-slice field takes one block per name; a slice field
     * takes a fresh element per block, appended at the end; a nil pointer
     * is allocated first.  The `.param` fields take the parameters, then
     * the body is decoded into the same value.
     */
    method Block(n: Node, fv: Value, ft: Type, loc: Loc)
      returns (v: Value, err: Option<DecodeError>, ghost pcs: seq<int>, ghost walk: seq<Value>)
      requires n.BlockNode? && HasType(fv, ft)
      modifies this
      ensures HasType(v, ft)
      ensures Grows(old(blockMap), blockMap)
      ensures !ft.SliceT? && loc in old(blockMap) && n.token.literal in old(blockMap)[loc] ==>
                v == fv && err == Some(MultipleBlocks(n.token.literal)) && blockMap == old(blockMap) && paramCounter == 0
      ensures !ft.SliceT? ==> loc in blockMap && n.token.literal in blockMap[loc]
      ensures ft.SliceT? ==> fv.elems <= v.elems && |v.elems| <= |fv.elems| + 1
      ensures ft.SliceT? && err.None? ==> |v.elems| == |fv.elems| + 1
      ensures !(!ft.SliceT? && loc in old(blockMap) && n.token.literal in old(blockMap)[loc]) ==>
                BlockRun(n, fv, ft, paramCounter, pcs, walk, v, err)
      decreases n, 3
    {
      paramCounter := 0;
      var literal := n.token.literal;
      if !ft.SliceT? {
        if loc in blockMap && literal in blockMap[loc] {
          return fv, Some(MultipleBlocks(literal)), [], [];
        }
        var seen := if loc in blockMap then blockMap[loc] else {};
        blockMap := blockMap[loc := seen + {literal}];
      }
      v, err, pcs, walk := Fill(n, fv, ft, loc);
    }

    /**
     * The rest of block, once the name is recorded: pick the value to
     * decode into, bind the parameters, decode the body and put the
     * value back into the field.
     */
    method Fill(n: Node, fv: Value, ft: Type, loc: Loc)
      returns (v: Value, err: Option<DecodeError>, ghost pcs: seq<int>, ghost walk: seq<Value>)
      requires n.BlockNode? && HasType(fv, ft) && paramCounter == 0
      modifies this
      ensures HasType(v, ft)
      ensures Grows(old(blockMap), blockMap)
      ensures ft.SliceT? ==> fv.elems <= v.elems && |v.elems| <= |fv.elems| + 1
      ensures ft.SliceT? && err.None? ==> |v.elems| == |fv.elems| + 1
      ensures BlockRun(n, fv, ft, paramCounter, pcs, walk, v, err)
      decreases n, 2
    {
      var (rv, rt) := BlockStart(fv, ft);
      var at := loc;
      if ft.SliceT? {
        at := loc + [NewElem(allocs)];
        allocs := allocs + 1;
      } else if ft.PointerT? && fv.pointee.None? {
        at := loc + [Deref];
      }
      rv, err, pcs, walk := BindAndDecode(n, rv, rt, at);
      v := Reattach(fv, ft, rv, err.None?);
    }

    /**
     * The parameter loop and then, unless it failed, the body loop, both
     * on the value sv of type st.
     */
    method BindAndDecode(n: Node, sv: Value, st: Type, at: Loc)
      returns (v: Value, err: Option<DecodeError>, ghost pcs: seq<int>, ghost walk: seq<Value>)
      requires n.BlockNode? && HasType(sv, st) && paramCounter == 0
      modifies this
      ensures HasType(v, st)
      ensures Grows(old(blockMap), blockMap)
      ensures var b := BindAll(n.params, sv, st, 0);
              if b.2.Some? then err == b.2 && paramCounter == b.1 && v == b.0
              else
                && Walked(n.body.nodes, st, pcs, walk, err) && walk[0] == b.0 && pcs[0] == b.1
                && paramCounter == pcs[|pcs| - 1] && v == walk[|walk| - 1]
      decreases n, 1
    {
      v, err := BindParams(n.params, sv, st);
      if err.None? {
        v, err, pcs, walk := DecodeBody(n, v, st, at);
      } else {
        pcs, walk := [paramCounter], [v];
      }
    }

    /** The parameter loop of block: each parameter goes to the next `.param` field. */
    method BindParams(params: seq<Token>, sv: Value, st: Type) returns (v: Value, err: Option<DecodeError>)
      requires HasType(sv, st) && paramCounter == 0
      modifies this`paramCounter
      ensures (v, paramCounter, err) == BindAll(params, sv, st, 0)
    {
      v := sv;
      var pc := 0;
      var i := 0;
      while i < |params|
        invariant 0 <= i <= |params| && HasType(v, st) && paramCounter == pc
        invariant BindAll(params, sv, st, 0) == BindAll(params[i..], v, st, pc)
      {
        assert params[i..][1..] == params[i + 1..];
        var r := FindTargetField(".param", st);
        if r.NotFound? {
          i := i + 1;
          continue;
        }
        if r.LookupError? {
          return v, Some(r.err);
        }
        pc := pc + 1;
        paramCounter := pc;
        if !st.fields[r.index].typ.StringT? {
          return v, Some(ParamNotString);
        }
        v := SetField(v, r.index, StrV(params[i].literal));
        i := i + 1;
      }
      return v, None;
    }

    /**
     * The body loop of block: each statement in order, stopping at the
     * first error; walk holds the value before and after each statement
     * decoded.
     */
    method DecodeBody(n: Node, sv: Value, st: Type, at: Loc)
      returns (v: Value, err: Option<DecodeError>, ghost pcs: seq<int>, ghost walk: seq<Value>)
      requires n.BlockNode? && HasType(sv, st)
      modifies this
      ensures HasType(v, st)
      ensures Grows(old(blockMap), blockMap)
      ensures Walked(n.body.nodes, st, pcs, walk, err) && walk[0] == sv && v == walk[|walk| - 1]
      ensures pcs[0] == old(paramCounter) && paramCounter == pcs[|pcs| - 1]
      decreases n, 0
    {
      v := sv;
      walk, pcs := [sv], [paramCounter];
      var j := 0;
      while j < |n.body.nodes|
        invariant j <= |n.body.nodes| && |walk| == j + 1 && walk[0] == sv && v == walk[j]
        invariant |pcs| == j + 1 && pcs[0] == old(paramCounter) && paramCounter == pcs[j]
        invariant forall k :: 0 <= k < j ==> NodeStep(n.body.nodes[k], st, pcs[k], pcs[k + 1], walk[k], walk[k + 1], None)
        invariant HasType(v, st) && Grows(old(blockMap), blockMap)
      {
        assert n.body.nodes[j] in n.body.nodes;
        v, err := DecodeNode(n.body.nodes[j], v, st, at);
        walk, pcs := walk + [v], pcs + [paramCounter];
        if err.Some? {
          return;
        }
        j := j + 1;
      }
      err := None;
    }

    /**
     * What block leaves in the field once the element value rv is done:
     * a slice gets rv appended only when the block finished, an allocated
     * pointer points at rv, and anything else is rv itself.
     */
    static function Reattach(fv: Value, ft: Type, rv: Value, done: bool): (v: Value)
      requires HasType(fv, ft)
      requires HasType(rv, if ft.SliceT? || (ft.PointerT? && fv.pointee.None?) then ft.elem else ft)
      ensures HasType(v, ft)
      ensures ft.SliceT? ==> v.elems == (if done then fv.elems + [rv] else fv.elems)
    {
      if ft.SliceT? then (if done then SliceV(fv.elems + [rv], true) else fv)
      else if ft.PointerT? && fv.pointee.None? then PtrV(Some(rv))
      else rv
    }

    /**
     * node: an assignment goes to assign, a block to the field its name
     * finds; every other node is ignored.  Of a block's own errors only a
     * panic gets through: the others are dropped.
     */
    method DecodeNode(n: Node, sv: Value, st: Type, loc: Loc) returns (v: Value, err: Option<DecodeError>)
      requires HasType(sv, st)
      modifies this
      ensures Grows(old(blockMap), blockMap)
      ensures NodeStep(n, st, old(paramCounter), paramCounter, sv, v, err)
      decreases n, 5
    {
      match n {
        case NilAssign =>
          return sv, Some(Panic);
        case AssignNode(_, name, value) =>
          v, err := Assign(name.value, value, sv, st);
        case BlockNode(_, _, _) =>
          v, err := BlockNodeStep(n, sv, st, loc);
        case _ =>
          return sv, None;
      }
    }

    /**
     * The BlockNode case of node: a name with no tagged field is skipped,
     * a lookup error is returned, and a found field is decoded by block,
     * whose own errors are dropped unless they are a panic.
     */
    method BlockNodeStep(n: Node, sv: Value, st: Type, loc: Loc) returns (v: Value, err: Option<DecodeError>)
      requires n.BlockNode? && HasType(sv, st)
      modifies this
      ensures Grows(old(blockMap), blockMap)
      ensures NodeStep(n, st, old(paramCounter), paramCounter, sv, v, err)
      decreases n, 4
    {
      var r := FindTargetField(n.token.literal, st);
      match r {
        case NotFound =>
          return sv, None;
        case LookupError(e) =>
          return sv, Some(e);
        case Found(k, _) =>
          var fv, e, _, _ := Block(n, sv.fields[k], st.fields[k].typ, loc + [FieldStep(k)]);
          SetFieldType(sv, st, k, fv);
          v := SetField(sv, k, fv);
          err := if e == Some(Panic) then e else None;
      }
    }

    /**
     * decode: the top-level nodes in order, stopping at the first error;
     * walk holds the target before and after each node decoded.
     */
    method Decode() returns (err: Option<DecodeError>, ghost pcs: seq<int>, ghost walk: seq<Value>)
      requires HasType(target, rootType)
      modifies this
      ensures HasType(target, rootType)
      ensures Grows(old(blockMap), blockMap)
      ensures Walked(ast.nodes, rootType, pcs, walk, err) && walk[0] == old(target) && target == walk[|walk| - 1]
      ensures pcs[0] == old(paramCounter) && paramCounter == pcs[|pcs| - 1]
    {
      walk, pcs := [target], [paramCounter];
      var i := 0;
      while i < |ast.nodes|
        invariant i <= |ast.nodes| && |walk| == i + 1 && walk[0] == old(target) && target == walk[i]
        invariant |pcs| == i + 1 && pcs[0] == old(paramCounter) && paramCounter == pcs[i]
        invariant forall k :: 0 <= k < i ==> NodeStep(ast.nodes[k], rootType, pcs[k], pcs[k + 1], walk[k], walk[k + 1], None)
        invariant HasType(target, rootType) && Grows(old(blockMap), blockMap)
      {
        var e;
        target, e := DecodeNode(ast.nodes[i], target, rootType, []);
        walk, pcs := walk + [target], pcs + [paramCounter];
        if e.Some? {
          return e, pcs, walk;
        }
        i := i + 1;
      }
      return None, pcs, walk;
    }
  }
}
