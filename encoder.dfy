/**
 * The encoder of encoder.go: it turns a record into an Ast, one node per
 * tagged field.  The node builders only compute fresh nodes; the
 * `Encoder` object holds the Ast it appends to.
 */
module Encoding {
  import opened Wrappers
  import opened Tokens
  import opened Syntax
  import opened Records
  import StructTags
  import Numbers
  import Decoding

  datatype EncodeError =
    /** "can only encode struct and *struct values". */
    | NotAStruct
    /** "invalid icl key" from a field's tag. */
    | InvalidKey(key: string)
    /** "root struct cannot contain params". */
    | RootParams
    /** "env() macro not allowed on ... field", for a slice, struct or map. */
    | EnvNotAllowed(kind: Type)
    /** "block params can only be of type string". */
    | ParamNotString
    /** "cant convert": a kind buildNode has no case for. */
    | CantConvert(kind: Type)
    /** "invalid kind": a kind buildPrimitiveNode has no case for. */
    | InvalidKind(kind: Type)
    /** A Go panic: a tag whose slice bound is out of range. */
    | Panic

  /** How parseTags failing reads to the encoder. */
  function TagFailure(e: StructTags.TagError): EncodeError {
    match e
    case InvalidKey(k) => InvalidKey(k)
    case OutOfRange => Panic
  }

  /** The zero Token, which every node the encoder builds carries unless said otherwise. */
  const NoToken := LiteralToken("")

  /** The name of an assignment: an IDENT token holding the key, and the key as value. */
  function KeyName(key: string): Name {
    Name(Token(TokenType.Ident, key, 0, 0), key)
  }

  /** `key = value`. */
  function AssignTo(key: string, value: Node): Node {
    AssignNode(NoToken, KeyName(key), value)
  }

  /**
   * buildPrimitiveNode: an env tag gives `env(NAME)` whatever the value;
   * otherwise the value's literal node, integers as base-10 text and
   * floats through formatFloat with the tag's precision.
   */
  function BuildPrimitive(tag: StructTags.Tags, t: Type, v: Value, formatFloat: (real, int) -> string)
    : (r: Result<Node, EncodeError>)
    requires HasType(v, t)
    ensures tag.env != "" ==> r == Success(EnvarNode(NoToken, Name(NoToken, tag.env)))
    ensures r.Success? <==> tag.env != "" || IsPrimitive(t)
    ensures r.Failure? ==> r.error == InvalidKind(t)
    ensures tag.env == "" && r.Success? ==> r.value.StringNode? || r.value.BooleanNode? || r.value.NumberNode?
  {
    if tag.env != "" then Success(EnvarNode(NoToken, Name(NoToken, tag.env)))
    else match v
      case StrV(s) => Success(StringNode(NoToken, s))
      case BoolV(b) => Success(BooleanNode(NoToken, b))
      case IntV(i) => Success(NumberNode(NoToken, Numbers.FormatInt(i)))
      case UintV(u) => Success(NumberNode(NoToken, Numbers.FormatUint(u)))
      case FloatV(x) => Success(NumberNode(NoToken, formatFloat(x, tag.precision)))
      case _ => Failure(InvalidKind(t))
  }

  /**
   * buildNode: a nil pointer is `key = null`, a non-nil one is encoded as
   * its pointee; a primitive is `key = literal`; a slice of structs is a
   * collection of blocks, any other slice `key = [...]`; a struct is a
   * block; a map is `key = {...}`.
   */
  function BuildNode(tag: StructTags.Tags, t: Type, v: Value, formatFloat: (real, int) -> string)
    : (r: Result<Node, EncodeError>)
    requires HasType(v, t)
    ensures t.PointerT? && v.pointee.None? ==> r == Success(AssignTo(tag.key, NullNode(NoToken)))
    ensures r.Success? && IsPrimitive(t) ==> r.value.AssignNode? && r.value.name == KeyName(tag.key)
    ensures IsPrimitive(t) && tag.isParam ==> r == Failure(RootParams)
    ensures (t.SliceT? || t.StructT? || t.MapT?) && tag.env != "" ==> r == Failure(EnvNotAllowed(t))
    ensures t.OtherT? ==> r == Failure(CantConvert(t))
    ensures r.Success? && t.SliceT? && t.elem.StructT? ==>
              && r.value.CollectionNode? && |r.value.elements| == |v.elems|
              && forall k :: 0 <= k < |r.value.elements| ==>
                   r.value.elements[k].BlockNode? && r.value.elements[k].token == LiteralToken(tag.key)
    ensures r.Success? && t.SliceT? && t.elem.StructT? ==>
              r.value.CollectionNode? && BuildElems(tag, t.elem, v, 0, formatFloat) == Success(r.value.elements)
    ensures r.Success? && t.SliceT? && !t.elem.StructT? ==>
              && r.value.AssignNode? && r.value.name == KeyName(tag.key)
              && r.value.expr.SliceNode? && |r.value.expr.elements| == |v.elems|
              && BuildElems(tag, t.elem, v, 0, formatFloat) == Success(r.value.expr.elements)
    ensures t.SliceT? && tag.env == "" && !t.elem.StructT? && !IsPrimitive(t.elem) && v.elems != [] ==>
              r == Failure(InvalidKind(t.elem))
    ensures r.Success? && t.StructT? ==> r.value.BlockNode? && r.value.token == LiteralToken(tag.key)
    ensures r.Success? && t.MapT? ==>
              && r.value.AssignNode? && r.value.name == KeyName(tag.key)
              && r.value.expr.MapNode? && |r.value.expr.entries| == |v.entries|
              && BuildEntries(tag, t.elem, v, 0, formatFloat) == Success(r.value.expr.entries)
    ensures t.MapT? && tag.env == "" && !IsPrimitive(t.elem) && v.entries != [] ==>
              r == Failure(InvalidKind(t.elem))
    decreases v, 2
  {
    if t.PointerT? && v.pointee.None? then Success(AssignTo(tag.key, NullNode(NoToken)))
    else
      var (rt, rv) := Deref(t, v);
      if IsPrimitive(rt) then
        if tag.isParam then Failure(RootParams)
        else
          var n :- BuildPrimitive(tag, rt, rv, formatFloat);
          Success(AssignTo(tag.key, n))
      else match rt
        case SliceT(elem) =>
          if tag.env != "" then Failure(EnvNotAllowed(rt))
          else
            var elems :- BuildElems(tag, elem, rv, 0, formatFloat);
            if elem.StructT? then Success(CollectionNode(NoToken, elems))
            else Success(AssignTo(tag.key, SliceNode(NoToken, elems)))
        case StructT(_) =>
          if tag.env != "" then Failure(EnvNotAllowed(rt))
          else BuildStruct(tag, rt, rv, formatFloat)
        case MapT(elem) =>
          if tag.env != "" then Failure(EnvNotAllowed(rt))
          else
            var entries :- BuildEntries(tag, elem, rv, 0, formatFloat);
            Success(AssignTo(tag.key, MapNode(NoToken, entries)))
        case _ => Failure(CantConvert(rt))
  }

  /** The type and value a non-nil pointer points to; any other value stands for itself. */
  function Deref(t: Type, v: Value): (r: (Type, Value))
    requires HasType(v, t) && (t.PointerT? ==> v.pointee.Some?)
    ensures HasType(r.1, r.0)
    ensures t.PointerT? ==> r == (t.elem, v.pointee.value)
    ensures !t.PointerT? ==> r == (t, v)
  {
    if t.PointerT? then (t.elem, v.pointee.value) else (t, v)
  }

  /** The element loop of the slice case, from element i: blocks for structs, literals otherwise. */
  function BuildElems(tag: StructTags.Tags, elem: Type, sv: Value, i: nat, formatFloat: (real, int) -> string)
    : (r: Result<seq<Node>, EncodeError>)
    requires HasType(sv, SliceT(elem)) && i <= |sv.elems|
    ensures r.Success? ==> |r.value| == |sv.elems| - i
    ensures r.Success? && elem.StructT? ==>
              forall k :: 0 <= k < |r.value| ==>
                HasType(sv.elems[i + k], elem) && BuildStruct(tag, elem, sv.elems[i + k], formatFloat) == Success(r.value[k])
    ensures r.Success? && elem.StructT? ==>
              forall k :: 0 <= k < |r.value| ==> r.value[k].BlockNode? && r.value[k].token == LiteralToken(tag.key)
    ensures r.Success? && !elem.StructT? ==>
              forall k :: 0 <= k < |r.value| ==>
                HasType(sv.elems[i + k], elem) && BuildPrimitive(tag, elem, sv.elems[i + k], formatFloat) == Success(r.value[k])
    ensures r.Success? && tag.env == "" && !elem.StructT? && i < |sv.elems| ==> IsPrimitive(elem)
    ensures tag.env == "" && !elem.StructT? && !IsPrimitive(elem) && i < |sv.elems| ==> r == Failure(InvalidKind(elem))
    decreases sv, 0, |sv.elems| - i
  {
    if i == |sv.elems| then Success([])
    else
      var n :- if elem.StructT? then BuildStruct(tag, elem, sv.elems[i], formatFloat)
               else BuildPrimitive(tag, elem, sv.elems[i], formatFloat);
      var rest :- BuildElems(tag, elem, sv, i + 1, formatFloat);
      Success([n] + rest)
  }

  /** The entry loop of the map case, from entry i, in the map's iteration order. */
  function BuildEntries(tag: StructTags.Tags, elem: Type, mv: Value, i: nat, formatFloat: (real, int) -> string)
    : (r: Result<seq<Entry>, EncodeError>)
    requires HasType(mv, MapT(elem)) && i <= |mv.entries|
    ensures r.Success? ==> |r.value| == |mv.entries| - i
    ensures r.Success? ==>
              forall k :: 0 <= k < |r.value| ==>
                && r.value[k].key == StringNode(NoToken, mv.entries[i + k].0)
                && HasType(mv.entries[i + k].1, elem)
                && BuildPrimitive(tag, elem, mv.entries[i + k].1, formatFloat) == Success(r.value[k].value)
    ensures tag.env == "" && !IsPrimitive(elem) && i < |mv.entries| ==> r == Failure(InvalidKind(elem))
    decreases |mv.entries| - i
  {
    if i == |mv.entries| then Success([])
    else
      var n :- BuildPrimitive(tag, elem, mv.entries[i].1, formatFloat);
      var rest :- BuildEntries(tag, elem, mv, i + 1, formatFloat);
      Success([Entry(StringNode(NoToken, mv.entries[i].0), n)] + rest)
  }

  /** buildStructNode: a block named by the key, with the `.param` fields as parameters and the rest as body. */
  function BuildStruct(tag: StructTags.Tags, t: Type, sv: Value, formatFloat: (real, int) -> string)
    : (r: Result<Node, EncodeError>)
    requires t.StructT? && HasType(sv, t)
    ensures r.Success? ==>
              && r.value.BlockNode? && r.value.token == LiteralToken(tag.key)
              && r.value.params == ParamTokens(t.fields, sv.fields, 0)
              && |r.value.body.nodes| == BodyCount(t.fields, 0)
    ensures r.Success? ==> forall k :: 0 <= k < |t.fields| && t.fields[k].tag == ".param" ==> t.fields[k].typ.StringT?
    decreases sv, 1
  {
    var (params, body) :- BuildFields(t.fields, sv, 0, formatFloat);
    Success(BlockNode(LiteralToken(tag.key), params, Body(NoToken, body)))
  }

  /** The tokens of the `.param` fields from i on, in declaration order. */
  function ParamTokens(fields: seq<Field>, values: seq<Value>, i: nat): seq<Token>
    requires |values| == |fields| && i <= |fields|
    decreases |fields| - i
  {
    if i == |fields| then []
    else if fields[i].tag == ".param" && values[i].StrV? then [LiteralToken(values[i].s)] + ParamTokens(fields, values, i + 1)
    else ParamTokens(fields, values, i + 1)
  }

  /** The number of tagged fields from i on that are not `.param` fields. */
  function BodyCount(fields: seq<Field>, i: nat): nat
    requires i <= |fields|
    decreases |fields| - i
  {
    if i == |fields| then 0
    else (if fields[i].tag != "" && fields[i].tag != ".param" then 1 else 0) + BodyCount(fields, i + 1)
  }

  /** The field loop of buildStructNode, from field i: parameters and body nodes. */
  function BuildFields(fields: seq<Field>, sv: Value, i: nat, formatFloat: (real, int) -> string)
    : (r: Result<(seq<Token>, seq<Node>), EncodeError>)
    requires HasType(sv, StructT(fields)) && i <= |fields|
    ensures r.Success? ==> r.value.0 == ParamTokens(fields, sv.fields, i) && |r.value.1| == BodyCount(fields, i)
    ensures r.Success? ==> forall k :: i <= k < |fields| && fields[k].tag == ".param" ==> fields[k].typ.StringT?
    decreases sv, 0, |fields| - i
  {
    if i == |fields| then Success(([], []))
    else if fields[i].tag == "" then BuildFields(fields, sv, i + 1, formatFloat)
    else match StructTags.TagsOf(fields[i].tag)
      case Failure(e) => Failure(TagFailure(e))
      case Success(ftag) =>
        if ftag.isParam then
          if !fields[i].typ.StringT? then Failure(ParamNotString)
          else
            assert HasType(sv.fields[i], fields[i].typ);
            var (params, body) :- BuildFields(fields, sv, i + 1, formatFloat);
            Success(([LiteralToken(sv.fields[i].s)] + params, body))
        else
          var n :- BuildNode(ftag, fields[i].typ, sv.fields[i], formatFloat);
          var (params, body) :- BuildFields(fields, sv, i + 1, formatFloat);
          Success((params, [n] + body))
  }

  /**
   * The field loop of Encode, from field i: the nodes it appends before
   * it stops, and the error that stopped it.
   */
  function EncodeFields(fields: seq<Field>, sv: Value, i: nat, formatFloat: (real, int) -> string)
    : (r: (seq<Node>, Option<EncodeError>))
    requires HasType(sv, StructT(fields)) && i <= |fields|
    ensures r.1.None? ==> |r.0| == TaggedCount(fields, i)
    ensures |r.0| <= TaggedCount(fields, i)
    decreases |fields| - i
  {
    if i == |fields| then ([], None)
    else if fields[i].tag == "" then EncodeFields(fields, sv, i + 1, formatFloat)
    else match StructTags.TagsOf(fields[i].tag)
      case Failure(e) => ([], Some(TagFailure(e)))
      case Success(tag) =>
        match BuildNode(tag, fields[i].typ, sv.fields[i], formatFloat)
        case Failure(e) => ([], Some(e))
        case Success(n) =>
          var rest := EncodeFields(fields, sv, i + 1, formatFloat);
          ([n] + rest.0, rest.1)
  }

  /** One step of the field loop of Encode, case by case. */
  lemma {:induction false} EncodeStep(fields: seq<Field>, sv: Value, i: nat, formatFloat: (real, int) -> string)
    requires HasType(sv, StructT(fields)) && i < |fields|
    ensures fields[i].tag == "" ==> EncodeFields(fields, sv, i, formatFloat) == EncodeFields(fields, sv, i + 1, formatFloat)
    ensures fields[i].tag != "" && StructTags.TagsOf(fields[i].tag).Failure? ==>
              EncodeFields(fields, sv, i, formatFloat) == ([], Some(TagFailure(StructTags.TagsOf(fields[i].tag).error)))
    ensures fields[i].tag != "" && StructTags.TagsOf(fields[i].tag).Success? ==>
              var n := BuildNode(StructTags.TagsOf(fields[i].tag).value, fields[i].typ, sv.fields[i], formatFloat);
              var rest := EncodeFields(fields, sv, i + 1, formatFloat);
              EncodeFields(fields, sv, i, formatFloat) ==
                if n.Failure? then ([], Some(n.error)) else ([n.value] + rest.0, rest.1)
  {
  }

  /** The same fields with the `.param` tags taken off, so that Encode passes over them. */
  function Unparam(fields: seq<Field>): (r: seq<Field>)
    ensures |r| == |fields|
    ensures forall k :: 0 <= k < |r| ==> r[k].typ == fields[k].typ
    ensures forall k :: 0 <= k < |r| ==> r[k].tag == if fields[k].tag == ".param" then "" else fields[k].tag
  {
    seq(|fields|, k requires 0 <= k < |fields| => if fields[k].tag == ".param" then Field("", fields[k].typ) else fields[k])
  }

  /**
   * The field loop of buildStructNode is the field loop of Encode on the
   * same struct with its `.param` fields untagged, plus the `.param`
   * strings as parameters: it succeeds exactly when every `.param` field
   * is a string and that Encode emits no error, and then its body is
   * exactly the nodes Encode emits, in the same order.
   */
  lemma {:induction false} BodyMatchesEncode(fields: seq<Field>, sv: Value, i: nat, formatFloat: (real, int) -> string)
    requires HasType(sv, StructT(fields)) && i <= |fields|
    ensures HasType(sv, StructT(Unparam(fields))) && BuildMatches(fields, sv, i, formatFloat)
    decreases |fields| - i, 1
  {
    UnparamType(fields, sv);
    if i < |fields| {
      if fields[i].tag == ".param" {
        ParamMatches(fields, sv, i, formatFloat);
      } else {
        FieldMatches(fields, sv, i, formatFloat);
      }
    }
  }

  /**
   * From field i on, the field loop of buildStructNode succeeds exactly
   * when every `.param` field is a string and the field loop of Encode on
   * the fields with the `.param` tags taken off has no error; its
   * parameters are then the `.param` strings, and its body is exactly the
   * nodes that Encode loop emits.
   */
  predicate BuildMatches(fields: seq<Field>, sv: Value, i: nat, formatFloat: (real, int) -> string)
    requires HasType(sv, StructT(fields)) && HasType(sv, StructT(Unparam(fields))) && i <= |fields|
  {
    var e := EncodeFields(Unparam(fields), sv, i, formatFloat);
    var r := BuildFields(fields, sv, i, formatFloat);
    && (r.Success? <==> StringParams(fields, i) && e.1.None?)
    && (r.Success? ==> r.value == (ParamTokens(fields, sv.fields, i), e.0))
  }

  /** Every `.param` field from i on is a string field. */
  predicate StringParams(fields: seq<Field>, i: nat)
    requires i <= |fields|
    decreases |fields| - i
  {
    i == |fields| || ((fields[i].tag == ".param" ==> fields[i].typ.StringT?) && StringParams(fields, i + 1))
  }

  /** StringParams says the same as a quantifier over the fields. */
  lemma {:induction false} StringParamsAll(fields: seq<Field>, i: nat)
    requires i <= |fields|
    ensures StringParams(fields, i) <==> forall k :: i <= k < |fields| && fields[k].tag == ".param" ==> fields[k].typ.StringT?
    decreases |fields| - i
  {
    if i < |fields| {
      StringParamsAll(fields, i + 1);
    }
  }

  /** BodyMatchesEncode from a `.param` field, which Encode passes over. */
  lemma {:induction false} ParamMatches(fields: seq<Field>, sv: Value, i: nat, formatFloat: (real, int) -> string)
    requires HasType(sv, StructT(fields)) && HasType(sv, StructT(Unparam(fields))) && i < |fields|
    requires fields[i].tag == ".param"
    ensures BuildMatches(fields, sv, i, formatFloat)
    decreases |fields| - i, 0
  {
    BodyMatchesEncode(fields, sv, i + 1, formatFloat);
    ParamShift(fields, sv, i, formatFloat);
  }

  /** Over a `.param` field, BuildMatches from the next field on carries back to this one. */
  lemma {:induction false} ParamShift(fields: seq<Field>, sv: Value, i: nat, formatFloat: (real, int) -> string)
    requires HasType(sv, StructT(fields)) && HasType(sv, StructT(Unparam(fields))) && i < |fields|
    requires fields[i].tag == ".param" && BuildMatches(fields, sv, i + 1, formatFloat)
    ensures BuildMatches(fields, sv, i, formatFloat)
  {
    var u := Unparam(fields);
    assert u[i].tag == "";
    EncodeSkip(u, sv, i, formatFloat);
    BuildParamStep(fields, sv, i, formatFloat);
  }

  /** BodyMatchesEncode from any other field, which both loops treat alike. */
  lemma {:induction false} FieldMatches(fields: seq<Field>, sv: Value, i: nat, formatFloat: (real, int) -> string)
    requires HasType(sv, StructT(fields)) && HasType(sv, StructT(Unparam(fields))) && i < |fields|
    requires fields[i].tag != ".param"
    ensures BuildMatches(fields, sv, i, formatFloat)
    decreases |fields| - i, 0
  {
    BodyMatchesEncode(fields, sv, i + 1, formatFloat);
    FieldShift(fields, sv, i, formatFloat);
  }

  /** Over any other field, BuildMatches from the next field on carries back to this one. */
  lemma {:induction false} FieldShift(fields: seq<Field>, sv: Value, i: nat, formatFloat: (real, int) -> string)
    requires HasType(sv, StructT(fields)) && HasType(sv, StructT(Unparam(fields))) && i < |fields|
    requires fields[i].tag != ".param" && BuildMatches(fields, sv, i + 1, formatFloat)
    ensures BuildMatches(fields, sv, i, formatFloat)
  {
    var u := Unparam(fields);
    assert u[i] == fields[i];
    EncodeStep(u, sv, i, formatFloat);
    BuildFieldStep(fields, sv, i, formatFloat);
  }

  /** The step of the field loop of buildStructNode over a `.param` field. */
  lemma {:induction false} BuildParamStep(fields: seq<Field>, sv: Value, i: nat, formatFloat: (real, int) -> string)
    requires HasType(sv, StructT(fields)) && i < |fields| && fields[i].tag == ".param"
    ensures var r, rest := BuildFields(fields, sv, i, formatFloat), BuildFields(fields, sv, i + 1, formatFloat);
            && (!fields[i].typ.StringT? ==> r == Failure(ParamNotString))
            && (fields[i].typ.StringT? ==>
                  sv.fields[i].StrV? &&
                  r == if rest.Failure? then rest else Success(([LiteralToken(sv.fields[i].s)] + rest.value.0, rest.value.1)))
  {
    assert HasType(sv.fields[i], fields[i].typ);
  }

  /** The step of the field loop of buildStructNode over any other field. */
  lemma {:induction false} BuildFieldStep(fields: seq<Field>, sv: Value, i: nat, formatFloat: (real, int) -> string)
    requires HasType(sv, StructT(fields)) && i < |fields| && fields[i].tag != ".param"
    ensures var r, rest := BuildFields(fields, sv, i, formatFloat), BuildFields(fields, sv, i + 1, formatFloat);
            && (fields[i].tag == "" ==> r == rest)
            && (fields[i].tag != "" ==>
                  match StructTags.TagsOf(fields[i].tag)
                  case Failure(e) => r == Failure(TagFailure(e))
                  case Success(tag) =>
                    var n := BuildNode(tag, fields[i].typ, sv.fields[i], formatFloat);
                    r == if n.Failure? then Failure(n.error)
                         else if rest.Failure? then Failure(rest.error)
                         else Success((rest.value.0, [n.value] + rest.value.1)))
  {
  }

  /** The field loop of Encode passes over an untagged field. */
  lemma {:induction false} EncodeSkip(fields: seq<Field>, sv: Value, i: nat, formatFloat: (real, int) -> string)
    requires HasType(sv, StructT(fields)) && i < |fields| && fields[i].tag == ""
    ensures EncodeFields(fields, sv, i, formatFloat) == EncodeFields(fields, sv, i + 1, formatFloat)
  {
  }

  /** Taking the `.param` tags off keeps a struct value well typed. */
  lemma {:induction false} UnparamType(fields: seq<Field>, sv: Value)
    requires HasType(sv, StructT(fields))
    ensures HasType(sv, StructT(Unparam(fields)))
  {
    var u := Unparam(fields);
    assert forall k :: 0 <= k < |sv.fields| ==> HasType(sv.fields[k], u[k].typ) by {
      assert forall k :: 0 <= k < |sv.fields| ==> HasType(sv.fields[k], fields[k].typ);
    }
  }

  /**
   * buildStructNode: the block's parameters are the `.param` strings and
   * its body is what Encode emits for the struct with the `.param` fields
   * untagged; it succeeds exactly when every `.param` field is a string
   * and that Encode has no error.
   */
  lemma {:induction false} StructMatchesEncode(tag: StructTags.Tags, t: Type, sv: Value, formatFloat: (real, int) -> string)
    requires t.StructT? && HasType(sv, t)
    ensures HasType(sv, StructT(Unparam(t.fields)))
    ensures var e := EncodeFields(Unparam(t.fields), sv, 0, formatFloat);
            var r := BuildStruct(tag, t, sv, formatFloat);
            && (r.Success? <==>
                  (forall k :: 0 <= k < |t.fields| && t.fields[k].tag == ".param" ==> t.fields[k].typ.StringT?) && e.1.None?)
            && (r.Success? ==> r.value == BlockNode(LiteralToken(tag.key), ParamTokens(t.fields, sv.fields, 0), Body(NoToken, e.0)))
  {
    BodyMatchesEncode(t.fields, sv, 0, formatFloat);
    StringParamsAll(t.fields, 0);
  }

  /** The number of tagged fields from i on. */
  function TaggedCount(fields: seq<Field>, i: nat): nat
    requires i <= |fields|
    decreases |fields| - i
  {
    if i == |fields| then 0 else (if fields[i].tag != "" then 1 else 0) + TaggedCount(fields, i + 1)
  }

  class Encoder {
    /** The Ast Encode appends to; it is shared by every call, so a second call appends again. */
    var ast: seq<Node>
    const rootType: Type
    const root: Value
    const formatFloat: (real, int) -> string

    constructor (t: Type, v: Value, formatFloat: (real, int) -> string)
      requires t.StructT? && HasType(v, t)
      ensures ast == [] && rootType == t && root == v && this.formatFloat == formatFloat
    {
      ast := [];
      rootType := t;
      root := v;
      this.formatFloat := formatFloat;
    }

    predicate Valid()
      reads this
    {
      rootType.StructT? && HasType(root, rootType)
    }

    /** Encode: one node per tagged field, in declaration order, stopping at the first error. */
    method Encode() returns (r: Result<seq<Node>, EncodeError>)
      requires Valid()
      modifies this`ast
      ensures ast == old(ast) + EncodeFields(rootType.fields, root, 0, formatFloat).0
      ensures r.Success? <==> EncodeFields(rootType.fields, root, 0, formatFloat).1.None?
      ensures r.Success? ==> r.value == ast
      ensures r.Failure? ==> Some(r.error) == EncodeFields(rootType.fields, root, 0, formatFloat).1
    {
      var fields := rootType.fields;
      var i := 0;
      while i < |fields|
        invariant 0 <= i <= |fields|
        invariant old(ast) + EncodeFields(fields, root, 0, formatFloat).0 == ast + EncodeFields(fields, root, i, formatFloat).0
        invariant EncodeFields(fields, root, 0, formatFloat).1 == EncodeFields(fields, root, i, formatFloat).1
      {
        EncodeStep(fields, root, i, formatFloat);
        if fields[i].tag == "" {
          i := i + 1;
          continue;
        }
        var tag := StructTags.ParseTags(fields[i].tag);
        if tag.Failure? {
          return Failure(TagFailure(tag.error));
        }
        var n := BuildNode(tag.value, fields[i].typ, root.fields[i], formatFloat);
        if n.Failure? {
          return Failure(n.error);
        }
        assert ast + EncodeFields(fields, root, i, formatFloat).0 ==
               (ast + [n.value]) + EncodeFields(fields, root, i + 1, formatFloat).0;
        ast := ast + [n.value];
        i := i + 1;
      }
      return Success(ast);
    }
  }

  /** NewEncoder: only a struct value can be encoded (a pointer to one is refused too). */
  method NewEncoder(t: Type, v: Value, formatFloat: (real, int) -> string) returns (r: Result<Encoder, EncodeError>)
    requires HasType(v, t)
    ensures r.Success? <==> t.StructT?
    ensures r.Failure? ==> r.error == NotAStruct
    ensures r.Success? ==> fresh(r.value) && r.value.ast == [] && r.value.rootType == t && r.value.root == v
  {
    if !t.StructT? {
      return Failure(NotAStruct);
    }
    var e := new Encoder(t, v, formatFloat);
    return Success(e);
  }

  // ---------------------------------------------------------------------
  // Round trips through the decoder

  /** The kinds whose literal reads back exactly: all primitives but floats. */
  predicate Exact(t: Type) {
    t.StringT? || t.BoolT? || t.IntT? || t.UintT?
  }

  /**
   * A primitive value encodes to a literal node that the decoder's
   * assignPrimitiveNode reads back as the same value, whatever the field
   * held before.
   */
  lemma {:induction false} PrimitiveRoundTrip(tag: StructTags.Tags, t: Type, v: Value, cur: Value,
                           getenv: string -> string, parseFloat: (string, nat) -> Option<real>,
                           formatFloat: (real, int) -> string)
    requires HasType(v, t) && Exact(t) && tag.env == ""
    ensures BuildPrimitive(tag, t, v, formatFloat).Success?
    ensures Decoding.AssignPrimitive(BuildPrimitive(tag, t, v, formatFloat).value, cur, t, false, getenv, parseFloat)
            == Success(v)
  {
    PrimitivePut(tag, t, v, cur, false, getenv, parseFloat, formatFloat);
  }

  /**
   * A plain or pointer field holding an exact primitive encodes to an
   * assignment of its key whose value the decoder's assign writes back:
   * the field gets exactly the encoded value, with no error, whatever it
   * held before (through a pointer it allocates, for a pointer field).
   */
  lemma {:induction false} FieldRoundTrip(tag: StructTags.Tags, t: Type, v: Value, cur: Value,
                       getenv: string -> string, parseFloat: (string, nat) -> Option<real>,
                       formatFloat: (real, int) -> string)
    requires HasType(v, t) && HasType(cur, t) && !tag.isParam && tag.env == ""
    requires Exact(t) || (t.PointerT? && Exact(t.elem) && v.pointee.Some?)
    ensures var r := BuildNode(tag, t, v, formatFloat);
            && r.Success? && r.value.AssignNode? && r.value.name == KeyName(tag.key)
            && (Exact(t) ==>
                  Decoding.AssignPrimitive(r.value.expr, cur, t, false, getenv, parseFloat) == Success(v))
            && (t.PointerT? ==>
                  Decoding.AssignPrimitive(r.value.expr, Decoding.Pointee(cur, t.elem), t.elem, false, getenv, parseFloat)
                  == Success(v.pointee.value))
            && Decoding.AssignField(r.value.expr, cur, t, getenv, parseFloat) == (v, None)
  {
    if t.PointerT? {
      PrimitiveRoundTrip(tag, t.elem, v.pointee.value, Decoding.Pointee(cur, t.elem), getenv, parseFloat, formatFloat);
    } else {
      PrimitiveRoundTrip(tag, t, v, cur, getenv, parseFloat, formatFloat);
    }
  }

  /** The same, appending to a slice. */
  lemma {:induction false} PrimitiveAppend(tag: StructTags.Tags, t: Type, v: Value, cur: Value,
                        getenv: string -> string, parseFloat: (string, nat) -> Option<real>,
                        formatFloat: (real, int) -> string)
    requires HasType(v, t) && Exact(t) && tag.env == "" && cur.SliceV?
    ensures BuildPrimitive(tag, t, v, formatFloat).Success?
    ensures Decoding.AssignPrimitive(BuildPrimitive(tag, t, v, formatFloat).value, cur, t, true, getenv, parseFloat)
            == Success(SliceV(cur.elems + [v], true))
  {
    PrimitivePut(tag, t, v, cur, true, getenv, parseFloat, formatFloat);
  }

  /** The literal of an exact primitive is stored back by assignPrimitiveNode, in place or appended. */
  lemma {:induction false} PrimitivePut(tag: StructTags.Tags, t: Type, v: Value, cur: Value, isSlice: bool,
                     getenv: string -> string, parseFloat: (string, nat) -> Option<real>,
                     formatFloat: (real, int) -> string)
    requires HasType(v, t) && Exact(t) && tag.env == "" && (isSlice ==> cur.SliceV?)
    ensures BuildPrimitive(tag, t, v, formatFloat).Success?
    ensures Decoding.AssignPrimitive(BuildPrimitive(tag, t, v, formatFloat).value, cur, t, isSlice, getenv, parseFloat)
            == Success(Decoding.Put(cur, v, isSlice))
  {
    match v
    case IntV(i) => IntPut(i, t.width, cur, isSlice, getenv, parseFloat);
    case UintV(u) => UintPut(u, t.width, cur, isSlice, getenv, parseFloat);
    case _ =>
  }

  /** An integer written in decimal is read back by assignPrimitiveNode when it fits its width. */
  lemma {:induction false} IntPut(i: int, w: Width, cur: Value, isSlice: bool,
               getenv: string -> string, parseFloat: (string, nat) -> Option<real>)
    requires IntFits(i, w) && (isSlice ==> cur.SliceV?)
    ensures Decoding.AssignPrimitive(NumberNode(NoToken, Numbers.FormatInt(i)), cur, IntT(w), isSlice, getenv, parseFloat)
            == Success(Decoding.Put(cur, IntV(i), isSlice))
  {
    Decoding.ParseIntKindFormat(i, w);
  }

  /** The unsigned counterpart. */
  lemma {:induction false} UintPut(u: nat, w: Width, cur: Value, isSlice: bool,
                getenv: string -> string, parseFloat: (string, nat) -> Option<real>)
    requires u < Numbers.Pow2(Bits(w)) && (isSlice ==> cur.SliceV?)
    ensures Decoding.AssignPrimitive(NumberNode(NoToken, Numbers.FormatUint(u)), cur, UintT(w), isSlice, getenv, parseFloat)
            == Success(Decoding.Put(cur, UintV(u), isSlice))
  {
    Decoding.ParseUintKindFormat(u, w);
  }

  /**
   * A slice of exact primitives encodes to elements that the decoder's
   * element loop appends back, all of them, in order, with no error; so
   * assign writes the slice literal into a slice field as the old
   * elements followed by the encoded ones.
   */
  lemma {:induction false} SliceRoundTrip(tag: StructTags.Tags, elem: Type, sv: Value, cur: Value,
                       getenv: string -> string, parseFloat: (string, nat) -> Option<real>,
                       formatFloat: (real, int) -> string)
    requires HasType(sv, SliceT(elem)) && Exact(elem) && tag.env == "" && cur.SliceV?
    ensures BuildElems(tag, elem, sv, 0, formatFloat).Success?
    ensures Decoding.AppendAll(BuildElems(tag, elem, sv, 0, formatFloat).value, cur, elem, getenv, parseFloat)
            == (SliceV(cur.elems + sv.elems, cur.nonNil || sv.elems != []), None)
    ensures HasType(cur, SliceT(elem)) ==>
              Decoding.AssignField(SliceNode(NoToken, BuildElems(tag, elem, sv, 0, formatFloat).value), cur, SliceT(elem), getenv, parseFloat)
              == (SliceV(cur.elems + sv.elems, cur.nonNil || sv.elems != []), None)
  {
    SliceRoundTripFrom(tag, elem, sv, 0, cur, getenv, parseFloat, formatFloat);
    assert sv.elems[0..] == sv.elems;
  }

  lemma {:induction false} SliceRoundTripFrom(tag: StructTags.Tags, elem: Type, sv: Value, i: nat, cur: Value,
                                              getenv: string -> string, parseFloat: (string, nat) -> Option<real>,
                                              formatFloat: (real, int) -> string)
    requires HasType(sv, SliceT(elem)) && Exact(elem) && tag.env == "" && cur.SliceV? && i <= |sv.elems|
    ensures BuildElems(tag, elem, sv, i, formatFloat).Success?
    ensures Decoding.AppendAll(BuildElems(tag, elem, sv, i, formatFloat).value, cur, elem, getenv, parseFloat)
            == (SliceV(cur.elems + sv.elems[i..], cur.nonNil || i < |sv.elems|), None)
    decreases |sv.elems| - i
  {
    if i == |sv.elems| {
      assert cur.elems + sv.elems[i..] == cur.elems;
    } else {
      var x := sv.elems[i];
      assert HasType(x, elem);
      PrimitiveAppend(tag, elem, x, cur, getenv, parseFloat, formatFloat);
      var next := SliceV(cur.elems + [x], true);
      SliceRoundTripFrom(tag, elem, sv, i + 1, next, getenv, parseFloat, formatFloat);
      var n := BuildPrimitive(tag, elem, x, formatFloat).value;
      var rest := BuildElems(tag, elem, sv, i + 1, formatFloat).value;
      BuildElemsStep(tag, elem, sv, i, formatFloat);
      AppendStep(n, rest, cur, next, elem, getenv, parseFloat);
      ConsTail(cur.elems, sv.elems, i);
    }
  }

  /** One step of the slice element loop, for an element that is not a struct. */
  lemma {:induction false} BuildElemsStep(tag: StructTags.Tags, elem: Type, sv: Value, i: nat, formatFloat: (real, int) -> string)
    requires HasType(sv, SliceT(elem)) && i < |sv.elems| && !elem.StructT?
    requires BuildPrimitive(tag, elem, sv.elems[i], formatFloat).Success?
    requires BuildElems(tag, elem, sv, i + 1, formatFloat).Success?
    ensures BuildElems(tag, elem, sv, i, formatFloat) ==
              Success([BuildPrimitive(tag, elem, sv.elems[i], formatFloat).value] + BuildElems(tag, elem, sv, i + 1, formatFloat).value)
  {
  }

  /** One step of the decoder's element loop, for an element that is appended. */
  lemma {:induction false} AppendStep(n: Node, rest: seq<Node>, cur: Value, next: Value, t: Type,
                   getenv: string -> string, parseFloat: (string, nat) -> Option<real>)
    requires cur.SliceV?
    requires Decoding.AssignPrimitive(n, cur, t, true, getenv, parseFloat) == Success(next)
    ensures Decoding.AppendAll([n] + rest, cur, t, getenv, parseFloat) == Decoding.AppendAll(rest, next, t, getenv, parseFloat)
  {
    assert ([n] + rest)[1..] == rest;
  }

  lemma {:induction false} ConsTail<T>(a: seq<T>, s: seq<T>, i: nat)
    requires i < |s|
    ensures (a + [s[i]]) + s[i + 1..] == a + s[i..]
  {
    assert s[i..] == [s[i]] + s[i + 1..];
  }
}
