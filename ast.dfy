/**
 * The syntax tree of ast.go and ast_nodes.go, with the text renderers
 * (the `String()` methods) and `TokenLiteral`.
 *
 * The node kinds of both revisions the core refers to live in one closed
 * datatype: IntegerNode and ArrayNode, which the parser builds, and
 * NumberNode, SliceNode, EnvarNode and CollectionNode, which the encoder
 * builds and the decoder reads.  `Nil` stands for Go's nil `Node`;
 * `NilAssign` for a nil `*AssignNode` pointer stored in a `Node`
 * interface, which Go does not compare equal to nil.  Rendering either of
 * them panics in Go; the renderers here give "".
 */
module Syntax {
  import opened Tokens
  import opened Text

  /** `Identifier`: a token and the name it carries. */
  datatype Name = Name(token: Token, value: string)

  /** One key/value pair of a MapNode. */
  datatype Entry = Entry(key: Node, value: Node)

  /** `BlockBodyNode`: the statements between a block's braces. */
  datatype Body = Body(token: Token, nodes: seq<Node>)

  datatype Node =
    | Nil
    | NilAssign
    | Identifier(id: Name)
    | IntegerNode(token: Token, number: int)
    | NumberNode(token: Token, text: string)
    | StringNode(token: Token, text: string)
    | BooleanNode(token: Token, flag: bool)
    | NullNode(token: Token)
    | ArrayNode(token: Token, elements: seq<Node>)
    | SliceNode(token: Token, elements: seq<Node>)
    | MapNode(token: Token, entries: seq<Entry>)
    | EnvarNode(token: Token, ident: Name)
    | AssignNode(token: Token, name: Name, expr: Node)
    | BlockNode(token: Token, params: seq<Token>, body: Body)
    | CollectionNode(token: Token, elements: seq<Node>)

  /** `Ast`: the top-level statements of a document. */
  datatype Ast = Ast(nodes: seq<Node>)

  // ---------------------------------------------------------------------
  // Indentation

  /** Four spaces in front of every piece. */
  function Padded(parts: seq<string>): (r: seq<string>)
    ensures |r| == |parts|
    ensures forall i :: 0 <= i < |parts| ==> r[i] == "    " + parts[i]
  {
    seq(|parts|, i requires 0 <= i < |parts| => "    " + parts[i])
  }

  /** indent: four spaces before the text and after every LF in it. */
  function Indent(s: string): string {
    var body := if '\n' in s then Join(Split(s, '\n'), "\n    ") else s;
    "    " + body
  }

  /** Joining with LF-and-four-spaces, after four spaces, is joining the padded pieces with LF. */
  lemma {:induction false} JoinPadded(parts: seq<string>)
    requires |parts| >= 1
    ensures "    " + Join(parts, "\n    ") == Join(Padded(parts), "\n")
    decreases |parts|
  {
    if |parts| > 1 {
      JoinPadded(parts[1..]);
      assert Padded(parts)[1..] == Padded(parts[1..]);
      assert "    " + (parts[0] + "\n    " + Join(parts[1..], "\n    "))
          == ("    " + parts[0]) + "\n" + ("    " + Join(parts[1..], "\n    "));
    }
  }

  /**
   * indent keeps the number of lines and puts four spaces in front of each:
   * the lines of Indent(s) are the lines of s, each padded.
   */
  lemma {:induction false} IndentLines(s: string)
    ensures Split(Indent(s), '\n') == Padded(Split(s, '\n'))
  {
    SplitPieces(s, '\n');
    var padded := Padded(Split(s, '\n'));
    forall k | 0 <= k < |padded|
      ensures Lacks(padded[k], '\n')
    {
      assert Lacks(Split(s, '\n')[k], '\n');
    }
    if '\n' in s {
      JoinPadded(Split(s, '\n'));
    } else {
      SplitWhole(s, '\n');
      assert Padded([s]) == ["    " + s];
    }
    SplitJoin(padded, '\n');
  }

  // ---------------------------------------------------------------------
  // Rendering

  /**
   * `String()` of every node kind.  NumberNode, SliceNode, EnvarNode and
   * CollectionNode have no renderer among the files modelled; the model
   * renders a number as its text, a slice as an array, an env macro as
   * `env(NAME)` and a collection as its blocks one after another.
   */
  function String(n: Node): string
    decreases n, 1
  {
    match n
    case Nil => ""
    case NilAssign => ""
    case Identifier(id) => id.value
    case IntegerNode(tok, _) => tok.literal
    case NumberNode(_, text) => text
    case StringNode(tok, _) => "\"" + tok.literal + "\""
    case BooleanNode(tok, _) => tok.literal
    case NullNode(_) => "NULL"
    case ArrayNode(_, es) => "[" + JoinNodes(es) + "]"
    case SliceNode(_, es) => "[" + JoinNodes(es) + "]"
    case MapNode(_, entries) => "{\n" + EntriesText(entries) + "}"
    case EnvarNode(_, id) => "env(" + id.value + ")"
    case AssignNode(_, name, value) => name.value + " = " + (if value.Nil? then "" else String(value)) + "\n"
    case BlockNode(tok, params, body) => tok.literal + ParamsText(params) + " " + BodyString(body)
    case CollectionNode(_, es) => Concat(es)
  }

  /** The element loop of ArrayNode.String: ", " between consecutive elements. */
  function JoinNodes(es: seq<Node>): string
    decreases es, 0
  {
    if es == [] then ""
    else if |es| == 1 then String(es[0])
    else String(es[0]) + ", " + JoinNodes(es[1..])
  }

  /** The element loop of MapNode.String: one indented `key: value,` line per entry. */
  function EntriesText(entries: seq<Entry>): string
    decreases entries, 0
  {
    if entries == [] then ""
    else
      var e := entries[0];
      assert e.key < e && e.value < e;
      Indent(String(e.key) + ": " + String(e.value) + ",") + "\n" + EntriesText(entries[1..])
  }

  /** The element loop of BlockBodyNode.String: each statement indented, then an LF. */
  function StatementsText(nodes: seq<Node>): string
    decreases nodes, 0
  {
    if nodes == [] then ""
    else Indent(String(nodes[0])) + "\n" + StatementsText(nodes[1..])
  }

  /** The nodes' texts one after another. */
  function Concat(nodes: seq<Node>): string
    decreases nodes, 0
  {
    if nodes == [] then "" else String(nodes[0]) + Concat(nodes[1..])
  }

  /** The parameter loop of BlockNode.String: a space and the literal of each parameter. */
  function ParamsText(params: seq<Token>): string {
    if params == [] then "" else " " + params[0].literal + ParamsText(params[1..])
  }

  /** BlockBodyNode.String. */
  function BodyString(b: Body): string
    decreases b, 2
  {
    "{\n" + StatementsText(b.nodes) + "}"
  }

  /** Ast.String: the statements' texts in order. */
  function AstString(a: Ast): string {
    Concat(a.nodes)
  }

  /** TokenLiteral of every node kind: the literal of the node's own token. */
  function TokenLiteral(n: Node): string {
    match n
    case Nil => ""
    case NilAssign => ""
    case Identifier(id) => id.token.literal
    case _ => n.token.literal
  }

  /** Ast.TokenLiteral: the first statement's, or "" for an empty document. */
  function AstTokenLiteral(a: Ast): (r: string)
    ensures a.nodes == [] ==> r == ""
    ensures a.nodes != [] ==> r == TokenLiteral(a.nodes[0])
  {
    if |a.nodes| == 0 then "" else TokenLiteral(a.nodes[0])
  }

  // ---------------------------------------------------------------------
  // Properties of the renderers

  /** Rendering a document is compositional: the text of two statement lists in a row is the two texts in a row. */
  lemma {:induction false} ConcatAppend(a: seq<Node>, b: seq<Node>)
    ensures Concat(a + b) == Concat(a) + Concat(b)
    decreases |a|
  {
    if a != [] {
      assert (a + b)[0] == a[0] && (a + b)[1..] == a[1..] + b;
      ConcatAppend(a[1..], b);
      assert String(a[0]) + (Concat(a[1..]) + Concat(b)) == (String(a[0]) + Concat(a[1..])) + Concat(b);
    } else {
      assert a + b == b;
    }
  }

  /** Ast.String: an empty document renders as "", and each statement adds its own text at the end. */
  lemma {:induction false} AstStringAppend(nodes: seq<Node>, n: Node)
    ensures AstString(Ast([])) == ""
    ensures AstString(Ast(nodes + [n])) == AstString(Ast(nodes)) + String(n)
  {
    ConcatAppend(nodes, [n]);
  }

  /** The ArrayNode loop is strings.Join of the element texts with ", ". */
  lemma {:induction false} JoinNodesIsJoin(es: seq<Node>)
    ensures JoinNodes(es) == Join(seq(|es|, i requires 0 <= i < |es| => String(es[i])), ", ")
    decreases |es|
  {
    if |es| > 1 {
      JoinNodesIsJoin(es[1..]);
      var texts := seq(|es|, i requires 0 <= i < |es| => String(es[i]));
      assert texts[1..] == seq(|es| - 1, i requires 0 <= i < |es| - 1 => String(es[1..][i]));
    }
  }

  /**
   * ArrayNode.String: "[" and "]" around the element texts joined by ", ";
   * no elements render as "[]".
   */
  lemma {:induction false} ArrayString(tok: Token, es: seq<Node>)
    ensures String(ArrayNode(tok, es)) == "[" + Join(seq(|es|, i requires 0 <= i < |es| => String(es[i])), ", ") + "]"
    ensures es == [] ==> String(ArrayNode(tok, es)) == "[]"
  {
    JoinNodesIsJoin(es);
  }

  /** The BlockBodyNode loop is compositional: the text of two statement lists in a row is the two texts in a row. */
  lemma {:induction false} StatementsAppend(a: seq<Node>, b: seq<Node>)
    ensures StatementsText(a + b) == StatementsText(a) + StatementsText(b)
    decreases |a|
  {
    if a != [] {
      assert (a + b)[0] == a[0] && (a + b)[1..] == a[1..] + b;
      StatementsAppend(a[1..], b);
      var head := Indent(String(a[0])) + "\n";
      assert head + (StatementsText(a[1..]) + StatementsText(b)) == (head + StatementsText(a[1..])) + StatementsText(b);
    } else {
      assert a + b == b;
    }
  }

  /**
   * BlockBodyNode.String: "{" and an LF, then each statement in order,
   * indented and followed by an LF, then "}".
   */
  lemma {:induction false} BodyStringAppend(tok: Token, nodes: seq<Node>, n: Node)
    ensures BodyString(Body(tok, [])) == "{\n}"
    ensures BodyString(Body(tok, nodes + [n])) ==
            "{\n" + StatementsText(nodes) + Indent(String(n)) + "\n" + "}"
  {
    StatementsAppend(nodes, [n]);
    var line := Indent(String(n)) + "\n";
    assert [n][1..] == [];
    assert StatementsText([n]) == line + "";
    assert line + "" == line;
    var a := StatementsText(nodes);
    assert "{\n" + (a + line) + "}" == "{\n" + a + Indent(String(n)) + "\n" + "}";
  }

  /** The MapNode loop is compositional: the lines of two entry lists in a row are the two texts in a row. */
  lemma {:induction false} EntriesAppend(a: seq<Entry>, b: seq<Entry>)
    ensures EntriesText(a + b) == EntriesText(a) + EntriesText(b)
    decreases |a|
  {
    if a != [] {
      assert (a + b)[0] == a[0] && (a + b)[1..] == a[1..] + b;
      EntriesAppend(a[1..], b);
      var head := Indent(String(a[0].key) + ": " + String(a[0].value) + ",") + "\n";
      assert head + (EntriesText(a[1..]) + EntriesText(b)) == (head + EntriesText(a[1..])) + EntriesText(b);
    } else {
      assert a + b == b;
    }
  }

  /**
   * MapNode.String: "{" and an LF, then one indented `key: value,` line
   * per entry, in the order the entries are visited, then "}".
   */
  lemma {:induction false} MapStringAppend(tok: Token, entries: seq<Entry>, e: Entry)
    ensures String(MapNode(tok, [])) == "{\n}"
    ensures String(MapNode(tok, entries + [e])) ==
            "{\n" + EntriesText(entries) + Indent(String(e.key) + ": " + String(e.value) + ",") + "\n" + "}"
  {
    EntriesAppend(entries, [e]);
    var line := Indent(String(e.key) + ": " + String(e.value) + ",") + "\n";
    assert [e][1..] == [];
    assert EntriesText([e]) == line + "";
    assert line + "" == line;
    var a := EntriesText(entries);
    assert "{\n" + (a + line) + "}" == "{\n" + a + Indent(String(e.key) + ": " + String(e.value) + ",") + "\n" + "}";
  }

  /** AssignNode.String: the name, " = ", the value's text unless the value is nil, then an LF. */
  lemma {:induction false} AssignString(tok: Token, name: Name, value: Node)
    ensures var r := String(AssignNode(tok, name, value));
            && r[..|name.value|] == name.value
            && r[|name.value|..|name.value| + 3] == " = "
            && r[|r| - 1] == '\n'
            && (value.Nil? ==> r == name.value + " = \n")
            && (!value.Nil? ==> r == name.value + " = " + String(value) + "\n")
  {
    var tail := (if value.Nil? then "" else String(value)) + "\n";
    var r := name.value + " = " + tail;
    assert String(AssignNode(tok, name, value)) == r;
    assert r == name.value + (" = " + tail);
    assert r[..|name.value|] == name.value;
    assert r[|name.value|..] == " = " + tail;
  }

  /** BlockNode.String: the key, a space and the literal of each parameter in order, a space, the body. */
  lemma {:induction false} BlockString(tok: Token, params: seq<Token>, p: Token, body: Body)
    ensures String(BlockNode(tok, [], body)) == tok.literal + " " + BodyString(body)
    ensures ParamsText(params + [p]) == ParamsText(params) + " " + p.literal
    ensures String(BlockNode(tok, params, body)) == tok.literal + ParamsText(params) + " " + BodyString(body)
    ensures String(BlockNode(tok, params + [p], body)) ==
            String(BlockNode(tok, params, body))[..|tok.literal + ParamsText(params)|] + " " + p.literal + " " + BodyString(body)
    decreases |params|
  {
    if params != [] {
      assert (params + [p])[1..] == params[1..] + [p];
      BlockString(tok, params[1..], p, body);
    }
  }

  /**
   * The leaf renderers: an identifier renders its value; a string its token
   * literal between quotes, whatever its value; integers and booleans their
   * token literal; null the text NULL.  TokenLiteral is the token's literal.
   */
  lemma {:induction false} LeafStrings(tok: Token, id: Name, text: string, flag: bool, number: int)
    ensures String(Identifier(id)) == id.value && TokenLiteral(Identifier(id)) == id.token.literal
    ensures String(StringNode(tok, text)) == "\"" + tok.literal + "\""
    ensures String(IntegerNode(tok, number)) == tok.literal
    ensures String(BooleanNode(tok, flag)) == tok.literal
    ensures String(NullNode(tok)) == "NULL"
    ensures TokenLiteral(StringNode(tok, text)) == tok.literal
  {
  }
}
