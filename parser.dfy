/**
 * The two-token-lookahead recursive-descent parser of parser.go and
 * parser_impl.go.
 *
 * A `Parser` holds the lexer, the error list, and the current and peek
 * tokens.  Its ghost state says where in the lexer's token stream the
 * parser stands: `cur` is token number `index` counted from where the
 * parser took the lexer over, and `peek` is the one after it.  Every
 * parse method keeps that relation, lets the error list only grow, never
 * moves backwards, and never raises `Measure()`, which bounds the
 * tokens still to come and so proves that the mutual recursion ends.
 */
module Parsing {
  import opened Tokens
  import opened Syntax
  import opened Lexing
  import opened Wrappers
  import Numbers

  /** What an `errorf` call reports. */
  datatype ErrorKind =
    | UnexpectedToken(expected: TokenType, found: TokenType)
    | NotAllowed(found: TokenType)
    | NoPrefixParser(found: TokenType)
    | BadInteger(literal: string)
    | NestedEnv

  /** One recorded error, tagged with the peek token's line and position. */
  datatype ParseError = ParseError(kind: ErrorKind, line: int, pos: int)

  /** The token types NewParser registers a prefix parser for. */
  const PrefixKinds: set<TokenType> := {TokenType.Ident, Int, Null, True, False, Str, LBracket}

  /** The nodes a prefix parser builds. */
  predicate IsExpression(n: Node) {
    n.Identifier? || n.EnvarNode? || n.IntegerNode? || n.NullNode? ||
    n.BooleanNode? || n.StringNode? || n.ArrayNode? || n.MapNode?
  }

  /** The token an expression node was built from. */
  function HeadToken(n: Node): Token
    requires IsExpression(n)
  {
    if n.Identifier? then n.id.token else n.token
  }

  /** parseNullNode. */
  function ParseNullNode(t: Token): (n: Node)
    ensures n.NullNode? && HeadToken(n) == t
  {
    NullNode(t)
  }

  /** parseBooleanNode: the value is true exactly for a TRUE token. */
  function ParseBooleanNode(t: Token): (n: Node)
    ensures n.BooleanNode? && HeadToken(n) == t
    ensures n.flag <==> t.kind == True
  {
    BooleanNode(t, t.kind == True)
  }

  /** parseStringNode: the value is the token's literal. */
  function ParseStringNode(t: Token): (n: Node)
    ensures n.StringNode? && HeadToken(n) == t && n.text == t.literal
  {
    StringNode(t, t.literal)
  }

  /** The nodes of s that are not nil, in their order: what Parse and parseBlockBodyNode keep. */
  function NonNil(s: seq<Node>): (r: seq<Node>)
    ensures |r| <= |s|
    ensures forall i :: 0 <= i < |r| ==> r[i] != Nil
  {
    if s == [] then [] else NonNil(s[..|s| - 1]) + (if s[|s| - 1] != Nil then [s[|s| - 1]] else [])
  }

  /** NonNil drops exactly the nils: a node is kept if and only if it occurs in s and is not nil. */
  lemma {:induction false} NonNilMembers(s: seq<Node>)
    ensures forall n :: n in NonNil(s) <==> n in s && n != Nil
  {
    if s != [] {
      var init := s[..|s| - 1];
      NonNilMembers(init);
      assert s == init + [s[|s| - 1]];
    }
  }

  /** Without nils, NonNil is the identity. */
  lemma {:induction false} NonNilKeepsAll(s: seq<Node>)
    requires forall i :: 0 <= i < |s| ==> s[i] != Nil
    ensures NonNil(s) == s
  {
    if s != [] {
      NonNilKeepsAll(s[..|s| - 1]);
      assert s == s[..|s| - 1] + [s[|s| - 1]];
    }
  }

  /** The token types a block parameter may have. */
  predicate IsParamKind(k: TokenType) {
    k == Str || k == TokenType.Ident
  }

  class Parser {
    const lex: Lexing.Lexer
    var errors: seq<ParseError>
    var cur: Token
    var peek: Token
    /** How many tokens the lexer had returned when the parser took it over. */
    ghost const base: nat
    /** How many tokens lie before `cur` in the stream. */
    ghost var index: nat

    ghost function Input(): string
    {
      lex.input
    }

    /** Token number n of the stream. */
    ghost function Tok(n: nat): Token
    {
      lex.stream(base + n)
    }

    /** params are the tokens from number `from` on, each a STRING or IDENT, and the token after them is neither. */
    ghost predicate ParamRun(params: seq<Token>, from: nat) {
      ParamsFrom(params, from) && !IsParamKind(Tok(from + |params|).kind)
    }

    /** params are the tokens from number `from` on, each a STRING or IDENT. */
    ghost predicate ParamsFrom(params: seq<Token>, from: nat) {
      forall i :: 0 <= i < |params| ==> params[i] == Tok(from + i) && IsParamKind(params[i].kind)
    }

    /** What parseStatement builds at token number `at`: nil off an IDENT, a nil assignment without `=`, else an assignment to that IDENT. */
    ghost predicate StatementAt(n: Node, at: nat) {
      var t := Tok(at);
      if t.kind != TokenType.Ident then n == Nil
      else if Tok(at + 1).kind != Assign then n == NilAssign
      else n.AssignNode? && n.token == t && n.name == Name(t, t.literal)
    }

    /**
     * What parseNode builds at token number `at`: nil for a comment, an
     * assignment or a block headed by an IDENT, and otherwise either nil
     * or an expression built from that token (always nil for a token
     * without a prefix parser).
     */
    ghost predicate HeadedAt(n: Node, at: nat) {
      var t := Tok(at);
      if t.kind == Comment then n == Nil
      else if t.kind == TokenType.Ident && Tok(at + 1).kind == Assign then
        n.AssignNode? && n.token == t && n.name == Name(t, t.literal)
      else if t.kind == TokenType.Ident && Tok(at + 1).kind in {Str, TokenType.Ident, LBrace} then
        n.BlockNode? && n.token == t
      else if t.kind !in PrefixKinds then n == Nil
      else n == Nil || (IsExpression(n) && HeadToken(n) == t)
    }

    /** Token number `at` directly follows a comma. */
    ghost predicate AfterComma(at: nat) {
      at > 0 && Tok(at - 1).kind == Comma
    }

    /** starts are increasing token numbers from `from` on, each below `upto`, the first (if any) `from` itself. */
    ghost predicate Ascending(starts: seq<nat>, from: nat, upto: nat) {
      && (forall k :: 0 <= k < |starts| ==> from <= starts[k] < upto)
      && (forall i, j :: 0 <= i < j < |starts| ==> starts[i] < starts[j])
      && (starts != [] ==> starts[0] == from)
    }

    /**
     * The rounds of Parse's loop so far: round k parsed stmts[k] at token
     * number starts[k], which is not EOF; the rounds began at token `from`
     * and have read everything before token `upto`.
     */
    ghost predicate StatementRounds(stmts: seq<Node>, starts: seq<nat>, from: nat, upto: nat) {
      && |stmts| == |starts| && Ascending(starts, from, upto)
      && (starts == [] ==> upto == from)
      && (forall k {:trigger StatementRound(stmts[k], starts[k])} :: 0 <= k < |starts| ==> StatementRound(stmts[k], starts[k]))
    }

    /** One round of Parse's loop: parseStatement's result at a token that is not EOF. */
    ghost predicate StatementRound(n: Node, at: nat) {
      StatementAt(n, at) && Tok(at).kind != Eof
    }

    /** The rounds of parseBlockBodyNode's loop so far: as StatementRounds, for parseNode, at tokens that are neither `}` nor EOF. */
    ghost predicate BodyRounds(stmts: seq<Node>, starts: seq<nat>, from: nat, upto: nat) {
      && |stmts| == |starts| && Ascending(starts, from, upto)
      && (starts == [] ==> upto == from)
      && (forall k {:trigger BodyRound(stmts[k], starts[k])} :: 0 <= k < |starts| ==> BodyRound(stmts[k], starts[k]))
    }

    /** One round of parseBlockBodyNode's loop: parseNode's result at a token that is neither `}` nor EOF. */
    ghost predicate BodyRound(n: Node, at: nat) {
      HeadedAt(n, at) && Tok(at).kind != RBrace && Tok(at).kind != Eof
    }

    /** The entries of a list so far: entry k was parsed at token number starts[k], and every entry but the first right after a comma. */
    ghost predicate ListRounds(list: seq<Node>, starts: seq<nat>, from: nat, upto: nat) {
      && |list| == |starts| && Ascending(starts, from, upto)
      && (forall k {:trigger HeadedAt(list[k], starts[k])} :: 0 <= k < |starts| ==> HeadedAt(list[k], starts[k]))
      && (forall k {:trigger AfterComma(starts[k])} :: 0 < k < |starts| ==> AfterComma(starts[k]))
    }

    /** One more round of Parse's loop, begun where the others ended. */
    lemma {:induction false} StatementRoundsSnoc(stmts: seq<Node>, starts: seq<nat>, from: nat, upto: nat, n: Node, upto': nat)
      requires StatementRounds(stmts, starts, from, upto)
      requires StatementRound(n, upto) && upto < upto'
      ensures StatementRounds(stmts + [n], starts + [upto], from, upto')
    {
      forall k | 0 <= k < |starts| + 1
        ensures StatementRound((stmts + [n])[k], (starts + [upto])[k])
      {
        if k < |starts| {
          assert StatementRound(stmts[k], starts[k]);
        }
      }
    }

    /** One more round of parseBlockBodyNode's loop, begun where the others ended. */
    lemma {:induction false} BodyRoundsSnoc(stmts: seq<Node>, starts: seq<nat>, from: nat, upto: nat, n: Node, upto': nat)
      requires BodyRounds(stmts, starts, from, upto)
      requires BodyRound(n, upto) && upto < upto'
      ensures BodyRounds(stmts + [n], starts + [upto], from, upto')
    {
      forall k | 0 <= k < |starts| + 1
        ensures BodyRound((stmts + [n])[k], (starts + [upto])[k])
      {
        if k < |starts| {
          assert BodyRound(stmts[k], starts[k]);
        }
      }
    }

    /** One more list entry, parsed at `at`: the first at `from`, any other after a comma past the earlier ones. */
    lemma {:induction false} ListRoundsSnoc(list: seq<Node>, starts: seq<nat>, from: nat, upto: nat, n: Node, at: nat, upto': nat)
      requires ListRounds(list, starts, from, upto)
      requires HeadedAt(n, at) && upto <= at < upto'
      requires if list == [] then at == from else AfterComma(at)
      ensures ListRounds(list + [n], starts + [at], from, upto')
    {
      forall k | 0 <= k < |starts| + 1
        ensures HeadedAt((list + [n])[k], (starts + [at])[k])
        ensures 0 < k ==> AfterComma((starts + [at])[k])
      {
        if k < |starts| {
          assert HeadedAt(list[k], starts[k]);
          assert 0 < k ==> AfterComma(starts[k]);
        }
      }
    }

    /** The nodes of one more round: NonNil keeps the new node unless it is nil. */
    static lemma {:induction false} NonNilSnoc(s: seq<Node>, n: Node)
      ensures NonNil(s + [n]) == NonNil(s) + (if n != Nil then [n] else [])
    {
      assert (s + [n])[..|s|] == s;
    }

    ghost predicate Valid()
      reads this, lex
    {
      && lex.InStream()
      && lex.count == base + index + 2
      && cur == Tok(index)
      && peek == Tok(index + 1)
      && Lexable(cur) && Lexable(peek)
      && (peek.kind != Eof ==> lex.pos <= |lex.input|)
    }

    /** An upper bound on what is left: three per unread byte, one per buffered token that is not EOF. */
    function Measure(): nat
      reads this, lex
    {
      3 * (if lex.pos <= |lex.input| then |lex.input| + 1 - lex.pos else 0)
      + (if cur.kind != Eof then 1 else 0)
      + (if peek.kind != Eof then 1 else 0)
    }

    /** NewParser: cur and peek are the lexer's first two tokens, and there are no errors. */
    constructor (lex: Lexing.Lexer)
      requires lex.InStream()
      modifies lex
      ensures Valid() && this.lex == lex && errors == [] && index == 0
      ensures base == old(lex.count)
      ensures cur == lex.stream(old(lex.count)) && peek == lex.stream(old(lex.count) + 1)
    {
      this.lex := lex;
      base := lex.count;
      errors := [];
      index := 0;
      var first := lex.NextToken();
      var second := lex.NextToken();
      cur, peek := first, second;
    }

    /** nextToken: the peek token becomes current and the lexer supplies a new peek token. */
    method NextToken()
      requires Valid()
      modifies this, lex
      ensures Valid()
      ensures cur == old(peek) && index == old(index) + 1 && errors == old(errors)
      ensures Measure() <= old(Measure())
      ensures old(Measure()) > 0 ==> Measure() < old(Measure())
    {
      ghost var i := index;
      var t := lex.NextToken();
      assert t == Tok(i + 2);
      cur, peek := peek, t;
      index := index + 1;
    }

    /** errorf: exactly one error is appended, tagged with the peek token's position. */
    method Errorf(kind: ErrorKind)
      requires Valid()
      modifies this
      ensures Valid() && Measure() == old(Measure())
      ensures errors == old(errors) + [ParseError(kind, peek.line, peek.pos)]
      ensures cur == old(cur) && peek == old(peek) && index == old(index)
    {
      errors := errors + [ParseError(kind, peek.line, peek.pos)];
    }

    /** peekError: records an error when peek has another type, and reports none. */
    method PeekError(kind: TokenType) returns (err: Option<ParseError>)
      requires Valid()
      modifies this
      ensures Valid() && Measure() == old(Measure())
      ensures err == None
      ensures cur == old(cur) && peek == old(peek) && index == old(index)
      ensures errors == old(errors) +
        (if peek.kind != kind then [ParseError(UnexpectedToken(kind, peek.kind), peek.line, peek.pos)] else [])
    {
      if peek.kind != kind {
        Errorf(UnexpectedToken(kind, peek.kind));
      }
      err := None;
    }

    /** expectPeek: always moves one token on and succeeds; a type mismatch only adds an error. */
    method ExpectPeek(kind: TokenType) returns (ok: bool)
      requires Valid()
      modifies this, lex
      ensures Valid() && Measure() <= old(Measure())
      ensures ok && index == old(index) + 1 && cur == old(peek)
      ensures errors == old(errors) +
        (if old(peek).kind != kind then [ParseError(UnexpectedToken(kind, old(peek).kind), old(peek).line, old(peek).pos)] else [])
    {
      var err := PeekError(kind);
      if err.Some? {
        return false;
      }
      NextToken();
      ok := true;
    }

    /**
     * Parse: one statement per round up to EOF, the k-th parsed at token
     * number starts[k]; the nodes kept are the statements that are not
     * nil, in order.
     */
    method Parse() returns (ast: Ast, ghost stmts: seq<Node>, ghost starts: seq<nat>)
      requires Valid()
      modifies this, lex
      ensures Valid() && cur.kind == Eof
      ensures old(errors) <= errors && old(index) <= index
      ensures StatementRounds(stmts, starts, old(index), index) && ast.nodes == NonNil(stmts)
      ensures old(cur).kind == Eof ==> starts == []
      ensures forall i :: 0 <= i < |ast.nodes| ==> ast.nodes[i].AssignNode? || ast.nodes[i].NilAssign?
    {
      var nodes: seq<Node> := [];
      stmts, starts := [], [];
      ghost var i0 := index;
      while cur.kind != Eof
        invariant Valid() && old(errors) <= errors && i0 <= index
        invariant StatementRounds(stmts, starts, i0, index) && nodes == NonNil(stmts)
        invariant forall i :: 0 <= i < |nodes| ==> nodes[i].AssignNode? || nodes[i].NilAssign?
        decreases Measure()
      {
        ghost var at := index;
        var stmt := ParseStatementRound();
        StatementRoundsSnoc(stmts, starts, i0, at, stmt, index);
        NonNilSnoc(stmts, stmt);
        stmts, starts := stmts + [stmt], starts + [at];
        if stmt != Nil {
          nodes := nodes + [stmt];
        }
      }
      if starts != [] {
        assert StatementRound(stmts[0], starts[0]);
      }
      ast := Ast(nodes);
    }

    /** One round of Parse's loop: a statement parsed at cur, then one token on. */
    method ParseStatementRound() returns (stmt: Node)
      requires Valid() && cur.kind != Eof
      modifies this, lex
      ensures Valid() && Measure() < old(Measure())
      ensures old(errors) <= errors && old(index) < index
      ensures StatementRound(stmt, old(index))
      ensures stmt == Nil || stmt.AssignNode? || stmt.NilAssign?
    {
      stmt := ParseStatement();
      NextToken();
    }

    /**
     * parseStatement: an IDENT goes to assignment parsing, anything else
     * gives nil.  An assignment that is not one gives a nil pointer in a
     * non-nil interface, which Parse keeps.
     */
    method ParseStatement() returns (n: Node)
      requires Valid()
      modifies this, lex
      ensures Valid() && Measure() <= old(Measure())
      ensures old(errors) <= errors && old(index) <= index
      ensures old(cur).kind != TokenType.Ident ==> n == Nil && index == old(index) && errors == old(errors)
      ensures old(cur).kind == TokenType.Ident ==> (n.NilAssign? <==> old(peek).kind != Assign)
      ensures StatementAt(n, old(index))
      ensures n == Nil || n.AssignNode? || n.NilAssign?
      decreases Measure(), 6
    {
      if cur.kind == TokenType.Ident {
        n := ParseAssignNode();
      } else {
        n := Nil;
      }
    }

    /**
     * parseNode, which the files modelled call but do not define: a
     * comment gives nil, `IDENT =` an assignment, an IDENT followed by a
     * parameter or `{` a block, and anything else an expression.
     */
    method ParseNode() returns (n: Node)
      requires Valid()
      modifies this, lex
      ensures Valid() && Measure() <= old(Measure())
      ensures old(errors) <= errors && old(index) <= index
      ensures old(cur).kind == Comment ==> n == Nil && index == old(index)
      ensures HeadedAt(n, old(index))
      decreases Measure(), 6
    {
      if cur.kind == Comment {
        n := Nil;
      } else if cur.kind == TokenType.Ident && peek.kind == Assign {
        n := ParseAssignNode();
      } else if cur.kind == TokenType.Ident && peek.kind in {Str, TokenType.Ident, LBrace} {
        var b, _, _ := ParseBlockNode();
        n := b;
      } else {
        n := ParseExpression([]);
      }
    }

    /**
     * parseExpression: a token outside a non-empty allowed list, or
     * without a prefix parser, records an error and gives nil without
     * moving; otherwise the prefix parser's node, built from cur.
     */
    method ParseExpression(allowed: seq<TokenType>) returns (n: Node)
      requires Valid()
      modifies this, lex
      ensures Valid() && Measure() <= old(Measure())
      ensures old(errors) <= errors && old(index) <= index
      ensures |allowed| > 0 && old(cur).kind !in allowed ==>
                && n == Nil && index == old(index)
                && errors == old(errors) + [ParseError(NotAllowed(old(cur).kind), old(peek).line, old(peek).pos)]
      ensures (|allowed| == 0 || old(cur).kind in allowed) && old(cur).kind !in PrefixKinds ==>
                && n == Nil && index == old(index)
                && errors == old(errors) + [ParseError(NoPrefixParser(old(cur).kind), old(peek).line, old(peek).pos)]
      ensures n != Nil ==> IsExpression(n) && HeadToken(n) == old(cur)
      decreases Measure(), 4
    {
      if |allowed| > 0 && cur.kind !in allowed {
        Errorf(NotAllowed(cur.kind));
        return Nil;
      }
      if cur.kind !in PrefixKinds {
        Errorf(NoPrefixParser(cur.kind));
        return Nil;
      }
      n := ParsePrefix();
    }

    /** The prefix parser registered for cur's type. */
    method ParsePrefix() returns (n: Node)
      requires Valid() && cur.kind in PrefixKinds
      modifies this, lex
      ensures Valid() && Measure() <= old(Measure())
      ensures old(errors) <= errors && old(index) <= index
      ensures old(cur).kind == Null ==> n == ParseNullNode(old(cur))
      ensures old(cur).kind in {True, False} ==> n == ParseBooleanNode(old(cur))
      ensures old(cur).kind == Str ==> n == ParseStringNode(old(cur))
      ensures n != Nil ==> IsExpression(n) && HeadToken(n) == old(cur)
      decreases Measure(), 3
    {
      if cur.kind == TokenType.Ident {
        n := ParseIdentifier();
      } else if cur.kind == Int {
        n := ParseIntegerNode();
      } else if cur.kind == Null {
        n := ParseNullNode(cur);
      } else if cur.kind == True || cur.kind == False {
        n := ParseBooleanNode(cur);
      } else if cur.kind == Str {
        n := ParseStringNode(cur);
      } else {
        n := ParseArrayNode();
      }
    }

    /**
     * parseIntegerNode: the value of the literal read as strconv.ParseInt
     * with base 0 reads it (octal after a leading 0); a literal outside
     * int64 records an error and gives nil.
     */
    method ParseIntegerNode() returns (n: Node)
      requires Valid() && cur.kind == Int
      modifies this
      ensures Valid() && Measure() == old(Measure())
      ensures cur == old(cur) && peek == old(peek) && index == old(index)
      ensures Numbers.ParseIntLiteral(cur.literal).Some? ==>
                n == IntegerNode(cur, Numbers.ParseIntLiteral(cur.literal).value) && errors == old(errors)
      ensures Numbers.ParseIntLiteral(cur.literal).None? ==>
                n == Nil && errors == old(errors) + [ParseError(BadInteger(cur.literal), peek.line, peek.pos)]
      ensures n.IntegerNode? ==> 0 <= n.number < Numbers.Pow2(63)
    {
      var value := Numbers.ParseIntLiteral(cur.literal);
      if value.None? {
        Errorf(BadInteger(cur.literal));
        return Nil;
      }
      n := IntegerNode(cur, value.value);
    }

    /**
     * parseIdentifier: `env (` NAME `)` gives an EnvarNode naming NAME;
     * the two expectPeek calls move on whatever they find and record the
     * mismatches.  Any other identifier gives Identifier(literal) and
     * does not move.
     */
    method ParseIdentifier() returns (n: Node)
      requires Valid()
      modifies this, lex
      ensures Valid() && Measure() <= old(Measure())
      ensures old(errors) <= errors && old(index) <= index
      ensures !(old(cur).literal == "env" && old(peek).kind == LParen) ==>
                && n == Identifier(Name(old(cur), old(cur).literal))
                && index == old(index) && errors == old(errors)
      ensures old(cur).literal == "env" && old(peek).kind == LParen ==>
                var name := Tok(old(index) + 2);
                var after := Tok(old(index) + 3);
                if name.literal == "env" && after.kind == LParen then
                  n == Nil && index == old(index) + 2
                else
                  && n == EnvarNode(old(cur), Name(name, name.literal))
                  && index == old(index) + 3
                  && errors == old(errors)
                     + (if name.kind != TokenType.Ident then [ParseError(UnexpectedToken(TokenType.Ident, name.kind), name.line, name.pos)] else [])
                     + (if after.kind != RParen then [ParseError(UnexpectedToken(RParen, after.kind), after.line, after.pos)] else [])
      decreases Measure(), 2
    {
      if cur.literal == "env" && peek.kind == LParen {
        var envToken := cur;
        NextToken();
        var ok := ExpectPeek(TokenType.Ident);
        if !ok {
          return Nil;
        }
        if cur.literal == "env" && peek.kind == LParen {
          // the nested call would build an EnvarNode, which the
          // `.(*Identifier)` assertion rejects with a panic
          Errorf(NestedEnv);
          return Nil;
        }
        var name := Name(cur, cur.literal);
        ok := ExpectPeek(RParen);
        if !ok {
          return Nil;
        }
        return EnvarNode(envToken, name);
      }
      n := Identifier(Name(cur, cur.literal));
    }

    /** parseArrayNode: an ArrayNode at `[` holding the list entries up to `]`. */
    method ParseArrayNode() returns (n: Node)
      requires Valid() && cur.kind == LBracket
      modifies this, lex
      ensures Valid() && Measure() <= old(Measure())
      ensures old(errors) <= errors && old(index) < index
      ensures n.ArrayNode? && n.token == old(cur)
      ensures n.elements == [] <==> old(peek).kind == RBracket
      decreases Measure(), 2
    {
      var tok := cur;
      var list, _ := ParseListEntries(RBracket);
      n := ArrayNode(tok, list);
    }

    /**
     * parseListEntries: empty when the token after the opener is the
     * closer; otherwise one node parsed at the token after the opener,
     * then one more per comma, each parsed at the token after its comma
     * (the k-th at token number starts[k]); then the closer is expected.
     */
    method ParseListEntries(close: TokenType) returns (list: seq<Node>, ghost starts: seq<nat>)
      requires Valid() && cur.kind != Eof
      modifies this, lex
      ensures Valid() && Measure() < old(Measure())
      ensures old(errors) <= errors && old(index) < index
      ensures old(peek).kind == close ==> list == [] && index == old(index) + 1 && errors == old(errors)
      ensures old(peek).kind != close ==> |list| >= 1
      ensures ListRounds(list, starts, old(index) + 1, index)
      ensures old(peek).kind != close && cur.kind != close ==>
                |errors| > |old(errors)| && errors[|errors| - 1].kind == UnexpectedToken(close, cur.kind)
      decreases Measure(), 1
    {
      NextToken();
      if cur.kind == close {
        return [], [];
      }
      list, starts := ParseListItems(close);
    }

    /** The non-empty case of parseListEntries: the node at cur, then the comma loop and the closer. */
    method ParseListItems(close: TokenType) returns (list: seq<Node>, ghost starts: seq<nat>)
      requires Valid() && cur.kind != close
      modifies this, lex
      ensures Valid() && Measure() <= old(Measure())
      ensures old(errors) <= errors && old(index) < index
      ensures |list| >= 1 && ListRounds(list, starts, old(index), index)
      ensures cur.kind != close ==>
                |errors| > |old(errors)| && errors[|errors| - 1].kind == UnexpectedToken(close, cur.kind)
      decreases Measure(), 7
    {
      ghost var at := index;
      var first := ParseNode();
      ListRoundsSnoc([], [], at, at, first, at, index + 1);
      list, starts := ParseListTail(close, [first], [at]);
    }

    /** The rest of parseListEntries after its first node: one more node per comma, then the closer is expected. */
    method ParseListTail(close: TokenType, first: seq<Node>, ghost starts0: seq<nat>) returns (list: seq<Node>, ghost starts: seq<nat>)
      requires Valid() && |first| == 1 && |starts0| == 1 && ListRounds(first, starts0, starts0[0], index + 1)
      modifies this, lex
      ensures Valid() && Measure() <= old(Measure())
      ensures old(errors) <= errors && old(index) < index
      ensures |list| >= 1 && ListRounds(list, starts, starts0[0], index)
      ensures cur.kind != close ==>
                |errors| > |old(errors)| && errors[|errors| - 1].kind == UnexpectedToken(close, cur.kind)
      decreases Measure(), 2
    {
      list, starts := ParseCommaEntries(first, starts0);
      var ok := ExpectPeek(close);
      if !ok {
        return [], [];
      }
    }

    /** The comma loop of parseListEntries: one more node per comma, each parsed at the token after it. */
    method ParseCommaEntries(first: seq<Node>, ghost starts0: seq<nat>) returns (list: seq<Node>, ghost starts: seq<nat>)
      requires Valid() && |first| >= 1 && |starts0| >= 1 && ListRounds(first, starts0, starts0[0], index + 1)
      modifies this, lex
      ensures Valid() && Measure() <= old(Measure())
      ensures old(errors) <= errors && old(index) <= index
      ensures peek.kind != Comma
      ensures |list| >= |first| && ListRounds(list, starts, starts0[0], index + 1)
      decreases Measure(), 1
    {
      list, starts := first, starts0;
      ghost var from := starts0[0];
      while peek.kind == Comma
        invariant Valid() && Measure() <= old(Measure())
        invariant old(errors) <= errors && old(index) <= index
        invariant |list| >= |first| && ListRounds(list, starts, from, index + 1)
        decreases Measure()
      {
        var item;
        ghost var at;
        item, at := ParseCommaEntry();
        ListRoundsSnoc(list, starts, from, at - 1, item, at, index + 1);
        list, starts := list + [item], starts + [at];
      }
    }

    /** One round of parseListEntries' loop: past the comma, one node parsed at the token after it. */
    method ParseCommaEntry() returns (item: Node, ghost at: nat)
      requires Valid() && peek.kind == Comma
      modifies this, lex
      ensures Valid() && Measure() < old(Measure())
      ensures old(errors) <= errors && at == old(index) + 2 && at <= index
      ensures AfterComma(at) && HeadedAt(item, at)
      decreases Measure(), 0
    {
      NextToken();
      assert AfterComma(index + 1);
      NextToken();
      at := index;
      item := ParseNode();
    }

    /**
     * parseMapBody: an empty map for `{}`; otherwise the first key must
     * be followed by `:`, which the lexer never produces, so an error is
     * recorded and the result is nil.
     */
    method ParseMapBody() returns (body: Option<seq<Entry>>)
      requires Valid()
      modifies this, lex
      ensures Valid() && Measure() <= old(Measure())
      ensures old(errors) <= errors && old(index) <= index
      ensures var first := if old(cur).kind == LBrace then old(peek) else old(cur);
              && (first.kind == RBrace ==> body == Some([]) && errors == old(errors))
              && (first.kind != RBrace ==> body == None && |errors| == |old(errors)| + 1
                                           && errors[|old(errors)|].kind == NoPrefixParser(first.kind))
    {
      body := Some([]);
      if cur.kind == LBrace {
        NextToken();
      }
      if cur.kind == RBrace {
        return;
      }
      if peek.kind != Colon {
        Errorf(NoPrefixParser(cur.kind));
        return None;
      }
      // peek is a lexer token and so never a COLON: the entry loop is unreachable
      assert false;
    }

    /** parseMapNode: a MapNode at cur; from lexer tokens it never has entries. */
    method ParseMapNode() returns (n: Node)
      requires Valid()
      modifies this, lex
      ensures Valid() && Measure() <= old(Measure())
      ensures old(errors) <= errors && old(index) <= index
      ensures n.MapNode? && n.token == old(cur) && n.entries == []
    {
      var tok := cur;
      var body := ParseMapBody();
      n := MapNode(tok, if body.Some? then body.value else []);
    }

    /**
     * parseAssignNode: nil, without consuming anything, unless peek is
     * `=`; otherwise Name is the current identifier and Value the
     * expression starting at the token after `=`.
     */
    method ParseAssignNode() returns (n: Node)
      requires Valid()
      modifies this, lex
      ensures Valid() && Measure() <= old(Measure())
      ensures old(errors) <= errors && old(index) <= index
      ensures old(peek).kind != Assign ==> n == NilAssign && index == old(index) && errors == old(errors)
      ensures old(peek).kind == Assign ==>
                && n.AssignNode? && n.token == old(cur)
                && n.name == Name(old(cur), old(cur).literal)
                && index >= old(index) + 2
                && (n.expr != Nil ==> IsExpression(n.expr) && HeadToken(n.expr) == Tok(old(index) + 2))
      decreases Measure(), 5
    {
      var tok := cur;
      if peek.kind != Assign {
        return NilAssign;
      }
      var name := Name(cur, cur.literal);
      NextToken();
      NextToken();
      var value := ParseExpression([]);
      n := AssignNode(tok, name, value);
    }

    /**
     * parseBlockNode: the consecutive STRING/IDENT tokens after the key
     * are the parameters, in order; then `(` is expected (and the
     * mismatch recorded) and the body is parsed: its statements are
     * the parseNode rounds from the token after the `(`, which sits
     * two tokens past the last parameter.
     */
    method ParseBlockNode() returns (n: Node, ghost stmts: seq<Node>, ghost starts: seq<nat>)
      requires Valid()
      modifies this, lex
      ensures Valid() && Measure() <= old(Measure())
      ensures old(errors) <= errors && old(index) < index
      ensures n.BlockNode? && n.token == old(cur)
      ensures ParamRun(n.params, old(index) + 1)
      ensures n.body.token == Tok(old(index) + |n.params| + 2)
      ensures BodyRounds(stmts, starts, old(index) + |n.params| + 3, index)
      ensures n.body.nodes == NonNil(stmts)
      decreases Measure(), 5
    {
      var tok, params, ok := ParseBlockHead();
      if !ok {
        return Nil, [], [];
      }
      var body;
      body, stmts, starts := ParseBlockBodyNode();
      n := BlockNode(tok, params, body);
    }

    /** The first half of parseBlockNode: the key, its parameters, and the expected `(`. */
    method ParseBlockHead() returns (tok: Token, params: seq<Token>, ok: bool)
      requires Valid()
      modifies this, lex
      ensures Valid() && Measure() <= old(Measure())
      ensures old(errors) <= errors && index == old(index) + 2 + |params|
      ensures ok && tok == old(cur)
      ensures ParamRun(params, old(index) + 1)
      ensures Tok(old(index) + 2 + |params|).kind != LParen ==> |errors| > |old(errors)|
    {
      tok := cur;
      NextToken();
      ghost var at := index;
      params := ParseParams(at);
      assert peek == Tok(at + |params| + 1);
      ok := ExpectPeek(LParen);
    }

    /** The parameter loop of parseBlockNode: the run of STRING/IDENT tokens from cur, in order. */
    method ParseParams(ghost from: nat) returns (params: seq<Token>)
      requires Valid() && index == from
      modifies this, lex
      ensures Valid() && Measure() <= old(Measure())
      ensures index == from + |params| && errors == old(errors)
      ensures ParamRun(params, from)
    {
      params := [];
      ghost var m0, e0 := Measure(), errors;
      while IsParamKind(cur.kind)
        invariant Valid() && Measure() <= m0
        invariant index == from + |params| && errors == e0
        invariant ParamsFrom(params, from)
        decreases Measure()
      {
        params := params + [cur];
        NextToken();
      }
    }

    /** One round of parseBlockBodyNode's loop: a node parsed at cur, then one token on. */
    method ParseBodyRound() returns (stmt: Node)
      requires Valid() && cur.kind != RBrace && cur.kind != Eof
      modifies this, lex
      ensures Valid() && Measure() < old(Measure())
      ensures old(errors) <= errors && old(index) < index
      ensures BodyRound(stmt, old(index))
      decreases Measure(), 7
    {
      stmt := ParseNode();
      NextToken();
    }

    /**
     * The loop of parseBlockBodyNode, from the token after `{`: one round
     * per token until `}` or EOF. m0 is the measure before `{` was passed.
     */
    method ParseBodyRounds(ghost m0: nat) returns (nodes: seq<Node>, ghost stmts: seq<Node>, ghost starts: seq<nat>)
      requires Valid() && Measure() <= m0 && (cur.kind == Eof || Measure() < m0)
      modifies this, lex
      ensures Valid() && Measure() <= old(Measure())
      ensures old(errors) <= errors && old(index) <= index
      ensures cur.kind == RBrace || cur.kind == Eof
      ensures BodyRounds(stmts, starts, old(index), index) && nodes == NonNil(stmts)
      decreases m0, 3
    {
      nodes, stmts, starts := [], [], [];
      ghost var e0, i0 := errors, index;
      while cur.kind != RBrace && cur.kind != Eof
        invariant Valid() && Measure() <= m0
        invariant cur.kind == Eof || Measure() < m0
        invariant Measure() <= old(Measure())
        invariant e0 <= errors && i0 <= index
        invariant BodyRounds(stmts, starts, i0, index) && nodes == NonNil(stmts)
        decreases Measure()
      {
        ghost var at := index;
        var stmt := ParseBodyRound();
        BodyRoundsSnoc(stmts, starts, i0, at, stmt, index);
        NonNilSnoc(stmts, stmt);
        stmts, starts := stmts + [stmt], starts + [at];
        if stmt != Nil {
          nodes := nodes + [stmt];
        }
      }
    }

    /**
     * parseBlockBodyNode: one parseNode call per round from the token
     * after `(` until `}` or EOF, the k-th at token number starts[k];
     * the body holds the results that are not nil, in order.
     */
    method ParseBlockBodyNode() returns (body: Body, ghost stmts: seq<Node>, ghost starts: seq<nat>)
      requires Valid()
      modifies this, lex
      ensures Valid() && Measure() <= old(Measure())
      ensures old(errors) <= errors && old(index) < index
      ensures cur.kind == RBrace || cur.kind == Eof
      ensures body.token == old(cur)
      ensures BodyRounds(stmts, starts, old(index) + 1, index) && body.nodes == NonNil(stmts)
      decreases Measure(), 4
    {
      var tok := cur;
      ghost var m0 := old(Measure());
      NextToken();
      var nodes;
      nodes, stmts, starts := ParseBodyRounds(m0);
      body := Body(tok, nodes);
    }
  }
}
