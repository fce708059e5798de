/**
 * Token kinds, the token record and the keyword table (token.go).
 */
module Tokens {

  /**
   * The token types of token.go; `Str` is TknString and `Unset` is the
   * zero value (the empty string), which tokens built by the encoder carry.
   */
  datatype TokenType =
    | Unset
    | Illegal | Eof
    | Ident | Int | Str
    | Assign | Hash | LessThan | GreaterThan
    | Comma | Colon
    | LParen | RParen | LBrace | RBrace | LBracket | RBracket
    | True | False | Null | Comment

  /** A positioned token: its type, its literal text, its line and its column. */
  datatype Token = Token(kind: TokenType, literal: string, line: int, pos: int)

  /** A token with only a literal, as a Go composite literal `Token{Literal: s}` builds it. */
  function LiteralToken(s: string): Token {
    Token(Unset, s, 0, 0)
  }

  /** The keyword table: exactly three reserved identifiers. */
  const Keywords: map<string, TokenType> := map["true" := True, "false" := False, "null" := Null]

  /**
   * lookupIdent: the keyword type for a reserved identifier, IDENT for every
   * other string. Matching is exact and case-sensitive.
   */
  function LookupIdent(ident: string): (t: TokenType)
    ensures t in {Ident, True, False, Null}
  {
    if ident in Keywords then Keywords[ident] else Ident
  }

  /** Exactly the three reserved words map to their keyword types; every other string is IDENT. */
  lemma {:induction false} LookupIdentCases(ident: string)
    ensures LookupIdent(ident) == True <==> ident == "true"
    ensures LookupIdent(ident) == False <==> ident == "false"
    ensures LookupIdent(ident) == Null <==> ident == "null"
    ensures LookupIdent(ident) == Ident <==> ident != "true" && ident != "false" && ident != "null"
  {
  }
}
