/**
 * The byte-cursor scanner of lexer.go.
 *
 * The pure functions below describe what one call of NextToken does to the
 * cursor (pos, line, linePos) and which token it returns; the class `Lexer`
 * is the imperative cursor itself, and each of its loops is proved to compute
 * the matching function.  Text is a `string` whose characters stand for the
 * bytes of the Go string.  Where the Go code writes a byte with
 * `string(char)` (comments, string literals, ILLEGAL tokens) the byte is
 * converted as a code point, so a byte from 0x80 up becomes two bytes of
 * UTF-8: `EncodeRune`.
 */
module Lexing {
  import opened Tokens
  import Numbers
  import opened Wrappers
  import opened Text

  /** The byte the cursor reports past the end of the input. */
  const NUL: char := 0 as char

  /** The byte at index i, or NUL outside the input (readChar and peekChar). */
  function CharAt(s: string, i: int): char {
    if 0 <= i < |s| then s[i] else NUL
  }

  predicate NoNul(s: string) {
    forall i :: 0 <= i < |s| ==> s[i] != NUL
  }

  predicate IsWhitespace(c: char) {
    c == ' ' || c == '\t' || c == '\n' || c == '\r'
  }

  /** isIdentChar: letters and '_' anywhere, digits only after the first byte. */
  predicate IsIdentChar(c: char, subsequent: bool) {
    (subsequent && Numbers.IsDigit(c)) || ('a' <= c <= 'z') || ('A' <= c <= 'Z') || c == '_'
  }

  /** The single-byte punctuation NextToken recognises: `, ( ) { } [ ] =`. */
  predicate IsPunct(c: char) {
    c == ',' || c == '(' || c == ')' || c == '{' || c == '}' || c == '[' || c == ']' || c == '='
  }

  /** The token type of a punctuation byte. */
  function Punctuation(c: char): (t: TokenType)
    requires IsPunct(c)
  {
    match c
    case ',' => Comma
    case '(' => LParen
    case ')' => RParen
    case '{' => LBrace
    case '}' => RBrace
    case '[' => LBracket
    case ']' => RBracket
    case _ => Assign
  }

  /** The cursor: index of the current byte, current line, column counter. */
  datatype LexState = LexState(pos: nat, line: int, linePos: int)

  /** n calls of readChar: the index and the column move together. */
  function Advance(st: LexState, n: nat): LexState {
    LexState(st.pos + n, st.line, st.linePos + n)
  }

  /** Number of LF bytes at indices i .. j-1. */
  function CountNewlines(s: string, i: nat, j: nat): nat
    decreases j - i
  {
    if i >= j then 0 else (if CharAt(s, i) == '\n' then 1 else 0) + CountNewlines(s, i + 1, j)
  }

  /**
   * consumeWhitespace: skips spaces, tabs, CR and LF; each LF adds one to the
   * line and restarts the column counter.
   */
  function SkipWhitespace(s: string, st: LexState): (r: LexState)
    ensures st.pos <= r.pos
    ensures st.pos <= |s| ==> r.pos <= |s|
    ensures !IsWhitespace(CharAt(s, r.pos))
    decreases |s| - st.pos
  {
    var c := CharAt(s, st.pos);
    if !IsWhitespace(c) then st
    else
      var st' := if c == '\n' then LexState(st.pos, st.line + 1, 0) else st;
      SkipWhitespace(s, Advance(st', 1))
  }

  /** The end of a run of identifier bytes (digits included) starting at i. */
  function IdentEnd(s: string, i: nat): (j: nat)
    ensures i <= j
    ensures i <= |s| ==> j <= |s|
    ensures !IsIdentChar(CharAt(s, j), true)
    decreases |s| - i
  {
    if IsIdentChar(CharAt(s, i), true) then IdentEnd(s, i + 1) else i
  }

  /** The end of a run of decimal digits starting at i. */
  function DigitsEnd(s: string, i: nat): (j: nat)
    ensures i <= j
    ensures i <= |s| ==> j <= |s|
    ensures !Numbers.IsDigit(CharAt(s, j))
    decreases |s| - i
  {
    if Numbers.IsDigit(CharAt(s, i)) then DigitsEnd(s, i + 1) else i
  }

  /**
   * readLineComment: the index at which the comment loop stops: the byte
   * before the end of input, a CR not followed by LF, or an LF.  The bytes
   * before that index, each written as a code point, are the comment's
   * literal.
   */
  function CommentEnd(s: string, i: nat): (e: nat)
    requires i < |s|
    ensures i <= e < |s|
    ensures forall k :: i <= k < e ==> s[k] != '\n'
    ensures CharAt(s, e + 1) == NUL || (s[e] == '\r' && CharAt(s, e + 1) != '\n') || s[e] == '\n'
    decreases |s| - i
  {
    var c := s[i];
    var peek := CharAt(s, i + 1);
    if peek == NUL || (c == '\r' && peek != '\n') || c == '\n' then i
    else CommentEnd(s, i + 1)
  }

  /** The buffer after writing the bytes at indices a .. b-1 in turn, each as a code point. */
  function WriteBytes(s: string, a: nat, b: nat): string
    requires a <= b <= |s|
    decreases b - a
  {
    if a == b then "" else WriteBytes(s, a, b - 1) + EncodeRune(s[b - 1])
  }

  /** Bytes below 0x80 are written as they are. */
  lemma {:induction false} WriteBytesAscii(s: string, a: nat, b: nat)
    requires a <= b <= |s|
    requires forall k :: a <= k < b ==> s[k] as int < 0x80
    ensures WriteBytes(s, a, b) == s[a..b]
    decreases b - a
  {
    if a < b {
      WriteBytesAscii(s, a, b - 1);
      assert s[a..b] == s[a..b - 1] + [s[b - 1]];
    }
  }

  /** A byte below 0x80 is written somewhere exactly when it is among the bytes read. */
  lemma {:induction false} WriteBytesLacks(s: string, a: nat, b: nat, c: char)
    requires a <= b <= |s| && c as int < 0x80
    ensures Lacks(WriteBytes(s, a, b), c) <==> forall k :: a <= k < b ==> s[k] != c
    decreases b - a
  {
    if a < b {
      WriteBytesLacks(s, a, b - 1, c);
      var w := WriteBytes(s, a, b - 1);
      var r := EncodeRune(s[b - 1]);
      assert WriteBytes(s, a, b) == w + r;
      assert Lacks(r, c) <==> s[b - 1] != c by {
        if |r| == 1 {
          assert r == [s[b - 1]] && r[0] == s[b - 1];
        } else {
          forall k | 0 <= k < |r| ensures r[k] != c {
            assert r[k] as int >= 0x80;
          }
        }
      }
      if !Lacks(w, c) {
        var i :| 0 <= i < |w| && w[i] == c;
        assert (w + r)[i] == c;
      }
      if !Lacks(r, c) {
        var i :| 0 <= i < |r| && r[i] == c;
        assert (w + r)[|w| + i] == c;
      }
    }
  }

  /** A first byte below 0x80 is also the first byte written. */
  lemma {:induction false} WriteBytesHead(s: string, a: nat, b: nat)
    requires a < b <= |s| && s[a] as int < 0x80
    ensures |WriteBytes(s, a, b)| > 0 && WriteBytes(s, a, b)[0] == s[a]
    decreases b - a
  {
    if a + 1 < b {
      WriteBytesHead(s, a, b - 1);
    }
  }

  /** Outcome of the string-literal loop: the buffer and the closing quote's index, or the index where input ran out. */
  datatype StringScan = Closed(buf: string, close: nat) | Unclosed(last: nat)

  /**
   * readStringLiteral's loop from index i with buffer acc: every byte is
   * written as a code point except a backslash directly before a quote; the
   * loop stops after a quote not preceded by a backslash, or fails when the
   * next byte is NUL.
   */
  function ScanString(s: string, i: nat, acc: string): (r: StringScan)
    requires i < |s|
    ensures r.Closed? ==> i < r.close < |s| && |acc| <= |r.buf|
    ensures r.Closed? && s[i] != '\\' ==> |r.buf| > |acc|
    ensures r.Unclosed? ==> i <= r.last < |s|
    decreases |s| - i
  {
    var c := s[i];
    var peek := CharAt(s, i + 1);
    if peek == NUL then Unclosed(i)
    else
      var acc' := if c != '\\' || peek != '"' then acc + EncodeRune(c) else acc;
      if peek == '"' && c != '\\' then Closed(acc', i + 1)
      else ScanString(s, i + 1, acc')
  }

  /**
   * readStringLiteral from the opening quote at i: the literal (None when the
   * input ends first) and the index the cursor is left on: the closing quote,
   * or a second quote directly after it, or the last byte read.
   */
  function ReadString(s: string, i: nat): (r: (Option<string>, nat))
    requires i < |s| && s[i] == '"'
    ensures i <= r.1 < |s|
  {
    match ScanString(s, i, "")
    case Unclosed(k) => (None, k)
    case Closed(buf, k) => (Some(buf[1..]), if CharAt(s, k + 1) == '"' then k + 1 else k)
  }

  /** l.token: a token whose column is the column counter minus the literal's length. */
  function MakeToken(kind: TokenType, literal: string, st: LexState): Token {
    Token(kind, literal, st.line, st.linePos - |literal|)
  }

  /** The tokens the lexer can produce: never a COLON, and INT literals are digit runs. */
  predicate Lexable(t: Token) {
    && t.kind != Colon
    && (t.kind == Int ==> |t.literal| > 0 && Numbers.AllDigits(t.literal))
  }

  /**
   * NextToken: skip whitespace, read one token, and (the deferred readChar)
   * step past its last byte.  Returns the token and the new cursor.
   */
  function Step(s: string, st: LexState): (r: (Token, LexState))
    ensures st.pos < r.1.pos
    ensures r.0.kind != Eof ==> r.1.pos <= |s|
    ensures st.pos >= |s| ==> r.0.kind == Eof
    ensures Lexable(r.0)
  {
    ReadToken(s, SkipWhitespace(s, st))
  }

  /** The token read at the cursor w, where whitespace has been skipped, and the cursor after it. */
  function ReadToken(s: string, w: LexState): (r: (Token, LexState))
    ensures w.pos < r.1.pos
    ensures r.0.kind != Eof ==> r.1.pos <= |s|
    ensures w.pos >= |s| ==> r.0.kind == Eof
    ensures Lexable(r.0)
  {
    var c := CharAt(s, w.pos);
    if IsPunct(c) then (MakeToken(Punctuation(c), [c], w), Advance(w, 1))
    else if c == '#' then CommentToken(s, w)
    else if c == '"' then StringToken(s, w)
    else if c == NUL then (Token(Eof, "", 0, 0), Advance(w, 1))
    else if IsIdentChar(c, false) then IdentToken(s, w)
    else if Numbers.IsDigit(c) then NumberToken(s, w)
    else (MakeToken(Illegal, EncodeRune(c), w), Advance(w, 1))
  }

  /** A comment: the bytes from '#' up to where the comment loop stops, written as code points. */
  function CommentToken(s: string, w: LexState): (r: (Token, LexState))
    requires w.pos < |s|
    ensures w.pos < r.1.pos <= |s|
    ensures r.0.kind == Comment
  {
    var e := CommentEnd(s, w.pos);
    var w' := Advance(w, e - w.pos);
    (MakeToken(Comment, WriteBytes(s, w.pos, e), w'), Advance(w', 1))
  }

  /** A string literal, or ILLEGAL holding the last byte read when the input ends first. */
  function StringToken(s: string, w: LexState): (r: (Token, LexState))
    requires w.pos < |s| && s[w.pos] == '"'
    ensures w.pos < r.1.pos <= |s|
    ensures r.0.kind == Str || r.0.kind == Illegal
  {
    var (str, k) := ReadString(s, w.pos);
    var w' := Advance(w, k - w.pos);
    if str.None? then (MakeToken(Illegal, EncodeRune(s[k]), w'), Advance(w', 1))
    else (MakeToken(Str, str.value, w'), Advance(w', 1))
  }

  /** An identifier or keyword: the longest run of identifier bytes. */
  function IdentToken(s: string, w: LexState): (r: (Token, LexState))
    requires w.pos < |s|
    ensures w.pos < r.1.pos <= |s|
    ensures r.0.kind in {Ident, True, False, Null}
  {
    var e := IdentEnd(s, w.pos + 1);
    var w' := Advance(w, e - 1 - w.pos);
    (MakeToken(LookupIdent(s[w.pos..e]), s[w.pos..e], w'), Advance(w', 1))
  }

  /** An integer: the longest run of decimal digits. */
  function NumberToken(s: string, w: LexState): (r: (Token, LexState))
    requires w.pos < |s| && Numbers.IsDigit(s[w.pos])
    ensures w.pos < r.1.pos <= |s|
    ensures r.0.kind == Int && |r.0.literal| > 0 && Numbers.AllDigits(r.0.literal)
  {
    var e := DigitsEnd(s, w.pos + 1);
    var w' := Advance(w, e - 1 - w.pos);
    forall k | w.pos + 1 <= k < e ensures Numbers.IsDigit(CharAt(s, k)) {
      DigitsEndRun(s, w.pos + 1, k);
    }
    assert forall k :: 0 <= k < e - w.pos ==> s[w.pos..e][k] == CharAt(s, w.pos + k);
    (MakeToken(Int, s[w.pos..e], w'), Advance(w', 1))
  }

  /** Every byte DigitsEnd skips over is a digit. */
  lemma {:induction false} DigitsEndRun(s: string, i: nat, k: nat)
    requires i <= k < DigitsEnd(s, i)
    ensures Numbers.IsDigit(CharAt(s, k))
    decreases |s| - i
  {
    if k > i {
      DigitsEndRun(s, i + 1, k);
    }
  }

  /** Every byte IdentEnd skips over is an identifier byte. */
  lemma {:induction false} IdentEndRun(s: string, i: nat, k: nat)
    requires i <= k < IdentEnd(s, i)
    ensures IsIdentChar(CharAt(s, k), true)
    decreases |s| - i
  {
    if k > i {
      IdentEndRun(s, i + 1, k);
    }
  }

  /** The cursor after n calls of NextToken. */
  function Iterate(s: string, st: LexState, n: nat): LexState
    decreases n
  {
    if n == 0 then st else Iterate(s, Step(s, st).1, n - 1)
  }

  // ---------------------------------------------------------------------
  // Whitespace

  /** Every byte consumeWhitespace skips is a space, tab, CR or LF. */
  lemma {:induction false} SkipWhitespaceRun(s: string, st: LexState, k: nat)
    requires st.pos <= k < SkipWhitespace(s, st).pos
    ensures IsWhitespace(CharAt(s, k))
    decreases |s| - st.pos
  {
    if k > st.pos {
      var c := CharAt(s, st.pos);
      var st' := if c == '\n' then LexState(st.pos, st.line + 1, 0) else st;
      SkipWhitespaceRun(s, Advance(st', 1), k);
    }
  }

  /** Each skipped LF adds one to the line. */
  lemma {:induction false} SkipWhitespaceLines(s: string, st: LexState)
    ensures SkipWhitespace(s, st).line == st.line + CountNewlines(s, st.pos, SkipWhitespace(s, st).pos)
    decreases |s| - st.pos
  {
    var c := CharAt(s, st.pos);
    if IsWhitespace(c) {
      var st' := if c == '\n' then LexState(st.pos, st.line + 1, 0) else st;
      SkipWhitespaceLines(s, Advance(st', 1));
    }
  }

  /** The index of the last LF at indices i .. j-1, or -1 when there is none. */
  function LastNewline(s: string, i: nat, j: nat): (k: int)
    ensures k == -1 || (i <= k < j && CharAt(s, k) == '\n')
    decreases j - i
  {
    if j <= i then -1
    else if CharAt(s, j - 1) == '\n' then j - 1
    else LastNewline(s, i, j - 1)
  }

  /** LastNewline seen from its left end: the first byte matters only when no later LF exists. */
  lemma {:induction false} LastNewlineFront(s: string, i: nat, j: nat)
    requires i < j
    ensures LastNewline(s, i, j) ==
              if LastNewline(s, i + 1, j) >= 0 then LastNewline(s, i + 1, j)
              else if CharAt(s, i) == '\n' then i else -1
    decreases j - i
  {
    if j - 1 > i && CharAt(s, j - 1) != '\n' {
      LastNewlineFront(s, i, j - 1);
    }
  }

  /**
   * The column after consumeWhitespace: without a skipped LF it grows by the
   * number of bytes skipped; otherwise it counts the bytes since the last LF.
   */
  lemma {:induction false} SkipWhitespaceColumn(s: string, st: LexState)
    ensures var r := SkipWhitespace(s, st);
            var nl := LastNewline(s, st.pos, r.pos);
            r.linePos == if nl < 0 then st.linePos + (r.pos - st.pos) else r.pos - nl
    decreases |s| - st.pos
  {
    var c := CharAt(s, st.pos);
    if IsWhitespace(c) {
      var st' := if c == '\n' then LexState(st.pos, st.line + 1, 0) else st;
      SkipWhitespaceColumn(s, Advance(st', 1));
      LastNewlineFront(s, st.pos, SkipWhitespace(s, st).pos);
    }
  }

  // ---------------------------------------------------------------------
  // The token kinds

  /** One of `, ( ) { } [ ] =` is a one-byte token of the matching type. */
  lemma {:induction false} PunctuationStep(s: string, st: LexState)
    requires IsPunct(CharAt(s, SkipWhitespace(s, st).pos))
    ensures var w := SkipWhitespace(s, st);
            var c := CharAt(s, w.pos);
            Step(s, st).0 == MakeToken(Punctuation(c), [c], w) && Step(s, st).1 == Advance(w, 1)
  {
  }

  /** An identifier: a letter or '_', then the longest run of identifier bytes; its type is lookupIdent's. */
  lemma {:induction false} IdentifierStep(s: string, st: LexState)
    requires IsIdentChar(CharAt(s, SkipWhitespace(s, st).pos), false)
    ensures var w := SkipWhitespace(s, st);
            var t := Step(s, st).0;
            var e := w.pos + |t.literal|;
            && |t.literal| >= 1 && e <= |s| && t.literal == s[w.pos..e]
            && t.kind == LookupIdent(t.literal)
            && (forall k :: 0 <= k < |t.literal| ==> IsIdentChar(t.literal[k], true))
            && !IsIdentChar(CharAt(s, e), true)
            && Step(s, st).1.pos == e
  {
    var w := SkipWhitespace(s, st);
    ReadsIdent(s, w);
    IdentTokenRun(s, w);
  }

  /** At an identifier byte, ReadToken's work is IdentToken's. */
  lemma {:induction false} ReadsIdent(s: string, w: LexState)
    requires IsIdentChar(CharAt(s, w.pos), false)
    ensures w.pos < |s| && ReadToken(s, w) == IdentToken(s, w)
  {
  }

  /** At any other byte, ReadToken returns it, written as a code point, as an ILLEGAL token. */
  lemma {:induction false} ReadsIllegal(s: string, w: LexState)
    requires var c := CharAt(s, w.pos);
             !IsPunct(c) && c != '#' && c != '"' && c != NUL && !IsIdentChar(c, false) && !Numbers.IsDigit(c)
    ensures ReadToken(s, w) == (MakeToken(Illegal, EncodeRune(CharAt(s, w.pos)), w), Advance(w, 1))
  {
  }

  /** At a digit, ReadToken's work is NumberToken's. */
  lemma {:induction false} ReadsNumber(s: string, w: LexState)
    requires Numbers.IsDigit(CharAt(s, w.pos))
    ensures w.pos < |s| && Numbers.IsDigit(s[w.pos]) && ReadToken(s, w) == NumberToken(s, w)
  {
  }

  /** IdentToken reads the longest run of identifier bytes from w. */
  lemma {:induction false} IdentTokenRun(s: string, w: LexState)
    requires w.pos < |s| && IsIdentChar(s[w.pos], false)
    ensures var r := IdentToken(s, w);
            var t := r.0;
            var e := w.pos + |t.literal|;
            && |t.literal| >= 1 && e <= |s| && t.literal == s[w.pos..e]
            && t.kind == LookupIdent(t.literal)
            && (forall k :: 0 <= k < |t.literal| ==> IsIdentChar(t.literal[k], true))
            && !IsIdentChar(CharAt(s, e), true)
            && r.1.pos == e
  {
    var e := IdentEnd(s, w.pos + 1);
    forall k | 0 <= k < e - w.pos
      ensures IsIdentChar(s[w.pos..e][k], true)
    {
      if k > 0 {
        IdentEndRun(s, w.pos + 1, w.pos + k);
      }
    }
  }

  /** A digit starts an INT token holding the longest run of digits; no sign or '.' is read. */
  lemma {:induction false} NumberStep(s: string, st: LexState)
    requires Numbers.IsDigit(CharAt(s, SkipWhitespace(s, st).pos))
    ensures var w := SkipWhitespace(s, st);
            var t := Step(s, st).0;
            var e := w.pos + |t.literal|;
            && t.kind == Int
            && |t.literal| >= 1 && e <= |s| && t.literal == s[w.pos..e]
            && Numbers.AllDigits(t.literal)
            && !Numbers.IsDigit(CharAt(s, e))
            && Step(s, st).1.pos == e
  {
  }

  /**
   * A comment: the literal is the input from '#' up to where the loop stops,
   * an LF, a lone CR's successor, or the last byte of the input, none of
   * which is included, each byte written as a code point (so the literal is
   * the input itself when those bytes are below 0x80); it never holds an
   * LF, and starts with '#' unless the '#' is the last byte.
   */
  lemma {:induction false} CommentStep(s: string, st: LexState)
    requires CharAt(s, SkipWhitespace(s, st).pos) == '#'
    ensures var w := SkipWhitespace(s, st);
            var t := Step(s, st).0;
            var e := CommentEnd(s, w.pos);
            && t.kind == Comment
            && w.pos <= e < |s| && t.literal == WriteBytes(s, w.pos, e)
            && ((forall k :: w.pos <= k < e ==> s[k] as int < 0x80) ==> t.literal == s[w.pos..e])
            && Lacks(t.literal, '\n')
            && (CharAt(s, w.pos + 1) != NUL ==> |t.literal| >= 1 && t.literal[0] == '#')
            && (CharAt(s, e + 1) == NUL || (s[e] == '\r' && CharAt(s, e + 1) != '\n') || s[e] == '\n')
            && Step(s, st).1.pos == e + 1
  {
    var w := SkipWhitespace(s, st);
    ReadsComment(s, w);
    CommentTokenText(s, w);
  }

  /** At a '#', ReadToken's work is CommentToken's. */
  lemma {:induction false} ReadsComment(s: string, w: LexState)
    requires CharAt(s, w.pos) == '#'
    ensures w.pos < |s| && ReadToken(s, w) == CommentToken(s, w)
  {
  }

  /** CommentToken from the '#' at w: the facts CommentStep states. */
  lemma {:induction false} CommentTokenText(s: string, w: LexState)
    requires w.pos < |s| && s[w.pos] == '#'
    ensures var r := CommentToken(s, w);
            var t := r.0;
            var e := CommentEnd(s, w.pos);
            && t.kind == Comment
            && w.pos <= e < |s| && t.literal == WriteBytes(s, w.pos, e)
            && ((forall k :: w.pos <= k < e ==> s[k] as int < 0x80) ==> t.literal == s[w.pos..e])
            && Lacks(t.literal, '\n')
            && (CharAt(s, w.pos + 1) != NUL ==> |t.literal| >= 1 && t.literal[0] == '#')
            && r.1.pos == e + 1
  {
    var e := CommentEnd(s, w.pos);
    WriteBytesLacks(s, w.pos, e, '\n');
    if forall k :: w.pos <= k < e ==> s[k] as int < 0x80 {
      WriteBytesAscii(s, w.pos, e);
    }
    if CharAt(s, w.pos + 1) != NUL {
      WriteBytesHead(s, w.pos, e);
    }
  }

  /**
   * Any other byte, ':' '-' and '.' among them, is an ILLEGAL token holding
   * the byte written as a code point: the byte itself below 0x80, two bytes
   * from 0x80 up, with the column moved back by the literal's length.
   */
  lemma {:induction false} IllegalStep(s: string, st: LexState)
    requires var c := CharAt(s, SkipWhitespace(s, st).pos);
             !IsPunct(c) && c != '#' && c != '"' && c != NUL && !IsIdentChar(c, false) && !Numbers.IsDigit(c)
    ensures var w := SkipWhitespace(s, st);
            var c := CharAt(s, w.pos);
            var t := Step(s, st).0;
            && t == MakeToken(Illegal, EncodeRune(c), w) && Step(s, st).1 == Advance(w, 1)
            && (c as int < 0x80 ==> t.literal == [c] && t.pos == w.linePos - 1)
            && (0x80 <= c as int < 0x100 ==> |t.literal| == 2 && t.pos == w.linePos - 2)
  {
  }

  // ---------------------------------------------------------------------
  // String literals

  /**
   * The bytes at indices a .. b-1, less each backslash directly followed by
   * a quote, each written as a code point.
   */
  function Unescaped(s: string, a: nat, b: nat): (u: string)
    decreases b - a
  {
    if b <= a then ""
    else (if CharAt(s, a) == '\\' && CharAt(s, a + 1) == '"' then "" else EncodeRune(CharAt(s, a))) + Unescaped(s, a + 1, b)
  }

  /** A quote at m that ends a string: the byte before it is not a backslash. */
  predicate ClosesString(s: string, m: nat) {
    0 < m < |s| && s[m] == '"' && s[m - 1] != '\\'
  }

  /** When the string loop finds its closing quote from index j: it is the first quote after j not preceded by a backslash. */
  lemma {:induction false} ScanStringCloses(s: string, j: nat, acc: string)
    requires j < |s| && ScanString(s, j, acc).Closed?
    ensures var k := ScanString(s, j, acc).close;
            && ClosesString(s, k)
            && (forall m :: j < m < k ==> !ClosesString(s, m))
            && (forall m :: j < m < k ==> CharAt(s, m) != NUL)
    decreases |s| - j
  {
    var c := s[j];
    var peek := CharAt(s, j + 1);
    var acc' := if c != '\\' || peek != '"' then acc + EncodeRune(c) else acc;
    if !(peek == '"' && c != '\\') {
      assert ScanString(s, j, acc) == ScanString(s, j + 1, acc');
      ScanStringCloses(s, j + 1, acc');
    }
  }

  /**
   * When the string loop finds its closing quote from index j with buffer
   * acc: the buffer has gained the kept bytes, each written as a code point.
   */
  lemma {:induction false} ScanStringBuffer(s: string, j: nat, acc: string)
    requires j < |s| && ScanString(s, j, acc).Closed?
    ensures var r := ScanString(s, j, acc);
            r.buf == acc + Unescaped(s, j, r.close)
    decreases |s| - j
  {
    var c := s[j];
    var peek := CharAt(s, j + 1);
    var piece := if c != '\\' || peek != '"' then EncodeRune(c) else "";
    var acc' := if c != '\\' || peek != '"' then acc + EncodeRune(c) else acc;
    assert acc' == acc + piece;
    if !(peek == '"' && c != '\\') {
      ScanStringBuffer(s, j + 1, acc');
      var k := ScanString(s, j, acc).close;
      assert Unescaped(s, j, k) == piece + Unescaped(s, j + 1, k);
      assert acc' + Unescaped(s, j + 1, k) == acc + (piece + Unescaped(s, j + 1, k));
    } else {
      assert Unescaped(s, j, j + 1) == piece;
    }
  }

  /** When the string loop runs out of input from index j: no closing quote was passed. */
  lemma {:induction false} ScanStringUnclosed(s: string, j: nat, acc: string)
    requires j < |s| && ScanString(s, j, acc).Unclosed?
    ensures var k := ScanString(s, j, acc).last;
            && CharAt(s, k + 1) == NUL
            && (forall m :: j < m <= k ==> !ClosesString(s, m))
            && (forall m :: j < m <= k ==> CharAt(s, m) != NUL)
    decreases |s| - j
  {
    var c := s[j];
    var peek := CharAt(s, j + 1);
    var acc' := if c != '\\' || peek != '"' then acc + EncodeRune(c) else acc;
    if peek != NUL {
      ScanStringUnclosed(s, j + 1, acc');
    }
  }

  /**
   * What reading a string from the opening quote at i gives: token t, and
   * the cursor next after it.  A STRING token's literal is the text
   * between the opening quote and the first quote not preceded by a
   * backslash, with each backslash-quote pair reduced to the quote and each
   * byte written as a code point, and the cursor skips a second quote that
   * directly follows the closing one.  When the input ends (or reaches a
   * NUL) first, the token is ILLEGAL and holds the last byte read, written
   * as a code point.  On input without NUL bytes, the token is ILLEGAL
   * exactly when no closing quote follows.
   */
  ghost predicate StringRead(s: string, i: nat, t: Token, next: nat) {
    && (t.kind == Str || t.kind == Illegal)
    && (t.kind == Str ==>
          exists k :: i < k < |s| && ClosesString(s, k)
            && (forall m :: i < m < k ==> !ClosesString(s, m))
            && t.literal == Unescaped(s, i + 1, k)
            && next == (if CharAt(s, k + 1) == '"' then k + 2 else k + 1))
    && (t.kind == Illegal ==>
          exists k :: i <= k < |s| && CharAt(s, k + 1) == NUL
            && (forall m :: i < m <= k ==> !ClosesString(s, m) && CharAt(s, m) != NUL)
            && t.literal == EncodeRune(s[k])
            && next == k + 1)
    && (NoNul(s) ==> (t.kind == Illegal <==> forall m :: i < m < |s| ==> !ClosesString(s, m)))
  }

  /** A quote starts a string token as StringRead describes. */
  lemma {:induction false} StringStep(s: string, st: LexState)
    requires CharAt(s, SkipWhitespace(s, st).pos) == '"'
    ensures StringRead(s, SkipWhitespace(s, st).pos, Step(s, st).0, Step(s, st).1.pos)
  {
    var w := SkipWhitespace(s, st);
    ReadsString(s, w);
    assert Step(s, st) == StringToken(s, w);
    StringTokenScan(s, w);
  }

  /** StringToken from the opening quote at w: the facts StringStep states. */
  lemma {:induction false} StringTokenScan(s: string, w: LexState)
    requires w.pos < |s| && s[w.pos] == '"'
    ensures StringRead(s, w.pos, StringToken(s, w).0, StringToken(s, w).1.pos)
  {
    if ScanString(s, w.pos, "").Closed? {
      StringClosedRead(s, w);
    } else {
      StringUnclosedRead(s, w);
    }
  }

  /** A closed string: the STRING half of StringRead. */
  lemma {:induction false} StringClosedRead(s: string, w: LexState)
    requires w.pos < |s| && s[w.pos] == '"' && ScanString(s, w.pos, "").Closed?
    ensures StringRead(s, w.pos, StringToken(s, w).0, StringToken(s, w).1.pos)
  {
    var i := w.pos;
    var k := ScanString(s, i, "").close;
    var buf := ScanString(s, i, "").buf;
    ScanStringCloses(s, i, "");
    ScanStringBuffer(s, i, "");
    assert Unescaped(s, i, k) == [s[i]] + Unescaped(s, i + 1, k);
    assert buf[1..] == Unescaped(s, i + 1, k);
    var t := StringToken(s, w).0;
    assert t.kind == Str && t.literal == Unescaped(s, i + 1, k);
    if NoNul(s) {
      assert ClosesString(s, k);
    }
  }

  /** An unclosed string: the ILLEGAL half of StringRead. */
  lemma {:induction false} StringUnclosedRead(s: string, w: LexState)
    requires w.pos < |s| && s[w.pos] == '"' && ScanString(s, w.pos, "").Unclosed?
    ensures StringRead(s, w.pos, StringToken(s, w).0, StringToken(s, w).1.pos)
  {
    var i := w.pos;
    var k := ScanString(s, i, "").last;
    ScanStringUnclosed(s, i, "");
    var t := StringToken(s, w).0;
    assert t.kind == Illegal && t.literal == EncodeRune(s[k]);
    if NoNul(s) {
      assert k == |s| - 1;
    }
  }

  /** At a quote, ReadToken's work is StringToken's. */
  lemma {:induction false} ReadsString(s: string, w: LexState)
    requires CharAt(s, w.pos) == '"'
    ensures w.pos < |s| && s[w.pos] == '"' && ReadToken(s, w) == StringToken(s, w)
  {
  }

  // ---------------------------------------------------------------------
  // End of input

  /** On input without NUL bytes, NextToken returns EOF exactly when only whitespace is left. */
  lemma {:induction false} EofAtEnd(s: string, st: LexState)
    requires NoNul(s)
    ensures Step(s, st).0.kind == Eof <==> SkipWhitespace(s, st).pos >= |s|
  {
  }

  /** Each call moves the cursor at least one byte. */
  lemma {:induction false} IterateAdvances(s: string, st: LexState, n: nat)
    ensures Iterate(s, st, n).pos >= st.pos + n
    decreases n
  {
    if n > 0 {
      IterateAdvances(s, Step(s, st).1, n - 1);
    }
  }

  /** Repeated calls reach EOF: after as many calls as there are bytes left, the next one returns EOF. */
  lemma {:induction false} ReachesEof(s: string, st: LexState, n: nat)
    requires n >= |s| - st.pos
    ensures Step(s, Iterate(s, st, n)).0.kind == Eof
  {
    IterateAdvances(s, st, n);
  }

  /** On input without NUL bytes, once NextToken returns EOF every later call does too. */
  lemma {:induction false} EofForever(s: string, st: LexState, n: nat)
    requires NoNul(s) && Step(s, st).0.kind == Eof
    ensures Step(s, Iterate(s, st, n)).0.kind == Eof
  {
    if n > 0 {
      EofAtEnd(s, st);
      IterateAdvances(s, Step(s, st).1, n - 1);
    }
  }

  /** Token number n (counting from 0) that NextToken returns from the cursor st. */
  function TokenAt(s: string, st: LexState, n: nat): (t: Token)
    ensures Lexable(t)
    decreases n
  {
    if n == 0 then Step(s, st).0 else TokenAt(s, Step(s, st).1, n - 1)
  }

  /** Token number n is the one read from the cursor after n calls. */
  lemma {:induction false} TokenAtIterate(s: string, st: LexState, n: nat)
    ensures TokenAt(s, st, n) == Step(s, Iterate(s, st, n)).0
    decreases n
  {
    if n > 0 {
      var next := Step(s, st).1;
      TokenAtIterate(s, next, n - 1);
      assert TokenAt(s, st, n) == TokenAt(s, next, n - 1);
      assert Iterate(s, st, n) == Iterate(s, next, n - 1);
    }
  }

  /** One more call of NextToken moves the cursor by one more Step. */
  lemma {:induction false} IterateStep(s: string, st: LexState, n: nat)
    ensures Iterate(s, st, n + 1) == Step(s, Iterate(s, st, n)).1
    decreases n
  {
    if n > 0 {
      IterateStep(s, Step(s, st).1, n - 1);
    }
  }

  /** One Step from the cursor after n calls yields token number n and the cursor after n + 1 calls. */
  lemma {:induction false} NextInStream(s: string, st: LexState, n: nat, before: LexState, t: Token, after: LexState)
    requires before == Iterate(s, st, n)
    requires t == Step(s, before).0 && after == Step(s, before).1
    ensures t == TokenAt(s, st, n) && after == Iterate(s, st, n + 1)
  {
    IterateStep(s, st, n);
    TokenAtIterate(s, st, n);
  }

  /** The lexer of lexer.go: a cursor over a fixed input. */
  class Lexer {
    const input: string
    var pos: nat
    var readPos: nat
    var ch: char
    var line: int
    var linePos: int

    /** readPos is always one past pos, and ch is the byte at pos. */
    ghost predicate Valid()
      reads this
    {
      readPos == pos + 1 && ch == CharAt(input, pos)
    }

    function State(): LexState
      reads this
    {
      LexState(pos, line, linePos)
    }

    /** The cursor the token stream starts from. */
    ghost const origin: LexState
    /** Token number n that NextToken returns from origin. */
    ghost const stream: nat -> Token
    /** The cursor after n calls of NextToken from origin. */
    ghost const cursor: nat -> LexState
    /** How many tokens NextToken has returned. */
    ghost var count: nat

    /** stream and cursor are the token stream and the cursors of the input from origin. */
    ghost predicate Streams() {
      && (forall n {:trigger TokenAt(input, origin, n)} :: stream(n) == TokenAt(input, origin, n))
      && (forall n {:trigger Iterate(input, origin, n)} :: cursor(n) == Iterate(input, origin, n))
    }

    /** The cursor is where count calls of NextToken leave it. */
    ghost predicate InStream()
      reads this
    {
      Valid() && Streams() && State() == cursor(count)
    }

    /** newLexer: the cursor primed on the first byte, no token read yet. */
    constructor (input: string)
      ensures InStream() && this.input == input && count == 0
      ensures State() == LexState(0, 0, 1) && origin == State()
      ensures forall n :: stream(n) == TokenAt(input, origin, n)
    {
      this.input := input;
      pos, readPos, ch, line, linePos := 0, 0, NUL, 0, 0;
      origin := LexState(0, 0, 1);
      stream := (n: nat) => TokenAt(input, LexState(0, 0, 1), n);
      cursor := (n: nat) => Iterate(input, LexState(0, 0, 1), n);
      new;
      ReadChar();
      count := 0;
    }

    /** readChar: move to the next byte (NUL past the end). */
    method ReadChar()
      modifies this
      ensures pos == old(readPos) && readPos == old(readPos) + 1
      ensures ch == CharAt(input, pos)
      ensures line == old(line) && linePos == old(linePos) + 1
    {
      if readPos >= |input| {
        ch := NUL;
      } else {
        ch := input[readPos];
      }
      pos := readPos;
      readPos := readPos + 1;
      linePos := linePos + 1;
    }

    /** peekChar: the byte after the current one. */
    function PeekChar(): (c: char)
      reads this
      ensures readPos < |input| ==> c == input[readPos]
      ensures readPos >= |input| ==> c == NUL
    {
      CharAt(input, readPos)
    }

    method ConsumeWhitespace()
      requires Valid()
      modifies this
      ensures Valid() && State() == SkipWhitespace(input, old(State()))
    {
      while IsWhitespace(ch)
        invariant Valid()
        invariant SkipWhitespace(input, State()) == SkipWhitespace(input, old(State()))
        decreases |input| - pos
      {
        if ch == '\n' {
          line := line + 1;
          linePos := 0;
        }
        ReadChar();
      }
    }

    /** readIdentifier: the longest run of identifier bytes from the current one. */
    method ReadIdentifier() returns (ident: string)
      requires Valid() && pos < |input|
      modifies this
      ensures Valid()
      ensures ident == input[old(pos)..IdentEnd(input, old(pos) + 1)]
      ensures State() == Advance(old(State()), IdentEnd(input, old(pos) + 1) - 1 - old(pos))
    {
      var start := pos;
      while IsIdentChar(PeekChar(), true)
        invariant Valid() && start <= pos < |input|
        invariant IdentEnd(input, pos + 1) == IdentEnd(input, start + 1)
        invariant State() == Advance(old(State()), pos - start)
        decreases |input| - pos
      {
        ReadChar();
      }
      ident := input[start..readPos];
    }

    /** readNumber: the longest run of decimal digits from the current byte. */
    method ReadNumber() returns (digits: string)
      requires Valid() && pos < |input|
      modifies this
      ensures Valid()
      ensures digits == input[old(pos)..DigitsEnd(input, old(pos) + 1)]
      ensures State() == Advance(old(State()), DigitsEnd(input, old(pos) + 1) - 1 - old(pos))
    {
      var start := pos;
      while Numbers.IsDigit(PeekChar())
        invariant Valid() && start <= pos < |input|
        invariant DigitsEnd(input, pos + 1) == DigitsEnd(input, start + 1)
        invariant State() == Advance(old(State()), pos - start)
        decreases |input| - pos
      {
        ReadChar();
      }
      digits := input[start..readPos];
    }

    /**
     * readStringLiteral, from the opening quote: None when the input ends
     * first; otherwise the text between the quotes, the cursor left on the
     * closing quote (or on a second quote right after it).
     */
    method ReadStringLiteral() returns (str: Option<string>)
      requires Valid() && pos < |input| && ch == '"'
      modifies this
      ensures Valid()
      ensures (str, pos) == ReadString(input, old(pos))
      ensures State() == Advance(old(State()), pos - old(pos))
    {
      var buf := "";
      while true
        invariant Valid() && old(pos) <= pos < |input|
        invariant State() == Advance(old(State()), pos - old(pos))
        invariant ScanString(input, pos, buf) == ScanString(input, old(pos), "")
        invariant pos > old(pos) ==> |buf| > 0
        decreases |input| - pos
      {
        var c := input[pos];
        var peek := PeekChar();
        if peek == NUL {
          return None;
        }
        if c != '\\' || peek != '"' {
          buf := buf + EncodeRune(c);
        }
        ReadChar();
        if peek == '"' && c != '\\' {
          break;
        }
      }
      if PeekChar() == '"' {
        ReadChar();
      }
      str := Some(buf[1..]);
    }

    /** readLineComment: the comment's bytes up to the stopping byte, which is not included, each written as a code point. */
    method ReadLineComment() returns (comment: string)
      requires Valid() && pos < |input|
      modifies this
      ensures Valid()
      ensures comment == WriteBytes(input, old(pos), CommentEnd(input, old(pos)))
      ensures State() == Advance(old(State()), CommentEnd(input, old(pos)) - old(pos))
    {
      var buf := "";
      ghost var start, st0 := pos, State();
      while true
        invariant Valid() && start <= pos < |input|
        invariant State() == Advance(st0, pos - start)
        invariant CommentEnd(input, pos) == CommentEnd(input, start)
        invariant buf == WriteBytes(input, start, pos)
        decreases |input| - pos
      {
        var c := input[pos];
        var peek := PeekChar();
        if peek == NUL || (c == '\r' && peek != '\n') || c == '\n' {
          break;
        }
        assert CommentEnd(input, pos) == CommentEnd(input, pos + 1);
        assert WriteBytes(input, start, pos + 1) == buf + EncodeRune(c);
        buf := buf + EncodeRune(c);
        ReadChar();
      }
      assert pos == CommentEnd(input, start);
      comment := buf;
    }

    /** l.token: stamp a token with the current line and column. */
    function Stamp(kind: TokenType, literal: string): Token
      reads this
    {
      MakeToken(kind, literal, State())
    }

    /**
     * NextToken: skips whitespace, reads the token at the cursor and, as its
     * deferred readChar does, steps past the token's last byte.
     */
    method NextToken() returns (tok: Token)
      requires InStream()
      modifies this
      ensures InStream() && count == old(count) + 1
      ensures tok == stream(old(count)) && Lexable(tok)
      ensures old(pos) < pos && (tok.kind != Eof ==> pos <= |input|)
    {
      ghost var n, before := count, State();
      tok := ReadNext();
      NextInStream(input, origin, n, before, tok, State());
      count := n + 1;
    }

    /** The work of NextToken: one Step of the cursor. */
    method ReadNext() returns (tok: Token)
      requires Valid()
      modifies this
      ensures Valid()
      ensures (tok, State()) == Step(input, old(State()))
    {
      ConsumeWhitespace();
      tok := ReadTokenAtCursor();
      ReadChar();
    }

    /** NextToken's switch on the current byte; the cursor is left on the token's last byte. */
    method ReadTokenAtCursor() returns (tok: Token)
      requires Valid()
      modifies this
      ensures Valid()
      ensures (tok, Advance(State(), 1)) == ReadToken(input, old(State()))
    {
      var c := ch;
      if IsPunct(c) {
        tok := Stamp(Punctuation(c), [c]);
      } else if c == '#' {
        var comment := ReadLineComment();
        tok := Stamp(Comment, comment);
      } else if c == '"' {
        var str := ReadStringLiteral();
        if str == None {
          tok := Stamp(Illegal, EncodeRune(ch));
        } else {
          tok := Stamp(Str, str.value);
        }
      } else if c == NUL {
        tok := Token(Eof, "", 0, 0);
      } else {
        tok := ReadDefault();
      }
    }

    /** The default arm of NextToken's switch: an identifier, a number, or an illegal byte. */
    method ReadDefault() returns (tok: Token)
      requires Valid() && ch != NUL && !IsPunct(ch) && ch != '#' && ch != '"'
      modifies this
      ensures Valid()
      ensures (tok, Advance(State(), 1)) == ReadToken(input, old(State()))
    {
      ghost var w := State();
      if IsIdentChar(ch, false) {
        ReadsIdent(input, w);
        var ident := ReadIdentifier();
        tok := Stamp(LookupIdent(ident), ident);
        ghost var e := IdentEnd(input, w.pos + 1);
        assert ident == input[w.pos..e] && State() == Advance(w, e - 1 - w.pos);
        assert (tok, Advance(State(), 1)) == IdentToken(input, w);
      } else if Numbers.IsDigit(ch) {
        ReadsNumber(input, w);
        var digits := ReadNumber();
        tok := Stamp(Int, digits);
        assert (tok, Advance(State(), 1)) == NumberToken(input, w);
      } else {
        ReadsIllegal(input, w);
        tok := Stamp(Illegal, EncodeRune(ch));
      }
    }
  }
}
