/**
 * The pieces of Go's strings package the core uses, on one-byte
 * separators: Split, Join and HasPrefix; and the `string(r)` conversion
 * of a code point to its UTF-8 bytes.
 */
module Text {

  /** No byte of s is c. */
  predicate Lacks(s: string, c: char) {
    forall i :: 0 <= i < |s| ==> s[i] != c
  }

  /** strings.HasPrefix(s, p). */
  predicate HasPrefix(s: string, p: string) {
    |p| <= |s| && s[..|p|] == p
  }

  /**
   * strings.Split(s, sep) for a one-byte separator: the pieces between
   * separators, one more piece than there are separators.
   */
  function Split(s: string, sep: char): (parts: seq<string>)
    ensures |parts| >= 1
    decreases |s|
  {
    if s == [] then [""]
    else if s[0] == sep then [""] + Split(s[1..], sep)
    else
      var rest := Split(s[1..], sep);
      [[s[0]] + rest[0]] + rest[1..]
  }

  /** strings.Join(parts, sep). */
  function Join(parts: seq<string>, sep: string): string
    decreases |parts|
  {
    if parts == [] then ""
    else if |parts| == 1 then parts[0]
    else parts[0] + sep + Join(parts[1..], sep)
  }

  /** Split never returns a piece holding the separator. */
  lemma {:induction false} SplitPieces(s: string, sep: char)
    ensures forall k :: 0 <= k < |Split(s, sep)| ==> Lacks(Split(s, sep)[k], sep)
    decreases |s|
  {
    if s != [] {
      SplitPieces(s[1..], sep);
    }
  }

  /** Text without the separator, then more text: the first piece grows by the prefix. */
  lemma {:induction false} SplitPrefix(p: string, t: string, sep: char)
    requires Lacks(p, sep)
    ensures Split(p + t, sep) == [p + Split(t, sep)[0]] + Split(t, sep)[1..]
    decreases |p|
  {
    if p != [] {
      var s := p + t;
      assert s[0] == p[0] && s[0] != sep && s[1..] == p[1..] + t;
      SplitPrefix(p[1..], t, sep);
      var rest := Split(s[1..], sep);
      assert rest == [p[1..] + Split(t, sep)[0]] + Split(t, sep)[1..];
      assert rest[0] == p[1..] + Split(t, sep)[0] && rest[1..] == Split(t, sep)[1..];
      assert Split(s, sep) == [[s[0]] + rest[0]] + rest[1..];
      assert [p[0]] + (p[1..] + Split(t, sep)[0]) == p + Split(t, sep)[0];
    } else {
      assert p + t == t && p + Split(t, sep)[0] == Split(t, sep)[0];
      assert [Split(t, sep)[0]] + Split(t, sep)[1..] == Split(t, sep);
    }
  }

  /** A text without the separator is one piece. */
  lemma {:induction false} SplitWhole(s: string, sep: char)
    requires Lacks(s, sep)
    ensures Split(s, sep) == [s]
  {
    SplitPrefix(s, "", sep);
    assert s + "" == s;
  }

  /** Joining separator-free pieces with the separator and splitting again gives the pieces back. */
  lemma {:induction false} SplitJoin(parts: seq<string>, sep: char)
    requires |parts| >= 1
    requires forall k :: 0 <= k < |parts| ==> Lacks(parts[k], sep)
    ensures Split(Join(parts, [sep]), sep) == parts
    decreases |parts|
  {
    if |parts| == 1 {
      SplitWhole(parts[0], sep);
    } else {
      var rest := Join(parts[1..], [sep]);
      SplitJoin(parts[1..], sep);
      assert parts[0] + [sep] + rest == parts[0] + ([sep] + rest);
      SplitPrefix(parts[0], [sep] + rest, sep);
      assert ([sep] + rest)[1..] == rest;
      assert parts[0] + "" == parts[0];
    }
  }

  /**
   * Go's string(r) for a code point r: its UTF-8 encoding.  A byte below
   * 0x80 stays one byte; a byte from 0x80 up becomes two (0xC3 becomes
   * 0xC3 0x83).
   */
  function EncodeRune(c: char): (r: string)
    ensures 1 <= |r| <= 4
    ensures |r| == 1 <==> c as int < 0x80
    ensures |r| == 1 ==> r == [c]
    ensures |r| == 2 <==> 0x80 <= c as int < 0x800
    ensures |r| == 2 ==> 0xC0 <= r[0] as int < 0xE0 && (r[0] as int - 0xC0) * 64 + (r[1] as int - 0x80) == c as int
    ensures forall k :: 1 <= k < |r| ==> 0x80 <= r[k] as int < 0xC0
    ensures |r| > 1 ==> r[0] as int >= 0xC0
  {
    var n := c as int;
    if n < 0x80 then [c]
    else if n < 0xC0 then [0xC2 as char, c]
    else if n < 0x100 then [0xC3 as char, (n - 0x40) as char]
    else EncodeWide(n)
  }

  /** The UTF-8 encoding of a code point from 0x100 up, which no byte of a Go string is. */
  function EncodeWide(n: int): (r: string)
    requires 0x100 <= n <= 0x10FFFF
    ensures 2 <= |r| <= 4
    ensures |r| == 2 <==> n < 0x800
    ensures |r| == 2 ==> 0xC0 <= r[0] as int < 0xE0 && (r[0] as int - 0xC0) * 64 + (r[1] as int - 0x80) == n
    ensures forall k :: 1 <= k < |r| ==> 0x80 <= r[k] as int < 0xC0
    ensures r[0] as int >= 0xC0
  {
    if n < 0x800 then [(0xC0 + n / 64) as char, (0x80 + n % 64) as char]
    else if n < 0x10000 then [(0xE0 + n / 4096) as char, (0x80 + n / 64 % 64) as char, (0x80 + n % 64) as char]
    else [(0xF0 + n / 262144) as char, (0x80 + n / 4096 % 64) as char, (0x80 + n / 64 % 64) as char, (0x80 + n % 64) as char]
  }
}
