/**
 * The integer text conversions of Go's strconv package that the core relies on:
 * ParseInt/ParseUint with base 10 and a bit size (decoder.go:404-468),
 * ParseInt with base 0 on the lexer's digit-run literals (parser_impl.go:114),
 * and FormatInt/FormatUint with base 10 (encoder.go:170-173).
 */
module Numbers {
  import opened Wrappers

  predicate IsDigit(c: char) {
    '0' <= c <= '9'
  }

  predicate AllDigits(s: string) {
    forall i :: 0 <= i < |s| ==> IsDigit(s[i])
  }

  function DigitValue(c: char): nat
    requires IsDigit(c)
  {
    c as int - '0' as int
  }

  function DigitChar(d: nat): char
    requires d < 10
  {
    ('0' as int + d) as char
  }

  /** 2 to the power n. */
  function Pow2(n: nat): (r: int)
    ensures r >= 1
  {
    if n == 0 then 1 else 2 * Pow2(n - 1)
  }

  /** The value of a run of decimal digits, most significant first. */
  function DecimalValue(s: string): nat
    requires AllDigits(s)
  {
    if s == [] then 0 else DecimalValue(s[..|s| - 1]) * 10 + DigitValue(s[|s| - 1])
  }

  /** The value of a run of digits read in base 8; None when a digit is 8 or 9. */
  function OctalValue(s: string): Option<nat>
    requires AllDigits(s)
  {
    if s == [] then Some(0)
    else if s[|s| - 1] > '7' then None
    else match OctalValue(s[..|s| - 1])
      case None => None
      case Some(v) => Some(v * 8 + DigitValue(s[|s| - 1]))
  }

  /** A digit run has a base-8 value exactly when none of its digits is 8 or 9. */
  lemma {:induction false} OctalValueDigits(s: string)
    requires AllDigits(s)
    ensures OctalValue(s).Some? <==> forall k :: 0 <= k < |s| ==> s[k] <= '7'
  {
    if s != [] {
      var init := s[..|s| - 1];
      OctalValueDigits(init);
      assert forall k :: 0 <= k < |init| ==> init[k] == s[k];
    }
  }

  /** strconv.FormatUint(n, 10): the shortest base-10 text of n. */
  function FormatUint(n: nat): (s: string)
    ensures |s| > 0
  {
    if n < 10 then [DigitChar(n)] else FormatUint(n / 10) + [DigitChar(n % 10)]
  }

  /** strconv.FormatInt(i, 10): a minus sign for negative values, then the digits. */
  function FormatInt(i: int): (s: string)
    ensures |s| > 0
  {
    if i < 0 then "-" + FormatUint(-i) else FormatUint(i)
  }

  /**
   * strconv.ParseUint(s, 10, bits): one or more decimal digits, no sign,
   * whose value fits in `bits` bits.
   */
  function ParseUint(s: string, bits: nat): (r: Option<nat>)
    ensures r.Some? ==> r.value < Pow2(bits)
    ensures |s| > 0 && (s[0] == '-' || s[0] == '+') ==> r.None?
  {
    if s == [] || !AllDigits(s) then None
    else if DecimalValue(s) >= Pow2(bits) then None
    else Some(DecimalValue(s))
  }

  /**
   * strconv.ParseInt(s, 10, bits): an optional '+' or '-', then one or more
   * decimal digits, whose value lies in the signed range of `bits` bits.
   */
  function ParseInt(s: string, bits: nat): (r: Option<int>)
    requires bits >= 1
    ensures r.Some? ==> -Pow2(bits - 1) <= r.value < Pow2(bits - 1)
    ensures r.Some? ==> |s| > 0 && (r.value < 0 ==> s[0] == '-')
  {
    if s == [] then None
    else
      var digits := if s[0] == '-' || s[0] == '+' then s[1..] else s;
      if digits == [] || !AllDigits(digits) then None
      else
        var magnitude: int := DecimalValue(digits);
        var v := if s[0] == '-' then -magnitude else magnitude;
        if -Pow2(bits - 1) <= v < Pow2(bits - 1) then Some(v) else None
  }

  /**
   * strconv.ParseInt(s, 0, 64) on a non-empty digit run: a leading 0 followed
   * by more digits selects base 8, anything else is base 10; the value must fit
   * in a signed 64-bit integer.
   */
  function ParseIntLiteral(s: string): (r: Option<int>)
    requires |s| > 0 && AllDigits(s)
    ensures r.Some? ==> 0 <= r.value < Pow2(63)
    ensures |s| == 1 || s[0] != '0' ==>
              (r.Some? <==> DecimalValue(s) < Pow2(63)) && (r.Some? ==> r.value == DecimalValue(s))
    ensures |s| > 1 && s[0] == '0' ==>
              && (r.Some? <==> OctalValue(s[1..]).Some? && OctalValue(s[1..]).value < Pow2(63))
              && (r.Some? ==> r.value == OctalValue(s[1..]).value)
  {
    if |s| > 1 && s[0] == '0' then
      match OctalValue(s[1..])
      case None => None
      case Some(v) => if v < Pow2(63) then Some(v) else None
    else if DecimalValue(s) < Pow2(63) then Some(DecimalValue(s))
    else None
  }

  /** FormatUint yields digits only, and reading them back gives n. */
  lemma {:induction false} FormatUintDigits(n: nat)
    ensures AllDigits(FormatUint(n))
    ensures DecimalValue(FormatUint(n)) == n
  {
    if n >= 10 {
      FormatUintDigits(n / 10);
      var s := FormatUint(n);
      assert s[..|s| - 1] == FormatUint(n / 10);
    }
  }

  /** Round trip: unsigned text parses back exactly when it fits in `bits` bits. */
  lemma {:induction false} ParseFormatUint(n: nat, bits: nat)
    ensures ParseUint(FormatUint(n), bits) == (if n < Pow2(bits) then Some(n) else None)
  {
    FormatUintDigits(n);
  }

  /** Round trip: signed text parses back exactly when it is in the signed range of `bits` bits. */
  lemma {:induction false} ParseFormatInt(i: int, bits: nat)
    requires bits >= 1
    ensures ParseInt(FormatInt(i), bits) ==
            (if -Pow2(bits - 1) <= i < Pow2(bits - 1) then Some(i) else None)
  {
    var s := FormatInt(i);
    if i < 0 {
      FormatUintDigits(-i);
      assert s[1..] == FormatUint(-i);
      assert s[0] == '-';
    } else {
      FormatUintDigits(i);
      assert s[0] != '-' && s[0] != '+' by {
        FormatUintDigits(i);
        assert IsDigit(s[0]);
      }
    }
  }
}
