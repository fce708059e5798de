/**
 * The `icl` struct tag grammar of struct_tag.go: `.param`, or a key with an
 * optional `.N` precision followed by comma-separated segments, of which
 * `env(NAME)` names an environment variable.
 */
module StructTags {
  import opened Wrappers
  import opened Text
  import Numbers

  /** `tags`: what a field's tag says. */
  datatype Tags = Tags(key: string, env: string, precision: int, isParam: bool)

  datatype TagError =
    /** "invalid icl key": a dotted key that is not `name.N` with N >= 1. */
    | InvalidKey(key: string)
    /** An index or slice bound out of range, which panics in Go. */
    | OutOfRange

  /** The tags of a `.param` field: the zero value with isParam set. */
  const ParamTags := Tags("", "", 0, true)

  /** The segments the env loop takes: those starting with `env(` or ending with `)`. */
  predicate Qualifies(part: string) {
    HasPrefix(part, "env(") || (|part| > 0 && part[|part| - 1] == ')')
  }

  /** A segment the env loop panics on: an empty one, or a qualifying one shorter than `env()`. */
  predicate Breaks(part: string) {
    part == [] || (Qualifies(part) && |part| < 5)
  }

  /** What a qualifying segment names: all but its first four and its last byte. */
  function EnvName(part: string): string
    requires |part| >= 5
  {
    part[4..|part| - 1]
  }

  /** The env loop, from the value `env` it has so far: each qualifying segment overwrites it. */
  function EnvScan(parts: seq<string>, env: string): (r: Result<string, TagError>)
    ensures r.Failure? ==> r.error == OutOfRange
    decreases |parts|
  {
    if parts == [] then Success(env)
    else if Breaks(parts[0]) then Failure(OutOfRange)
    else if Qualifies(parts[0]) then EnvScan(parts[1..], EnvName(parts[0]))
    else EnvScan(parts[1..], env)
  }

  /** The key part: `name.N` splits into name and precision N >= 1, anything else dotted is invalid. */
  function KeyPrecision(key: string): (r: Result<(string, int), TagError>)
    requires '.' in key
    ensures r.Success? ==> r.value.1 >= 1 && |Split(key, '.')| == 2 && r.value.0 + "." + Split(key, '.')[1] == key
    ensures r.Failure? ==> r.error == InvalidKey(key)
  {
    var pieces := Split(key, '.');
    if |pieces| != 2 then Failure(InvalidKey(key))
    else match Numbers.ParseInt(pieces[1], 64)
      case None => Failure(InvalidKey(key))
      case Some(n) =>
        if n < 1 then Failure(InvalidKey(key))
        else
          SplitTwo(key, '.');
          Success((pieces[0], n))
  }

  /** What parseTags returns for the tag text s. */
  function TagsOf(s: string): (r: Result<Tags, TagError>)
    ensures s == ".param" ==> r == Success(ParamTags)
    ensures r.Success? && s != ".param" ==>
              && !r.value.isParam
              && (r.value.precision == -1 <==> '.' !in Split(s, ',')[0])
              && (r.value.precision != -1 ==> r.value.precision >= 1)
    ensures r.Failure? && r.error.InvalidKey? ==> r.error.key == Split(s, ',')[0] && '.' in r.error.key
  {
    if s == ".param" then Success(ParamTags)
    else
      var parts := Split(s, ',');
      var keyed := if '.' in parts[0] then KeyPrecision(parts[0]) else Success((parts[0], -1));
      match keyed
      case Failure(e) => Failure(e)
      case Success((key, precision)) =>
        match EnvScan(parts, "")
        case Failure(e) => Failure(e)
        case Success(env) => Success(Tags(key, env, precision, false))
  }

  /** parseTags, with its segment loop. */
  method ParseTags(s: string) returns (r: Result<Tags, TagError>)
    ensures r == TagsOf(s)
  {
    if s == ".param" {
      return Success(ParamTags);
    }
    var parts := Split(s, ',');
    var key := parts[0];
    var precision := -1;
    if '.' in key {
      var pieces := Split(key, '.');
      if |pieces| != 2 {
        return Failure(InvalidKey(key));
      }
      var n := Numbers.ParseInt(pieces[1], 64);
      if n.None? || n.value < 1 {
        return Failure(InvalidKey(key));
      }
      key, precision := pieces[0], n.value;
    }
    var env := "";
    var i := 0;
    while i < |parts|
      invariant 0 <= i <= |parts|
      invariant EnvScan(parts, "") == EnvScan(parts[i..], env)
    {
      var part := parts[i];
      assert parts[i..][1..] == parts[i + 1..];
      if part == [] {
        return Failure(OutOfRange);
      }
      if !HasPrefix(part, "env(") && part[|part| - 1] != ')' {
        i := i + 1;
        continue;
      }
      if |part| < 5 {
        return Failure(OutOfRange);
      }
      env := part[4..|part| - 1];
      i := i + 1;
    }
    return Success(Tags(key, env, precision, false));
  }

  // ---------------------------------------------------------------------
  // Properties

  /** Two pieces around one separator join back to the text. */
  lemma {:induction false} SplitTwo(s: string, sep: char)
    requires |Split(s, sep)| == 2
    ensures Split(s, sep)[0] + [sep] + Split(s, sep)[1] == s
    decreases |s|
  {
    if s != [] && s[0] != sep {
      var rest := Split(s[1..], sep);
      assert |rest| == 2;
      SplitTwo(s[1..], sep);
      assert Split(s, sep)[0] + [sep] + Split(s, sep)[1] == [s[0]] + (rest[0] + [sep] + rest[1]);
    } else if s != [] {
      var rest := Split(s[1..], sep);
      assert |rest| == 1;
      SplitPieces(s[1..], sep);
      assert Split(s, sep)[1] == rest[0];
      SplitWholeInverse(s[1..], sep);
    }
  }

  /** A text that splits into one piece is that piece. */
  lemma {:induction false} SplitWholeInverse(s: string, sep: char)
    requires |Split(s, sep)| == 1
    ensures Split(s, sep)[0] == s
    decreases |s|
  {
    if s != [] {
      assert s[0] != sep;
      SplitWholeInverse(s[1..], sep);
    }
  }

  /**
   * Without a panicking segment, the env loop yields the name in the last
   * qualifying segment: later segments overwrite earlier ones.
   */
  lemma {:induction false} EnvScanLast(parts: seq<string>, env: string, k: nat)
    requires forall i :: 0 <= i < |parts| ==> parts[i] != [] && (Qualifies(parts[i]) ==> |parts[i]| >= 5)
    requires k < |parts| && Qualifies(parts[k])
    requires forall j :: k < j < |parts| ==> !Qualifies(parts[j])
    ensures EnvScan(parts, env) == Success(EnvName(parts[k]))
    decreases |parts|
  {
    var next := if Qualifies(parts[0]) then EnvName(parts[0]) else env;
    if k > 0 {
      assert parts[1..][k - 1] == parts[k];
      EnvScanLast(parts[1..], next, k - 1);
    } else {
      EnvScanNone(parts[1..], next);
    }
  }

  /** When no segment is env-shaped the scan keeps the name it started with. */
  lemma {:induction false} EnvScanNone(parts: seq<string>, env: string)
    requires forall i :: 0 <= i < |parts| ==> parts[i] != [] && !Qualifies(parts[i])
    ensures EnvScan(parts, env) == Success(env)
    decreases |parts|
  {
    if parts != [] {
      EnvScanNone(parts[1..], env);
    }
  }

  /** The env loop panics exactly when some segment is empty or too short to slice. */
  lemma {:induction false} EnvScanBreaks(parts: seq<string>, env: string)
    ensures EnvScan(parts, env).Failure? <==> exists i :: 0 <= i < |parts| && Breaks(parts[i])
    ensures EnvScan(parts, env).Failure? ==> EnvScan(parts, env).error == OutOfRange
    decreases |parts|
  {
    if parts != [] {
      if !Breaks(parts[0]) {
        var next := if Qualifies(parts[0]) then EnvName(parts[0]) else env;
        EnvScanBreaks(parts[1..], next);
        if exists i :: 0 <= i < |parts| && Breaks(parts[i]) {
          var i :| 0 <= i < |parts| && Breaks(parts[i]);
          assert parts[1..][i - 1] == parts[i];
        }
        if exists i :: 0 <= i < |parts| - 1 && Breaks(parts[1..][i]) {
          var i :| 0 <= i < |parts| - 1 && Breaks(parts[1..][i]);
          assert parts[1..][i] == parts[i + 1];
        }
      }
    }
  }

  /** The segments of `first,last` when neither holds a comma. */
  lemma {:induction false} SplitPair(first: string, last: string, sep: char)
    requires Lacks(first, sep) && Lacks(last, sep)
    ensures Split(first + [sep] + last, sep) == [first, last]
  {
    var t := [sep] + last;
    assert first + [sep] + last == first + t;
    SplitPrefix(first, t, sep);
    assert t[1..] == last;
    SplitWhole(last, sep);
    assert Split(t, sep) == [""] + Split(last, sep) == ["", last];
    assert first + "" == first;
  }

  /** Decimal text has no separator byte and does not end with `)`. */
  lemma {:induction false} DigitsLack(digits: string)
    requires |digits| > 0 && Numbers.AllDigits(digits)
    ensures Lacks(digits, ',') && Lacks(digits, '.') && Lacks(digits, '(') && digits[|digits| - 1] != ')'
  {
  }

  /** The key segment `key.N` of a written tag: split on `.` it is key and N, and it does not qualify as env. */
  lemma {:induction false} KeySegment(key: string, digits: string)
    requires |digits| > 0 && Numbers.AllDigits(digits)
    requires Lacks(key, ',') && Lacks(key, '.') && Lacks(key, '(')
    ensures var first := key + ['.'] + digits;
            && Lacks(first, ',') && '.' in first && !Qualifies(first)
            && Split(first, '.') == [key, digits]
  {
    DigitsLack(digits);
    var first := key + ['.'] + digits;
    forall i | 0 <= i < |first|
      ensures first[i] != ','
      ensures i == 3 ==> first[i] != '('
    {
      if i > |key| {
        assert first[i] == digits[i - |key| - 1];
      }
    }
    assert first[|key|] == '.';
    SplitPair(key, digits, '.');
    assert first[|first| - 1] == digits[|digits| - 1];
    if |first| >= 4 {
      assert first[..4][3] == first[3];
    }
  }

  /** The segment `env(NAME)`: it qualifies, names NAME, and has no comma when NAME has none. */
  lemma {:induction false} EnvSegment(name: string)
    requires Lacks(name, ',')
    ensures var part := "env(" + name + ")";
            && Lacks(part, ',') && Qualifies(part) && |part| >= 5 && EnvName(part) == name
  {
    var part := "env(" + name + ")";
    forall i | 0 <= i < |part| ensures part[i] != ',' {
      if 4 <= i < |part| - 1 {
        assert part[i] == name[i - 4];
      }
    }
    assert part[..4] == "env(";
  }

  /** The written tag is the key segment, a comma and the env segment. */
  lemma {:induction false} TagText(key: string, digits: string, name: string)
    ensures key + "." + digits + ",env(" + name + ")" == (key + ['.'] + digits) + [','] + ("env(" + name + ")")
  {
    assert "." == ['.'];
    assert ",env(" + name + ")" == [','] + ("env(" + name + ")");
  }

  /** The env loop over a non-qualifying key segment and one env segment yields the env segment's name. */
  lemma {:induction false} EnvOfPair(first: string, last: string)
    requires first != [] && !Qualifies(first) && Qualifies(last) && |last| >= 5
    ensures EnvScan([first, last], "") == Success(EnvName(last))
  {
    assert [first, last][1..] == [last];
    assert [last][1..] == [];
    assert EnvScan([first, last], "") == EnvScan([last], "");
    assert EnvScan([last], "") == EnvScan([], EnvName(last));
  }

  /**
   * The tag a field writes as `key.N,env(NAME)` reads back as key, precision
   * N and env NAME, for an int64 N >= 1, a key without `,`, `.` or `(` and a
   * name without `,`.
   */
  lemma {:induction false} TagsWithPrecisionAndEnv(key: string, n: nat, name: string)
    requires 1 <= n < Numbers.Pow2(63)
    requires Lacks(key, ',') && Lacks(key, '.') && Lacks(key, '(') && Lacks(name, ',')
    ensures TagsOf(key + "." + Numbers.FormatInt(n) + ",env(" + name + ")") == Success(Tags(key, name, n, false))
  {
    var first := key + ['.'] + Numbers.FormatInt(n);
    var envPart := "env(" + name + ")";
    TagText(key, Numbers.FormatInt(n), name);
    KeyWithPrecision(key, n);
    EnvSegment(name);
    SplitPair(first, envPart, ',');
    EnvOfPair(first, envPart);
  }

  /** The key segment `key.N` reads as key with precision N. */
  lemma {:induction false} KeyWithPrecision(key: string, n: nat)
    requires 1 <= n < Numbers.Pow2(63)
    requires Lacks(key, ',') && Lacks(key, '.') && Lacks(key, '(')
    ensures var first := key + ['.'] + Numbers.FormatInt(n);
            && first != [] && Lacks(first, ',') && '.' in first && !Qualifies(first)
            && KeyPrecision(first) == Success((key, n))
  {
    Numbers.FormatUintDigits(n);
    KeySegment(key, Numbers.FormatInt(n));
    Numbers.ParseFormatInt(n, 64);
  }

  /** A plain key without separators or parentheses is the whole tag: no env, precision -1. */
  lemma {:induction false} PlainKey(key: string)
    requires key != [] && Lacks(key, ',') && Lacks(key, '.') && Lacks(key, '(') && Lacks(key, ')')
    ensures TagsOf(key) == Success(Tags(key, "", -1, false))
  {
    SplitWhole(key, ',');
    assert key != ".param" by {
      assert ".param"[0] == '.';
    }
    if |key| >= 4 {
      assert key[..4][3] == key[3] != '(';
    }
    assert !Qualifies(key);
    EnvScanNone([key], "");
  }
}
