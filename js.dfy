/**
 * The JavaScript value semantics the application relies on: request-body values, truthiness,
 * `String.prototype.trim`, `startsWith`, `split` on one character, `join`, ASCII `toUpperCase`
 * and the decimal rendering of numbers inside template literals.
 */
module Js {
  import opened Wrappers

  /** A value read from a parsed JSON request body (`undefined` when the field is absent). */
  datatype JsValue =
    | Undefined
    | Null
    | Str(s: string)
    | Num(n: real)
    | Bool(b: bool)
    | Arr(items: seq<JsValue>)
    | Obj

  /** JavaScript truthiness (JSON cannot carry NaN, so every number but 0 is truthy). */
  predicate Truthy(v: JsValue) {
    match v
    case Undefined => false
    case Null => false
    case Str(s) => s != ""
    case Num(n) => n != 0.0
    case Bool(b) => b
    case Arr(_) => true
    case Obj => true
  }

  /** `a ?? b`: the default is taken only for null and undefined. */
  function OrDefault(v: JsValue, default: JsValue): (r: JsValue)
    ensures r == v || (r == default && (v == Null || v == Undefined))
    ensures (v == Null || v == Undefined) ==> r == default
  {
    if v == Null || v == Undefined then default else v
  }

  // ---------------------------------------------------------------- trim

  /** The ECMAScript WhiteSpace and LineTerminator code points, which `trim` removes. */
  predicate IsWhitespace(c: char) {
    || c == '\t' || c == '\n' || c == '\U{000B}' || c == '\U{000C}' || c == '\r' || c == ' '
    || c == '\U{00A0}' || c == '\U{1680}' || ('\U{2000}' <= c <= '\U{200A}')
    || c == '\U{2028}' || c == '\U{2029}' || c == '\U{202F}' || c == '\U{205F}'
    || c == '\U{3000}' || c == '\U{FEFF}'
  }

  /** Number of whitespace characters at the start of `s`. */
  function LeadingSpace(s: string): (n: nat)
    ensures n <= |s|
    ensures forall k :: 0 <= k < n ==> IsWhitespace(s[k])
    ensures n == |s| || !IsWhitespace(s[n])
  {
    if s == [] || !IsWhitespace(s[0]) then 0 else 1 + LeadingSpace(s[1..])
  }

  /** Number of whitespace characters at the end of `s`. */
  function TrailingSpace(s: string): (n: nat)
    ensures n <= |s|
    ensures forall k :: |s| - n <= k < |s| ==> IsWhitespace(s[k])
    ensures n == |s| || !IsWhitespace(s[|s| - 1 - n])
  {
    if s == [] || !IsWhitespace(s[|s| - 1]) then 0 else 1 + TrailingSpace(s[..|s| - 1])
  }

  /** Every character of `t` is whitespace. */
  predicate Blank(t: string) {
    forall k :: 0 <= k < |t| ==> IsWhitespace(t[k])
  }

  /** `s.trim()`: the infix of `s` left after removing leading and trailing whitespace. */
  function Trim(s: string): (r: string)
    ensures |r| <= |s|
    ensures exists i, j :: 0 <= i <= j <= |s| && r == s[i..j] && Blank(s[..i]) && Blank(s[j..])
    ensures r == [] || (!IsWhitespace(r[0]) && !IsWhitespace(r[|r| - 1]))
  {
    var a := LeadingSpace(s);
    var rest := s[a..];
    var b := TrailingSpace(rest);
    TrimParts(s, a, b);
    rest[..|rest| - b]
  }

  /** The two counts of `Trim` cut out an infix with blank ends around it. */
  lemma TrimParts(s: string, a: nat, b: nat)
    requires a == LeadingSpace(s) && b == TrailingSpace(s[a..])
    ensures a + b <= |s|
    ensures var r := s[a..][..|s| - a - b];
      && r == s[a..|s| - b] && Blank(s[..a]) && Blank(s[|s| - b..])
      && (r == [] || (!IsWhitespace(r[0]) && !IsWhitespace(r[|r| - 1])))
  {
    LeadingBlank(s);
    TrailingBlankIn(s, a);
    TrimEnds(s, a, b);
  }

  lemma LeadingBlank(s: string)
    ensures Blank(s[..LeadingSpace(s)])
  {
    var n := LeadingSpace(s);
    var t := s[..n];
    forall k | 0 <= k < |t| ensures IsWhitespace(t[k]) {
      assert t[k] == s[k];
    }
  }

  lemma TrailingBlankIn(s: string, a: nat)
    requires a <= |s|
    ensures TrailingSpace(s[a..]) <= |s| - a
    ensures Blank(s[|s| - TrailingSpace(s[a..])..])
  {
    var rest := s[a..];
    var b := TrailingSpace(rest);
    var t := s[|s| - b..];
    forall k | 0 <= k < |t| ensures IsWhitespace(t[k]) {
      assert t[k] == rest[|rest| - b + k];
    }
  }

  lemma TrimEnds(s: string, a: nat, b: nat)
    requires a == LeadingSpace(s) && b == TrailingSpace(s[a..])
    ensures a + b <= |s|
    ensures var r := s[a..][..|s| - a - b];
      r == s[a..|s| - b] && (r == [] || (!IsWhitespace(r[0]) && !IsWhitespace(r[|r| - 1])))
  {
    var rest := s[a..];
    var r := rest[..|rest| - b];
    if r != [] {
      assert r[0] == s[a];
      assert r[|r| - 1] == rest[|rest| - 1 - b];
    }
  }

  /** A string with no whitespace at either end is its own trim. */
  lemma TrimKeepsUnpadded(s: string)
    requires s != [] && !IsWhitespace(s[0]) && !IsWhitespace(s[|s| - 1])
    ensures Trim(s) == s
  {
    assert LeadingSpace(s) == 0;
    assert s[0..] == s;
    assert TrailingSpace(s) == 0;
    assert s[..|s|] == s;
  }

  /** A string trims to the empty string exactly when it consists of whitespace only. */
  lemma TrimEmptyIffBlank(s: string)
    ensures Trim(s) == "" <==> Blank(s)
  {
    if Trim(s) == "" {
      TrimEmptyBlank(s);
    } else {
      TrimmedNotBlank(s);
    }
  }

  lemma TrimEmptyBlank(s: string)
    requires Trim(s) == ""
    ensures Blank(s)
  {
    var i, j :| 0 <= i <= j <= |s| && Trim(s) == s[i..j] && Blank(s[..i]) && Blank(s[j..]);
    assert i == j;
    forall k | 0 <= k < |s| ensures IsWhitespace(s[k]) {
      if k < i { assert s[..i][k] == s[k]; } else { assert s[j..][k - j] == s[k]; }
    }
  }

  lemma TrimmedNotBlank(s: string)
    requires Trim(s) != ""
    ensures !Blank(s)
  {
    var r := Trim(s);
    var i, j :| 0 <= i <= j <= |s| && r == s[i..j] && Blank(s[..i]) && Blank(s[j..]);
    assert s[i] == r[0];
  }

  /** Trimming a trimmed string changes nothing. */
  lemma TrimIdempotent(s: string)
    ensures Trim(Trim(s)) == Trim(s)
  {
    var r := Trim(s);
    assert LeadingSpace(r) == 0;
    assert TrailingSpace(r) == 0;
  }

  /** A trailing space is among what `trim` removes: the trimmed text lies within `s`. */
  lemma TrimDropsTrailing(s: string)
    ensures |Trim(s + " ")| <= |s|
    ensures Utf16Length(Trim(s + " ")) <= Utf16Length(s)
  {
    var t := s + " ";
    var a, b := TrimBounds(s);
    Utf16LengthInfix(s, a, b);
  }

  /** The trimmed `s + " "` is the infix `s[a..b]`. */
  lemma TrimBounds(s: string) returns (a: nat, b: nat)
    ensures a <= b <= |s| && Trim(s + " ") == s[a..b]
  {
    var t := s + " ";
    var lead := LeadingSpace(t);
    var rest := t[lead..];
    var trail := TrailingSpace(rest);
    assert Trim(t) == rest[..|rest| - trail];
    if rest == [] {
      a, b := 0, 0;
    } else {
      assert rest[|rest| - 1] == ' ';
      assert trail >= 1;
      a, b := lead, |t| - trail;
      assert rest[..|rest| - trail] == t[a..b];
    }
  }

  /** `s.trim() || null`, the normalisation used for optional free-text fields. */
  function TrimmedOrNull(s: string): (r: JsValue)
    ensures r == Null <==> Trim(s) == ""
    ensures r != Null ==> r == Str(Trim(s))
  {
    if Trim(s) == "" then Null else Str(Trim(s))
  }

  /** The result of evaluating an expression that may throw. */
  datatype Eval = Threw | Value(v: JsValue)

  /** `v?.trim()`: undefined for null or undefined, the trimmed text for a string, and a
      `TypeError` for any other value, which has no `trim` method. */
  function OptionalTrim(v: JsValue): (r: Eval)
    ensures r.Threw? <==> !(v.Str? || v == Null || v == Undefined)
    ensures v.Str? ==> r == Value(Str(Trim(v.s)))
    ensures v == Null || v == Undefined ==> r == Value(Undefined)
  {
    match v
    case Str(s) => Value(Str(Trim(s)))
    case Null => Value(Undefined)
    case Undefined => Value(Undefined)
    case _ => Threw
  }

  /** The normalisation of an optional free-text value: trimmed text, or null when it trims to
      nothing or is absent; a `TypeError` for a value that is not a string. */
  function OptionalTrimOrNull(v: JsValue): (r: Eval)
    ensures r.Threw? <==> !(v.Str? || v == Null || v == Undefined)
    ensures v.Str? ==> r == Value(TrimmedOrNull(v.s))
    ensures v == Null || v == Undefined ==> r == Value(Null)
  {
    match OptionalTrim(v)
    case Threw => Threw
    case Value(u) => Value(if Truthy(u) then u else Null)
  }

  /** `a === b` on values parsed from JSON: two arrays or objects are never the same object. */
  predicate StrictEquals(a: JsValue, b: JsValue) {
    !a.Arr? && !a.Obj? && a == b
  }

  // ---------------------------------------------------------------- length

  /** The width of `c` in UTF-16: a code point above U+FFFF takes a surrogate pair. */
  function Utf16Units(c: char): nat {
    if c as int > 0xFFFF then 2 else 1
  }

  /** `s.length`: the number of UTF-16 code units of `s`, not of its code points. */
  function Utf16Length(s: string): (n: nat)
    ensures |s| <= n <= 2 * |s|
    ensures s != [] ==> n >= 1
  {
    if s == [] then 0 else Utf16Units(s[0]) + Utf16Length(s[1..])
  }

  /** The length of a concatenation is the sum of the lengths. */
  lemma {:induction false} Utf16LengthAppend(a: string, b: string)
    ensures Utf16Length(a + b) == Utf16Length(a) + Utf16Length(b)
  {
    if a != [] {
      assert (a + b)[0] == a[0];
      assert (a + b)[1..] == a[1..] + b;
      Utf16LengthAppend(a[1..], b);
    } else {
      assert a + b == b;
    }
  }

  /** Without code points above U+FFFF the length is the number of characters. */
  lemma {:induction false} Utf16LengthBasic(s: string)
    requires forall k :: 0 <= k < |s| ==> s[k] as int <= 0xFFFF
    ensures Utf16Length(s) == |s|
  {
    if s != [] {
      Utf16LengthBasic(s[1..]);
    }
  }

  /** Cutting a string in two splits its length. */
  lemma Utf16LengthSplit(s: string, j: nat)
    requires j <= |s|
    ensures Utf16Length(s) == Utf16Length(s[..j]) + Utf16Length(s[j..])
  {
    var a, b := s[..j], s[j..];
    Utf16LengthAppend(a, b);
    assert a + b == s;
  }

  /** An infix is never longer than the whole string. */
  lemma Utf16LengthInfix(s: string, i: nat, j: nat)
    requires i <= j <= |s|
    ensures Utf16Length(s[i..j]) <= Utf16Length(s)
  {
    var front := s[..j];
    Utf16LengthSplit(s, j);
    Utf16LengthSplit(front, i);
    assert front[i..] == s[i..j];
  }

  /** Trimming never makes a string longer. */
  lemma TrimShortens(s: string)
    ensures Utf16Length(Trim(s)) <= Utf16Length(s)
  {
    var i, j :| 0 <= i <= j <= |s| && Trim(s) == s[i..j] && Blank(s[..i]) && Blank(s[j..]);
    Utf16LengthInfix(s, i, j);
  }

  /** One emoji is a single character but two code units: "\U{1F600}".length is 2. */
  lemma EmojiLength()
    ensures |"\U{1F600}"| == 1 && Utf16Length("\U{1F600}") == 2
  {
  }

  /** `v.length`: the code units of a string, the items of an array, `undefined` (None) for every
      other value. */
  function LengthOf(v: JsValue): (r: Option<nat>)
    ensures v.Str? ==> r == Some(Utf16Length(v.s))
    ensures v.Arr? ==> r == Some(|v.items|)
    ensures !v.Str? && !v.Arr? ==> r.None?
  {
    match v
    case Str(s) => Some(Utf16Length(s))
    case Arr(items) => Some(|items|)
    case _ => None
  }

  // ---------------------------------------------------------------- prefixes

  /** `s.startsWith(prefix)`. */
  predicate StartsWith(s: string, prefix: string) {
    |prefix| <= |s| && s[..|prefix|] == prefix
  }

  // ---------------------------------------------------------------- split / join

  /** `s.split(sep)` for a one-character separator: the pieces between separators, empty ones included. */
  function Split(s: string, sep: char): (r: seq<string>)
    ensures |r| >= 1
    ensures forall k :: 0 <= k < |r| ==> sep !in r[k]
  {
    if s == [] then [""]
    else
      var rest := Split(s[1..], sep);
      if s[0] == sep then [""] + rest else [[s[0]] + rest[0]] + rest[1..]
  }

  /** `parts.join(sep)`. */
  function Join(parts: seq<string>, sep: string): string
    requires |parts| >= 1
  {
    if |parts| == 1 then parts[0] else parts[0] + sep + Join(parts[1..], sep)
  }

  /** Joining the pieces of a split with the separator gives back the original string. */
  lemma {:induction false} SplitJoin(s: string, sep: char)
    ensures Join(Split(s, sep), [sep]) == s
  {
    if s != [] {
      SplitJoin(s[1..], sep);
      var rest := Split(s[1..], sep);
      if s[0] != sep {
        var r := Split(s, sep);
        assert r[0] == [s[0]] + rest[0] && r[1..] == rest[1..];
        if |rest| == 1 {
          assert Join(r, [sep]) == [s[0]] + rest[0];
        } else {
          assert Join(rest, [sep]) == rest[0] + [sep] + Join(rest[1..], [sep]);
          assert Join(r, [sep]) == [s[0]] + rest[0] + [sep] + Join(rest[1..], [sep]);
        }
        assert s == [s[0]] + s[1..];
      } else {
        assert s == [sep] + s[1..];
      }
    }
  }

  // ---------------------------------------------------------------- case

  /** `toUpperCase` restricted to ASCII letters. */
  function UpperChar(c: char): (u: char)
    ensures 'a' <= c <= 'z' ==> 'A' <= u <= 'Z'
    ensures !('a' <= c <= 'z') ==> u == c
  {
    if 'a' <= c <= 'z' then (c as int - 32) as char else c
  }

  function Upper(s: string): (r: string)
    ensures |r| == |s|
    ensures forall k :: 0 <= k < |s| ==> r[k] == UpperChar(s[k])
  {
    if s == [] then [] else [UpperChar(s[0])] + Upper(s[1..])
  }

  // ---------------------------------------------------------------- numbers as text

  function DigitChar(d: nat): (c: char)
    requires d < 10
    ensures '0' <= c <= '9'
  {
    ('0' as int + d) as char
  }

  function DigitValue(c: char): nat
    requires '0' <= c <= '9'
  {
    c as int - '0' as int
  }

  /** The decimal text of a natural number, as a template literal renders it. */
  function Decimal(n: nat): (r: string)
    ensures |r| >= 1
    ensures forall k :: 0 <= k < |r| ==> '0' <= r[k] <= '9'
    decreases n
  {
    if n < 10 then [DigitChar(n)] else Decimal(n / 10) + [DigitChar(n % 10)]
  }

  /** The value of a string of decimal digits. */
  function DigitsValue(s: string): nat
    requires forall k :: 0 <= k < |s| ==> '0' <= s[k] <= '9'
  {
    if s == [] then 0 else 10 * DigitsValue(s[..|s| - 1]) + DigitValue(s[|s| - 1])
  }

  /** Reading the decimal text of `n` back gives `n`. */
  lemma {:induction false} DecimalRoundTrip(n: nat)
    ensures DigitsValue(Decimal(n)) == n
    decreases n
  {
    if n >= 10 {
      DecimalRoundTrip(n / 10);
      var r := Decimal(n);
      assert r[..|r| - 1] == Decimal(n / 10);
      assert DigitValue(r[|r| - 1]) == n % 10;
    }
  }

  /** The text of an integer, with a leading minus sign for negative values. */
  function IntText(i: int): string {
    if i < 0 then "-" + Decimal(-i) else Decimal(i)
  }
}
