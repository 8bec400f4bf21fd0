/**
 * Text primitives that both scrapers rely on: Python's whitespace class (used by
 * `str.strip()` and by `\s` in regular expressions), ASCII digits, substring search
 * (Python's `in`), `", ".join` and decimal rendering of integers.
 */
module Text {
  import opened Common

  /** Python's `str.isspace()`: the characters `str.strip()` removes and `\s` matches. */
  predicate IsSpace(c: char) {
    || ('\t' <= c <= '\r')
    || ('\U{1C}' <= c <= ' ')
    || c == '\U{85}' || c == '\U{A0}' || c == '\U{1680}'
    || ('\U{2000}' <= c <= '\U{200A}')
    || c == '\U{2028}' || c == '\U{2029}' || c == '\U{202F}' || c == '\U{205F}' || c == '\U{3000}'
  }

  predicate AllSpace(s: string) {
    forall i :: 0 <= i < |s| ==> IsSpace(s[i])
  }

  /** An ASCII decimal digit. */
  predicate IsDigit(c: char) {
    '0' <= c <= '9'
  }

  predicate AllDigits(s: string) {
    forall i :: 0 <= i < |s| ==> IsDigit(s[i])
  }

  // ---------------------------------------------------------------------------
  // str.strip()
  // ---------------------------------------------------------------------------

  /** The first index at or after `i` that does not hold whitespace (or `|s|`). */
  function SpanStart(s: string, i: nat): (j: nat)
    requires i <= |s|
    decreases |s| - i
    ensures i <= j <= |s|
    ensures forall k :: i <= k < j ==> IsSpace(s[k])
    ensures j < |s| ==> !IsSpace(s[j])
  {
    if i == |s| || !IsSpace(s[i]) then i else SpanStart(s, i + 1)
  }

  /** The index just past the last non-whitespace character of `s[lo..j]` (or `lo`). */
  function SpanEnd(s: string, lo: nat, j: nat): (e: nat)
    requires lo <= j <= |s|
    decreases j
    ensures lo <= e <= j
    ensures forall k :: e <= k < j ==> IsSpace(s[k])
    ensures lo < e ==> !IsSpace(s[e - 1])
  {
    if j == lo || !IsSpace(s[j - 1]) then j else SpanEnd(s, lo, j - 1)
  }

  /**
   * Python's `s.strip()`: the part of `s` between its leading and its trailing
   * whitespace, which starts at `SpanStart(s, 0)`.
   */
  function Strip(s: string): (r: string)
    ensures var a := SpanStart(s, 0);
      && a + |r| <= |s| && r == s[a..a + |r|]
      && (forall k :: 0 <= k < a ==> IsSpace(s[k]))
      && (forall k :: a + |r| <= k < |s| ==> IsSpace(s[k]))
    ensures r == [] || (!IsSpace(r[0]) && !IsSpace(r[|r| - 1]))
    ensures r == [] <==> AllSpace(s)
  {
    var a := SpanStart(s, 0);
    s[a..SpanEnd(s, a, |s|)]
  }

  /** Stripping twice is stripping once. */
  lemma StripIdempotent(s: string)
    ensures Strip(Strip(s)) == Strip(s)
  {
    var r := Strip(s);
    if r != [] {
      assert SpanStart(r, 0) == 0;
      assert SpanEnd(r, 0, |r|) == |r|;
      assert r[0..|r|] == r;
    }
  }

  // ---------------------------------------------------------------------------
  // Decimal digits: int() on a digit string, str() of a non-negative integer
  // ---------------------------------------------------------------------------

  function DigitValue(c: char): nat
    requires IsDigit(c)
  {
    c as int - '0' as int
  }

  function DigitChar(d: nat): (c: char)
    requires d < 10
    ensures IsDigit(c) && DigitValue(c) == d
  {
    ('0' as int + d) as char
  }

  /** The number a string of ASCII digits denotes, most significant digit first. */
  function DigitsValue(s: string): nat
    requires AllDigits(s)
  {
    if s == [] then 0 else 10 * DigitsValue(s[..|s| - 1]) + DigitValue(s[|s| - 1])
  }

  /** An unsigned decimal numeral: a non-empty string of ASCII digits, read as a number. */
  function ParseDigits(s: string): (r: Option<nat>)
    ensures r.Some? <==> s != [] && AllDigits(s)
  {
    if s != [] && AllDigits(s) then Some(DigitsValue(s)) else None
  }

  /** Python's `str(n)` / `f"{n}"` for a non-negative integer. */
  function ShowNat(n: nat): (s: string)
    ensures s != [] && AllDigits(s)
    ensures s[0] == '0' <==> n == 0
  {
    if n < 10 then [DigitChar(n)] else ShowNat(n / 10) + [DigitChar(n % 10)]
  }

  /** Rendering a number and reading it back gives the number. */
  lemma {:induction false} ParseShowNat(n: nat)
    ensures ParseDigits(ShowNat(n)) == Some(n)
  {
    var s := ShowNat(n);
    if n < 10 {
      assert s[..0] == [];
      assert DigitsValue(s) == DigitValue(s[0]);
    } else {
      ParseShowNat(n / 10);
      assert s[..|s| - 1] == ShowNat(n / 10);
      assert DigitsValue(s) == 10 * (n / 10) + n % 10;
    }
  }

  // ---------------------------------------------------------------------------
  // int(s) on a str
  // ---------------------------------------------------------------------------

  /**
   * The digits of a base-10 literal as `int()` accepts them: ASCII digits, where
   * an underscore may stand only between two digits.
   */
  predicate DigitGroups(t: string) {
    && t != [] && IsDigit(t[0]) && IsDigit(t[|t| - 1])
    && forall i :: 0 <= i < |t| ==> IsDigit(t[i]) || Joiner(t, i)
  }

  /** An underscore at `i` followed by a digit. */
  predicate Joiner(t: string, i: nat) {
    i + 1 < |t| && t[i] == '_' && IsDigit(t[i + 1])
  }

  /** `t` without its underscores. */
  function DropUnderscores(t: string): (d: string)
    ensures |d| <= |t|
    ensures (forall i :: 0 <= i < |t| ==> IsDigit(t[i]) || t[i] == '_') ==> AllDigits(d)
    ensures AllDigits(t) ==> d == t
  {
    if t == [] then []
    else (if t[0] == '_' then [] else [t[0]]) + DropUnderscores(t[1..])
  }

  /** The literal left once an optional leading `+` or `-` is removed. */
  function Unsigned(t: string): string {
    if t != [] && (t[0] == '+' || t[0] == '-') then t[1..] else t
  }

  /**
   * The whitespace `int()` skips around a literal: the ASCII characters
   * " \t\n\v\f\r" and every non-ASCII character `str.isspace()` accepts. Unlike
   * `str.strip()` it does not skip the separators U+001C..U+001F.
   */
  predicate IsIntSpace(c: char) {
    IsSpace(c) && !('\U{1C}' <= c <= '\U{1F}')
  }

  /** `s` holds none of U+001C..U+001F, the characters on which the two whitespace classes differ. */
  predicate NoSeparators(s: string) {
    forall i :: 0 <= i < |s| ==> !('\U{1C}' <= s[i] <= '\U{1F}')
  }

  /** `SpanStart` for the whitespace `int()` skips. */
  function IntSpanStart(s: string, i: nat): (j: nat)
    requires i <= |s|
    decreases |s| - i
    ensures i <= j <= |s|
    ensures j < |s| ==> !IsIntSpace(s[j])
  {
    if i == |s| || !IsIntSpace(s[i]) then i else IntSpanStart(s, i + 1)
  }

  /** `SpanEnd` for the whitespace `int()` skips. */
  function IntSpanEnd(s: string, lo: nat, j: nat): (e: nat)
    requires lo <= j <= |s|
    decreases j
    ensures lo <= e <= j
    ensures lo < e ==> !IsIntSpace(s[e - 1])
  {
    if j == lo || !IsIntSpace(s[j - 1]) then j else IntSpanEnd(s, lo, j - 1)
  }

  /** The text `int()` reads as a literal: `s` without the whitespace `int()` skips at either end. */
  function IntTrim(s: string): (r: string)
    ensures r == [] || (!IsIntSpace(r[0]) && !IsIntSpace(r[|r| - 1]))
  {
    var a := IntSpanStart(s, 0);
    s[a..IntSpanEnd(s, a, |s|)]
  }

  /**
   * The longest numeral `int()` converts, the default of
   * `sys.get_int_max_str_digits()` from CPython 3.11 on; a longer one raises
   * `ValueError`. Leading zeros count, underscores do not.
   */
  const MaxStrDigits := 4300

  /**
   * Python's `int(s)` for a `str` whose digits are ASCII: the whitespace of
   * `IsIntSpace` around the literal is skipped, one leading sign is allowed,
   * underscores may separate digits and at most `MaxStrDigits` digits are
   * converted; `None` where Python raises `ValueError`.
   */
  function PyInt(s: string): Option<int> {
    IntLiteral(IntTrim(s))
  }

  /** A trimmed base-10 literal: an optional sign, then digit groups of at most `MaxStrDigits` digits. */
  function IntLiteral(t: string): Option<int> {
    var body := Unsigned(t);
    if DigitGroups(body) then
      assert forall i :: 0 <= i < |body| ==> IsDigit(body[i]) || body[i] == '_';
      var digits := DropUnderscores(body);
      if |digits| <= MaxStrDigits then
        var v: int := DigitsValue(digits);
        Some(if t[0] == '-' then -v else v)
      else None
    else None
  }

  /** A text that neither starts nor ends with the whitespace `int()` skips is its own trim. */
  lemma IntTrimUnspaced(s: string)
    requires s == [] || (!IsIntSpace(s[0]) && !IsIntSpace(s[|s| - 1]))
    ensures IntTrim(s) == s
  {
    if s != [] {
      assert IntSpanStart(s, 0) == 0;
      assert IntSpanEnd(s, 0, |s|) == |s|;
      assert s[0..|s|] == s;
    }
  }

  /** After `str.strip()`, `int()` finds no whitespace left to skip. */
  lemma PyIntStripped(s: string)
    ensures PyInt(Strip(s)) == IntLiteral(Strip(s))
  {
    IntTrimUnspaced(Strip(s));
  }

  /** Without separators the two whitespace runs at the front end at the same index. */
  lemma {:induction false} IntSpanStartAgrees(s: string, i: nat)
    requires i <= |s| && NoSeparators(s)
    ensures IntSpanStart(s, i) == SpanStart(s, i)
    decreases |s| - i
  {
    if i < |s| && IsSpace(s[i]) {
      assert IsIntSpace(s[i]);
      IntSpanStartAgrees(s, i + 1);
    }
  }

  /** Without separators the two whitespace runs at the back end at the same index. */
  lemma {:induction false} IntSpanEndAgrees(s: string, lo: nat, j: nat)
    requires lo <= j <= |s| && NoSeparators(s)
    ensures IntSpanEnd(s, lo, j) == SpanEnd(s, lo, j)
    decreases j
  {
    if lo < j && IsSpace(s[j - 1]) {
      assert IsIntSpace(s[j - 1]);
      IntSpanEndAgrees(s, lo, j - 1);
    }
  }

  /** On a numeral, `int()` gives its value when it has at most `MaxStrDigits` digits and raises otherwise. */
  lemma PyIntDigits(s: string)
    requires ParseDigits(s).Some?
    ensures PyInt(s) == if |s| <= MaxStrDigits then Some(ParseDigits(s).value as int) else None
  {
    assert !IsIntSpace(s[0]) && !IsIntSpace(s[|s| - 1]);
    IntTrimUnspaced(s);
    IntLiteralUnsigned(s);
  }

  /**
   * On a text without U+001C..U+001F, stripping before `int()` changes nothing:
   * `int(s.strip()) == int(s)`.
   */
  lemma PyIntStrip(s: string)
    requires NoSeparators(s)
    ensures PyInt(Strip(s)) == PyInt(s)
  {
    IntSpanStartAgrees(s, 0);
    IntSpanEndAgrees(s, SpanStart(s, 0), |s|);
    assert IntTrim(s) == Strip(s);
    PyIntStripped(s);
  }

  /** `str.strip()` removes U+001C and `int()` does not: `int("\x1c5")` raises while `int("\x1c5".strip()) == 5`. */
  lemma PyIntSeparatorExample()
    ensures PyInt("\U{1C}5") == None && PyInt(Strip("\U{1C}5")) == Some(5)
  {
    var s := "\U{1C}5";
    IntTrimUnspaced(s);
    assert Unsigned(s) == s;
    assert Strip(s) == "5" by {
      assert SpanStart(s, 0) == 1;
      assert SpanEnd(s, 1, 2) == 2;
    }
    assert DigitsValue("5") == 5 by {
      assert "5"[..0] == [];
    }
    PyIntDigits("5");
  }

  /**
   * Python's `str(n)` for any integer. CPython 3.11 and later also raise here
   * beyond `MaxStrDigits` digits; this rendering does not.
   */
  function ShowInt(n: int): (s: string)
    ensures s != [] && !IsSpace(s[0]) && !IsSpace(s[|s| - 1])
  {
    if n < 0 then "-" + ShowNat(-n) else ShowNat(n)
  }

  /** A non-empty digit string is a literal without underscores. */
  lemma DigitGroupsOfDigits(t: string)
    requires t != [] && AllDigits(t)
    ensures DigitGroups(t) && DropUnderscores(t) == t
  {
  }

  /**
   * A numeral of at most `MaxStrDigits` digits reads as its value, with a `+` in
   * front as the same value and with a `-` as its negation; a longer one is
   * rejected with or without a sign.
   */
  lemma IntLiteralSigned(d: string)
    requires ParseDigits(d).Some?
    ensures var v: int := ParseDigits(d).value;
      |d| <= MaxStrDigits ==>
        IntLiteral(d) == Some(v) && IntLiteral("+" + d) == Some(v) && IntLiteral("-" + d) == Some(-v)
    ensures |d| > MaxStrDigits ==>
      IntLiteral(d) == None && IntLiteral("+" + d) == None && IntLiteral("-" + d) == None
  {
    IntLiteralUnsigned(d);
    IntLiteralSign('+', d);
    IntLiteralSign('-', d);
  }

  /** A numeral without a sign reads as its value, within the digit limit. */
  lemma IntLiteralUnsigned(d: string)
    requires ParseDigits(d).Some?
    ensures IntLiteral(d) == if |d| <= MaxStrDigits then Some(ParseDigits(d).value as int) else None
  {
    DigitGroupsOfDigits(d);
    assert IsDigit(d[0]);
  }

  /** A numeral behind one sign character reads as its value, negated for `-`, within the digit limit. */
  lemma IntLiteralSign(c: char, d: string)
    requires c == '+' || c == '-'
    requires ParseDigits(d).Some?
    ensures var v: int := ParseDigits(d).value;
      IntLiteral([c] + d) == if |d| <= MaxStrDigits then Some(if c == '-' then -v else v) else None
  {
    DigitGroupsOfDigits(d);
    var t := [c] + d;
    assert t[0] == c && t[1..] == d;
  }

  /**
   * Rendering an integer and reading it back with `int()` gives the integer
   * when it has at most `MaxStrDigits` digits; beyond that `int()` raises.
   */
  lemma PyIntShowInt(n: int)
    ensures var digits := |ShowNat(if n < 0 then -n else n)|;
      PyInt(ShowInt(n)) == if digits <= MaxStrDigits then Some(n) else None
  {
    var s := ShowInt(n);
    IntTrimUnspaced(s);
    var m: nat := if n < 0 then -n else n;
    ParseShowNat(m);
    IntLiteralSigned(ShowNat(m));
  }

  /** `int()` takes a leading sign. */
  lemma PyIntSignExamples()
    ensures PyInt("+5") == Some(5) && PyInt("-5") == Some(-5)
  {
    assert DigitsValue("5") == 5 by {
      assert "5"[..0] == [];
    }
    IntLiteralSigned("5");
    assert "+5" == "+" + "5" && "-5" == "-" + "5";
    IntTrimUnspaced("+5");
    IntTrimUnspaced("-5");
  }

  /** `int()` ignores surrounding whitespace. */
  lemma PyIntSpaceExample()
    ensures PyInt(" 5") == Some(5)
  {
    assert DigitsValue("5") == 5 by {
      assert "5"[..0] == [];
    }
    IntLiteralSigned("5");
    assert IntTrim(" 5") == "5" by {
      assert IntSpanStart(" 5", 0) == 1;
      assert IntSpanEnd(" 5", 1, 2) == 2;
    }
  }

  /** Removing underscores distributes over concatenation. */
  lemma {:induction false} DropUnderscoresAppend(x: string, y: string)
    ensures DropUnderscores(x + y) == DropUnderscores(x) + DropUnderscores(y)
    decreases |x|
  {
    if x != [] {
      assert (x + y)[1..] == x[1..] + y;
      DropUnderscoresAppend(x[1..], y);
    } else {
      assert x + y == y;
    }
  }

  /** Two numerals joined by an underscore form digit groups. */
  lemma DigitGroupsJoined(a: string, b: string)
    requires ParseDigits(a).Some? && ParseDigits(b).Some?
    ensures DigitGroups(a + "_" + b)
  {
    var t := a + "_" + b;
    assert t[0] == a[0] && t[|t| - 1] == b[|b| - 1];
    forall i | 0 <= i < |t| ensures IsDigit(t[i]) || Joiner(t, i) {
      if i < |a| {
        assert t[i] == a[i];
      } else if i > |a| {
        assert t[i] == b[i - |a| - 1];
      } else {
        assert t[i + 1] == b[0];
      }
    }
  }

  /** Dropping the joining underscore leaves the two numerals side by side. */
  lemma DropJoined(a: string, b: string)
    requires AllDigits(a) && AllDigits(b)
    ensures DropUnderscores(a + "_" + b) == a + b
  {
    var u := "_";
    assert DropUnderscores(u) == [] by {
      assert u[1..] == [];
    }
    DropUnderscoresAppend(a + u, b);
    DropUnderscoresAppend(a, u);
    var da, db := DropUnderscores(a), DropUnderscores(b);
    assert da == a && db == b;
    assert DropUnderscores(a + u) == a + [];
    assert a + [] == a;
  }

  /** Two numerals side by side form a numeral. */
  lemma DigitsAppend(a: string, b: string)
    requires ParseDigits(a).Some? && ParseDigits(b).Some?
    ensures ParseDigits(a + b).Some?
  {
    forall i | 0 <= i < |a + b| ensures IsDigit((a + b)[i]) {
      if i >= |a| {
        assert (a + b)[i] == b[i - |a|];
      }
    }
  }

  /** An underscore between two numerals is ignored: `int(a + "_" + b) == int(a + b)`. */
  lemma PyIntUnderscore(a: string, b: string)
    requires ParseDigits(a).Some? && ParseDigits(b).Some?
    ensures PyInt(a + "_" + b) == PyInt(a + b)
  {
    var t := a + "_" + b;
    assert t[0] == a[0] && t[|t| - 1] == b[|b| - 1];
    IntTrimUnspaced(t);
    assert Unsigned(t) == t;
    DigitGroupsJoined(a, b);
    DropJoined(a, b);
    DigitsAppend(a, b);
    PyIntDigits(a + b);
  }

  /** `int()` rejects an underscore that does not stand between two digits. */
  lemma PyIntRejectsUnderscores()
    ensures PyInt("1__0") == None && PyInt("_1") == None && PyInt("1_") == None
  {
    IntTrimUnspaced("1__0");
    assert !Joiner("1__0", 1) by {
      assert "1__0"[2] == '_';
    }
    IntTrimUnspaced("_1");
    IntTrimUnspaced("1_");
  }

  /** `int()` rejects a lone sign, a space after the sign and blank text. */
  lemma PyIntRejectsSign()
    ensures PyInt("+") == None && PyInt("- 5") == None && PyInt("") == None
  {
    IntTrimUnspaced("+");
    assert Unsigned("+") == [];
    IntTrimUnspaced("- 5");
    assert Unsigned("- 5") == " 5";
  }

  /** The maximal run of digits at the start of `s`, and what follows it. */
  function SplitDigits(s: string): (r: (string, string))
    ensures r.0 + r.1 == s && AllDigits(r.0)
    ensures r.1 == [] || !IsDigit(r.1[0])
  {
    if s == [] || !IsDigit(s[0]) then ([], s)
    else
      var r := SplitDigits(s[1..]);
      var d := [s[0]] + r.0;
      assert s == [s[0]] + (r.0 + r.1) == d + r.1;
      assert forall i :: 0 < i < |d| ==> d[i] == r.0[i - 1];
      (d, r.1)
  }

  /** A digit string followed by a non-digit splits exactly at that point. */
  lemma {:induction false} SplitDigitsOf(d: string, rest: string)
    requires AllDigits(d)
    requires rest == [] || !IsDigit(rest[0])
    ensures SplitDigits(d + rest) == (d, rest)
  {
    if d == [] {
      assert d + rest == rest;
    } else {
      assert (d + rest)[1..] == d[1..] + rest;
      SplitDigitsOf(d[1..], rest);
      assert [d[0]] + d[1..] == d;
    }
  }

  // ---------------------------------------------------------------------------
  // Substring search: Python's `t in s` and `s.find(t, i)`
  // ---------------------------------------------------------------------------

  predicate OccursAt(s: string, t: string, i: nat) {
    i + |t| <= |s| && s[i..i + |t|] == t
  }

  /** The first index at or after `i` where `t` occurs in `s`. */
  function FindFrom(s: string, t: string, i: nat): (r: Option<nat>)
    decreases |s| - i
    ensures r.Some? ==> i <= r.value && OccursAt(s, t, r.value)
    ensures r.Some? ==> forall j :: i <= j < r.value ==> !OccursAt(s, t, j)
    ensures r.None? ==> forall j :: i <= j ==> !OccursAt(s, t, j)
  {
    if i + |t| > |s| then None
    else if OccursAt(s, t, i) then Some(i)
    else FindFrom(s, t, i + 1)
  }

  /** Python's `t in s`. */
  predicate Contains(s: string, t: string)
  {
    FindFrom(s, t, 0).Some?
  }

  /** `Contains` holds exactly when `t` occurs somewhere in `s`. */
  lemma ContainsIff(s: string, t: string)
    ensures Contains(s, t) <==> exists i :: OccursAt(s, t, i)
  {
    if Contains(s, t) {
      assert OccursAt(s, t, FindFrom(s, t, 0).value);
    }
  }

  /** An occurrence of `u + t` is also an occurrence of `t`, `|u|` characters later. */
  lemma OccursInSuffix(s: string, u: string, t: string, i: nat)
    requires OccursAt(s, u + t, i)
    ensures OccursAt(s, t, i + |u|)
  {
    assert s[i + |u|..i + |u| + |t|] == s[i..i + |u| + |t|][|u|..];
  }

  /** If `u + t` is in `s` then so is `t`. */
  lemma ContainsSuffix(s: string, u: string, t: string)
    requires Contains(s, u + t)
    ensures Contains(s, t)
  {
    var i := FindFrom(s, u + t, 0).value;
    OccursInSuffix(s, u, t, i);
    ContainsIff(s, t);
  }

  // ---------------------------------------------------------------------------
  // sep.join(items) and its inverse
  // ---------------------------------------------------------------------------

  /** Python's `sep.join(items)`. */
  function Join(items: seq<string>, sep: string): string
  {
    if items == [] then ""
    else if |items| == 1 then items[0]
    else items[0] + sep + Join(items[1..], sep)
  }

  /** Python's `s.split(sep)` for a non-empty separator. */
  function Split(s: string, sep: string): (r: seq<string>)
    requires sep != []
    decreases |s|
    ensures r != []
  {
    match FindFrom(s, sep, 0)
    case None => [s]
    case Some(i) => [s[..i]] + Split(s[i + |sep|..], sep)
  }

  predicate NoChar(s: string, c: char) {
    forall i :: 0 <= i < |s| ==> s[i] != c
  }

  /** Splitting a join gives the items back, when no item holds the separator's first character. */
  lemma {:induction false} SplitJoin(items: seq<string>, sep: string)
    requires items != [] && sep != []
    requires forall k :: 0 <= k < |items| ==> NoChar(items[k], sep[0])
    ensures Split(Join(items, sep), sep) == items
  {
    var x := items[0];
    if |items| == 1 {
      NoSeparator(x, sep);
    } else {
      var rest := Join(items[1..], sep);
      var s := x + sep + rest;
      FirstSeparator(x, sep, rest);
      assert s[..|x|] == x;
      assert s[|x| + |sep|..] == rest;
      SplitJoin(items[1..], sep);
    }
  }

  /** A text without the separator's first character holds no separator. */
  lemma NoSeparator(x: string, sep: string)
    requires sep != [] && NoChar(x, sep[0])
    ensures FindFrom(x, sep, 0) == None
  {
    forall j | 0 <= j ensures !OccursAt(x, sep, j) {
      if j + |sep| <= |x| {
        assert x[j..j + |sep|][0] == x[j];
      }
    }
  }

  /** In `x + sep + rest`, with `x` free of the separator's first character, the first separator follows `x`. */
  lemma FirstSeparator(x: string, sep: string, rest: string)
    requires sep != [] && NoChar(x, sep[0])
    ensures FindFrom(x + sep + rest, sep, 0) == Some(|x|)
  {
    var s := x + sep + rest;
    assert OccursAt(s, sep, |x|) by {
      assert s[|x|..|x| + |sep|] == sep;
    }
    forall j | 0 <= j < |x| ensures !OccursAt(s, sep, j) {
      if j + |sep| <= |s| {
        assert s[j..j + |sep|][0] == x[j];
      }
    }
  }

  /**
   * `s.replace(c, d)` for single characters: every `c` becomes `d`, every other
   * character stays where it is, and afterwards no `c` is left.
   */
  function ReplaceChar(s: string, c: char, d: char): (r: string)
    ensures |r| == |s|
    ensures c != d ==> NoChar(r, c)
    ensures forall i :: 0 <= i < |s| && s[i] != c ==> r[i] == s[i]
    ensures forall i :: 0 <= i < |s| && s[i] == c ==> r[i] == d
    ensures NoChar(s, c) ==> r == s
  {
    seq(|s|, i requires 0 <= i < |s| => if s[i] == c then d else s[i])
  }

  /** Replacing a second time changes nothing. */
  lemma ReplaceCharIdempotent(s: string, c: char, d: char)
    ensures ReplaceChar(ReplaceChar(s, c, d), c, d) == ReplaceChar(s, c, d)
  {
    if c != d {
      assert NoChar(ReplaceChar(s, c, d), c);
    }
  }
}
