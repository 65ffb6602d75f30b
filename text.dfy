/**
 * Character classes and string operations the application relies on:
 * Python's `str.strip()`, JavaScript's `String.prototype.trim()`, the two
 * anchored regular expressions names are checked against, the upload
 * extension test, and the code-point order Python uses to compare strings.
 */
module Text {
  import opened Wrappers

  // ---------------------------------------------------------------------
  // Whitespace and trimming
  // ---------------------------------------------------------------------

  /** The characters for which Python's `str.isspace()` holds. */
  predicate IsPySpace(c: char) {
    var n := c as int;
    (9 <= n <= 13) || (28 <= n <= 32) || n == 0x85 || n == 0xA0 || n == 0x1680
    || (0x2000 <= n <= 0x200A) || n == 0x2028 || n == 0x2029
    || n == 0x202F || n == 0x205F || n == 0x3000
  }

  /** ECMAScript WhiteSpace and LineTerminator characters. */
  predicate IsJsSpace(c: char) {
    var n := c as int;
    (9 <= n <= 13) || n == 32 || n == 0xA0 || n == 0x1680
    || (0x2000 <= n <= 0x200A) || n == 0x2028 || n == 0x2029
    || n == 0x202F || n == 0x205F || n == 0x3000 || n == 0xFEFF
  }

  /** Every character of `s` in [lo, hi) is whitespace. */
  predicate SpaceBetween(s: string, lo: int, hi: int, isSpace: char -> bool)
    requires 0 <= lo && hi <= |s|
  {
    forall k :: lo <= k < hi ==> isSpace(s[k])
  }

  predicate AllSpace(s: string, isSpace: char -> bool) {
    SpaceBetween(s, 0, |s|, isSpace)
  }

  /** Drops leading whitespace: what is left is a suffix of `s`. */
  function TrimStart(s: string, isSpace: char -> bool): (r: string)
    ensures |r| <= |s| && r == s[|s| - |r|..]
    ensures SpaceBetween(s, 0, |s| - |r|, isSpace)
    ensures r != [] ==> !isSpace(r[0])
  {
    if |s| > 0 && isSpace(s[0]) then TrimStart(s[1..], isSpace) else s
  }

  /** Drops trailing whitespace: what is left is a prefix of `s`. */
  function TrimEnd(s: string, isSpace: char -> bool): (r: string)
    ensures |r| <= |s| && r == s[..|r|]
    ensures SpaceBetween(s, |r|, |s|, isSpace)
    ensures r != [] ==> !isSpace(r[|r| - 1])
  {
    if |s| > 0 && isSpace(s[|s| - 1]) then TrimEnd(s[..|s| - 1], isSpace) else s
  }

  /**
   * Both ends trimmed: empty exactly when `s` is all whitespace, and
   * otherwise neither starting nor ending with whitespace.
   */
  function Trim(s: string, isSpace: char -> bool): (r: string)
    ensures |r| <= |s|
    ensures r == [] <==> AllSpace(s, isSpace)
    ensures r != [] ==> !isSpace(r[0]) && !isSpace(r[|r| - 1])
  {
    var t := TrimStart(s, isSpace);
    var u := TrimEnd(t, isSpace);
    TrimFacts(s, isSpace, t, u);
    u
  }

  /**
   * What trimming keeps is the infix of `s` that starts after the leading
   * whitespace; only whitespace surrounds it.
   */
  lemma TrimIsInfix(s: string, isSpace: char -> bool)
    ensures var r := Trim(s, isSpace);
            var i := |s| - |TrimStart(s, isSpace)|;
            && i + |r| <= |s|
            && (forall k :: 0 <= k < |r| ==> r[k] == s[i + k])
            && SpaceBetween(s, 0, i, isSpace) && SpaceBetween(s, i + |r|, |s|, isSpace)
  {
    var t := TrimStart(s, isSpace);
    var u := TrimEnd(t, isSpace);
    assert Trim(s, isSpace) == u;
    PrefixOfSuffix(s, t, u, isSpace);
  }

  /** A prefix `u` of a suffix `t` of `s`, with only whitespace after `u` in `t`. */
  lemma PrefixOfSuffix(s: string, t: string, u: string, isSpace: char -> bool)
    requires |t| <= |s| && t == s[|s| - |t|..]
    requires |u| <= |t| && u == t[..|u|] && SpaceBetween(t, |u|, |t|, isSpace)
    ensures var i := |s| - |t|;
            && (forall k :: 0 <= k < |u| ==> u[k] == s[i + k])
            && SpaceBetween(s, i + |u|, |s|, isSpace)
  {
    var i := |s| - |t|;
    forall k | 0 <= k < |u| ensures u[k] == s[i + k] {
      assert u[k] == t[k];
    }
    forall k | i + |u| <= k < |s| ensures isSpace(s[k]) {
      assert s[k] == t[k - i];
    }
  }

  lemma TrimFacts(s: string, isSpace: char -> bool, t: string, r: string)
    requires |t| <= |s| && t == s[|s| - |t|..] && SpaceBetween(s, 0, |s| - |t|, isSpace)
    requires t != [] ==> !isSpace(t[0])
    requires |r| <= |t| && r == t[..|r|] && SpaceBetween(t, |r|, |t|, isSpace)
    requires r != [] ==> !isSpace(r[|r| - 1])
    ensures r != [] ==> !isSpace(r[0])
    ensures var i := |s| - |t|;
            s[i..i + |r|] == r && SpaceBetween(s, i + |r|, |s|, isSpace)
    ensures r == [] <==> AllSpace(s, isSpace)
  {
    var i := |s| - |t|;
    assert s[i..i + |r|] == r;
    forall k | i + |r| <= k < |s| ensures isSpace(s[k]) {
      assert s[k] == t[k - i];
    }
    if r == [] {
      assert t == [];
    } else {
      assert t[0] == r[0] == s[i];
    }
  }

  /** Neither end of `s` is Python whitespace: what `str.strip()` leaves. */
  predicate IsStripped(s: string) {
    s == [] || (!IsPySpace(s[0]) && !IsPySpace(s[|s| - 1]))
  }

  /** A request field after the handler's `.strip()`. */
  type Stripped = s: string | IsStripped(s)

  /** Python's `s.strip()` with no argument. */
  function PyStrip(s: string): (r: Stripped)
    ensures |r| <= |s|
    ensures r == [] <==> AllSpace(s, IsPySpace)
  {
    var r := Trim(s, IsPySpace);
    assert r != [] ==> !IsPySpace(r[0]) && !IsPySpace(r[|r| - 1]);
    r
  }

  /** Stripping a string that is already stripped changes nothing. */
  lemma PyStripFixesStripped(s: Stripped)
    ensures PyStrip(s) == s
  {
    assert TrimStart(s, IsPySpace) == s;
    assert TrimEnd(s, IsPySpace) == s;
  }

  /** Stripping twice is stripping once. */
  lemma PyStripIdempotent(s: string)
    ensures PyStrip(PyStrip(s)) == PyStrip(s)
  {
    PyStripFixesStripped(PyStrip(s));
  }

  /** JavaScript's `s.trim()`: ECMAScript whitespace and line terminators go from both ends. */
  function JsTrim(s: string): (r: string)
    ensures |r| <= |s|
    ensures r == [] <==> AllSpace(s, IsJsSpace)
    ensures r != [] ==> !IsJsSpace(r[0]) && !IsJsSpace(r[|r| - 1])
  {
    Trim(s, IsJsSpace)
  }

  // ---------------------------------------------------------------------
  // Anchored character-class regular expressions
  // ---------------------------------------------------------------------

  /** `[a-zA-Z0-9]` and `[a-zA-Z0-9_]`. */
  datatype CharClass = Alnum | Word

  predicate InClass(c: char, cls: CharClass) {
    || ('a' <= c <= 'z') || ('A' <= c <= 'Z') || ('0' <= c <= '9')
    || (cls == Word && c == '_')
  }

  predicate AllInClass(s: string, cls: CharClass) {
    forall i :: 0 <= i < |s| ==> InClass(s[i], cls)
  }

  /** Length of the longest prefix of `s` inside the class (a greedy `+`). */
  function ClassSpan(s: string, cls: CharClass): (n: nat)
    ensures n <= |s| && AllInClass(s[..n], cls)
    ensures n < |s| ==> !InClass(s[n], cls)
  {
    if |s| > 0 && InClass(s[0], cls) then
      var m := ClassSpan(s[1..], cls);
      assert s[..1 + m] == [s[0]] + s[1..][..m];
      1 + m
    else 0
  }

  /**
   * `re.match(r'^[cls]+$', s)` is truthy. Python's `$` matches at the end of
   * the string and also just before a single newline that ends it, so a
   * string of class characters followed by one "\n" matches as well.
   */
  function AnchoredMatch(s: string, cls: CharClass): (m: bool)
    ensures m <==> || (|s| > 0 && AllInClass(s, cls))
                   || (|s| > 1 && s[|s| - 1] == '\n' && AllInClass(s[..|s| - 1], cls))
  {
    var n := ClassSpan(s, cls);
    assert n == |s| ==> s[..n] == s;
    assert |s| > 1 && s[|s| - 1] == '\n' && AllInClass(s[..|s| - 1], cls) ==> n == |s| - 1 by {
      if |s| > 1 && s[|s| - 1] == '\n' && AllInClass(s[..|s| - 1], cls) {
        assert !InClass(s[|s| - 1], cls);
      }
    }
    n > 0 && (n == |s| || (n == |s| - 1 && s[n] == '\n'))
  }

  /** The slug form the application intends for a path name: `[A-Za-z0-9]+`. */
  predicate IsPathName(s: string) {
    |s| > 0 && AllInClass(s, Alnum)
  }

  /**
   * validate_path_name: `re.match(r'^[a-zA-Z0-9]+$', path_name)`. It holds
   * for a slug and for a slug followed by one newline.
   */
  function ValidatePathName(s: string): (ok: bool)
    ensures ok <==> IsPathName(s) || (|s| > 1 && s[|s| - 1] == '\n' && IsPathName(s[..|s| - 1]))
  {
    AnchoredMatch(s, Alnum)
  }

  /** The category-name check `re.match(r'^[a-zA-Z0-9_]+$', name)`, with the same newline allowance. */
  function ValidCategoryName(s: string): (ok: bool)
    ensures ok <==> IsCategoryName(s) || (|s| > 1 && s[|s| - 1] == '\n' && IsCategoryName(s[..|s| - 1]))
  {
    AnchoredMatch(s, Word)
  }

  /** The name form the application intends for a category: `[A-Za-z0-9_]+`. */
  predicate IsCategoryName(s: string) {
    |s| > 0 && AllInClass(s, Word)
  }

  /**
   * On a stripped string the trailing-newline allowance of `$` cannot apply,
   * so the path-name check accepts exactly the non-empty alphanumeric strings.
   */
  lemma StrippedPathName(s: Stripped)
    ensures ValidatePathName(s) <==> IsPathName(s)
  {
    assert IsPySpace('\n');
  }

  /** The same for the category-name check. */
  lemma StrippedCategoryName(s: Stripped)
    ensures ValidCategoryName(s) <==> IsCategoryName(s)
  {
    assert IsPySpace('\n');
  }

  /** An unstripped segment ending in one newline passes the path-name check. */
  lemma TrailingNewlineAccepted()
    ensures ValidatePathName("abc123\n") && !IsPathName("abc123\n")
  {
    var s := "abc123\n";
    assert s[..|s| - 1] == "abc123";
    assert !InClass(s[6], Alnum);
  }

  /** Every character outside `[A-Za-z0-9]`, other than one final "\n", is refused. */
  lemma PathNameRejectsOthers(s: string, i: nat)
    requires i < |s| && !InClass(s[i], Alnum)
    requires !(i == |s| - 1 && s[i] == '\n')
    ensures !ValidatePathName(s)
  {
  }

  // ---------------------------------------------------------------------
  // The upload extension test
  // ---------------------------------------------------------------------

  /** Index of the last occurrence of `c` in `s`, if any. */
  function LastIndexOf(s: string, c: char): (r: Option<nat>)
    ensures r.None? <==> c !in s
    ensures r.Some? ==> r.value < |s| && s[r.value] == c
                        && forall k :: r.value < k < |s| ==> s[k] != c
  {
    if |s| == 0 then None
    else if s[|s| - 1] == c then Some(|s| - 1)
    else
      var r := LastIndexOf(s[..|s| - 1], c);
      assert forall k :: 0 <= k < |s| - 1 ==> s[..|s| - 1][k] == s[k];
      assert c in s ==> c in s[..|s| - 1] by {
        if c in s { var k :| 0 <= k < |s| && s[k] == c; assert s[..|s| - 1][k] == c; }
      }
      r
  }

  function LowerChar(c: char): char {
    if 'A' <= c <= 'Z' then (c as int + 32) as char else c
  }

  /** `str.lower()` restricted to ASCII letters. */
  function AsciiLower(s: string): (r: string)
    ensures |r| == |s| && forall i :: 0 <= i < |s| ==> r[i] == LowerChar(s[i])
  {
    seq(|s|, i requires 0 <= i < |s| => LowerChar(s[i]))
  }

  /**
   * allowed_file: the name contains a '.' and the text after the last '.',
   * lowercased, is "html". Equivalently: the name ends in ".html" in any
   * letter case.
   */
  function AllowedFile(filename: string): (ok: bool)
    ensures ok <==> |filename| >= 5 && filename[|filename| - 5] == '.'
                    && AsciiLower(filename[|filename| - 4..]) == "html"
  {
    match LastIndexOf(filename, '.')
    case None =>
      false
    case Some(i) =>
      var ext := filename[i + 1..];
      assert AsciiLower(ext) == "html" ==> |ext| == 4;
      AsciiLower(ext) == "html"
  }

  // ---------------------------------------------------------------------
  // Integer affinity: the value SQLite gives a text in an INTEGER column
  // ---------------------------------------------------------------------

  predicate IsDigit(c: char) { '0' <= c <= '9' }

  predicate AllDigits(s: string) {
    forall i :: 0 <= i < |s| ==> IsDigit(s[i])
  }

  /** The value of a string of decimal digits, read left to right. */
  function DigitsValue(s: string): nat
    requires AllDigits(s)
  {
    if s == [] then 0 else DigitsValue(s[..|s| - 1]) * 10 + (s[|s| - 1] as int - '0' as int)
  }

  /**
   * The integer a text becomes when it is stored in, or compared with, an
   * INTEGER column: an optional sign and at least one decimal digit. Any
   * other text stays text, and equals no integer.
   */
  function IntegerText(s: string): (r: Option<int>)
    ensures r.Some? <==> (|s| > 0 && AllDigits(s))
                         || (|s| > 1 && (s[0] == '+' || s[0] == '-') && AllDigits(s[1..]))
    ensures r.Some? && |s| > 0 && s[0] == '-' ==> r.value <= 0
    ensures r.Some? && |s| > 0 && s[0] != '-' ==> r.value >= 0
  {
    if |s| > 0 && AllDigits(s) then Some(DigitsValue(s))
    else if |s| > 1 && (s[0] == '+' || s[0] == '-') && AllDigits(s[1..]) then
      var v: int := DigitsValue(s[1..]);
      Some(if s[0] == '-' then -v else v)
    else None
  }

  function DigitChar(d: int): char
    requires 0 <= d < 10
  {
    ('0' as int + d) as char
  }

  /** The decimal digits of a natural number, as `str(n)` writes them. */
  function NatText(n: nat): (s: string)
    ensures |s| > 0 && AllDigits(s)
  {
    if n < 10 then [DigitChar(n)] else NatText(n / 10) + [DigitChar(n % 10)]
  }

  /** `str(n)`: a minus sign before the digits of a negative number. */
  function DecimalText(n: int): string {
    if n < 0 then "-" + NatText(-n) else NatText(n)
  }

  /** Reading back the digits of a number gives the number. */
  lemma {:induction false} NatTextValue(n: nat)
    ensures DigitsValue(NatText(n)) == n
  {
    if n >= 10 {
      var s := NatText(n);
      assert s[..|s| - 1] == NatText(n / 10);
      NatTextValue(n / 10);
    }
  }

  /** Storing the decimal text of a number stores the number. */
  lemma DecimalTextRoundTrip(n: int)
    ensures IntegerText(DecimalText(n)) == Some(n)
  {
    if n < 0 {
      var t := "-" + NatText(-n);
      assert t[1..] == NatText(-n);
      NatTextValue(-n);
    } else {
      NatTextValue(n);
    }
  }

  /** A leading zero does not change the value of a digit string. */
  lemma {:induction false} LeadingZeroValue(s: string)
    requires AllDigits(s)
    ensures AllDigits("0" + s) && DigitsValue("0" + s) == DigitsValue(s)
  {
    var t := "0" + s;
    assert AllDigits(t) by {
      forall i | 0 <= i < |t| ensures IsDigit(t[i]) {
        if i > 0 { assert t[i] == s[i - 1]; }
      }
    }
    if s != [] {
      assert t[..|t| - 1] == "0" + s[..|s| - 1];
      assert t[|t| - 1] == s[|s| - 1];
      LeadingZeroValue(s[..|s| - 1]);
    }
  }

  /** "00", "+0" and "-0" are other texts than "0" that all name the integer 0. */
  lemma ZeroSpellings()
    ensures IntegerText("0") == Some(0) && IntegerText("00") == Some(0)
    ensures IntegerText("+0") == Some(0) && IntegerText("-0") == Some(0)
  {
    LeadingZeroValue("0");
    assert "+0"[1..] == "0" && "-0"[1..] == "0";
  }

  // ---------------------------------------------------------------------
  // Python string order
  // ---------------------------------------------------------------------

  /** Python's `a < b` on strings: lexicographic by code point, a proper prefix first. */
  predicate StrLt(a: string, b: string) {
    if |a| == 0 then |b| > 0
    else if |b| == 0 then false
    else if a[0] != b[0] then a[0] < b[0]
    else StrLt(a[1..], b[1..])
  }

  /** Strings that agree up to position k and differ there are ordered by that character. */
  lemma {:induction false} StrLtAtFirstDifference(a: string, b: string, k: nat)
    requires k < |a| && k < |b| && a[..k] == b[..k] && a[k] < b[k]
    ensures StrLt(a, b)
  {
    if k > 0 {
      assert a[0] == a[..k][0] == b[..k][0] == b[0];
      assert a[1..][..k - 1] == a[..k][1..] && b[1..][..k - 1] == b[..k][1..];
      StrLtAtFirstDifference(a[1..], b[1..], k - 1);
    }
  }

  lemma {:induction false} StrLtIrreflexive(a: string)
    ensures !StrLt(a, a)
  {
    if |a| > 0 { StrLtIrreflexive(a[1..]); }
  }

  lemma {:induction false} StrLtTransitive(a: string, b: string, c: string)
    requires StrLt(a, b) && StrLt(b, c)
    ensures StrLt(a, c)
  {
    if |a| > 0 && |b| > 0 && |c| > 0 && a[0] == b[0] && b[0] == c[0] {
      StrLtTransitive(a[1..], b[1..], c[1..]);
    }
  }

  lemma {:induction false} StrLtTotal(a: string, b: string)
    ensures a == b || StrLt(a, b) || StrLt(b, a)
  {
    if |a| > 0 && |b| > 0 && a[0] == b[0] {
      StrLtTotal(a[1..], b[1..]);
      if a[1..] == b[1..] { assert a == [a[0]] + a[1..] && b == [b[0]] + b[1..]; }
    }
  }

  lemma {:induction false} StrLtAsymmetric(a: string, b: string)
    requires StrLt(a, b)
    ensures !StrLt(b, a)
  {
    if |a| > 0 && |b| > 0 && a[0] == b[0] { StrLtAsymmetric(a[1..], b[1..]); }
  }
}
