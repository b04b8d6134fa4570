/**
 * The handful of JavaScript string operations the validators rely on:
 * `replace(/\D/g, '')`, `trim()`, `length` (UTF-16 code units) and `slice`.
 */
module Text {

  /** `\d` in a JavaScript regular expression: the ASCII digits only. */
  predicate IsDigit(c: char) {
    '0' <= c <= '9'
  }

  predicate AllDigits(s: string) {
    forall i :: 0 <= i < |s| ==> IsDigit(s[i])
  }

  /** The numeric value of one digit character, as `parseInt` gives it. */
  function DigitValue(c: char): (v: nat)
    requires IsDigit(c)
    ensures v <= 9
  {
    (c as int) - ('0' as int)
  }

  /** `s.replace(/\D/g, '')`: every non-digit character removed. */
  function Digits(s: string): (d: string)
    ensures AllDigits(d)
    ensures |d| <= |s|
  {
    if s == [] then []
    else (if IsDigit(s[0]) then [s[0]] else []) + Digits(s[1..])
  }

  lemma {:induction false} DigitsAppend(a: string, b: string)
    ensures Digits(a + b) == Digits(a) + Digits(b)
  {
    if a == [] {
      assert a + b == b;
    } else {
      assert (a + b)[1..] == a[1..] + b;
      DigitsAppend(a[1..], b);
    }
  }

  /** A separator character disappears when stripping. */
  lemma DigitsOfSeparator(c: char, rest: string)
    requires !IsDigit(c)
    ensures Digits([c] + rest) == Digits(rest)
  {
    var t := [c] + rest;
    assert t[0] == c && t[1..] == rest;
  }

  /** A run of digits survives stripping. */
  lemma DigitsOfRun(p: string, rest: string)
    requires AllDigits(p)
    ensures Digits(p + rest) == p + Digits(rest)
  {
    DigitsAppend(p, rest);
    DigitsOfDigitString(p);
  }

  /** The three pieces of a concatenation, recovered by slicing. */
  lemma PartsOfThree(a: string, b: string, c: string)
    ensures (a + (b + c))[..|a|] == a
    ensures (a + (b + c))[|a|..|a| + |b|] == b
    ensures (a + (b + c))[|a| + |b|..] == c
  {
    var d := a + (b + c);
    assert d[|a|..] == b + c;
  }

  /** A string is the concatenation of its pieces between cut points. */
  lemma JoinThree(d: string, i: nat, j: nat)
    requires i <= j <= |d|
    ensures d == d[..i] + (d[i..j] + d[j..])
  {
    assert d[i..] == d[i..j] + d[j..];
  }

  lemma JoinFour(d: string, i: nat, j: nat, k: nat)
    requires i <= j <= k <= |d|
    ensures d == d[..i] + (d[i..j] + (d[j..k] + d[k..]))
  {
    JoinThree(d[i..], j - i, k - i);
    assert d[i..][..j - i] == d[i..j] && d[i..][j - i..k - i] == d[j..k] && d[i..][k - i..] == d[k..];
    assert d == d[..i] + d[i..];
  }

  /** Digit runs joined by separators strip to the runs alone. */
  lemma DigitsOfTwoGroups(a: string, x: char, b: string)
    requires AllDigits(a) && AllDigits(b) && !IsDigit(x)
    ensures Digits(a + ([x] + b)) == a + b
  {
    DigitsOfDigitString(b);
    DigitsOfSeparator(x, b);
    DigitsOfRun(a, [x] + b);
  }

  lemma DigitsOfThreeGroups(a: string, x: char, b: string, y: char, c: string)
    requires AllDigits(a) && AllDigits(b) && AllDigits(c) && !IsDigit(x) && !IsDigit(y)
    ensures Digits(a + ([x] + (b + ([y] + c)))) == a + (b + c)
  {
    DigitsOfTwoGroups(b, y, c);
    DigitsOfSeparator(x, b + ([y] + c));
    DigitsOfRun(a, [x] + (b + ([y] + c)));
  }

  lemma DigitsOfFourGroups(a: string, x: char, b: string, y: char, c: string, z: char, e: string)
    requires AllDigits(a) && AllDigits(b) && AllDigits(c) && AllDigits(e)
    requires !IsDigit(x) && !IsDigit(y) && !IsDigit(z)
    ensures Digits(a + ([x] + (b + ([y] + (c + ([z] + e)))))) == a + (b + (c + e))
  {
    DigitsOfThreeGroups(b, y, c, z, e);
    DigitsOfSeparator(x, b + ([y] + (c + ([z] + e))));
    DigitsOfRun(a, [x] + (b + ([y] + (c + ([z] + e)))));
  }

  lemma {:induction false} DigitsOfDigitString(s: string)
    requires AllDigits(s)
    ensures Digits(s) == s
  {
    if s != [] {
      DigitsOfDigitString(s[1..]);
    }
  }

  /** Inserting punctuation anywhere leaves the stripped digits as they were. */
  lemma DigitsIgnoresNonDigit(a: string, c: char, b: string)
    requires !IsDigit(c)
    ensures Digits(a + [c] + b) == Digits(a + b)
  {
    DigitsAppend(a + [c], b);
    DigitsAppend(a, [c]);
    DigitsAppend(a, b);
    assert Digits([c]) == [];
  }

  /** `/^(\d)\1{10}$/`: exactly eleven characters, all the same digit. */
  predicate RepeatsOneDigit(s: string) {
    |s| == 11 && IsDigit(s[0]) && forall i :: 0 <= i < |s| ==> s[i] == s[0]
  }

  /**
   * The characters `trim()` removes and `\s` matches: the ECMAScript
   * WhiteSpace and LineTerminator productions.
   */
  predicate IsJsWhitespace(c: char) {
    var n := c as int;
    (0x09 <= n <= 0x0D) || n == 0x20 || n == 0xA0 || n == 0x1680
    || (0x2000 <= n <= 0x200A) || n == 0x2028 || n == 0x2029
    || n == 0x202F || n == 0x205F || n == 0x3000 || n == 0xFEFF
  }

  /** The value is empty or whitespace only, i.e. `!value.trim()` holds. */
  predicate IsBlank(s: string) {
    forall i :: 0 <= i < |s| ==> IsJsWhitespace(s[i])
  }

  function TrimStart(s: string): (r: string)
    ensures |r| <= |s| && r == s[|s| - |r|..]
    ensures r != [] ==> !IsJsWhitespace(r[0])
  {
    if s != [] && IsJsWhitespace(s[0]) then TrimStart(s[1..]) else s
  }

  function TrimEnd(s: string): (r: string)
    ensures |r| <= |s| && r == s[..|r|]
    ensures r != [] ==> !IsJsWhitespace(r[|r| - 1])
  {
    if s != [] && IsJsWhitespace(s[|s| - 1]) then TrimEnd(s[..|s| - 1]) else s
  }

  /** `s.trim()`. */
  function Trim(s: string): string {
    TrimEnd(TrimStart(s))
  }

  lemma {:induction false} TrimStartEmptyIffBlank(s: string)
    ensures TrimStart(s) == [] <==> IsBlank(s)
  {
    if s != [] && IsJsWhitespace(s[0]) {
      TrimStartEmptyIffBlank(s[1..]);
      assert IsBlank(s) <==> IsBlank(s[1..]) by {
        assert forall i :: 0 < i < |s| ==> s[i] == s[1..][i - 1];
      }
    }
  }

  /** The trimmed value is empty exactly when every character is whitespace. */
  lemma TrimEmptyIffBlank(s: string)
    ensures Trim(s) == [] <==> IsBlank(s)
  {
    TrimStartEmptyIffBlank(s);
    var t := TrimStart(s);
    if t != [] {
      assert TrimEnd(t) != [] by {
        assert !IsJsWhitespace(t[0]);
        TrimEndKeepsNonWhitespaceHead(t);
      }
    }
  }

  lemma {:induction false} TrimEndKeepsNonWhitespaceHead(t: string)
    requires t != [] && !IsJsWhitespace(t[0])
    ensures TrimEnd(t) != []
  {
    if IsJsWhitespace(t[|t| - 1]) {
      TrimEndKeepsNonWhitespaceHead(t[..|t| - 1]);
    }
  }

  /** `s.length`: characters outside the Basic Multilingual Plane count twice. */
  function Utf16Length(s: string): (n: nat)
    ensures |s| <= n <= 2 * |s|
  {
    if s == [] then 0 else (if s[0] as int >= 0x1_0000 then 2 else 1) + Utf16Length(s[1..])
  }


  /** A relative index as `slice` reads it: negative counts from the end, then clamped to the length. */
  function ClampIndex(k: int, len: nat): (r: nat)
    ensures r <= len
  {
    if k < 0 then (if len + k < 0 then 0 else len + k)
    else if k < len then k else len
  }

  /** `s.slice(from, to)`. */
  function Slice(s: string, from: int, to: int): (r: string)
    ensures |r| <= |s|
    ensures 0 <= from <= to ==> r == if to <= |s| then s[from..to] else if from <= |s| then s[from..] else []
  {
    var a := ClampIndex(from, |s|);
    var b := ClampIndex(to, |s|);
    if a < b then s[a..b] else []
  }

  /** `s.slice(from)`. */
  function SliceFrom(s: string, from: int): (r: string)
    ensures 0 <= from <= |s| ==> r == s[from..]
  {
    Slice(s, from, |s|)
  }

  /** `if (s.length > n) s = s.slice(0, n)`: the first `n` characters. */
  function Take(s: string, n: nat): (r: string)
    ensures |r| == if |s| < n then |s| else n
    ensures r == s[..|r|]
  {
    if |s| > n then s[..n] else s
  }
}
