/**
 * Characters and strings as JavaScript sees them: the regular-expression classes `\d`,
 * `[a-zA-Z]` and `\w`, the white space that `String.prototype.trim` removes, substring tests,
 * and integers written in a radix (what `Number.prototype.toString(radix)` prints and what
 * `parseInt(text, radix)` reads back).
 */
module Text {

  /** `\d` in a JavaScript regular expression without the `u` flag. */
  predicate IsDigit(c: char) { '0' <= c <= '9' }

  /** `[a-zA-Z]`. */
  predicate IsAsciiLetter(c: char) { 'a' <= c <= 'z' || 'A' <= c <= 'Z' }

  /** `\w`, the class whose changes `\b` detects. */
  predicate IsWordChar(c: char) { IsDigit(c) || IsAsciiLetter(c) || c == '_' }

  predicate AllDigits(s: string) { forall i :: 0 <= i < |s| ==> IsDigit(s[i]) }

  /** ECMAScript WhiteSpace and LineTerminator code points: what `trim` removes. */
  predicate IsJsWhitespace(c: char)
  {
    || c == '\t' || c == '\n' || c == '\U{000B}' || c == '\U{000C}' || c == '\r' || c == ' '
    || c == '\U{00A0}' || c == '\U{1680}' || ('\U{2000}' <= c <= '\U{200A}')
    || c == '\U{2028}' || c == '\U{2029}' || c == '\U{202F}' || c == '\U{205F}'
    || c == '\U{3000}' || c == '\U{FEFF}'
  }

  /** `s.trimStart()`: drops the leading white space and nothing else. */
  function TrimStart(s: string): (r: string)
    ensures |r| <= |s| && r == s[|s| - |r|..]
    ensures forall i :: 0 <= i < |s| - |r| ==> IsJsWhitespace(s[i])
    ensures r == [] || !IsJsWhitespace(r[0])
  {
    if s != [] && IsJsWhitespace(s[0]) then TrimStart(s[1..]) else s
  }

  /** `s.trimEnd()`: drops the trailing white space and nothing else. */
  function TrimEnd(s: string): (r: string)
    ensures |r| <= |s| && r == s[..|r|]
    ensures forall i :: |r| <= i < |s| ==> IsJsWhitespace(s[i])
    ensures r == [] || !IsJsWhitespace(r[|r| - 1])
  {
    if s != [] && IsJsWhitespace(s[|s| - 1]) then TrimEnd(s[..|s| - 1]) else s
  }

  /** Neither starts nor ends with white space. */
  predicate IsTrimmed(s: string)
  {
    s == [] || (!IsJsWhitespace(s[0]) && !IsJsWhitespace(s[|s| - 1]))
  }

  /** `s.trim()`. */
  function Trim(s: string): (r: string)
    ensures IsTrimmed(r)
    ensures r == [] <==> forall i :: 0 <= i < |s| ==> IsJsWhitespace(s[i])
    ensures IsTrimmed(s) ==> r == s
  {
    var t := TrimStart(s);
    var r := TrimEnd(t);
    assert r != [] ==> r[0] == t[0] && t[0] == s[|s| - |t|];
    r
  }

  predicate StartsWith(s: string, prefix: string) { |prefix| <= |s| && s[..|prefix|] == prefix }

  predicate EndsWith(s: string, suffix: string) { |suffix| <= |s| && s[|s| - |suffix|..] == suffix }

  /** `s.includes(sub)`. */
  predicate Contains(s: string, sub: string)
    decreases |s|
  {
    StartsWith(s, sub) || (s != [] && Contains(s[1..], sub))
  }

  /** A text cannot contain a string holding a character the text lacks. */
  lemma {:induction false} NotContainsMissing(s: string, sub: string, c: char)
    requires c in sub && c !in s
    ensures !Contains(s, sub)
    decreases |s|
  {
    if |sub| <= |s| {
      var j :| 0 <= j < |sub| && sub[j] == c;
      assert s[j] in s;
      assert s[..|sub|][j] != sub[j];
    }
    if s != [] {
      NotContainsMissing(s[1..], sub, c);
    }
  }

  /** The number of occurrences of `c` in `s`. */
  function Count(s: string, c: char): (n: nat)
    ensures n <= |s|
    ensures n == 0 <==> c !in s
  {
    if s == [] then 0 else (if s[0] == c then 1 else 0) + Count(s[1..], c)
  }

  lemma {:induction false} CountAppend(a: string, b: string, c: char)
    ensures Count(a + b, c) == Count(a, c) + Count(b, c)
  {
    if a == [] {
      assert a + b == b;
    } else {
      assert (a + b)[1..] == a[1..] + b;
      CountAppend(a[1..], b, c);
    }
  }

  /** `s.replace(/c/g, '')`: every `c` removed. */
  function Without(s: string, c: char): (r: string)
    ensures c !in r
  {
    if s == [] then []
    else if s[0] == c then Without(s[1..], c)
    else [s[0]] + Without(s[1..], c)
  }

  lemma {:induction false} WithoutAppend(a: string, b: string, c: char)
    ensures Without(a + b, c) == Without(a, c) + Without(b, c)
  {
    if a == [] {
      assert a + b == b;
    } else {
      assert (a + b)[1..] == a[1..] + b;
      WithoutAppend(a[1..], b, c);
    }
  }

  /** Concatenation regroups freely. */
  lemma {:induction false} ConcatAssoc(a: string, b: string, c: string)
    ensures a + b + c == a + (b + c)
  {
  }

  /** Removing every `c` shortens the text by the number of `c`s. */
  lemma {:induction false} WithoutCount(s: string, c: char)
    ensures |Without(s, c)| == |s| - Count(s, c)
  {
    if s != [] {
      WithoutCount(s[1..], c);
    }
  }

  /** Removing characters keeps the others in order. */
  lemma {:induction false} WithoutSubsequence(s: string, c: char)
    ensures IsSubsequence(Without(s, c), s)
  {
    if s != [] {
      WithoutSubsequence(s[1..], c);
      if s[0] != c {
        assert ([s[0]] + Without(s[1..], c))[1..] == Without(s[1..], c);
      }
    }
  }

  lemma {:induction false} WithoutCons(x: char, t: string, c: char)
    ensures Without([x] + t, c) == (if x == c then [] else [x]) + Without(t, c)
  {
    assert ([x] + t)[1..] == t;
  }

  lemma {:induction false} WithoutAbsent(s: string, c: char)
    requires c !in s
    ensures Without(s, c) == s
  {
    if s != [] {
      WithoutAbsent(s[1..], c);
    }
  }

  /** `a` is `b` with some characters left out, the rest in their order. */
  predicate IsSubsequence(a: string, b: string)
    decreases |b|
  {
    a == [] || (b != [] && ((a[0] == b[0] && IsSubsequence(a[1..], b[1..])) || IsSubsequence(a, b[1..])))
  }

  /** `s.split('').reverse().join('')`. */
  function Reverse(s: string): (r: string)
    ensures |r| == |s|
  {
    if s == [] then [] else Reverse(s[1..]) + [s[0]]
  }

  lemma {:induction false} ReverseAt(s: string, i: nat)
    requires i < |s|
    ensures Reverse(s)[i] == s[|s| - 1 - i]
  {
    if i < |s| - 1 {
      ReverseAt(s[1..], i);
    }
  }

  lemma {:induction false} ReverseAppend(a: string, b: string)
    ensures Reverse(a + b) == Reverse(b) + Reverse(a)
  {
    if a == [] {
      assert a + b == b;
    } else {
      assert (a + b)[1..] == a[1..] + b;
      ReverseAppend(a[1..], b);
    }
  }

  lemma {:induction false} ReverseInvolution(s: string)
    ensures Reverse(Reverse(s)) == s
  {
    forall i | 0 <= i < |s| ensures Reverse(Reverse(s))[i] == s[i] {
      ReverseAt(Reverse(s), i);
      ReverseAt(s, |s| - 1 - i);
    }
  }

  // ---- integers in a radix ----

  /** The radixes the calculator prints and reads. */
  predicate IsRadix(radix: nat) { radix == 2 || radix == 8 || radix == 10 || radix == 16 }

  /** The lower-case digit that `toString(radix)` prints for `d`. */
  function DigitChar(d: nat): (c: char)
    requires d < 16
    ensures d < 10 ==> IsDigit(c)
  {
    "0123456789abcdef"[d]
  }

  /** The value `parseInt` gives a digit character, in either case; 99 for anything else. */
  function DigitValue(c: char): nat
  {
    if '0' <= c <= '9' then c as nat - '0' as nat
    else if 'a' <= c <= 'f' then c as nat - 'a' as nat + 10
    else if 'A' <= c <= 'F' then c as nat - 'A' as nat + 10
    else 99
  }

  /** `c` is a digit of `radix`, in either case: the classes `[01]`, `[0-7]`, `\d`, `[0-9A-Fa-f]`. */
  predicate IsRadixDigit(c: char, radix: nat) { DigitValue(c) < radix }

  lemma {:induction false} DigitCharValue(d: nat)
    requires d < 16
    ensures DigitValue(DigitChar(d)) == d
  {
  }

  /** `n.toString(radix)` for a natural number: no leading zeros, at least one digit. */
  function ToRadix(n: nat, radix: nat): (s: string)
    requires IsRadix(radix)
    ensures |s| >= 1
    ensures forall i :: 0 <= i < |s| ==> IsRadixDigit(s[i], radix) && !('A' <= s[i] <= 'Z')
  {
    if n < radix then [DigitChar(n)] else ToRadix(n / radix, radix) + [DigitChar(n % radix)]
  }

  /** The value `parseInt(s, radix)` gives a string made only of digits of `radix`. */
  function ParseRadix(s: string, radix: nat): nat
    requires forall i :: 0 <= i < |s| ==> IsRadixDigit(s[i], radix)
  {
    if s == [] then 0
    else
      var high: nat := ParseRadix(s[..|s| - 1], radix);
      var scaled: nat := high * radix;
      scaled + DigitValue(s[|s| - 1])
  }

  /** Printing a number in a radix and reading it back gives the number. */
  lemma {:induction false} ParseToRadix(n: nat, radix: nat)
    requires IsRadix(radix)
    ensures ParseRadix(ToRadix(n, radix), radix) == n
  {
    var s := ToRadix(n, radix);
    if n < radix {
      DigitCharValue(n);
      assert s[..0] == [];
    } else {
      var q, d := n / radix, n % radix;
      assert s == ToRadix(q, radix) + [DigitChar(d)];
      assert s[..|s| - 1] == ToRadix(q, radix);
      DigitCharValue(d);
      ParseToRadix(q, radix);
      assert n == q * radix + d;
    }
  }

  /** The decimal text JavaScript prints for a natural number. */
  function DecimalString(n: nat): (s: string)
    ensures |s| >= 1 && AllDigits(s)
  {
    ToRadix(n, 10)
  }

  /** The decimal text JavaScript prints for an integer: a `-` for negatives. */
  function IntString(i: int): (s: string)
    ensures |s| >= 1
    ensures (s[0] == '-') <==> i < 0
    ensures i >= 0 ==> s == DecimalString(i)
  {
    if i < 0 then "-" + DecimalString(-i) else DecimalString(i)
  }

  /** Upper-casing of the letters `a`–`z`: what `toUpperCase` does to radix digits. */
  function AsciiUpper(s: string): (r: string)
    ensures |r| == |s|
    ensures forall i :: 0 <= i < |s| ==> r[i] == (if 'a' <= s[i] <= 'z' then (s[i] as int - 32) as char else s[i])
  {
    seq(|s|, i requires 0 <= i < |s| => if 'a' <= s[i] <= 'z' then (s[i] as int - 32) as char else s[i])
  }

  /** Upper-casing a digit string does not change the number `parseInt` reads from it. */
  lemma {:induction false} ParseRadixUpper(s: string, radix: nat)
    requires forall i :: 0 <= i < |s| ==> IsRadixDigit(s[i], radix) && (IsDigit(s[i]) || 'a' <= s[i] <= 'f')
    ensures forall i :: 0 <= i < |s| ==> IsRadixDigit(AsciiUpper(s)[i], radix)
    ensures ParseRadix(AsciiUpper(s), radix) == ParseRadix(s, radix)
  {
    if s != [] {
      var u := AsciiUpper(s);
      assert u[..|s| - 1] == AsciiUpper(s[..|s| - 1]);
      ParseRadixUpper(s[..|s| - 1], radix);
    }
  }
}
