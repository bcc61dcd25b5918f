/**
 * The calculation engine: the string rewriting that prepares an expression, the programmer-mode
 * literal conversion and bitwise path, error-message mapping, `factorial` and the radix printers.
 *
 * Every `String.prototype.replace` with a global regular expression is a recursive function that
 * scans the ORIGINAL string from left to right and never lets two matches overlap; `\b` is a change
 * between `[A-Za-z0-9_]` and any other character (or either end of the string).
 *
 * The arithmetic itself (the math library's `evaluate`, the `new Function` evaluation of the
 * bitwise text) is not part of this model: it is a `Backend` of uninterpreted functions.
 */
module CalculationEngine {
  import opened Wrappers
  import opened Text

  /** `'standard' | 'scientific' | 'programmer'`. */
  datatype Mode = Standard | Scientific | Programmer

  function ModeName(m: Mode): string
  {
    match m
    case Standard => "standard"
    case Scientific => "scientific"
    case Programmer => "programmer"
  }

  /**
   * What the engine hands off and cannot see into. Each returns the text `formatResult` makes of
   * the value, or the exception thrown.
   *   mathEvaluate: the math library's `evaluate` on an expression.
   *   runReturn: `new Function('return ' + text)()` on the sanitised bitwise text.
   */
  datatype Backend = Backend(mathEvaluate: string -> Completion<string>, runReturn: string -> Completion<string>)

  // ---------------------------------------------------------------------------------------------
  // Preprocessing (preprocessExpression)
  // ---------------------------------------------------------------------------------------------

  /** `s.replace(/c/g, rep)`: every `c` replaced by `rep`. */
  function Substitute(s: string, c: char, rep: string): (r: string)
    ensures c !in rep ==> c !in r
  {
    if s == [] then []
    else (if s[0] == c then rep else [s[0]]) + Substitute(s[1..], c, rep)
  }

  lemma {:induction false} SubstituteAppend(a: string, b: string, c: char, rep: string)
    ensures Substitute(a + b, c, rep) == Substitute(a, c, rep) + Substitute(b, c, rep)
  {
    if a == [] {
      assert a + b == b;
    } else {
      assert (a + b)[1..] == a[1..] + b;
      SubstituteAppend(a[1..], b, c, rep);
    }
  }

  /** A character in neither the input nor the replacement is not in the output. */
  lemma {:induction false} SubstituteAbsent(s: string, c: char, rep: string, d: char)
    requires d !in s && d !in rep
    ensures d !in Substitute(s, c, rep)
  {
    if s != [] {
      SubstituteAbsent(s[1..], c, rep, d);
    }
  }

  /** Substituting a single character by a single character works position by position. */
  lemma {:induction false} SubstituteChar(s: string, c: char, d: char)
    ensures |Substitute(s, c, [d])| == |s|
    ensures forall i :: 0 <= i < |s| ==> Substitute(s, c, [d])[i] == if s[i] == c then d else s[i]
  {
    if s != [] {
      SubstituteChar(s[1..], c, d);
    }
  }

  /** The end characters of a substitution: those of `s`, or those of `rep` where `c` stood. */
  lemma {:induction false} SubstituteEnds(s: string, c: char, rep: string)
    requires s != [] && rep != []
    ensures var r := Substitute(s, c, rep);
      && r != []
      && r[0] == (if s[0] == c then rep[0] else s[0])
      && r[|r| - 1] == (if s[|s| - 1] == c then rep[|rep| - 1] else s[|s| - 1])
  {
    var n := |s|;
    SubstituteAppend(s[..n - 1], [s[n - 1]], c, rep);
    assert s[..n - 1] + [s[n - 1]] == s;
  }

  /** `\d`, `[a-zA-Z]` or one literal character: the capture groups of the multiplication passes. */
  datatype CharClass = Digit | Letter | Is(ch: char)

  predicate Matches(cls: CharClass, c: char)
  {
    match cls
    case Digit => IsDigit(c)
    case Letter => IsAsciiLetter(c)
    case Is(ch) => c == ch
  }

  /** `s.replace(/(a)(b)/g, '$1*$2')`: a `*` between every non-overlapping `a`-`b` pair. */
  function InsertTimes(s: string, a: CharClass, b: CharClass): (r: string)
    ensures |r| >= |s|
    ensures s != [] ==> r != [] && r[0] == s[0] && r[|r| - 1] == s[|s| - 1]
  {
    if |s| < 2 then s
    else if Matches(a, s[0]) && Matches(b, s[1]) then [s[0], '*', s[1]] + InsertTimes(s[2..], a, b)
    else [s[0]] + InsertTimes(s[1..], a, b)
  }

  /** The passes add no character but `*`. */
  lemma {:induction false} InsertTimesAbsent(s: string, a: CharClass, b: CharClass, d: char)
    requires d !in s && d != '*'
    ensures d !in InsertTimes(s, a, b)
  {
    if |s| >= 2 {
      if Matches(a, s[0]) && Matches(b, s[1]) {
        InsertTimesAbsent(s[2..], a, b, d);
      } else {
        InsertTimesAbsent(s[1..], a, b, d);
      }
    }
  }

  /** No character of class `a` is directly followed by one of class `b`. */
  predicate NoAdjacent(s: string, a: CharClass, b: CharClass)
  {
    forall i :: 0 <= i < |s| - 1 ==> !(Matches(a, s[i]) && Matches(b, s[i + 1]))
  }

  /** After the pass, no `a` is directly followed by a `b`, provided no character is in both classes and `*` is in neither. */
  lemma {:induction false} InsertTimesSeparates(s: string, a: CharClass, b: CharClass)
    requires forall c :: Matches(b, c) ==> !Matches(a, c)
    requires !Matches(a, '*') && !Matches(b, '*')
    ensures NoAdjacent(InsertTimes(s, a, b), a, b)
  {
    if |s| >= 2 {
      if Matches(a, s[0]) && Matches(b, s[1]) {
        InsertTimesSeparates(s[2..], a, b);
        SeparatesMatched(s, a, b);
      } else {
        InsertTimesSeparates(s[1..], a, b);
        SeparatesUnmatched(s, a, b);
      }
    }
  }

  lemma {:induction false} SeparatesMatched(s: string, a: CharClass, b: CharClass)
    requires |s| >= 2 && Matches(a, s[0]) && Matches(b, s[1])
    requires forall c :: Matches(b, c) ==> !Matches(a, c)
    requires !Matches(a, '*') && !Matches(b, '*')
    requires NoAdjacent(InsertTimes(s[2..], a, b), a, b)
    ensures NoAdjacent(InsertTimes(s, a, b), a, b)
  {
    var rest := InsertTimes(s[2..], a, b);
    InsertTimesMatchedShape(s, a, b);
    NoAdjacentCons(s[1], rest, a, b);
    NoAdjacentCons('*', [s[1]] + rest, a, b);
    NoAdjacentCons(s[0], ['*'] + ([s[1]] + rest), a, b);
  }

  lemma {:induction false} SeparatesUnmatched(s: string, a: CharClass, b: CharClass)
    requires |s| >= 2 && !(Matches(a, s[0]) && Matches(b, s[1]))
    requires NoAdjacent(InsertTimes(s[1..], a, b), a, b)
    ensures NoAdjacent(InsertTimes(s, a, b), a, b)
  {
    var rest := InsertTimes(s[1..], a, b);
    NoAdjacentCons(s[0], rest, a, b);
    assert InsertTimes(s, a, b) == [s[0]] + rest;
  }

  /** Putting `c` in front keeps the separation when `c` and the old first character are no `x`-`y` pair. */
  lemma {:induction false} NoAdjacentCons(c: char, t: string, x: CharClass, y: CharClass)
    requires NoAdjacent(t, x, y)
    requires t != [] ==> !(Matches(x, c) && Matches(y, t[0]))
    ensures NoAdjacent([c] + t, x, y)
  {
    var u := [c] + t;
    forall i | 0 <= i < |u| - 1 ensures !(Matches(x, u[i]) && Matches(y, u[i + 1])) {
      if i > 0 {
        assert u[i] == t[i - 1] && u[i + 1] == t[i];
      }
    }
  }

  /** A pass only inserts `*`, so it keeps every separation between classes that do not contain `*`. */
  lemma {:induction false} InsertTimesKeeps(s: string, a: CharClass, b: CharClass, x: CharClass, y: CharClass)
    requires NoAdjacent(s, x, y)
    requires !Matches(x, '*') && !Matches(y, '*')
    ensures NoAdjacent(InsertTimes(s, a, b), x, y)
  {
    if |s| >= 2 {
      if Matches(a, s[0]) && Matches(b, s[1]) {
        NoAdjacentTail(s, 2, x, y);
        InsertTimesKeeps(s[2..], a, b, x, y);
        KeepsMatched(s, a, b, x, y);
      } else {
        NoAdjacentTail(s, 1, x, y);
        InsertTimesKeeps(s[1..], a, b, x, y);
        KeepsUnmatched(s, a, b, x, y);
      }
    }
  }

  lemma {:induction false} KeepsMatched(s: string, a: CharClass, b: CharClass, x: CharClass, y: CharClass)
    requires |s| >= 2 && Matches(a, s[0]) && Matches(b, s[1])
    requires NoAdjacent(s, x, y) && !Matches(x, '*') && !Matches(y, '*')
    requires NoAdjacent(InsertTimes(s[2..], a, b), x, y)
    ensures NoAdjacent(InsertTimes(s, a, b), x, y)
  {
    var rest := InsertTimes(s[2..], a, b);
    InsertTimesMatchedShape(s, a, b);
    assert |s| > 2 ==> !(Matches(x, s[1]) && Matches(y, s[2]));
    NoAdjacentCons(s[1], rest, x, y);
    NoAdjacentCons('*', [s[1]] + rest, x, y);
    NoAdjacentCons(s[0], ['*'] + ([s[1]] + rest), x, y);
  }

  lemma {:induction false} InsertTimesMatchedShape(s: string, a: CharClass, b: CharClass)
    requires |s| >= 2 && Matches(a, s[0]) && Matches(b, s[1])
    ensures InsertTimes(s, a, b) == [s[0]] + (['*'] + ([s[1]] + InsertTimes(s[2..], a, b)))
  {
    var rest := InsertTimes(s[2..], a, b);
    assert [s[0], '*', s[1]] + rest == [s[0]] + (['*'] + ([s[1]] + rest));
  }

  lemma {:induction false} KeepsUnmatched(s: string, a: CharClass, b: CharClass, x: CharClass, y: CharClass)
    requires |s| >= 2 && !(Matches(a, s[0]) && Matches(b, s[1]))
    requires NoAdjacent(s, x, y)
    requires NoAdjacent(InsertTimes(s[1..], a, b), x, y)
    ensures NoAdjacent(InsertTimes(s, a, b), x, y)
  {
    var rest := InsertTimes(s[1..], a, b);
    assert !(Matches(x, s[0]) && Matches(y, s[1]));
    NoAdjacentCons(s[0], rest, x, y);
    assert InsertTimes(s, a, b) == [s[0]] + rest;
  }

  lemma {:induction false} NoAdjacentTail(s: string, k: nat, x: CharClass, y: CharClass)
    requires NoAdjacent(s, x, y) && k <= |s|
    ensures NoAdjacent(s[k..], x, y)
  {
    forall i | 0 <= i < |s[k..]| - 1 ensures !(Matches(x, s[k..][i]) && Matches(y, s[k..][i + 1])) {
      assert s[k..][i] == s[k + i] && s[k..][i + 1] == s[k + i + 1];
    }
  }

  /** A pass only inserts `*`: the input is a subsequence of the output. */
  lemma {:induction false} InsertTimesSubsequence(s: string, a: CharClass, b: CharClass)
    ensures IsSubsequence(s, InsertTimes(s, a, b))
  {
    if |s| < 2 {
      SubsequenceRefl(s);
    } else if Matches(a, s[0]) && Matches(b, s[1]) {
      var rest := InsertTimes(s[2..], a, b);
      InsertTimesSubsequence(s[2..], a, b);
      SubsequenceCons(s[1], s[2..], rest);
      SubsequenceSkip('*', [s[1]] + s[2..], [s[1]] + rest);
      SubsequenceCons(s[0], [s[1]] + s[2..], ['*'] + ([s[1]] + rest));
      assert s == [s[0]] + ([s[1]] + s[2..]);
      InsertTimesMatchedShape(s, a, b);
    } else {
      InsertTimesSubsequence(s[1..], a, b);
      SubsequenceCons(s[0], s[1..], InsertTimes(s[1..], a, b));
      assert s == [s[0]] + s[1..];
    }
  }

  /** A pass only inserts `*`: dropping every star from input and output gives the same text. */
  lemma {:induction false} InsertTimesOnlyStars(s: string, a: CharClass, b: CharClass)
    ensures Without(InsertTimes(s, a, b), '*') == Without(s, '*')
  {
    if |s| >= 2 {
      if Matches(a, s[0]) && Matches(b, s[1]) {
        InsertTimesOnlyStars(s[2..], a, b);
        OnlyStarsMatched(s, a, b);
      } else {
        InsertTimesOnlyStars(s[1..], a, b);
        OnlyStarsUnmatched(s, a, b);
      }
    }
  }

  lemma {:induction false} OnlyStarsMatched(s: string, a: CharClass, b: CharClass)
    requires |s| >= 2 && Matches(a, s[0]) && Matches(b, s[1])
    requires Without(InsertTimes(s[2..], a, b), '*') == Without(s[2..], '*')
    ensures Without(InsertTimes(s, a, b), '*') == Without(s, '*')
  {
    var rest := InsertTimes(s[2..], a, b);
    OnlyStarsPair(s, rest);
    assert InsertTimes(s, a, b) == [s[0]] + (['*'] + ([s[1]] + rest));
  }

  lemma {:induction false} OnlyStarsUnmatched(s: string, a: CharClass, b: CharClass)
    requires |s| >= 2 && !(Matches(a, s[0]) && Matches(b, s[1]))
    requires Without(InsertTimes(s[1..], a, b), '*') == Without(s[1..], '*')
    ensures Without(InsertTimes(s, a, b), '*') == Without(s, '*')
  {
    var rest := InsertTimes(s[1..], a, b);
    OnlyStarsSingle(s, rest);
    assert InsertTimes(s, a, b) == [s[0]] + rest;
  }

  /** One step of the pass that copies the first character. */
  lemma {:induction false} OnlyStarsSingle(s: string, rest: string)
    requires |s| >= 1 && Without(rest, '*') == Without(s[1..], '*')
    ensures Without([s[0]] + rest, '*') == Without(s, '*')
  {
    WithoutCons(s[0], rest, '*');
    WithoutCons(s[0], s[1..], '*');
    assert s == [s[0]] + s[1..];
  }

  /** One step of the pass that inserts a star between the first two characters. */
  lemma {:induction false} OnlyStarsPair(s: string, rest: string)
    requires |s| >= 2 && Without(rest, '*') == Without(s[2..], '*')
    ensures Without([s[0]] + (['*'] + ([s[1]] + rest)), '*') == Without(s, '*')
  {
    WithoutCons(s[1], rest, '*');
    WithoutCons('*', [s[1]] + rest, '*');
    WithoutCons(s[0], ['*'] + ([s[1]] + rest), '*');
    WithoutCons(s[1], s[2..], '*');
    WithoutCons(s[0], [s[1]] + s[2..], '*');
    assert s == [s[0]] + ([s[1]] + s[2..]);
  }

  lemma {:induction false} SubsequenceRefl(s: string)
    ensures IsSubsequence(s, s)
  {
    if s != [] {
      SubsequenceRefl(s[1..]);
      assert ([s[0]] + s[1..])[1..] == s[1..];
    }
  }

  lemma {:induction false} SubsequenceCons(x: char, a: string, b: string)
    requires IsSubsequence(a, b)
    ensures IsSubsequence([x] + a, [x] + b)
  {
    assert ([x] + a)[1..] == a;
    assert ([x] + b)[1..] == b;
  }

  lemma {:induction false} SubsequenceSkip(x: char, a: string, b: string)
    requires IsSubsequence(a, b)
    ensures IsSubsequence(a, [x] + b)
  {
    assert ([x] + b)[1..] == b;
  }

  /** Line 47-50: trim, then `×` to `*` and `÷` to `/`. */
  function Normalize(expr: string): string
  {
    Substitute(Substitute(Trim(expr), '×', "*"), '÷', "/")
  }

  /** Lines 55-57: the three implicit-multiplication passes. */
  function ImplicitTimes(s: string): string
  {
    InsertTimes(InsertTimes(InsertTimes(s, Digit, Letter), Is(')'), Digit), Digit, Is('('))
  }

  /** Lines 60-61: `π` to `pi` and Cyrillic `е` (U+0435) to `e`, every occurrence, so neither is left. */
  function ReplaceConstants(s: string): (r: string)
    ensures 'π' !in r && 'е' !in r
  {
    var noPi := Substitute(s, 'π', "pi");
    SubstituteAbsent(noPi, 'е', "e", 'π');
    Substitute(noPi, 'е', "e")
  }

  /** `preprocessExpression` under the given mode. */
  function Preprocess(mode: Mode, expr: string): string
  {
    var t := Normalize(expr);
    if mode != Programmer then ReplaceConstants(ImplicitTimes(t)) else t
  }

  /** In every mode the result is trimmed, empty exactly when the trimmed input is, and holds no `×` or `÷`. */
  lemma {:induction false} PreprocessTrimmed(mode: Mode, expr: string)
    ensures var r := Preprocess(mode, expr);
      && (r == [] <==> Trim(expr) == [])
      && IsTrimmed(r)
      && '×' !in r && '÷' !in r
  {
    var t := Normalize(expr);
    NormalizeTrimmed(expr);
    if mode != Programmer {
      ImplicitTimesTrimmed(t);
      ReplaceConstantsTrimmed(ImplicitTimes(t));
    }
  }

  lemma {:induction false} NormalizeTrimmed(expr: string)
    ensures var r := Normalize(expr);
      && (r == [] <==> Trim(expr) == []) && IsTrimmed(r) && '×' !in r && '÷' !in r
  {
    OperatorsReplaced(Trim(expr));
  }

  /** Rewriting `×` and `÷` in a trimmed text keeps it trimmed and non-empty, and leaves neither symbol. */
  lemma {:induction false} OperatorsReplaced(t: string)
    requires IsTrimmed(t)
    ensures var r := Substitute(Substitute(t, '×', "*"), '÷', "/");
      && (r == [] <==> t == []) && IsTrimmed(r) && '×' !in r && '÷' !in r
  {
    var t1 := Substitute(t, '×', "*");
    SubstituteAbsent(t1, '÷', "/", '×');
    SubstituteTrimmed(t, '×', "*");
    SubstituteTrimmed(t1, '÷', "/");
  }

  lemma {:induction false} ImplicitTimesTrimmed(t: string)
    requires IsTrimmed(t) && '×' !in t && '÷' !in t
    ensures var r := ImplicitTimes(t);
      && (r == [] <==> t == []) && IsTrimmed(r) && '×' !in r && '÷' !in r
  {
    var m1 := InsertTimes(t, Digit, Letter);
    var m2 := InsertTimes(m1, Is(')'), Digit);
    InsertTimesAbsent(t, Digit, Letter, '×');
    InsertTimesAbsent(m1, Is(')'), Digit, '×');
    InsertTimesAbsent(m2, Digit, Is('('), '×');
    InsertTimesAbsent(t, Digit, Letter, '÷');
    InsertTimesAbsent(m1, Is(')'), Digit, '÷');
    InsertTimesAbsent(m2, Digit, Is('('), '÷');
    InsertTimesTrimmed(t, Digit, Letter);
    InsertTimesTrimmed(m1, Is(')'), Digit);
    InsertTimesTrimmed(m2, Digit, Is('('));
  }

  lemma {:induction false} ReplaceConstantsTrimmed(m: string)
    requires IsTrimmed(m) && '×' !in m && '÷' !in m
    ensures var r := ReplaceConstants(m);
      && (r == [] <==> m == []) && IsTrimmed(r) && '×' !in r && '÷' !in r
  {
    var p := Substitute(m, 'π', "pi");
    SubstituteAbsent(m, 'π', "pi", '×');
    SubstituteAbsent(m, 'π', "pi", '÷');
    SubstituteAbsent(p, 'е', "e", '×');
    SubstituteAbsent(p, 'е', "e", '÷');
    SubstituteTrimmed(m, 'π', "pi");
    SubstituteTrimmed(p, 'е', "e");
  }

  /** Substituting text that neither starts nor ends with white space keeps a trimmed text trimmed, and non-empty when it was. */
  lemma {:induction false} SubstituteTrimmed(s: string, c: char, rep: string)
    requires IsTrimmed(s) && IsTrimmed(rep) && rep != []
    ensures IsTrimmed(Substitute(s, c, rep))
    ensures s != [] <==> Substitute(s, c, rep) != []
  {
    if s != [] {
      SubstituteEnds(s, c, rep);
    }
  }

  lemma {:induction false} InsertTimesTrimmed(s: string, a: CharClass, b: CharClass)
    requires IsTrimmed(s)
    ensures IsTrimmed(InsertTimes(s, a, b))
    ensures s != [] <==> InsertTimes(s, a, b) != []
  {
  }

  /** In programmer mode preprocessing is only the trim and the `×`/`÷` rewrite, position by position. */
  lemma {:induction false} ProgrammerPreprocess(expr: string)
    ensures var t := Trim(expr); var r := Preprocess(Programmer, expr);
      && |r| == |t|
      && forall i :: 0 <= i < |t| ==> r[i] == (if t[i] == '×' then '*' else if t[i] == '÷' then '/' else t[i])
  {
    var t := Trim(expr);
    SubstituteChar(t, '×', '*');
    SubstituteChar(Substitute(t, '×', "*"), '÷', '/');
  }

  /**
   * After the passes of lines 55-57 no digit is directly followed by a letter, no `)` by a digit and
   * no digit by `(`, and the passes only inserted `*`.
   */
  lemma {:induction false} ImplicitTimesSeparates(s: string)
    ensures var r := ImplicitTimes(s);
      && NoAdjacent(r, Digit, Letter) && NoAdjacent(r, Is(')'), Digit) && NoAdjacent(r, Digit, Is('('))
      && Without(r, '*') == Without(s, '*')
  {
    var s1 := InsertTimes(s, Digit, Letter);
    var s2 := InsertTimes(s1, Is(')'), Digit);
    var s3 := InsertTimes(s2, Digit, Is('('));
    InsertTimesSeparates(s, Digit, Letter);
    InsertTimesKeeps(s1, Is(')'), Digit, Digit, Letter);
    InsertTimesKeeps(s2, Digit, Is('('), Digit, Letter);
    InsertTimesSeparates(s1, Is(')'), Digit);
    InsertTimesKeeps(s2, Digit, Is('('), Is(')'), Digit);
    InsertTimesSeparates(s2, Digit, Is('('));
    InsertTimesOnlyStars(s, Digit, Letter);
    InsertTimesOnlyStars(s1, Is(')'), Digit);
    InsertTimesOnlyStars(s2, Digit, Is('('));
  }

  /** The constant step runs after the multiplication passes, so `2π` becomes `2pi`, not `2*pi`. */
  lemma PiAfterDigit()
    ensures Preprocess(Standard, "2π") == "2pi"
  {
    PiNormalized();
    PiNoTimes();
    PiReplaced();
  }

  lemma PiNormalized()
    ensures Normalize("2π") == "2π"
  {
    assert Trim("2π") == "2π";
    assert "2π"[1..] == "π";
    assert "π"[1..] == [];
    assert Substitute("2π", '×', "*") == "2π";
  }

  lemma PiNoTimes()
    ensures ImplicitTimes("2π") == "2π"
  {
    assert InsertTimes("2π", Digit, Letter) == "2π";
    assert InsertTimes("2π", Is(')'), Digit) == "2π";
  }

  lemma PiReplaced()
    ensures ReplaceConstants("2π") == "2pi"
  {
    assert Substitute("2π", 'π', "pi") == "2pi" by {
      assert "2π"[1..] == "π";
      assert "π"[1..] == [];
    }
    assert "2pi"[1..] == "pi";
    assert "pi"[1..] == "i";
    assert "i"[1..] == [];
  }

  // ---------------------------------------------------------------------------------------------
  // Programmer mode literals (evaluateProgrammer, lines 73-100)
  // ---------------------------------------------------------------------------------------------

  predicate IsHexLetter(c: char) { 'A' <= c <= 'F' }

  /**
   * `s.replace(/\b([A-F])\b/g, …)`: an upper-case `A`–`F` with a non-word character (or nothing)
   * on both sides becomes its decimal value. `afterWord` says whether the character before `s`
   * is a word character.
   */
  function HexLetters(s: string, afterWord: bool): (r: string)
    ensures s == [] <==> r == []
    ensures s != [] ==> IsWordChar(r[0]) == IsWordChar(s[0]) && IsWordChar(r[|r| - 1]) == IsWordChar(s[|s| - 1])
  {
    if s == [] then []
    else
      var standalone := IsHexLetter(s[0]) && !afterWord && (|s| == 1 || !IsWordChar(s[1]));
      (if standalone then DecimalString(DigitValue(s[0])) else [s[0]]) + HexLetters(s[1..], IsWordChar(s[0]))
  }

  /** Leading decimal digits do not change how the rest is rewritten, beyond following a word character. */
  lemma {:induction false} HexLettersAfterDigits(d: string, x: string, w: bool)
    requires d != [] && AllDigits(d)
    ensures HexLetters(d + x, w) == d + HexLetters(x, true)
  {
    var c := d[0];
    var rest := HexLetters(d[1..] + x, true);
    assert HexLetters(d + x, w) == [c] + rest by {
      assert IsDigit(c) && !IsHexLetter(c) && IsWordChar(c);
      assert (d + x)[0] == c && (d + x)[1..] == d[1..] + x;
    }
    assert rest == d[1..] + HexLetters(x, true) by {
      if |d| > 1 {
        HexLettersAfterDigits(d[1..], x, true);
      } else {
        assert d[1..] + x == x;
      }
    }
    assert d == [c] + d[1..];
    ConcatAssoc([c], d[1..], HexLetters(x, true));
  }

  /** The standalone-letter pass is idempotent: what it leaves has no standalone `A`–`F`. */
  lemma {:induction false} HexLettersIdempotent(s: string, w: bool)
    ensures HexLetters(HexLetters(s, w), w) == HexLetters(s, w)
  {
    if s != [] {
      var standalone := IsHexLetter(s[0]) && !w && (|s| == 1 || !IsWordChar(s[1]));
      var tail := HexLetters(s[1..], IsWordChar(s[0]));
      HexLettersIdempotent(s[1..], IsWordChar(s[0]));
      if standalone {
        var d := DecimalString(DigitValue(s[0]));
        HexLettersAfterDigits(d, tail, w);
        assert IsWordChar(s[0]);
      } else {
        var r := [s[0]] + tail;
        assert r[1..] == tail;
      }
    }
  }

  /** Letters in a run of word characters are never standalone. */
  lemma {:induction false} HexLettersInWord(s: string)
    requires forall i :: 0 <= i < |s| ==> IsWordChar(s[i])
    ensures HexLetters(s, true) == s
  {
    if s != [] {
      HexLettersInWord(s[1..]);
    }
  }

  /** Without any upper-case `A`–`F` the pass changes nothing. */
  lemma {:induction false} HexLettersNone(s: string, w: bool)
    requires forall i :: 0 <= i < |s| ==> !IsHexLetter(s[i])
    ensures HexLetters(s, w) == s
  {
    if s != [] {
      HexLettersNone(s[1..], IsWordChar(s[0]));
    }
  }

  /** `E-B` reads as `14-11`: both letters stand alone. */
  lemma HexLetterStandalone()
    ensures HexLetters("E-B", false) == "14-11"
  {
    HexLetterAfterMinus();
    SmallDecimals();
    assert "E-B"[1..] == "-B";
  }

  /** `-B` after a word character: the `-` stays and the `B` reads as `11`. */
  lemma HexLetterAfterMinus()
    ensures HexLetters("-B", true) == "-11"
  {
    SmallDecimals();
    assert HexLetters("B", false) == "11" by {
      assert "B"[1..] == [];
    }
    assert "-B"[1..] == "B";
  }

  lemma SmallDecimals()
    ensures DecimalString(14) == "14" && DecimalString(11) == "11"
  {
    assert ToRadix(14, 10) == ToRadix(1, 10) + [DigitChar(4)];
    assert ToRadix(11, 10) == ToRadix(1, 10) + [DigitChar(1)];
  }

  /** The `A` of `0xA` follows the word character `x` and is kept. */
  lemma HexLetterInLiteral()
    ensures HexLetters("0xA", false) == "0xA"
  {
    assert "0xA"[1..] == "xA";
    assert "xA"[1..] == "A";
  }

  /** The length of the longest prefix of `s` made of digits of `radix` (a greedy `+`). */
  function RunLength(s: string, radix: nat): (k: nat)
    ensures k <= |s|
    ensures forall i :: 0 <= i < k ==> IsRadixDigit(s[i], radix)
    ensures k == |s| || !IsRadixDigit(s[k], radix)
  {
    if s == [] || !IsRadixDigit(s[0], radix) then 0 else 1 + RunLength(s[1..], radix)
  }

  /**
   * 2^53: below it every integer is a double, so `parseInt` and `toString` read and print it
   * exactly; from it on the double is rounded.
   */
  const SafeInteger: nat := 0x20_0000_0000_0000

  /**
   * `s.replace(/0<tag>([digits]+)/g, m => parseInt(digits, radix).toString())`: every `0x`, `0b`
   * or `0o` followed by at least one digit of the radix, with all the digits that follow,
   * becomes the decimal text of their value.
   */
  function RadixLiterals(s: string, tag: char, radix: nat): string
    decreases |s|
  {
    if |s| >= 3 && s[0] == '0' && s[1] == tag && IsRadixDigit(s[2], radix) then
      var k := RunLength(s[2..], radix);
      DecimalString(ParseRadix(s[2..2 + k], radix)) + RadixLiterals(s[2 + k..], tag, radix)
    else if s == [] then []
    else [s[0]] + RadixLiterals(s[1..], tag, radix)
  }

  /** Without the tag letter there is no literal to convert. */
  lemma {:induction false} RadixLiteralsNoTag(s: string, tag: char, radix: nat)
    requires tag !in s
    ensures RadixLiterals(s, tag, radix) == s
  {
    if s != [] {
      RadixLiteralsNoTag(s[1..], tag, radix);
    }
  }

  /** A whole literal `0<tag><digits>` becomes the decimal text of its value. */
  lemma {:induction false} RadixLiteralWhole(digits: string, tag: char, radix: nat)
    requires digits != [] && forall i :: 0 <= i < |digits| ==> IsRadixDigit(digits[i], radix)
    ensures RadixLiterals("0" + [tag] + digits, tag, radix) == DecimalString(ParseRadix(digits, radix))
  {
    var s := "0" + [tag] + digits;
    assert s[2..] == digits;
    assert s[0] == '0' && s[1] == tag && s[2] == digits[0];
    RunLengthAll(digits, radix);
    var k := RunLength(s[2..], radix);
    assert s[2..2 + k] == digits;
    assert s[2 + k..] == [];
    assert RadixLiterals(s, tag, radix) == DecimalString(ParseRadix(s[2..2 + k], radix)) + RadixLiterals(s[2 + k..], tag, radix);
  }

  lemma {:induction false} RunLengthAll(s: string, radix: nat)
    requires forall i :: 0 <= i < |s| ==> IsRadixDigit(s[i], radix)
    ensures RunLength(s, radix) == |s|
  {
    if s != [] {
      RunLengthAll(s[1..], radix);
    }
  }

  /** Lines 73-100: the four literal passes in the order the source runs them. */
  function LiteralsToDecimal(s: string): string
  {
    RadixLiterals(RadixLiterals(RadixLiterals(HexLetters(s, false), 'x', 16), 'b', 2), 'o', 8)
  }

  /** `n.toString(radix)` for any integer: a `-` before the digits of a negative number. */
  function SignedRadix(n: int, radix: nat): (s: string)
    requires IsRadix(radix)
  {
    if n < 0 then "-" + ToRadix(-n, radix) else ToRadix(n, radix)
  }

  /** `toHex`: `0x` and the upper-case hexadecimal digits. */
  function ToHex(value: int): (s: string)
    ensures StartsWith(s, "0x")
  {
    "0x" + AsciiUpper(SignedRadix(value, 16))
  }

  /** `toBinary`: `0b` and the binary digits. */
  function ToBinary(value: int): (s: string)
    ensures StartsWith(s, "0b")
  {
    "0b" + SignedRadix(value, 2)
  }

  /** `toOctal`: `0o` and the octal digits. */
  function ToOctal(value: int): (s: string)
    ensures StartsWith(s, "0o")
  {
    "0o" + SignedRadix(value, 8)
  }

  /** For a number below 2^53, what `toHex` prints the literal passes read back as the same number. */
  lemma {:induction false} HexRoundTrip(n: nat)
    requires n < SafeInteger
    ensures LiteralsToDecimal(ToHex(n)) == DecimalString(n)
  {
    var lower := ToRadix(n, 16);
    var h := AsciiUpper(lower);
    assert ToHex(n) == "0" + ['x'] + h;
    ParseRadixUpper(lower, 16);
    ParseToRadix(n, 16);
    HexLiteralKept(h);
    RadixLiteralWhole(h, 'x', 16);
    DecimalNoTag(n, 'b', 2);
    DecimalNoTag(n, 'o', 8);
  }

  /** The letter pass leaves a `0x` literal alone: its letters follow the word character `x`. */
  lemma {:induction false} HexLiteralKept(h: string)
    requires forall i :: 0 <= i < |h| ==> IsRadixDigit(h[i], 16) && !('a' <= h[i] <= 'z')
    ensures HexLetters("0" + ['x'] + h, false) == "0" + ['x'] + h
  {
    var x := "0" + ['x'] + h;
    var w := ['x'] + h;
    assert x == ['0'] + w;
    assert x[0] == '0' && x[1..] == w;
    HexWordChars(h);
    HexLettersInWord(w);
    assert HexLetters(x, false) == [x[0]] + HexLetters(x[1..], true);
  }

  lemma {:induction false} HexWordChars(h: string)
    requires forall i :: 0 <= i < |h| ==> IsRadixDigit(h[i], 16) && !('a' <= h[i] <= 'z')
    ensures forall i :: 0 <= i < |['x'] + h| ==> IsWordChar((['x'] + h)[i])
  {
    var w := ['x'] + h;
    forall i | 0 <= i < |w| ensures IsWordChar(w[i]) {
      if i > 0 {
        assert w[i] == h[i - 1];
      }
    }
  }

  /** A literal pass has nothing to convert in a decimal numeral. */
  lemma {:induction false} DecimalNoTag(n: nat, tag: char, radix: nat)
    requires !IsDigit(tag)
    ensures RadixLiterals(DecimalString(n), tag, radix) == DecimalString(n)
  {
    RadixLiteralsNoTag(DecimalString(n), tag, radix);
  }

  /** For a number below 2^53, what `toBinary` prints the literal passes read back as the same number. */
  lemma {:induction false} BinaryRoundTrip(n: nat)
    requires n < SafeInteger
    ensures LiteralsToDecimal(ToBinary(n)) == DecimalString(n)
  {
    var b := ToRadix(n, 2);
    var x := ToBinary(n);
    assert x == "0" + ['b'] + b;
    ParseToRadix(n, 2);
    NoHexInLiteral(b, 'b', 2);
    RadixLiteralWhole(b, 'b', 2);
    DecimalNoTag(n, 'o', 8);
  }

  /** A binary or octal literal holds no letter `A`–`F` and no `x`, so the first two passes keep it. */
  lemma {:induction false} NoHexInLiteral(digits: string, tag: char, radix: nat)
    requires tag == 'b' || tag == 'o'
    requires forall i :: 0 <= i < |digits| ==> IsDigit(digits[i])
    ensures var x := "0" + [tag] + digits;
      RadixLiterals(HexLetters(x, false), 'x', 16) == x
  {
    var x := "0" + [tag] + digits;
    assert forall i :: 0 <= i < |x| ==> x[i] == '0' || x[i] == tag || IsDigit(x[i]);
    HexLettersNone(x, false);
    RadixLiteralsNoTag(x, 'x', 16);
  }

  /** For a number below 2^53, what `toOctal` prints the literal passes read back as the same number. */
  lemma {:induction false} OctalRoundTrip(n: nat)
    requires n < SafeInteger
    ensures LiteralsToDecimal(ToOctal(n)) == DecimalString(n)
  {
    var o := ToRadix(n, 8);
    var x := ToOctal(n);
    assert x == "0" + ['o'] + o;
    ParseToRadix(n, 8);
    NoHexInLiteral(o, 'o', 8);
    NoBinaryInOctal(o);
    RadixLiteralWhole(o, 'o', 8);
  }

  lemma {:induction false} NoBinaryInOctal(digits: string)
    requires forall i :: 0 <= i < |digits| ==> IsDigit(digits[i])
    ensures RadixLiterals("0" + ['o'] + digits, 'b', 2) == "0" + ['o'] + digits
  {
    var x := "0" + ['o'] + digits;
    assert forall i :: 0 <= i < |x| ==> x[i] == 'o' || IsDigit(x[i]);
    RadixLiteralsNoTag(x, 'b', 2);
  }

  // ---------------------------------------------------------------------------------------------
  // The bitwise path (evaluateBitwise)
  // ---------------------------------------------------------------------------------------------

  /** Lines 106-107: the text goes down the bitwise path when it holds one of these operators. */
  predicate UsesBitwise(p: string)
  {
    '&' in p || '|' in p || '^' in p || Contains(p, "<<") || Contains(p, ">>") || '~' in p
  }

  /** ECMAScript ToInt32: the integer modulo 2^32, read as a signed 32-bit value. */
  function ToInt32(n: int): (r: int)
    ensures -0x8000_0000 <= r < 0x8000_0000
  {
    var m := n % 0x1_0000_0000;
    if m >= 0x8000_0000 then m - 0x1_0000_0000 else m
  }

  /** ToInt32 keeps the value modulo 2^32. */
  lemma {:induction false} ToInt32Congruent(n: int)
    ensures (ToInt32(n) - n) % 0x1_0000_0000 == 0
  {
  }

  /** A value that fits in 32 signed bits is its own ToInt32. */
  lemma {:induction false} ToInt32Small(n: int)
    requires -0x8000_0000 <= n < 0x8000_0000
    ensures ToInt32(n) == n
  {
    if n < 0 {
      assert n % 0x1_0000_0000 == n + 0x1_0000_0000;
    }
  }

  /** JavaScript `~n`. */
  function BitNot(n: int): (r: int)
    ensures -0x8000_0000 <= r < 0x8000_0000
  {
    -ToInt32(n) - 1
  }

  /** `s.replace(/~(\d+)/g, …)`: `~` and the digits after it become the decimal text of `~parseInt(digits)`. */
  function NotLiterals(s: string): string
    decreases |s|
  {
    if |s| >= 2 && s[0] == '~' && IsDigit(s[1]) then
      var k := RunLength(s[1..], 10);
      IntString(BitNot(ParseRadix(s[1..1 + k], 10))) + NotLiterals(s[1 + k..])
    else if s == [] then []
    else [s[0]] + NotLiterals(s[1..])
  }

  /** `~n` for an `n` below 2^31 becomes the decimal text of -(n+1). */
  lemma {:induction false} NotOfSmall(n: nat)
    requires n < 0x8000_0000
    ensures NotLiterals("~" + DecimalString(n)) == IntString(-(n + 1))
  {
    var d := DecimalString(n);
    NotLiteralWhole(d);
    ParseToRadix(n, 10);
    ToInt32Small(n);
  }

  /** `~` with all the digits after it is replaced as one literal. */
  lemma {:induction false} NotLiteralWhole(d: string)
    requires d != [] && AllDigits(d)
    ensures forall i :: 0 <= i < |d| ==> IsRadixDigit(d[i], 10)
    ensures NotLiterals("~" + d) == IntString(BitNot(ParseRadix(d, 10)))
  {
    var s := "~" + d;
    assert forall i :: 0 <= i < |d| ==> IsRadixDigit(d[i], 10);
    var k := RunLength(s[1..], 10);
    assert k == |d| by {
      assert s[1..] == d;
      RunLengthAll(d, 10);
    }
    assert NotLiterals(s) == IntString(BitNot(ParseRadix(s[1..1 + k], 10))) + NotLiterals(s[1 + k..]) by {
      assert s[0] == '~' && s[1] == d[0];
    }
    assert s[1..1 + k] == d;
    assert s[1 + k..] == [];
  }

  /** The characters the sanitiser keeps: `[0-9&|^<>() \-+*\/]`. */
  predicate IsBitwiseChar(c: char)
  {
    IsDigit(c) || c in "&|^<>() -+*/"
  }

  /** `s.replace(/[^0-9&|^<>()\ \-+*\/]/g, '')`: every other character removed. */
  function Sanitize(s: string): (r: string)
    ensures forall i :: 0 <= i < |r| ==> IsBitwiseChar(r[i])
    ensures IsSubsequence(r, s)
  {
    if s == [] then []
    else if IsBitwiseChar(s[0]) then [s[0]] + Sanitize(s[1..])
    else Sanitize(s[1..])
  }

  /** The sanitiser removes nothing from text made only of permitted characters, so it is idempotent. */
  lemma {:induction false} SanitizeKeepsPermitted(s: string)
    requires forall i :: 0 <= i < |s| ==> IsBitwiseChar(s[i])
    ensures Sanitize(s) == s
  {
    if s != [] {
      SanitizeKeepsPermitted(s[1..]);
    }
  }

  /** `evaluateBitwise`: every failure of the evaluation reads `Invalid bitwise operation`. */
  function EvaluateBitwise(expr: string, backend: Backend): (c: Completion<string>)
    ensures c.Thrown? ==> c.exception == ErrorObject("Invalid bitwise operation")
  {
    var processed := NotLiterals(expr);
    var sanitized := Sanitize(processed);
    match backend.runReturn(sanitized)
    case Normal(v) => Normal(v)
    case Thrown(_) => Thrown(ErrorObject("Invalid bitwise operation"))
  }

  /** `evaluateProgrammer`: the literal passes, then the bitwise path or the math library. */
  function EvaluateProgrammer(expr: string, backend: Backend): Completion<string>
  {
    var processed := LiteralsToDecimal(expr);
    if UsesBitwise(processed) then EvaluateBitwise(processed, backend)
    else backend.mathEvaluate(processed)
  }

  // ---------------------------------------------------------------------------------------------
  // Errors and evaluate
  // ---------------------------------------------------------------------------------------------

  const UndefinedMessage := "Undefined function or variable"
  const DivideMessage := "Cannot divide by zero"
  const SyntaxMessage := "Syntax error"
  const InvalidMessage := "Invalid expression"

  /** `formatError`: the first of three substrings found decides the message. */
  function FormatError(message: string): (r: string)
    ensures r in {UndefinedMessage, DivideMessage, SyntaxMessage, InvalidMessage}
  {
    if Contains(message, "Undefined symbol") then UndefinedMessage
    else if Contains(message, "division by zero") then DivideMessage
    else if Contains(message, "Unexpected") then SyntaxMessage
    else InvalidMessage
  }

  /** Each message names exactly the inputs that produce it, checked in source order. */
  lemma {:induction false} FormatErrorCases(message: string)
    ensures FormatError(message) == UndefinedMessage <==> Contains(message, "Undefined symbol")
    ensures FormatError(message) == DivideMessage <==>
      !Contains(message, "Undefined symbol") && Contains(message, "division by zero")
    ensures FormatError(message) == SyntaxMessage <==>
      !Contains(message, "Undefined symbol") && !Contains(message, "division by zero") && Contains(message, "Unexpected")
    ensures FormatError(message) == InvalidMessage <==>
      !Contains(message, "Undefined symbol") && !Contains(message, "division by zero") && !Contains(message, "Unexpected")
  {
  }

  /** The message `evaluate` throws for what the evaluation threw (lines 39-42). */
  function ErrorMessageFor(e: Exception): string
  {
    match e
    case ErrorObject(m) => FormatError(m)
    case NonError => InvalidMessage
  }

  /** `evaluate` with the engine in `mode`. */
  function Evaluated(mode: Mode, expression: string, backend: Backend): Completion<string>
  {
    var cleaned := Preprocess(mode, expression);
    var raw := if mode == Programmer then EvaluateProgrammer(cleaned, backend) else backend.mathEvaluate(cleaned);
    match raw
    case Normal(v) => Normal(v)
    case Thrown(e) => Thrown(ErrorObject(ErrorMessageFor(e)))
  }

  /**
   * Whatever `evaluate` throws is an `Error` with one of the four messages; outside programmer mode
   * it is the math library's message mapped by `formatError`, and a failure on the bitwise path
   * always reads `Invalid expression`.
   */
  lemma {:induction false} EvaluateErrors(mode: Mode, expression: string, backend: Backend)
    ensures var c := Evaluated(mode, expression, backend);
      c.Thrown? ==> (c.exception.ErrorObject? &&
        c.exception.message in {UndefinedMessage, DivideMessage, SyntaxMessage, InvalidMessage})
    ensures var cleaned := Preprocess(mode, expression);
      mode != Programmer ==>
        match backend.mathEvaluate(cleaned)
        case Normal(v) => Evaluated(mode, expression, backend) == Normal(v)
        case Thrown(e) => Evaluated(mode, expression, backend) == Thrown(ErrorObject(ErrorMessageFor(e)))
    ensures var processed := LiteralsToDecimal(Preprocess(mode, expression));
      mode == Programmer && UsesBitwise(processed) && EvaluateBitwise(processed, backend).Thrown? ==>
        Evaluated(mode, expression, backend) == Thrown(ErrorObject(InvalidMessage))
  {
    BitwiseMessage();
  }

  /** The bitwise path's own message matches none of the three substrings. */
  lemma BitwiseMessage()
    ensures FormatError("Invalid bitwise operation") == InvalidMessage
  {
    var bitwise := "Invalid bitwise operation";
    assert 'U' !in bitwise && 'z' !in bitwise;
    NotContainsMissing(bitwise, "Undefined symbol", 'U');
    NotContainsMissing(bitwise, "division by zero", 'z');
    NotContainsMissing(bitwise, "Unexpected", 'U');
  }

  // ---------------------------------------------------------------------------------------------
  // factorial
  // ---------------------------------------------------------------------------------------------

  /** 1 · 2 · … · (hi - 1) counted upwards from `lo`: an independent definition of n!. */
  function ProductRange(lo: int, hi: int): int
    decreases hi - lo
  {
    if lo >= hi then 1 else lo * ProductRange(lo + 1, hi)
  }

  /** `factorial(n)` on integers: n! for natural n, an error for negative n. */
  function Factorial(n: int): (r: Completion<int>)
    decreases if n < 0 then 0 else n
    ensures n < 0 <==> r.Thrown?
    ensures n < 0 ==> r.exception == ErrorObject("Factorial of negative number")
    ensures n >= 0 ==> r.value >= 1 && r.value >= n
  {
    if n < 0 then Thrown(ErrorObject("Factorial of negative number"))
    else if n == 0 || n == 1 then Normal(1)
    else Normal(n * Factorial(n - 1).value)
  }

  lemma {:induction false} ProductRangeLast(lo: int, hi: int)
    requires lo < hi
    ensures ProductRange(lo, hi) == ProductRange(lo, hi - 1) * (hi - 1)
    decreases hi - lo
  {
    if lo < hi - 1 {
      ProductRangeLast(lo + 1, hi);
    }
  }

  /** `factorial(n)` is the product 1 · 2 · … · n. */
  lemma {:induction false} FactorialIsProduct(n: nat)
    ensures Factorial(n) == Normal(ProductRange(1, n + 1))
  {
    if n >= 2 {
      FactorialIsProduct(n - 1);
      ProductRangeLast(1, n + 1);
    }
  }

  // ---------------------------------------------------------------------------------------------
  // The engine object
  // ---------------------------------------------------------------------------------------------

  /** `CalculationEngine`: its one piece of state is the mode. */
  class Engine {
    var mode: Mode

    constructor ()
      ensures mode == Standard
    {
      mode := Standard;
    }

    method SetMode(m: Mode)
      modifies this
      ensures mode == m
    {
      mode := m;
    }

    method GetMode() returns (name: string)
      ensures name == ModeName(mode)
    {
      name := ModeName(mode);
    }

    /** `evaluate`: preprocess, evaluate by mode, and wrap any error in one of the four messages. */
    method Evaluate(expression: string, backend: Backend) returns (c: Completion<string>)
      ensures c == Evaluated(mode, expression, backend)
      ensures c.Thrown? ==> (c.exception.ErrorObject? &&
        c.exception.message in {UndefinedMessage, DivideMessage, SyntaxMessage, InvalidMessage})
    {
      var cleaned := Preprocess(mode, expression);
      var raw: Completion<string>;
      if mode == Programmer {
        raw := EvaluateProgrammer(cleaned, backend);
      } else {
        raw := backend.mathEvaluate(cleaned);
      }
      match raw
      case Normal(v) =>
        c := Normal(v);
      case Thrown(e) =>
        c := Thrown(ErrorObject(ErrorMessageFor(e)));
      EvaluateErrors(mode, expression, backend);
    }
  }
}
