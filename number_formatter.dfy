/**
 * Digit grouping for display: `format` puts commas into the integer part of a numeral, in the
 * international style (groups of three) or the Indian style (a group of three, then groups of
 * two); `unformat` takes every comma out again.
 *
 * `formatInternational` and `formatIndian` push characters onto an array in an index loop over the
 * reversed digits; here they are methods with that loop, proved equal to `Grouped`, a reference
 * definition that cuts the digits into groups from the right.
 */
module NumberFormatter {
  import opened Text

  /** `'international' | 'indian'`. */
  datatype NumberFormat = International | Indian

  // ---------------------------------------------------------------------------------------------
  // Reference grouping
  // ---------------------------------------------------------------------------------------------

  /** `s` cut into groups of `g` characters from the right and joined with commas. */
  function RightGroups(s: string, g: nat): string
    requires g > 0
    decreases |s|
  {
    if |s| <= g then s else RightGroups(s[..|s| - g], g) + "," + s[|s| - g..]
  }

  /**
   * The grouping of a format: international is groups of three; Indian is a last group of three,
   * and groups of two before it.
   */
  function Grouped(f: NumberFormat, s: string): string
  {
    match f
    case International => RightGroups(s, 3)
    case Indian => if |s| <= 3 then s else RightGroups(s[..|s| - 3], 2) + "," + s[|s| - 3..]
  }

  /** The loops' test: a comma goes before the `i`-th character counted from the right, from 0. */
  predicate CommaBefore(f: NumberFormat, i: nat)
  {
    match f
    case International => i > 0 && i % 3 == 0
    case Indian => i == 3 || (i > 3 && (i - 3) % 2 == 0)
  }

  /** `n % m` for the small moduli the groupings need, written with literal moduli. */
  function Rem(n: int, m: nat): (r: int)
    requires 2 <= m <= 4
    ensures 0 <= r < m
  {
    if m == 2 then n % 2 else if m == 3 then n % 3 else n % 4
  }

  /** Putting one more character in front of a grouped text adds at most one comma, right after it. */
  lemma {:induction false} RightGroupsCons(c: char, t: string, g: nat)
    requires g == 2 || g == 3
    ensures RightGroups([c] + t, g) == [c] + (if |t| > 0 && Rem(|t|, g) == 0 then "," else "") + RightGroups(t, g)
    decreases |t|
  {
    if |t| <= g {
      RightGroupsConsShort(c, t, g);
    } else {
      var p := t[..|t| - g];
      RightGroupsCons(c, p, g);
      RemShift(|p|, g);
      RightGroupsConsLong(c, t, g, if |t| > 0 && Rem(|t|, g) == 0 then "," else "");
    }
  }

  lemma {:induction false} RightGroupsConsShort(c: char, t: string, g: nat)
    requires (g == 2 || g == 3) && |t| <= g
    ensures RightGroups([c] + t, g) == [c] + (if |t| > 0 && Rem(|t|, g) == 0 then "," else "") + RightGroups(t, g)
  {
    var s := [c] + t;
    if |t| == g {
      assert s[..|s| - g] == [c];
      assert s[|s| - g..] == t;
    }
  }

  /** The inductive step of `RightGroupsCons`: the last group is the same on both sides. */
  lemma {:induction false} RightGroupsConsLong(c: char, t: string, g: nat, comma: string)
    requires g > 0 && |t| > g
    requires RightGroups([c] + t[..|t| - g], g) == [c] + comma + RightGroups(t[..|t| - g], g)
    ensures RightGroups([c] + t, g) == [c] + comma + RightGroups(t, g)
  {
    var p := t[..|t| - g];
    var last := t[|t| - g..];
    var s := [c] + t;
    var rp := RightGroups(p, g);
    assert RightGroups(s, g) == RightGroups([c] + p, g) + "," + last by {
      RightGroupsUnfold(s, g);
      assert s[..|s| - g] == [c] + p;
      assert s[|s| - g..] == last;
    }
    assert RightGroups(t, g) == rp + "," + last by {
      RightGroupsUnfold(t, g);
    }
    ConcatAssoc([c] + comma, rp, "," + last);
  }

  lemma {:induction false} RemShift(n: nat, g: nat)
    requires g == 2 || g == 3
    ensures Rem(n + g, g) == Rem(n, g)
    ensures (n > 0 && Rem(n, g) == 0) == (n + g > 0 && Rem(n + g, g) == 0) || n == 0
  {
  }

  lemma {:induction false} RightGroupsUnfold(s: string, g: nat)
    requires g > 0 && |s| > g
    ensures RightGroups(s, g) == RightGroups(s[..|s| - g], g) + "," + s[|s| - g..]
  {
  }

  /** The reference grouping grows exactly as the loops build it: `CommaBefore` decides the comma. */
  lemma {:induction false} GroupedCons(f: NumberFormat, c: char, t: string)
    ensures Grouped(f, [c] + t) == [c] + (if CommaBefore(f, |t|) then "," else "") + Grouped(f, t)
  {
    var s := [c] + t;
    match f
    case International =>
      RightGroupsCons(c, t, 3);
    case Indian =>
      if |t| == 3 {
        assert s[..|s| - 3] == [c];
        assert s[|s| - 3..] == t;
      } else if |t| > 3 {
        var p := t[..|t| - 3];
        assert s[..|s| - 3] == [c] + p;
        assert s[|s| - 3..] == t[|t| - 3..];
        RightGroupsCons(c, p, 2);
      }
  }

  // ---------------------------------------------------------------------------------------------
  // The loops (formatInternational, formatIndian)
  // ---------------------------------------------------------------------------------------------

  /** One turn of either loop: push the comma the test asks for, then the next reversed character. */
  lemma {:induction false} PushStep(f: NumberFormat, s: string, i: nat, formatted: string)
    requires i < |s| && Reverse(formatted) == Grouped(f, s[|s| - i..])
    ensures Reverse(formatted + (if CommaBefore(f, i) then [','] else []) + [Reverse(s)[i]])
         == Grouped(f, s[|s| - i - 1..])
  {
    var c := s[|s| - 1 - i];
    ReverseAt(s, i);
    var comma: string := if CommaBefore(f, i) then [','] else [];
    ReversePush(formatted, comma, c);
    assert s[|s| - i - 1..] == [c] + s[|s| - i..];
    GroupedCons(f, c, s[|s| - i..]);
  }

  /** Reversing after a push: the pushed characters come first, in reverse order. */
  lemma {:induction false} ReversePush(formatted: string, comma: string, c: char)
    requires |comma| <= 1
    ensures Reverse(formatted + comma + [c]) == [c] + comma + Reverse(formatted)
  {
    ReverseAppend(formatted + comma, [c]);
    ReverseAppend(formatted, comma);
    assert Reverse(comma) == comma by {
      if comma != [] {
        assert comma[1..] == [];
      }
    }
    assert Reverse([c]) == [c] by {
      assert [c][1..] == [];
    }
  }

  /** `formatInternational`: a comma before every third digit from the right. */
  method FormatInternational(integerStr: string) returns (r: string)
    ensures r == Grouped(International, integerStr)
  {
    var reversed := Reverse(integerStr);
    var formatted: string := [];
    for i := 0 to |reversed|
      invariant Reverse(formatted) == Grouped(International, integerStr[|integerStr| - i..])
    {
      PushStep(International, integerStr, i, formatted);
      ghost var pushed := formatted;
      if i > 0 && i % 3 == 0 {
        formatted := formatted + [','];
      }
      assert formatted == pushed + (if CommaBefore(International, i) then [','] else []);
      formatted := formatted + [reversed[i]];
    }
    r := Reverse(formatted);
  }

  /** `formatIndian`: at most three digits unchanged; otherwise commas at 3, 5, 7, … from the right. */
  method FormatIndian(integerStr: string) returns (r: string)
    ensures r == Grouped(Indian, integerStr)
  {
    if |integerStr| <= 3 {
      return integerStr;
    }
    var reversed := Reverse(integerStr);
    var formatted: string := [];
    for i := 0 to |reversed|
      invariant Reverse(formatted) == Grouped(Indian, integerStr[|integerStr| - i..])
    {
      PushStep(Indian, integerStr, i, formatted);
      ghost var pushed := formatted;
      if i == 3 || (i > 3 && (i - 3) % 2 == 0) {
        formatted := formatted + [','];
      }
      assert formatted == pushed + (if CommaBefore(Indian, i) then [','] else []);
      formatted := formatted + [reversed[i]];
    }
    r := Reverse(formatted);
  }

  // ---------------------------------------------------------------------------------------------
  // format and unformat
  // ---------------------------------------------------------------------------------------------

  /** The text before the first `.`: `value.split('.')[0]`. */
  function BeforeDot(s: string): (r: string)
    ensures '.' !in r && |r| <= |s| && r == s[..|r|]
    ensures |r| < |s| ==> s[|r|] == '.'
  {
    if s == [] || s[0] == '.' then [] else [s[0]] + BeforeDot(s[1..])
  }

  /** `value.split('.')[1] || ''`: the text between the first and the second `.`, or `''`. */
  function SecondPart(s: string): (r: string)
    ensures '.' !in r
  {
    var p := BeforeDot(s);
    if |p| == |s| then [] else BeforeDot(s[|p| + 1..])
  }

  /**
   * `isNaN(parseFloat(value))`: after leading white space and an optional sign there is neither
   * `Infinity`, nor a digit, nor a `.` followed by a digit.
   */
  predicate ParseFloatIsNaN(value: string)
  {
    var t := TrimStart(value);
    var u := if t != [] && (t[0] == '+' || t[0] == '-') then t[1..] else t;
    !(StartsWith(u, "Infinity") || (u != [] && IsDigit(u[0])) || (|u| >= 2 && u[0] == '.' && IsDigit(u[1])))
  }

  /** The inputs `format` hands back unchanged before it looks at the number (lines 11-18). */
  predicate PassedThrough(value: string)
  {
    value == "" || value == "0" || value == "Error" || Contains(value, "Error") || 'e' in value || 'E' in value
  }

  /** What `format` returns. */
  function Formatted(value: string, f: NumberFormat): string
  {
    if PassedThrough(value) || ParseFloatIsNaN(value) then value else GroupedNumeral(value, f)
  }

  /** What `format` builds once the value has passed its early returns: sign, grouped integer part, fraction. */
  function GroupedNumeral(value: string, f: NumberFormat): string
  {
    var integerPart := BeforeDot(value);
    var decimalPart := SecondPart(value);
    var isNegative := StartsWith(integerPart, "-");
    var absoluteInteger := if isNegative then integerPart[1..] else integerPart;
    var grouped := Grouped(f, absoluteInteger);
    var formattedInteger := if isNegative then "-" + grouped else grouped;
    if decimalPart != "" then formattedInteger + "." + decimalPart else formattedInteger
  }

  /** `NumberFormatter.format`. */
  method Format(value: string, f: NumberFormat) returns (r: string)
    ensures r == Formatted(value, f)
  {
    if value == "" || value == "0" || value == "Error" || Contains(value, "Error") {
      return value;
    }
    if 'e' in value || 'E' in value {
      return value;
    }
    if ParseFloatIsNaN(value) {
      return value;
    }
    var integerPart := BeforeDot(value);
    var decimalPart := SecondPart(value);
    var isNegative := StartsWith(integerPart, "-");
    var absoluteInteger := if isNegative then integerPart[1..] else integerPart;
    var formattedInteger: string;
    if f == Indian {
      formattedInteger := FormatIndian(absoluteInteger);
    } else {
      formattedInteger := FormatInternational(absoluteInteger);
    }
    if isNegative {
      formattedInteger := "-" + formattedInteger;
    }
    r := if decimalPart != "" then formattedInteger + "." + decimalPart else formattedInteger;
  }

  /** `NumberFormatter.unformat`: every comma removed. */
  function Unformat(value: string): (r: string)
    ensures ',' !in r
    ensures |r| == |value| - Count(value, ',')
  {
    WithoutCount(value, ',');
    Without(value, ',')
  }

  /** `unformat` removes the commas and nothing else: the rest stays in order, and comma-free text is kept. */
  lemma {:induction false} UnformatKeeps(value: string)
    ensures IsSubsequence(Unformat(value), value)
    ensures ',' !in value ==> Unformat(value) == value
  {
    WithoutSubsequence(value, ',');
    if ',' !in value {
      WithoutAbsent(value, ',');
    }
  }

  // ---------------------------------------------------------------------------------------------
  // Properties of the grouping
  // ---------------------------------------------------------------------------------------------

  /** Grouping only inserts commas: taking them out again gives back comma-free text. */
  lemma {:induction false} RightGroupsUnformat(s: string, g: nat)
    requires g > 0 && ',' !in s
    ensures Without(RightGroups(s, g), ',') == s
    decreases |s|
  {
    if |s| <= g {
      WithoutAbsent(s, ',');
    } else {
      var p := s[..|s| - g];
      var q := s[|s| - g..];
      CommaFreeSplit(s, |s| - g);
      RightGroupsUnformat(p, g);
      RightGroupsUnfold(s, g);
      WithoutJoin(RightGroups(p, g), q, ',');
      assert p + q == s;
    }
  }

  /** Taking the `c`s out of `a`, a `c` and `c`-free text `q` leaves `a` without them, then `q`. */
  lemma {:induction false} WithoutJoin(a: string, q: string, c: char)
    requires c !in q
    ensures Without(a + [c] + q, c) == Without(a, c) + q
  {
    WithoutAppend(a + [c], q, c);
    WithoutAppend(a, [c], c);
    assert Without([c], c) == [] by {
      assert [c][1..] == [];
    }
    WithoutAbsent(q, c);
  }

  /** Both formats only insert commas into comma-free text. */
  lemma {:induction false} GroupedUnformat(f: NumberFormat, s: string)
    requires ',' !in s
    ensures Without(Grouped(f, s), ',') == s
  {
    match f
    case International =>
      RightGroupsUnformat(s, 3);
    case Indian =>
      if |s| <= 3 {
        WithoutAbsent(s, ',');
      } else {
        var p := s[..|s| - 3];
        var q := s[|s| - 3..];
        RightGroupsUnformat(p, 2);
        WithoutAppend(RightGroups(p, 2) + ",", q, ',');
        WithoutAppend(RightGroups(p, 2), ",", ',');
        assert Without(",", ',') == [] by {
          assert ","[1..] == [];
        }
        WithoutAbsent(q, ',');
        assert p + q == s;
      }
  }

  /** International grouping of an `n`-character integer part inserts (n-1) div 3 commas. */
  lemma {:induction false} InternationalCommaCount(s: string)
    requires s != [] && ',' !in s
    ensures Count(Grouped(International, s), ',') == (|s| - 1) / 3
    ensures |Grouped(International, s)| == |s| + (|s| - 1) / 3
    decreases |s|
  {
    if |s| <= 3 {
      assert Count(s, ',') == 0;
    } else {
      var p := s[..|s| - 3];
      var q := s[|s| - 3..];
      InternationalCommaCount(p);
      CountAppend(RightGroups(p, 3) + ",", q, ',');
      CountAppend(RightGroups(p, 3), ",", ',');
      assert Count(",", ',') == 1 by {
        assert ","[1..] == [];
      }
      assert Count(q, ',') == 0;
    }
  }

  /**
   * Where the commas stand in a grouping by `g`: exactly at the positions a multiple of g+1 from
   * the end, never first. So every comma is followed by exactly `g` other characters and then a
   * comma or the end, and the leading group has 1 to `g` characters.
   */
  lemma {:induction false} RightGroupsPositions(s: string, g: nat)
    requires (g == 2 || g == 3) && s != [] && ',' !in s
    ensures CommaPositions(RightGroups(s, g), g)
    decreases |s|
  {
    if |s| <= g {
      CommaPositionsSingle(RightGroups(s, g), g);
    } else {
      var p := s[..|s| - g];
      var q := s[|s| - g..];
      RightGroupsPositions(p, g);
      assert RightGroups(s, g) == RightGroups(p, g) + "," + q;
      assert ',' !in q by {
        assert forall i :: 0 <= i < |q| ==> q[i] == s[|s| - g + i];
      }
      CommaPositionsStep(RightGroups(p, g), q, g);
    }
  }

  /** Where the commas of a grouping by `g` stand, for the positions of a grouped text `r`. */
  predicate CommaPositions(r: string, g: nat)
    requires g == 2 || g == 3
  {
    && Rem(|r|, g + 1) != 0
    && forall i :: 0 <= i < |r| ==> (r[i] == ',' <==> i > 0 && Rem(|r| - i, g + 1) == 0)
  }

  /** A single group of 1 to `g` comma-free characters has its commas in place. */
  lemma {:induction false} CommaPositionsSingle(r: string, g: nat)
    requires g == 2 || g == 3
    requires 0 < |r| <= g && ',' !in r
    ensures CommaPositions(r, g)
  {
    forall i | 0 <= i < |r| ensures r[i] == ',' <==> i > 0 && Rem(|r| - i, g + 1) == 0 {
      SmallMod(|r| - i, g);
    }
    SmallMod(|r|, g);
  }

  /** Appending a comma and a whole comma-free group keeps the commas in place. */
  lemma {:induction false} CommaPositionsStep(rp: string, q: string, g: nat)
    requires g == 2 || g == 3
    requires CommaPositions(rp, g) && |q| == g && ',' !in q
    ensures CommaPositions(rp + "," + q, g)
  {
    var r := rp + "," + q;
    ModShift(|rp|, g);
    forall i | 0 <= i < |r| ensures r[i] == ',' <==> i > 0 && Rem(|r| - i, g + 1) == 0 {
      if i < |rp| {
        assert r[i] == rp[i];
        ModShift(|rp| - i, g);
      } else if i == |rp| {
        assert |r| - i == g + 1;
        ModShift(0, g);
      } else {
        assert r[i] == q[i - |rp| - 1];
        SmallMod(|r| - i, g);
      }
    }
  }

  /** Adding one whole group and its comma does not change the position modulo g+1. */
  lemma {:induction false} ModShift(x: int, g: nat)
    requires g == 2 || g == 3
    ensures Rem(x + g + 1, g + 1) == Rem(x, g + 1)
  {
  }

  /** A distance of 1 to `g` from the end is never a comma position. */
  lemma {:induction false} SmallMod(x: int, g: nat)
    requires g == 2 || g == 3
    requires 0 < x <= g
    ensures Rem(x, g + 1) != 0
  {
  }

  /**
   * Indian grouping: up to three characters unchanged; otherwise the last group is the last three
   * characters after a comma, and before it the text is grouped by two.
   */
  lemma {:induction false} IndianShape(s: string)
    requires ',' !in s
    ensures |s| <= 3 ==> Grouped(Indian, s) == s
    ensures |s| > 3 ==>
      var r := Grouped(Indian, s);
      var head := r[..|r| - 4];
      && r[|r| - 4] == ','
      && r[|r| - 3..] == s[|s| - 3..]
      && |head| % 3 != 0
      && (forall i :: 0 <= i < |head| ==> (head[i] == ',' <==> i > 0 && (|head| - i) % 3 == 0))
  {
    if |s| > 3 {
      var p := s[..|s| - 3];
      var r := Grouped(Indian, s);
      RightGroupsPositions(p, 2);
      assert r == RightGroups(p, 2) + "," + s[|s| - 3..];
      assert r[..|r| - 4] == RightGroups(p, 2);
    }
  }

  // ---------------------------------------------------------------------------------------------
  // Properties of format
  // ---------------------------------------------------------------------------------------------

  /** `format` hands back the empty string, `0`, anything with `Error` and anything with `e` or `E`. */
  lemma {:induction false} FormatPassThrough(value: string, f: NumberFormat)
    requires value == "" || value == "0" || Contains(value, "Error") || 'e' in value || 'E' in value
    ensures Formatted(value, f) == value
  {
  }

  /** A numeral as the calculator prints it: an optional `-`, digits, and optionally `.` and more digits. */
  predicate WellFormedDecimal(v: string)
  {
    var ip := BeforeDot(v);
    var digits := if StartsWith(ip, "-") then ip[1..] else ip;
    && digits != [] && AllDigits(digits)
    && (|ip| == |v| || (|v| > |ip| + 1 && AllDigits(v[|ip| + 1..])))
  }

  /**
   * On a well-formed numeral other than `0`, `format` keeps the sign in front, groups the digits,
   * and copies the fraction after the `.`.
   */
  lemma {:induction false} FormatDecimal(v: string, f: NumberFormat)
    requires WellFormedDecimal(v) && v != "0"
    ensures var ip := BeforeDot(v);
      var neg := StartsWith(ip, "-");
      var digits := if neg then ip[1..] else ip;
      var frac := v[|ip|..];
      Formatted(v, f) == (if neg then "-" else "") + Grouped(f, digits) + frac
  {
    NotPassedThrough(v);
    WellFormedFraction(v);
    FractionIsSecondPart(v);
    FormattedWithFraction(v, f);
  }

  /** When the text from the first `.` on is `.` and the second part, the built numeral keeps it whole. */
  lemma {:induction false} FormattedWithFraction(v: string, f: NumberFormat)
    requires var second := SecondPart(v);
      v[|BeforeDot(v)|..] == if second != "" then "." + second else ""
    ensures var ip := BeforeDot(v);
      var neg := StartsWith(ip, "-");
      var digits := if neg then ip[1..] else ip;
      GroupedNumeral(v, f) == (if neg then "-" else "") + Grouped(f, digits) + v[|ip|..]
  {
    var ip := BeforeDot(v);
    var neg := StartsWith(ip, "-");
    var digits := if neg then ip[1..] else ip;
    var g := Grouped(f, digits);
    var whole := if neg then "-" + g else g;
    var frac := v[|ip|..];
    assert GroupedNumeral(v, f) == whole + frac by {
      if SecondPart(v) != "" {
        ConcatAssoc(whole, ".", SecondPart(v));
      } else {
        assert whole + frac == whole;
      }
    }
    if neg {
      ConcatAssoc("-", g, frac);
    } else {
      assert "" + g == g;
    }
  }

  /** In a well-formed numeral, a `.` is followed by digits and no further `.`. */
  lemma {:induction false} WellFormedFraction(v: string)
    requires WellFormedDecimal(v)
    ensures var ip := BeforeDot(v);
      |ip| < |v| ==> |ip| + 1 < |v| && '.' !in v[|ip| + 1..]
  {
    var ip := BeforeDot(v);
    if |ip| < |v| {
      DigitsHaveNoDot(v[|ip| + 1..]);
    }
  }

  /** The text from the first `.` on is `.` and the second part, or nothing, when that `.` is the only one and ends nothing. */
  lemma {:induction false} FractionIsSecondPart(v: string)
    requires var ip := BeforeDot(v);
      |ip| < |v| ==> |ip| + 1 < |v| && '.' !in v[|ip| + 1..]
    ensures var ip := BeforeDot(v);
      var second := SecondPart(v);
      v[|ip|..] == if second != "" then "." + second else ""
  {
    var ip := BeforeDot(v);
    if |ip| < |v| {
      var rest := v[|ip| + 1..];
      BeforeDotWhole(rest);
      assert v[|ip|..] == "." + rest;
    }
  }

  /** Digits are never a `.`. */
  lemma {:induction false} DigitsHaveNoDot(s: string)
    requires AllDigits(s)
    ensures '.' !in s
  {
    forall i | 0 <= i < |s|
      ensures s[i] != '.'
    {
      assert IsDigit(s[i]);
    }
  }

  /** A well-formed numeral is made of digits, `-` and `.` only. */
  lemma {:induction false} NumeralChars(v: string)
    requires WellFormedDecimal(v)
    ensures forall i :: 0 <= i < |v| ==> v[i] == '-' || v[i] == '.' || IsDigit(v[i])
    ensures ',' !in v
  {
    var ip := BeforeDot(v);
    var digits := if StartsWith(ip, "-") then ip[1..] else ip;
    assert forall i :: 0 <= i < |v| ==> v[i] == '-' || v[i] == '.' || IsDigit(v[i]) by {
      forall i | 0 <= i < |v| ensures v[i] == '-' || v[i] == '.' || IsDigit(v[i]) {
        if i < |ip| {
          assert v[i] == ip[i];
          if StartsWith(ip, "-") && i > 0 {
            assert ip[i] == digits[i - 1];
          }
        } else if i > |ip| {
          assert v[i] == v[|ip| + 1..][i - |ip| - 1];
        }
      }
    }
  }

  /** A well-formed numeral holds no `E`, `e` or `,`, and `parseFloat` reads a number from it. */
  lemma {:induction false} NotPassedThrough(v: string)
    requires WellFormedDecimal(v) && v != "0"
    ensures !PassedThrough(v) && !ParseFloatIsNaN(v) && ',' !in v
  {
    var ip := BeforeDot(v);
    var digits := if StartsWith(ip, "-") then ip[1..] else ip;
    NumeralChars(v);
    NotContainsMissing(v, "Error", 'E');
    assert !IsJsWhitespace(v[0]);
    assert TrimStart(v) == v;
    if StartsWith(ip, "-") {
      assert v[1] == digits[0];
    } else {
      assert v[0] == digits[0];
    }
  }

  /** The fraction is copied and the sign kept: `unformat` undoes `format` on every well-formed numeral. */
  lemma {:induction false} UnformatFormat(v: string, f: NumberFormat)
    requires WellFormedDecimal(v)
    ensures Unformat(Formatted(v, f)) == v
  {
    if v == "0" {
      WithoutAbsent(v, ',');
    } else {
      var ip := BeforeDot(v);
      var neg := StartsWith(ip, "-");
      var digits := if neg then ip[1..] else ip;
      FormatDecimal(v, f);
      NumeralChars(v);
      NumeralParts(v);
      UnformatGroupedParts(f, if neg then "-" else "", digits, v[|ip|..]);
    }
  }

  /** Comma-free text is its sign, its digits and its fraction, none holding a comma. */
  lemma {:induction false} NumeralParts(v: string)
    requires ',' !in v
    ensures var ip := BeforeDot(v);
      var neg := StartsWith(ip, "-");
      var digits := if neg then ip[1..] else ip;
      var sign: string := if neg then "-" else "";
      && v == sign + digits + v[|ip|..]
      && ',' !in sign && ',' !in digits && ',' !in v[|ip|..]
  {
    var ip := BeforeDot(v);
    var rest := v[|ip|..];
    assert v == ip + rest;
    assert ',' !in ip && ',' !in rest by {
      CommaFreeSplit(v, |ip|);
    }
    if StartsWith(ip, "-") {
      assert ip == "-" + ip[1..];
      assert ',' !in ip[1..] by {
        CommaFreeSplit(ip, 1);
      }
    }
  }

  /** Both sides of a cut through comma-free text are comma-free. */
  lemma {:induction false} CommaFreeSplit(s: string, k: nat)
    requires ',' !in s && k <= |s|
    ensures ',' !in s[..k] && ',' !in s[k..]
  {
    assert forall i :: 0 <= i < k ==> s[..k][i] == s[i];
    assert forall i :: 0 <= i < |s| - k ==> s[k..][i] == s[k + i];
  }

  /** Taking the commas out of a sign, grouped digits and a fraction leaves the three parts. */
  lemma {:induction false} UnformatGroupedParts(f: NumberFormat, sign: string, digits: string, frac: string)
    requires ',' !in sign && ',' !in digits && ',' !in frac
    ensures Unformat(sign + Grouped(f, digits) + frac) == sign + digits + frac
  {
    GroupedUnformat(f, digits);
    WithoutAppend(sign + Grouped(f, digits), frac, ',');
    WithoutAppend(sign, Grouped(f, digits), ',');
    WithoutAbsent(sign, ',');
    WithoutAbsent(frac, ',');
  }

  /** The grouped digits never start with a comma, so a leading `-` is never followed by one. */
  lemma {:induction false} GroupedStartsWithDigit(f: NumberFormat, s: string)
    requires s != [] && ',' !in s
    ensures Grouped(f, s)[0] == s[0]
  {
    var c := s[0];
    assert s == [c] + s[1..];
    GroupedCons(f, c, s[1..]);
  }

  // ---------------------------------------------------------------------------------------------
  // Non-finite values
  // ---------------------------------------------------------------------------------------------

  /** Text without a `.` is its own integer part. */
  lemma {:induction false} BeforeDotWhole(s: string)
    requires '.' !in s
    ensures BeforeDot(s) == s && SecondPart(s) == []
  {
  }

  /**
   * As written, `format` groups the letters of `Infinity`: `parseFloat` reads it as a number and it
   * holds no `e`, so it reaches the grouping loop: `Infinity` comes out as `In,fin,ity` and
   * `-Infinity` as `-In,fin,ity`.
   */
  lemma {:induction false} InfinityGrouped(v: string, sign: string)
    requires (v == "Infinity" && sign == "") || (v == "-Infinity" && sign == "-")
    ensures Formatted(v, International) == sign + "In,fin,ity"
  {
    InfinityPassesChecks(v);
    var ip := BeforeDot(v);
    assert StartsWith(ip, "-") <==> sign == "-";
    assert (if sign == "-" then ip[1..] else ip) == "Infinity";
    InfinityDigitsGrouped();
  }

  /** The eight letters fall into groups of two, three and three. */
  lemma {:induction false} InfinityDigitsGrouped()
    ensures Grouped(International, "Infinity") == "In,fin,ity"
  {
    var s := "Infinity";
    RightGroupsUnfold(s, 3);
    assert s[..|s| - 3] == "Infin" && s[|s| - 3..] == "ity";
    RightGroupsUnfold("Infin", 3);
    assert "Infin"[..2] == "In" && "Infin"[2..] == "fin";
  }

  /** `Infinity` and `-Infinity` pass every early return of `format`. */
  lemma {:induction false} InfinityPassesChecks(v: string)
    requires v == "Infinity" || v == "-Infinity"
    ensures !PassedThrough(v) && !ParseFloatIsNaN(v)
    ensures BeforeDot(v) == v && SecondPart(v) == []
  {
    assert 'E' !in v && 'e' !in v && '.' !in v;
    NotContainsMissing(v, "Error", 'E');
    InfinityParses(v);
    BeforeDotWhole(v);
  }

  /** `parseFloat` reads a number from `Infinity` and `-Infinity`. */
  lemma {:induction false} InfinityParses(v: string)
    requires v == "Infinity" || v == "-Infinity"
    ensures !ParseFloatIsNaN(v)
  {
    assert !IsJsWhitespace(v[0]);
    assert TrimStart(v) == v;
    var u := if v[0] == '-' then v[1..] else v;
    assert u == "Infinity";
    assert StartsWith(u, "Infinity");
  }

  /**
   * `format` as evidently intended: a value whose integer part is not made of digits (such as
   * `Infinity`, `-Infinity`) is handed back unchanged, like the other values `format` cannot group.
   */
  function FormattedChecked(value: string, f: NumberFormat): string
  {
    var ip := BeforeDot(value);
    var digits := if StartsWith(ip, "-") then ip[1..] else ip;
    if AllDigits(digits) then Formatted(value, f) else value
  }

  /** The corrected `format` hands `Infinity` and `-Infinity` back whole. */
  lemma {:induction false} FormattedCheckedKeepsInfinity(v: string, f: NumberFormat)
    requires v == "Infinity" || v == "-Infinity"
    ensures FormattedChecked(v, f) == v
  {
    BeforeDotWhole(v);
    var digits := if StartsWith(v, "-") then v[1..] else v;
    assert digits[0] == 'I';
  }

  /**
   * On every well-formed numeral the corrected `format` agrees with `format`, and so is undone by
   * `unformat`.
   */
  lemma {:induction false} FormattedCheckedAgrees(v: string, f: NumberFormat)
    requires WellFormedDecimal(v)
    ensures FormattedChecked(v, f) == Formatted(v, f)
    ensures Unformat(FormattedChecked(v, f)) == v
  {
    UnformatFormat(v, f);
  }
}
