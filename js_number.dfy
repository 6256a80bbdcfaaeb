/**
 * The two number parsers of the pages, on decimal literals:
 * `Number(s)` (the whole trimmed string must be a literal; the empty string
 * is 0) and `parseFloat(s)` (the longest literal at the start, after leading
 * white space). Values are exact reals.
 *
 * The grammar is given twice: declaratively, as the parts of a `Literal`
 * and the text they spell, and operationally, as the left-to-right scanner
 * `ScanDecimal`. The lemmas tie the two together: the scanner reads the
 * longest literal at the start of its input, and reads a literal's own
 * text back as that literal.
 */
module JsNumber {
  import opened JsValues
  import opened JsText

  predicate IsDigit(c: char) {
    '0' <= c <= '9'
  }

  predicate AllDigits(s: string) {
    forall i :: 0 <= i < |s| ==> IsDigit(s[i])
  }

  function DigitValue(c: char): (d: nat)
    requires IsDigit(c)
    ensures d < 10
  {
    c as int - '0' as int
  }

  /** The value of a string of decimal digits, most significant first. */
  function DigitsValue(ds: string): nat
    requires AllDigits(ds)
  {
    if ds == [] then 0 else DigitsValue(ds[..|ds| - 1]) * 10 + DigitValue(ds[|ds| - 1])
  }

  function Pow10(n: nat): (p: nat)
    ensures p >= 1
  {
    if n == 0 then 1 else 10 * Pow10(n - 1)
  }

  /** `p` is the first `|p|` characters of `s`. */
  predicate IsPrefixOf(p: string, s: string) {
    |p| <= |s| && s[..|p|] == p
  }

  // ------------------------------------------------------------ the grammar

  /** The exponent part of a literal: `e` or `E`, an optional sign, digits. */
  datatype Exponent = Exponent(mark: char, sign: string, digits: string)

  /**
   * A decimal literal taken apart: an optional sign, the digits before the
   * point, whether there is a point, the digits after it, an optional
   * exponent.
   */
  datatype Literal = Literal(sign: string, whole: string, point: bool, fraction: string,
                             exponent: Option<Exponent>)

  predicate IsSign(t: string) {
    t == "" || t == "+" || t == "-"
  }

  predicate WellFormedExponent(x: Exponent) {
    (x.mark == 'e' || x.mark == 'E') && IsSign(x.sign) && x.digits != [] && AllDigits(x.digits)
  }

  /**
   * The literal grammar of `Number` and `parseFloat`: at least one digit
   * before or after the point, digits after the point only when there is
   * one, and an exponent with at least one digit.
   */
  predicate WellFormed(lit: Literal) {
    IsSign(lit.sign) && AllDigits(lit.whole) && AllDigits(lit.fraction)
    && |lit.whole| + |lit.fraction| > 0
    && (!lit.point ==> lit.fraction == [])
    && (lit.exponent.Some? ==> WellFormedExponent(lit.exponent.value))
  }

  function ExponentText(e: Option<Exponent>): string {
    match e
    case None => ""
    case Some(x) => [x.mark] + x.sign + x.digits
  }

  /** The text of a literal. */
  function Spell(lit: Literal): string {
    lit.sign + lit.whole + (if lit.point then "." else "") + lit.fraction + ExponentText(lit.exponent)
  }

  /** `t` is, as a whole, a decimal literal. */
  ghost predicate IsDecimalLiteral(t: string) {
    exists lit :: WellFormed(lit) && Spell(lit) == t
  }

  function ExponentValue(e: Option<Exponent>): int
    requires e.Some? ==> WellFormedExponent(e.value)
  {
    match e
    case None => 0
    case Some(x) => if x.sign == "-" then -(DigitsValue(x.digits) as int) else DigitsValue(x.digits)
  }

  /** The digits around the point as one number: whole digits plus the fraction in tenths, hundredths, ... */
  function Mantissa(whole: string, fraction: string): real
    requires AllDigits(whole) && AllDigits(fraction)
  {
    DigitsValue(whole) as real + DigitsValue(fraction) as real / Pow10(|fraction|) as real
  }

  /** `x` times ten to the power `e`. */
  function Scale(x: real, e: int): real {
    if e >= 0 then x * Pow10(e) as real else x / Pow10(-e) as real
  }

  /** The value a literal denotes, as an exact real. */
  function Value(lit: Literal): real
    requires WellFormed(lit)
  {
    var magnitude := Scale(Mantissa(lit.whole, lit.fraction), ExponentValue(lit.exponent));
    if lit.sign == "-" then -magnitude else magnitude
  }

  /** Some literal is a prefix of `u`. */
  ghost predicate HasLiteralPrefix(u: string) {
    exists lit :: WellFormed(lit) && IsPrefixOf(Spell(lit), u)
  }

  /** `lit` is a literal at the start of `u`, and no longer one is. */
  ghost predicate LongestLiteralAt(u: string, lit: Literal) {
    WellFormed(lit) && IsPrefixOf(Spell(lit), u)
    && forall other :: WellFormed(other) && IsPrefixOf(Spell(other), u) ==> |Spell(other)| <= |Spell(lit)|
  }

  /** A literal starts with a sign, a digit or a point, and ends with a digit or a point. */
  lemma SpellEnds(lit: Literal)
    requires WellFormed(lit)
    ensures var t := Spell(lit);
      t != [] && (IsDigit(t[0]) || t[0] in "+-.") && (IsDigit(t[|t| - 1]) || t[|t| - 1] == '.')
  {
    var t := Spell(lit);
    var pt := if lit.point then "." else "";
    var et := ExponentText(lit.exponent);
    var first := if lit.sign != [] then lit.sign else if lit.whole != [] then lit.whole
                 else if pt != [] then pt else lit.fraction;
    assert first != [] && t[0] == first[0] by {
      FirstOfConcat(lit.sign, lit.whole, pt, lit.fraction, et);
    }
    var last := if et != [] then et else if lit.fraction != [] then lit.fraction
                else if pt != [] then pt else lit.whole;
    assert last != [] && t[|t| - 1] == last[|last| - 1] by {
      LastOfConcat(lit.sign, lit.whole, pt, lit.fraction, et);
    }
    if lit.exponent.Some? {
      ExponentEnds(lit.exponent.value);
    }
  }

  /** An exponent ends with a digit. */
  lemma ExponentEnds(x: Exponent)
    requires WellFormedExponent(x)
    ensures var et := ExponentText(Some(x)); et != [] && IsDigit(et[|et| - 1])
  {
    var et := ExponentText(Some(x));
    assert et[|et| - 1] == x.digits[|x.digits| - 1];
  }

  /** A literal starts with `+` or `-` exactly when it has a sign. */
  lemma SignFirst(lit: Literal)
    requires WellFormed(lit)
    ensures Spell(lit) != [] && ((Spell(lit)[0] == '+' || Spell(lit)[0] == '-') <==> lit.sign != "")
  {
    var pt := if lit.point then "." else "";
    FirstOfConcat(lit.sign, lit.whole, pt, lit.fraction, ExponentText(lit.exponent));
    if lit.sign == "" && lit.whole != [] {
      assert IsDigit(lit.whole[0]);
    }
  }

  /** The last character of five joined strings is the last one of the last non-empty part. */
  lemma LastOfConcat(a: string, b: string, c: string, d: string, e: string)
    requires b + c + d + e != []
    ensures var t := a + b + c + d + e;
      var last := if e != [] then e else if d != [] then d else if c != [] then c else b;
      last != [] && t[|t| - 1] == last[|last| - 1]
  {
  }

  /** The first character of five joined strings is the first one of the first non-empty part. */
  lemma FirstOfConcat(a: string, b: string, c: string, d: string, e: string)
    requires a + b + c + d != []
    ensures var t := a + b + c + d + e;
      var first := if a != [] then a else if b != [] then b else if c != [] then c else d;
      first != [] && t[0] == first[0]
  {
  }

  /** Where the five parts of a joined string sit in any text it starts. */
  lemma PartsOfConcat(a: string, b: string, c: string, d: string, e: string, s: string)
    requires IsPrefixOf(a + b + c + d + e, s)
    ensures var n1 := |a|; var n2 := n1 + |b|; var n3 := n2 + |c|; var n4 := n3 + |d|;
      n4 + |e| <= |s| && s[..n1] == a && s[n1..n2] == b && s[n2..n3] == c && s[n3..n4] == d
      && IsPrefixOf(e, s[n4..]) && (c != [] ==> s[n2] == c[0]) && (e != [] ==> s[n4] == e[0])
  {
    var n4 := |a| + |b| + |c| + |d|;
    PartsOfPair(a + b + c + d, e, s);
    PartsOfPair(a + b + c, d, s);
    PartsOfPair(a + b, c, s);
    PartsOfPair(a, b, s);
    assert s[n4..][..|e|] == s[n4..n4 + |e|];
    var n2 := |a| + |b|;
    if c != [] {
      assert s[n2] == s[n2..n2 + |c|][0];
    }
    if e != [] {
      assert s[n4] == s[n4..n4 + |e|][0];
    }
  }

  /** Where the two parts of a joined string sit in any text it starts. */
  lemma PartsOfPair(x: string, y: string, s: string)
    requires IsPrefixOf(x + y, s)
    ensures IsPrefixOf(x, s) && s[|x|..|x| + |y|] == y
  {
    assert s[..|x|] == (x + y)[..|x|];
    assert s[|x|..|x| + |y|] == (x + y)[|x|..];
  }

  /** The end of the digits before the point, in a literal's text. */
  function WholeStop(lit: Literal): nat {
    |lit.sign| + |lit.whole|
  }

  /** The start of the digits after the point, in a literal's text. */
  function FractionStart(lit: Literal): nat {
    WholeStop(lit) + (if lit.point then 1 else 0)
  }

  /** The end of the digits after the point, in a literal's text. */
  function FractionStop(lit: Literal): nat {
    FractionStart(lit) + |lit.fraction|
  }

  /** Where the parts of `lit` sit in a text `s` that starts with it. */
  predicate LaidOutIn(lit: Literal, s: string) {
    0 < FractionStop(lit) + |ExponentText(lit.exponent)| <= |s|
    && ((s[0] == '+' || s[0] == '-') <==> lit.sign != "")
    && s[..|lit.sign|] == lit.sign
    && s[|lit.sign|..WholeStop(lit)] == lit.whole
    && (lit.point ==> s[WholeStop(lit)] == '.')
    && s[FractionStart(lit)..FractionStop(lit)] == lit.fraction
    && IsPrefixOf(ExponentText(lit.exponent), s[FractionStop(lit)..])
    && (lit.exponent.Some? ==> FractionStop(lit) < |s| && s[FractionStop(lit)] == lit.exponent.value.mark)
  }

  /** A text that starts with a literal has the literal's parts laid out in it. */
  lemma SpellParts(lit: Literal, s: string)
    requires WellFormed(lit) && IsPrefixOf(Spell(lit), s)
    ensures FractionStop(lit) + |ExponentText(lit.exponent)| == |Spell(lit)|
    ensures LaidOutIn(lit, s)
  {
    SpellHead(lit, s);
    SpellTail(lit, s);
  }

  /** The sign and the digits before the point, in a text that starts with `lit`. */
  lemma SpellHead(lit: Literal, s: string)
    requires WellFormed(lit) && IsPrefixOf(Spell(lit), s)
    ensures FractionStop(lit) + |ExponentText(lit.exponent)| == |Spell(lit)| <= |s|
    ensures 0 < |Spell(lit)| && ((s[0] == '+' || s[0] == '-') <==> lit.sign != "")
    ensures s[..|lit.sign|] == lit.sign && s[|lit.sign|..WholeStop(lit)] == lit.whole
  {
    var pt := if lit.point then "." else "";
    var et := ExponentText(lit.exponent);
    assert Spell(lit) == lit.sign + lit.whole + pt + lit.fraction + et;
    SignFirst(lit);
    assert s[0] == Spell(lit)[0];
    PartsOfConcat(lit.sign, lit.whole, pt, lit.fraction, et, s);
  }

  /** The point, the digits after it and the exponent, in a text that starts with `lit`. */
  lemma SpellTail(lit: Literal, s: string)
    requires WellFormed(lit) && IsPrefixOf(Spell(lit), s)
    ensures lit.point ==> WholeStop(lit) < |s| && s[WholeStop(lit)] == '.'
    ensures FractionStop(lit) <= |s| && s[FractionStart(lit)..FractionStop(lit)] == lit.fraction
    ensures IsPrefixOf(ExponentText(lit.exponent), s[FractionStop(lit)..])
    ensures lit.exponent.Some? ==> FractionStop(lit) < |s| && s[FractionStop(lit)] == lit.exponent.value.mark
  {
    var pt := if lit.point then "." else "";
    var et := ExponentText(lit.exponent);
    assert Spell(lit) == lit.sign + lit.whole + pt + lit.fraction + et;
    PartsOfConcat(lit.sign, lit.whole, pt, lit.fraction, et, s);
    if lit.exponent.Some? {
      assert et[0] == lit.exponent.value.mark;
    }
  }

  // ------------------------------------------------------------ the scanner

  /** The end of the longest run of digits starting at `i`. */
  function DigitRun(s: string, i: nat): (j: nat)
    requires i <= |s|
    ensures i <= j <= |s|
    ensures AllDigits(s[i..j])
    ensures j < |s| ==> !IsDigit(s[j])
    decreases |s| - i
  {
    if i < |s| && IsDigit(s[i]) then
      var j := DigitRun(s, i + 1);
      assert s[i..j] == [s[i]] + s[i + 1..j];
      j
    else i
  }

  /**
   * An optional exponent `e`/`E`, optional sign, digits, starting at `i`;
   * `None` when no complete exponent is there.
   */
  function ScanExponent(s: string, i: nat): (r: Option<Exponent>)
    requires i <= |s|
    ensures r.Some? ==> WellFormedExponent(r.value) && i + |ExponentText(r)| <= |s|
                        && s[i..i + |ExponentText(r)|] == ExponentText(r)
  {
    if i < |s| && (s[i] == 'e' || s[i] == 'E') then
      var j := if i + 1 < |s| && (s[i + 1] == '+' || s[i + 1] == '-') then i + 2 else i + 1;
      var k := DigitRun(s, j);
      if k == j then None
      else
        var x := Exponent(s[i], s[i + 1..j], s[j..k]);
        assert IsSign(x.sign) by {
          if j == i + 2 {
            assert x.sign == [s[i + 1]];
          }
        }
        assert s[i..k] == [s[i]] + s[i + 1..j] + s[j..k];
        assert ExponentText(Some(x)) == s[i..k];
        Some(x)
    else None
  }

  /** The end of the optional sign at the start of `s`. */
  function SignEnd(s: string): (i: nat)
    ensures i <= |s| && IsSign(s[..i])
  {
    if |s| > 0 && (s[0] == '+' || s[0] == '-') then 1 else 0
  }

  /** The end of the digits before the point. */
  function WholeEnd(s: string): (i: nat)
    ensures SignEnd(s) <= i <= |s| && AllDigits(s[SignEnd(s)..i])
  {
    DigitRun(s, SignEnd(s))
  }

  /** A point follows the digits before it. */
  predicate HasPoint(s: string) {
    WholeEnd(s) < |s| && s[WholeEnd(s)] == '.'
  }

  /** The end of the digits after the point; `WholeEnd(s)` when there is no point. */
  function FractionEnd(s: string): (i: nat)
    ensures WholeEnd(s) <= i <= |s|
    ensures HasPoint(s) ==> WholeEnd(s) + 1 <= i
    ensures !HasPoint(s) ==> i == WholeEnd(s)
    ensures HasPoint(s) ==> AllDigits(s[WholeEnd(s) + 1..i])
  {
    if HasPoint(s) then DigitRun(s, WholeEnd(s) + 1) else WholeEnd(s)
  }

  /** The parts the scanner finds at the start of `s`, in the shape of a literal. */
  function Scanned(s: string): Literal {
    Literal(s[..SignEnd(s)], s[SignEnd(s)..WholeEnd(s)], HasPoint(s),
            if HasPoint(s) then s[WholeEnd(s) + 1..FractionEnd(s)] else "",
            ScanExponent(s, FractionEnd(s)))
  }

  /** The parts found are a literal as soon as they hold a digit. */
  lemma ScannedIsWellFormed(s: string)
    ensures |Scanned(s).whole| + |Scanned(s).fraction| > 0
            <==> WholeEnd(s) > SignEnd(s) || FractionEnd(s) > WholeEnd(s) + 1
    ensures |Scanned(s).whole| + |Scanned(s).fraction| > 0 ==> WellFormed(Scanned(s))
  {
  }

  /** The parts found spell the text up to where the scanner stops. */
  lemma ScannedSpells(s: string)
    ensures IsPrefixOf(Spell(Scanned(s)), s)
    ensures |Spell(Scanned(s))| == FractionEnd(s) + |ExponentText(ScanExponent(s, FractionEnd(s)))|
  {
    var lit := Scanned(s);
    var i1 := WholeEnd(s);
    var i2 := FractionEnd(s);
    assert (if lit.point then "." else "") + lit.fraction == s[i1..i2] by {
      if lit.point {
        assert s[i1..i2] == [s[i1]] + s[i1 + 1..i2];
      }
    }
    SpellOfSlices(s, SignEnd(s), i1, i2, i2 + |ExponentText(lit.exponent)|, lit);
  }

  /**
   * The literal the scanner reads at the start of `s`: optional sign,
   * digits, optional point and digits (at least one digit in all), optional
   * exponent. What it reads is a literal, and a prefix of `s`.
   */
  function ScanDecimal(s: string): (r: Option<Literal>)
    ensures r.Some? <==> WholeEnd(s) > SignEnd(s) || FractionEnd(s) > WholeEnd(s) + 1
    ensures r.Some? ==> WellFormed(r.value) && IsPrefixOf(Spell(r.value), s)
    ensures r.Some? ==>
              |Spell(r.value)| == FractionEnd(s) + |ExponentText(ScanExponent(s, FractionEnd(s)))|
  {
    ScannedIsWellFormed(s);
    ScannedSpells(s);
    if |Scanned(s).whole| + |Scanned(s).fraction| == 0 then None else Some(Scanned(s))
  }

  /** A literal whose parts are consecutive slices of `s` spells a prefix of `s`. */
  lemma SpellOfSlices(s: string, i0: nat, i1: nat, i2: nat, i3: nat, lit: Literal)
    requires i0 <= i1 <= i2 <= i3 <= |s|
    requires lit.sign == s[..i0] && lit.whole == s[i0..i1]
    requires (if lit.point then "." else "") + lit.fraction == s[i1..i2]
    requires ExponentText(lit.exponent) == s[i2..i3]
    ensures Spell(lit) == s[..i3] && IsPrefixOf(Spell(lit), s)
  {
    var pt := if lit.point then "." else "";
    assert s[..i1] == s[..i0] + s[i0..i1];
    assert s[..i2] == s[..i1] + s[i1..i2];
    assert s[..i3] == s[..i2] + s[i2..i3];
    assert lit.sign + lit.whole + pt + lit.fraction == lit.sign + lit.whole + (pt + lit.fraction);
  }

  /**
   * A text is a literal exactly when the scanner reads all of it, and then
   * the scanner reads it as that literal.
   */
  lemma WholeLiteral(t: string)
    ensures (ScanDecimal(t).Some? && |Spell(ScanDecimal(t).value)| == |t|) <==> IsDecimalLiteral(t)
    ensures forall lit :: WellFormed(lit) && Spell(lit) == t ==> t != "" && ScanDecimal(t) == Some(lit)
  {
    forall lit | WellFormed(lit) && Spell(lit) == t
      ensures t != "" && ScanDecimal(t) == Some(lit)
    {
      SpellEnds(lit);
      ScanSpelled(lit);
    }
    if ScanDecimal(t).Some? && |Spell(ScanDecimal(t).value)| == |t| {
      var lit := ScanDecimal(t).value;
      assert Spell(lit) == t[..|t|] == t;
    }
  }

  /** `Number(s)`: `None` stands for NaN. */
  function Number(s: string): (r: Option<real>)
    ensures Trim(s) == "" ==> r == Some(0.0)
    ensures Trim(s) != "" ==> (r.Some? <==> IsDecimalLiteral(Trim(s)))
    ensures forall lit :: WellFormed(lit) && Spell(lit) == Trim(s) ==> r == Some(Value(lit))
  {
    var t := Trim(s);
    WholeLiteral(t);
    if t == "" then Some(0.0)
    else if ScanDecimal(t).Some? && |Spell(ScanDecimal(t).value)| == |t| then Some(Value(ScanDecimal(t).value))
    else None
  }

  /** `parseFloat(s)`: `None` stands for NaN. */
  function ParseFloat(s: string): (r: Option<real>)
    ensures r.None? <==> !HasLiteralPrefix(TrimStart(s))
    ensures forall lit :: LongestLiteralAt(TrimStart(s), lit) ==> r == Some(Value(lit))
    ensures r.Some? ==> exists lit :: LongestLiteralAt(TrimStart(s), lit) && r.value == Value(lit)
  {
    var u := TrimStart(s);
    assert ScanDecimal(u).None? ==> !HasLiteralPrefix(u) by {
      forall lit | WellFormed(lit) && IsPrefixOf(Spell(lit), u)
        ensures ScanDecimal(u).Some?
      {
        ScanIsLongest(u, lit);
      }
    }
    match ScanDecimal(u)
    case Some(found) =>
      assert LongestLiteralAt(u, found) by {
        forall other | WellFormed(other) && IsPrefixOf(Spell(other), u)
          ensures |Spell(other)| <= |Spell(found)|
        {
          ScanIsLongest(u, other);
        }
      }
      assert forall lit :: LongestLiteralAt(u, lit) ==> lit == found by {
        forall lit | LongestLiteralAt(u, lit)
          ensures lit == found
        {
          assert Spell(lit) == u[..|Spell(lit)|] == Spell(found);
          ScanSpelled(lit);
          ScanSpelled(found);
        }
      }
      Some(Value(found))
    case None => None
  }

  // ------------------------------------------------ scanner against grammar

  /** Any maximal run of digits is the one `DigitRun` finds. */
  lemma {:induction false} DigitRunIsMaximal(s: string, i: nat, j: nat)
    requires i <= j <= |s| && AllDigits(s[i..j])
    requires j < |s| ==> !IsDigit(s[j])
    ensures DigitRun(s, i) == j
    decreases j - i
  {
    if i < j {
      assert IsDigit(s[i..j][0]);
      assert s[i + 1..j] == s[i..j][1..];
      DigitRunIsMaximal(s, i + 1, j);
    }
  }

  /** The run `DigitRun` finds covers every run of digits from the same start. */
  lemma {:induction false} DigitRunCovers(s: string, i: nat, j: nat)
    requires i <= j <= |s| && AllDigits(s[i..j])
    ensures DigitRun(s, i) >= j
    decreases j - i
  {
    if i < j {
      assert IsDigit(s[i..j][0]);
      assert s[i + 1..j] == s[i..j][1..];
      DigitRunCovers(s, i + 1, j);
    }
  }

  /**
   * An exponent at position `i` is read at least as far as it goes, and
   * read exactly when the text ends with it.
   */
  lemma {:induction false} ScanExponentPrefix(s: string, i: nat, x: Exponent)
    requires i <= |s| && WellFormedExponent(x)
    requires IsPrefixOf(ExponentText(Some(x)), s[i..])
    ensures ScanExponent(s, i).Some?
    ensures |ExponentText(ScanExponent(s, i))| >= |ExponentText(Some(x))|
    ensures i + |ExponentText(Some(x))| == |s| ==> ScanExponent(s, i) == Some(x)
  {
    var n := i + |ExponentText(Some(x))|;
    var j := i + 1 + |x.sign|;
    ExponentLaidOut(s, i, x);
    assert j == if i + 1 < |s| && (s[i + 1] == '+' || s[i + 1] == '-') then i + 2 else i + 1 by {
      if x.sign == "" {
        assert IsDigit(x.digits[0]);
      }
    }
    DigitRunCovers(s, j, n);
    if n == |s| {
      DigitRunIsMaximal(s, j, n);
      assert ScanExponent(s, i) == Some(Exponent(s[i], s[i + 1..j], s[j..n]));
    }
  }

  /** Where the mark, the sign and the digits of an exponent sit in a text that holds it at `i`. */
  lemma ExponentLaidOut(s: string, i: nat, x: Exponent)
    requires i <= |s| && WellFormedExponent(x)
    requires IsPrefixOf(ExponentText(Some(x)), s[i..])
    ensures var j := i + 1 + |x.sign|; var n := j + |x.digits|;
      n <= |s| && s[i] == x.mark && s[i + 1..j] == x.sign && s[j..n] == x.digits
      && s[i + 1] == (if x.sign == "" then x.digits[0] else x.sign[0])
  {
    var u := s[i..];
    var j := i + 1 + |x.sign|;
    var n := j + |x.digits|;
    PartsOfPair([x.mark] + x.sign, x.digits, u);
    PartsOfPair([x.mark], x.sign, u);
    assert s[i] == u[..1][0];
    assert s[i + 1..j] == u[1..1 + |x.sign|];
    assert s[j..n] == u[1 + |x.sign|..1 + |x.sign| + |x.digits|];
    if x.sign == "" {
      assert s[i + 1] == s[j..n][0];
    } else {
      assert s[i + 1] == s[i + 1..j][0];
    }
  }

  /** Every position inside a run of digits holds a digit. */
  lemma DigitAt(s: string, i: nat, j: nat, k: nat)
    requires i <= k < j <= |s| && AllDigits(s[i..j])
    ensures IsDigit(s[k])
  {
    assert s[k] == s[i..j][k - i];
  }

  /** The scanner's digits before the point cover those of a literal laid out in `s`. */
  lemma WholeStage(s: string, lit: Literal)
    requires WellFormed(lit) && LaidOutIn(lit, s)
    ensures SignEnd(s) == |lit.sign| && WholeStop(lit) <= WholeEnd(s)
    ensures WholeStop(lit) < WholeEnd(s) ==> FractionStop(lit) + |ExponentText(lit.exponent)| == WholeStop(lit)
  {
    var p1 := WholeStop(lit);
    DigitRunCovers(s, |lit.sign|, p1);
    if p1 < WholeEnd(s) {
      DigitAt(s, SignEnd(s), WholeEnd(s), p1);
      assert !lit.point;
    }
  }

  /** After a point, the scanner's digits cover those of the literal. */
  lemma FractionStage(s: string, lit: Literal)
    requires WellFormed(lit) && LaidOutIn(lit, s)
    requires WholeEnd(s) == WholeStop(lit) && lit.point
    ensures HasPoint(s) && FractionStop(lit) <= FractionEnd(s)
    ensures lit.exponent.Some? ==> FractionEnd(s) == FractionStop(lit)
  {
    DigitRunCovers(s, WholeStop(lit) + 1, FractionStop(lit));
    if lit.exponent.Some? {
      assert !IsDigit(s[FractionStop(lit)]);
      DigitRunIsMaximal(s, WholeStop(lit) + 1, FractionStop(lit));
    }
  }

  /** Without a point in the literal, the scanner stops where the literal's digits do, or later. */
  lemma NoFractionStage(s: string, lit: Literal)
    requires WellFormed(lit) && LaidOutIn(lit, s)
    requires WholeEnd(s) == WholeStop(lit) && !lit.point
    ensures FractionStop(lit) <= FractionEnd(s)
    ensures lit.exponent.Some? ==> FractionEnd(s) == FractionStop(lit)
  {
    if lit.exponent.Some? {
      assert !HasPoint(s);
    }
  }

  /** Where the literal's digits end, the scanner reads its exponent, or a longer one. */
  lemma ExponentStage(s: string, lit: Literal)
    requires WellFormed(lit) && LaidOutIn(lit, s)
    requires lit.exponent.Some? ==> FractionEnd(s) == FractionStop(lit)
    requires FractionStop(lit) <= FractionEnd(s)
    ensures FractionStop(lit) + |ExponentText(lit.exponent)|
            <= FractionEnd(s) + |ExponentText(ScanExponent(s, FractionEnd(s)))|
  {
    if lit.exponent.Some? {
      ScanExponentPrefix(s, FractionStop(lit), lit.exponent.value);
    }
  }

  /**
   * Every literal laid out at the start of `s` has a digit where the
   * scanner looks for one, and ends no later than the scanner stops.
   */
  lemma {:induction false} ScanReaches(s: string, lit: Literal)
    requires WellFormed(lit) && LaidOutIn(lit, s)
    ensures WholeEnd(s) > SignEnd(s) || FractionEnd(s) > WholeEnd(s) + 1
    ensures FractionStop(lit) + |ExponentText(lit.exponent)|
            <= FractionEnd(s) + |ExponentText(ScanExponent(s, FractionEnd(s)))|
  {
    WholeStage(s, lit);
    if WholeEnd(s) == WholeStop(lit) {
      if lit.point {
        FractionStage(s, lit);
      } else {
        NoFractionStage(s, lit);
      }
      ExponentStage(s, lit);
    }
  }

  /** The scanner reads every literal at the start of `s` or a longer one. */
  lemma ScanIsLongest(s: string, lit: Literal)
    requires WellFormed(lit) && IsPrefixOf(Spell(lit), s)
    ensures ScanDecimal(s).Some?
    ensures |Spell(lit)| <= |Spell(ScanDecimal(s).value)|
  {
    SpellParts(lit, s);
    ScanReaches(s, lit);
  }

  /** In a text that is exactly a literal, each stage of the scanner stops where that part ends. */
  lemma {:induction false} ScanExact(s: string, lit: Literal)
    requires WellFormed(lit) && LaidOutIn(lit, s)
    requires |s| == FractionStop(lit) + |ExponentText(lit.exponent)|
    ensures SignEnd(s) == |lit.sign| && WholeEnd(s) == WholeStop(lit) && HasPoint(s) == lit.point
    ensures FractionEnd(s) == FractionStop(lit) && ScanExponent(s, FractionStop(lit)) == lit.exponent
  {
    WholeStage(s, lit);
    if lit.point {
      FractionStage(s, lit);
    } else {
      NoFractionStage(s, lit);
      assert !HasPoint(s) by {
        if lit.exponent.Some? {
          assert s[WholeStop(lit)] == lit.exponent.value.mark;
        }
      }
    }
    if lit.exponent.Some? {
      ScanExponentPrefix(s, FractionStop(lit), lit.exponent.value);
    }
  }

  /** On a literal's own text, each stage of the scanner stops where that part of the literal ends. */
  lemma ScanStages(lit: Literal)
    requires WellFormed(lit)
    ensures var s := Spell(lit);
      SignEnd(s) == |lit.sign| && WholeEnd(s) == WholeStop(lit) && HasPoint(s) == lit.point
      && FractionEnd(s) == FractionStop(lit) && ScanExponent(s, FractionStop(lit)) == lit.exponent
      && s[..|lit.sign|] == lit.sign && s[|lit.sign|..WholeStop(lit)] == lit.whole
      && s[FractionStart(lit)..FractionStop(lit)] == lit.fraction
  {
    var s := Spell(lit);
    assert IsPrefixOf(s, s);
    SpellParts(lit, s);
    ScanExact(s, lit);
  }

  /** The scanner reads a literal's own text back as that literal. */
  lemma ScanSpelled(lit: Literal)
    requires WellFormed(lit)
    ensures ScanDecimal(Spell(lit)) == Some(lit)
  {
    ScanStages(lit);
  }

  // ------------------------------------------------------ the parsers on literals

  /** A text that is exactly a literal: both parsers read it as the literal's value. */
  lemma ParseSpelled(lit: Literal)
    requires WellFormed(lit)
    ensures Number(Spell(lit)) == Some(Value(lit))
    ensures ParseFloat(Spell(lit)) == Some(Value(lit))
  {
    NumberOfSpelled(lit);
    ParseFloatOfSpelled(lit);
  }

  /** `Number` reads a literal's own text as its value. */
  lemma NumberOfSpelled(lit: Literal)
    requires WellFormed(lit)
    ensures Number(Spell(lit)) == Some(Value(lit))
  {
    SpellEnds(lit);
    TrimOfTrimmed(Spell(lit));
  }

  /** `parseFloat` reads a literal's own text as its value: no longer literal starts it. */
  lemma ParseFloatOfSpelled(lit: Literal)
    requires WellFormed(lit)
    ensures ParseFloat(Spell(lit)) == Some(Value(lit))
  {
    var t := Spell(lit);
    SpellEnds(lit);
    TrimOfTrimmed(t);
    assert IsPrefixOf(t, t);
    assert LongestLiteralAt(t, lit);
  }

  /** The decimal text of a natural number, as `String(n)` writes it. */
  function NatText(n: nat): (t: string)
    ensures t != [] && AllDigits(t)
  {
    var d := ['0' + (n % 10) as char];
    if n < 10 then d else NatText(n / 10) + d
  }

  /** The digits of `NatText(n)` stand for `n`. */
  lemma {:induction false} NatTextValue(n: nat)
    ensures DigitsValue(NatText(n)) == n
  {
    var t := NatText(n);
    if n >= 10 {
      NatTextValue(n / 10);
      assert t[..|t| - 1] == NatText(n / 10);
    }
  }

  /** The text of a literal with neither point nor exponent. */
  lemma PlainSpelling(sign: string, ds: string)
    ensures Spell(Literal(sign, ds, false, "", None)) == sign + ds
  {
  }

  /** The text of a literal with a point and no sign or exponent. */
  lemma PointSpelling(whole: string, fraction: string)
    ensures Spell(Literal("", whole, true, fraction, None)) == whole + "." + fraction
  {
    assert Spell(Literal("", whole, true, fraction, None)) == "" + whole + "." + fraction + "";
  }

  /** The text of digits with an exponent marked `e`. */
  lemma ExponentSpelling(ds: string, sign: string, ks: string)
    ensures Spell(Literal("", ds, false, "", Some(Exponent('e', sign, ks)))) == ds + "e" + sign + ks
  {
    assert Spell(Literal("", ds, false, "", Some(Exponent('e', sign, ks))))
           == "" + ds + "" + "" + (['e'] + sign + ks);
  }

  /** The value of a literal with neither point nor exponent is that of its digits, signed. */
  lemma PlainValue(sign: string, ds: string)
    requires IsSign(sign) && ds != [] && AllDigits(ds)
    ensures WellFormed(Literal(sign, ds, false, "", None))
    ensures Value(Literal(sign, ds, false, "", None))
            == if sign == "-" then -(DigitsValue(ds) as real) else DigitsValue(ds) as real
  {
    WholeMantissa(ds);
    ScaleBy(DigitsValue(ds) as real, 0);
  }

  /** Both parsers read a string of digits as its value. */
  lemma DigitsReadBack(ds: string)
    requires ds != [] && AllDigits(ds)
    ensures Number(ds) == Some(DigitsValue(ds) as real)
    ensures ParseFloat(ds) == Some(DigitsValue(ds) as real)
  {
    var lit := Literal("", ds, false, "", None);
    PlainSpelling("", ds);
    assert "" + ds == ds;
    PlainValue("", ds);
    ParseSpelled(lit);
  }

  /** Both parsers read back the decimal text of every natural number. */
  lemma NatTextReadsBack(n: nat)
    ensures Number(NatText(n)) == Some(n as real)
    ensures ParseFloat(NatText(n)) == Some(n as real)
  {
    NatTextValue(n);
    DigitsReadBack(NatText(n));
  }

  /** A leading `+` keeps the value of digits and a leading `-` negates it. */
  lemma SignedReadsBack(ds: string)
    requires ds != [] && AllDigits(ds)
    ensures Number("+" + ds) == Some(DigitsValue(ds) as real)
    ensures ParseFloat("+" + ds) == Some(DigitsValue(ds) as real)
    ensures Number("-" + ds) == Some(-(DigitsValue(ds) as real))
    ensures ParseFloat("-" + ds) == Some(-(DigitsValue(ds) as real))
  {
    var plus := Literal("+", ds, false, "", None);
    var minus := Literal("-", ds, false, "", None);
    PlainSpelling("+", ds);
    PlainSpelling("-", ds);
    PlainValue("+", ds);
    PlainValue("-", ds);
    ParseSpelled(plus);
    ParseSpelled(minus);
  }

  /** The value of a literal with a point and no exponent. */
  lemma PointValue(whole: string, fraction: string)
    requires AllDigits(whole) && AllDigits(fraction) && |whole| + |fraction| > 0
    ensures WellFormed(Literal("", whole, true, fraction, None))
    ensures Value(Literal("", whole, true, fraction, None)) == Mantissa(whole, fraction)
  {
    ScaleBy(Mantissa(whole, fraction), 0);
  }

  /**
   * Digits after the point count in tenths, hundredths, and so on; either
   * side of the point may be empty, but not both.
   */
  lemma FractionReadsBack(whole: string, fraction: string)
    requires AllDigits(whole) && AllDigits(fraction) && |whole| + |fraction| > 0
    ensures var t := whole + "." + fraction;
      Number(t) == Some(Mantissa(whole, fraction)) && ParseFloat(t) == Some(Mantissa(whole, fraction))
  {
    var lit := Literal("", whole, true, fraction, None);
    PointSpelling(whole, fraction);
    PointValue(whole, fraction);
    ParseSpelled(lit);
  }

  /** Digits with no fraction have their own value as mantissa. */
  lemma WholeMantissa(ds: string)
    requires AllDigits(ds)
    ensures Mantissa(ds, "") == DigitsValue(ds) as real
  {
    assert DigitsValue("") == 0 && Pow10(0) == 1;
  }

  /** Scaling by 10^k and by 10^-k. */
  lemma ScaleBy(x: real, k: nat)
    ensures Scale(x, 0) == x
    ensures Scale(x, k) == x * Pow10(k) as real
    ensures Scale(x, -(k as int)) == x / Pow10(k) as real
  {
    assert Pow10(0) == 1;
    if k == 0 {
      assert Pow10(0) == 1;
    }
  }

  /** Digits with a positive exponent denote the digits times ten to the exponent. */
  lemma ExponentUpValue(ds: string, ks: string)
    requires ds != [] && AllDigits(ds) && ks != [] && AllDigits(ks)
    ensures WellFormed(Literal("", ds, false, "", Some(Exponent('e', "", ks))))
    ensures Value(Literal("", ds, false, "", Some(Exponent('e', "", ks))))
            == (DigitsValue(ds) * Pow10(DigitsValue(ks))) as real
  {
    var lit := Literal("", ds, false, "", Some(Exponent('e', "", ks)));
    WholeMantissa(ds);
    assert ExponentValue(lit.exponent) == DigitsValue(ks);
    ScaledUp(lit, DigitsValue(ds), DigitsValue(ks));
  }

  /** A literal without a sign whose exponent is k >= 0 denotes its mantissa times 10^k. */
  lemma ScaledUp(lit: Literal, n: nat, k: nat)
    requires WellFormed(lit) && lit.sign == ""
    requires Mantissa(lit.whole, lit.fraction) == n as real && ExponentValue(lit.exponent) == k
    ensures Value(lit) == (n * Pow10(k)) as real
  {
    assert Value(lit) == Scale(n as real, k);
    ScaleNatUp(n, k);
  }

  /** A natural number scaled up by 10^k is the natural number n * 10^k. */
  lemma ScaleNatUp(n: nat, k: nat)
    ensures Scale(n as real, k) == (n * Pow10(k)) as real
  {
    var p := Pow10(k);
    assert Scale(n as real, k) == n as real * p as real;
    assert (n * p) as real == n as real * p as real;
  }

  /** Digits with a negative exponent denote the digits over ten to the exponent. */
  lemma ExponentDownValue(ds: string, ks: string)
    requires ds != [] && AllDigits(ds) && ks != [] && AllDigits(ks)
    ensures WellFormed(Literal("", ds, false, "", Some(Exponent('e', "-", ks))))
    ensures Value(Literal("", ds, false, "", Some(Exponent('e', "-", ks))))
            == DigitsValue(ds) as real / Pow10(DigitsValue(ks)) as real
  {
    var lit := Literal("", ds, false, "", Some(Exponent('e', "-", ks)));
    var m := DigitsValue(ds) as real;
    var k := DigitsValue(ks);
    WholeMantissa(ds);
    assert ExponentValue(lit.exponent) == -(k as int);
    ScaleBy(m, k);
    assert Value(lit) == Scale(m, -(k as int));
  }

  /**
   * An exponent scales by a power of ten: digits m, then `e` and digits k,
   * read as m times 10^k, and with `e-` as m over 10^k.
   */
  lemma ExponentReadsBack(ds: string, sign: string, ks: string)
    requires ds != [] && AllDigits(ds) && ks != [] && AllDigits(ks)
    requires sign == "" || sign == "-"
    ensures var m := DigitsValue(ds);
      var p := Pow10(DigitsValue(ks));
      var v := if sign == "-" then m as real / p as real else (m * p) as real;
      Number(ds + "e" + sign + ks) == Some(v) && ParseFloat(ds + "e" + sign + ks) == Some(v)
  {
    var lit := Literal("", ds, false, "", Some(Exponent('e', sign, ks)));
    if sign == "-" {
      ExponentDownValue(ds, ks);
    } else {
      ExponentUpValue(ds, ks);
    }
    ExponentSpelling(ds, sign, ks);
    ReadsAs(lit, ds + "e" + sign + ks, Value(lit));
  }

  /** Text that spells a literal reads, for both parsers, as any name for the literal's value. */
  lemma ReadsAs(lit: Literal, t: string, v: real)
    requires WellFormed(lit) && Spell(lit) == t && Value(lit) == v
    ensures Number(t) == Some(v) && ParseFloat(t) == Some(v)
  {
    ParseSpelled(lit);
  }

  /**
   * Text whose first character after leading white space cannot start a
   * literal is NaN for both parsers.
   */
  lemma NotALiteralStart(s: string)
    requires TrimStart(s) != [] && !IsDigit(TrimStart(s)[0]) && TrimStart(s)[0] !in "+-."
    ensures Number(s).None? && ParseFloat(s).None?
  {
    var u := TrimStart(s);
    var t := Trim(s);
    assert t == TrimEnd(u);
    assert t != [] && t[0] == u[0];
    forall lit | WellFormed(lit) && IsPrefixOf(Spell(lit), u)
      ensures false
    {
      SpellEnds(lit);
    }
  }

  /** Text whose last character before trailing white space cannot end a literal is NaN for `Number`. */
  lemma NotALiteralEnd(s: string)
    requires Trim(s) != [] && !IsDigit(Trim(s)[|Trim(s)| - 1]) && Trim(s)[|Trim(s)| - 1] != '.'
    ensures Number(s).None?
  {
    if IsDecimalLiteral(Trim(s)) {
      var lit :| WellFormed(lit) && Spell(lit) == Trim(s);
      SpellEnds(lit);
    }
  }

  /** Digits followed by a character that cannot continue a literal scan as those digits. */
  lemma {:induction false} ScanDigitsThen(ds: string, rest: string)
    requires ds != [] && AllDigits(ds)
    requires rest != [] ==> !IsDigit(rest[0]) && rest[0] !in ".eE"
    ensures ScanDecimal(ds + rest) == Some(Literal("", ds, false, "", None))
  {
    var s := ds + rest;
    assert s[0..|ds|] == ds;
    assert |ds| < |s| ==> s[|ds|] == rest[0];
    DigitRunIsMaximal(s, 0, |ds|);
    assert WholeEnd(s) == |ds|;
    assert Scanned(s) == Literal("", ds, false, "", None);
  }

  /** `parseFloat` reads digits up to the first character that cannot continue a literal. */
  lemma {:induction false} ParseFloatOfDigitsThen(ds: string, rest: string)
    requires ds != [] && AllDigits(ds)
    requires rest != [] ==> !IsDigit(rest[0]) && rest[0] !in ".eE"
    ensures ParseFloat(ds + rest) == Some(DigitsValue(ds) as real)
  {
    var s := ds + rest;
    assert !IsSpace(s[0]);
    assert TrimStart(s) == s;
    ScanDigitsThen(ds, rest);
    PlainValue("", ds);
  }

  /** `Number` refuses digits followed by anything that cannot continue a literal. */
  lemma {:induction false} NumberOfDigitsThen(ds: string, rest: string)
    requires ds != [] && AllDigits(ds)
    requires rest != [] && !IsDigit(rest[0]) && rest[0] !in ".eE" && !IsSpace(rest[|rest| - 1])
    ensures Number(ds + rest).None?
  {
    var s := ds + rest;
    assert !IsSpace(s[0]) && !IsSpace(s[|s| - 1]);
    TrimOfTrimmed(s);
    ScanDigitsThen(ds, rest);
    if IsDecimalLiteral(s) {
      var other :| WellFormed(other) && Spell(other) == s;
      ScanSpelled(other);
    }
  }

  /**
   * `parseFloat` reads digits up to the first character that cannot
   * continue a literal, while `Number` of the same text is NaN.
   */
  lemma ParseFloatStopsAt(ds: string, rest: string)
    requires ds != [] && AllDigits(ds)
    requires rest != [] ==> !IsDigit(rest[0]) && rest[0] !in ".eE"
    ensures ParseFloat(ds + rest) == Some(DigitsValue(ds) as real)
    ensures rest != [] && !IsSpace(rest[|rest| - 1]) ==> Number(ds + rest).None?
  {
    ParseFloatOfDigitsThen(ds, rest);
    if rest != [] && !IsSpace(rest[|rest| - 1]) {
      NumberOfDigitsThen(ds, rest);
    }
  }

  /** A lower-case letter other than `e` neither continues a literal nor is white space. */
  lemma LetterStops(c: char)
    requires 'a' <= c <= 'z' && c != 'e'
    ensures !IsDigit(c) && c !in ".eE" && !IsSpace(c)
  {
  }

  /** `parseFloat("12abc")` is 12, while `Number("12abc")` is NaN. */
  lemma ParseFloatStopsAtLetter()
    ensures ParseFloat("12abc") == Some(12.0)
    ensures Number("12abc").None?
  {
    var ds, rest := "12", "abc";
    assert "12abc" == ds + rest;
    assert DigitsValue(ds) == 12 by {
      assert ds[..1] == "1";
    }
    LetterStops(rest[0]);
    LetterStops(rest[|rest| - 1]);
    ParseFloatStopsAt(ds, rest);
  }

  /**
   * On a literal with nothing around it, `parseFloat` and `Number` agree:
   * the two parsers differ only in what they accept after the literal.
   */
  lemma ParseFloatAgreesWithNumber(s: string)
    requires s != [] && !IsSpace(s[0]) && !IsSpace(s[|s| - 1])
    requires Number(s).Some?
    ensures ParseFloat(s) == Number(s)
  {
    TrimOfTrimmed(s);
    var lit :| WellFormed(lit) && Spell(lit) == s;
    ParseSpelled(lit);
  }
}
