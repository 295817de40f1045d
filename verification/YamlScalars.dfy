/**
 What the scalars of the token script's YAML reader mean
 (scripts/stitch-tokens-to-css.ts:91-102): decimal numbers, the fixed words, quoted
 texts, and everything else as it stands.
 */
module YamlScalars {
  import opened Text
  import opened Wrappers
  import opened YamlBlock

  predicate IsDigit(c: char) {
    48 <= c as int < 58
  }

  function DigitValue(c: char): nat
    requires IsDigit(c)
  {
    c as int - 48
  }

  ghost predicate Digits(s: string) {
    s != "" && forall i :: 0 <= i < |s| ==> IsDigit(s[i])
  }

  // ---------- whole numbers ----------

  lemma {:induction false} DigitsAre(s: string)
    ensures Digits(s) <==> AllDigits(s)
  {
  }

  lemma {:induction false} NoWord(s: string)
    requires s != "" && (IsDigit(s[0]) || s[0] == '-')
    ensures s != "~" && s != "null" && s != "true" && s != "false"
    ensures !Enclosed(s, '"') && !Enclosed(s, '\'')
  {
    assert "~"[0] == '~' && "null"[0] == 'n' && "true"[0] == 't' && "false"[0] == 'f';
  }

  lemma {:induction false} NoPoint(s: string)
    requires Digits(s)
    ensures Split(s, '.') == [s]
  {
    assert '.' !in s;
    SplitWhole(s, '.');
  }

  lemma {:induction false} WholeReads(s: string)
    requires Digits(s)
    ensures AllDigits(s) && ParseScalar(s) == Number(Magnitude(s) as real)
  {
    DigitsAre(s);
    NoWord(s);
    NoPoint(s);
  }

  /** A single digit is itself. */
  lemma {:induction false} DigitReads(c: char)
    requires IsDigit(c)
    ensures ParseScalar([c]) == Number(DigitValue(c) as real)
  {
    WholeReads([c]);
    assert [c][..0] == "";
    assert Magnitude("") == 0;
  }

  lemma {:induction false} MagnitudeSnoc(s: string, c: char)
    requires Digits(s) && IsDigit(c)
    ensures AllDigits(s + [c]) && Magnitude(s + [c]) == 10 * Magnitude(s) + DigitValue(c)
  {
    assert (s + [c])[..|s|] == s;
  }

  /** One more digit is ten times the number and the digit. */
  lemma {:induction false} OneMoreDigit(s: string, c: char, n: nat)
    requires Digits(s) && IsDigit(c) && ParseScalar(s) == Number(n as real)
    ensures ParseScalar(s + [c]) == Number((10 * n + DigitValue(c)) as real)
  {
    WholeReads(s);
    WholeReads(s + [c]);
    MagnitudeSnoc(s, c);
  }

  /** How a natural number prints. */
  function Decimal(n: nat): string {
    if n < 10 then [(48 + n) as char] else Decimal(n / 10) + [(48 + n % 10) as char]
  }

  lemma {:induction false} DecimalIsDigits(n: nat)
    ensures Digits(Decimal(n))
  {
    if n >= 10 {
      DecimalIsDigits(n / 10);
    }
  }

  /** Every natural number is read back from its decimal text. */
  lemma {:induction false} DecimalReads(n: nat)
    ensures ParseScalar(Decimal(n)) == Number(n as real)
  {
    if n < 10 {
      DigitReads((48 + n) as char);
    } else {
      DecimalIsDigits(n / 10);
      DecimalReads(n / 10);
      OneMoreDigit(Decimal(n / 10), (48 + n % 10) as char, n / 10);
    }
  }

  // ---------- signs and fractions ----------

  /** A minus sign in front negates. */
  lemma {:induction false} NegativeReads(s: string)
    requires Digits(s)
    ensures ParseScalar(s).Number? && ParseScalar("-" + s) == Number(-ParseScalar(s).value)
  {
    WholeReads(s);
    NoPoint(s);
    assert ("-" + s)[1..] == s;
    NoWord("-" + s);
  }

  /** `x` multiplied by ten `k` times. */
  function Shifted(x: real, k: nat): real {
    if k == 0 then x else 10.0 * Shifted(x, k - 1)
  }

  /** Two runs of digits around a point, as the reader sees them. */
  lemma {:induction false} PointSplits(w: string, f: string)
    requires Digits(w) && Digits(f)
    ensures Split(w + "." + f, '.') == [w, f]
  {
    NoPoint(f);
    assert '.' !in w;
    SplitFirst(w, '.', f);
    assert w + ['.'] + f == w + "." + f;
  }

  lemma {:induction false} PointReads(w: string, f: string)
    requires Digits(w) && Digits(f)
    ensures AllDigits(w) && AllDigits(f)
    ensures ParseScalar(w + "." + f) == Number(Magnitude(w) as real + Magnitude(f) as real / TenTo(|f|) as real)
    ensures ParseScalar("-" + w + "." + f)
         == Number(-(Magnitude(w) as real + Magnitude(f) as real / TenTo(|f|) as real))
  {
    var s, n := w + "." + f, "-" + w + "." + f;
    PointSplits(w, f);
    DigitsAre(w);
    DigitsAre(f);
    assert s[0] == w[0] && n[0] == '-' && n[1..] == s;
    NoWord(s);
    NoWord(n);
  }

  lemma {:induction false} ShiftedIs(x: real, k: nat)
    ensures Shifted(x, k) == x * TenTo(k) as real
  {
    if k > 0 {
      ShiftedIs(x, k - 1);
      assert TenTo(k) as real == 10.0 * TenTo(k - 1) as real;
      TimesTen(x, TenTo(k - 1) as real);
    }
  }

  lemma {:induction false} TimesTen(x: real, t: real)
    ensures 10.0 * (x * t) == x * (10.0 * t)
  {
  }

  function Scaled(m: nat, k: nat): nat {
    if k == 0 then m else 10 * Scaled(m, k - 1)
  }

  lemma {:induction false} MagnitudeSnocAny(s: string, c: char)
    requires (s == "" || Digits(s)) && IsDigit(c)
    ensures AllDigits(s + [c]) && (s == "" || AllDigits(s))
    ensures Magnitude(s + [c]) == 10 * Magnitude(s) + DigitValue(c)
  {
    assert (s + [c])[..|s|] == s;
  }

  lemma {:induction false} Regrouped(a: string, b: string, c: string)
    ensures (a + b) + c == a + (b + c)
  {
  }

  ghost predicate NumbersConcat(w: string, f: string)
    requires AllDigits(w + f) && AllDigits(w) && (f == "" || AllDigits(f))
  {
    Magnitude(w + f) == Scaled(Magnitude(w), |f|) + Magnitude(f)
  }

  lemma {:induction false} ConcatDigits(w: string, f: string)
    requires Digits(w) && (f == "" || Digits(f))
    ensures Digits(w + f) && AllDigits(w + f) && AllDigits(w) && (f == "" || AllDigits(f))
  {
  }

  lemma {:induction false} ConcatStep(w: string, front: string, last: char)
    requires Digits(w) && (front == "" || Digits(front)) && IsDigit(last)
    requires AllDigits(w + front) && AllDigits(w) && (front == "" || AllDigits(front))
    requires NumbersConcat(w, front)
    ensures AllDigits(w + (front + [last])) && AllDigits(front + [last]) && NumbersConcat(w, front + [last])
  {
    Regrouped(w, front, [last]);
    MagnitudeSnocAny(front, last);
    MagnitudeSnocAny(w + front, last);
  }

  lemma {:induction false} MagnitudeConcat(w: string, f: string)
    requires Digits(w) && (f == "" || Digits(f))
    ensures AllDigits(w + f) && AllDigits(w) && (f == "" || AllDigits(f)) && NumbersConcat(w, f)
  {
    ConcatDigits(w, f);
    if f == "" {
      assert w + f == w;
    } else {
      var front, last := f[..|f| - 1], f[|f| - 1];
      MagnitudeConcat(w, front);
      ConcatDigits(w, front);
      ConcatStep(w, front, last);
      assert front + [last] == f;
    }
  }

  lemma {:induction false} ShiftedSum(m: nat, x: real, k: nat)
    ensures Shifted(m as real + x, k) == Scaled(m, k) as real + Shifted(x, k)
  {
    if k > 0 {
      ShiftedSum(m, x, k - 1);
    }
  }

  lemma {:induction false} ShiftedBack(n: nat, k: nat)
    ensures Shifted(n as real / TenTo(k) as real, k) == n as real
  {
    ShiftedIs(n as real / TenTo(k) as real, k);
    DividedBack(n as real, TenTo(k) as real);
  }

  lemma {:induction false} DividedBack(x: real, t: real)
    requires t > 0.0
    ensures x / t * t == x
  {
  }

  lemma {:induction false} ShiftedFraction(m: nat, n: nat, k: nat)
    ensures Shifted(m as real + n as real / TenTo(k) as real, k) == (Scaled(m, k) + n) as real
  {
    ShiftedSum(m, n as real / TenTo(k) as real, k);
    ShiftedBack(n, k);
  }

  /** With `k` digits after the point, ten to the `k` times the number is the number of all the digits. */
  lemma {:induction false} FractionReads(w: string, f: string)
    requires Digits(w) && Digits(f)
    ensures ParseScalar(w + "." + f).Number? && ParseScalar(w + f)
         == Number(Shifted(ParseScalar(w + "." + f).value, |f|))
    ensures ParseScalar("-" + w + "." + f) == Number(-ParseScalar(w + "." + f).value)
  {
    PointReads(w, f);
    MagnitudeConcat(w, f);
    ConcatDigits(w, f);
    WholeReads(w + f);
    var x := Magnitude(w) as real + Magnitude(f) as real / TenTo(|f|) as real;
    assert ParseScalar(w + "." + f) == Number(x);
    ShiftedFraction(Magnitude(w), Magnitude(f), |f|);
    assert Shifted(x, |f|) == Magnitude(w + f) as real;
  }

  // ---------- what is a number ----------

  /** An optional minus sign, digits, and optionally a point and more digits. */
  ghost predicate IsNumberText(s: string) {
    || Digits(s)
    || (exists w :: Digits(w) && s == "-" + w)
    || (exists w, f :: Digits(w) && Digits(f) && s == w + "." + f)
    || (exists w, f :: Digits(w) && Digits(f) && s == "-" + w + "." + f)
  }

  lemma {:induction false} SplitJoins(s: string, sep: char)
    ensures Join(Split(s, sep), [sep]) == s
  {
    if s != "" {
      SplitJoins(s[1..], sep);
      var rest := Split(s[1..], sep);
      if s[0] == sep {
        assert Split(s, sep)[1..] == rest;
      } else {
        assert Split(s, sep)[1..] == rest[1..];
      }
      assert [s[0]] + s[1..] == s;
    }
  }

  lemma {:induction false} WholeShape(w: string)
    requires Digits(w)
    ensures IsNumberText(w) && IsNumberText("-" + w)
  {
  }

  lemma {:induction false} PointShape(w: string, f: string)
    requires Digits(w) && Digits(f)
    ensures IsNumberText(w + "." + f) && IsNumberText("-" + (w + "." + f))
  {
    assert "-" + (w + "." + f) == "-" + w + "." + f;
  }

  lemma {:induction false} NumberOfShape(s: string)
    requires NumberOf(s).Some?
    ensures IsNumberText(s)
  {
    var negative := s != "" && s[0] == '-';
    var t := if negative then s[1..] else s;
    var parts := Split(t, '.');
    SplitJoins(t, '.');
    DigitsAre(parts[0]);
    if |parts| == 2 {
      DigitsAre(parts[1]);
      assert parts[1..] == [parts[1]];
      PointShape(parts[0], parts[1]);
    } else {
      WholeShape(parts[0]);
    }
    assert s == if negative then "-" + t else t;
  }

  /** The numbers are exactly these texts. */
  lemma {:induction false} NumbersIff(s: string)
    ensures ParseScalar(s).Number? <==> IsNumberText(s)
  {
    if ParseScalar(s).Number? {
      NumberOfShape(s);
    } else if IsNumberText(s) {
      NumberTextReads(s);
    }
  }

  lemma {:induction false} NumberTextReads(s: string)
    requires IsNumberText(s)
    ensures ParseScalar(s).Number?
  {
    if Digits(s) {
      WholeReads(s);
    } else if w :| Digits(w) && s == "-" + w {
      NegativeReads(w);
    } else if w, f :| Digits(w) && Digits(f) && s == w + "." + f {
      PointReads(w, f);
    } else {
      var w, f :| Digits(w) && Digits(f) && s == "-" + w + "." + f;
      PointReads(w, f);
    }
  }

  // ---------- words and texts ----------

  /** Nothing, a tilde and the word null are the null value. */
  lemma {:induction false} NullReads()
    ensures ParseScalar("") == ParseScalar("~") == ParseScalar("null") == Null
  {
  }

  lemma {:induction false} TruthReads()
    ensures ParseScalar("true") == Bool(true) && ParseScalar("false") == Bool(false)
  {
  }

  /** Whatever stands between single quotes is a text as it stands. */
  lemma {:induction false} SingleQuotedReads(t: string)
    ensures ParseScalar("'" + t + "'") == Str(t)
  {
    var s := "'" + t + "'";
    assert s[0] == '\'' && s[|s| - 1] == '\'' && s[1..|s| - 1] == t;
    assert "~"[0] == '~' && "null"[0] == 'n' && "true"[0] == 't' && "false"[0] == 'f';
  }

  /** One of the words with a meaning of its own. */
  predicate IsWord(s: string) {
    s == "" || s == "~" || s == "null" || s == "true" || s == "false"
  }

  predicate StartsAndEnds(s: string, quote: char) {
    s != "" && s[0] == quote && s[|s| - 1] == quote
  }

  /** Everything else is a text as it stands. */
  lemma {:induction false} PlainTextReads(s: string)
    requires !IsWord(s) && !StartsAndEnds(s, '"') && !StartsAndEnds(s, '\'') && !IsNumberText(s)
    ensures ParseScalar(s) == Str(s)
  {
    NumbersIff(s);
  }
}
