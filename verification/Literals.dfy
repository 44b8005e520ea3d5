/** What `std::stod` makes of a decimal literal: digits with a point, a sign and an exponent. */
module Literals {
  import opened Wrappers
  import opened Decimal

  /** 10 to the power `n`. */
  function Tens(n: nat): (r: real)
    ensures r > 0.0
  {
    if n == 0 then 1.0 else 10.0 * Tens(n - 1)
  }

  /** 10 to the power `x`. */
  function TenTo(x: int): real {
    if x >= 0 then Tens(x) else 1.0 / Tens(-x)
  }

  /** The number that a string of digits denotes. */
  function Number(s: string): real
    requires AllDigits(s)
  {
    ValueOf(s) as real
  }

  // ---- Digits behind the point -----------------------------------------

  lemma NumberSnoc(s: string, c: char)
    requires AllDigits(s) && IsDigit(c)
    ensures AllDigits(s + [c]) && Number(s + [c]) == 10.0 * Number(s) + DigitOf(c) as real
  {
    assert (s + [c])[..|s|] == s;
  }

  lemma NoNumber()
    ensures Number("") == 0.0 && Tens(0) == 1.0
  {
  }

  lemma NumberStep(x: real, a: real, f: real, t: real, d: real)
    requires x == a * t + f
    ensures 10.0 * x + d == a * (10.0 * t) + (10.0 * f + d)
  {
  }

  lemma TensNext(n: nat)
    ensures Tens(n + 1) == 10.0 * Tens(n)
  {
  }

  lemma LastDigit(a: string, f: string)
    requires AllDigits(a) && AllDigits(f) && f != ""
    ensures var n := |f| - 1;
            && AllDigits(f[..n]) && IsDigit(f[n]) && AllDigits(a + f[..n])
            && f == f[..n] + [f[n]] && a + f == a + f[..n] + [f[n]]
  {
  }

  lemma {:induction false} NumberConcat(a: string, f: string)
    requires AllDigits(a) && AllDigits(f)
    ensures AllDigits(a + f) && Number(a + f) == Number(a) * Tens(|f|) + Number(f)
  {
    hide Number, Tens, AllDigits;
    if f == "" {
      assert a + f == a;
      NoNumber();
    } else {
      var n := |f| - 1;
      LastDigit(a, f);
      NumberConcat(a, f[..n]);
      NumberSnoc(a + f[..n], f[n]);
      NumberSnoc(f[..n], f[n]);
      TensNext(n);
      NumberStep(Number(a + f[..n]), Number(a), Number(f[..n]), Tens(n), DigitOf(f[n]) as real);
    }
  }

  lemma FirstDigit(f: string)
    requires AllDigits(f) && f != ""
    ensures AllDigits([f[0]]) && AllDigits(f[1..]) && f == [f[0]] + f[1..]
    ensures Number([f[0]]) == DigitOf(f[0]) as real
    ensures FractionOf(f) == (DigitOf(f[0]) as real + FractionOf(f[1..])) / 10.0
  {
    NumberSnoc("", f[0]);
    assert "" + [f[0]] == [f[0]];
  }

  lemma FractionStep(d: real, rest: real, t: real)
    ensures (d + rest) / 10.0 * (10.0 * t) == d * t + rest * t
  {
    var x := (d + rest) / 10.0;
    assert x * (10.0 * t) == x * 10.0 * t;
  }

  lemma NoFraction()
    ensures FractionOf("") == 0.0
  {
  }

  lemma {:induction false} FractionNumber(f: string)
    requires AllDigits(f)
    ensures FractionOf(f) * Tens(|f|) == Number(f)
  {
    hide Number, Tens, AllDigits, FractionOf;
    if f == "" {
      NoNumber();
      NoFraction();
    } else {
      FirstDigit(f);
      FractionNumber(f[1..]);
      NumberConcat([f[0]], f[1..]);
      TensNext(|f| - 1);
      FractionStep(DigitOf(f[0]) as real, FractionOf(f[1..]), Tens(|f| - 1));
    }
  }

  // ---- The exponent ----------------------------------------------------

  lemma TenthOf(t: real)
    requires t > 0.0
    ensures 10.0 * (1.0 / (10.0 * t)) == 1.0 / t
  {
    var x, y := 1.0 / (10.0 * t), 1.0 / t;
    assert x * (10.0 * t) == 1.0 && y * t == 1.0;
    assert (10.0 * x - y) * t == 0.0;
  }

  lemma TenToNext(e: int)
    ensures TenTo(e + 1) == 10.0 * TenTo(e)
  {
    if e < 0 {
      TenthOf(Tens(-e - 1));
    }
  }

  lemma ShiftStep(x: real, t: real)
    ensures x * 10.0 * t == x * (10.0 * t)
    ensures x / 10.0 * (10.0 * t) == x * t
  {
  }

  lemma {:induction false} ShiftedIs(x: real, e: int)
    ensures Shifted(x, e) == x * TenTo(e)
    decreases if e < 0 then -e else e
  {
    if e > 0 {
      ShiftedIs(x * 10.0, e - 1);
      TenToNext(e - 1);
      ShiftStep(x, TenTo(e - 1));
    } else if e < 0 {
      ShiftedIs(x / 10.0, e + 1);
      TenToNext(e);
      ShiftStep(x, TenTo(e));
    }
  }

  /** The exponent of a literal: nothing, or a mark, a sign or none, and digits. */
  datatype ExponentPart = NoExponent | ExponentPart(mark: char, sign: string, digits: string) {
    predicate Valid() {
      ExponentPart? ==> (mark == 'e' || mark == 'E') && sign in {"", "+", "-"} && digits != "" && AllDigits(digits)
    }

    function Text(): string {
      if NoExponent? then "" else [mark] + sign + digits
    }

    function Value(): int
      requires Valid()
    {
      if NoExponent? then 0 else if sign == "-" then 0 - ValueOf(digits) else ValueOf(digits)
    }
  }

  lemma ExponentSlices(front: string, mark: char, sign: string, digits: string, rest: string)
    requires sign in {"", "+", "-"} && digits != "" && AllDigits(digits)
    ensures var s, start := front + ([mark] + sign + digits + rest), |front| + 1 + |sign|;
            && |s| == start + |digits| + |rest| && s[|front|] == mark && s == (front + [mark] + sign) + digits + rest
            && s[|front| + 1..start] == sign && s[start..start + |digits|] == digits
            && s[|front| + 1] == if sign == "" then digits[0] else sign[0]
  {
  }

  /** The literal does not go on in what follows it. */
  predicate StopsAt(x: ExponentPart, rest: string) {
    rest == "" || (!IsDigit(rest[0]) && (x.NoExponent? ==> rest[0] != 'e' && rest[0] != 'E'))
  }

  lemma ExponentAt(s: string, pos: nat, start: nat, end: nat, sign: string, digits: string)
    requires pos + 1 <= start <= end <= |s| && (s[pos] == 'e' || s[pos] == 'E') && pos + 1 < |s|
    requires start == if s[pos + 1] == '-' || s[pos + 1] == '+' then pos + 2 else pos + 1
    requires s[pos + 1..start] == sign && DigitsEnd(s, start) == end && s[start..end] == digits
    ensures AllDigits(digits)
    ensures Exponent(s, pos) == if sign == "-" then 0 - ValueOf(digits) else ValueOf(digits)
  {
    hide ValueOf, DigitsEnd, AllDigits;
  }

  lemma NoMark(front: string, rest: string)
    requires StopsAt(NoExponent, rest)
    ensures Exponent(front + rest, |front|) == 0
  {
  }

  lemma PartIs(x: ExponentPart)
    requires x.Valid() && x.ExponentPart?
    ensures x.Text() == [x.mark] + x.sign + x.digits && (x.mark == 'e' || x.mark == 'E')
    ensures x.sign in {"", "+", "-"} && x.digits != "" && AllDigits(x.digits)
    ensures x.Value() == if x.sign == "-" then 0 - ValueOf(x.digits) else ValueOf(x.digits)
  {
  }

  lemma StopsDigits(x: ExponentPart, rest: string)
    requires StopsAt(x, rest)
    ensures rest == "" || !IsDigit(rest[0])
  {
  }

  lemma MarkedIs(front: string, x: ExponentPart, rest: string)
    requires x.Valid() && StopsAt(x, rest) && x.ExponentPart?
    ensures Exponent(front + (x.Text() + rest), |front|) == x.Value()
  {
    hide *;
    PartIs(x);
    StopsDigits(x, rest);
    SpelledIs(front, x.mark, x.sign, x.digits, rest);
  }

  lemma SpelledIs(front: string, mark: char, sign: string, digits: string, rest: string)
    requires (mark == 'e' || mark == 'E') && sign in {"", "+", "-"} && digits != "" && AllDigits(digits)
    requires rest == "" || !IsDigit(rest[0])
    ensures Exponent(front + ([mark] + sign + digits + rest), |front|)
         == if sign == "-" then 0 - ValueOf(digits) else ValueOf(digits)
  {
    hide *;
    var s, start := front + ([mark] + sign + digits + rest), |front| + 1 + |sign|;
    SignCases(sign, digits);
    ExponentSlices(front, mark, sign, digits, rest);
    DigitsEndBetween(front + [mark] + sign, digits, rest, start);
    ExponentAt(s, |front|, start, start + |digits|, sign, digits);
  }

  lemma ExponentIs(front: string, x: ExponentPart, rest: string)
    requires x.Valid() && StopsAt(x, rest)
    ensures Exponent(front + (x.Text() + rest), |front|) == x.Value()
  {
    hide Exponent, StopsAt, ValueOf;
    if x.ExponentPart? {
      MarkedIs(front, x, rest);
    } else {
      assert x.Text() + rest == rest && x == NoExponent;
      NoMark(front, rest);
    }
  }

  lemma SignCases(sign: string, digits: string)
    requires sign in {"", "+", "-"} && digits != "" && AllDigits(digits)
    ensures digits[0] != '-' && digits[0] != '+'
    ensures sign == "" || (|sign| == 1 && (sign[0] == '-' || sign[0] == '+'))
  {
  }

  // ---- Without a sign --------------------------------------------------

  /** Digits, a point and digits, or digits alone; then the exponent, and a text that does not go on with it. */
  predicate IsLiteral(s: string, whole: string, fraction: string, x: ExponentPart, rest: string) {
    && AllDigits(whole) && AllDigits(fraction) && (whole != "" || fraction != "") && x.Valid() && StopsAt(x, rest)
    && (|| s == whole + "." + fraction + (x.Text() + rest)
        || (fraction == "" && s == whole + (x.Text() + rest) && (x.NoExponent? && rest != "" ==> rest[0] != '.')))
  }

  lemma MarkNoDigit(x: ExponentPart, rest: string)
    requires x.Valid() && StopsAt(x, rest)
    ensures x.Text() + rest == "" || !IsDigit((x.Text() + rest)[0])
    ensures (x.NoExponent? && rest != "" ==> rest[0] != '.') && x.Text() + rest != "" ==> (x.Text() + rest)[0] != '.'
  {
  }

  lemma PointSlices(whole: string, fraction: string, tail: string)
    ensures var s, dot, end := whole + "." + fraction + tail, |whole|, |whole| + 1 + |fraction|;
            && ("." + fraction + tail)[0] == '.' && !IsDigit('.')
            && s == "" + whole + ("." + fraction + tail) && s == (whole + ".") + fraction + tail
            && dot < end <= |s| && s[dot] == '.' && s[0..dot] == whole && s[dot + 1..end] == fraction
            && s == whole + "." + fraction + tail && end == |whole + "." + fraction|
  {
  }

  lemma UnsignedAt(s: string, dot: nat, end: nat, whole: string, fraction: string)
    requires dot < end <= |s| && DigitsEnd(s, 0) == dot && s[dot] == '.' && DigitsEnd(s, dot + 1) == end
    requires s[0..dot] == whole && s[dot + 1..end] == fraction && (whole != "" || fraction != "")
    ensures AllDigits(whole) && AllDigits(fraction)
    ensures Unsigned(s) == Some(Shifted(Number(whole) + FractionOf(fraction), Exponent(s, end)))
  {
    hide Shifted, FractionOf, ValueOf, Exponent, DigitsEnd;
  }

  lemma WithPoint(whole: string, fraction: string, x: ExponentPart, rest: string)
    requires AllDigits(whole) && AllDigits(fraction) && (whole != "" || fraction != "") && x.Valid() && StopsAt(x, rest)
    ensures Unsigned(whole + "." + fraction + (x.Text() + rest))
         == Some(Shifted(Number(whole) + FractionOf(fraction), x.Value()))
  {
    hide *;
    var tail := x.Text() + rest;
    PointSlices(whole, fraction, tail);
    MarkNoDigit(x, rest);
    DigitsEndBetween("", whole, "." + fraction + tail, 0);
    DigitsEndBetween(whole + ".", fraction, tail, |whole| + 1);
    ExponentIs(whole + "." + fraction, x, rest);
    UnsignedAt(whole + "." + fraction + tail, |whole|, |whole| + 1 + |fraction|, whole, fraction);
  }

  lemma WholeSlices(whole: string, tail: string)
    ensures var s := whole + tail;
            && s == "" + whole + tail && s[0..|whole|] == whole && (tail != "" ==> s[|whole|] == tail[0])
  {
  }

  lemma UnsignedWhole(s: string, dot: nat, whole: string)
    requires dot <= |s| && DigitsEnd(s, 0) == dot && (dot < |s| ==> s[dot] != '.') && s[0..dot] == whole && whole != ""
    ensures AllDigits(whole) && Unsigned(s) == Some(Shifted(Number(whole) + FractionOf(""), Exponent(s, dot)))
  {
    hide Shifted, FractionOf, ValueOf, Exponent, DigitsEnd;
  }

  lemma WithoutPoint(whole: string, x: ExponentPart, rest: string)
    requires AllDigits(whole) && whole != "" && x.Valid() && StopsAt(x, rest)
    requires x.NoExponent? && rest != "" ==> rest[0] != '.'
    ensures Unsigned(whole + (x.Text() + rest)) == Some(Shifted(Number(whole) + FractionOf(""), x.Value()))
  {
    hide *;
    var tail := x.Text() + rest;
    WholeSlices(whole, tail);
    MarkNoDigit(x, rest);
    DigitsEndBetween("", whole, tail, 0);
    ExponentIs(whole, x, rest);
    UnsignedWhole(whole + tail, |whole|, whole);
  }

  lemma Regrouped(a: real, f: real, t: real, e: real)
    ensures (a + f) * e * t == (a * t + f * t) * e
  {
    assert (a + f) * e * t == (a + f) * t * e;
  }

  lemma MantissaIs(whole: string, fraction: string, e: int)
    requires AllDigits(whole) && AllDigits(fraction)
    ensures AllDigits(whole + fraction)
    ensures Shifted(Number(whole) + FractionOf(fraction), e) * Tens(|fraction|) == Number(whole + fraction) * TenTo(e)
  {
    hide *;
    ShiftedIs(Number(whole) + FractionOf(fraction), e);
    NumberConcat(whole, fraction);
    FractionNumber(fraction);
    Regrouped(Number(whole), FractionOf(fraction), Tens(|fraction|), TenTo(e));
  }

  /** The value of a literal, before it is known to be what the literal denotes. */
  lemma LiteralIs(s: string, whole: string, fraction: string, x: ExponentPart, rest: string)
    requires IsLiteral(s, whole, fraction, x, rest)
    ensures Unsigned(s) == Some(Shifted(Number(whole) + FractionOf(fraction), x.Value()))
  {
    hide Unsigned, Shifted, FractionOf, ValueOf, ExponentPart.Text, ExponentPart.Value;
    if s == whole + "." + fraction + (x.Text() + rest) {
      WithPoint(whole, fraction, x, rest);
    } else {
      WithoutPoint(whole, x, rest);
    }
  }

  lemma LiteralParts(s: string, whole: string, fraction: string, x: ExponentPart, rest: string)
    requires IsLiteral(s, whole, fraction, x, rest)
    ensures AllDigits(whole) && AllDigits(fraction) && x.Valid()
  {
  }

  lemma UnsignedDenotes(s: string, whole: string, fraction: string, x: ExponentPart, rest: string)
    requires IsLiteral(s, whole, fraction, x, rest)
    ensures AllDigits(whole + fraction) && Unsigned(s).Some?
    ensures Unsigned(s).value * Tens(|fraction|) == Number(whole + fraction) * TenTo(x.Value())
  {
    hide *;
    LiteralParts(s, whole, fraction, x, rest);
    LiteralIs(s, whole, fraction, x, rest);
    MantissaIs(whole, fraction, x.Value());
  }

  // ---- With a sign -----------------------------------------------------

  lemma SignedIs(sign: string, s: string)
    requires s != "" && s[0] != '-' && s[0] != '+' && sign in {"", "+", "-"}
    ensures Stod(sign + s) == if sign == "-" then Negated(Unsigned(s)) else Unsigned(s)
  {
    hide Unsigned;
    if sign == "" {
      assert sign + s == s;
    } else {
      assert (sign + s)[0] == sign[0] && (sign + s)[1..] == s;
    }
  }

  lemma LiteralStarts(s: string, whole: string, fraction: string, x: ExponentPart, rest: string)
    requires IsLiteral(s, whole, fraction, x, rest)
    ensures s != "" && s[0] != '-' && s[0] != '+' && x.Valid()
  {
    if whole != "" {
      assert s[0] == whole[0] && IsDigit(whole[0]);
    } else {
      assert s[0] == '.';
    }
  }

  function Signed(sign: string, n: real): real {
    if sign == "-" then -n else n
  }

  lemma SignedTimes(sign: string, r: Option<real>, u: Option<real>, t: real, n: real)
    requires u.Some? && u.value * t == n && r == if sign == "-" then Negated(u) else u
    ensures r.Some? && r.value * t == Signed(sign, n)
  {
  }

  /** `std::stod` takes the literal that a text starts with, whatever follows it. A literal denotes its digits, read as
      one number, times 10 to its exponent, divided by 10 to the number of its digits behind the point. */
  lemma StodDenotes(sign: string, s: string, whole: string, fraction: string, x: ExponentPart, rest: string)
    requires IsLiteral(s, whole, fraction, x, rest) && sign in {"", "+", "-"}
    ensures AllDigits(whole + fraction) && x.Valid() && Stod(sign + s).Some?
    ensures Stod(sign + s).value * Tens(|fraction|) == Signed(sign, Number(whole + fraction) * TenTo(x.Value()))
  {
    hide *;
    LiteralStarts(s, whole, fraction, x, rest);
    SignedIs(sign, s);
    UnsignedDenotes(s, whole, fraction, x, rest);
    SignedTimes(sign, Stod(sign + s), Unsigned(s), Tens(|fraction|), Number(whole + fraction) * TenTo(x.Value()));
  }

  // ---- Examples --------------------------------------------------------

  lemma TwoDigits(a: char, b: char)
    requires IsDigit(a) && IsDigit(b)
    ensures AllDigits([a, b]) && Number([a, b]) == 10.0 * DigitOf(a) as real + DigitOf(b) as real
    ensures AllDigits([b]) && Number([b]) == DigitOf(b) as real && ValueOf([b]) == DigitOf(b)
  {
    NumberSnoc("", a);
    NumberSnoc([a], b);
    NumberSnoc("", b);
    assert "" + [a] == [a] && [a] + [b] == [a, b] && "" + [b] == [b];
  }

  lemma SmallPowers()
    ensures Tens(0) == 1.0 && Tens(1) == 10.0 && Tens(2) == 100.0
    ensures TenTo(0) == 1.0 && TenTo(-1) == 0.1 && TenTo(2) == 100.0
  {
    TensNext(0);
    TensNext(1);
  }

  /** For example 1.5, -25e-1 and 1.5E+2. */
  lemma StodExamples()
    ensures Stod("1.5") == Some(1.5) && Stod("-25e-1") == Some(-2.5) && Stod("1.5E+2") == Some(150.0)
  {
    hide Stod, Number, Tens, TenTo, ValueOf;
    SmallPowers();
    TwoDigits('1', '5');
    TwoDigits('2', '5');
    TwoDigits('1', '1');
    TwoDigits('1', '2');
    var down, up := ExponentPart('e', "-", "1"), ExponentPart('E', "+", "2");
    assert "1" + "5" == ['1', '5'] && "25" + "" == ['2', '5'];
    assert "" + "1.5" == "1.5" && "1" + "." + "5" + (NoExponent.Text() + "") == "1.5";
    StodDenotes("", "1.5", "1", "5", NoExponent, "");
    assert "25" + (down.Text() + "") == "25e-1" && "-" + "25e-1" == "-25e-1";
    StodDenotes("-", "25e-1", "25", "", down, "");
    assert "1" + "." + "5" + (up.Text() + "") == "1.5E+2" && "" + "1.5E+2" == "1.5E+2";
    StodDenotes("", "1.5E+2", "1", "5", up, "");
  }
}
