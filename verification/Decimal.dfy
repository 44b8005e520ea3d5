/** Decimal texts of integers: `std::to_string`, and `std::stod` over the reals. */
module Decimal {
  import opened Wrappers

  const DIGITS: set<char> := {'0', '1', '2', '3', '4', '5', '6', '7', '8', '9'}

  predicate IsDigit(c: char) {
    '0' <= c <= '9'
  }

  predicate AllDigits(s: string) {
    forall i :: 0 <= i < |s| ==> IsDigit(s[i])
  }

  function DigitOf(c: char): nat
    requires IsDigit(c)
  {
    (c - '0') as int
  }

  function CharOf(d: nat): char
    requires d < 10
  {
    '0' + d as char
  }

  /** The value of a string of digits. */
  function ValueOf(s: string): nat
    requires AllDigits(s)
  {
    if s == "" then 0 else 10 * ValueOf(s[..|s| - 1]) + DigitOf(s[|s| - 1])
  }

  /** `std::to_string` of a natural number. */
  function Digits(n: nat): (r: string)
    ensures r != "" && AllDigits(r)
  {
    if n < 10 then [CharOf(n)] else Digits(n / 10) + [CharOf(n % 10)]
  }

  /** `std::to_string` of an integer. */
  function ToString(n: int): string {
    if n < 0 then "-" + Digits(-n) else Digits(n)
  }

  lemma DigitChar(d: nat)
    requires d < 10
    ensures IsDigit(CharOf(d)) && DigitOf(CharOf(d)) == d
  {
  }

  /** Reading the digits of a number gives the number back, so `Digits` is injective. */
  lemma {:induction false} DigitsRead(n: nat)
    ensures ValueOf(Digits(n)) == n
  {
    if n >= 10 {
      DigitsRead(n / 10);
      DigitChar(n % 10);
      assert Digits(n)[..|Digits(n)| - 1] == Digits(n / 10);
    } else {
      DigitChar(n);
      assert Digits(n)[..0] == "";
      assert ValueOf("") == 0;
    }
  }

  // ---- std::stod -------------------------------------------------------

  /** The value of the digits behind a decimal point. */
  function FractionOf(s: string): real
    requires AllDigits(s)
  {
    if s == "" then 0.0 else (DigitOf(s[0]) as real + FractionOf(s[1..])) / 10.0
  }

  /** `x` times 10 to the power `e`. */
  function Shifted(x: real, e: int): real
    decreases if e < 0 then -e else e
  {
    if e == 0 then x else if e > 0 then Shifted(x * 10.0, e - 1) else Shifted(x / 10.0, e + 1)
  }

  /** The first index from `pos` on that holds no digit. */
  function DigitsEnd(s: string, pos: nat): (r: nat)
    requires pos <= |s|
    ensures pos <= r <= |s| && AllDigits(s[pos..r]) && (r < |s| ==> !IsDigit(s[r]))
    decreases |s| - pos
  {
    if pos < |s| && IsDigit(s[pos]) then
      var r := DigitsEnd(s, pos + 1);
      assert s[pos..r] == [s[pos]] + s[pos + 1..r];
      r
    else pos
  }

  /** The exponent part that starts at `pos`, zero when there is none. */
  function Exponent(s: string, pos: nat): int
    requires pos <= |s|
  {
    if pos < |s| && (s[pos] == 'e' || s[pos] == 'E') then
      var start := if pos + 1 < |s| && (s[pos + 1] == '-' || s[pos + 1] == '+') then pos + 2 else pos + 1;
      var end := DigitsEnd(s, start);
      if s[pos + 1..start] == "-" then -(ValueOf(s[start..end]) as int) else ValueOf(s[start..end])
    else 0
  }

  /** The longest numeric prefix: digits, fraction, exponent. None when there are no digits. */
  function Unsigned(s: string): Option<real> {
    var dot := DigitsEnd(s, 0);
    var end := if dot < |s| && s[dot] == '.' then DigitsEnd(s, dot + 1) else dot;
    var fraction := if end > dot then s[dot + 1..end] else "";
    if dot == 0 && fraction == "" then None
    else
      Some(Shifted(ValueOf(s[0..dot]) as real + FractionOf(fraction), Exponent(s, end)))
  }

  function Negated(x: Option<real>): Option<real> {
    match x
    case None => None
    case Some(v) => Some(-v)
  }

  function Stod(s: string): Option<real> {
    if s != "" && s[0] == '-' then Negated(Unsigned(s[1..]))
    else if s != "" && s[0] == '+' then Unsigned(s[1..])
    else Unsigned(s)
  }

  lemma {:induction false} DigitsEndAll(s: string, pos: nat)
    requires AllDigits(s) && pos <= |s|
    ensures DigitsEnd(s, pos) == |s|
    decreases |s| - pos
  {
    if pos < |s| {
      DigitsEndAll(s, pos + 1);
    }
  }

  /** The end of digits in the middle of a text. */
  lemma {:induction false} DigitsEndBetween(front: string, digits: string, rest: string, pos: nat)
    requires AllDigits(digits) && (rest == "" || !IsDigit(rest[0])) && |front| <= pos <= |front| + |digits|
    ensures DigitsEnd(front + digits + rest, pos) == |front| + |digits|
    decreases |front| + |digits| - pos
  {
    var s := front + digits + rest;
    if pos < |front| + |digits| {
      assert s[pos] == digits[pos - |front|];
      DigitsEndBetween(front, digits, rest, pos + 1);
    } else if rest != "" {
      assert s[pos] == rest[0];
    }
  }

  lemma UnsignedDigits(s: string)
    requires s != "" && AllDigits(s)
    ensures Unsigned(s) == Some(ValueOf(s) as real)
  {
    DigitsEndAll(s, 0);
    assert s[0..|s|] == s;
    assert FractionOf("") == 0.0 && Exponent(s, |s|) == 0;
  }

  /** `std::stod` reads back what `std::to_string` wrote. */
  lemma StodToString(n: int)
    ensures Stod(ToString(n)) == Some(n as real)
  {
    hide Unsigned, Digits, ValueOf;
    var digits := Digits(if n < 0 then -n else n);
    DigitsRead(if n < 0 then -n else n);
    UnsignedDigits(digits);
    assert ("-" + digits)[1..] == digits;
    assert IsDigit(digits[0]);
  }
}
