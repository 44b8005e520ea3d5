/** What `extract_scalar_by_key` of tools/optkit-cli/report.cc reads for a key that is followed by a decimal literal. */
module AnnotateNumbers {
  import opened Wrappers
  import opened Strings
  import opened Decimal
  import opened Literals
  import opened Annotate

  // ---- The characters of a literal -------------------------------------

  predicate AllIn(s: string, cs: set<char>) {
    forall i :: 0 <= i < |s| ==> s[i] in cs
  }

  predicate NoneOf(s: string, cs: set<char>) {
    forall i :: 0 <= i < |s| ==> s[i] !in cs
  }

  lemma DigitIsNumber(c: char)
    requires IsDigit(c)
    ensures c in NUMBER && c in NUMBER_START
  {
  }

  lemma MarksAreNumber()
    ensures '.' in NUMBER && 'e' in NUMBER && 'E' in NUMBER && '+' in NUMBER && '-' in NUMBER && '-' in NUMBER_START
  {
  }

  lemma DigitsAreNumber(s: string)
    requires AllDigits(s)
    ensures AllIn(s, NUMBER)
  {
    forall i | 0 <= i < |s| ensures s[i] in NUMBER {
      DigitIsNumber(s[i]);
    }
  }

  lemma AllInConcat(a: string, b: string, cs: set<char>)
    requires AllIn(a, cs) && AllIn(b, cs)
    ensures AllIn(a + b, cs)
  {
  }

  lemma OneIn(c: char, cs: set<char>)
    requires c in cs
    ensures AllIn([c], cs) && AllIn("", cs)
  {
  }

  lemma ExponentIsNumber(x: ExponentPart)
    requires x.Valid()
    ensures AllIn(x.Text() + "", NUMBER)
  {
    MarksAreNumber();
    if x.ExponentPart? {
      PartIs(x);
      OneIn(x.mark, NUMBER);
      OneIn('+', NUMBER);
      OneIn('-', NUMBER);
      DigitsAreNumber(x.digits);
      AllInConcat([x.mark], x.sign, NUMBER);
      AllInConcat([x.mark] + x.sign, x.digits, NUMBER);
    }
    assert x.Text() + "" == x.Text();
  }

  lemma LiteralChars(s: string, whole: string, fraction: string, x: ExponentPart)
    requires IsLiteral(s, whole, fraction, x, "")
    ensures AllIn(s, NUMBER)
  {
    hide AllIn, NUMBER;
    var tail := x.Text() + "";
    MarksAreNumber();
    OneIn('.', NUMBER);
    DigitsAreNumber(whole);
    DigitsAreNumber(fraction);
    ExponentIsNumber(x);
    if s == whole + "." + fraction + tail {
      AllInConcat(whole, ".", NUMBER);
      AllInConcat(whole + ".", fraction, NUMBER);
      AllInConcat(whole + "." + fraction, tail, NUMBER);
    } else {
      AllInConcat(whole, tail, NUMBER);
    }
  }

  // ---- Reading it ------------------------------------------------------

  /** Behind characters that start no number, a run of number characters is what is converted. */
  lemma RunRead(front: string, gap: string, number: string, rest: string)
    requires NoneOf(gap, NUMBER_START) && number != "" && number[0] in NUMBER_START && AllIn(number, NUMBER)
    requires rest == "" || rest[0] !in NUMBER
    ensures NumberAfter(front + (gap + (number + rest)), |front|) == Some(number)
  {
    hide NUMBER_START, NUMBER;
    var s := front + (gap + (number + rest));
    var i := |front| + |gap|;
    assert s[i] == number[0];
    FirstInIs(s, NUMBER_START, |front|, i);
    assert s[i..i + |number|] == number;
    if rest != "" {
      assert s[i + |number|] == rest[0];
      FirstNotInIs(s, NUMBER, i, i + |number|);
    } else {
      InBefore(s, NUMBER, i);
    }
  }

  lemma ColonFound(before: string, quoted: string, gap: string, tail: string)
    requires NoneOf(quoted, {':'}) && NoneOf(gap, {':'})
    ensures FirstIn(before + quoted + gap + (":" + tail), {':'}, |before|) == Some(|before + quoted + gap|)
  {
    FirstInIs(before + quoted + gap + (":" + tail), {':'}, |before|, |before + quoted + gap|);
  }

  /** A text in which a key stands first at the end of `before`, and a number behind its colon. */
  ghost predicate Holds(json: string, before: string, key: string, gap: string, blanks: string, number: string,
                        rest: string) {
    && json == before + Quoted(key) + gap + (":" + (blanks + (number + rest)))
    && Find(json, Quoted(key), 0) == Some(|before|)
    && NoneOf(Quoted(key), {':'}) && NoneOf(gap, {':'})
    && (forall i :: 0 <= i < |blanks| ==> !StartsNumber(blanks[i])) && (rest == "" || !IsInNumber(rest[0]))
  }

  predicate StartsNumber(c: char) {
    IsDigit(c) || c == '-'
  }

  predicate IsInNumber(c: char) {
    IsDigit(c) || c == '.' || c == 'e' || c == 'E' || c == '+' || c == '-'
  }

  lemma NumberChars(c: char)
    ensures c in NUMBER_START <==> StartsNumber(c)
    ensures c in NUMBER <==> IsInNumber(c)
  {
  }

  lemma GapIs(blanks: string, rest: string)
    requires (forall i :: 0 <= i < |blanks| ==> !StartsNumber(blanks[i])) && (rest == "" || !IsInNumber(rest[0]))
    ensures NoneOf(blanks, NUMBER_START) && (rest == "" || rest[0] !in NUMBER)
  {
    hide NUMBER_START, NUMBER, StartsNumber, IsInNumber;
    forall i | 0 <= i < |blanks| ensures blanks[i] !in NUMBER_START {
      NumberChars(blanks[i]);
    }
    if rest != "" {
      NumberChars(rest[0]);
    }
  }

  lemma Recolon(front: string, tail: string)
    ensures front + (":" + tail) == (front + ":") + tail && |front + ":"| == |front| + 1
  {
  }

  lemma NumberRead(json: string, before: string, key: string, gap: string, blanks: string, number: string, rest: string)
    requires Holds(json, before, key, gap, blanks, number, rest)
    requires number != "" && number[0] in NUMBER_START && AllIn(number, NUMBER)
    ensures ExtractedText(json, key) == Some(number)
  {
    hide NUMBER_START, NUMBER, NumberAfter, NoneOf, AllIn, Quoted, StartsNumber, IsInNumber;
    GapIs(blanks, rest);
    var front := before + Quoted(key) + gap;
    ColonFound(before, Quoted(key), gap, blanks + (number + rest));
    Recolon(front, blanks + (number + rest));
    RunRead(front + ":", blanks, number, rest);
  }

  lemma SignedNumber(sign: string, s: string, whole: string, fraction: string, x: ExponentPart)
    requires IsLiteral(s, whole, fraction, x, "") && (sign == "-" || (sign == "" && whole != ""))
    ensures sign + s != "" && (sign + s)[0] in NUMBER_START && AllIn(sign + s, NUMBER)
  {
    hide NUMBER_START, NUMBER, AllIn;
    MarksAreNumber();
    LiteralChars(s, whole, fraction, x);
    if sign == "-" {
      OneIn('-', NUMBER);
      AllInConcat(sign, s, NUMBER);
      assert (sign + s)[0] == '-';
    } else {
      assert sign + s == s && s[0] == whole[0];
      DigitIsNumber(whole[0]);
    }
  }

  lemma ReadIs(json: string, key: string, number: string)
    requires ExtractedText(json, key) == Some(number)
    ensures Extracted(json, key) == Stod(number)
  {
  }

  lemma SignIs(sign: string)
    requires sign == "-" || sign == ""
    ensures sign in {"", "+", "-"}
  {
  }

  /** The reader finds what the literal behind the colon of a key denotes: its digits, read as one number, times 10 to
      its exponent, divided by 10 to the number of digits behind the point. */
  lemma LiteralReadsAs(json: string, before: string, key: string, gap: string, blanks: string, rest: string,
                       sign: string, s: string, whole: string, fraction: string, x: ExponentPart)
    requires IsLiteral(s, whole, fraction, x, "") && (sign == "-" || (sign == "" && whole != ""))
    requires Holds(json, before, key, gap, blanks, sign + s, rest)
    ensures AllDigits(whole + fraction) && x.Valid() && Extracted(json, key).Some?
    ensures Extracted(json, key).value * Tens(|fraction|) == Signed(sign, Number(whole + fraction) * TenTo(x.Value()))
  {
    hide *;
    SignIs(sign);
    SignedNumber(sign, s, whole, fraction, x);
    NumberRead(json, before, key, gap, blanks, sign + s, rest);
    ReadIs(json, key, sign + s);
    StodDenotes(sign, s, whole, fraction, x, "");
  }

  // ---- An example ------------------------------------------------------

  const FRACTION_TEXT: string := "{\"duration\": 1.5}"

  lemma FirstAfterOne(first: char, pat: string, rest: string)
    requires pat != "" && pat[0] != first
    ensures Find([first] + pat + rest, pat, 0) == Some(1)
  {
    var s := [first] + pat + rest;
    assert s[1..1 + |pat|] == pat;
    assert s[0] == first;
    if OccursAt(s, pat, 0) {
      OccursChars(s, pat, 0);
    }
    FindIs(s, pat, 1);
  }

  lemma FractionText()
    ensures FRACTION_TEXT == "{" + Quoted("duration") + "" + (":" + (" " + ("1.5" + "}")))
    ensures FRACTION_TEXT == ['{'] + Quoted("duration") + ": 1.5}"
    ensures NoneOf(Quoted("duration"), {':'}) && Quoted("duration")[0] == '"'
  {
    assert Quoted("duration") == "\"duration\"";
  }

  lemma FractionEnds()
    ensures !StartsNumber(' ') && !IsInNumber('}')
  {
  }

  lemma FractionHolds()
    ensures Holds(FRACTION_TEXT, "{", "duration", "", " ", "1.5", "}")
  {
    hide Find, Quoted, StartsNumber, IsInNumber;
    FractionText();
    FirstAfterOne('{', Quoted("duration"), ": 1.5}");
    FractionEnds();
  }

  /** In {"duration": 1.5} the duration is read as 1.5. */
  lemma FractionRead()
    ensures Extracted(FRACTION_TEXT, "duration") == Some(1.5)
  {
    hide Stod, Holds;
    FractionHolds();
    StodExamples();
    OneFiveIsNumber();
    NumberRead(FRACTION_TEXT, "{", "duration", "", " ", "1.5", "}");
  }

  lemma OneFiveIsNumber()
    ensures "1.5"[0] in NUMBER_START && AllIn("1.5", NUMBER)
  {
  }
}
