/** JSON texts (RFC 8259) and a reader of array elements that looks only at characters.

    `Value` is a concrete syntax tree: it keeps every blank and every escape, so `Print` gives back
    exactly the text that was parsed. Sections 2 to 7 of RFC 8259 fix its shape. `Elements` knows
    nothing of the trees: it takes what stands between the first '[' and the last ']' of a text and
    cuts it at the commas that are outside strings and outside inner brackets. */
module Json {
  import opened Wrappers
  import opened Strings
  import opened Decimal

  // ---- Concrete syntax -------------------------------------------------

  /** One character of a string literal (section 7). */
  datatype Part = Plain(c: char) | Escape(c: char) | Unicode(digits: string)

  datatype Name = NoName | Name(before: string, parts: seq<Part>, after: string)

  /** An array element, or with a name an object member, and the blanks around it. */
  datatype Entry = Entry(name: Name, before: string, value: Value, after: string)

  datatype Value =
    | Scalar(text: string)
    | Str(parts: seq<Part>)
    | Array(entries: seq<Entry>, pad: string)
    | Object(entries: seq<Entry>, pad: string)

  const SHORT_ESCAPES: set<char> := {'"', '\\', '/', 'b', 'f', 'n', 'r', 't'}

  predicate IsHexDigit(c: char) {
    '0' <= c <= '9' || 'a' <= c <= 'f' || 'A' <= c <= 'F'
  }

  /** The characters of numbers and of the literals true, false and null. */
  predicate IsScalarChar(c: char) {
    '0' <= c <= '9' || 'a' <= c <= 'z' || 'A' <= c <= 'Z' || c == '+' || c == '-' || c == '.'
  }

  /** How far a number has been read (section 6). */
  datatype Numeral = Begin | Minus | Zero | Whole | Point | Fraction | Exp | ExpSign | ExpDigits | NoNumber

  function NumeralNext(n: Numeral, c: char): Numeral {
    match n
    case Begin => if c == '-' then Minus else if c == '0' then Zero else if IsDigit(c) then Whole else NoNumber
    case Minus => if c == '0' then Zero else if IsDigit(c) then Whole else NoNumber
    case Zero => if c == '.' then Point else if c == 'e' || c == 'E' then Exp else NoNumber
    case Whole =>
      if IsDigit(c) then Whole else if c == '.' then Point else if c == 'e' || c == 'E' then Exp else NoNumber
    case Point => if IsDigit(c) then Fraction else NoNumber
    case Fraction => if IsDigit(c) then Fraction else if c == 'e' || c == 'E' then Exp else NoNumber
    case Exp => if IsDigit(c) then ExpDigits else if c == '+' || c == '-' then ExpSign else NoNumber
    case ExpSign => if IsDigit(c) then ExpDigits else NoNumber
    case ExpDigits => if IsDigit(c) then ExpDigits else NoNumber
    case NoNumber => NoNumber
  }

  function ReadNumeral(s: string): Numeral {
    if s == "" then Begin else NumeralNext(ReadNumeral(s[..|s| - 1]), s[|s| - 1])
  }

  predicate IsNumeral(s: string) {
    ReadNumeral(s) in {Zero, Whole, Fraction, ExpDigits}
  }

  /** A number or one of the three literal names. */
  predicate IsScalar(s: string) {
    s == "true" || s == "false" || s == "null" || IsNumeral(s)
  }

  predicate GoodPart(p: Part) {
    match p
    case Plain(c) => c != '"' && c != '\\' && ' ' <= c
    case Escape(c) => c in SHORT_ESCAPES
    case Unicode(digits) => |digits| == 4 && forall i :: 0 <= i < 4 ==> IsHexDigit(digits[i])
  }

  predicate GoodParts(parts: seq<Part>) {
    forall i :: 0 <= i < |parts| ==> GoodPart(parts[i])
  }

  predicate Good(v: Value) {
    match v
    case Scalar(text) => IsScalar(text)
    case Str(parts) => GoodParts(parts)
    case Array(entries, pad) => Blank(pad, JSON_BLANKS) && GoodEntries(entries, false)
    case Object(entries, pad) => Blank(pad, JSON_BLANKS) && GoodEntries(entries, true)
  }

  predicate GoodEntry(e: Entry, named: bool) {
    && Blank(e.before, JSON_BLANKS) && Blank(e.after, JSON_BLANKS)
    && Good(e.value)
    && match e.name
       case NoName => !named
       case Name(before, parts, after) =>
         named && Blank(before, JSON_BLANKS) && GoodParts(parts) && Blank(after, JSON_BLANKS)
  }

  predicate GoodEntries(entries: seq<Entry>, named: bool) {
    forall i :: 0 <= i < |entries| ==> GoodEntry(entries[i], named)
  }

  function PartText(p: Part): string {
    match p
    case Plain(c) => [c]
    case Escape(c) => ['\\', c]
    case Unicode(digits) => "\\u" + digits
  }

  function PrintParts(parts: seq<Part>): string {
    if parts == [] then "" else PartText(parts[0]) + PrintParts(parts[1..])
  }

  function Quote(parts: seq<Part>): string {
    "\"" + PrintParts(parts) + "\""
  }

  function PrintName(name: Name): string {
    match name
    case NoName => ""
    case Name(before, parts, after) => before + Quote(parts) + after + ":"
  }

  function Print(v: Value): string {
    match v
    case Scalar(text) => text
    case Str(parts) => Quote(parts)
    case Array(entries, pad) => "[" + PrintBody(entries, pad) + "]"
    case Object(entries, pad) => "{" + PrintBody(entries, pad) + "}"
  }

  function PrintEntry(e: Entry): string {
    PrintName(e.name) + e.before + Print(e.value) + e.after
  }

  /** The text between the brackets; `pad` is the blank text of an empty array or object. */
  function PrintBody(entries: seq<Entry>, pad: string): string {
    if entries == [] then pad
    else if |entries| == 1 then PrintEntry(entries[0])
    else PrintEntry(entries[0]) + "," + PrintBody(entries[1..], pad)
  }

  /** The pad of a body with entries is not printed. */
  lemma {:induction false} PadUnused(entries: seq<Entry>, pad: string, pad': string)
    requires entries != []
    ensures PrintBody(entries, pad) == PrintBody(entries, pad')
  {
    if |entries| > 1 {
      PadUnused(entries[1..], pad, pad');
    }
  }

  /** The texts of the elements, without the blanks around them. */
  function Texts(entries: seq<Entry>): (r: seq<string>)
    ensures |r| == |entries|
  {
    if entries == [] then [] else [Print(entries[0].value)] + Texts(entries[1..])
  }

  /** `text` is a JSON array with the entries `entries`, possibly with blanks around it. */
  ghost predicate IsArrayText(text: string, entries: seq<Entry>) {
    exists before, pad, after :: IsArrayTextWith(text, before, entries, pad, after)
  }

  ghost predicate IsArrayTextWith(text: string, before: string, entries: seq<Entry>, pad: string, after: string) {
    && Blank(before, JSON_BLANKS) && Blank(after, JSON_BLANKS)
    && Good(Array(entries, pad))
    && text == before + Print(Array(entries, pad)) + after
  }

  // ---- The character-level reader --------------------------------------

  datatype Mode = Code | InString | Escaped

  datatype State = State(depth: int, mode: Mode)

  const TOP := State(0, Code)

  function Next(st: State, c: char): State {
    match st.mode
    case Escaped => st.(mode := InString)
    case InString => if c == '"' then st.(mode := Code) else if c == '\\' then st.(mode := Escaped) else st
    case Code =>
      if c == '"' then st.(mode := InString)
      else if c == '[' || c == '{' then st.(depth := st.depth + 1)
      else if c == ']' || c == '}' then st.(depth := st.depth - 1)
      else st
  }

  function Scan(s: string, st: State): State {
    if s == "" then st else Scan(s[1..], Next(st, s[0]))
  }

  predicate IsCut(st: State, c: char) {
    st == TOP && c == ','
  }

  /** The pieces of `s` between its top-level commas. */
  function Cut(s: string, st: State): (r: seq<string>)
    ensures |r| >= 1
  {
    if s == "" then [""]
    else
      var rest := Cut(s[1..], Next(st, s[0]));
      if IsCut(st, s[0]) then [""] + rest else [[s[0]] + rest[0]] + rest[1..]
  }

  function TrimAll(pieces: seq<string>): (r: seq<string>)
    ensures |r| == |pieces|
  {
    if pieces == [] then [] else [Trim(pieces[0], JSON_BLANKS)] + TrimAll(pieces[1..])
  }

  /** What stands between the first '[' and the last ']'. */
  function Body(text: string): Option<string> {
    match (FirstIn(text, {'['}, 0), LastIn(text, {']'}, |text|))
    case (Some(open), Some(close)) => if close < open then None else Some(text[open + 1..close])
    case _ => None
  }

  function Elements(text: string): Option<seq<string>> {
    match Body(text)
    case None => None
    case Some(body) => Some(if Blank(body, JSON_BLANKS) then [] else TrimAll(Cut(body, TOP)))
  }

  // ---- Scanning well-formed values -------------------------------------

  /** Scanning `s` from `st` ends in `end` and passes no top-level comma. */
  predicate Passes(s: string, st: State, end: State) {
    if s == "" then st == end else !IsCut(st, s[0]) && Passes(s[1..], Next(st, s[0]), end)
  }

  lemma {:induction false} PassesConcat(a: string, b: string, st: State, mid: State, end: State)
    requires Passes(a, st, mid) && Passes(b, mid, end)
    ensures Passes(a + b, st, end)
  {
    if a == "" {
      assert a + b == b;
    } else {
      assert (a + b)[1..] == a[1..] + b;
      PassesConcat(a[1..], b, Next(st, a[0]), mid, end);
    }
  }

  /** A text without top-level commas is glued to the first piece of what follows. */
  lemma {:induction false} CutAfter(a: string, b: string, st: State, mid: State)
    requires Passes(a, st, mid)
    ensures Cut(a + b, st) == [a + Cut(b, mid)[0]] + Cut(b, mid)[1..]
  {
    if a == "" {
      assert a + b == b;
      assert a + Cut(b, mid)[0] == Cut(b, mid)[0];
    } else {
      assert (a + b)[1..] == a[1..] + b;
      CutAfter(a[1..], b, Next(st, a[0]), mid);
      assert [a[0]] + (a[1..] + Cut(b, mid)[0]) == a + Cut(b, mid)[0];
    }
  }

  /** Cutting at a top-level comma separates the pieces on its two sides. */
  lemma {:induction false} CutJoin(a: string, b: string, st: State)
    requires Scan(a, st) == TOP
    ensures Cut(a + "," + b, st) == Cut(a, st) + Cut(b, TOP)
  {
    var t := a + "," + b;
    if a == "" {
      assert t == "," + b;
      assert t[1..] == b;
    } else {
      assert t[1..] == a[1..] + "," + b;
      CutJoin(a[1..], b, Next(st, a[0]));
      Prepended(a[0], Cut(a[1..], Next(st, a[0])), Cut(b, TOP));
    }
  }

  lemma Prepended(c: char, left: seq<string>, right: seq<string>)
    requires left != []
    ensures [[c] + (left + right)[0]] + (left + right)[1..] == [[c] + left[0]] + left[1..] + right
    ensures [""] + (left + right) == [""] + left + right
  {
  }

  lemma {:induction false} BlankPasses(s: string, d: int)
    requires Blank(s, JSON_BLANKS)
    ensures Passes(s, State(d, Code), State(d, Code))
  {
    if s != "" {
      assert s[0] in JSON_BLANKS;
      assert Blank(s[1..], JSON_BLANKS);
      BlankPasses(s[1..], d);
    }
  }

  lemma {:induction false} ScalarPasses(s: string, d: int)
    requires forall i :: 0 <= i < |s| ==> IsScalarChar(s[i])
    ensures Passes(s, State(d, Code), State(d, Code))
  {
    if s != "" {
      assert IsScalarChar(s[0]);
      ScalarPasses(s[1..], d);
    }
  }

  lemma {:induction false} NumeralChars(s: string)
    requires ReadNumeral(s) != NoNumber
    ensures forall i :: 0 <= i < |s| ==> IsScalarChar(s[i])
  {
    if s != "" {
      NumeralChars(s[..|s| - 1]);
    }
  }

  lemma ScalarChars(s: string)
    requires IsScalar(s)
    ensures s != "" && forall i :: 0 <= i < |s| ==> IsScalarChar(s[i])
  {
    if IsNumeral(s) {
      NumeralChars(s);
    }
  }

  /** The digits of a positive number, with a sign or without. */
  lemma {:induction false} DigitsAreNumeral(sign: string, n: nat)
    requires (sign == "" || sign == "-") && n > 0
    ensures ReadNumeral(sign + Digits(n)) == Whole
  {
    hide ReadNumeral, NumeralNext, CharOf;
    if n < 10 {
      SignRead(sign);
      ReadMore(sign, CharOf(n));
      NextDigit(ReadNumeral(sign), n);
    } else {
      DigitsAreNumeral(sign, n / 10);
      ReadMore(sign + Digits(n / 10), CharOf(n % 10));
      NextDigit(Whole, n % 10);
      assert sign + Digits(n) == sign + Digits(n / 10) + [CharOf(n % 10)];
    }
  }

  lemma NextDigit(n: Numeral, d: nat)
    requires d < 10 && (n == Whole || (d > 0 && (n == Begin || n == Minus)))
    ensures NumeralNext(n, CharOf(d)) == Whole
  {
  }

  lemma ReadMore(s: string, c: char)
    ensures ReadNumeral(s + [c]) == NumeralNext(ReadNumeral(s), c)
  {
    assert (s + [c])[..|s|] == s;
  }

  lemma SignRead(sign: string)
    requires sign == "" || sign == "-"
    ensures ReadNumeral(sign) == if sign == "" then Begin else Minus
  {
    assert "-"[..0] == "";
  }

  /** What `std::to_string` writes is a number of JSON. */
  lemma IntegerIsScalar(n: int)
    ensures IsScalar(ToString(n))
  {
    if n == 0 {
      assert ToString(0) == "0" && "0"[..0] == "";
    } else if n > 0 {
      DigitsAreNumeral("", n);
      assert "" + Digits(n) == Digits(n);
    } else {
      DigitsAreNumeral("-", -n);
    }
  }

  lemma {:induction false} PlainPasses(s: string, d: int)
    requires forall i :: 0 <= i < |s| ==> s[i] != '"' && s[i] != '\\'
    ensures Passes(s, State(d, InString), State(d, InString))
  {
    if s != "" {
      PlainPasses(s[1..], d);
    }
  }

  lemma PartPasses(p: Part, d: int)
    requires GoodPart(p)
    ensures Passes(PartText(p), State(d, InString), State(d, InString))
  {
    var st, text := State(d, InString), PartText(p);
    match p
    case Plain(c) =>
    case Escape(c) =>
      assert Next(Next(st, '\\'), c) == st;
      assert text[1..] == [c];
    case Unicode(digits) =>
      PlainPasses(digits, d);
      assert text[1..] == "u" + digits && text[1..][1..] == digits;
  }

  lemma {:induction false} PartsPass(parts: seq<Part>, d: int)
    requires GoodParts(parts)
    ensures Passes(PrintParts(parts), State(d, InString), State(d, InString))
  {
    var st := State(d, InString);
    if parts != [] {
      assert GoodPart(parts[0]);
      PartPasses(parts[0], d);
      PartsPass(parts[1..], d);
      PassesConcat(PartText(parts[0]), PrintParts(parts[1..]), st, st, st);
    }
  }

  lemma QuotePasses(parts: seq<Part>, d: int)
    requires GoodParts(parts)
    ensures Passes(Quote(parts), State(d, Code), State(d, Code))
  {
    PartsPass(parts, d);
    PassesConcat("\"", PrintParts(parts), State(d, Code), State(d, InString), State(d, InString));
    PassesConcat("\"" + PrintParts(parts), "\"", State(d, Code), State(d, InString), State(d, Code));
  }

  lemma NamePasses(name: Name, d: int)
    requires name.Name? ==> Blank(name.before, JSON_BLANKS) && GoodParts(name.parts) && Blank(name.after, JSON_BLANKS)
    ensures Passes(PrintName(name), State(d, Code), State(d, Code))
  {
    var st := State(d, Code);
    if name.Name? {
      BlankPasses(name.before, d);
      QuotePasses(name.parts, d);
      BlankPasses(name.after, d);
      PassesConcat(name.before, Quote(name.parts), st, st, st);
      PassesConcat(name.before + Quote(name.parts), name.after, st, st, st);
      PassesConcat(name.before + Quote(name.parts) + name.after, ":", st, st, st);
    }
  }

  /** A well-formed value brings the scanner back to where it was, at any depth. */
  lemma {:induction false} ValuePasses(v: Value, d: nat)
    requires Good(v)
    ensures Passes(Print(v), State(d, Code), State(d, Code))
    decreases v, 1
  {
    var st := State(d, Code);
    match v {
      case Scalar(text) => ScalarChars(text); ScalarPasses(text, d);
      case Str(parts) => QuotePasses(parts, d);
      case Array(entries, pad) =>
        BodyPasses(entries, false, pad, d + 1);
        BracketPasses("[", PrintBody(entries, pad), "]", d);
      case Object(entries, pad) =>
        BodyPasses(entries, true, pad, d + 1);
        BracketPasses("{", PrintBody(entries, pad), "}", d);
    }
  }

  lemma BracketPasses(open: string, body: string, close: string, d: nat)
    requires (open == "[" && close == "]") || (open == "{" && close == "}")
    requires Passes(body, State(d + 1, Code), State(d + 1, Code))
    ensures Passes(open + body + close, State(d, Code), State(d, Code))
  {
    PassesConcat(open, body, State(d, Code), State(d + 1, Code), State(d + 1, Code));
    PassesConcat(open + body, close, State(d, Code), State(d + 1, Code), State(d, Code));
  }

  lemma {:induction false} EntryPasses(e: Entry, named: bool, d: nat)
    requires GoodEntry(e, named)
    ensures Passes(PrintEntry(e), State(d, Code), State(d, Code))
    decreases e, 2
  {
    var st := State(d, Code);
    NamePasses(e.name, d);
    BlankPasses(e.before, d);
    ValuePasses(e.value, d);
    BlankPasses(e.after, d);
    PassesConcat(PrintName(e.name), e.before, st, st, st);
    PassesConcat(PrintName(e.name) + e.before, Print(e.value), st, st, st);
    PassesConcat(PrintName(e.name) + e.before + Print(e.value), e.after, st, st, st);
  }

  lemma {:induction false} BodyPasses(entries: seq<Entry>, named: bool, pad: string, d: nat)
    requires d > 0 && Blank(pad, JSON_BLANKS) && GoodEntries(entries, named)
    ensures Passes(PrintBody(entries, pad), State(d, Code), State(d, Code))
    decreases entries, 3
  {
    var st := State(d, Code);
    if entries == [] {
      BlankPasses(pad, d);
    } else {
      EntryPasses(entries[0], named, d);
      if |entries| > 1 {
        BodyPasses(entries[1..], named, pad, d);
        PassesConcat(PrintEntry(entries[0]), ",", st, st, st);
        PassesConcat(PrintEntry(entries[0]) + ",", PrintBody(entries[1..], pad), st, st, st);
      }
    }
  }

  lemma {:induction false} PassesScans(s: string, st: State, end: State)
    requires Passes(s, st, end)
    ensures Scan(s, st) == end
  {
    if s != "" {
      PassesScans(s[1..], Next(st, s[0]), end);
    }
  }

  /** A text without top-level commas is one piece. */
  lemma CutWhole(s: string, st: State, end: State)
    requires Passes(s, st, end)
    ensures Cut(s, st) == [s]
  {
    CutAfter(s, "", st, end);
    assert s + "" == s;
  }

  // ---- Reading a printed array back ------------------------------------

  lemma {:induction false} TrimAllConcat(a: seq<string>, b: seq<string>)
    ensures TrimAll(a + b) == TrimAll(a) + TrimAll(b)
  {
    if a == [] {
      assert a + b == b;
    } else {
      assert (a + b)[1..] == a[1..] + b;
      TrimAllConcat(a[1..], b);
    }
  }

  /** A value has no blanks at its ends, and never ends like an array that has just been opened. */
  lemma ValueEnds(v: Value)
    requires Good(v)
    ensures Print(v) != "" && Tight(Print(v), JSON_BLANKS) && Print(v)[|Print(v)| - 1] != '['
  {
    if v.Scalar? {
      ScalarChars(v.text);
      assert IsScalarChar(v.text[0]) && IsScalarChar(v.text[|v.text| - 1]);
    }
  }

  lemma EntryTrims(e: Entry)
    requires GoodEntry(e, false)
    ensures Trim(PrintEntry(e), JSON_BLANKS) == Print(e.value)
    ensures !Blank(PrintEntry(e), JSON_BLANKS)
  {
    assert PrintName(e.name) + e.before == e.before;
    assert PrintEntry(e) == e.before + Print(e.value) + e.after;
    ValueEnds(e.value);
    TrimPadded(e.before, Print(e.value), e.after, JSON_BLANKS);
  }

  lemma CommaNotBlank(a: string, b: string)
    ensures !Blank(a + "," + b, JSON_BLANKS)
  {
    assert (a + "," + b)[|a|] == ',';
  }

  /** Cutting the inside of an array at its top-level commas gives its elements, in order. */
  lemma {:induction false} BodyReadsBack(entries: seq<Entry>, pad: string)
    requires entries != [] && GoodEntries(entries, false)
    ensures TrimAll(Cut(PrintBody(entries, pad), TOP)) == Texts(entries)
    ensures Scan(PrintBody(entries, pad), TOP) == TOP
    ensures !Blank(PrintBody(entries, pad), JSON_BLANKS)
  {
    var head, tail := PrintEntry(entries[0]), PrintBody(entries[1..], pad);
    EntryPasses(entries[0], false, 0);
    CutWhole(head, TOP, TOP);
    PassesScans(head, TOP, TOP);
    EntryTrims(entries[0]);
    if |entries| > 1 {
      BodyReadsBack(entries[1..], pad);
      CutJoin(head, tail, TOP);
      TrimAllConcat([head], Cut(tail, TOP));
      ScanJoin(head, tail);
      CommaNotBlank(head, tail);
    } else {
      assert Texts(entries) == [Print(entries[0].value)] + Texts([]);
    }
  }

  lemma {:induction false} ScanConcat(a: string, b: string, st: State)
    ensures Scan(a + b, st) == Scan(b, Scan(a, st))
  {
    if a == "" {
      assert a + b == b;
    } else {
      assert (a + b)[1..] == a[1..] + b;
      ScanConcat(a[1..], b, Next(st, a[0]));
    }
  }

  lemma ScanJoin(a: string, b: string)
    requires Scan(a, TOP) == TOP
    ensures Scan(a + "," + b, TOP) == Scan(b, TOP)
  {
    ScanConcat(a, ",", TOP);
    assert Scan(",", TOP) == TOP;
    ScanConcat(a + ",", b, TOP);
  }

  lemma BodyOf(before: string, body: string, after: string)
    requires Blank(before, JSON_BLANKS) && Blank(after, JSON_BLANKS)
    ensures Body(before + "[" + body + "]" + after) == Some(body)
  {
    var text := before + "[" + body + "]" + after;
    assert text == before + ("[" + body + "]" + after);
    FirstInBehind(before, {'['}, "[" + body + "]" + after);
    LastInBefore(before + "[" + body + "]", {']'}, after);
    assert text[|before| + 1..|before| + 1 + |body|] == body;
  }

  /** The character-level reader finds exactly the elements of the syntax tree. */
  lemma ReadBack(text: string, entries: seq<Entry>)
    requires IsArrayText(text, entries)
    ensures Elements(text) == Some(Texts(entries))
  {
    var before, pad, after :| IsArrayTextWith(text, before, entries, pad, after);
    var body := PrintBody(entries, pad);
    assert text == before + "[" + body + "]" + after;
    BodyOf(before, body, after);
    if entries != [] {
      BodyReadsBack(entries, pad);
    }
  }
}
