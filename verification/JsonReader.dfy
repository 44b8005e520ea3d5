/** A test that every JSON text passes: its colons stand behind the names of members, its commas behind values, nothing
    but a separator follows a value, no bracket closes behind a comma, and every bracket is closed (sections 2 to 7 of
    RFC 8259). */
module JsonReader {
  import opened Strings
  import opened Json

  /** What is open: an array, an object that waits for a name, or one that waits for a value. */
  datatype Frame = Items | Names | Values

  /** Where the reader is: before a value or a name, before one behind a comma, in or behind a value, right behind a
      string, in a string, or behind a backslash. */
  datatype Place = Starting | Comma | InCode | Closed | InText | Escaping

  datatype Reader = Reader(open: seq<Frame>, place: Place) | Fail

  const START := Reader([], Starting)

  function Top(st: Reader): Frame
    requires st.Reader? && st.open != []
  {
    st.open[|st.open| - 1]
  }

  predicate Tops(st: Reader, frame: Frame) {
    st.Reader? && st.open != [] && Top(st) == frame
  }

  function WithTop(st: Reader, frame: Frame, place: Place): Reader
    requires st.Reader? && st.open != []
  {
    Reader(st.open[..|st.open| - 1] + [frame], place)
  }

  /** A value or a name may start. */
  predicate IsDue(st: Reader)
    requires st.Reader?
  {
    st.place.Starting? || st.place.Comma?
  }

  function InCodeNext(st: Reader, c: char): Reader
    requires st.Reader?
  {
    if c in JSON_BLANKS then if st.place.Closed? then st.(place := InCode) else st
    else if c == '"' || c == '[' || c == '{' then
      if !IsDue(st) then Fail
      else if c == '"' then st.(place := InText)
      else Reader(st.open + [if c == '[' then Items else Names], Starting)
    else if c == ':' then if Tops(st, Names) && !IsDue(st) then WithTop(st, Values, Starting) else Fail
    else if c == ',' then
      if IsDue(st) then Fail
      else if Tops(st, Values) then WithTop(st, Names, Comma)
      else if Tops(st, Items) then st.(place := Comma)
      else Fail
    else if c == ']' || c == '}' then
      if st.open == [] || st.place.Comma? then Fail else Reader(st.open[..|st.open| - 1], InCode)
    else if IsScalarChar(c) && !st.place.Closed? then st.(place := InCode)
    else Fail
  }

  function Advance(st: Reader, c: char): Reader {
    if st.Fail? then Fail
    else
      match st.place
      case Escaping => st.(place := InText)
      case InText => if c == '"' then st.(place := Closed) else if c == '\\' then st.(place := Escaping) else st
      case _ => InCodeNext(st, c)
  }

  /** The reader after a text. */
  function Read(s: string, st: Reader): Reader {
    if s == "" then st else Advance(Read(s[..|s| - 1], st), s[|s| - 1])
  }

  lemma {:induction false} ReadConcat(a: string, b: string, st: Reader)
    ensures Read(a + b, st) == Read(b, Read(a, st))
  {
    if b == "" {
      assert a + b == a;
    } else {
      ReadConcat(a, b[..|b| - 1], st);
      assert (a + b)[..|a + b| - 1] == a + b[..|b| - 1];
    }
  }

  lemma {:induction false} FailStays(s: string)
    ensures Read(s, Fail) == Fail
  {
    if s != "" {
      FailStays(s[..|s| - 1]);
    }
  }

  lemma ReadOne(c: char, st: Reader)
    ensures Read([c], st) == Advance(st, c)
  {
    assert [c][..0] == "";
  }

  // ---- What the parts of a value do ------------------------------------

  /** The reader may start a value or a name. */
  predicate Ready(st: Reader, open: seq<Frame>) {
    st.Reader? && st.open == open && IsDue(st)
  }

  /** The reader is behind a value or a name, or blanks. */
  predicate Ended(st: Reader, open: seq<Frame>) {
    st.Reader? && st.open == open && (st.place.InCode? || st.place.Closed?)
  }

  lemma {:induction false} BlankReady(s: string, st: Reader, open: seq<Frame>)
    requires Blank(s, JSON_BLANKS) && Ready(st, open)
    ensures Ready(Read(s, st), open)
  {
    if s != "" {
      BlankReady(s[..|s| - 1], st, open);
      assert s[|s| - 1] in JSON_BLANKS;
    }
  }

  lemma {:induction false} BlankFresh(s: string, st: Reader)
    requires Blank(s, JSON_BLANKS) && st.Reader? && st.place.Starting?
    ensures Read(s, st) == st
  {
    if s != "" {
      BlankFresh(s[..|s| - 1], st);
      assert s[|s| - 1] in JSON_BLANKS;
    }
  }

  lemma {:induction false} BlankEnded(s: string, st: Reader, open: seq<Frame>)
    requires Blank(s, JSON_BLANKS) && Ended(st, open)
    ensures Ended(Read(s, st), open)
  {
    if s != "" {
      BlankEnded(s[..|s| - 1], st, open);
      assert s[|s| - 1] in JSON_BLANKS;
    }
  }

  lemma {:induction false} ScalarEnds(s: string, st: Reader, open: seq<Frame>)
    requires s != "" && (forall i :: 0 <= i < |s| ==> IsScalarChar(s[i])) && Ready(st, open)
    ensures Read(s, st) == Reader(open, InCode)
  {
    if |s| > 1 {
      ScalarEnds(s[..|s| - 1], st, open);
    } else {
      assert s == [s[0]];
      ReadOne(s[0], st);
    }
    assert IsScalarChar(s[|s| - 1]);
  }

  lemma {:induction false} PlainStays(s: string, open: seq<Frame>)
    requires forall i :: 0 <= i < |s| ==> s[i] != '"' && s[i] != '\\'
    ensures Read(s, Reader(open, InText)) == Reader(open, InText)
  {
    if s != "" {
      PlainStays(s[..|s| - 1], open);
    }
  }

  lemma EscapeStays(c: char, open: seq<Frame>)
    ensures Read(['\\', c], Reader(open, InText)) == Reader(open, InText)
  {
    var st := Reader(open, InText);
    assert ['\\', c] == ['\\'] + [c];
    ReadConcat(['\\'], [c], st);
    ReadOne('\\', st);
    ReadOne(c, Reader(open, Escaping));
  }

  lemma UnicodeStays(digits: string, open: seq<Frame>)
    requires GoodPart(Unicode(digits))
    ensures Read("\\u" + digits, Reader(open, InText)) == Reader(open, InText)
  {
    ReadConcat("\\u", digits, Reader(open, InText));
    EscapeStays('u', open);
    assert "\\u" == ['\\', 'u'];
    forall i | 0 <= i < |digits| ensures digits[i] != '"' && digits[i] != '\\' {
      assert IsHexDigit(digits[i]);
    }
    PlainStays(digits, open);
  }

  lemma PartStays(p: Part, open: seq<Frame>)
    requires GoodPart(p)
    ensures Read(PartText(p), Reader(open, InText)) == Reader(open, InText)
  {
    match p
    case Plain(c) => PlainStays([c], open);
    case Escape(c) => EscapeStays(c, open);
    case Unicode(digits) => UnicodeStays(digits, open);
  }

  lemma {:induction false} PartsStay(parts: seq<Part>, open: seq<Frame>)
    requires GoodParts(parts)
    ensures Read(PrintParts(parts), Reader(open, InText)) == Reader(open, InText)
  {
    if parts != [] {
      assert GoodPart(parts[0]);
      PartsStay(parts[1..], open);
      PartStays(parts[0], open);
      ReadConcat(PartText(parts[0]), PrintParts(parts[1..]), Reader(open, InText));
    }
  }

  lemma QuoteCloses(parts: seq<Part>, st: Reader, open: seq<Frame>)
    requires GoodParts(parts) && Ready(st, open)
    ensures Read(Quote(parts), st) == Reader(open, Closed)
  {
    ReadConcat("\"" + PrintParts(parts), "\"", st);
    ReadConcat("\"", PrintParts(parts), st);
    ReadOne('"', st);
    PartsStay(parts, open);
    ReadOne('"', Reader(open, InText));
  }

  // ---- Values ----------------------------------------------------------

  lemma ReadName(name: Name, st: Reader, open: seq<Frame>)
    requires name.Name? && Blank(name.before, JSON_BLANKS) && GoodParts(name.parts) && Blank(name.after, JSON_BLANKS)
    requires Ready(st, open + [Names])
    ensures Read(PrintName(name), st) == Reader(open + [Values], Starting)
  {
    hide Read;
    var st1 := Read(name.before, st);
    BlankReady(name.before, st, open + [Names]);
    QuoteCloses(name.parts, st1, open + [Names]);
    var st2 := Reader(open + [Names], Closed);
    BlankEnded(name.after, st2, open + [Names]);
    ReadConcat(name.before, Quote(name.parts), st);
    ReadConcat(name.before + Quote(name.parts), name.after, st);
    ReadConcat(name.before + Quote(name.parts) + name.after, ":", st);
    ReadOne(':', Read(name.after, st2));
  }

  /** A well-formed value can be read at any place where one may start. */
  lemma {:induction false} ReadValue(v: Value, st: Reader, open: seq<Frame>)
    requires Good(v) && Ready(st, open)
    ensures Ended(Read(Print(v), st), open)
    decreases v, 1
  {
    match v {
      case Scalar(text) => ScalarChars(text); ScalarEnds(text, st, open);
      case Str(parts) => QuoteCloses(parts, st, open);
      case Array(entries, pad) =>
        ReadBody(entries, false, pad, Reader(open + [Items], Starting), open);
        ReadBrackets("[", PrintBody(entries, pad), "]", st, open);
      case Object(entries, pad) =>
        ReadBody(entries, true, pad, Reader(open + [Names], Starting), open);
        ReadBrackets("{", PrintBody(entries, pad), "}", st, open);
    }
  }

  function Waiting(named: bool): Frame {
    if named then Names else Items
  }

  function Filled(named: bool): Frame {
    if named then Values else Items
  }

  /** A bracket may close. */
  predicate Closable(st: Reader, open: seq<Frame>) {
    st.Reader? && st.open == open && (st.place.Starting? || st.place.InCode? || st.place.Closed?)
  }

  lemma Closing(st: Reader, open: seq<Frame>, frame: Frame, close: string)
    requires Closable(st, open + [frame]) && (close == "]" || close == "}")
    ensures Read(close, st) == Reader(open, InCode)
  {
    ReadOne(close[0], st);
    assert close == [close[0]];
  }

  lemma ReadBrackets(left: string, body: string, right: string, st: Reader, open: seq<Frame>)
    requires (left == "[" && right == "]") || (left == "{" && right == "}")
    requires Ready(st, open)
    requires exists frame :: Closable(Read(body, Reader(open + [Waiting(left == "{")], Starting)), open + [frame])
    ensures Read(left + body + right, st) == Reader(open, InCode)
  {
    var start := Reader(open + [Waiting(left == "{")], Starting);
    var frame :| Closable(Read(body, start), open + [frame]);
    assert left == [left[0]];
    ReadOne(left[0], st);
    ReadConcat(left, body, st);
    ReadConcat(left + body, right, st);
    Closing(Read(body, start), open, frame, right);
  }

  lemma {:induction false} ReadEntry(e: Entry, named: bool, st: Reader, open: seq<Frame>)
    requires GoodEntry(e, named) && Ready(st, open + [Waiting(named)])
    ensures Ended(Read(PrintEntry(e), st), open + [Filled(named)])
    decreases e, 2
  {
    var all := open + [Filled(named)];
    var st1 := Read(PrintName(e.name), st);
    if named {
      ReadName(e.name, st, open);
    }
    var st2 := Read(e.before, st1);
    BlankReady(e.before, st1, all);
    var st3 := Read(Print(e.value), st2);
    ReadValue(e.value, st2, all);
    BlankEnded(e.after, st3, all);
    ReadConcat(PrintName(e.name), e.before, st);
    ReadConcat(PrintName(e.name) + e.before, Print(e.value), st);
    ReadConcat(PrintName(e.name) + e.before + Print(e.value), e.after, st);
  }

  lemma CommaReady(st: Reader, open: seq<Frame>, named: bool)
    requires Ended(st, open + [Filled(named)])
    ensures Ready(Read(",", st), open + [Waiting(named)])
  {
    ReadOne(',', st);
  }

  lemma {:induction false} ReadEntries(entries: seq<Entry>, named: bool, pad: string, st: Reader, open: seq<Frame>)
    requires entries != [] && GoodEntries(entries, named) && Ready(st, open + [Waiting(named)])
    ensures Ended(Read(PrintBody(entries, pad), st), open + [Filled(named)])
    decreases entries, 3
  {
    ReadEntry(entries[0], named, st, open);
    if |entries| > 1 {
      var head, tail := PrintEntry(entries[0]), PrintBody(entries[1..], pad);
      var st1 := Read(head, st);
      CommaReady(st1, open, named);
      ReadEntries(entries[1..], named, pad, Read(",", st1), open);
      ReadConcat(head, ",", st);
      ReadConcat(head + ",", tail, st);
    }
  }

  lemma {:induction false} ReadBody(entries: seq<Entry>, named: bool, pad: string, st: Reader, open: seq<Frame>)
    requires GoodEntries(entries, named) && Blank(pad, JSON_BLANKS) && st == Reader(open + [Waiting(named)], Starting)
    ensures exists frame :: Closable(Read(PrintBody(entries, pad), st), open + [frame])
    decreases entries, 4
  {
    if entries == [] {
      BlankFresh(pad, st);
    } else {
      ReadEntries(entries, named, pad, st, open);
    }
  }

  // ---- Texts -----------------------------------------------------------

  /** A JSON text: a value, and blanks around it. */
  ghost predicate IsJson(text: string) {
    exists before, v, after :: IsJsonWith(text, before, v, after)
  }

  predicate IsJsonWith(text: string, before: string, v: Value, after: string) {
    && Good(v) && Blank(before, JSON_BLANKS) && Blank(after, JSON_BLANKS)
    && text == before + Print(v) + after
  }

  /** Every JSON text can be read, and leaves nothing open. */
  lemma JsonReads(text: string)
    requires IsJson(text)
    ensures Ended(Read(text, START), [])
  {
    var before, v, after :| IsJsonWith(text, before, v, after);
    BlankReady(before, START, []);
    ReadValue(v, Read(before, START), []);
    BlankEnded(after, Read(Print(v), Read(before, START)), []);
    ReadConcat(before, Print(v), START);
    ReadConcat(before + Print(v), after, START);
  }

  /** A text that starts like one that cannot be read is no JSON. */
  lemma NotJson(text: string, front: string, rest: string)
    requires text == front + rest && Read(front, START).Fail?
    ensures !IsJson(text)
  {
    ReadConcat(front, rest, START);
    FailStays(rest);
    if IsJson(text) {
      JsonReads(text);
    }
  }
}
