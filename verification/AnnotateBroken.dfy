/** What becomes of a JSON file when `inject_json_kv` does not put its key where the name of a member may stand. */
module AnnotateBroken {
  import opened Wrappers
  import opened Strings
  import opened Json
  import opened JsonReader
  import opened Annotate
  import opened AnnotateRuns
  import opened AnnotateJson
  import opened AnnotateFallback
  import opened AnnotateExact

  /** The reader waits for a name, or is behind a backslash in one. */
  predicate NamesNext(st: Reader) {
    Tops(st, Names) && (IsDue(st) || st.place.Escaping?)
  }

  // ---- A piece needs a name to be due ----------------------------------

  lemma KeyStays(key: string, open: seq<Frame>)
    requires forall i :: 0 <= i < |key| ==> IsNameChar(key[i])
    ensures Read(key, Reader(open, InText)) == Reader(open, InText)
  {
    PlainStays(key, open);
  }

  lemma KeyFails(key: string, open: seq<Frame>)
    requires IsIdentifier(key)
    ensures Read(key, Reader(open, Closed)).Fail?
  {
    assert key == [key[0]] + key[1..] && IsNameChar(key[0]);
    ReadConcat([key[0]], key[1..], Reader(open, Closed));
    ReadOne(key[0], Reader(open, Closed));
    FailStays(key[1..]);
  }

  lemma QuotedReads(key: string, st: Reader)
    ensures Read(Quoted(key), st) == Advance(Read(key, Advance(st, '"')), '"')
  {
    ReadConcat("\"" + key, "\"", st);
    ReadConcat("\"", key, st);
    ReadOne('"', st);
    ReadOne('"', Read(key, Advance(st, '"')));
  }

  /** Where no name is due, a quoted key cannot be followed by a colon. */
  lemma HeadFails(key: string, st: Reader)
    requires IsIdentifier(key) && !NamesNext(st)
    ensures Read(Quoted(key) + ":", st).Fail?
  {
    QuotedReads(key, st);
    ReadConcat(Quoted(key), ":", st);
    ReadOne(':', Read(Quoted(key), st));
    if st.Fail? {
      FailStays(key);
    } else if st.place.InText? {
      KeyFails(key, st.open);
    } else if st.place.Closed? || st.place.InCode? {
      FailStays(key);
    } else {
      KeyStays(key, st.open);
    }
  }

  lemma PieceFails(note: Note, st: Reader)
    requires IsIdentifier(note.key) && !NamesNext(st)
    ensures Read(NotePiece(note), st).Fail?
  {
    var head, rest := Quoted(note.key) + ":", " " + note.Literal() + ", ";
    assert NotePiece(note) == head + rest;
    HeadFails(note.key, st);
    ReadConcat(head, rest, st);
    FailStays(rest);
  }

  lemma PieceBreaks(a: string, note: Note, b: string)
    requires IsIdentifier(note.key) && !NamesNext(Read(a, START))
    ensures !IsJson(a + NotePiece(note) + b)
  {
    PieceFails(note, Read(a, START));
    ReadConcat(a, NotePiece(note), START);
    NotJson(a + NotePiece(note) + b, a + NotePiece(note), b);
  }

  /** An injection that leaves a JSON text has put its piece where a name is due, or behind a backslash in one. */
  lemma InjectionNeedsName(text: string, note: Note)
    requires IsNew(text, note) && InsertionPoint(text).Some? && IsJson(Injection(text, note))
    ensures NamesNext(Read(text[..InsertionPoint(text).value], START))
  {
    var p := InsertionPoint(text).value;
    InjectedIs(text, note.key, note.Literal());
    if !NamesNext(Read(text[..p], START)) {
      PieceBreaks(text[..p], note, text[p..]);
    }
  }

  // ---- The fallback behind a '[' ---------------------------------------

  /** In an array, or in a string. */
  predicate NoNameHere(st: Reader) {
    st.Fail? || st.place.InText? || (Tops(st, Items) && IsDue(st))
  }

  lemma OpeningHides(st: Reader)
    ensures NoNameHere(Advance(st, '['))
  {
  }

  lemma {:induction false} BlanksHide(blanks: string, st: Reader)
    requires Blank(blanks, ALL_BLANKS) && NoNameHere(st)
    ensures NoNameHere(Read(blanks, st))
  {
    if blanks != "" {
      BlanksHide(blanks[..|blanks| - 1], st);
      assert blanks[|blanks| - 1] in ALL_BLANKS;
    }
  }

  /** The text up to the insertion point ends with the first '[' and blanks. */
  lemma FallbackFront(text: string) returns (front: string, blanks: string, p: nat)
    requires Find(text, ANCHOR, 0) == None && '[' in text
    ensures InsertionPoint(text) == Some(p) && p <= |text| && text[..p] == front + "[" + blanks
    ensures Blank(blanks, ALL_BLANKS)
  {
    NotInBefore(text, {'['}, 0);
    var b := FirstIn(text, {'['}, 0).value;
    p := SkipBlanks(text, b + 1);
    BlanksSkipped(text, b + 1);
    front, blanks := text[..b], text[b + 1..p];
  }

  lemma FallbackHides(text: string, p: nat)
    requires Find(text, ANCHOR, 0) == None && '[' in text && InsertionPoint(text) == Some(p)
    ensures p <= |text| && !NamesNext(Read(text[..p], START))
  {
    hide OccursAt, Read;
    var front, blanks, q := FallbackFront(text);
    ReadConcat(front, "[", START);
    ReadOne('[', Read(front, START));
    OpeningHides(Read(front, START));
    ReadConcat(front + "[", blanks, START);
    BlanksHide(blanks, Read(front + "[", START));
  }

  lemma PiecesBreak(a: string, notes: seq<Note>, b: string)
    requires notes != [] && IsIdentifier(notes[0].key) && !NamesNext(Read(a, START))
    ensures !IsJson(a + Pieces(notes) + b)
  {
    var rest := Pieces(notes[1..]);
    assert notes == [notes[0]] + notes[1..];
    PiecesOne(notes[0]);
    PiecesConcat([notes[0]], notes[1..]);
    PieceBreaks(a, notes[0], rest + b);
    PieceApart(a, NotePiece(notes[0]), rest, b);
  }

  lemma PieceApart(a: string, piece: string, more: string, b: string)
    ensures a + (piece + more) + b == a + piece + (more + b)
  {
  }

  /** Where no name is due, no list of keys can be injected without breaking the text. */
  lemma InjectionsBreak(text: string, p: nat, notes: seq<Note>)
    requires Fresh(text, notes) && notes != [] && InsertionPoint(text) == Some(p)
    requires p <= |text| && !NamesNext(Read(text[..p], START))
    ensures !IsJson(InjectAll(text, notes))
  {
    var order := Standing(text, notes, p);
    assert order[0] in notes;
    PiecesBreak(text[..p], order, text[p..]);
  }

  /** A text without an anchor that holds a '[' is no JSON once any keys have been injected: they stand among the
      elements of an array, or end a string. */
  lemma FallbackBreaks(text: string, notes: seq<Note>)
    requires Find(text, ANCHOR, 0) == None && '[' in text && Fresh(text, notes) && notes != []
    ensures !IsJson(InjectAll(text, notes))
  {
    var front, blanks, p := FallbackFront(text);
    FallbackHides(text, p);
    InjectionsBreak(text, p, notes);
  }

  // ---- Texts without members -------------------------------------------

  /** Numbers and literals hold nothing to insert at, so the file stays as it is. */
  lemma ScalarUnchanged(text: string, lead: string, v: Value, trail: string, note: Note)
    requires IsPrinted(text, lead, v, trail) && v.Scalar?
    ensures InsertionPoint(text) == None && Injection(text, note) == text
  {
    ScalarChars(v.text);
    forall i | 0 <= i < |text| ensures text[i] !in {'"', '[', '{'} {
      if i < |lead| {
        assert text[i] == lead[i];
      } else if i < |lead| + |v.text| {
        assert text[i] == v.text[i - |lead|] && IsScalarChar(v.text[i - |lead|]);
      } else {
        assert text[i] == trail[i - |lead| - |v.text|];
      }
    }
    NothingThere(text);
  }

  lemma NothingThere(text: string)
    requires forall i :: 0 <= i < |text| ==> text[i] !in {'"', '[', '{'}
    ensures InsertionPoint(text) == None
  {
    NoAnchorThere(text);
  }

  lemma NoAnchorThere(text: string)
    requires forall i :: 0 <= i < |text| ==> text[i] != '"'
    ensures Find(text, ANCHOR, 0) == None
  {
    if Find(text, ANCHOR, 0).Some? {
      AnchorStarts(text, Find(text, ANCHOR, 0).value);
    }
  }

  predicate Inside(st: Reader, open: seq<Frame>) {
    st.Reader? && st.open == open && (st.place.InText? || st.place.Escaping?)
  }

  lemma DigitsInside(digits: string, k: nat, open: seq<Frame>)
    requires k <= |digits| && GoodPart(Unicode(digits))
    ensures Read("\\u" + digits[..k], Reader(open, InText)) == Reader(open, InText)
  {
    ReadConcat("\\u", digits[..k], Reader(open, InText));
    EscapeStays('u', open);
    assert "\\u" == ['\\', 'u'];
    forall i | 0 <= i < k ensures digits[..k][i] != '"' && digits[..k][i] != '\\' {
      assert IsHexDigit(digits[i]);
    }
    PlainStays(digits[..k], open);
  }

  lemma PartInside(p: Part, k: nat, open: seq<Frame>)
    requires GoodPart(p) && k <= |PartText(p)|
    ensures Inside(Read(PartText(p)[..k], Reader(open, InText)), open)
  {
    var text, st := PartText(p), Reader(open, InText);
    if k == 0 {
      assert text[..0] == "";
    } else if k == |text| {
      assert text[..k] == text;
      PartStays(p, open);
    } else if k == 1 {
      assert text[..1] == ['\\'];
      ReadOne('\\', st);
    } else {
      assert text[..k] == "\\u" + p.digits[..k - 2];
      DigitsInside(p.digits, k - 2, open);
    }
  }

  /** Anywhere in the parts of a string, the reader is in the string. */
  lemma {:induction false} PartsInside(parts: seq<Part>, k: nat, open: seq<Frame>)
    requires GoodParts(parts) && k <= |PrintParts(parts)|
    ensures Inside(Read(PrintParts(parts)[..k], Reader(open, InText)), open)
  {
    hide PartText;
    if parts == [] {
      assert PrintParts(parts)[..k] == "";
    } else {
      var head, tail := PartText(parts[0]), PrintParts(parts[1..]);
      assert PrintParts(parts) == head + tail && GoodPart(parts[0]);
      if k <= |head| {
        assert PrintParts(parts)[..k] == head[..k];
        PartInside(parts[0], k, open);
      } else {
        assert PrintParts(parts)[..k] == head + tail[..k - |head|];
        ReadConcat(head, tail[..k - |head|], Reader(open, InText));
        PartStays(parts[0], open);
        PartsInside(parts[1..], k - |head|, open);
      }
    }
  }

  /** In a string the reader has the same things open as before it. */
  lemma QuoteState(parts: seq<Part>, k: nat, st: Reader, open: seq<Frame>)
    requires GoodParts(parts) && Ready(st, open) && k < |Quote(parts)|
    ensures k == 0 ==> Read(Quote(parts)[..k], st) == st
    ensures k > 0 ==> Inside(Read(Quote(parts)[..k], st), open)
    ensures k > 0 ==> Read(Quote(parts)[..k], st) == Read(PrintParts(parts)[..k - 1], Reader(open, InText))
  {
    hide PrintParts;
    if k == 0 {
      assert Quote(parts)[..0] == "";
    } else {
      assert Quote(parts)[..k] == "\"" + PrintParts(parts)[..k - 1];
      ReadConcat("\"", PrintParts(parts)[..k - 1], st);
      ReadOne('"', st);
      PartsInside(parts, k - 1, open);
    }
  }

  lemma StartReady()
    ensures Ready(START, [])
  {
  }

  lemma NoObjectOpen(st: Reader)
    requires Ready(st, []) || Inside(st, []) || st == Reader([], Closed)
    ensures !NamesNext(st)
  {
  }

  /** Up to the end of a string that stands alone, no object is open. */
  lemma QuoteInside(lead: string, parts: seq<Part>, k: nat)
    requires GoodParts(parts) && Blank(lead, JSON_BLANKS) && k <= |Quote(parts)|
    ensures !NamesNext(Read(lead + Quote(parts)[..k], START))
  {
    hide *;
    var st := Read(lead, START);
    StartReady();
    BlankReady(lead, START, []);
    ReadConcat(lead, Quote(parts)[..k], START);
    if k < |Quote(parts)| {
      QuoteState(parts, k, st, []);
    } else {
      assert Quote(parts)[..k] == Quote(parts);
      QuoteCloses(parts, st, []);
    }
    NoObjectOpen(Read(Quote(parts)[..k], st));
  }

  /** In a text that is a string, the place is in the string, before it, or before its last quote. */
  lemma StringPlace(text: string, lead: string, parts: seq<Part>, trail: string, p: nat)
    requires text == lead + Quote(parts) + trail && Blank(lead, JSON_BLANKS) && Blank(trail, JSON_BLANKS)
    requires InsertionPoint(text) == Some(p)
    ensures |lead| <= p < |lead| + |Quote(parts)|
  {
    hide Bracket, Find;
    var last := |lead| + |Quote(parts)| - 1;
    assert text[last] == '"';
    forall i | 0 <= i < |text| && (i < |lead| || last < i) ensures text[i] in JSON_BLANKS {
      if i < |lead| {
        assert text[i] == lead[i];
      } else {
        assert text[i] == trail[i - last - 1];
      }
    }
    if Find(text, ANCHOR, 0).Some? {
      AnchorStarts(text, p);
    } else {
      var b := FallbackPoint(text);
    }
  }

  lemma FrontText(lead: string, body: string, trail: string, k: nat)
    requires k <= |body|
    ensures (lead + body + trail)[..|lead| + k] == lead + body[..k]
  {
  }

  lemma AllUnchanged(text: string, notes: seq<Note>)
    requires InsertionPoint(text) == None
    ensures InjectAll(text, notes) == text
  {
    if notes != [] {
      AllUnchanged(text, notes[..|notes| - 1]);
    }
  }

  lemma OnlyNote(text: string, note: Note)
    ensures InjectAll(text, [note]) == Injection(text, note)
  {
    assert [note][..0] == [];
  }

  lemma StringBreaks(text: string, lead: string, parts: seq<Part>, trail: string, notes: seq<Note>, p: nat)
    requires text == lead + Quote(parts) + trail && Blank(lead, JSON_BLANKS) && Blank(trail, JSON_BLANKS)
    requires GoodParts(parts) && Fresh(text, notes) && notes != [] && InsertionPoint(text) == Some(p)
    ensures !IsJson(InjectAll(text, notes))
  {
    hide *;
    StringPlace(text, lead, parts, trail, p);
    FrontText(lead, Quote(parts), trail, p - |lead|);
    QuoteInside(lead, parts, p - |lead|);
    InjectionsBreak(text, p, notes);
  }

  /** A text that is a string stays JSON only by staying as it is: if and only if it holds neither an anchor nor a
      bracket. */
  lemma StringStaysIff(text: string, lead: string, v: Value, trail: string, notes: seq<Note>)
    requires IsPrinted(text, lead, v, trail) && v.Str? && AreNew(text, notes) && notes != []
    ensures IsJson(InjectAll(text, notes)) <==> InsertionPoint(text) == None
    ensures InsertionPoint(text) == None ==> InjectAll(text, notes) == text
  {
    if InsertionPoint(text).Some? {
      StringBreaks(text, lead, v.parts, trail, notes, InsertionPoint(text).value);
    } else {
      AllUnchanged(text, notes);
      assert IsJsonWith(text, lead, v, trail);
    }
  }

  // ---- Empty objects ---------------------------------------------------

  /** Behind a piece stands a comma, so a member has to follow. */
  lemma PieceReads(note: Note, st: Reader, open: seq<Frame>)
    requires IsIdentifier(note.key) && Ready(st, open + [Names])
    ensures Read(NotePiece(note), st) == Reader(open + [Names], Comma)
  {
    var key, literal := note.key, note.Literal();
    IntegerIsScalar(note.value);
    ScalarChars(literal);
    PlainPrints(key);
    forall i | 0 <= i < |key| ensures GoodPart(Plain(key[i])) {
      assert IsNameChar(key[i]);
    }
    QuoteCloses(PlainParts(key), st, open + [Names]);
    assert Quote(PlainParts(key)) == Quoted(key);
    var st1 := Reader(open + [Names], Closed);
    ReadConcat(Quoted(key), ": " + literal + ", ", st);
    ReadConcat(": " + literal, ", ", st1);
    ReadConcat(": ", literal, st1);
    Separator(open);
    ScalarEnds(literal, Reader(open + [Values], Starting), open + [Values]);
    CommaAndBlank(open);
  }

  lemma Separator(open: seq<Frame>)
    ensures Read(": ", Reader(open + [Names], Closed)) == Reader(open + [Values], Starting)
  {
    assert ": " == [':'] + [' '];
    ReadConcat([':'], [' '], Reader(open + [Names], Closed));
    ReadOne(':', Reader(open + [Names], Closed));
    ReadOne(' ', Reader(open + [Values], Starting));
  }

  lemma CommaAndBlank(open: seq<Frame>)
    ensures Read(", ", Reader(open + [Values], InCode)) == Reader(open + [Names], Comma)
  {
    assert ", " == [','] + [' '];
    ReadConcat([','], [' '], Reader(open + [Values], InCode));
    ReadOne(',', Reader(open + [Values], InCode));
    ReadOne(' ', Reader(open + [Names], Comma));
  }

  lemma {:induction false} PiecesRead(notes: seq<Note>, st: Reader, open: seq<Frame>)
    requires Identifiers(notes) && notes != [] && Ready(st, open + [Names])
    ensures Read(Pieces(notes), st) == Reader(open + [Names], Comma)
  {
    var n := |notes| - 1;
    ReadConcat(Pieces(notes[..n]), NotePiece(notes[n]), st);
    if n > 0 {
      PiecesRead(notes[..n], st, open);
    } else {
      assert Pieces(notes[..n]) == "";
    }
    PieceReads(notes[n], Read(Pieces(notes[..n]), st), open);
  }

  lemma EmptyOpened(lead: string, pad: string)
    requires Blank(lead, JSON_BLANKS) && Blank(pad, JSON_BLANKS)
    ensures Ready(Read(lead + "{" + pad, START), [] + [Names])
  {
    BlankReady(lead, START, []);
    ReadConcat(lead, "{", START);
    ReadOne('{', Read(lead, START));
    ReadConcat(lead + "{", pad, START);
    BlankReady(pad, Reader([] + [Names], Starting), [] + [Names]);
  }

  /** No brace may close behind the comma of the last piece. */
  lemma EmptyFront(a: string, notes: seq<Note>)
    requires Ready(Read(a, START), [] + [Names]) && Identifiers(notes) && notes != []
    ensures Read(a + Pieces(notes) + "}", START).Fail?
  {
    hide Read;
    ReadConcat(a, Pieces(notes), START);
    PiecesRead(notes, Read(a, START), []);
    ReadConcat(a + Pieces(notes), "}", START);
    ReadOne('}', Reader([] + [Names], Comma));
  }

  lemma EmptyPlace(text: string, lead: string, pad: string, trail: string)
    requires text == lead + "{" + pad + "}" + trail
    requires Blank(lead, JSON_BLANKS) && Blank(pad, JSON_BLANKS) && Blank(trail, JSON_BLANKS)
    ensures InsertionPoint(text) == Some(|lead| + 1 + |pad|)
  {
    var open, close := |lead|, |lead| + 1 + |pad|;
    assert text[open] == '{' && text[close] == '}';
    forall i | 0 <= i < |text| && i != open && i != close ensures text[i] in JSON_BLANKS {
      if i < open {
        assert text[i] == lead[i];
      } else if i < close {
        assert text[i] == pad[i - open - 1];
      } else {
        assert text[i] == trail[i - close - 1];
      }
    }
    NoAnchorThere(text);
    FirstInIs(text, {'{'}, 0, open);
    SkipBlanksIs(text, open + 1, close);
    PointIs(text, open, close);
  }

  lemma EmptyCut(text: string, lead: string, pad: string, trail: string)
    requires text == lead + "{" + pad + "}" + trail
    ensures text[..|lead| + 1 + |pad|] == lead + "{" + pad && text[|lead| + 1 + |pad|..] == "}" + trail
  {
  }

  lemma EmptyStands(text: string, lead: string, pad: string, trail: string, notes: seq<Note>) returns (order: seq<Note>)
    requires text == lead + "{" + pad + "}" + trail && AreNew(text, notes) && notes != []
    requires Blank(lead, JSON_BLANKS) && Blank(pad, JSON_BLANKS) && Blank(trail, JSON_BLANKS)
    ensures order != [] && Identifiers(order)
    ensures InjectAll(text, notes) == (lead + "{" + pad) + Pieces(order) + ("}" + trail)
  {
    hide IsIdentifier, Pieces, SkipBlanks;
    EmptyPlace(text, lead, pad, trail);
    EmptyCut(text, lead, pad, trail);
    order := Standing(text, notes, |lead| + 1 + |pad|);
    forall i | 0 <= i < |order| ensures IsIdentifier(order[i].key) {
      assert order[i] in notes;
    }
  }

  lemma EmptyBreaks(text: string, front: string, trail: string)
    requires text == front + ("}" + trail) && Read(front + "}", START).Fail?
    ensures !IsJson(text)
  {
    assert text == (front + "}") + trail;
    NotJson(text, front + "}", trail);
  }

  /** An empty object is no JSON any more: a comma is left behind the last new member. */
  lemma EmptyObjectBreaks(text: string, lead: string, pad: string, trail: string, notes: seq<Note>)
    requires text == lead + "{" + pad + "}" + trail && AreNew(text, notes) && notes != []
    requires Blank(lead, JSON_BLANKS) && Blank(pad, JSON_BLANKS) && Blank(trail, JSON_BLANKS)
    ensures !IsJson(InjectAll(text, notes))
  {
    var order := EmptyStands(text, lead, pad, trail, notes);
    EmptyOpened(lead, pad);
    EmptyFront(lead + "{" + pad, order);
    EmptyBreaks(InjectAll(text, notes), (lead + "{" + pad) + Pieces(order), trail);
  }

  // ---- Examples --------------------------------------------------------

  /** The array ["duration"], where the first anchor is an element, is no JSON any more. */
  lemma AnchorElementBreaks(note: Note)
    requires IsNew("[" + ANCHOR + "]", note)
    ensures !IsJson(Injection("[" + ANCHOR + "]", note))
  {
    var text := "[" + ANCHOR + "]";
    assert text[1..1 + |ANCHOR|] == ANCHOR;
    assert text[0] == '[' && text[0..0 + |ANCHOR|][0] == text[0];
    FindIs(text, ANCHOR, 1);
    assert text[..1] == ['['];
    ReadOne('[', START);
    if IsJson(Injection(text, note)) {
      InjectionNeedsName(text, note);
    }
  }

  const NAME_FRONT: string := "{\"name\": "

  /** An object whose first anchor is a value, like {"name": "duration", "duration": 5}. */
  lemma AnchorValueBreaks(rest: string, note: Note)
    requires IsNew(NAME_FRONT + ANCHOR + rest, note)
    ensures !IsJson(Injection(NAME_FRONT + ANCHOR + rest, note))
  {
    var text := NAME_FRONT + ANCHOR + rest;
    FirstAnchor(rest);
    assert text[..|NAME_FRONT|] == NAME_FRONT;
    ValueNext();
    if IsJson(Injection(text, note)) {
      InjectionNeedsName(text, note);
    }
  }

  lemma ValueNext()
    ensures Read(NAME_FRONT, START) == Reader([Values], Starting)
  {
    hide Read;
    var front := "{" + Quoted("name");
    assert NAME_FRONT == front + ": ";
    ReadConcat(front, ": ", START);
    ReadConcat("{", Quoted("name"), START);
    ReadOne('{', START);
    QuotedReads("name", Reader([Names], Starting));
    KeyStays("name", [Names]);
    assert [] + [Names] == [Names] && [] + [Values] == [Values];
    Separator([]);
  }

  lemma FirstAnchor(rest: string)
    ensures Find(NAME_FRONT + ANCHOR + rest, ANCHOR, 0) == Some(|NAME_FRONT|)
  {
    var text := NAME_FRONT + ANCHOR + rest;
    assert text[|NAME_FRONT|..|NAME_FRONT| + |ANCHOR|] == ANCHOR;
    forall i | 0 <= i < |NAME_FRONT| ensures !OccursAt(text, ANCHOR, i) {
      NotEarlier(text, i);
    }
    FindIs(text, ANCHOR, |NAME_FRONT|);
  }

  lemma NotEarlier(text: string, i: nat)
    requires NAME_FRONT <= text && i < |NAME_FRONT|
    ensures !OccursAt(text, ANCHOR, i)
  {
    assert text[..9] == NAME_FRONT;
    assert forall k :: 0 <= k < 9 && k != 1 && k != 6 ==> NAME_FRONT[k] != '"';
    assert text[2] == NAME_FRONT[2] && text[7] == NAME_FRONT[7];
    if OccursAt(text, ANCHOR, i) {
      AnchorStarts(text, i);
    }
  }

  /** The empty object {} becomes {"k": 1, }. */
  lemma EmptyExample(note: Note)
    requires IsIdentifier(note.key)
    ensures !IsJson(Injection("{}", note))
  {
    assert "{}" == "" + "{" + "" + "}" + "";
    KeyTooLong(note.key);
    EmptyObjectBreaks("{}", "", "", "", [note]);
    OnlyNote("{}", note);
  }

  lemma KeyTooLong(key: string)
    requires key != ""
    ensures !Contains("{}", Quoted(key))
  {
    assert |Quoted(key)| > 2;
  }
}
