/** Where `inject_json_kv` may put a key into a JSON text: only at the name of a member. */
module AnnotateLocate {
  import opened Wrappers
  import opened Strings
  import opened Json
  import opened JsonReader
  import opened Annotate
  import opened AnnotateRuns
  import opened AnnotateJson
  import opened AnnotateExact
  import opened AnnotateBroken

  // ---- Places where a name is due --------------------------------------

  /** At position `k` a quote stands where a name is due, or a character behind a backslash in a name. */
  predicate Due(s: string, k: nat, st: Reader) {
    k < |s|
    && var r := Read(s[..k], st);
       Tops(r, Names) && (r.place.Escaping? || (IsDue(r) && s[k] == '"'))
  }

  lemma DueConcat(a: string, b: string, k: nat, st: Reader)
    requires Due(a + b, k, st)
    ensures if k < |a| then Due(a, k, st) else Due(b, k - |a|, Read(a, st))
  {
    if k < |a| {
      assert (a + b)[..k] == a[..k];
    } else {
      assert (a + b)[..k] == a + b[..k - |a|];
      ReadConcat(a, b[..k - |a|], st);
    }
  }

  /** No name is due in the text. */
  ghost predicate NotDue(s: string, st: Reader) {
    forall k: nat :: !Due(s, k, st)
  }

  lemma DueAhead(a: string, b: string, k: nat, st: Reader)
    requires Due(a + b, k, st) && NotDue(b, Read(a, st))
    ensures k < |a| && Due(a, k, st)
  {
    DueConcat(a, b, k, st);
  }

  lemma DueBehind(a: string, b: string, k: nat, st: Reader)
    requires Due(a + b, k, st) && NotDue(a, st)
    ensures k >= |a| && Due(b, k - |a|, Read(a, st))
  {
    DueConcat(a, b, k, st);
  }

  lemma BlankNotDue(s: string, st: Reader, open: seq<Frame>)
    requires Blank(s, JSON_BLANKS) && (Ready(st, open) || Ended(st, open))
    ensures NotDue(s, st)
  {
    forall k: nat | k < |s| ensures !Due(s, k, st) {
      assert s[k] in JSON_BLANKS;
      assert Blank(s[..k], JSON_BLANKS);
      if Ready(st, open) { BlankReady(s[..k], st, open); } else { BlankEnded(s[..k], st, open); }
    }
  }

  lemma CharNotDue(c: char, st: Reader)
    requires c != '"' && st.Reader? && !st.place.Escaping?
    ensures NotDue([c], st)
  {
    assert [c][..0] == "";
  }

  predicate NamesNotDue(open: seq<Frame>) {
    open == [] || open[|open| - 1] != Names
  }

  lemma ScalarNotDue(s: string, st: Reader, open: seq<Frame>)
    requires (forall i :: 0 <= i < |s| ==> IsScalarChar(s[i])) && Ready(st, open) && NamesNotDue(open)
    ensures NotDue(s, st)
  {
    forall k: nat | k < |s| ensures !Due(s, k, st) {
      if k > 0 {
        ScalarEnds(s[..k], st, open);
      } else {
        assert s[..0] == "";
      }
    }
  }

  lemma QuoteNotDueAt(parts: seq<Part>, k: nat, st: Reader, open: seq<Frame>)
    requires GoodParts(parts) && Ready(st, open) && NamesNotDue(open) && k < |Quote(parts)|
    ensures !Due(Quote(parts), k, st)
  {
    QuoteState(parts, k, st, open);
  }

  lemma QuoteNotDue(parts: seq<Part>, st: Reader, open: seq<Frame>)
    requires GoodParts(parts) && Ready(st, open) && NamesNotDue(open)
    ensures NotDue(Quote(parts), st)
  {
    forall k: nat | k < |Quote(parts)| ensures !Due(Quote(parts), k, st) {
      QuoteNotDueAt(parts, k, st, open);
    }
  }

  // ---- Such a place is in the name of a member -------------------------

  function NameAt(v: Value, path: Path): (r: Name)
    requires Points(v, path)
    ensures r.Name?
    decreases path
  {
    match path
    case Member(k) => v.entries[k].name
    case Into(k, rest) => NameAt(v.entries[k].value, rest)
  }

  /** Position `k` of the printed value is in the quoted name of a member. */
  predicate InName(v: Value, path: Path, k: int) {
    Points(v, path) && |Before(v, path)| <= k < |Before(v, path)| + |Quote(NameAt(v, path).parts)|
  }

  lemma LocateName(name: Name, k: nat, st: Reader, open: seq<Frame>)
    requires name.Name? && Blank(name.before, JSON_BLANKS) && GoodParts(name.parts) && Blank(name.after, JSON_BLANKS)
    requires Ready(st, open + [Names]) && Due(PrintName(name), k, st)
    ensures |name.before| <= k < |name.before| + |Quote(name.parts)|
  {
    var a, q := name.before, Quote(name.parts);
    var st1, st2 := Read(a, st), Reader(open + [Names], Closed);
    BlankReady(a, st, open + [Names]);
    QuoteCloses(name.parts, st1, open + [Names]);
    ReadConcat(a, q, st);
    BlankEnded(name.after, st2, open + [Names]);
    ReadConcat(a + q, name.after, st);
    CharNotDue(':', Read(name.after, st2));
    DueAhead(a + q + name.after, ":", k, st);
    BlankNotDue(name.after, st2, open + [Names]);
    DueAhead(a + q, name.after, k, st);
    BlankNotDue(a, st, open + [Names]);
    DueBehind(a, q, k, st);
  }

  lemma LocateEntry(e: Entry, named: bool, k: nat, st: Reader, open: seq<Frame>) returns (sub: Path)
    requires GoodEntry(e, named) && Ready(st, open + [Waiting(named)]) && Due(PrintEntry(e), k, st)
    ensures if k < |PrintName(e.name)| then named && |e.name.before| <= k < |e.name.before| + |Quote(e.name.parts)|
            else InName(e.value, sub, k - |PrintName(e.name) + e.before|)
    decreases e, 2
  {
    var all, a := open + [Filled(named)], PrintName(e.name);
    var st1 := Read(a, st);
    if named {
      ReadName(e.name, st, open);
    }
    var st2 := Read(e.before, st1);
    BlankReady(e.before, st1, all);
    ReadValue(e.value, st2, all);
    ReadConcat(a, e.before, st);
    ReadConcat(a + e.before, Print(e.value), st);
    BlankNotDue(e.after, Read(Print(e.value), st2), all);
    DueAhead(a + e.before + Print(e.value), e.after, k, st);
    DueConcat(a + e.before, Print(e.value), k, st);
    if k >= |a + e.before| {
      sub := LocateValue(e.value, k - |a + e.before|, st2, all);
    } else {
      BlankNotDue(e.before, st1, all);
      DueAhead(a, e.before, k, st);
      sub := Member(0);
      if named {
        LocateName(e.name, k, st, open);
      }
    }
  }

  /** The place in an entry is a place in the value that holds the entry. */
  lemma InEntry(v: Value, i: nat, sub: Path, k: nat) returns (path: Path)
    requires HasEntries(v) && i < |v.entries|
    requires var e := v.entries[i];
             if k < |PrintName(e.name)| then
               v.Object? && e.name.Name? && |e.name.before| <= k < |e.name.before| + |Quote(e.name.parts)|
             else InName(e.value, sub, k - |PrintName(e.name) + e.before|)
    ensures InName(v, path, |Ahead(v, i)| + k)
  {
    path := if k < |PrintName(v.entries[i].name)| then Member(i) else Into(i, sub);
  }

  lemma AheadNext(v: Value, i: nat)
    requires HasEntries(v) && i + 1 < |v.entries|
    ensures |Ahead(v, i + 1)| == |Ahead(v, i)| + |PrintEntry(v.entries[i])| + 1
  {
    assert v.entries[..i + 1] == v.entries[..i] + [v.entries[i]];
    FrontSnoc(v.entries[..i], v.entries[i]);
  }

  lemma LocateFrom(v: Value, i: nat, k: nat, st: Reader, open: seq<Frame>) returns (path: Path)
    requires Good(v) && HasEntries(v) && i < |v.entries| && Ready(st, open + [Waiting(v.Object?)])
    requires Due(PrintBody(v.entries[i..], v.pad), k, st)
    ensures InName(v, path, |Ahead(v, i)| + k)
    decreases v, 3, |v.entries| - i
  {
    var named, e, rest := v.Object?, v.entries[i], v.entries[i..];
    assert GoodEntry(e, named);
    if |rest| == 1 {
      var sub := LocateEntry(e, named, k, st, open);
      path := InEntry(v, i, sub, k);
    } else {
      var head, tail := PrintEntry(e), PrintBody(v.entries[i + 1..], v.pad);
      assert rest[1..] == v.entries[i + 1..];
      ReadEntry(e, named, st, open);
      var st1 := Read(head, st);
      CommaReady(st1, open, named);
      ReadConcat(head, ",", st);
      DueConcat(head + ",", tail, k, st);
      if k >= |head + ","| {
        path := LocateFrom(v, i + 1, k - |head + ","|, Read(",", st1), open);
        AheadNext(v, i);
      } else {
        CharNotDue(',', st1);
        DueAhead(head, ",", k, st);
        var sub := LocateEntry(e, named, k, st, open);
        path := InEntry(v, i, sub, k);
      }
    }
  }

  lemma PadNotDue(v: Value, st: Reader, open: seq<Frame>)
    requires Good(v) && HasEntries(v) && v.entries == [] && st == Reader(open + [Waiting(v.Object?)], Starting)
    ensures NotDue(PrintBody(v.entries, v.pad), st)
  {
    BlankNotDue(v.pad, st, open + [Waiting(v.Object?)]);
  }

  lemma BodyEnds(v: Value, st: Reader, open: seq<Frame>)
    requires Good(v) && HasEntries(v) && Ready(st, open)
    ensures Read(Open(v), st) == Reader(open + [Waiting(v.Object?)], Starting)
    ensures var r := Read(Open(v) + PrintBody(v.entries, v.pad), st); r.Reader? && !r.place.Escaping?
  {
    hide Read;
    var left, body := Open(v), PrintBody(v.entries, v.pad);
    var start := Reader(open + [Waiting(v.Object?)], Starting);
    assert left == [left[0]];
    ReadOne(left[0], st);
    ReadBody(v.entries, v.Object?, v.pad, start, open);
    ReadConcat(left, body, st);
  }

  lemma DueBetween(left: char, body: string, right: char, k: nat, st: Reader)
    requires Due([left] + body + [right], k, st) && st.Reader? && !st.place.Escaping? && left != '"' && right != '"'
    requires var r := Read([left] + body, st); r.Reader? && !r.place.Escaping?
    ensures k >= 1 && Due(body, k - 1, Read([left], st))
  {
    CharNotDue(right, Read([left] + body, st));
    DueAhead([left] + body, [right], k, st);
    CharNotDue(left, st);
    DueBehind([left], body, k, st);
  }

  /** The body between its brackets. */
  lemma DueInBody(v: Value, k: nat, st: Reader, open: seq<Frame>)
    requires Good(v) && HasEntries(v) && Ready(st, open) && Due(Print(v), k, st)
    ensures k >= 1 && Due(PrintBody(v.entries, v.pad), k - 1, Reader(open + [Waiting(v.Object?)], Starting))
  {
    BodyEnds(v, st, open);
    assert Open(v) == [Open(v)[0]] && Close(v) == [Close(v)[0]];
    DueBetween(Open(v)[0], PrintBody(v.entries, v.pad), Close(v)[0], k, st);
  }

  /** Where a name is due in a value, there is the name of a member. */
  lemma LocateValue(v: Value, k: nat, st: Reader, open: seq<Frame>) returns (path: Path)
    requires Good(v) && Ready(st, open) && NamesNotDue(open) && Due(Print(v), k, st)
    ensures InName(v, path, k)
    decreases v, 4
  {
    path := Member(0);
    if v.Scalar? {
      ScalarChars(v.text);
      ScalarNotDue(v.text, st, open);
    } else if v.Str? {
      QuoteNotDue(v.parts, st, open);
    } else {
      var start := Reader(open + [Waiting(v.Object?)], Starting);
      DueInBody(v, k, st, open);
      if v.entries == [] {
        PadNotDue(v, start, open);
      } else {
        assert v.entries[0..] == v.entries;
        path := LocateFrom(v, 0, k - 1, start, open);
        assert v.entries[..0] == [];
      }
    }
  }

  // ---- What the reader does up to a name -------------------------------

  lemma {:induction false} FrontReady(entries: seq<Entry>, named: bool, st: Reader, open: seq<Frame>)
    requires GoodEntries(entries, named) && Ready(st, open + [Waiting(named)])
    ensures Ready(Read(Front(entries), st), open + [Waiting(named)])
  {
    if entries != [] {
      var head, tail := PrintEntry(entries[0]), Front(entries[1..]);
      ReadEntry(entries[0], named, st, open);
      CommaReady(Read(head, st), open, named);
      ReadConcat(head, ",", st);
      FrontReady(entries[1..], named, Read(head + ",", st), open);
      ReadConcat(head + ",", tail, st);
    }
  }

  lemma AheadReady(v: Value, k: nat, st: Reader, open: seq<Frame>)
    requires Good(v) && HasEntries(v) && k < |v.entries| && Ready(st, open)
    ensures Ready(Read(Ahead(v, k), st), open + [Waiting(v.Object?)])
  {
    hide PrintEntry, Read;
    assert Open(v) == [Open(v)[0]];
    ReadOne(Open(v)[0], st);
    ReadConcat(Open(v), Front(v.entries[..k]), st);
    FrontReady(v.entries[..k], v.Object?, Read(Open(v), st), open);
  }

  /** Right before the name of a member, the reader waits for it. */
  lemma {:induction false} BeforeReady(v: Value, path: Path, st: Reader, open: seq<Frame>) returns (inner: seq<Frame>)
    requires Good(v) && Points(v, path) && Ready(st, open)
    ensures Ready(Read(Before(v, path), st), inner + [Names])
    decreases path
  {
    var e, named := v.entries[path.k], v.Object?;
    var ahead := Ahead(v, path.k);
    assert GoodEntry(e, named);
    AheadReady(v, path.k, st, open);
    match path
    case Member(_) =>
      BlankReady(e.name.before, Read(ahead, st), open + [Names]);
      ReadConcat(ahead, e.name.before, st);
      inner := open;
    case Into(_, rest) =>
      var all, st1 := open + [Filled(named)], Read(PrintName(e.name), Read(ahead, st));
      if named {
        ReadName(e.name, Read(ahead, st), open);
      }
      BlankReady(e.before, st1, all);
      inner := BeforeReady(e.value, rest, Read(e.before, st1), all);
      ReadThree(ahead, PrintName(e.name), e.before, Before(e.value, rest), st);
  }

  lemma ReadThree(ahead: string, name: string, blanks: string, left: string, st: Reader)
    ensures Read(ahead + (name + blanks + left), st) == Read(left, Read(blanks, Read(name, Read(ahead, st))))
  {
    ReadConcat(ahead, name + blanks + left, st);
    ReadConcat(name + blanks, left, Read(ahead, st));
    ReadConcat(name, blanks, Read(ahead, st));
  }

  /** From the member on, the text starts with its quoted name. */
  lemma {:induction false} AfterStarts(v: Value, path: Path) returns (rest: string)
    requires Points(v, path)
    ensures After(v, path) == Quote(NameAt(v, path).parts) + rest
    decreases path
  {
    var e := v.entries[path.k];
    match path
    case Member(k) =>
      rest := e.name.after + ":" + (e.before + Print(e.value) + e.after) + Behind(v, k);
      NameStarts(Quote(e.name.parts), e.name.after, e.before + Print(e.value) + e.after, Behind(v, k));
    case Into(k, sub) =>
      var inner := AfterStarts(e.value, sub);
      rest := inner + e.after + Behind(v, k);
      InnerStarts(Quote(NameAt(v, path).parts), inner, e.after, Behind(v, k));
  }

  lemma NameStarts(quoted: string, after: string, value: string, behind: string)
    ensures (quoted + after + ":") + value + behind == quoted + (after + ":" + value + behind)
  {
  }

  lemma InnerStarts(quoted: string, inner: string, after: string, behind: string)
    ensures ((quoted + inner) + after) + behind == quoted + (inner + after + behind)
  {
  }

  // ---- Behind a backslash ----------------------------------------------

  lemma NothingRead(s: string, st: Reader)
    ensures Read(s[..0], st) == st
  {
    assert s[..0] == "";
  }

  /** Only behind the first character of an escape the reader is behind a backslash. */
  lemma NoBackslash(p: Part, k: nat, open: seq<Frame>)
    requires GoodPart(p) && k <= |PartText(p)| && (k != 1 || p.Plain?)
    ensures Read(PartText(p)[..k], Reader(open, InText)) == Reader(open, InText)
  {
    var text := PartText(p);
    NothingRead(text, Reader(open, InText));
    if k == |text| {
      assert text[..k] == text;
      PartStays(p, open);
    } else if k > 1 {
      assert text[..k] == "\\u" + p.digits[..k - 2];
      DigitsInside(p.digits, k - 2, open);
    }
  }

  predicate Escapes(st: Reader) {
    st.Reader? && st.place.Escaping?
  }

  lemma CutHead(p: Part, k: nat, open: seq<Frame>)
    requires GoodPart(p) && k <= |PartText(p)| && Escapes(Read(PartText(p)[..k], Reader(open, InText)))
    ensures !p.Plain? && k == 1
  {
    if k != 1 || p.Plain? {
      NoBackslash(p, k, open);
    }
  }

  lemma HeadText(head: string, tail: string, k: nat)
    requires k <= |head + tail|
    ensures k <= |head| ==> (head + tail)[..k] == head[..k]
    ensures k > |head| ==> (head + tail)[..k] == head + tail[..k - |head|]
  {
  }

  lemma CutTail(parts: seq<Part>, k: nat, open: seq<Frame>)
    requires GoodParts(parts) && parts != [] && |PartText(parts[0])| < k <= |PrintParts(parts)|
    ensures PrintParts(parts) == PartText(parts[0]) + PrintParts(parts[1..])
    ensures Read(PrintParts(parts)[..k], Reader(open, InText))
         == Read(PrintParts(parts[1..])[..k - |PartText(parts[0])|], Reader(open, InText))
  {
    var head, tail := PartText(parts[0]), PrintParts(parts[1..]);
    assert PrintParts(parts) == head + tail && GoodPart(parts[0]);
    HeadText(head, tail, k);
    ReadConcat(head, tail[..k - |head|], Reader(open, InText));
    PartStays(parts[0], open);
  }

  lemma CutStep(parts: seq<Part>, i: nat)
    requires i + 1 < |parts|
    ensures |PrintParts(parts[..i + 1])| == |PartText(parts[0])| + |PrintParts(parts[1..][..i])|
    ensures parts[i + 1] == parts[1..][i]
  {
    assert parts[..i + 1][1..] == parts[1..][..i];
  }

  /** Behind a backslash the part that it starts can be told. */
  lemma {:induction false} CutAtBackslash(parts: seq<Part>, k: nat, open: seq<Frame>) returns (i: nat)
    requires GoodParts(parts) && k <= |PrintParts(parts)|
    requires Escapes(Read(PrintParts(parts)[..k], Reader(open, InText)))
    ensures i < |parts| && !parts[i].Plain? && k == |PrintParts(parts[..i])| + 1
  {
    hide Read;
    i := 0;
    NothingRead(PrintParts(parts), Reader(open, InText));
    if parts != [] {
      var head := PartText(parts[0]);
      assert PrintParts(parts) == head + PrintParts(parts[1..]);
      if k <= |head| {
        HeadText(head, PrintParts(parts[1..]), k);
        CutHead(parts[0], k, open);
        assert parts[..0] == [];
      } else {
        CutTail(parts, k, open);
        i := CutAtBackslash(parts[1..], k - |head|, open);
        CutStep(parts, i);
        i := i + 1;
      }
    }
  }

  /** Position `j` of the quoted parts is behind the backslash of part `i`. */
  predicate BackslashAt(parts: seq<Part>, i: nat, j: int) {
    i < |parts| && !parts[i].Plain? && j == |PrintParts(parts[..i])| + 2
  }

  /** The member that the path points to has this name. */
  predicate NamedAt(v: Value, path: Path, parts: seq<Part>) {
    Points(v, path) && NameAt(v, path).parts == parts
  }

  /** A member between `left` and `right`, and part `i` of its name. */
  datatype Spot = Spot(path: Path, left: string, right: string, parts: seq<Part>, i: nat)

  /** The first anchor stands behind the backslash of the part. */
  predicate EscapedAt(text: string, lead: string, spot: Spot) {
    && spot.i < |spot.parts| && !spot.parts[spot.i].Plain?
    && AnchorsAt(text, lead, spot.left + "\"" + PrintParts(spot.parts[..spot.i]) + "\\")
  }

  predicate IsSpot(v: Value, spot: Spot) {
    Reads(v, spot.path, spot.left, spot.right) && NamedAt(v, spot.path, spot.parts)
  }

  /** The quote of the first anchor stands behind a backslash in the name of a member. */
  ghost predicate AnchorsEscaped(text: string, lead: string, v: Value) {
    exists spot :: IsSpot(v, spot) && EscapedAt(text, lead, spot)
  }

  // ---- JSON only then --------------------------------------------------

  /** The place in the text is a place in the value. */
  lemma DueInValue(text: string, lead: string, v: Value, trail: string, p: nat)
    requires IsPrinted(text, lead, v, trail) && Due(text, p, START)
    ensures Ready(Read(lead, START), []) && p >= |lead| && Due(Print(v), p - |lead|, Read(lead, START))
  {
    BlankReady(lead, START, []);
    ReadValue(v, Read(lead, START), []);
    ReadConcat(lead, Print(v), START);
    BlankNotDue(trail, Read(Print(v), Read(lead, START)), []);
    DueAhead(lead + Print(v), trail, p, START);
    BlankNotDue(lead, START, []);
    DueBehind(lead, Print(v), p, START);
  }

  /** In the name, the reader is before its first quote or behind a backslash. */
  lemma DueInQuote(parts: seq<Part>, j: nat, st: Reader, open: seq<Frame>) returns (i: nat)
    requires GoodParts(parts) && Ready(st, open) && Due(Quote(parts), j, st)
    ensures j > 0 ==> BackslashAt(parts, i, j)
  {
    QuoteState(parts, j, st, open);
    i := 0;
    if j > 0 {
      i := CutAtBackslash(parts, j - 1, open);
    }
  }

  predicate WellNamed(name: Name) {
    name.Name? && Blank(name.before, JSON_BLANKS) && GoodParts(name.parts) && Blank(name.after, JSON_BLANKS)
  }

  lemma NameIsGood(v: Value, path: Path)
    requires Good(v) && Points(v, path)
    ensures WellNamed(NameAt(v, path))
    decreases path
  {
    var e := v.entries[path.k];
    assert GoodEntry(e, v.Object?);
    match path
    case Member(_) =>
    case Into(_, rest) => NameIsGood(e.value, rest);
  }

  lemma DueInMember(left: string, parts: seq<Part>, rest: string, k: nat, st: Reader, open: seq<Frame>) returns (i: nat)
    requires GoodParts(parts) && Ready(Read(left, st), open)
    requires Due(left + (Quote(parts) + rest), k, st) && |left| <= k < |left| + |Quote(parts)|
    ensures k > |left| ==> BackslashAt(parts, i, k - |left|)
  {
    DueConcat(left, Quote(parts) + rest, k, st);
    DueConcat(Quote(parts), rest, k - |left|, Read(left, st));
    i := DueInQuote(parts, k - |left|, Read(left, st), open);
  }

  lemma DueAtMember(v: Value, path: Path, k: nat, st: Reader, left: string, right: string) returns (i: nat)
    requires Reads(v, path, left, right) && Ready(st, []) && Due(Print(v), k, st)
    requires |left| <= k < |left| + |Quote(NameAt(v, path).parts)|
    ensures k > |left| ==> BackslashAt(NameAt(v, path).parts, i, k - |left|)
  {
    var inner := BeforeReady(v, path, st, []);
    var rest := AfterStarts(v, path);
    PrintSplits(v, path);
    NameIsGood(v, path);
    i := DueInMember(left, NameAt(v, path).parts, rest, k, st, inner + [Names]);
  }

  /** The member at whose name the place is. */
  lemma Located(v: Value, k: nat, st: Reader) returns (spot: Spot)
    requires Good(v) && Ready(st, []) && Due(Print(v), k, st)
    ensures IsSpot(v, spot) && k >= |spot.left|
    ensures k > |spot.left| ==> BackslashAt(spot.parts, spot.i, k - |spot.left|)
  {
    var path := LocateValue(v, k, st, []);
    var left, right := Before(v, path), After(v, path);
    var i := DueAtMember(v, path, k, st, left, right);
    spot := Spot(path, left, right, NameAt(v, path).parts, i);
  }

  lemma AnchorInName(text: string, lead: string, spot: Spot, p: nat)
    requires Find(text, ANCHOR, 0) == Some(p) && p - |lead| >= |spot.left|
    requires p - |lead| > |spot.left| ==> BackslashAt(spot.parts, spot.i, p - |lead| - |spot.left|)
    ensures AnchorsAt(text, lead, spot.left) || EscapedAt(text, lead, spot)
  {
  }

  lemma MemberOrEscaped(text: string, lead: string, v: Value, spot: Spot)
    requires IsSpot(v, spot) && (AnchorsAt(text, lead, spot.left) || EscapedAt(text, lead, spot))
    ensures AnchorsMember(text, lead, v) || AnchorsEscaped(text, lead, v)
  {
    if AnchorsAt(text, lead, spot.left) {
      AnchorsHere(text, lead, v, spot.path, spot.left, spot.right);
    }
  }

  lemma LocatedInText(text: string, lead: string, v: Value, trail: string, p: nat) returns (spot: Spot)
    requires IsPrinted(text, lead, v, trail) && Due(text, p, START)
    ensures IsSpot(v, spot) && p - |lead| >= |spot.left|
    ensures p - |lead| > |spot.left| ==> BackslashAt(spot.parts, spot.i, p - |lead| - |spot.left|)
  {
    DueInValue(text, lead, v, trail, p);
    spot := Located(v, p - |lead|, Read(lead, START));
  }

  lemma AnchorDue(text: string, p: nat)
    requires Find(text, ANCHOR, 0) == Some(p) && NamesNext(Read(text[..p], START))
    ensures Due(text, p, START)
  {
    AnchorStarts(text, p);
  }

  lemma AnchorNeeds(text: string, lead: string, v: Value, trail: string, p: nat)
    requires IsPrinted(text, lead, v, trail) && Find(text, ANCHOR, 0) == Some(p) && NamesNext(Read(text[..p], START))
    ensures AnchorsMember(text, lead, v) || AnchorsEscaped(text, lead, v)
  {
    hide *;
    AnchorDue(text, p);
    var spot := LocatedInText(text, lead, v, trail, p);
    AnchorInName(text, lead, spot, p);
    MemberOrEscaped(text, lead, v, spot);
  }

  lemma EmptyNeeds(text: string, lead: string, v: Value, trail: string, notes: seq<Note>)
    requires IsPrinted(text, lead, v, trail) && AreNew(text, notes) && notes != [] && v.Object? && v.entries == []
    ensures !IsJson(InjectAll(text, notes))
  {
    assert PrintBody(v.entries, v.pad) == v.pad;
    assert lead + ("{" + v.pad + "}") + trail == lead + "{" + v.pad + "}" + trail;
    EmptyObjectBreaks(text, lead, v.pad, trail, notes);
  }

  lemma FallbackNeeds(text: string, lead: string, v: Value, trail: string, notes: seq<Note>)
    requires IsPrinted(text, lead, v, trail) && AreNew(text, notes) && notes != []
    requires Find(text, ANCHOR, 0) == None && InsertionPoint(text).Some? && IsJson(InjectAll(text, notes))
    ensures FallsIntoObject(text, v)
  {
    if '[' in text {
      FallbackBreaks(text, notes);
    }
    if v.Scalar? {
      ScalarUnchanged(text, lead, v, trail, notes[0]);
    } else if v.Str? {
      StringStaysIff(text, lead, v, trail, notes);
    } else if v.Array? {
      InArray(text, lead, v, trail);
    } else if v.entries == [] {
      EmptyNeeds(text, lead, v, trail, notes);
    }
  }
}
