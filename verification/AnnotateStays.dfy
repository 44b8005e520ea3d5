/** Exactly when a JSON text is still JSON after `inject_json_kv`. */
module AnnotateStays {
  import opened Wrappers
  import opened Strings
  import opened Decimal
  import opened Json
  import opened JsonReader
  import opened Annotate
  import opened AnnotateRuns
  import opened AnnotateJson
  import opened AnnotateFallback
  import opened AnnotateExact
  import opened AnnotateBroken
  import opened AnnotateLocate

  // ---- A name that is split --------------------------------------------

  /** The value with an entry put before a member, which is renamed. */
  function Put(v: Value, path: Path, first: Entry, name: Name): Value
    requires Points(v, path)
    decreases path
  {
    match path
    case Member(k) => v.(entries := v.entries[..k] + [first, v.entries[k].(name := name)] + v.entries[k + 1..])
    case Into(k, rest) =>
      v.(entries := v.entries[k := v.entries[k].(value := Put(v.entries[k].value, rest, first, name))])
  }

  lemma PutEntriesGood(entries: seq<Entry>, k: nat, first: Entry, name: Name)
    requires GoodEntries(entries, true) && k < |entries| && GoodEntry(first, true) && WellNamed(name)
    ensures GoodEntries(entries[..k] + [first, entries[k].(name := name)] + entries[k + 1..], true)
  {
    assert GoodEntry(entries[k], true);
    var all := entries[..k] + [first, entries[k].(name := name)] + entries[k + 1..];
    forall i | 0 <= i < |all| ensures GoodEntry(all[i], true) {
      if i < k {
        assert all[i] == entries[i];
      } else if i > k + 1 {
        assert all[i] == entries[i - 1];
      }
    }
  }

  lemma {:induction false} PutGood(v: Value, path: Path, first: Entry, name: Name)
    requires Good(v) && Points(v, path) && GoodEntry(first, true) && WellNamed(name)
    ensures Good(Put(v, path, first, name))
    decreases path
  {
    match path
    case Member(k) => PutEntriesGood(v.entries, k, first, name);
    case Into(k, rest) =>
      assert GoodEntry(v.entries[k], v.Object?);
      PutGood(v.entries[k].value, rest, first, name);
      ReplacedGood(v.entries, v.Object?, k, Put(v.entries[k].value, rest, first, name));
  }

  /** Putting an entry before a member and renaming it leaves what stands outside of its name: `outer` before the
      blanks of the name, `tail` behind it. */
  predicate Keeps(v: Value, path: Path, first: Entry, name: Name, outer: string, tail: string)
    requires Points(v, path) && name.Name?
  {
    var w := Put(v, path, first, name);
    && Print(v) == outer + PrintName(NameAt(v, path)) + tail
    && Print(w) == outer + (PrintEntry(first) + "," + PrintName(name)) + tail
    && Before(v, path) == outer + NameAt(v, path).before
    && Points(w, Moved(path)) && Before(w, Moved(path)) == outer + (PrintEntry(first) + ",") + name.before
  }

  lemma KeepsHere(v: Value, k: nat, first: Entry, name: Name)
    requires Points(v, Member(k)) && name.Name?
    ensures var e := v.entries[k];
            Keeps(v, Member(k), first, name, Ahead(v, k), e.before + Print(e.value) + e.after + Behind(v, k))
  {
    var e, w := v.entries[k], Put(v, Member(k), first, name);
    assert w.entries[..k + 1] == v.entries[..k] + [first];
    assert w.entries[k + 1] == e.(name := name) && w.entries[k + 2..] == v.entries[k + 1..];
    FrontSnoc(v.entries[..k], first);
    ValueSplits(v, k);
    ValueSplits(w, k + 1);
    EntryText(Ahead(v, k), PrintName(e.name), e.before, Print(e.value), e.after, Behind(v, k));
    PutText(Open(v), Front(v.entries[..k]), PrintEntry(first), PrintName(name), e.before, Print(e.value),
            e.after, Behind(v, k));
    PutFront(Open(v), Front(v.entries[..k]), PrintEntry(first), name.before);
  }

  lemma EntryText(ahead: string, name: string, b: string, value: string, c: string, behind: string)
    ensures ahead + (name + b + value + c) + behind == ahead + name + (b + value + c + behind)
  {
  }

  lemma PutText(open: string, front: string, entry: string, name: string, b: string, value: string, c: string,
                behind: string)
    ensures (open + (front + (entry + ","))) + (name + b + value + c) + behind
         == (open + front) + (entry + "," + name) + (b + value + c + behind)
  {
  }

  lemma PutFront(open: string, front: string, entry: string, blanks: string)
    ensures (open + (front + (entry + ","))) + blanks == (open + front) + (entry + ",") + blanks
  {
  }

  /** The text of a value one of whose elements or members is put in place of another. */
  lemma InnerText(v: Value, k: nat, inner: Value, outer: string, middle: string, tail: string)
    requires HasEntries(v) && k < |v.entries| && Print(inner) == outer + middle + tail
    ensures var e := v.entries[k];
            Print(v.(entries := v.entries[k := e.(value := inner)]))
            == (Ahead(v, k) + (PrintName(e.name) + e.before + outer)) + middle + (tail + e.after + Behind(v, k))
  {
    var e, w := v.entries[k], v.(entries := v.entries[k := v.entries[k].(value := inner)]);
    assert w.entries[..k] == v.entries[..k] && w.entries[k + 1..] == v.entries[k + 1..];
    ValueSplits(w, k);
    OuterText(Ahead(v, k), PrintName(e.name) + e.before, outer, middle, tail, e.after, Behind(v, k));
  }

  lemma OuterText(ahead: string, head: string, outer: string, middle: string, tail: string, c: string, behind: string)
    ensures ahead + (head + (outer + middle + tail) + c) + behind
         == (ahead + (head + outer)) + middle + (tail + c + behind)
  {
  }

  /** The text before a member of an element or member that is put in place of another. */
  lemma InnerBefore(v: Value, k: nat, inner: Value, rest: Path, outer: string, s: string)
    requires HasEntries(v) && k < |v.entries| && Points(inner, rest) && Before(inner, rest) == outer + s
    ensures var e, w := v.entries[k], v.(entries := v.entries[k := v.entries[k].(value := inner)]);
            && Points(w, Into(k, rest))
            && Before(w, Into(k, rest)) == (Ahead(v, k) + (PrintName(e.name) + e.before + outer)) + s
  {
    var e, w := v.entries[k], v.(entries := v.entries[k := v.entries[k].(value := inner)]);
    assert w.entries[..k] == v.entries[..k];
    assert Ahead(w, k) == Ahead(v, k);
    IntoText(Ahead(v, k), PrintName(e.name) + e.before, outer, s);
  }

  lemma KeepsInto(v: Value, k: nat, rest: Path, first: Entry, name: Name, outer: string, tail: string)
    requires Points(v, Into(k, rest)) && name.Name? && Keeps(v.entries[k].value, rest, first, name, outer, tail)
    ensures var e := v.entries[k];
            Keeps(v, Into(k, rest), first, name, Ahead(v, k) + (PrintName(e.name) + e.before + outer),
                  tail + e.after + Behind(v, k))
  {
    hide Before, Print, PrintName;
    var e := v.entries[k];
    var inner := Put(e.value, rest, first, name);
    assert v == v.(entries := v.entries[k := e.(value := e.value)]);
    InnerText(v, k, e.value, outer, PrintName(NameAt(e.value, rest)), tail);
    InnerText(v, k, inner, outer, PrintEntry(first) + "," + PrintName(name), tail);
    InnerBefore(v, k, e.value, rest, outer, NameAt(e.value, rest).before);
    BeforeRegroup(outer, PrintEntry(first) + ",", name.before);
    InnerBefore(v, k, inner, Moved(rest), outer, PrintEntry(first) + "," + name.before);
    BeforeRegroup(Ahead(v, k) + (PrintName(e.name) + e.before + outer), PrintEntry(first) + ",", name.before);
  }

  lemma BeforeRegroup(outer: string, entry: string, blanks: string)
    ensures outer + entry + blanks == outer + (entry + blanks)
  {
  }

  lemma {:induction false} PutKeeps(v: Value, path: Path, first: Entry, name: Name)
    returns (outer: string, tail: string)
    requires Points(v, path) && name.Name?
    ensures Keeps(v, path, first, name, outer, tail)
    decreases path
  {
    var e := v.entries[path.k];
    match path
    case Member(k) =>
      KeepsHere(v, k, first, name);
      outer, tail := Ahead(v, k), e.before + Print(e.value) + e.after + Behind(v, k);
    case Into(k, rest) =>
      outer, tail := PutKeeps(e.value, rest, first, name);
      KeepsInto(v, k, rest, first, name, outer, tail);
      outer, tail := Ahead(v, k) + (PrintName(e.name) + e.before + outer), tail + e.after + Behind(v, k);
  }

  // ---- JSON then as well -----------------------------------------------

  lemma PartsFirst(parts: seq<Part>)
    requires parts != []
    ensures PrintParts(parts) == PartText(parts[0]) + PrintParts(parts[1..])
  {
  }

  lemma Assoc(a: string, b: string, c: string)
    ensures a + (b + c) == (a + b) + c
  {
  }

  lemma TailConcat(a: seq<Part>, b: seq<Part>)
    requires a != []
    ensures (a + b)[0] == a[0] && (a + b)[1..] == a[1..] + b
  {
  }

  lemma {:induction false} PartsConcat(a: seq<Part>, b: seq<Part>)
    ensures PrintParts(a + b) == PrintParts(a) + PrintParts(b)
  {
    if a == [] {
      assert a + b == b;
    } else {
      PartsConcat(a[1..], b);
      TailConcat(a, b);
      PartsFirst(a);
      PartsFirst(a + b);
      Assoc(PartText(a[0]), PrintParts(a[1..]), PrintParts(b));
    }
  }

  lemma OnePart(p: Part)
    ensures PrintParts([p]) == PartText(p)
  {
    assert [p][1..] == [];
  }

  lemma PartSlices(parts: seq<Part>, i: nat)
    requires i < |parts|
    ensures parts == (parts[..i] + [parts[i]]) + parts[i + 1..]
  {
  }

  lemma PartAt(parts: seq<Part>, i: nat)
    requires i < |parts|
    ensures PrintParts(parts) == PrintParts(parts[..i]) + PartText(parts[i]) + PrintParts(parts[i + 1..])
  {
    PartSlices(parts, i);
    PartsConcat(parts[..i] + [parts[i]], parts[i + 1..]);
    PartsConcat(parts[..i], [parts[i]]);
    OnePart(parts[i]);
  }

  /** The name that ends with the injected key. */
  function NewParts(parts: seq<Part>, i: nat, key: string): seq<Part>
    requires i < |parts|
  {
    parts[..i] + [Escape('"')] + PlainParts(key)
  }

  lemma NewPartsPrint(parts: seq<Part>, i: nat, key: string)
    requires i < |parts| && GoodParts(parts) && IsIdentifier(key)
    ensures PrintParts(NewParts(parts, i, key)) == PrintParts(parts[..i]) + "\\\"" + key
    ensures GoodParts(NewParts(parts, i, key))
  {
    hide PrintParts;
    PartsConcat(parts[..i] + [Escape('"')], PlainParts(key));
    PartsConcat(parts[..i], [Escape('"')]);
    OnePart(Escape('"'));
    assert PartText(Escape('"')) == "\\\"";
    PlainPrints(key);
    forall k | 0 <= k < |key| ensures GoodPart(Plain(key[k])) {
      assert IsNameChar(key[k]);
    }
  }

  function FirstHalf(name: Name, i: nat, note: Note): Entry
    requires name.Name? && i < |name.parts|
  {
    Entry(Name(name.before, NewParts(name.parts, i, note.key), ""), " ", Scalar(note.Literal()), "")
  }

  function SecondHalf(name: Name, i: nat): Name
    requires name.Name? && i < |name.parts|
  {
    Name(" ", name.parts[i + 1..], name.after)
  }

  lemma HalvesGood(name: Name, i: nat, note: Note)
    requires WellNamed(name) && i < |name.parts| && IsIdentifier(note.key)
    ensures GoodEntry(FirstHalf(name, i, note), true) && WellNamed(SecondHalf(name, i))
  {
    NewPartsPrint(name.parts, i, note.key);
    IntegerIsScalar(note.value);
  }

  lemma HalvesText(before: string, front: string, key: string, literal: string, back: string, after: string)
    ensures (before + ("\"" + (front + "\\\"" + key) + "\"") + "" + ":") + " " + literal + "" + ","
            + (" " + ("\"" + back + "\"") + after + ":")
         == before + "\"" + front + "\\" + ("\"" + key + "\"" + (": " + literal + ", "))
            + ("\"" + back + "\"" + after + ":")
  {
  }

  lemma WholeText(before: string, front: string, back: string, after: string)
    ensures before + ("\"" + (front + "\\\"" + back) + "\"") + after + ":"
         == (before + "\"" + front + "\\") + ("\"" + back + "\"" + after + ":")
  {
  }

  /** The text of a name up to the backslash, and from the escaped quote on. */
  lemma HalvesPrint(name: Name, i: nat, note: Note) returns (a: string, b: string)
    requires WellNamed(name) && i < |name.parts| && name.parts[i] == Escape('"') && IsIdentifier(note.key)
    ensures PrintName(name) == a + b && |a| == |name.before| + |PrintParts(name.parts[..i])| + 2
    ensures PrintEntry(FirstHalf(name, i, note)) + "," + PrintName(SecondHalf(name, i)) == a + NotePiece(note) + b
    ensures |PrintEntry(FirstHalf(name, i, note))| + 2 == |a| + |NotePiece(note)|
  {
    var front, back := PrintParts(name.parts[..i]), PrintParts(name.parts[i + 1..]);
    a := name.before + "\"" + front + "\\";
    b := "\"" + back + "\"" + name.after + ":";
    PartAt(name.parts, i);
    assert PartText(Escape('"')) == "\\\"";
    NewPartsPrint(name.parts, i, note.key);
    WholeText(name.before, front, back, name.after);
    HalvesText(name.before, front, note.key, note.Literal(), back, name.after);
  }

  /** The anchor makes the escape that of a quote. */
  lemma EscapeIsQuote(parts: seq<Part>, i: nat)
    requires GoodParts(parts) && i < |parts| && !parts[i].Plain?
    requires |PrintParts(parts[..i])| + 1 < |PrintParts(parts)|
    requires PrintParts(parts)[|PrintParts(parts[..i])| + 1] == '"'
    ensures parts[i] == Escape('"')
  {
    PartAt(parts, i);
    SecondChar(PrintParts(parts[..i]), PartText(parts[i]), PrintParts(parts[i + 1..]));
    assert GoodPart(parts[i]);
  }

  lemma SecondChar(front: string, part: string, rest: string)
    requires |part| >= 2
    ensures (front + part + rest)[|front| + 1] == part[1]
  {
  }

  lemma BackslashInside(parts: seq<Part>, i: nat)
    requires i < |parts| && !parts[i].Plain?
    ensures |PrintParts(parts[..i])| + 1 < |PrintParts(parts)|
  {
    PartAt(parts, i);
  }

  /** The text split at the escaped quote. */
  lemma SplitAtQuote(lead: string, outer: string, a: string, b: string, tail: string, trail: string, piece: string)
    ensures var text := lead + (outer + (a + b) + tail) + trail;
            var p := |lead| + |outer| + |a|;
            p <= |text| && Insert(text, p, piece) == lead + (outer + (a + piece + b) + tail) + trail
  {
    var text := lead + (outer + (a + b) + tail) + trail;
    assert text[..|lead| + |outer| + |a|] == lead + outer + a;
    assert text[|lead| + |outer| + |a|..] == b + tail + trail;
  }

  lemma CharOfName(lead: string, left: string, parts: seq<Part>, rest: string, trail: string, text: string, i: nat,
                   p: nat)
    requires text == lead + (left + (Quote(parts) + rest)) + trail && GoodParts(parts)
    requires BackslashAt(parts, i, p - |lead| - |left|) && p < |text| && text[p] == '"'
    ensures parts[i] == Escape('"')
  {
    var k := |PrintParts(parts[..i])|;
    BackslashInside(parts, i);
    CharText(lead, left, PrintParts(parts), rest, trail, k + 1);
    EscapeIsQuote(parts, i);
  }

  lemma CharText(lead: string, left: string, s: string, rest: string, trail: string, k: nat)
    requires k < |s|
    ensures var text := lead + (left + ("\"" + s + "\"" + rest)) + trail;
            |lead| + |left| + 1 + k < |text| && text[|lead| + |left| + 1 + k] == s[k]
  {
  }

  lemma MemberStarts(lead: string, v: Value, trail: string, path: Path, left: string, right: string, parts: seq<Part>)
    returns (rest: string)
    requires Reads(v, path, left, right) && NamedAt(v, path, parts)
    ensures lead + Print(v) + trail == lead + (left + (Quote(parts) + rest)) + trail && GoodParts(parts)
  {
    rest := AfterStarts(v, path);
    ReadsPrints(lead, v, trail, path, left, right);
    NameIsGood(v, path);
  }

  /** The escape behind whose backslash the anchor starts is that of a quote. */
  lemma EscapeOfAnchor(text: string, lead: string, v: Value, trail: string, spot: Spot, p: nat)
    requires text == lead + Print(v) + trail && IsSpot(v, spot) && OccursAt(text, ANCHOR, p)
    requires BackslashAt(spot.parts, spot.i, p - |lead| - |spot.left|)
    ensures spot.parts[spot.i] == Escape('"')
  {
    var rest := MemberStarts(lead, v, trail, spot.path, spot.left, spot.right, spot.parts);
    AnchorStarts(text, p);
    CharOfName(lead, spot.left, spot.parts, rest, trail, text, spot.i, p);
  }

  /** The value with the name of a member split at an escaped quote. */
  lemma SplitValue(v: Value, path: Path, left: string, right: string, parts: seq<Part>, i: nat, note: Note)
    returns (w: Value, outer: string, a: string, b: string, tail: string)
    requires Reads(v, path, left, right) && NamedAt(v, path, parts) && IsIdentifier(note.key)
    requires i < |parts| && parts[i] == Escape('"')
    ensures |outer| + |a| == |left| + |PrintParts(parts[..i])| + 2
    ensures Good(w) && Print(v) == outer + (a + b) + tail && Print(w) == outer + (a + NotePiece(note) + b) + tail
    ensures Points(w, Moved(path)) && |Before(w, Moved(path))| == |outer| + |a| + |NotePiece(note)|
  {
    var name := NameAt(v, path);
    w := Put(v, path, FirstHalf(name, i, note), SecondHalf(name, i));
    NameIsGood(v, path);
    HalvesGood(name, i, note);
    PutGood(v, path, FirstHalf(name, i, note), SecondHalf(name, i));
    outer, tail := PutKeeps(v, path, FirstHalf(name, i, note), SecondHalf(name, i));
    a, b := HalvesPrint(name, i, note);
  }

  lemma SplitStays(text: string, lead: string, outer: string, a: string, b: string, tail: string, trail: string,
                   note: Note, p: nat)
    requires text == lead + (outer + (a + b) + tail) + trail && p == |lead| + |outer| + |a|
    requires IsNew(text, note) && InsertionPoint(text) == Some(p)
    ensures Injection(text, note) == lead + (outer + (a + NotePiece(note) + b) + tail) + trail
  {
    hide Piece, SkipBlanks, ToString;
    SplitAtQuote(lead, outer, a, b, tail, trail, NotePiece(note));
    InjectedIs(text, note.key, note.Literal());
  }

  lemma SpotStays(text: string, lead: string, v: Value, trail: string, note: Note, p: nat, spot: Spot)
    returns (w: Value, left: string, right: string)
    requires text == lead + Print(v) + trail && IsNew(text, note) && InsertionPoint(text) == Some(p)
    requires IsSpot(v, spot) && BackslashAt(spot.parts, spot.i, p - |lead| - |spot.left|)
    requires spot.parts[spot.i] == Escape('"')
    ensures Good(w) && Injection(text, note) == lead + Print(w) + trail
    ensures Reads(w, Moved(spot.path), left, right) && |lead| + |left| == p + |NotePiece(note)|
  {
    var outer, a, b, tail: string;
    w, outer, a, b, tail := SplitValue(v, spot.path, spot.left, spot.right, spot.parts, spot.i, note);
    SplitStays(text, lead, outer, a, b, tail, trail, note, p);
    left, right := Before(w, Moved(spot.path)), After(w, Moved(spot.path));
  }

  lemma AnchorBehind(text: string, note: Note, p: nat)
    requires IsNew(text, note) && Find(text, ANCHOR, 0) == Some(p)
    ensures Find(Injection(text, note), ANCHOR, 0) == Some(p + |NotePiece(note)|)
  {
    NotDuration(text, note.key, p);
    AnchoredStep(text, note, p);
  }

  lemma SplitAnchors(text: string, lead: string, note: Note, p: nat, w: Value, path: Path, left: string, right: string)
    requires IsNew(text, note) && Find(text, ANCHOR, 0) == Some(p) && Reads(w, path, left, right)
    requires |lead| + |left| == p + |NotePiece(note)|
    ensures AnchorsMember(Injection(text, note), lead, w)
  {
    hide *;
    AnchorBehind(text, note, p);
    AnchorsHere(Injection(text, note), lead, w, path, left, right);
  }

  lemma EscapeAtAnchor(text: string, lead: string, v: Value, trail: string) returns (spot: Spot)
    requires text == lead + Print(v) + trail && AnchorsEscaped(text, lead, v)
    ensures IsSpot(v, spot) && spot.i < |spot.parts| && spot.parts[spot.i] == Escape('"')
    ensures BackslashAt(spot.parts, spot.i, Find(text, ANCHOR, 0).value - |lead| - |spot.left|)
  {
    spot :| IsSpot(v, spot) && EscapedAt(text, lead, spot);
    EscapeOfAnchor(text, lead, v, trail, spot, Find(text, ANCHOR, 0).value);
  }

  /** Once the name has been split, the anchor opens the name that is its second half. */
  lemma EscapedStays(text: string, lead: string, v: Value, trail: string, note: Note) returns (w: Value)
    requires IsPrinted(text, lead, v, trail) && IsNew(text, note) && AnchorsEscaped(text, lead, v)
    ensures IsPrinted(Injection(text, note), lead, w, trail) && AnchorsMember(Injection(text, note), lead, w)
  {
    var p := Find(text, ANCHOR, 0).value;
    var spot := EscapeAtAnchor(text, lead, v, trail);
    var left, right: string;
    w, left, right := SpotStays(text, lead, v, trail, note, p, spot);
    SplitAnchors(text, lead, note, p, w, Moved(spot.path), left, right);
  }

  // ---- The exact condition ---------------------------------------------

  /** There is no place to insert at, or the first anchor opens the name of a member, or there is no anchor and the
      text is a non-empty object without any '[', or the first anchor starts at an escaped quote in the name of a
      member. */
  ghost predicate Suits(text: string, lead: string, v: Value) {
    || InsertionPoint(text) == None || AnchorsMember(text, lead, v) || FallsIntoObject(text, v)
    || AnchorsEscaped(text, lead, v)
  }

  lemma StaysNeeds(text: string, lead: string, v: Value, trail: string, notes: seq<Note>)
    requires IsPrinted(text, lead, v, trail) && AreNew(text, notes) && notes != []
    requires IsJson(InjectAll(text, notes)) && InsertionPoint(text).Some?
    ensures AnchorsMember(text, lead, v) || FallsIntoObject(text, v) || AnchorsEscaped(text, lead, v)
  {
    var p := InsertionPoint(text).value;
    if Find(text, ANCHOR, 0).Some? {
      if !NamesNext(Read(text[..p], START)) {
        InjectionsBreak(text, p, notes);
      }
      AnchorNeeds(text, lead, v, trail, p);
    } else {
      FallbackNeeds(text, lead, v, trail, notes);
    }
  }

  lemma PrintedIsJson(text: string, lead: string, v: Value, trail: string)
    requires IsPrinted(text, lead, v, trail)
    ensures IsJson(text)
  {
    assert IsJsonWith(text, lead, v, trail);
  }

  lemma RestNew(text: string, note: Note, rest: seq<Note>)
    requires AreNew(text, [note] + rest)
    ensures IsNew(text, note) && AreNew(Injection(text, note), rest)
  {
    hide Quoted;
    var all := [note] + rest;
    assert all[0] == note && forall i :: 0 <= i < |rest| ==> all[i + 1] == rest[i];
    OnlyNote(text, note);
    forall i | 0 <= i < |rest| ensures IsNew(Injection(text, note), rest[i]) {
      StillNew(text, [note], rest[i]);
    }
  }

  lemma EscapedThen(text: string, lead: string, v: Value, trail: string, note: Note, rest: seq<Note>)
    requires IsPrinted(text, lead, v, trail) && AreNew(text, [note] + rest) && AnchorsEscaped(text, lead, v)
    ensures IsJson(InjectAll(text, [note] + rest))
  {
    hide *;
    RestNew(text, note, rest);
    var w := EscapedStays(text, lead, v, trail, note);
    w := AllGained(Injection(text, note), lead, w, trail, rest);
    OnlyNote(text, note);
    InjectAllConcat(text, [note], rest);
    PrintedIsJson(InjectAll(text, [note] + rest), lead, w, trail);
  }

  lemma FirstNote(notes: seq<Note>)
    requires notes != []
    ensures notes == [notes[0]] + notes[1..]
  {
  }

  lemma StaysThen(text: string, lead: string, v: Value, trail: string, notes: seq<Note>)
    requires IsPrinted(text, lead, v, trail) && AreNew(text, notes) && notes != [] && Suits(text, lead, v)
    ensures IsJson(InjectAll(text, notes))
  {
    if InsertionPoint(text) == None {
      AllUnchanged(text, notes);
      PrintedIsJson(text, lead, v, trail);
    } else if Fits(text, lead, v) {
      var w := AllGained(text, lead, v, trail, notes);
      PrintedIsJson(InjectAll(text, notes), lead, w, trail);
    } else {
      FirstNote(notes);
      EscapedThen(text, lead, v, trail, notes[0], notes[1..]);
    }
  }

  /** A JSON text is still JSON after any new keys have been injected if and only if there is no place to insert at,
      or the first anchor opens the name of a member, or there is no anchor and the text is a non-empty object without
      any '[', or the first anchor starts at an escaped quote in the name of a member, which is then split in two. */
  lemma InjectAllStaysJsonIff(text: string, lead: string, v: Value, trail: string, notes: seq<Note>)
    requires IsPrinted(text, lead, v, trail) && AreNew(text, notes) && notes != []
    ensures IsJson(InjectAll(text, notes)) <==> Suits(text, lead, v)
  {
    if Suits(text, lead, v) {
      StaysThen(text, lead, v, trail, notes);
    } else if IsJson(InjectAll(text, notes)) {
      StaysNeeds(text, lead, v, trail, notes);
    }
  }

  /** The same for one key. */
  lemma InjectionStaysJsonIff(text: string, lead: string, v: Value, trail: string, note: Note)
    requires IsPrinted(text, lead, v, trail) && IsNew(text, note)
    ensures IsJson(Injection(text, note)) <==> Suits(text, lead, v)
  {
    OnlyNote(text, note);
    InjectAllStaysJsonIff(text, lead, v, trail, [note]);
  }

  // ---- JSON without the member -----------------------------------------

  const ODD_PARTS: seq<Part> := [Plain('a'), Escape('"')] + PlainParts("duration")

  const ODD: Value := Object([Entry(Name("", ODD_PARTS, ""), " ", Scalar("1"), "")], "")

  const ODD_TEXT: string := "{\"a\\\"duration\": 1}"

  lemma OddParts()
    ensures PrintParts(ODD_PARTS) == "a" + "\\\"" + "duration"
    ensures PrintParts(ODD_PARTS[..1]) == "a"
  {
    PlainPrints("duration");
    PartsConcat([Plain('a'), Escape('"')], PlainParts("duration"));
    PartsConcat([Plain('a')], [Escape('"')]);
    assert [Plain('a')] + [Escape('"')] == [Plain('a'), Escape('"')];
    OnePart(Plain('a'));
    OnePart(Escape('"'));
    assert PartText(Escape('"')) == "\\\"";
    assert ODD_PARTS[..1] == [Plain('a')];
  }

  lemma OddGood()
    ensures Good(ODD)
  {
    forall i | 0 <= i < |ODD_PARTS| ensures GoodPart(ODD_PARTS[i]) {
      if i >= 2 {
        assert ODD_PARTS[i] == PlainParts("duration")[i - 2];
      }
    }
    IntegerIsScalar(1);
    assert ToString(1) == "1" && Good(Scalar("1"));
    assert GoodEntry(ODD.entries[0], true);
  }

  lemma SolePrints(parts: seq<Part>)
    ensures Print(Object([Entry(Name("", parts, ""), " ", Scalar("1"), "")], "")) == "{" + Quote(parts) + ": 1}"
  {
    var e := Entry(Name("", parts, ""), " ", Scalar("1"), "");
    assert PrintName(e.name) == Quote(parts) + ":";
    assert PrintEntry(e) == Quote(parts) + ": 1";
  }

  lemma OddText(s: string)
    requires s == "a" + "\\\"" + "duration"
    ensures "{" + ("\"" + s + "\"") + ": 1}" == ODD_TEXT
  {
  }

  lemma OddPrints()
    ensures Print(ODD) == ODD_TEXT
  {
    OddParts();
    SolePrints(ODD_PARTS);
    OddText(PrintParts(ODD_PARTS));
  }

  lemma OddAnchor()
    ensures Find(ODD_TEXT, ANCHOR, 0) == Some(4)
  {
    assert ODD_TEXT[4..14] == ANCHOR;
    forall i | 0 <= i < 4 ensures !OccursAt(ODD_TEXT, ANCHOR, i) {
      if OccursAt(ODD_TEXT, ANCHOR, i) {
        AnchorStarts(ODD_TEXT, i);
      }
    }
    FindIs(ODD_TEXT, ANCHOR, 4);
  }

  lemma OddMember(path: Path)
    requires Points(ODD, path)
    ensures path == Member(0) && Before(ODD, path) == "{"
  {
    assert ODD.entries[..0] == [];
  }

  lemma OddPrinted()
    ensures IsPrinted(ODD_TEXT, "", ODD, "")
  {
    OddGood();
    OddPrints();
    assert ODD_TEXT == "" + Print(ODD) + "";
  }

  lemma OddEscaped()
    ensures AnchorsEscaped(ODD_TEXT, "", ODD)
  {
    OddParts();
    OddGood();
    OddAnchor();
    OddMember(Member(0));
    var spot := Spot(Member(0), "{", After(ODD, Member(0)), ODD_PARTS, 1);
    assert IsSpot(ODD, spot) && EscapedAt(ODD_TEXT, "", spot);
  }

  lemma OddNoMember()
    ensures !AnchorsMember(ODD_TEXT, "", ODD) && !FallsIntoObject(ODD_TEXT, ODD)
  {
    OddAnchor();
    if AnchorsMember(ODD_TEXT, "", ODD) {
      var path, left, right :| Reads(ODD, path, left, right) && AnchorsAt(ODD_TEXT, "", left);
      OddMember(path);
    }
  }

  /** The object {"a\"duration": 1} becomes {"a\"k": 1, "duration": 1}: it is JSON, but its member has been split. */
  lemma EscapedExample(note: Note)
    requires IsNew(ODD_TEXT, note)
    ensures IsPrinted(ODD_TEXT, "", ODD, "")
    ensures IsJson(Injection(ODD_TEXT, note)) && !GainsMember(Injection(ODD_TEXT, note), "", ODD, "", note)
  {
    OddPrinted();
    OddEscaped();
    OddNoMember();
    InjectionStaysJsonIff(ODD_TEXT, "", ODD, "", note);
    InjectionGainsIff(ODD_TEXT, "", ODD, "", note);
  }
}
