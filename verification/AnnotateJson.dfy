/** Injecting before a member of a JSON text keeps it JSON: the object gains exactly the injected members. */
module AnnotateJson {
  import opened Wrappers
  import opened Strings
  import opened Json
  import opened Annotate
  import opened AnnotateRuns

  /** The way from a value to a member of one of the objects inside it. */
  datatype Path = Member(k: nat) | Into(k: nat, rest: Path)

  predicate HasEntries(v: Value) {
    v.Array? || v.Object?
  }

  predicate Points(v: Value, path: Path) {
    && HasEntries(v) && path.k < |v.entries|
    && match path
       case Member(k) => v.Object? && v.entries[k].name.Name?
       case Into(k, rest) => Points(v.entries[k].value, rest)
  }

  // ---- The text before and behind a member -----------------------------

  function Open(v: Value): string {
    if v.Array? then "[" else "{"
  }

  function Close(v: Value): string {
    if v.Array? then "]" else "}"
  }

  /** The entries, each with its comma. */
  function Front(entries: seq<Entry>): string {
    if entries == [] then "" else PrintEntry(entries[0]) + "," + Front(entries[1..])
  }

  function Rear(entries: seq<Entry>): string {
    if entries == [] then "" else "," + PrintBody(entries, "")
  }

  function Ahead(v: Value, k: nat): string
    requires HasEntries(v) && k < |v.entries|
  {
    Open(v) + Front(v.entries[..k])
  }

  function Behind(v: Value, k: nat): string
    requires HasEntries(v) && k < |v.entries|
  {
    Rear(v.entries[k + 1..]) + Close(v)
  }

  function NameRest(name: Name): string
    requires name.Name?
  {
    Quote(name.parts) + name.after + ":"
  }

  /** Everything before the quote that opens the name of the member. */
  function Before(v: Value, path: Path): string
    requires Points(v, path)
    decreases path
  {
    var e := v.entries[path.k];
    Ahead(v, path.k)
    + match path
      case Member(_) => e.name.before
      case Into(_, rest) => PrintName(e.name) + e.before + Before(e.value, rest)
  }

  function After(v: Value, path: Path): string
    requires Points(v, path)
    decreases path
  {
    var e := v.entries[path.k];
    (match path
     case Member(_) => NameRest(e.name) + (e.before + Print(e.value) + e.after)
     case Into(_, rest) => After(e.value, rest) + e.after)
    + Behind(v, path.k)
  }

  lemma Glue(a: string, b: string, c: string, d: string)
    ensures a + "," + (b + c + d) == (a + "," + b) + c + d
  {
  }

  lemma FrontCons(entries: seq<Entry>, k: nat)
    requires 0 < k < |entries|
    ensures Front(entries[..k]) == PrintEntry(entries[0]) + "," + Front(entries[1..][..k - 1])
  {
    assert entries[..k][1..] == entries[1..][..k - 1];
  }

  lemma BodyCons(entries: seq<Entry>, pad: string)
    requires |entries| > 1
    ensures PrintBody(entries, pad) == PrintEntry(entries[0]) + "," + PrintBody(entries[1..], pad)
  {
  }

  lemma RearOf(entries: seq<Entry>, pad: string)
    requires entries != []
    ensures Rear(entries) == "," + PrintBody(entries, pad)
  {
    PadUnused(entries, pad, "");
  }

  lemma Comma(a: string, b: string)
    ensures a + "," + b == a + ("," + b)
  {
  }

  lemma FirstSplits(entries: seq<Entry>, pad: string)
    requires entries != []
    ensures PrintBody(entries, pad) == PrintEntry(entries[0]) + Rear(entries[1..])
  {
    if |entries| > 1 {
      BodyCons(entries, pad);
      RearOf(entries[1..], pad);
      Comma(PrintEntry(entries[0]), PrintBody(entries[1..], pad));
    } else {
      OnlyEntry(entries, pad);
    }
  }

  lemma OnlyEntry(entries: seq<Entry>, pad: string)
    requires |entries| == 1
    ensures PrintBody(entries, pad) == PrintEntry(entries[0]) + Rear(entries[1..])
  {
    assert Rear(entries[1..]) == "";
  }

  lemma {:induction false} BodySplits(entries: seq<Entry>, pad: string, k: nat)
    requires k < |entries|
    ensures PrintBody(entries, pad) == Front(entries[..k]) + PrintEntry(entries[k]) + Rear(entries[k + 1..])
    decreases k
  {
    if k == 0 {
      FirstSplits(entries, pad);
      assert "" + PrintEntry(entries[0]) == PrintEntry(entries[0]);
    } else {
      var tail := entries[1..];
      BodySplits(tail, pad, k - 1);
      assert tail[k - 1] == entries[k] && tail[k..] == entries[k + 1..];
      BodyCons(entries, pad);
      FrontCons(entries, k);
      Glue(PrintEntry(entries[0]), Front(tail[..k - 1]), PrintEntry(entries[k]), Rear(entries[k + 1..]));
    }
  }

  lemma ValueSplits(v: Value, k: nat)
    requires HasEntries(v) && k < |v.entries|
    ensures Print(v) == Ahead(v, k) + PrintEntry(v.entries[k]) + Behind(v, k)
  {
    BodySplits(v.entries, v.pad, k);
    Bracketed(Open(v), Front(v.entries[..k]), PrintEntry(v.entries[k]), Rear(v.entries[k + 1..]), Close(v));
  }

  lemma Bracketed(open: string, front: string, entry: string, rear: string, close: string)
    ensures open + (front + entry + rear) + close == (open + front) + entry + (rear + close)
  {
  }

  lemma NameSplits(name: Name)
    requires name.Name?
    ensures PrintName(name) == name.before + NameRest(name)
  {
    NameText(name.before, Quote(name.parts), name.after);
  }

  lemma NameText(blanks: string, name: string, after: string)
    ensures blanks + name + after + ":" == blanks + (name + after + ":")
  {
  }

  lemma SplitMember(v: Value, k: nat)
    requires Points(v, Member(k))
    ensures Print(v) == Before(v, Member(k)) + After(v, Member(k))
  {
    var e := v.entries[k];
    ValueSplits(v, k);
    NameSplits(e.name);
    MemberText(Ahead(v, k), e.name.before, NameRest(e.name), e.before, Print(e.value), e.after, Behind(v, k));
  }

  lemma MemberText(ahead: string, blanks: string, name: string, b: string, value: string, c: string, behind: string)
    ensures ahead + ((blanks + name) + b + value + c) + behind == (ahead + blanks) + ((name + (b + value + c)) + behind)
  {
  }

  lemma SplitInto(v: Value, k: nat, rest: Path)
    requires Points(v, Into(k, rest))
    requires Print(v.entries[k].value) == Before(v.entries[k].value, rest) + After(v.entries[k].value, rest)
    ensures Print(v) == Before(v, Into(k, rest)) + After(v, Into(k, rest))
  {
    var e := v.entries[k];
    ValueSplits(v, k);
    SplitText(Ahead(v, k), PrintName(e.name) + e.before, Before(e.value, rest), After(e.value, rest), e.after,
              Behind(v, k));
  }

  lemma SplitText(ahead: string, head: string, left: string, right: string, tail: string, behind: string)
    ensures ahead + (head + (left + right) + tail) + behind == (ahead + (head + left)) + ((right + tail) + behind)
  {
  }

  lemma {:induction false} PrintSplits(v: Value, path: Path)
    requires Points(v, path)
    ensures Print(v) == Before(v, path) + After(v, path)
    decreases path
  {
    match path
    case Member(k) => SplitMember(v, k);
    case Into(k, rest) =>
      PrintSplits(v.entries[k].value, rest);
      SplitInto(v, k, rest);
  }

  // ---- A new member ----------------------------------------------------

  function PlainParts(key: string): seq<Part> {
    seq(|key|, i requires 0 <= i < |key| => Plain(key[i]))
  }

  lemma {:induction false} PlainPrints(key: string)
    ensures PrintParts(PlainParts(key)) == key
  {
    if key != "" {
      PlainPrints(key[1..]);
      assert PlainParts(key)[1..] == PlainParts(key[1..]);
    }
  }

  function NoteEntry(note: Note, blanks: string): Entry {
    Entry(Name(blanks, PlainParts(note.key), ""), " ", Scalar(note.Literal()), "")
  }

  /** The entries with a member put before entry `k`, which then starts behind a single blank. */
  function Grown(entries: seq<Entry>, k: nat, note: Note): seq<Entry>
    requires k < |entries| && entries[k].name.Name?
  {
    var e := entries[k];
    entries[..k] + [NoteEntry(note, e.name.before), e.(name := e.name.(before := " "))] + entries[k + 1..]
  }

  /** The value with a member put before the one that the path points to. */
  function Add(v: Value, path: Path, note: Note): Value
    requires Points(v, path)
    decreases path
  {
    match path
    case Member(k) => v.(entries := Grown(v.entries, k, note))
    case Into(k, rest) => v.(entries := v.entries[k := v.entries[k].(value := Add(v.entries[k].value, rest, note))])
  }

  /** The way to the same member afterwards. */
  function Moved(path: Path): Path {
    match path
    case Member(k) => Member(k + 1)
    case Into(k, rest) => Into(k, Moved(rest))
  }

  lemma NoteGood(note: Note, blanks: string)
    requires IsIdentifier(note.key) && Blank(blanks, JSON_BLANKS)
    ensures GoodEntry(NoteEntry(note, blanks), true)
    ensures PrintEntry(NoteEntry(note, blanks)) + "," + " " == blanks + Piece(note.key, note.Literal())
  {
    IntegerIsScalar(note.value);
    PlainPrints(note.key);
    forall i | 0 <= i < |note.key| ensures GoodPart(Plain(note.key[i])) {
      assert IsNameChar(note.key[i]);
    }
    NoteText(blanks, Quoted(note.key), note.Literal());
    assert Quote(PlainParts(note.key)) == Quoted(note.key);
  }

  lemma NoteText(blanks: string, name: string, literal: string)
    ensures (blanks + name + "" + ":") + " " + literal + "" + "," + " " == blanks + (name + (": " + literal + ", "))
  {
  }

  lemma {:induction false} FrontSnoc(entries: seq<Entry>, e: Entry)
    ensures Front(entries + [e]) == Front(entries) + (PrintEntry(e) + ",")
  {
    hide PrintEntry;
    if entries == [] {
      assert entries + [e] == [e];
      assert [e][1..] == [];
    } else {
      FrontSnoc(entries[1..], e);
      assert (entries + [e])[1..] == entries[1..] + [e];
    }
  }

  lemma GrownGood(entries: seq<Entry>, k: nat, note: Note)
    requires GoodEntries(entries, true) && k < |entries| && entries[k].name.Name? && IsIdentifier(note.key)
    ensures GoodEntries(Grown(entries, k, note), true)
  {
    var e := entries[k];
    assert GoodEntry(e, true);
    NoteGood(note, e.name.before);
    var grown := Grown(entries, k, note);
    forall i | 0 <= i < |grown| ensures GoodEntry(grown[i], true) {
      if i < k {
        assert grown[i] == entries[i];
      } else if i > k + 1 {
        assert grown[i] == entries[i - 1];
      }
    }
  }

  lemma ReplacedGood(entries: seq<Entry>, named: bool, k: nat, value: Value)
    requires GoodEntries(entries, named) && k < |entries| && Good(value)
    ensures GoodEntries(entries[k := entries[k].(value := value)], named)
  {
    assert GoodEntry(entries[k], named);
    var replaced := entries[k := entries[k].(value := value)];
    forall i | 0 <= i < |replaced| ensures GoodEntry(replaced[i], named) {
      assert GoodEntry(entries[i], named);
    }
  }

  /** A well-formed value stays well-formed. */
  lemma {:induction false} AddGood(v: Value, path: Path, note: Note)
    requires Good(v) && Points(v, path) && IsIdentifier(note.key)
    ensures Good(Add(v, path, note))
    decreases path
  {
    match path
    case Member(k) => GrownGood(v.entries, k, note);
    case Into(k, rest) =>
      assert GoodEntry(v.entries[k], v.Object?);
      AddGood(v.entries[k].value, rest, note);
      ReplacedGood(v.entries, v.Object?, k, Add(v.entries[k].value, rest, note));
  }

  lemma GrownSlices(entries: seq<Entry>, k: nat, note: Note)
    requires k < |entries| && entries[k].name.Name?
    ensures var grown, e := Grown(entries, k, note), entries[k];
            && |grown| == |entries| + 1
            && grown[..k + 1] == entries[..k] + [NoteEntry(note, e.name.before)]
            && grown[k + 1] == e.(name := e.name.(before := " "))
            && grown[k + 2..] == entries[k + 1..]
  {
  }

  /** Putting a member into an object puts its piece into the text, right before the member pointed to. */
  lemma AddHere(v: Value, k: nat, note: Note)
    requires Points(v, Member(k)) && IsIdentifier(note.key) && Blank(v.entries[k].name.before, JSON_BLANKS)
    ensures var w := Add(v, Member(k), note);
            && Points(w, Member(k + 1))
            && Before(w, Member(k + 1)) == Before(v, Member(k)) + Piece(note.key, note.Literal())
            && After(w, Member(k + 1)) == After(v, Member(k))
  {
    GrownSlices(v.entries, k, note);
    var e := v.entries[k];
    var added := NoteEntry(note, e.name.before);
    FrontSnoc(v.entries[..k], added);
    NoteGood(note, e.name.before);
    BeforeText(Open(v), Front(v.entries[..k]), PrintEntry(added), e.name.before, Piece(note.key, note.Literal()));
  }

  lemma BeforeText(open: string, front: string, entry: string, blanks: string, piece: string)
    requires entry + "," + " " == blanks + piece
    ensures (open + (front + (entry + ","))) + " " == ((open + front) + blanks) + piece
  {
    assert (open + (front + (entry + ","))) + " " == (open + front) + (entry + "," + " ");
  }

  lemma AddInto(v: Value, k: nat, rest: Path, piece: string, w: Value, inner: Value)
    requires Points(v, Into(k, rest)) && Points(inner, Moved(rest))
    requires w == v.(entries := v.entries[k := v.entries[k].(value := inner)])
    requires Before(inner, Moved(rest)) == Before(v.entries[k].value, rest) + piece
    requires After(inner, Moved(rest)) == After(v.entries[k].value, rest)
    ensures Points(w, Into(k, Moved(rest)))
    ensures Before(w, Into(k, Moved(rest))) == Before(v, Into(k, rest)) + piece
    ensures After(w, Into(k, Moved(rest))) == After(v, Into(k, rest))
  {
    var e := v.entries[k];
    assert w.entries[..k] == v.entries[..k] && w.entries[k + 1..] == v.entries[k + 1..];
    assert Ahead(w, k) == Ahead(v, k) && Behind(w, k) == Behind(v, k);
    IntoText(Ahead(v, k), PrintName(e.name) + e.before, Before(e.value, rest), piece);
  }

  lemma IntoText(ahead: string, head: string, left: string, piece: string)
    ensures ahead + (head + (left + piece)) == (ahead + (head + left)) + piece
  {
  }

  lemma {:induction false} AddSplits(v: Value, path: Path, note: Note)
    requires Good(v) && Points(v, path) && IsIdentifier(note.key)
    ensures var w := Add(v, path, note);
            && Points(w, Moved(path))
            && Before(w, Moved(path)) == Before(v, path) + Piece(note.key, note.Literal())
            && After(w, Moved(path)) == After(v, path)
    decreases path
  {
    hide Behind, Grown, Quoted;
    assert GoodEntry(v.entries[path.k], v.Object?);
    match path
    case Member(k) => AddHere(v, k, note);
    case Into(k, rest) =>
      AddSplits(v.entries[k].value, rest, note);
      AddInto(v, k, rest, Piece(note.key, note.Literal()), Add(v, path, note), Add(v.entries[k].value, rest, note));
  }

  // ---- All members -----------------------------------------------------

  predicate Identifiers(notes: seq<Note>) {
    forall i :: 0 <= i < |notes| ==> IsIdentifier(notes[i].key)
  }

  /** `w` is `v` with the members `notes` put, in order, before the one that `path` points to. */
  ghost predicate Gains(v: Value, path: Path, notes: seq<Note>, w: Value, end: Path) {
    if notes == [] then w == v && end == path
    else
      var n := |notes| - 1;
      exists u, mid :: Gains(v, path, notes[..n], u, mid) && GainsOne(u, mid, notes[n], w, end)
  }

  predicate GainsOne(u: Value, mid: Path, note: Note, w: Value, end: Path) {
    Points(u, mid) && w == Add(u, mid, note) && end == Moved(mid)
  }

  /** The value is well-formed, and its text is `left` up to the member and `right` from there on. */
  predicate Reads(w: Value, end: Path, left: string, right: string) {
    Good(w) && Points(w, end) && Before(w, end) == left && After(w, end) == right
  }

  lemma AddReads(u: Value, mid: Path, left: string, right: string, note: Note)
    requires Reads(u, mid, left, right) && IsIdentifier(note.key)
    ensures Reads(Add(u, mid, note), Moved(mid), left + Piece(note.key, note.Literal()), right)
  {
    AddGood(u, mid, note);
    AddSplits(u, mid, note);
  }

  lemma {:induction false} AllAdded(v: Value, path: Path, notes: seq<Note>, left: string, right: string)
    returns (w: Value, end: Path)
    requires Reads(v, path, left, right) && Identifiers(notes)
    ensures Gains(v, path, notes, w, end)
    ensures Reads(w, end, left + Pieces(notes), right)
  {
    if notes == [] {
      w, end := v, path;
      assert left + "" == left;
    } else {
      var n := |notes| - 1;
      var u, mid := AllAdded(v, path, notes[..n], left, right);
      AddReads(u, mid, left + Pieces(notes[..n]), right, notes[n]);
      w, end := Add(u, mid, notes[n]), Moved(mid);
      assert GainsOne(u, mid, notes[n], w, end);
      Regroup(left, Pieces(notes[..n]), Piece(notes[n].key, notes[n].Literal()));
    }
  }

  lemma Regroup(left: string, a: string, b: string)
    ensures (left + a) + b == left + (a + b)
  {
  }

  lemma TextSplits(lead: string, left: string, right: string, trail: string)
    ensures lead + (left + right) + trail == (lead + left) + "" + (right + trail)
  {
  }

  lemma TextJoins(lead: string, left: string, pieces: string, right: string, trail: string)
    ensures (lead + left) + pieces + (right + trail) == lead + ((left + pieces) + right) + trail
  {
  }

  lemma InjectedBetween(text: string, a: string, b: string, notes: seq<Note>)
    requires text == a + "" + b && Fresh(text, notes) && Find(text, ANCHOR, 0) == Some(|a|)
    ensures InjectAll(text, notes) == a + Pieces(notes) + b
  {
    AnchoredLayout(text, notes, a, b);
  }

  lemma GainText(text: string, lead: string, left: string, right: string, trail: string, notes: seq<Note>)
    requires text == lead + (left + right) + trail && Fresh(text, notes)
    requires Find(text, ANCHOR, 0) == Some(|lead| + |left|)
    ensures InjectAll(text, notes) == lead + ((left + Pieces(notes)) + right) + trail
  {
    TextSplits(lead, left, right, trail);
    InjectedBetween(text, lead + left, right + trail, notes);
    TextJoins(lead, left, Pieces(notes), right, trail);
  }

  /** The text prints `v` with the members gained, between the same blanks. */
  ghost predicate PrintsGain(text: string, lead: string, v: Value, trail: string, path: Path, notes: seq<Note>) {
    exists w, end :: Gains(v, path, notes, w, end) && Good(w) && text == lead + Print(w) + trail
  }

  lemma GainPrinted(lead: string, v: Value, trail: string, path: Path, notes: seq<Note>, left: string, right: string)
    requires Reads(v, path, left, right) && Identifiers(notes)
    ensures PrintsGain(lead + ((left + Pieces(notes)) + right) + trail, lead, v, trail, path, notes)
  {
    var w, end := AllAdded(v, path, notes, left, right);
    PrintSplits(w, end);
  }

  lemma FreshIdentifiers(text: string, notes: seq<Note>)
    requires Fresh(text, notes)
    ensures Identifiers(notes)
  {
  }

  lemma GainAt(text: string, lead: string, v: Value, trail: string, path: Path, notes: seq<Note>,
               left: string, right: string)
    requires text == lead + (left + right) + trail && Reads(v, path, left, right)
    requires Find(text, ANCHOR, 0) == Some(|lead| + |left|) && Fresh(text, notes)
    ensures PrintsGain(InjectAll(text, notes), lead, v, trail, path, notes)
  {
    GainText(text, lead, left, right, trail, notes);
    FreshIdentifiers(text, notes);
    GainPrinted(lead, v, trail, path, notes, left, right);
  }

  lemma ReadsPrints(lead: string, v: Value, trail: string, path: Path, left: string, right: string)
    requires Reads(v, path, left, right)
    ensures lead + Print(v) + trail == lead + (left + right) + trail
  {
    PrintSplits(v, path);
  }

  /** When the first anchor of a JSON text is the name of a member, at any depth, the text stays JSON whatever new
      identifiers are injected: its object gains exactly these members, in order, right before the anchor's. */
  lemma InjectionStaysJson(text: string, lead: string, v: Value, trail: string, path: Path, notes: seq<Note>,
                           left: string, right: string)
    requires text == lead + Print(v) + trail && Reads(v, path, left, right)
    requires Find(text, ANCHOR, 0) == Some(|lead| + |left|) && Fresh(text, notes)
    ensures PrintsGain(InjectAll(text, notes), lead, v, trail, path, notes)
  {
    ReadsPrints(lead, v, trail, path, left, right);
    GainAt(text, lead, v, trail, path, notes, left, right);
  }
}
