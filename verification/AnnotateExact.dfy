/** Exactly when `inject_json_kv` does what it says: when the injected text is the old value with a member gained. */
module AnnotateExact {
  import opened Wrappers
  import opened Strings
  import opened Json
  import opened Annotate
  import opened AnnotateRuns
  import opened AnnotateJson
  import opened AnnotateFallback

  /** The text prints a value between blanks. */
  predicate IsPrinted(text: string, lead: string, v: Value, trail: string) {
    && Good(v) && Blank(lead, JSON_BLANKS) && Blank(trail, JSON_BLANKS)
    && text == lead + Print(v) + trail
  }

  /** The first anchor stands right behind `left`. */
  predicate AnchorsAt(text: string, lead: string, left: string) {
    Find(text, ANCHOR, 0) == Some(|lead| + |left|)
  }

  /** The first anchor opens the name of a member, at any depth. */
  ghost predicate AnchorsMember(text: string, lead: string, v: Value) {
    exists path, left, right :: Reads(v, path, left, right) && AnchorsAt(text, lead, left)
  }

  /** There is no anchor, and the first bracket opens an object that is not empty. */
  predicate FallsIntoObject(text: string, v: Value) {
    Find(text, ANCHOR, 0) == None && v.Object? && v.entries != [] && '[' !in text
  }

  predicate GainsAt(result: string, lead: string, v: Value, trail: string, note: Note, path: Path) {
    Points(v, path) && result == lead + Print(Add(v, path, note)) + trail
  }

  /** The result prints the value with exactly one member gained, between the same blanks. */
  ghost predicate GainsMember(result: string, lead: string, v: Value, trail: string, note: Note) {
    exists path, left, right :: Reads(v, path, left, right) && GainsAt(result, lead, v, trail, note, path)
  }

  function Injection(text: string, note: Note): string {
    Injected(text, note.key, note.Literal())
  }

  function NotePiece(note: Note): string {
    Piece(note.key, note.Literal())
  }

  predicate IsNew(text: string, note: Note) {
    IsIdentifier(note.key) && !Contains(text, Quoted(note.key))
  }

  // ---- Gaining a member is inserting its piece -------------------------

  lemma GlueInsert(lead: string, left: string, right: string, trail: string, piece: string)
    ensures Insert(lead + (left + right) + trail, |lead| + |left|, piece) == lead + ((left + piece) + right) + trail
  {
    var text := lead + (left + right) + trail;
    assert text[..|lead| + |left|] == lead + left && text[|lead| + |left|..] == right + trail;
  }

  lemma AddPrints(lead: string, v: Value, trail: string, path: Path, note: Note, left: string, right: string)
    requires Reads(v, path, left, right) && IsIdentifier(note.key)
    ensures lead + Print(v) + trail == lead + (left + right) + trail
    ensures lead + Print(Add(v, path, note)) + trail == lead + ((left + NotePiece(note)) + right) + trail
  {
    ReadsPrints(lead, v, trail, path, left, right);
    AddReads(v, path, left, right, note);
    ReadsPrints(lead, Add(v, path, note), trail, Moved(path), left + NotePiece(note), right);
  }

  lemma RemoveGives(text: string, p: nat, piece: string)
    requires p <= |text|
    ensures var t := Insert(text, p, piece);
            |t| == |text| + |piece| && t[..p] + t[p + |piece|..] == text
  {
    RemoveInserted(text, p, piece);
  }

  /** A piece whose key is new is found in one place, so the text it was put into can be told. */
  lemma OnePlace(text: string, p: nat, other: string, q: nat, note: Note)
    requires IsNew(text, note) && Clean(text, p) && q <= |other|
    requires Insert(text, p, NotePiece(note)) == Insert(other, q, NotePiece(note))
    ensures p == q && text == other
  {
    var piece := NotePiece(note);
    LiteralIsNumber(note.value);
    InsertSlices(other, q, piece, q, |piece|);
    PieceHead(Insert(other, q, piece), note.key, note.Literal(), q);
    NoneBefore(text, Quoted(note.key), 0);
    Straddle(text, p, note.key, note.Literal(), note.key, q);
    RemoveGives(text, p, piece);
    RemoveGives(other, q, piece);
  }

  lemma InsertHasKey(text: string, q: nat, note: Note)
    requires q <= |text|
    ensures Contains(Insert(text, q, NotePiece(note)), Quoted(note.key))
  {
    var piece := NotePiece(note);
    InsertSlices(text, q, piece, q, |piece|);
    PieceHead(Insert(text, q, piece), note.key, note.Literal(), q);
    OccursContains(Insert(text, q, piece), Quoted(note.key), q);
  }

  /** An injection that gives a text with a piece put into it has put the piece there. */
  lemma InjectionPlace(text: string, other: string, q: nat, note: Note)
    requires IsNew(text, note) && q <= |other| && Injection(text, note) == Insert(other, q, NotePiece(note))
    ensures InsertionPoint(text) == Some(q) && text == other
  {
    InsertHasKey(other, q, note);
    if InsertionPoint(text).Some? {
      InjectedIs(text, note.key, note.Literal());
      InsertionPointClean(text);
      OnePlace(text, InsertionPoint(text).value, other, q, note);
    }
  }

  // ---- Where a member may be opened ------------------------------------

  /** `s` ends with the character `c` and blanks. */
  ghost predicate EndsWith(s: string, cs: set<char>) {
    exists j :: 0 <= j < |s| && EndsAt(s, cs, j)
  }

  predicate EndsAt(s: string, cs: set<char>, j: nat)
    requires j < |s|
  {
    s[j] in cs && forall i :: j < i < |s| ==> s[i] in JSON_BLANKS
  }

  lemma EndsBehind(head: string, s: string, cs: set<char>)
    requires EndsWith(s, cs)
    ensures EndsWith(head + s, cs)
  {
    var j :| 0 <= j < |s| && EndsAt(s, cs, j);
    assert EndsAt(head + s, cs, |head| + j);
  }

  lemma EndsBlank(s: string, c: char, blanks: string, cs: set<char>)
    requires s != "" && s[|s| - 1] == c && c in cs && Blank(blanks, JSON_BLANKS)
    ensures EndsWith(s + blanks, cs)
  {
    assert EndsAt(s + blanks, cs, |s| - 1);
  }

  const OPENS_MEMBER: set<char> := {'{', ','}

  lemma {:induction false} FrontEnds(entries: seq<Entry>)
    requires entries != []
    ensures Front(entries) != "" && Front(entries)[|Front(entries)| - 1] == ','
  {
    if |entries| > 1 {
      FrontEnds(entries[1..]);
    } else {
      assert Front(entries[1..]) == "";
    }
  }

  lemma AheadEnds(v: Value, k: nat)
    requires v.Object? && k < |v.entries|
    ensures Ahead(v, k) != "" && Ahead(v, k)[|Ahead(v, k)| - 1] in OPENS_MEMBER
  {
    if k > 0 {
      FrontEnds(v.entries[..k]);
    }
  }

  lemma LeftEnds(v: Value, path: Path, left: string, right: string)
    requires Reads(v, path, left, right)
    ensures EndsWith(left, OPENS_MEMBER)
  {
    BeforeEnds(v, path);
  }

  /** Before a member stand blanks, and before them the brace that opens its object or a comma. */
  lemma {:induction false} BeforeEnds(v: Value, path: Path)
    requires Good(v) && Points(v, path)
    ensures EndsWith(Before(v, path), OPENS_MEMBER)
    decreases path
  {
    var e := v.entries[path.k];
    assert GoodEntry(e, v.Object?);
    match path
    case Member(k) =>
      AheadEnds(v, k);
      EndsBlank(Ahead(v, k), Ahead(v, k)[|Ahead(v, k)| - 1], e.name.before, OPENS_MEMBER);
    case Into(k, rest) =>
      BeforeEnds(e.value, rest);
      EndsBehind(PrintName(e.name) + e.before, Before(e.value, rest), OPENS_MEMBER);
      EndsBehind(Ahead(v, k), PrintName(e.name) + e.before + Before(e.value, rest), OPENS_MEMBER);
  }

  /** Skipping blanks behind a '[' does not lead to a member. */
  lemma NoMemberBehind(text: string, b: nat, upTo: string)
    requires b < |text| && text[b] == '[' && upTo <= text && EndsWith(upTo, OPENS_MEMBER)
    ensures SkipBlanks(text, b + 1) != |upTo|
  {
    var j :| 0 <= j < |upTo| && EndsAt(upTo, OPENS_MEMBER, j);
    assert forall i :: 0 <= i < |upTo| ==> text[i] == upTo[i];
    BlanksSkipped(text, b + 1);
  }

  lemma PrefixText(lead: string, left: string, right: string, trail: string)
    ensures var text := lead + (left + right) + trail;
            lead + left <= text && text[|lead + left|..] == right + trail
  {
  }

  /** The first character that is no blank tells arrays, objects and strings apart. */
  lemma FirstChar(text: string, lead: string, v: Value, trail: string)
    requires IsPrinted(text, lead, v, trail)
    ensures |lead| < |text| && text[|lead|] == Print(v)[0] && text[..|lead|] == lead
    ensures v.Array? <==> Print(v)[0] == '['
    ensures v.Object? <==> Print(v)[0] == '{'
    ensures v.Str? <==> Print(v)[0] == '"'
  {
    ValueEnds(v);
    if v.Scalar? {
      ScalarChars(v.text);
      assert IsScalarChar(v.text[0]);
    }
  }

  // ---- The fallback ----------------------------------------------------

  lemma ObjectBracket(text: string, lead: string, v: Value, trail: string)
    requires IsPrinted(text, lead, v, trail) && v.Object? && '[' !in text
    ensures Bracket(text) == Some(|lead|)
  {
    FirstChar(text, lead, v, trail);
    assert forall i :: 0 <= i < |lead| ==> text[i] == lead[i];
    FirstInIs(text, {'{'}, 0, |lead|);
  }

  lemma FirstMember(v: Value) returns (blanks: string, right: string)
    requires Good(v) && v.Object? && v.entries != []
    ensures Reads(v, Member(0), "{" + blanks, right) && Blank(blanks, JSON_BLANKS)
    ensures blanks == v.entries[0].name.before
    ensures right != "" && right[0] == '"'
  {
    assert GoodEntry(v.entries[0], true);
    assert v.entries[..0] == [];
    assert Ahead(v, 0) == "{";
    blanks, right := v.entries[0].name.before, After(v, Member(0));
  }

  lemma SkipIs(text: string, lead: string, blanks: string, rest: string)
    requires text == lead + ("{" + blanks) + rest && Blank(blanks, JSON_BLANKS) && rest != "" && rest[0] == '"'
    ensures SkipBlanks(text, |lead| + 1) == |lead| + 1 + |blanks|
  {
    assert text[|lead| + 1 + |blanks|] == '"';
    forall i | |lead| + 1 <= i < |lead| + 1 + |blanks| ensures text[i] in ALL_BLANKS {
      assert text[i] == blanks[i - |lead| - 1];
    }
    SkipBlanksIs(text, |lead| + 1, |lead| + 1 + |blanks|);
  }

  /** The piece is put right behind `left`. */
  predicate PlacedAt(text: string, lead: string, left: string) {
    InsertionPoint(text) == Some(|lead| + |left|)
  }

  lemma SkipToMember(text: string, lead: string, blanks: string, rest: string)
    requires text == lead + ("{" + blanks) + rest && Blank(blanks, JSON_BLANKS) && rest != "" && rest[0] == '"'
    requires Bracket(text) == Some(|lead|) && Find(text, ANCHOR, 0) == None
    ensures InsertionPoint(text) == Some(|lead| + |"{" + blanks|)
  {
    SkipIs(text, lead, blanks, rest);
    PointIs(text, |lead|, |lead| + 1 + |blanks|);
  }

  /** The blanks are skipped up to the name of the first member. */
  lemma ObjectPlace(text: string, lead: string, v: Value, trail: string) returns (left: string, right: string)
    requires IsPrinted(text, lead, v, trail) && FallsIntoObject(text, v)
    ensures Reads(v, Member(0), left, right) && PlacedAt(text, lead, left)
    ensures left == "{" + v.entries[0].name.before
  {
    var blanks: string;
    blanks, right := FirstMember(v);
    left := "{" + blanks;
    ObjectBracket(text, lead, v, trail);
    ReadsPrints(lead, v, trail, Member(0), left, right);
    Regrouped(lead, left, right, trail);
    SkipToMember(text, lead, blanks, right + trail);
  }

  lemma Regrouped(lead: string, left: string, right: string, trail: string)
    ensures lead + (left + right) + trail == lead + left + (right + trail)
  {
  }

  lemma InArray(text: string, lead: string, v: Value, trail: string)
    requires IsPrinted(text, lead, v, trail) && v.Array?
    ensures '[' in text
  {
    FirstChar(text, lead, v, trail);
    assert text[|lead|] == '[';
  }

  lemma NotBehindArray(text: string, upTo: string)
    requires upTo <= text && EndsWith(upTo, OPENS_MEMBER)
    requires Find(text, ANCHOR, 0) == None && InsertionPoint(text) == Some(|upTo|)
    ensures '[' !in text
  {
    var open := FirstIn(text, {'['}, 0);
    NotInBefore(text, {'['}, 0);
    if open.Some? {
      NoMemberBehind(text, open.value, upTo);
    }
  }

  lemma NoArrayInside(text: string, lead: string, left: string, right: string, trail: string)
    requires text == lead + (left + right) + trail && EndsWith(left, OPENS_MEMBER)
    requires Find(text, ANCHOR, 0) == None && InsertionPoint(text) == Some(|lead| + |left|)
    ensures '[' !in text
  {
    PrefixText(lead, left, right, trail);
    EndsBehind(lead, left, OPENS_MEMBER);
    NotBehindArray(text, lead + left);
  }

  lemma IsObject(text: string, lead: string, v: Value, trail: string, path: Path)
    requires IsPrinted(text, lead, v, trail) && Points(v, path) && '[' !in text
    ensures v.Object? && v.entries != []
  {
    if v.Array? {
      InArray(text, lead, v, trail);
    }
  }

  lemma NoArrayIn(text: string, lead: string, v: Value, trail: string, path: Path, left: string, right: string)
    requires text == lead + Print(v) + trail && Reads(v, path, left, right)
    requires Find(text, ANCHOR, 0) == None && PlacedAt(text, lead, left)
    ensures '[' !in text
  {
    ReadsPrints(lead, v, trail, path, left, right);
    LeftEnds(v, path, left, right);
    NoArrayInside(text, lead, left, right, trail);
  }

  /** Without an anchor, the piece is put before a member only in an object that is not empty, and with no '['. */
  lemma FallbackMember(text: string, lead: string, v: Value, trail: string, path: Path, left: string, right: string)
    requires IsPrinted(text, lead, v, trail) && Reads(v, path, left, right)
    requires Find(text, ANCHOR, 0) == None && PlacedAt(text, lead, left)
    ensures FallsIntoObject(text, v)
  {
    NoArrayIn(text, lead, v, trail, path, left, right);
    IsObject(text, lead, v, trail, path);
  }

  // ---- One key ---------------------------------------------------------

  lemma InjectionIff(text: string, q: nat, note: Note, gained: string)
    requires IsNew(text, note) && q <= |text| && gained == Insert(text, q, NotePiece(note))
    ensures Injection(text, note) == gained <==> InsertionPoint(text) == Some(q)
  {
    if InsertionPoint(text) == Some(q) {
      InjectedIs(text, note.key, note.Literal());
    }
    if Injection(text, note) == gained {
      InjectionPlace(text, text, q, note);
    }
  }

  lemma GainsWhere(text: string, lead: string, left: string, right: string, trail: string, note: Note)
    requires text == lead + (left + right) + trail && IsNew(text, note)
    ensures Injection(text, note) == lead + ((left + NotePiece(note)) + right) + trail <==> PlacedAt(text, lead, left)
  {
    hide IsIdentifier, Piece;
    GlueInsert(lead, left, right, trail, NotePiece(note));
    InjectionIff(text, |lead| + |left|, note, lead + ((left + NotePiece(note)) + right) + trail);
  }

  /** The injection gains the member of a path if and only if its piece is put there. */
  lemma GainsIffPlaced(text: string, lead: string, v: Value, trail: string, note: Note, path: Path,
                       left: string, right: string)
    requires text == lead + Print(v) + trail && Reads(v, path, left, right) && IsNew(text, note)
    ensures GainsAt(Injection(text, note), lead, v, trail, note, path) <==> PlacedAt(text, lead, left)
  {
    AddPrints(lead, v, trail, path, note, left, right);
    GainsWhere(text, lead, left, right, trail, note);
  }

  lemma GainFollows(text: string, lead: string, v: Value, trail: string, note: Note)
    requires IsPrinted(text, lead, v, trail) && IsNew(text, note)
    requires AnchorsMember(text, lead, v) || FallsIntoObject(text, v)
    ensures GainsMember(Injection(text, note), lead, v, trail, note)
  {
    if FallsIntoObject(text, v) {
      var left, right := ObjectPlace(text, lead, v, trail);
      GainsIffPlaced(text, lead, v, trail, note, Member(0), left, right);
    } else {
      var path, left, right :| Reads(v, path, left, right) && AnchorsAt(text, lead, left);
      GainsIffPlaced(text, lead, v, trail, note, path, left, right);
    }
  }

  lemma PlaceNeeds(text: string, lead: string, v: Value, trail: string, path: Path, left: string, right: string)
    requires IsPrinted(text, lead, v, trail) && Reads(v, path, left, right) && PlacedAt(text, lead, left)
    ensures AnchorsMember(text, lead, v) || FallsIntoObject(text, v)
  {
    if Find(text, ANCHOR, 0) == None {
      FallbackMember(text, lead, v, trail, path, left, right);
    } else {
      assert AnchorsAt(text, lead, left);
    }
  }

  lemma GainNeeds(text: string, lead: string, v: Value, trail: string, note: Note)
    requires IsPrinted(text, lead, v, trail) && IsNew(text, note)
    requires GainsMember(Injection(text, note), lead, v, trail, note)
    ensures AnchorsMember(text, lead, v) || FallsIntoObject(text, v)
  {
    var path, left, right :| Reads(v, path, left, right) && GainsAt(Injection(text, note), lead, v, trail, note, path);
    GainsIffPlaced(text, lead, v, trail, note, path, left, right);
    PlaceNeeds(text, lead, v, trail, path, left, right);
  }

  /** The injection gives the value with exactly one member gained if and only if the first anchor opens the name of
      a member, or there is no anchor and the text is a non-empty object without any '['. */
  lemma InjectionGainsIff(text: string, lead: string, v: Value, trail: string, note: Note)
    requires IsPrinted(text, lead, v, trail) && IsNew(text, note)
    ensures GainsMember(Injection(text, note), lead, v, trail, note)
            <==> AnchorsMember(text, lead, v) || FallsIntoObject(text, v)
  {
    if AnchorsMember(text, lead, v) || FallsIntoObject(text, v) {
      GainFollows(text, lead, v, trail, note);
    }
    if GainsMember(Injection(text, note), lead, v, trail, note) {
      GainNeeds(text, lead, v, trail, note);
    }
  }

  // ---- At the top level ------------------------------------------------

  /** The first anchor opens the name of a member of the object that the text prints. */
  ghost predicate AnchorsTop(text: string, lead: string, v: Value) {
    exists path, left, right :: Reads(v, path, left, right) && path.Member? && AnchorsAt(text, lead, left)
  }

  /** The object that the text prints has gained the member itself, and not an object within it. */
  ghost predicate GainsTop(result: string, lead: string, v: Value, trail: string, note: Note) {
    exists path, left, right ::
      Reads(v, path, left, right) && path.Member? && GainsAt(result, lead, v, trail, note, path)
  }

  lemma TopFollows(text: string, lead: string, v: Value, trail: string, note: Note)
    requires IsPrinted(text, lead, v, trail) && IsNew(text, note)
    requires AnchorsTop(text, lead, v) || FallsIntoObject(text, v)
    ensures GainsTop(Injection(text, note), lead, v, trail, note)
  {
    if FallsIntoObject(text, v) {
      var left, right := ObjectPlace(text, lead, v, trail);
      GainsIffPlaced(text, lead, v, trail, note, Member(0), left, right);
    } else {
      var path, left, right :| Reads(v, path, left, right) && path.Member? && AnchorsAt(text, lead, left);
      GainsIffPlaced(text, lead, v, trail, note, path, left, right);
    }
  }

  lemma TopPlaceNeeds(text: string, lead: string, v: Value, trail: string, path: Path, left: string, right: string)
    requires IsPrinted(text, lead, v, trail) && Reads(v, path, left, right) && path.Member?
    requires PlacedAt(text, lead, left)
    ensures AnchorsTop(text, lead, v) || FallsIntoObject(text, v)
  {
    if Find(text, ANCHOR, 0) == None {
      FallbackMember(text, lead, v, trail, path, left, right);
    } else {
      assert AnchorsAt(text, lead, left);
    }
  }

  lemma TopNeeds(text: string, lead: string, v: Value, trail: string, note: Note)
    requires IsPrinted(text, lead, v, trail) && IsNew(text, note)
    requires GainsTop(Injection(text, note), lead, v, trail, note)
    ensures AnchorsTop(text, lead, v) || FallsIntoObject(text, v)
  {
    var path, left, right :| Reads(v, path, left, right) && path.Member?
                             && GainsAt(Injection(text, note), lead, v, trail, note, path);
    GainsIffPlaced(text, lead, v, trail, note, path, left, right);
    TopPlaceNeeds(text, lead, v, trail, path, left, right);
  }

  /** The member is gained at the top level, as it is meant to be, if and only if the first anchor opens the name of a
      member there, or there is no anchor and the text is a non-empty object without any '['. */
  lemma InjectionGainsTopIff(text: string, lead: string, v: Value, trail: string, note: Note)
    requires IsPrinted(text, lead, v, trail) && IsNew(text, note)
    ensures GainsTop(Injection(text, note), lead, v, trail, note)
            <==> AnchorsTop(text, lead, v) || FallsIntoObject(text, v)
  {
    if AnchorsTop(text, lead, v) || FallsIntoObject(text, v) {
      TopFollows(text, lead, v, trail, note);
    }
    if GainsTop(Injection(text, note), lead, v, trail, note) {
      TopNeeds(text, lead, v, trail, note);
    }
  }

  // ---- A list of keys --------------------------------------------------

  ghost predicate OneMore(u: Value, w: Value, note: Note) {
    exists path, left, right :: Reads(u, path, left, right) && w == Add(u, path, note)
  }

  /** `w` is `v` with exactly the members `notes` gained, one after the other. */
  ghost predicate Gained(v: Value, notes: seq<Note>, w: Value) {
    if notes == [] then w == v
    else
      var n := |notes| - 1;
      exists u :: Gained(v, notes[..n], u) && OneMore(u, w, notes[n])
  }

  ghost predicate GainsAll(result: string, lead: string, v: Value, trail: string, notes: seq<Note>) {
    exists w :: Gained(v, notes, w) && result == lead + Print(w) + trail
  }

  /** Distinct identifiers, none of which stands quoted in the text. */
  ghost predicate AreNew(text: string, notes: seq<Note>) {
    && (forall i :: 0 <= i < |notes| ==> IsNew(text, notes[i]))
    && (forall i, j :: 0 <= i < j < |notes| ==> notes[i].key != notes[j].key)
  }

  ghost predicate Fits(text: string, lead: string, v: Value) {
    AnchorsMember(text, lead, v) || FallsIntoObject(text, v)
  }

  /** The anchor moves behind the piece. */
  lemma AnchorAgain(text: string, lead: string, left: string, note: Note)
    requires IsNew(text, note) && AnchorsAt(text, lead, left)
    ensures AnchorsAt(Injection(text, note), lead, left + NotePiece(note))
  {
    NotDuration(text, note.key, |lead| + |left|);
    AnchoredStep(text, note, |lead| + |left|);
    Lengths(left, NotePiece(note));
  }

  lemma Lengths(a: string, b: string)
    ensures |a + b| == |a| + |b|
  {
  }

  lemma AnchorsHere(text: string, lead: string, w: Value, path: Path, left: string, right: string)
    requires Reads(w, path, left, right) && AnchorsAt(text, lead, left)
    ensures AnchorsMember(text, lead, w)
  {
  }

  lemma OneMoreHere(u: Value, path: Path, left: string, right: string, note: Note)
    requires Reads(u, path, left, right)
    ensures OneMore(u, Add(u, path, note), note)
  {
  }

  lemma StepAtAnchor(text: string, lead: string, u: Value, trail: string, note: Note, path: Path,
                     left: string, right: string) returns (w: Value)
    requires IsPrinted(text, lead, u, trail) && IsNew(text, note)
    requires Reads(u, path, left, right) && AnchorsAt(text, lead, left)
    ensures OneMore(u, w, note) && IsPrinted(Injection(text, note), lead, w, trail)
    ensures AnchorsMember(Injection(text, note), lead, w)
  {
    w := Add(u, path, note);
    OneMoreHere(u, path, left, right, note);
    StepPrinted(text, lead, u, trail, note, path, left, right);
    AddReads(u, path, left, right, note);
    AnchorAgain(text, lead, left, note);
    AnchorsHere(Injection(text, note), lead, w, Moved(path), left + NotePiece(note), right);
  }

  lemma StepPrinted(text: string, lead: string, u: Value, trail: string, note: Note, path: Path,
                    left: string, right: string)
    requires IsPrinted(text, lead, u, trail) && IsNew(text, note)
    requires Reads(u, path, left, right) && PlacedAt(text, lead, left)
    ensures IsPrinted(Injection(text, note), lead, Add(u, path, note), trail)
  {
    GainsIffPlaced(text, lead, u, trail, note, path, left, right);
    AddGood(u, path, note);
  }

  lemma NoBracketGained(text: string, note: Note)
    requires IsNew(text, note) && InsertionPoint(text).Some? && '[' !in text
    ensures '[' !in Injection(text, note)
  {
    var t := Injection(text, note);
    InjectedIs(text, note.key, note.Literal());
    LiteralIsNumber(note.value);
    assert FirstIn(text, {'['}, 0) == None;
    forall i | 0 <= i < |t| ensures t[i] != '[' {
      NoOpening(text, InsertionPoint(text).value, note.key, note.Literal(), i);
    }
  }

  lemma NewFirst(u: Value, note: Note)
    requires Points(u, Member(0))
    ensures var w := Add(u, Member(0), note);
            w.Object? && w.entries != [] && Points(w, Member(0)) && Before(w, Member(0)) == Before(u, Member(0))
  {
    assert u.entries[..0] == [];
    assert Add(u, Member(0), note).entries[..0] == [];
  }

  /** The key `duration` makes an anchor of its own. */
  lemma AnchorGained(text: string, lead: string, note: Note, left: string)
    requires note.key == "duration" && IsNew(text, note) && PlacedAt(text, lead, left)
    ensures AnchorsAt(Injection(text, note), lead, left)
  {
    assert Quoted("duration") == ANCHOR;
    LiteralIsNumber(note.value);
    InjectedHas(text, note.key, note.Literal());
  }

  lemma StaysObject(text: string, w: Value, note: Note)
    requires IsNew(text, note) && note.key != "duration" && InsertionPoint(text).Some?
    requires Find(text, ANCHOR, 0) == None && '[' !in text && w.Object? && w.entries != []
    ensures FallsIntoObject(Injection(text, note), w)
  {
    LiteralIsNumber(note.value);
    NoAnchor(text, note.key, note.Literal());
    NoBracketGained(text, note);
  }

  lemma StepIntoObject(text: string, lead: string, u: Value, trail: string, note: Note) returns (w: Value)
    requires IsPrinted(text, lead, u, trail) && IsNew(text, note) && FallsIntoObject(text, u)
    ensures OneMore(u, w, note) && IsPrinted(Injection(text, note), lead, w, trail)
    ensures Fits(Injection(text, note), lead, w)
  {
    var left, right := ObjectPlace(text, lead, u, trail);
    w := Add(u, Member(0), note);
    OneMoreHere(u, Member(0), left, right, note);
    StepPrinted(text, lead, u, trail, note, Member(0), left, right);
    NewFirst(u, note);
    if note.key == "duration" {
      AnchorGained(text, lead, note, left);
      AnchorsHere(Injection(text, note), lead, w, Member(0), left, After(w, Member(0)));
    } else {
      StaysObject(text, w, note);
    }
  }

  lemma GainedOne(v: Value, notes: seq<Note>, u: Value, w: Value)
    requires notes != [] && Gained(v, notes[..|notes| - 1], u) && OneMore(u, w, notes[|notes| - 1])
    ensures Gained(v, notes, w)
  {
  }

  lemma Step(text: string, lead: string, u: Value, trail: string, note: Note) returns (w: Value)
    requires IsPrinted(text, lead, u, trail) && IsNew(text, note) && Fits(text, lead, u)
    ensures OneMore(u, w, note) && IsPrinted(Injection(text, note), lead, w, trail)
    ensures Fits(Injection(text, note), lead, w)
  {
    if FallsIntoObject(text, u) {
      w := StepIntoObject(text, lead, u, trail, note);
    } else {
      var path, left, right :| Reads(u, path, left, right) && AnchorsAt(text, lead, left);
      w := StepAtAnchor(text, lead, u, trail, note, path, left, right);
    }
  }

  lemma OneGained(text: string, lead: string, v: Value, trail: string, notes: seq<Note>, u: Value) returns (w: Value)
    requires notes != [] && Gained(v, notes[..|notes| - 1], u) && IsNew(text, notes[|notes| - 1])
    requires IsPrinted(text, lead, u, trail) && Fits(text, lead, u)
    ensures Gained(v, notes, w)
    ensures IsPrinted(Injection(text, notes[|notes| - 1]), lead, w, trail)
    ensures Fits(Injection(text, notes[|notes| - 1]), lead, w)
  {
    w := Step(text, lead, u, trail, notes[|notes| - 1]);
    GainedOne(v, notes, u, w);
  }

  lemma {:induction false} AllGained(text: string, lead: string, v: Value, trail: string, notes: seq<Note>)
    returns (w: Value)
    requires IsPrinted(text, lead, v, trail) && AreNew(text, notes) && Fits(text, lead, v)
    ensures Gained(v, notes, w) && IsPrinted(InjectAll(text, notes), lead, w, trail)
    ensures Fits(InjectAll(text, notes), lead, w)
  {
    if notes == [] {
      w := v;
    } else {
      LastNew(text, notes);
      var u := AllGained(text, lead, v, trail, notes[..|notes| - 1]);
      w := OneGained(InjectAll(text, notes[..|notes| - 1]), lead, v, trail, notes, u);
    }
  }

  lemma {:induction false} StillNew(text: string, notes: seq<Note>, note: Note)
    requires AreNew(text, notes) && IsNew(text, note) && forall i :: 0 <= i < |notes| ==> notes[i].key != note.key
    ensures IsNew(InjectAll(text, notes), note)
  {
    if notes != [] {
      var n := |notes| - 1;
      StillNew(text, notes[..n], note);
      LiteralIsNumber(notes[n].value);
      InjectedAddsOnly(InjectAll(text, notes[..n]), notes[n].key, notes[n].Literal(), note.key);
    }
  }

  lemma LastNew(text: string, notes: seq<Note>)
    requires notes != [] && AreNew(text, notes)
    ensures var n := |notes| - 1;
            AreNew(text, notes[..n]) && IsNew(InjectAll(text, notes[..n]), notes[n])
  {
    StillNew(text, notes[..|notes| - 1], notes[|notes| - 1]);
  }

  lemma UnwoundText(text: string, lead: string, left: string, right: string, trail: string, note: Note)
    requires IsNew(text, note) && Injection(text, note) == lead + ((left + NotePiece(note)) + right) + trail
    ensures text == lead + (left + right) + trail
  {
    GlueInsert(lead, left, right, trail, NotePiece(note));
    InjectionPlace(text, lead + (left + right) + trail, |lead| + |left|, note);
  }

  lemma UnwoundAt(text: string, lead: string, u: Value, trail: string, note: Note, path: Path,
                  left: string, right: string)
    requires IsNew(text, note) && Reads(u, path, left, right)
    requires Injection(text, note) == lead + Print(Add(u, path, note)) + trail
    ensures text == lead + Print(u) + trail
  {
    AddPrints(lead, u, trail, path, note, left, right);
    UnwoundText(text, lead, left, right, trail, note);
  }

  /** The text before the last injection can be told from the text after it. */
  lemma Unwound(text: string, lead: string, u: Value, w: Value, trail: string, note: Note)
    requires IsNew(text, note) && OneMore(u, w, note) && Injection(text, note) == lead + Print(w) + trail
    ensures text == lead + Print(u) + trail
  {
    var path, left, right :| Reads(u, path, left, right) && w == Add(u, path, note);
    UnwoundAt(text, lead, u, trail, note, path, left, right);
  }

  lemma {:induction false} Unwind(text: string, lead: string, v: Value, trail: string, notes: seq<Note>, w: Value)
    requires IsPrinted(text, lead, v, trail) && AreNew(text, notes) && notes != []
    requires Gained(v, notes, w) && InjectAll(text, notes) == lead + Print(w) + trail
    ensures Fits(text, lead, v)
  {
    var n := |notes| - 1;
    var u :| Gained(v, notes[..n], u) && OneMore(u, w, notes[n]);
    LastNew(text, notes);
    Unwound(InjectAll(text, notes[..n]), lead, u, w, trail, notes[n]);
    if n == 0 {
      OnlyOne(text, lead, v, trail, notes[0], w);
    } else {
      Unwind(text, lead, v, trail, notes[..n], u);
    }
  }

  lemma OnlyOne(text: string, lead: string, v: Value, trail: string, note: Note, w: Value)
    requires IsPrinted(text, lead, v, trail) && IsNew(text, note)
    requires OneMore(v, w, note) && Injection(text, note) == lead + Print(w) + trail
    ensures Fits(text, lead, v)
  {
    var path, left, right :| Reads(v, path, left, right) && w == Add(v, path, note);
    assert GainsAt(Injection(text, note), lead, v, trail, note, path);
    GainNeeds(text, lead, v, trail, note);
  }

  /** Any keys injected in turn give the value with exactly their members gained, if and only if the first anchor
      opens the name of a member, or there is no anchor and the text is a non-empty object without any '['. */
  lemma InjectAllGainsIff(text: string, lead: string, v: Value, trail: string, notes: seq<Note>)
    requires IsPrinted(text, lead, v, trail) && AreNew(text, notes) && notes != []
    ensures GainsAll(InjectAll(text, notes), lead, v, trail, notes)
            <==> AnchorsMember(text, lead, v) || FallsIntoObject(text, v)
  {
    if Fits(text, lead, v) {
      var w := AllGained(text, lead, v, trail, notes);
    }
    if GainsAll(InjectAll(text, notes), lead, v, trail, notes) {
      var w :| Gained(v, notes, w) && InjectAll(text, notes) == lead + Print(w) + trail;
      Unwind(text, lead, v, trail, notes, w);
    }
  }
}
