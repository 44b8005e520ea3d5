/** Injecting into a text without an anchor: the fallback of `inject_json_kv` puts the key behind a bracket. */
module AnnotateFallback {
  import opened Wrappers
  import opened Strings
  import opened Annotate
  import opened AnnotateRuns

  // ---- The insertion point stays --------------------------------------------

  lemma BracketKept(content: string, p: nat, key: string, literal: string)
    requires IsIdentifier(key) && IsNumber(literal)
    requires Bracket(content).Some? && Bracket(content).value < p <= |content|
    ensures Bracket(Insert(content, p, Piece(key, literal))) == Bracket(content)
  {
    var t, b := Insert(content, p, Piece(key, literal)), Bracket(content).value;
    assert forall i :: 0 <= i < p ==> t[i] == content[i];
    NotInBefore(content, {'['}, 0);
    NotInBefore(content, {'{'}, 0);
    if FirstIn(content, {'['}, 0).Some? {
      FirstInIs(t, {'['}, 0, b);
    } else {
      forall i | 0 <= i < |t| ensures t[i] != '[' {
        NoOpening(content, p, key, literal, i);
      }
      FirstInIs(t, {'{'}, 0, b);
    }
  }

  lemma NoOpening(content: string, p: nat, key: string, literal: string, i: nat)
    requires IsIdentifier(key) && IsNumber(literal) && p <= |content| && FirstIn(content, {'['}, 0).None?
    requires i < |content| + |Piece(key, literal)|
    ensures Insert(content, p, Piece(key, literal))[i] != '['
  {
    hide *;
    InsertedAt(content, p, Piece(key, literal), i);
    NotInBefore(content, {'['}, 0);
    if p <= i < p + |Piece(key, literal)| {
      NoBracketInPiece(key, literal, i - p);
    }
  }

  /** The piece starts with a quote, so blanks are skipped up to the same place. */
  lemma SkipKept(content: string, b: nat, p: nat, piece: string)
    requires b + 1 <= p <= |content| && SkipBlanks(content, b + 1) == p && piece != "" && piece[0] == '"'
    ensures SkipBlanks(Insert(content, p, piece), b + 1) == p
  {
    var t := Insert(content, p, piece);
    assert t[p] == '"';
    assert forall i :: b + 1 <= i < p ==> t[i] == content[i];
    BlanksSkipped(content, b + 1);
    SkipBlanksIs(t, b + 1, p);
  }

  lemma PointIs(t: string, b: nat, p: nat)
    requires Find(t, ANCHOR, 0) == None && Bracket(t) == Some(b) && b < |t| && SkipBlanks(t, b + 1) == p
    ensures InsertionPoint(t) == Some(p)
  {
    hide Find, OccursAt;
  }

  lemma NoAnchor(content: string, key: string, literal: string)
    requires IsIdentifier(key) && IsNumber(literal) && key != "duration" && Find(content, ANCHOR, 0) == None
    ensures Find(Injected(content, key, literal), ANCHOR, 0) == None
  {
    assert Quoted("duration") == ANCHOR && IsIdentifier("duration");
    InjectedAddsOnly(content, key, literal, "duration");
  }

  /** A key other than `duration` leaves the insertion point of the fallback where it is. */
  lemma FallbackStays(content: string, key: string, literal: string, p: nat)
    requires IsIdentifier(key) && IsNumber(literal) && key != "duration" && !Contains(content, Quoted(key))
    requires Find(content, ANCHOR, 0) == None && InsertionPoint(content) == Some(p)
    ensures Injected(content, key, literal) == Insert(content, p, Piece(key, literal))
    ensures Find(Injected(content, key, literal), ANCHOR, 0) == None
    ensures InsertionPoint(Injected(content, key, literal)) == Some(p)
  {
    hide Insert;
    var b, piece := Bracket(content).value, Piece(key, literal);
    InjectedIs(content, key, literal);
    NoAnchor(content, key, literal);
    BracketKept(content, p, key, literal);
    SkipKept(content, b, p, piece);
    PointIs(Insert(content, p, piece), b, p);
  }

  /** The pieces, the latest first. */
  function LatestFirst(notes: seq<Note>): string {
    if notes == [] then ""
    else Piece(notes[|notes| - 1].key, notes[|notes| - 1].Literal()) + LatestFirst(notes[..|notes| - 1])
  }

  ghost predicate LaidBehind(content: string, a: string, pieces: string, b: string) {
    content == a + pieces + b && Find(content, ANCHOR, 0) == None && InsertionPoint(content) == Some(|a|)
  }

  lemma InsertAhead(a: string, pieces: string, b: string, piece: string)
    ensures Insert(a + pieces + b, |a|, piece) == a + (piece + pieces) + b
  {
    var t := a + pieces + b;
    assert t[..|a|] == a && t[|a|..] == pieces + b;
  }

  /** Without an anchor, the pieces of keys other than `duration` stand behind the bracket and its blanks, in the
      reverse order of injection. */
  lemma {:induction false} FallbackLayout(content: string, notes: seq<Note>, a: string, b: string)
    requires Fresh(content, notes) && LaidBehind(content, a, "", b)
    requires forall i :: 0 <= i < |notes| ==> notes[i].key != "duration"
    ensures LaidBehind(InjectAll(content, notes), a, LatestFirst(notes), b)
  {
    if notes != [] {
      var n := |notes| - 1;
      FallbackLayout(content, notes[..n], a, b);
      LastIsNew(content, notes);
      FallbackStays(InjectAll(content, notes[..n]), notes[n].key, notes[n].Literal(), |a|);
      InsertAhead(a, LatestFirst(notes[..n]), b, Piece(notes[n].key, notes[n].Literal()));
    }
  }

  // ---- When the key `duration` is among them ---------------------------

  /** The index of the key `duration`, or the number of notes. */
  function DurationAt(notes: seq<Note>): (i: nat)
    ensures i <= |notes| && (i < |notes| ==> notes[i].key == "duration")
    ensures forall k :: 0 <= k < i ==> notes[k].key != "duration"
  {
    if notes == [] || notes[0].key == "duration" then 0 else 1 + DurationAt(notes[1..])
  }

  lemma {:induction false} InjectAllConcat(content: string, first: seq<Note>, then': seq<Note>)
    ensures InjectAll(content, first + then') == InjectAll(InjectAll(content, first), then')
  {
    if then' == [] {
      assert first + then' == first;
    } else {
      var n := |then'| - 1;
      assert (first + then')[..|first| + n] == first + then'[..n];
      InjectAllConcat(content, first, then'[..n]);
    }
  }

  lemma FreshFirst(content: string, first: seq<Note>, rest: seq<Note>)
    requires Fresh(content, first + rest)
    ensures Fresh(content, first)
  {
    var all := first + rest;
    assert forall i :: 0 <= i < |first| ==> all[i] == first[i];
  }

  lemma FreshRest(content: string, first: seq<Note>, rest: seq<Note>)
    requires Fresh(content, first + rest)
    ensures Fresh(InjectAll(content, first), rest)
  {
    var now, all := InjectAll(content, first), first + rest;
    FreshFirst(content, first, rest);
    InjectAllKeepsPoint(content, first);
    assert forall k :: 0 <= k < |rest| ==> rest[k] == all[|first| + k];
    assert forall k :: 0 <= k < |first| ==> first[k] == all[k];
    forall k | 0 <= k < |rest| ensures IsIdentifier(rest[k].key) && !Contains(now, Quoted(rest[k].key)) {
      InjectAllAddsOnly(content, first, rest[k].key);
    }
  }

  /** Injecting `duration` into a text without an anchor makes the anchor. */
  lemma AnchorMade(content: string, note: Note, a: string, pieces: string, b: string)
    requires note.key == "duration" && LaidBehind(content, a, pieces, b)
    ensures var t := Injected(content, note.key, note.Literal());
            LaidOut(t, a, "", Piece(note.key, note.Literal()) + pieces + b)
  {
    assert Quoted("duration") == ANCHOR && IsIdentifier("duration");
    LiteralIsNumber(note.value);
    InjectedHas(content, note.key, note.Literal());
    InjectedIs(content, note.key, note.Literal());
    InsertAhead(a, pieces, b, Piece(note.key, note.Literal()));
    AnchorText(a, Piece(note.key, note.Literal()), pieces, b);
  }

  lemma AnchorText(a: string, piece: string, pieces: string, b: string)
    ensures a + (piece + pieces) + b == a + "" + (piece + pieces + b)
  {
  }

  lemma LayoutText(a: string, pieces: string, latest: string, b: string)
    ensures a + pieces + (latest + b) == a + (pieces + latest) + b
  {
  }

  /** The text once `duration` has been injected. */
  lemma DurationInjected(content: string, front: seq<Note>, note: Note, a: string, b: string)
    requires Fresh(content, front + [note]) && LaidBehind(content, a, "", b)
    requires note.key == "duration" && forall k :: 0 <= k < |front| ==> front[k].key != "duration"
    ensures LaidOut(InjectAll(content, front + [note]), a, "", LatestFirst(front + [note]) + b)
  {
    FreshFirst(content, front, [note]);
    FallbackLayout(content, front, a, b);
    assert (front + [note])[..|front|] == front;
    AnchorMade(InjectAll(content, front), note, a, LatestFirst(front), b);
  }

  lemma InjectedAround(now: string, rest: seq<Note>, a: string, latest: string, b: string)
    requires Fresh(now, rest) && LaidOut(now, a, "", latest + b)
    ensures InjectAll(now, rest) == a + (Pieces(rest) + latest) + b
  {
    AnchoredLayout(now, rest, a, latest + b);
    LayoutText(a, Pieces(rest), latest, b);
  }

  lemma RestLayout(content: string, upTo: seq<Note>, rest: seq<Note>, a: string, b: string)
    requires Fresh(content, upTo + rest) && LaidOut(InjectAll(content, upTo), a, "", LatestFirst(upTo) + b)
    ensures InjectAll(content, upTo + rest) == a + (Pieces(rest) + LatestFirst(upTo)) + b
  {
    FreshRest(content, upTo, rest);
    InjectedAround(InjectAll(content, upTo), rest, a, LatestFirst(upTo), b);
    InjectAllConcat(content, upTo, rest);
  }

  /** The keys injected after `duration` stand before it, in order, and those before it behind it, the latest first. */
  lemma DurationLayout(content: string, front: seq<Note>, note: Note, rest: seq<Note>, a: string, b: string)
    requires Fresh(content, front + [note] + rest) && LaidBehind(content, a, "", b)
    requires note.key == "duration" && forall k :: 0 <= k < |front| ==> front[k].key != "duration"
    ensures InjectAll(content, front + [note] + rest) == a + (Pieces(rest) + LatestFirst(front + [note])) + b
  {
    FreshFirst(content, front + [note], rest);
    DurationInjected(content, front, note, a, b);
    RestLayout(content, front + [note], rest, a, b);
  }

  // ---- The pieces stand together ---------------------------------------

  function Reversed(notes: seq<Note>): (r: seq<Note>)
    ensures |r| == |notes| && forall note :: note in r ==> note in notes
  {
    if notes == [] then [] else [notes[|notes| - 1]] + Reversed(notes[..|notes| - 1])
  }

  lemma PiecesOne(note: Note)
    ensures Pieces([note]) == Piece(note.key, note.Literal())
  {
    assert [note][..0] == [];
  }

  lemma Associates(a: string, b: string, c: string)
    ensures a + (b + c) == (a + b) + c
  {
  }

  lemma PiecesSnoc(notes: seq<Note>, last: Note)
    ensures Pieces(notes + [last]) == Pieces(notes) + Piece(last.key, last.Literal())
  {
    assert (notes + [last])[..|notes|] == notes;
  }

  lemma LastNote(a: seq<Note>, b: seq<Note>)
    requires b != []
    ensures b == b[..|b| - 1] + [b[|b| - 1]] && a + b == (a + b[..|b| - 1]) + [b[|b| - 1]]
  {
  }

  lemma {:induction false} PiecesConcat(a: seq<Note>, b: seq<Note>)
    ensures Pieces(a + b) == Pieces(a) + Pieces(b)
  {
    if b == [] {
      assert a + b == a;
    } else {
      var front, last := b[..|b| - 1], b[|b| - 1];
      PiecesConcat(a, front);
      LastNote(a, b);
      PiecesSnoc(front, last);
      PiecesSnoc(a + front, last);
      Associates(Pieces(a), Pieces(front), Piece(last.key, last.Literal()));
    }
  }

  lemma {:induction false} LatestIsPieces(notes: seq<Note>)
    ensures LatestFirst(notes) == Pieces(Reversed(notes))
  {
    if notes != [] {
      var n := |notes| - 1;
      LatestIsPieces(notes[..n]);
      PiecesOne(notes[n]);
      PiecesConcat([notes[n]], Reversed(notes[..n]));
    }
  }

  lemma CutSlices(notes: seq<Note>, i: nat)
    requires i < |notes|
    ensures notes == notes[..i] + [notes[i]] + notes[i + 1..]
  {
  }

  lemma CutText(text: string, p: nat)
    requires p <= |text|
    ensures text == text[..p] + "" + text[p..] && |text[..p]| == p
  {
  }

  /** The pieces of some notes stand behind the bracket and its blanks. */
  lemma StandBehind(content: string, notes: seq<Note>, a: string, b: string) returns (order: seq<Note>)
    requires Fresh(content, notes) && LaidBehind(content, a, "", b)
    ensures |order| == |notes| && (forall note :: note in order ==> note in notes)
    ensures InjectAll(content, notes) == a + Pieces(order) + b
  {
    hide *;
    var i := DurationAt(notes);
    if i == |notes| {
      FallbackLayout(content, notes, a, b);
      LatestIsPieces(notes);
      order := Reversed(notes);
    } else {
      var front, rest := notes[..i], notes[i + 1..];
      CutSlices(notes, i);
      DurationLayout(content, front, notes[i], rest, a, b);
      LatestIsPieces(front + [notes[i]]);
      PiecesConcat(rest, Reversed(front + [notes[i]]));
      order := rest + Reversed(front + [notes[i]]);
    }
  }

  /** With an anchor or without, the pieces of all notes stand together at the first insertion point. */
  lemma Standing(content: string, notes: seq<Note>, p: nat) returns (order: seq<Note>)
    requires Fresh(content, notes) && InsertionPoint(content) == Some(p)
    ensures |order| == |notes| && (forall note :: note in order ==> note in notes)
    ensures p <= |content| && InjectAll(content, notes) == content[..p] + Pieces(order) + content[p..]
  {
    CutText(content, p);
    if Find(content, ANCHOR, 0).Some? {
      AnchoredLayout(content, notes, content[..p], content[p..]);
      order := notes;
    } else {
      order := StandBehind(content, notes, content[..p], content[p..]);
    }
  }
}
