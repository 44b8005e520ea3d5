/** The numbers that a file held before it was annotated: which of them are still read. */
module AnnotateOthers {
  import opened Wrappers
  import opened Strings
  import opened Decimal
  import opened Annotate
  import opened AnnotateRuns
  import opened AnnotateFallback

  /** What is read from the first colon behind `x` on. */
  function ReadFrom(json: string, x: nat): Option<string> {
    match FirstIn(json, {':'}, x)
    case None => None
    case Some(colon) => NumberAfter(json, colon + 1)
  }

  /** The end of what is read: of the first run of number characters behind the colon. */
  function EndFrom(json: string, x: nat): Option<nat> {
    match FirstIn(json, {':'}, x)
    case None => None
    case Some(colon) =>
      match FirstIn(json, NUMBER_START, colon + 1)
      case None => None
      case Some(i) => Some(NumberEnd(json, i))
  }

  /** Position `p` is not within what is read for the key at `x`: not behind the start of the key, or not before the
      end of the number. */
  predicate Off(json: string, x: nat, p: nat) {
    p <= x || (EndFrom(json, x).Some? && EndFrom(json, x).value <= p)
  }

  predicate ApartAt(json: string, key: string, p: nat) {
    match Find(json, Quoted(key), 0)
    case None => true
    case Some(x) => Off(json, x, p)
  }

  lemma FoundReads(json: string, key: string, x: nat)
    requires Find(json, Quoted(key), 0) == Some(x)
    ensures ExtractedText(json, key) == ReadFrom(json, x)
    ensures forall p: nat :: ApartAt(json, key, p) == Off(json, x, p)
  {
  }

  /** The insertion point is not within what is read for a key. */
  predicate Apart(json: string, key: string) {
    match InsertionPoint(json)
    case None => true
    case Some(p) => ApartAt(json, key, p)
  }

  // ---- What is behind the piece ----------------------------------------

  /** From position `from` on, `t` is `s` moved by `n`. */
  predicate MovedFrom(s: string, t: string, from: nat, n: nat) {
    from <= |s| && |t| == |s| + n && t[from + n..] == s[from..]
  }

  lemma MovedLater(s: string, t: string, from: nat, later: nat, n: nat)
    requires MovedFrom(s, t, from, n) && from <= later <= |s|
    ensures MovedFrom(s, t, later, n)
  {
    assert t[later + n..] == t[from + n..][later - from..];
    assert s[later..] == s[from..][later - from..];
  }

  lemma MovedChar(s: string, t: string, from: nat, n: nat)
    requires MovedFrom(s, t, from, n) && from < |s|
    ensures t[from + n] == s[from]
  {
    assert t[from + n..][0] == s[from..][0];
  }

  lemma {:induction false} FirstMoves(s: string, t: string, cs: set<char>, from: nat, n: nat)
    requires MovedFrom(s, t, from, n)
    ensures FirstIn(t, cs, from + n) == match FirstIn(s, cs, from) case None => None case Some(i) => Some(i + n)
    decreases |s| - from
  {
    if from < |s| {
      MovedChar(s, t, from, n);
      if s[from] !in cs {
        MovedLater(s, t, from, from + 1, n);
        FirstMoves(s, t, cs, from + 1, n);
      }
    }
  }

  lemma {:induction false} FirstNotMoves(s: string, t: string, cs: set<char>, from: nat, n: nat)
    requires MovedFrom(s, t, from, n)
    ensures FirstNotIn(t, cs, from + n) == match FirstNotIn(s, cs, from) case None => None case Some(i) => Some(i + n)
    decreases |s| - from
  {
    if from < |s| {
      MovedChar(s, t, from, n);
      if s[from] in cs {
        MovedLater(s, t, from, from + 1, n);
        FirstNotMoves(s, t, cs, from + 1, n);
      }
    }
  }

  lemma RunMoves(s: string, t: string, from: nat, n: nat)
    requires MovedFrom(s, t, from, n)
    ensures from <= NumberEnd(s, from) <= |s| && NumberEnd(t, from + n) == NumberEnd(s, from) + n
    ensures t[from + n..NumberEnd(t, from + n)] == s[from..NumberEnd(s, from)]
  {
    FirstNotMoves(s, t, NUMBER, from, n);
    var upTo := NumberEnd(s, from);
    assert t[from + n..upTo + n] == t[from + n..][..upTo - from];
    assert s[from..upTo] == s[from..][..upTo - from];
  }

  lemma NumberMoves(s: string, t: string, from: nat, n: nat)
    requires MovedFrom(s, t, from, n)
    ensures NumberAfter(t, from + n) == NumberAfter(s, from)
  {
    hide NumberEnd;
    FirstMoves(s, t, NUMBER_START, from, n);
    var start := FirstIn(s, NUMBER_START, from);
    if start.Some? {
      MovedLater(s, t, from, start.value, n);
      RunMoves(s, t, start.value, n);
    }
  }

  lemma ReadMoves(s: string, t: string, x: nat, n: nat)
    requires MovedFrom(s, t, x, n)
    ensures ReadFrom(t, x + n) == ReadFrom(s, x)
  {
    hide NumberAfter;
    FirstMoves(s, t, {':'}, x, n);
    var colon := FirstIn(s, {':'}, x);
    if colon.Some? {
      ReadMovesAt(s, t, x, colon.value + 1, n);
    }
  }

  lemma ReadMovesAt(s: string, t: string, x: nat, from: nat, n: nat)
    requires MovedFrom(s, t, x, n) && x <= from <= |s|
    ensures NumberAfter(t, from + n) == NumberAfter(s, from)
  {
    MovedLater(s, t, x, from, n);
    NumberMoves(s, t, from, n);
  }

  // ---- What is before the piece ----------------------------------------

  /** Up to position `p` the texts are the same. */
  predicate SameFront(s: string, t: string, p: nat) {
    p <= |s| && p <= |t| && t[..p] == s[..p]
  }

  lemma FrontChar(s: string, t: string, p: nat, i: nat)
    requires SameFront(s, t, p) && i < p
    ensures t[i] == s[i]
  {
    assert t[..p][i] == s[..p][i];
  }

  lemma {:induction false} FirstStays(s: string, t: string, cs: set<char>, from: nat, p: nat, at: nat)
    requires SameFront(s, t, p) && FirstIn(s, cs, from) == Some(at) && at < p
    ensures FirstIn(t, cs, from) == Some(at)
    decreases at - from
  {
    FrontChar(s, t, p, from);
    if from < at {
      FirstStays(s, t, cs, from + 1, p, at);
    }
  }

  /** A run of number characters that ends before a character that is none. */
  lemma {:induction false} EndStays(s: string, t: string, from: nat, p: nat)
    requires SameFront(s, t, p) && p < |t| && t[p] !in NUMBER && from <= p && NumberEnd(s, from) <= p
    ensures NumberEnd(t, from) == NumberEnd(s, from)
    decreases p - from
  {
    if from < p {
      FrontChar(s, t, p, from);
      if s[from] in NUMBER {
        EndStays(s, t, from + 1, p);
      }
    }
  }

  lemma StartInNumber(s: string, i: nat)
    requires i < |s| && s[i] in NUMBER_START
    ensures i < NumberEnd(s, i) <= |s|
  {
  }

  lemma FrontSlice(s: string, t: string, p: nat, i: nat, j: nat)
    requires SameFront(s, t, p) && i <= j <= p
    ensures t[i..j] == s[i..j]
  {
    assert t[..p][..j] == t[..j] && s[..p][..j] == s[..j];
    assert t[i..j] == t[..j][i..] && s[i..j] == s[..j][i..];
  }

  lemma NumberKept(s: string, t: string, from: nat, i: nat, p: nat)
    requires SameFront(s, t, p) && p < |t| && t[p] !in NUMBER
    requires FirstIn(s, NUMBER_START, from) == Some(i) && NumberEnd(s, i) <= p
    ensures FirstIn(t, NUMBER_START, from) == Some(i) && NumberEnd(t, i) == NumberEnd(s, i)
    ensures NumberAfter(t, from) == NumberAfter(s, from)
  {
    StartInNumber(s, i);
    FirstStays(s, t, NUMBER_START, from, p, i);
    EndStays(s, t, i, p);
    FrontSlice(s, t, p, i, NumberEnd(s, i));
  }

  lemma ReadStays(s: string, t: string, x: nat, p: nat)
    requires SameFront(s, t, p) && p < |t| && t[p] !in NUMBER
    requires EndFrom(s, x).Some? && EndFrom(s, x).value <= p
    ensures ReadFrom(t, x) == ReadFrom(s, x) && EndFrom(t, x) == EndFrom(s, x)
  {
    var colon := FirstIn(s, {':'}, x).value;
    var i := FirstIn(s, NUMBER_START, colon + 1).value;
    StartInNumber(s, i);
    FirstStays(s, t, {':'}, x, p, colon);
    NumberKept(s, t, colon + 1, i, p);
  }

  // ---- Where the key is found ------------------------------------------

  lemma KeyBeforeColon(json: string, key: string, x: nat)
    requires IsIdentifier(key) && OccursAt(json, Quoted(key), x) && FirstIn(json, {':'}, x).Some?
    ensures FirstIn(json, {':'}, x).value >= x + |key| + 2
  {
    QuotedShape(key);
    OccursSpan(json, Quoted(key), x);
    forall i | x <= i < x + |key| + 2 ensures json[i] != ':' {
      assert json[i] == Quoted(key)[i - x];
    }
  }

  lemma EndBehindKey(json: string, key: string, x: nat)
    requires IsIdentifier(key) && OccursAt(json, Quoted(key), x) && EndFrom(json, x).Some?
    ensures EndFrom(json, x).value >= x + |key| + 2
  {
    KeyBeforeColon(json, key, x);
    StartInNumber(json, FirstIn(json, NUMBER_START, FirstIn(json, {':'}, x).value + 1).value);
  }

  lemma InsertMoves(content: string, p: nat, piece: string)
    requires p <= |content|
    ensures MovedFrom(content, Insert(content, p, piece), p, |piece|)
    ensures SameFront(content, Insert(content, p, piece), p)
    ensures piece != "" ==> Insert(content, p, piece)[p] == piece[0]
  {
    var t := Insert(content, p, piece);
    assert t[p + |piece|..] == content[p..];
    assert t[..p] == content[..p];
  }

  /** A quoted key is kept even if the piece is put before its last quote: the piece starts with one. */
  lemma KeyInserted(content: string, key: string, literal: string, other: string, x: nat, p: nat)
    requires IsIdentifier(key) && IsNumber(literal) && IsIdentifier(other)
    requires OccursAt(content, Quoted(other), x) && p == x + |other| + 1
    ensures OccursAt(Insert(content, p, Piece(key, literal)), Quoted(other), x)
  {
    var piece := Piece(key, literal);
    PieceQuotes(key, literal);
    InsertMoves(content, p, piece);
    KeySlice(content, Insert(content, p, piece), Quoted(other), x, p);
  }

  lemma KeySlice(s: string, t: string, pat: string, x: nat, p: nat)
    requires SameFront(s, t, p) && OccursAt(s, pat, x) && x <= p && x + |pat| == p + 1
    requires p < |t| && t[p] == pat[|pat| - 1]
    ensures OccursAt(t, pat, x)
  {
    FrontSlice(s, t, p, x, p);
    assert t[x..p + 1] == t[x..p] + [t[p]];
    assert s[x..p + 1] == s[x..p] + [s[p]];
    assert s[x..p + 1][p - x] == pat[p - x];
  }

  lemma KeyOccurs(content: string, key: string, literal: string, other: string, x: nat, p: nat)
    requires IsIdentifier(key) && IsNumber(literal) && IsIdentifier(other)
    requires OccursAt(content, Quoted(other), x) && p <= |content| && (p <= x || x + |other| + 1 <= p)
    ensures var piece := Piece(key, literal);
            OccursAt(Insert(content, p, piece), Quoted(other), if x < p then x else x + |piece|)
  {
    hide OccursAt, IsIdentifier, IsNumber, Insert, Piece;
    if p == x + |other| + 1 {
      KeyInserted(content, key, literal, other, x, p);
    } else {
      OccursInserted(content, p, Piece(key, literal), Quoted(other), x);
    }
  }

  /** Another quoted key keeps its place before the piece, or is moved by it. */
  lemma KeyKept(content: string, key: string, literal: string, other: string, x: nat, p: nat)
    requires IsIdentifier(key) && IsNumber(literal) && IsIdentifier(other) && key != other
    requires InsertionPoint(content) == Some(p) && Find(content, Quoted(other), 0) == Some(x)
    requires p <= x || x + |other| + 1 <= p
    ensures var piece := Piece(key, literal);
            Find(Insert(content, p, piece), Quoted(other), 0) == Some(if x < p then x else x + |piece|)
  {
    hide *;
    var piece := Piece(key, literal);
    KeyOccurs(content, key, literal, other, x, p);
    StaysFirst(content, key, literal, other, x);
    FindIs(Insert(content, p, piece), Quoted(other), if x < p then x else x + |piece|);
  }

  /** The next insertion point is at the ends of the piece or between them. */
  lemma PointMoves(content: string, key: string, literal: string, p: nat) returns (next: nat)
    requires IsIdentifier(key) && IsNumber(literal) && !Contains(content, Quoted(key))
    requires InsertionPoint(content) == Some(p)
    ensures InsertionPoint(Insert(content, p, Piece(key, literal))) == Some(next)
    ensures p <= next <= p + |Piece(key, literal)|
  {
    hide IsNameChar, OccursAt;
    InjectedIs(content, key, literal);
    if Find(content, ANCHOR, 0).Some? {
      NotDuration(content, key, p);
      AnchorMoves(content, key, literal, p);
      next := p + |Piece(key, literal)|;
    } else if key == "duration" {
      assert Quoted("duration") == ANCHOR;
      InjectedHas(content, key, literal);
      next := p;
    } else {
      FallbackStays(content, key, literal, p);
      next := p;
    }
  }

  // ---- Reading as before -----------------------------------------------

  lemma FoundBehind(content: string, t: string, other: string, x: nat, p: nat, n: nat, next: nat)
    requires Find(content, Quoted(other), 0) == Some(x) && Find(t, Quoted(other), 0) == Some(x + n)
    requires MovedFrom(content, t, p, n) && p <= x <= |content| && next <= p + n
    ensures ExtractedText(t, other) == ExtractedText(content, other) && ApartAt(t, other, next)
  {
    hide ApartAt;
    MovedLater(content, t, p, x, n);
    ReadMoves(content, t, x, n);
    FoundReads(content, other, x);
    FoundReads(t, other, x + n);
  }

  lemma FoundBefore(content: string, t: string, other: string, x: nat, p: nat, next: nat)
    requires Find(content, Quoted(other), 0) == Some(x) && Find(t, Quoted(other), 0) == Some(x)
    requires SameFront(content, t, p) && p < |t| && t[p] !in NUMBER && p <= next
    requires EndFrom(content, x).Some? && EndFrom(content, x).value <= p
    ensures ExtractedText(t, other) == ExtractedText(content, other) && ApartAt(t, other, next)
  {
    ReadStays(content, t, x, p);
    FoundReads(content, other, x);
    FoundReads(t, other, x);
  }

  lemma QuoteNoNumber(c: char)
    requires c == '"'
    ensures c !in NUMBER
  {
  }

  /** The text after an injection, the length of the piece, the next insertion point, and where the other key is. */
  lemma Effect(content: string, key: string, literal: string, other: string, x: nat, p: nat)
    returns (t: string, n: nat, next: nat)
    requires IsIdentifier(key) && IsNumber(literal) && IsIdentifier(other) && key != other
    requires !Contains(content, Quoted(key)) && InsertionPoint(content) == Some(p)
    requires Find(content, Quoted(other), 0) == Some(x) && (p <= x || x + |other| + 1 <= p)
    ensures Injected(content, key, literal) == t && InsertionPoint(t) == Some(next) && p <= next <= p + n
    ensures MovedFrom(content, t, p, n) && SameFront(content, t, p) && p < |t| && t[p] == '"'
    ensures Find(t, Quoted(other), 0) == Some(if x < p then x else x + n)
  {
    hide InsertionPoint, OccursAt;
    var piece := Piece(key, literal);
    t, n := Insert(content, p, piece), |piece|;
    InjectedIs(content, key, literal);
    next := PointMoves(content, key, literal, p);
    InsertMoves(content, p, piece);
    PieceQuotes(key, literal);
    KeyKept(content, key, literal, other, x, p);
  }

  lemma OtherReads(content: string, key: string, literal: string, other: string, x: nat, p: nat)
    returns (t: string, next: nat)
    requires IsIdentifier(key) && IsNumber(literal) && IsIdentifier(other) && key != other
    requires !Contains(content, Quoted(key)) && InsertionPoint(content) == Some(p)
    requires Find(content, Quoted(other), 0) == Some(x) && Off(content, x, p)
    ensures Injected(content, key, literal) == t && InsertionPoint(t) == Some(next)
    ensures ExtractedText(t, other) == ExtractedText(content, other) && ApartAt(t, other, next)
  {
    var n: nat;
    if p > x {
      EndBehindKey(content, other, x);
    }
    t, n, next := Effect(content, key, literal, other, x, p);
    QuoteNoNumber(t[p]);
    if p <= x {
      FoundBehind(content, t, other, x, p, n, next);
    } else {
      FoundBefore(content, t, other, x, p, next);
    }
  }

  /** A key that stands apart from the insertion point is read as before, and stands apart from the next one. */
  lemma ReadsAsBefore(content: string, key: string, literal: string, other: string)
    requires IsIdentifier(key) && IsNumber(literal) && IsIdentifier(other) && key != other
    requires !Contains(content, Quoted(key)) && InsertionPoint(content).Some? && Apart(content, other)
    ensures ExtractedText(Injected(content, key, literal), other) == ExtractedText(content, other)
    ensures Apart(Injected(content, key, literal), other)
  {
    match Find(content, Quoted(other), 0)
    case None => InjectedAddsOnly(content, key, literal, other);
    case Some(x) =>
      FoundReads(content, other, x);
      var t, next := OtherReads(content, key, literal, other, x, InsertionPoint(content).value);
  }

  lemma {:induction false} AllReadAsBefore(content: string, notes: seq<Note>, other: string)
    requires Fresh(content, notes) && IsIdentifier(other) && Apart(content, other)
    requires forall i :: 0 <= i < |notes| ==> notes[i].key != other
    ensures ExtractedText(InjectAll(content, notes), other) == ExtractedText(content, other)
    ensures Apart(InjectAll(content, notes), other)
  {
    if notes != [] {
      var n := |notes| - 1;
      AllReadAsBefore(content, notes[..n], other);
      LastIsNew(content, notes);
      ReadsAsBefore(InjectAll(content, notes[..n]), notes[n].key, notes[n].Literal(), other);
    }
  }

  /** Whatever new keys are injected, the number of any other key is read as before, if the insertion point is not
      within what is read for it. */
  lemma OthersKeepValues(content: string, notes: seq<Note>, other: string)
    requires Fresh(content, notes) && IsIdentifier(other) && Apart(content, other)
    requires forall i :: 0 <= i < |notes| ==> notes[i].key != other
    ensures Extracted(InjectAll(content, notes), other) == Extracted(content, other)
  {
    AllReadAsBefore(content, notes, other);
  }

  /** In particular the duration is, in every text that holds it. */
  lemma DurationKept(content: string, notes: seq<Note>)
    requires Fresh(content, notes) && Contains(content, Quoted("duration"))
    ensures Extracted(InjectAll(content, notes), "duration") == Extracted(content, "duration")
  {
    hide Find;
    assert Quoted("duration") == ANCHOR;
    OthersKeepValues(content, notes, "duration");
  }

  // ---- Reading the injected number instead -----------------------------

  /** No number runs over the insertion point. */
  lemma NumberNotSplit(content: string, p: nat, i: nat)
    requires InsertionPoint(content) == Some(p) && i < p && i < |content| && content[i] in NUMBER_START
    ensures NumberEnd(content, i) <= p
  {
    if Find(content, ANCHOR, 0).Some? {
      AnchorEnds(content, p);
      EndBefore(content, p, i);
    } else {
      var b := FallbackPoint(content);
      BlankEnds(content, p, i);
    }
  }

  lemma AnchorEnds(content: string, p: nat)
    requires OccursAt(content, ANCHOR, p)
    ensures content[p] !in NUMBER
  {
    AnchorStarts(content, p);
  }

  lemma {:induction false} BlankEnds(content: string, p: nat, i: nat)
    requires i < p <= |content| && content[p - 1] in ALL_BLANKS + {'[', '{'}
    ensures NumberEnd(content, i) <= p
    decreases p - i
  {
    if i < p - 1 {
      BlankEnds(content, p, i + 1);
    }
  }

  lemma {:induction false} EndBefore(content: string, p: nat, i: nat)
    requires i <= p < |content| && content[p] !in NUMBER
    ensures NumberEnd(content, i) <= p
    decreases p - i
  {
    if i < p {
      EndBefore(content, p, i + 1);
    }
  }

  /** No character of `cs` from `from` up to `upTo`. */
  predicate NoneIn(s: string, cs: set<char>, from: nat, upTo: nat) {
    upTo <= |s| && forall k :: from <= k < upTo ==> s[k] !in cs
  }

  lemma {:induction false} SkipNone(s: string, cs: set<char>, from: nat, upTo: nat)
    requires NoneIn(s, cs, from, upTo) && from <= upTo
    ensures FirstIn(s, cs, from) == FirstIn(s, cs, upTo)
    decreases upTo - from
  {
    if from < upTo {
      SkipNone(s, cs, from + 1, upTo);
    }
  }

  lemma NoneBeforeFirst(s: string, t: string, cs: set<char>, from: nat, p: nat)
    requires SameFront(s, t, p) && from <= p
    requires FirstIn(s, cs, from).Some? ==> p <= FirstIn(s, cs, from).value
    ensures NoneIn(t, cs, from, p)
  {
    NotInBefore(s, cs, from);
    forall k | from <= k < p ensures t[k] !in cs {
      FrontChar(s, t, p, k);
    }
  }

  /** The insertion point is not between the first quote and the name of a quoted key, nor in the name. */
  lemma PointBehindKey(content: string, other: string, x: nat, p: nat)
    requires IsIdentifier(other) && Find(content, Quoted(other), 0) == Some(x) && InsertionPoint(content) == Some(p)
    requires x < p
    ensures x + |other| + 1 <= p
  {
    hide Quoted;
    if Find(content, ANCHOR, 0).Some? {
      AnchorInKey(content, other, x, p);
    } else {
      var b := FallbackPoint(content);
      BlankInKey(content, other, x, p);
    }
  }

  lemma AnchorInKey(content: string, other: string, x: nat, p: nat)
    requires IsIdentifier(other) && OccursAt(content, Quoted(other), x) && OccursAt(content, ANCHOR, p) && x < p
    ensures p >= x + |other| + 1
  {
    QuotedShape(other);
    OccursSpan(content, Quoted(other), x);
    AnchorStarts(content, p);
  }

  lemma BlankInKey(content: string, other: string, x: nat, p: nat)
    requires IsIdentifier(other) && OccursAt(content, Quoted(other), x) && x < p <= |content|
    requires content[p - 1] in ALL_BLANKS + {'[', '{'}
    ensures p >= x + |other| + 1
  {
    QuotedShape(other);
    OccursSpan(content, Quoted(other), x);
  }

  lemma NothingBefore(content: string, x: nat, p: nat, colon: nat)
    requires InsertionPoint(content) == Some(p) && !Off(content, x, p)
    requires FirstIn(content, {':'}, x) == Some(colon) && colon < p
    ensures FirstIn(content, NUMBER_START, colon + 1).Some? ==> p <= FirstIn(content, NUMBER_START, colon + 1).value
  {
    hide InsertionPoint, NumberEnd;
    var start := FirstIn(content, NUMBER_START, colon + 1);
    if start.Some? && start.value < p {
      NumberNotSplit(content, p, start.value);
    }
  }

  /** The first number in a piece ends before its comma. */
  lemma NumberInPiece(key: string, literal: string) returns (i: nat)
    requires IsIdentifier(key) && IsNumber(literal)
    ensures var piece := Piece(key, literal);
            && FirstIn(piece, NUMBER_START, 0) == Some(i) && i < |piece| - 2
            && piece[|piece| - 2] !in NUMBER && NumberEnd(piece, i) <= |piece| - 2
  {
    var piece := Piece(key, literal);
    PieceShape(key, literal);
    CommaEndsNumber();
    assert piece[|key| + 2 + 2 + 0] == literal[0];
    NotInBefore(piece, NUMBER_START, 0);
    i := FirstIn(piece, NUMBER_START, 0).value;
    EndBefore(piece, |piece| - 2, i);
  }

  lemma SuffixSame(t: string, piece: string, p: nat, upTo: nat)
    requires OccursAt(t, piece, p) && upTo < |piece|
    ensures SameFront(piece, t[p..], upTo) && upTo < |t[p..]| && t[p..][upTo] == piece[upTo]
    ensures MovedFrom(t[p..], t, 0, p)
  {
    assert t[p..][..|piece|] == piece;
    assert t[p..][..upTo] == t[p..][..|piece|][..upTo];
    assert t[p..][upTo] == t[p..][..|piece|][upTo];
  }

  lemma NumberOfPiece(t: string, key: string, literal: string, p: nat)
    requires IsIdentifier(key) && IsNumber(literal) && OccursAt(t, Piece(key, literal), p)
    ensures NumberAfter(t, p) == NumberAfter(Piece(key, literal), 0)
  {
    var piece := Piece(key, literal);
    var i := NumberInPiece(key, literal);
    SuffixSame(t, piece, p, |piece| - 2);
    NumberKept(piece, t[p..], 0, i, |piece| - 2);
    NumberMoves(t[p..], t, 0, p);
  }

  /** What is read when the piece comes between the key at `x` and the end of its number: the first number in the
      piece, or what is behind the colon of the piece when that is the first one found. */
  function Instead(content: string, key: string, literal: string, x: nat, p: nat): Option<string> {
    match FirstIn(content, {':'}, x)
    case None => Some(literal)
    case Some(colon) => if colon < p then NumberAfter(Piece(key, literal), 0) else Some(literal)
  }

  lemma ReadFromAt(t: string, x: nat, colon: nat)
    requires FirstIn(t, {':'}, x) == Some(colon)
    ensures ReadFrom(t, x) == NumberAfter(t, colon + 1)
  {
  }

  lemma NumberSkips(t: string, from: nat, upTo: nat)
    requires NoneIn(t, NUMBER_START, from, upTo) && from <= upTo
    ensures NumberAfter(t, from) == NumberAfter(t, upTo)
  {
    SkipNone(t, NUMBER_START, from, upTo);
  }

  lemma ReadsOn(content: string, t: string, key: string, literal: string, x: nat, p: nat, colon: nat)
    requires IsIdentifier(key) && IsNumber(literal) && OccursAt(t, Piece(key, literal), p)
    requires SameFront(content, t, p) && FirstIn(content, {':'}, x) == Some(colon) && colon < p
    requires FirstIn(content, NUMBER_START, colon + 1).Some? ==> p <= FirstIn(content, NUMBER_START, colon + 1).value
    ensures ReadFrom(t, x) == NumberAfter(Piece(key, literal), 0)
  {
    hide *;
    FirstStays(content, t, {':'}, x, p, colon);
    ReadFromAt(t, x, colon);
    NoneBeforeFirst(content, t, NUMBER_START, colon + 1, p);
    NumberSkips(t, colon + 1, p);
    NumberOfPiece(t, key, literal, p);
  }

  lemma ReadsColon(content: string, t: string, key: string, literal: string, x: nat, p: nat)
    requires IsIdentifier(key) && IsNumber(literal) && OccursAt(t, Piece(key, literal), p)
    requires SameFront(content, t, p) && x < p
    requires FirstIn(content, {':'}, x).Some? ==> p <= FirstIn(content, {':'}, x).value
    ensures ReadFrom(t, x) == Some(literal)
  {
    hide *;
    NoneBeforeFirst(content, t, {':'}, x, p);
    SkipNone(t, {':'}, x, p);
    ColonAfterKey(t, key, literal, p);
    ReadFromAt(t, x, p + |key| + 2);
    LiteralPlace(t, key, literal, p);
    LiteralRead(t, literal, p + |key| + 3);
  }

  lemma ReadsPiece(content: string, t: string, key: string, literal: string, x: nat, p: nat)
    requires IsIdentifier(key) && IsNumber(literal) && OccursAt(t, Piece(key, literal), p)
    requires SameFront(content, t, p) && InsertionPoint(content) == Some(p) && !Off(content, x, p)
    ensures ReadFrom(t, x) == Instead(content, key, literal, x, p)
  {
    var colon := FirstIn(content, {':'}, x);
    if colon.Some? && colon.value < p {
      NothingBefore(content, x, p, colon.value);
      ReadsOn(content, t, key, literal, x, p, colon.value);
    } else {
      ReadsColon(content, t, key, literal, x, p);
    }
  }

  /** Otherwise a number of the piece is read for the other key. */
  lemma ReadsInjected(content: string, key: string, literal: string, other: string, x: nat, p: nat)
    requires IsIdentifier(key) && IsNumber(literal) && IsIdentifier(other) && key != other
    requires !Contains(content, Quoted(key)) && InsertionPoint(content) == Some(p)
    requires Find(content, Quoted(other), 0) == Some(x) && !Off(content, x, p)
    ensures ExtractedText(Injected(content, key, literal), other) == Instead(content, key, literal, x, p)
  {
    PointBehindKey(content, other, x, p);
    var t, n, next := Effect(content, key, literal, other, x, p);
    InjectedHas(content, key, literal);
    ReadsPiece(content, t, key, literal, x, p);
    FoundReads(t, other, x);
  }

  /** What is read for a key whose number does not stand apart from the insertion point. */
  function InsteadOf(content: string, key: string, literal: string, other: string): Option<string>
    requires InsertionPoint(content).Some? && !Apart(content, other)
  {
    Instead(content, key, literal, Find(content, Quoted(other), 0).value, InsertionPoint(content).value)
  }

  /** The number that is read for a key stays if and only if the insertion point is not within what is read for it, or
      the number that is then read in the piece happens to be the same. */
  lemma OtherKeptIff(content: string, note: Note, other: string)
    requires IsIdentifier(note.key) && IsIdentifier(other) && note.key != other
    requires !Contains(content, Quoted(note.key)) && InsertionPoint(content).Some?
    ensures Extracted(Injected(content, note.key, note.Literal()), other) == Extracted(content, other)
            <==> (|| Apart(content, other)
                  || Converted(InsteadOf(content, note.key, note.Literal(), other)) == Extracted(content, other))
  {
    hide Stod, Instead, Injected, InsertionPoint, IsIdentifier, IsNumber;
    LiteralIsNumber(note.value);
    if Apart(content, other) {
      ReadsAsBefore(content, note.key, note.Literal(), other);
    } else {
      ReadsInjected(content, note.key, note.Literal(), other,
                    Find(content, Quoted(other), 0).value, InsertionPoint(content).value);
    }
  }

  predicate NoDigits(key: string) {
    forall i :: 0 <= i < |key| ==> !IsDigit(key[i])
  }

  lemma NameNoStart(c: char)
    requires IsNameChar(c) && !IsDigit(c)
    ensures c !in NUMBER_START
  {
  }

  lemma NoStartInPiece(key: string, literal: string, i: nat)
    requires IsIdentifier(key) && NoDigits(key) && IsNumber(literal) && i < |key| + 4
    ensures i < |Piece(key, literal)| && Piece(key, literal)[i] !in NUMBER_START
  {
    PieceShape(key, literal);
    QuotedShape(key);
    if 0 < i < |key| + 1 {
      NameNoStart(key[i - 1]);
    }
  }

  /** The first number in a piece is its literal, if there is no digit in the key. */
  lemma LiteralFirst(key: string, literal: string)
    requires IsIdentifier(key) && NoDigits(key) && IsNumber(literal)
    ensures NumberAfter(Piece(key, literal), 0) == Some(literal)
  {
    var piece, start := Piece(key, literal), |key| + 4;
    LiteralPlace(piece, key, literal, 0);
    LiteralRead(piece, literal, start - 1);
    forall i | 0 <= i < start ensures piece[i] !in NUMBER_START {
      NoStartInPiece(key, literal, i);
    }
    SkipNone(piece, NUMBER_START, 0, start);
    SkipNone(piece, NUMBER_START, start - 1, start);
  }

  const NULL_TEXT: string := "{\"ai\": null, \"duration\": 5}"

  lemma NullPoint()
    ensures InsertionPoint(NULL_TEXT) == Some(13)
  {
    hide OccursAt;
    assert NULL_TEXT[13..23] == ANCHOR;
    forall i | 0 <= i < 13 ensures !OccursAt(NULL_TEXT, ANCHOR, i) {
      if OccursAt(NULL_TEXT, ANCHOR, i) {
        AnchorStarts(NULL_TEXT, i);
      }
    }
    FindIs(NULL_TEXT, ANCHOR, 13);
  }

  lemma NullStart(s: string)
    requires s == NULL_TEXT[1..5]
    ensures s == "\"ai\""
  {
    assert NULL_TEXT == "{" + "\"ai\"" + NULL_TEXT[5..];
  }

  lemma NullKey()
    ensures Find(NULL_TEXT, Quoted("ai"), 0) == Some(1)
  {
    assert Quoted("ai") == "\"ai\"";
    NullStart(NULL_TEXT[1..5]);
    assert NULL_TEXT[0..4][0] == '{' && Quoted("ai")[0] == '"';
    FindIs(NULL_TEXT, Quoted("ai"), 1);
  }

  lemma NoNumberBefore(i: nat)
    requires 6 <= i < 25
    ensures NULL_TEXT[i] !in NUMBER_START
  {
  }

  lemma NullColon()
    ensures FirstIn(NULL_TEXT, {':'}, 1) == Some(5)
  {
    FirstInIs(NULL_TEXT, {':'}, 1, 5);
  }

  lemma NullReads()
    ensures ReadFrom(NULL_TEXT, 1) == Some("5") && EndFrom(NULL_TEXT, 1) == Some(26)
  {
    NullColon();
    forall i | 6 <= i < 25 ensures NULL_TEXT[i] !in NUMBER_START {
      NoNumberBefore(i);
    }
    NullNumber();
    FirstInIs(NULL_TEXT, NUMBER_START, 6, 25);
    FirstNotInIs(NULL_TEXT, NUMBER, 25, 26);
  }

  lemma NullNumber()
    ensures NULL_TEXT[25] in NUMBER_START && NULL_TEXT[25] in NUMBER && NULL_TEXT[26] !in NUMBER
    ensures NULL_TEXT[25..26] == "5"
  {
  }

  /** For null the reader goes on to the next number of the file. That is the duration, until a key is put before it. */
  lemma NullMisread(note: Note)
    requires IsIdentifier(note.key) && NoDigits(note.key) && !Contains(NULL_TEXT, Quoted(note.key))
    ensures ExtractedText(NULL_TEXT, "ai") == Some("5")
    ensures ExtractedText(Injected(NULL_TEXT, note.key, note.Literal()), "ai") == Some(note.Literal())
  {
    hide Find, FirstIn, NumberAfter, OccursAt, Stod;
    NullReads();
    NullPoint();
    NullKey();
    FoundReads(NULL_TEXT, "ai", 1);
    LiteralIsNumber(note.value);
    LiteralFirst(note.key, note.Literal());
    NullColon();
    ReadsInjected(NULL_TEXT, note.key, note.Literal(), "ai", 1, 13);
  }
}
