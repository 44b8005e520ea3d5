/** What was injected is read back: the round trip between the splicer and the reader. */
module AnnotateRuns {
  import opened Wrappers
  import opened Strings
  import opened Decimal
  import opened Annotate

  predicate IsNameChar(c: char) {
    'a' <= c <= 'z' || 'A' <= c <= 'Z' || '0' <= c <= '9' || c == '_'
  }

  predicate IsIdentifier(key: string) {
    key != "" && forall i :: 0 <= i < |key| ==> IsNameChar(key[i])
  }

  /** The literals that are injected: decimal integers. */
  predicate IsNumber(literal: string) {
    && literal != "" && literal[0] in NUMBER_START
    && forall i :: 0 <= i < |literal| ==> literal[i] in NUMBER
  }

  // ---- Quotes ----------------------------------------------------------

  lemma QuotedShape(key: string)
    requires IsIdentifier(key)
    ensures var q := Quoted(key);
            && |q| == |key| + 2 && q[0] == '"' && q[|q| - 1] == '"'
            && forall i :: 0 < i < |q| - 1 ==> IsNameChar(q[i]) && q[i] == key[i - 1]
  {
  }

  lemma PieceShape(key: string, literal: string)
    requires IsIdentifier(key) && IsNumber(literal)
    ensures var p, n := Piece(key, literal), |key| + 2;
            && |p| == n + |literal| + 4
            && (forall i :: 0 <= i < n ==> p[i] == Quoted(key)[i])
            && p[n] == ':' && p[n + 1] == ' '
            && (forall i :: 0 <= i < |literal| ==> p[n + 2 + i] == literal[i])
            && p[|p| - 2] == ',' && p[|p| - 1] == ' '
  {
    var p, n := Piece(key, literal), |key| + 2;
    assert p == Quoted(key) + ": " + literal + ", ";
  }

  /** A piece holds two quotes, at the ends of its key. */
  lemma PieceQuotes(key: string, literal: string)
    requires IsIdentifier(key) && IsNumber(literal)
    ensures var p := Piece(key, literal);
            forall i :: 0 <= i < |p| ==> (p[i] == '"' <==> i == 0 || i == |key| + 1)
  {
    hide Quoted;
    PieceShape(key, literal);
    QuotedShape(key);
    var p, n := Piece(key, literal), |key| + 2;
    forall i | 0 <= i < |p| ensures p[i] == '"' <==> i == 0 || i == |key| + 1 {
      if n + 2 <= i < n + 2 + |literal| {
        NoQuoteInNumber(literal[i - n - 2]);
      }
    }
  }

  lemma NoQuoteInNumber(c: char)
    requires c in NUMBER
    ensures c != '"'
  {
  }

  /** Where a piece may be inserted without joining a name to its first quote. */
  predicate Clean(content: string, pos: nat) {
    && pos <= |content|
    && ((pos < |content| && content[pos] == '"') || (pos > 0 && !IsNameChar(content[pos - 1])))
  }

  lemma InsertedAt(content: string, pos: nat, piece: string, i: nat)
    requires pos <= |content| && i < |content| + |piece|
    ensures |Insert(content, pos, piece)| == |content| + |piece|
    ensures Insert(content, pos, piece)[i] ==
            if i < pos then content[i] else if i < pos + |piece| then piece[i - pos] else content[i - |piece|]
  {
  }

  lemma InsertSlices(content: string, pos: nat, piece: string, q: nat, n: nat)
    requires pos <= |content| && q + n <= |content| + |piece|
    ensures |Insert(content, pos, piece)| == |content| + |piece|
    ensures q + n <= pos ==> Insert(content, pos, piece)[q..q + n] == content[q..q + n]
    ensures q >= pos + |piece| ==> Insert(content, pos, piece)[q..q + n] == content[q - |piece|..q - |piece| + n]
    ensures q == pos && n == |piece| ==> Insert(content, pos, piece)[q..q + n] == piece
  {
  }

  /** Where a quoted name can occur in a text after an insertion: only where it occurred before, or as the
      key of the piece itself. No occurrence straddles an end of the piece. */
  lemma Straddle(content: string, pos: nat, key: string, literal: string, name: string, q: int)
    requires IsIdentifier(key) && IsNumber(literal) && IsIdentifier(name) && Clean(content, pos)
    requires OccursAt(Insert(content, pos, Piece(key, literal)), Quoted(name), q)
    ensures var n := |Piece(key, literal)|;
            || (q < pos && OccursAt(content, Quoted(name), q))
            || (q == pos && name == key)
            || (q >= pos + n && OccursAt(content, Quoted(name), q - n))
  {
    var piece, pat := Piece(key, literal), Quoted(name);
    var t := Insert(content, pos, piece);
    QuotedShape(name);
    assert forall i :: 0 <= i < |pat| ==> t[q + i] == pat[i];
    InsertSlices(content, pos, piece, q, |pat|);
    if q + |pat| <= pos || q >= pos + |piece| {
    } else if q < pos {
      StraddlesStart(content, pos, key, literal, name, q);
    } else {
      InsidePiece(content, pos, key, literal, name, q);
    }
  }

  lemma StraddlesStart(content: string, pos: nat, key: string, literal: string, name: string, q: nat)
    requires IsIdentifier(key) && IsNumber(literal) && IsIdentifier(name) && Clean(content, pos)
    requires q < pos < q + |name| + 2
    requires OccursAt(Insert(content, pos, Piece(key, literal)), Quoted(name), q)
    ensures OccursAt(content, Quoted(name), q)
  {
    var piece, pat := Piece(key, literal), Quoted(name);
    var t := Insert(content, pos, piece);
    QuotedShape(name);
    PieceQuotes(key, literal);
    PieceShape(key, literal);
    assert t[q..q + |pat|][pos - q] == t[pos];
    InsertedAt(content, pos, piece, pos);
    assert pat[pos - q] == '"';
    assert pos == q + |pat| - 1;
    InsertedAt(content, pos, piece, pos - 1);
    assert t[q..q + |pat|][pos - 1 - q] == t[pos - 1];
    assert IsNameChar(content[pos - 1]);
    forall i | 0 <= i < |pat| ensures content[q + i] == pat[i] {
      InsertedAt(content, pos, piece, q + i);
      assert t[q..q + |pat|][i] == t[q + i];
    }
    assert content[q..q + |pat|] == pat;
  }

  lemma InsidePiece(content: string, pos: nat, key: string, literal: string, name: string, q: nat)
    requires IsIdentifier(key) && IsNumber(literal) && IsIdentifier(name) && pos <= |content|
    requires pos <= q < pos + |Piece(key, literal)|
    requires OccursAt(Insert(content, pos, Piece(key, literal)), Quoted(name), q)
    ensures q == pos && name == key
  {
    var piece, pat := Piece(key, literal), Quoted(name);
    var t := Insert(content, pos, piece);
    QuotedShape(name);
    PieceQuotes(key, literal);
    PieceShape(key, literal);
    forall i | 0 <= i < |pat| ensures t[q + i] == pat[i] {
      assert t[q..q + |pat|][i] == t[q + i];
    }
    forall i | pos <= i < pos + |piece| ensures t[i] == piece[i - pos] {
      InsertedAt(content, pos, piece, i);
    }
    assert piece[q - pos] == '"';
    assert piece[q - pos + 1] == t[q + 1] == pat[1];
    if q == pos {
      SameKey(piece, key, literal, name);
    }
  }

  lemma SameKey(piece: string, key: string, literal: string, name: string)
    requires IsIdentifier(key) && IsNumber(literal) && IsIdentifier(name) && piece == Piece(key, literal)
    requires forall i :: 0 <= i < |name| + 2 && i < |piece| ==> Quoted(name)[i] == piece[i]
    ensures name == key
  {
    QuotedShape(name);
    QuotedShape(key);
    PieceShape(key, literal);
    var m := if |name| < |key| then |name| else |key|;
    assert Quoted(name)[m + 1] == piece[m + 1] == Quoted(key)[m + 1];
    assert |name| == |key|;
    assert forall i :: 0 <= i < |key| ==>
                         name[i] == Quoted(name)[i + 1] == piece[i + 1] == Quoted(key)[i + 1] == key[i];
  }

  // ---- One injection ---------------------------------------------------

  lemma AnchorStarts(text: string, i: int)
    requires OccursAt(text, ANCHOR, i)
    ensures text[i] == '"' && text[i + 1] == 'd'
  {
    OccursChars(text, ANCHOR, i);
    assert text[i + 0] == ANCHOR[0] && text[i + 1] == ANCHOR[1];
  }

  /** The insertion point never joins a name to the piece, and no piece inserted earlier is split by it. */
  lemma InsertionPointClean(content: string)
    requires InsertionPoint(content).Some?
    ensures Clean(content, InsertionPoint(content).value)
  {
    var p := InsertionPoint(content).value;
    if Find(content, ANCHOR, 0).Some? {
      assert content[p..p + |ANCHOR|][0] == content[p];
    } else {
      BlanksSkipped(content, Bracket(content).value + 1);
    }
  }

  lemma PieceNotSplit(content: string, key: string, literal: string, x: nat)
    requires IsIdentifier(key) && IsNumber(literal) && InsertionPoint(content).Some?
    requires OccursAt(content, Piece(key, literal), x)
    ensures var p := InsertionPoint(content).value;
            p <= x || x + |Piece(key, literal)| <= p
  {
    var p, piece := InsertionPoint(content).value, Piece(key, literal);
    PieceShape(key, literal);
    PieceQuotes(key, literal);
    forall i | 0 <= i < |piece| ensures content[x + i] == piece[i] {
      assert content[x..x + |piece|][i] == content[x + i];
    }
    if x < p < x + |piece| {
      if Find(content, ANCHOR, 0).Some? {
        AnchorInPiece(content, key, literal, x, p);
      } else {
        BlankInPiece(content, key, literal, x, p);
      }
    }
  }

  lemma AnchorInPiece(content: string, key: string, literal: string, x: nat, p: nat)
    requires IsIdentifier(key) && IsNumber(literal)
    requires OccursAt(content, Piece(key, literal), x) && OccursAt(content, ANCHOR, p)
    requires x <= p < x + |Piece(key, literal)|
    ensures p == x
  {
    var piece := Piece(key, literal);
    PieceShape(key, literal);
    PieceQuotes(key, literal);
    assert content[x..x + |piece|][p - x] == content[p];
    assert content[p..p + |ANCHOR|][0] == content[p] && content[p..p + |ANCHOR|][1] == content[p + 1];
    assert content[x..x + |piece|][p + 1 - x] == content[p + 1];
  }

  lemma NoBracketInKey(key: string, i: nat)
    requires IsIdentifier(key) && i < |Quoted(key)|
    ensures Quoted(key)[i] !in {'[', '{'}
  {
    QuotedShape(key);
    if 0 < i < |key| + 1 {
      assert IsNameChar(Quoted(key)[i]);
    }
  }

  lemma NoBracketInNumber(c: char)
    requires c in NUMBER
    ensures c !in {'[', '{'}
  {
  }

  lemma NoBracketInPiece(key: string, literal: string, i: nat)
    requires IsIdentifier(key) && IsNumber(literal) && i < |Piece(key, literal)|
    ensures Piece(key, literal)[i] !in {'[', '{'}
  {
    hide Quoted;
    var n := |key| + 2;
    PieceShape(key, literal);
    if i < n {
      NoBracketInKey(key, i);
    } else if n + 2 <= i < n + 2 + |literal| {
      NoBracketInNumber(literal[i - n - 2]);
    }
  }

  lemma BracketBehindPiece(content: string, key: string, literal: string, x: nat, b: nat)
    requires IsIdentifier(key) && IsNumber(literal) && OccursAt(content, Piece(key, literal), x)
    requires x <= b < |content| && content[b] in {'[', '{'}
    ensures x + |Piece(key, literal)| <= b
  {
    OccursChars(content, Piece(key, literal), x);
    if b < x + |Piece(key, literal)| {
      NoBracketInPiece(key, literal, b - x);
    }
  }

  lemma PieceStartsQuoted(content: string, key: string, literal: string, x: nat)
    requires IsIdentifier(key) && IsNumber(literal) && OccursAt(content, Piece(key, literal), x)
    ensures x < |content| && content[x] == '"'
  {
    PieceShape(key, literal);
    assert content[x..x + |Piece(key, literal)|][0] == content[x];
  }

  lemma FallbackPoint(content: string) returns (b: nat)
    requires Find(content, ANCHOR, 0).None? && InsertionPoint(content).Some?
    ensures b < InsertionPoint(content).value && content[b] in {'[', '{'}
    ensures forall i :: b < i < InsertionPoint(content).value ==> content[i] in ALL_BLANKS
  {
    b := Bracket(content).value;
    BlanksSkipped(content, b + 1);
  }

  lemma BlankInPiece(content: string, key: string, literal: string, x: nat, p: nat)
    requires IsIdentifier(key) && IsNumber(literal)
    requires Find(content, ANCHOR, 0).None? && InsertionPoint(content) == Some(p)
    requires OccursAt(content, Piece(key, literal), x) && x < p
    ensures x + |Piece(key, literal)| <= p
  {
    var b := FallbackPoint(content);
    PieceStartsQuoted(content, key, literal, x);
    assert b >= x;
    BracketBehindPiece(content, key, literal, x, b);
  }

  /** The first occurrence of the quoted key is the head of its piece. */
  predicate HasPiece(content: string, key: string, literal: string, x: nat) {
    Find(content, Quoted(key), 0) == Some(x) && OccursAt(content, Piece(key, literal), x)
  }

  lemma PieceHead(content: string, key: string, literal: string, x: nat)
    requires OccursAt(content, Piece(key, literal), x)
    ensures OccursAt(content, Quoted(key), x)
  {
    var n := |Quoted(key)|;
    assert Piece(key, literal)[..n] == Quoted(key);
    assert content[x..x + n] == content[x..x + |Piece(key, literal)|][..n];
  }

  lemma ColonAfterKey(content: string, key: string, literal: string, x: nat)
    requires IsIdentifier(key) && IsNumber(literal) && OccursAt(content, Piece(key, literal), x)
    ensures FirstIn(content, {':'}, x) == Some(x + |key| + 2)
  {
    var piece, n := Piece(key, literal), |key| + 2;
    PieceShape(key, literal);
    PieceHead(content, key, literal, x);
    OccursChars(content, piece, x);
    OccursChars(content, Quoted(key), x);
    QuotedShape(key);
    forall i | x <= i < x + n ensures content[i] != ':' {
      assert content[x + (i - x)] == Quoted(key)[i - x];
    }
    assert content[x + n] == piece[n];
    FirstInIs(content, {':'}, x, x + n);
  }

  lemma LiteralPlace(content: string, key: string, literal: string, x: nat)
    requires IsIdentifier(key) && IsNumber(literal) && OccursAt(content, Piece(key, literal), x)
    ensures var pos := x + |key| + 3;
            && pos + |literal| + 1 < |content|
            && content[pos] == ' ' && OccursAt(content, literal, pos + 1) && content[pos + 1 + |literal|] == ','
  {
    hide IsNumber, Piece;
    var piece, n := Piece(key, literal), |key| + 2;
    PieceShape(key, literal);
    OccursChars(content, piece, x);
    assert content[x + (n + 1)] == piece[n + 1];
    assert content[x + (|piece| - 2)] == piece[|piece| - 2];
    LiteralInPiece(key, literal);
    OccursInSlice(content, literal, x, x + |piece|, n + 2);
  }

  lemma LiteralInPiece(key: string, literal: string)
    ensures OccursAt(Piece(key, literal), literal, |key| + 4)
  {
    var piece, n := Piece(key, literal), |key| + 4;
    assert piece == (Quoted(key) + ": ") + literal + ", ";
    assert piece[n..n + |literal|] == literal;
  }

  /** A piece whose key occurs first at its head is read back as its literal. */
  lemma PieceReadsBack(content: string, key: string, literal: string, x: nat)
    requires IsIdentifier(key) && IsNumber(literal) && HasPiece(content, key, literal, x)
    ensures ExtractedText(content, key) == Some(literal)
  {
    hide OccursAt, Piece, Quoted;
    ColonAfterKey(content, key, literal, x);
    LiteralPlace(content, key, literal, x);
    LiteralRead(content, literal, x + |key| + 3);
  }

  lemma CommaEndsNumber()
    ensures ' ' !in NUMBER_START && ',' !in NUMBER
  {
  }

  /** A number after a blank and before a comma is read as it stands. */
  lemma LiteralRead(content: string, literal: string, pos: nat)
    requires IsNumber(literal) && pos + |literal| + 1 < |content|
    requires content[pos] == ' ' && OccursAt(content, literal, pos + 1) && content[pos + 1 + |literal|] == ','
    ensures NumberAfter(content, pos) == Some(literal)
  {
    var i, j := pos + 1, pos + 1 + |literal|;
    CommaEndsNumber();
    OccursChars(content, literal, i);
    assert content[i + 0] == literal[0];
    FirstInIs(content, NUMBER_START, pos, i);
    forall k | i <= k < j ensures content[k] in NUMBER {
      assert content[i + (k - i)] == literal[k - i];
    }
    FirstNotInIs(content, NUMBER, i, j);
  }

  lemma OccursInserted(content: string, pos: nat, piece: string, pat: string, q: nat)
    requires pos <= |content| && OccursAt(content, pat, q)
    ensures q + |pat| <= pos ==> OccursAt(Insert(content, pos, piece), pat, q)
    ensures q >= pos ==> OccursAt(Insert(content, pos, piece), pat, q + |piece|)
  {
    if q + |pat| <= pos {
      InsertSlices(content, pos, piece, q, |pat|);
    }
    if q >= pos {
      InsertSlices(content, pos, piece, q + |piece|, |pat|);
    }
  }

  /** Injecting a key that is not in the text puts its piece in, at the first place where the key occurs. */
  lemma InjectedHas(content: string, key: string, literal: string)
    requires IsIdentifier(key) && IsNumber(literal)
    requires !Contains(content, Quoted(key)) && InsertionPoint(content).Some?
    ensures HasPiece(Injected(content, key, literal), key, literal, InsertionPoint(content).value)
  {
    var p, piece := InsertionPoint(content).value, Piece(key, literal);
    var t := Insert(content, p, piece);
    InsertionPointClean(content);
    InsertSlices(content, p, piece, p, |piece|);
    assert OccursAt(t, piece, p);
    PieceHead(t, key, literal, p);
    NoneBefore(content, Quoted(key), 0);
    forall i | 0 <= i < p ensures !OccursAt(t, Quoted(key), i) {
      if OccursAt(t, Quoted(key), i) {
        Straddle(content, p, key, literal, key, i);
      }
    }
    FindIs(t, Quoted(key), p);
  }

  /** Injecting another key keeps a piece and its being the first occurrence of its key. */
  lemma InjectedKeeps(content: string, key: string, literal: string, other: string, otherLiteral: string, x: nat)
    requires IsIdentifier(key) && IsNumber(literal) && IsIdentifier(other) && IsNumber(otherLiteral) && key != other
    requires !Contains(content, Quoted(key)) && InsertionPoint(content).Some?
    requires HasPiece(content, other, otherLiteral, x)
    ensures var p := InsertionPoint(content).value;
            HasPiece(Injected(content, key, literal), other, otherLiteral,
                     if x < p then x else x + |Piece(key, literal)|)
  {
    hide OccursAt;
    InjectedIs(content, key, literal);
    PieceNotSplit(content, other, otherLiteral, x);
    StaysFirst(content, key, literal, other, x);
    InsertKeeps(content, InsertionPoint(content).value, Piece(key, literal), other, otherLiteral, x);
  }

  lemma InjectedIs(content: string, key: string, literal: string)
    requires key != "" && !Contains(content, Quoted(key)) && InsertionPoint(content).Some?
    ensures Injected(content, key, literal) == Insert(content, InsertionPoint(content).value, Piece(key, literal))
  {
  }

  lemma InsertKeeps(content: string, p: nat, piece: string, other: string, otherLiteral: string, x: nat)
    requires p <= |content| && (p <= x || x + |Piece(other, otherLiteral)| <= p)
    requires OccursAt(content, Piece(other, otherLiteral), x)
    requires forall i :: 0 <= i < (if x < p then x else x + |piece|) ==>
               !OccursAt(Insert(content, p, piece), Quoted(other), i)
    ensures HasPiece(Insert(content, p, piece), other, otherLiteral, if x < p then x else x + |piece|)
  {
    var x' := if x < p then x else x + |piece|;
    OccursInserted(content, p, piece, Piece(other, otherLiteral), x);
    PieceHead(Insert(content, p, piece), other, otherLiteral, x');
    FindIs(Insert(content, p, piece), Quoted(other), x');
  }

  lemma StaysFirst(content: string, key: string, literal: string, other: string, x: nat)
    requires IsIdentifier(key) && IsNumber(literal) && IsIdentifier(other) && key != other
    requires InsertionPoint(content).Some? && Find(content, Quoted(other), 0) == Some(x)
    ensures var p, piece := InsertionPoint(content).value, Piece(key, literal);
            forall i :: 0 <= i < (if x < p then x else x + |piece|) ==>
              !OccursAt(Insert(content, p, piece), Quoted(other), i)
  {
    var p, piece := InsertionPoint(content).value, Piece(key, literal);
    InsertionPointClean(content);
    NoneBefore(content, Quoted(other), 0);
    forall i | 0 <= i < (if x < p then x else x + |piece|)
      ensures !OccursAt(Insert(content, p, piece), Quoted(other), i)
    {
      if OccursAt(Insert(content, p, piece), Quoted(other), i) {
        Straddle(content, p, key, literal, other, i);
      }
    }
  }

  /** Injecting a key brings no other quoted key into the text. */
  lemma InjectedAddsOnly(content: string, key: string, literal: string, other: string)
    requires IsIdentifier(key) && IsNumber(literal) && IsIdentifier(other) && key != other
    requires !Contains(content, Quoted(other))
    ensures !Contains(Injected(content, key, literal), Quoted(other))
  {
    var t := Injected(content, key, literal);
    if t != content && Contains(t, Quoted(other)) {
      InsertionPointClean(content);
      NoneBefore(content, Quoted(other), 0);
      Straddle(content, InsertionPoint(content).value, key, literal, other, Find(t, Quoted(other), 0).value);
    }
  }

  /** There is still a place to insert at after an injection. */
  lemma InjectedKeepsPoint(content: string, key: string, literal: string)
    requires InsertionPoint(content).Some?
    ensures InsertionPoint(Injected(content, key, literal)).Some?
  {
    hide Piece, SkipBlanks;
    var t := Injected(content, key, literal);
    if t != content {
      var p, piece := InsertionPoint(content).value, Piece(key, literal);
      if Find(content, ANCHOR, 0).Some? {
        InsertSlices(content, p, piece, p + |piece|, |ANCHOR|);
        OccursContains(t, ANCHOR, p + |piece|);
      } else {
        var b := Bracket(content).value;
        assert t[b] == content[b];
        NotInBefore(t, {'['}, 0);
        NotInBefore(t, {'{'}, 0);
      }
    }
  }

  // ---- A list of keys --------------------------------------------------

  /** One annotation: a key and the integer that is injected for it. */
  datatype Note = Note(key: string, value: int) {
    function Literal(): string {
      ToString(value)
    }
  }

  lemma LiteralIsNumber(n: int)
    ensures IsNumber(ToString(n))
  {
    var digits := Digits(if n < 0 then -n else n);
    forall i | 0 <= i < |digits| ensures digits[i] in DIGITS {
      DigitInSet(digits[i]);
    }
    assert forall i :: 1 <= i < |"-" + digits| ==> ("-" + digits)[i] == digits[i - 1];
  }

  lemma DigitInSet(c: char)
    requires IsDigit(c)
    ensures c in DIGITS
  {
  }

  /** The text after the keys have been injected one after the other. */
  function InjectAll(content: string, notes: seq<Note>): string {
    if notes == [] then content
    else
      var n := |notes| - 1;
      Injected(InjectAll(content, notes[..n]), notes[n].key, notes[n].Literal())
  }

  /** Distinct identifiers, none of which stands quoted in the text, and a place to insert at. */
  ghost predicate Fresh(content: string, notes: seq<Note>) {
    && InsertionPoint(content).Some?
    && (forall i :: 0 <= i < |notes| ==> IsIdentifier(notes[i].key) && !Contains(content, Quoted(notes[i].key)))
    && (forall i, j :: 0 <= i < j < |notes| ==> notes[i].key != notes[j].key)
  }

  lemma {:induction false} InjectAllKeepsPoint(content: string, notes: seq<Note>)
    requires InsertionPoint(content).Some?
    ensures InsertionPoint(InjectAll(content, notes)).Some?
  {
    if notes != [] {
      var n := |notes| - 1;
      InjectAllKeepsPoint(content, notes[..n]);
      InjectedKeepsPoint(InjectAll(content, notes[..n]), notes[n].key, notes[n].Literal());
    }
  }

  lemma {:induction false} InjectAllAddsOnly(content: string, notes: seq<Note>, other: string)
    requires Fresh(content, notes) && IsIdentifier(other) && !Contains(content, Quoted(other))
    requires forall i :: 0 <= i < |notes| ==> notes[i].key != other
    ensures !Contains(InjectAll(content, notes), Quoted(other))
  {
    if notes != [] {
      var n := |notes| - 1;
      InjectAllAddsOnly(content, notes[..n], other);
      LiteralIsNumber(notes[n].value);
      InjectedAddsOnly(InjectAll(content, notes[..n]), notes[n].key, notes[n].Literal(), other);
    }
  }

  /** The last injection happens: its key is new to the text so far. */
  lemma LastIsNew(content: string, notes: seq<Note>)
    requires notes != [] && Fresh(content, notes)
    ensures var n := |notes| - 1;
            && Fresh(content, notes[..n])
            && !Contains(InjectAll(content, notes[..n]), Quoted(notes[n].key))
            && InsertionPoint(InjectAll(content, notes[..n])).Some?
            && IsNumber(notes[n].Literal())
  {
    var n := |notes| - 1;
    InjectAllKeepsPoint(content, notes[..n]);
    InjectAllAddsOnly(content, notes[..n], notes[n].key);
    LiteralIsNumber(notes[n].value);
  }

  lemma {:induction false} InjectAllHas(content: string, notes: seq<Note>, i: nat) returns (x: nat)
    requires Fresh(content, notes) && i < |notes|
    ensures HasPiece(InjectAll(content, notes), notes[i].key, notes[i].Literal(), x)
  {
    var n := |notes| - 1;
    var before := InjectAll(content, notes[..n]);
    LastIsNew(content, notes);
    if i == n {
      InjectedHas(before, notes[n].key, notes[n].Literal());
      x := InsertionPoint(before).value;
    } else {
      x := InjectAllHas(content, notes[..n], i);
      x := KeepStep(before, notes[n], notes[i], x);
    }
  }

  lemma KeepStep(content: string, note: Note, other: Note, x: nat) returns (x': nat)
    requires IsIdentifier(note.key) && IsIdentifier(other.key) && note.key != other.key
    requires !Contains(content, Quoted(note.key)) && InsertionPoint(content).Some?
    requires HasPiece(content, other.key, other.Literal(), x)
    ensures HasPiece(Injected(content, note.key, note.Literal()), other.key, other.Literal(), x')
  {
    LiteralIsNumber(note.value);
    LiteralIsNumber(other.value);
    InjectedKeeps(content, note.key, note.Literal(), other.key, other.Literal(), x);
    x' := if x < InsertionPoint(content).value then x else x + |Piece(note.key, note.Literal())|;
  }

  /** The text without the piece of a key. */
  function Without(content: string, key: string, literal: string): string {
    match Find(content, Quoted(key), 0)
    case None => content
    case Some(x) =>
      if x + |Piece(key, literal)| > |content| then content else content[..x] + content[x + |Piece(key, literal)|..]
  }

  function WithoutAll(content: string, notes: seq<Note>): string {
    if notes == [] then content
    else
      var n := |notes| - 1;
      WithoutAll(Without(content, notes[n].key, notes[n].Literal()), notes[..n])
  }

  lemma WithoutInjected(content: string, key: string, literal: string)
    requires IsIdentifier(key) && IsNumber(literal)
    requires !Contains(content, Quoted(key)) && InsertionPoint(content).Some?
    ensures Without(Injected(content, key, literal), key, literal) == content
  {
    InjectedHas(content, key, literal);
    RemoveInserted(content, InsertionPoint(content).value, Piece(key, literal));
  }

  lemma RemoveInserted(content: string, pos: nat, piece: string)
    requires pos <= |content|
    ensures var t := Insert(content, pos, piece);
            pos + |piece| <= |t| && t[..pos] + t[pos + |piece|..] == content
  {
    var t := Insert(content, pos, piece);
    assert t[..pos] == content[..pos] && t[pos + |piece|..] == content[pos..];
  }

  lemma {:induction false} WithoutAllInjected(content: string, notes: seq<Note>)
    requires Fresh(content, notes)
    ensures WithoutAll(InjectAll(content, notes), notes) == content
  {
    if notes != [] {
      var n := |notes| - 1;
      LastIsNew(content, notes);
      WithoutInjected(InjectAll(content, notes[..n]), notes[n].key, notes[n].Literal());
      WithoutAllInjected(content, notes[..n]);
    }
  }

  /** The round trip. Whatever distinct identifiers are injected into a text that holds none of them quoted and
      has a place to insert at, the reader finds exactly the integer injected for each; injecting any of them
      again, with any literal, changes nothing; and taking the pieces out gives the original text back. */
  lemma InjectedIsReadBack(content: string, notes: seq<Note>)
    requires Fresh(content, notes)
    ensures var t := InjectAll(content, notes);
            && (forall i :: 0 <= i < |notes| ==> Extracted(t, notes[i].key) == Some(notes[i].value as real))
            && (forall i, literal :: 0 <= i < |notes| ==> Injected(t, notes[i].key, literal) == t)
            && WithoutAll(t, notes) == content
  {
    var t := InjectAll(content, notes);
    WithoutAllInjected(content, notes);
    forall i | 0 <= i < |notes|
      ensures Extracted(t, notes[i].key) == Some(notes[i].value as real)
      ensures Contains(t, Quoted(notes[i].key))
    {
      var x := InjectAllHas(content, notes, i);
      LiteralIsNumber(notes[i].value);
      PieceReadsBack(t, notes[i].key, notes[i].Literal(), x);
      StodToString(notes[i].value);
    }
  }

  // ---- Where the pieces stand ------------------------------------------

  function Pieces(notes: seq<Note>): string {
    if notes == [] then ""
    else Pieces(notes[..|notes| - 1]) + Piece(notes[|notes| - 1].key, notes[|notes| - 1].Literal())
  }

  lemma AnchorMoves(content: string, key: string, literal: string, p: nat)
    requires IsIdentifier(key) && IsNumber(literal) && key != "duration"
    requires Find(content, ANCHOR, 0) == Some(p)
    ensures Find(Insert(content, p, Piece(key, literal)), ANCHOR, 0) == Some(p + |Piece(key, literal)|)
  {
    hide Find;
    var piece := Piece(key, literal);
    assert Quoted("duration") == ANCHOR && IsIdentifier("duration");
    OccursInserted(content, p, piece, ANCHOR, p);
    StaysFirst(content, key, literal, "duration", p);
    FindIs(Insert(content, p, piece), ANCHOR, p + |piece|);
  }

  /** `pieces` stands between `a` and `b`, right before the first anchor. */
  predicate LaidOut(content: string, a: string, pieces: string, b: string) {
    content == a + pieces + b && Find(content, ANCHOR, 0) == Some(|a| + |pieces|)
  }

  /** With an anchor in the text, the pieces stand right before the first one, in the order of injection. */
  lemma {:induction false} AnchoredLayout(content: string, notes: seq<Note>, a: string, b: string)
    requires Fresh(content, notes) && LaidOut(content, a, "", b)
    ensures LaidOut(InjectAll(content, notes), a, Pieces(notes), b)
  {
    hide InsertionPoint;
    if notes != [] {
      var n := |notes| - 1;
      AnchoredLayout(content, notes[..n], a, b);
      LastIsNew(content, notes);
      NotDuration(content, notes[n].key, |a|);
      LayoutStep(a, Pieces(notes[..n]), b, InjectAll(content, notes[..n]), notes[n]);
    }
  }

  lemma LayoutStep(a: string, pieces: string, b: string, content: string, note: Note)
    requires IsIdentifier(note.key) && note.key != "duration" && !Contains(content, Quoted(note.key))
    requires LaidOut(content, a, pieces, b)
    ensures LaidOut(Injected(content, note.key, note.Literal()), a, pieces + Piece(note.key, note.Literal()), b)
  {
    hide OccursAt;
    AnchoredStep(content, note, |a| + |pieces|);
    InsertBehind(a, pieces, b, Piece(note.key, note.Literal()));
  }

  lemma NotDuration(content: string, key: string, a: nat)
    requires Find(content, ANCHOR, 0) == Some(a) && !Contains(content, Quoted(key))
    ensures key != "duration"
  {
    assert Quoted("duration") == ANCHOR;
  }

  lemma AnchoredStep(content: string, note: Note, p: nat)
    requires IsIdentifier(note.key) && note.key != "duration" && !Contains(content, Quoted(note.key))
    requires Find(content, ANCHOR, 0) == Some(p)
    ensures var piece := Piece(note.key, note.Literal());
            && Injected(content, note.key, note.Literal()) == Insert(content, p, piece)
            && Find(Insert(content, p, piece), ANCHOR, 0) == Some(p + |piece|)
  {
    LiteralIsNumber(note.value);
    AnchorMoves(content, note.key, note.Literal(), p);
  }

  lemma InsertBehind(a: string, pieces: string, b: string, piece: string)
    ensures Insert(a + pieces + b, |a| + |pieces|, piece) == a + (pieces + piece) + b
  {
    var t := a + pieces + b;
    assert t[..|a| + |pieces|] == a + pieces && t[|a| + |pieces|..] == b;
  }

  // ---- The texts -------------------------------------------------------

  /** What `isspace` accepts. */
  predicate IsSpace(c: char) {
    c == ' ' || c == '\t' || c == '\n' || c == '\r' || c == '\U{000C}' || c == '\U{000B}'
  }

  lemma AnchorPoint(content: string, p: nat)
    requires Find(content, "\"duration\"", 0) == Some(p)
    ensures InsertionPoint(content) == Some(p)
  {
  }

  /** With an anchor, the key, the literal and a comma stand right before the first one. */
  lemma InjectedBeforeAnchor(before: string, after: string, key: string, literal: string)
    requires key != "" && !Contains(before + "\"duration\"" + after, "\"" + key + "\"")
    requires Find(before + "\"duration\"" + after, "\"duration\"", 0) == Some(|before|)
    ensures Injected(before + "\"duration\"" + after, key, literal)
         == before + "\"" + key + "\": " + literal + ", \"duration\"" + after
  {
    hide Injected, InsertionPoint, Insert, Piece, Find, Contains;
    var content := before + "\"duration\"" + after;
    assert Quoted(key) == "\"" + key + "\"";
    AnchorPoint(content, |before|);
    InjectedIs(content, key, literal);
    InsertText(before, "\"duration\"" + after, key, literal);
    assert before + ("\"duration\"" + after) == content;
  }

  lemma InsertText(front: string, rest: string, key: string, literal: string)
    ensures Insert(front + rest, |front|, Piece(key, literal)) == front + "\"" + key + "\": " + literal + ", " + rest
  {
    assert (front + rest)[..|front|] == front && (front + rest)[|front|..] == rest;
  }

  /** Without one, they stand behind the first '[', or without that behind the first '{', and the blanks behind it. */
  lemma InjectedBehindBracket(before: string, bracket: char, blanks: string, after: string,
                              key: string, literal: string)
    requires bracket == '[' || (bracket == '{' && '[' !in before + "{" + blanks + after)
    requires bracket !in before && (forall i :: 0 <= i < |blanks| ==> IsSpace(blanks[i]))
    requires after == "" || !IsSpace(after[0])
    requires var content := before + [bracket] + blanks + after;
             key != "" && !Contains(content, "\"" + key + "\"") && !Contains(content, "\"duration\"")
    ensures Injected(before + [bracket] + blanks + after, key, literal)
         == before + [bracket] + blanks + "\"" + key + "\": " + literal + ", " + after
  {
    hide SkipBlanks, Find, FirstIn, Insert, Piece;
    var front := before + [bracket] + blanks;
    var content := front + after;
    assert Quoted(key) == "\"" + key + "\"";
    BracketIs(before, bracket, blanks, after);
    BlanksEnd(before, bracket, blanks, after);
    InjectedIs(content, key, literal);
    InsertText(front, after, key, literal);
  }

  lemma BlankIs(c: char)
    ensures c in ALL_BLANKS <==> IsSpace(c)
  {
  }

  lemma BracketIs(before: string, bracket: char, blanks: string, after: string)
    requires bracket == '[' || (bracket == '{' && '[' !in before + "{" + blanks + after)
    requires bracket !in before
    ensures Bracket(before + [bracket] + blanks + after) == Some(|before|)
  {
    var content := before + [bracket] + blanks + after;
    FirstInIs(content, {bracket}, 0, |before|);
    if bracket == '{' {
      NotInBefore(content, {'['}, 0);
    }
  }

  lemma BlanksEnd(before: string, bracket: char, blanks: string, after: string)
    requires forall i :: 0 <= i < |blanks| ==> IsSpace(blanks[i])
    requires after == "" || !IsSpace(after[0])
    ensures SkipBlanks(before + [bracket] + blanks + after, |before| + 1) == |before + [bracket] + blanks|
  {
    hide ALL_BLANKS;
    var content, start := before + [bracket] + blanks + after, |before| + 1;
    forall i | start <= i < start + |blanks| ensures content[i] in ALL_BLANKS {
      assert content[i] == blanks[i - start];
      BlankIs(content[i]);
    }
    if after != "" {
      assert content[start + |blanks|] == after[0];
      BlankIs(after[0]);
    }
    SkipBlanksIs(content, start, start + |blanks|);
  }
}
