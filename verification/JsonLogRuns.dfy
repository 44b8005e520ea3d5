/** What `append_json_array_file` promises: the file stays one JSON array holding every element saved. */
module JsonLogRuns {
  import opened Wrappers
  import opened Strings
  import opened Decimal
  import opened Json
  import opened JsonReader
  import opened JsonLog

  // ---- Entries with other blanks around them ---------------------------

  function WithFirst(entries: seq<Entry>, before: string): seq<Entry>
    requires entries != []
  {
    [entries[0].(before := before)] + entries[1..]
  }

  function WithLast(entries: seq<Entry>, after: string): seq<Entry>
    requires entries != []
  {
    entries[..|entries| - 1] + [entries[|entries| - 1].(after := after)]
  }

  /** The entries of a save, re-spaced as they are written into the file. */
  function Respaced(entries: seq<Entry>, before: string, after: string): seq<Entry>
    requires entries != []
  {
    WithLast(WithFirst(entries, before), after)
  }

  lemma {:induction false} TextsAt(entries: seq<Entry>, i: nat)
    requires i < |entries|
    ensures Texts(entries)[i] == Print(entries[i].value)
  {
    if i > 0 {
      TextsAt(entries[1..], i - 1);
    }
  }

  lemma SameValuesSameTexts(a: seq<Entry>, b: seq<Entry>)
    requires |a| == |b| && forall i :: 0 <= i < |a| ==> a[i].value == b[i].value
    ensures Texts(a) == Texts(b)
  {
    forall i | 0 <= i < |a| ensures Texts(a)[i] == Texts(b)[i] {
      TextsAt(a, i);
      TextsAt(b, i);
    }
  }

  lemma TextsConcat(a: seq<Entry>, b: seq<Entry>)
    ensures Texts(a + b) == Texts(a) + Texts(b)
  {
    forall i | 0 <= i < |a + b| ensures Texts(a + b)[i] == (Texts(a) + Texts(b))[i] {
      TextsAt(a + b, i);
      if i < |a| { TextsAt(a, i); } else { TextsAt(b, i - |a|); }
    }
  }

  lemma RespacedGood(entries: seq<Entry>, before: string, after: string)
    requires entries != [] && GoodEntries(entries, false)
    requires Blank(before, JSON_BLANKS) && Blank(after, JSON_BLANKS)
    ensures GoodEntries(Respaced(entries, before, after), false)
    ensures Texts(Respaced(entries, before, after)) == Texts(entries)
  {
    var r := Respaced(entries, before, after);
    forall i | 0 <= i < |r| ensures GoodEntry(r[i], false) {
      assert GoodEntry(entries[i], false);
    }
    SameValuesSameTexts(r, entries);
  }

  lemma {:induction false} BodyConcat(a: seq<Entry>, b: seq<Entry>, pad: string, pad': string)
    requires a != [] && b != []
    ensures PrintBody(a + b, pad') == PrintBody(a, pad) + "," + PrintBody(b, pad)
  {
    assert (a + b)[1..] == a[1..] + b;
    if |a| == 1 {
      assert (a + b)[1..] == b;
      PadUnused(b, pad, pad');
    } else {
      BodyConcat(a[1..], b, pad, pad');
    }
  }

  lemma FirstBefore(entries: seq<Entry>, before: string, pad: string)
    requires entries != [] && entries[0].name.NoName?
    ensures PrintBody(WithFirst(entries, before), pad) == before + PrintBody(WithFirst(entries, ""), pad)
  {
    var e := entries[0];
    assert PrintEntry(e.(before := before)) == before + PrintEntry(e.(before := ""));
    var x, y := WithFirst(entries, before), WithFirst(entries, "");
    assert x[1..] == y[1..] == entries[1..];
  }

  /** Everything up to the last value; it does not end like an array that has just been opened. */
  lemma {:induction false} LastAfter(entries: seq<Entry>, after: string, pad: string) returns (upTo: string)
    requires entries != [] && GoodEntries(entries, false)
    ensures PrintBody(entries, pad) == upTo + entries[|entries| - 1].after
    ensures PrintBody(WithLast(entries, after), pad) == upTo + after
    ensures upTo != "" && upTo[|upTo| - 1] !in JSON_BLANKS && upTo[|upTo| - 1] != '['
  {
    hide PrintBody, PrintEntry, Print, Good, WithLast;
    var e, w := entries[0], WithLast(entries, after);
    if |entries| == 1 {
      upTo := LastOfOne(entries, after, pad);
    } else {
      var rest := LastAfter(entries[1..], after, pad);
      var head := PrintEntry(e) + ",";
      upTo := head + rest;
      LastText(head, rest, after);
      LastText(head, rest, entries[|entries| - 1].after);
      LastBehindFirst(entries, after);
      BodyStep(entries, pad);
      BodyStep(w, pad);
    }
  }

  lemma LastOfOne(entries: seq<Entry>, after: string, pad: string) returns (upTo: string)
    requires |entries| == 1 && GoodEntries(entries, false)
    ensures PrintBody(entries, pad) == upTo + entries[0].after
    ensures PrintBody(WithLast(entries, after), pad) == upTo + after
    ensures upTo != "" && upTo[|upTo| - 1] !in JSON_BLANKS && upTo[|upTo| - 1] != '['
  {
    var e := entries[0];
    assert GoodEntry(e, false);
    upTo := PrintName(e.name) + e.before + Print(e.value);
    ValueEnds(e.value);
    assert WithLast(entries, after) == [e.(after := after)];
  }

  lemma LastText(head: string, rest: string, after: string)
    requires rest != ""
    ensures head + (rest + after) == (head + rest) + after
    ensures (head + rest)[|head + rest| - 1] == rest[|rest| - 1]
  {
  }

  lemma LastBehindFirst(entries: seq<Entry>, after: string)
    requires |entries| > 1
    ensures |WithLast(entries, after)| == |entries|
    ensures WithLast(entries, after)[1..] == WithLast(entries[1..], after) && WithLast(entries, after)[0] == entries[0]
  {
  }

  lemma BodyStep(entries: seq<Entry>, pad: string)
    requires |entries| > 1
    ensures PrintBody(entries, pad) == PrintEntry(entries[0]) + "," + PrintBody(entries[1..], pad)
  {
  }

  lemma BodyStarts(entries: seq<Entry>, pad: string)
    requires entries != [] && GoodEntries(entries, false) && entries[0].before == ""
    ensures PrintBody(entries, pad) != "" && PrintBody(entries, pad)[0] !in JSON_BLANKS
  {
    var e := entries[0];
    assert GoodEntry(e, false);
    ValueEnds(e.value);
    assert PrintName(e.name) + e.before + Print(e.value) == Print(e.value);
    assert PrintEntry(e)[0] == Print(e.value)[0];
  }

  /** The inside of a non-empty array is a tight core between the blanks of its first and last entries. */
  lemma Core(entries: seq<Entry>, after: string, pad: string) returns (core: string)
    requires entries != [] && GoodEntries(entries, false)
    ensures PrintBody(entries, pad) == entries[0].before + core + entries[|entries| - 1].after
    ensures core != "" && Tight(core, JSON_BLANKS)
    ensures PrintBody(WithLast(WithFirst(entries, ""), after), pad) == core + after
  {
    hide PrintBody;
    var tight := WithFirst(entries, "");
    assert GoodEntry(entries[0], false);
    assert GoodEntries(tight, false) by {
      forall i | 0 <= i < |tight| ensures GoodEntry(tight[i], false) { assert GoodEntry(entries[i], false); }
    }
    core := LastAfter(tight, after, pad);
    BodyStarts(tight, pad);
    assert core[0] == PrintBody(tight, pad)[0];
    FirstBefore(entries, entries[0].before, pad);
    assert WithFirst(entries, entries[0].before) == entries;
  }

  lemma RespacedFirst(entries: seq<Entry>, before: string, after: string)
    requires entries != []
    ensures WithFirst(Respaced(entries, before, after), before) == Respaced(entries, before, after)
    ensures WithFirst(Respaced(entries, before, after), "") == WithLast(WithFirst(entries, ""), after)
  {
    var r := Respaced(entries, before, after);
    if |entries| == 1 {
      assert r == [entries[0].(before := before, after := after)];
    } else {
      assert r[0] == entries[0].(before := before);
      assert WithLast(WithFirst(entries, ""), after)[1..] == r[1..];
    }
  }

  /** Printing re-spaced entries prints the trimmed text between the new blanks. */
  lemma RespacedPrints(entries: seq<Entry>, before: string, after: string, pad: string)
    requires entries != [] && GoodEntries(entries, false)
    ensures PrintBody(Respaced(entries, before, after), pad)
         == before + Trim(PrintBody(entries, pad), JSON_BLANKS) + after
    ensures Trim(PrintBody(entries, pad), JSON_BLANKS) != ""
  {
    hide PrintBody, Trim, Print, Texts;
    var core := Core(entries, after, pad);
    assert GoodEntry(entries[0], false) && GoodEntry(entries[|entries| - 1], false);
    TrimPadded(entries[0].before, core, entries[|entries| - 1].after, JSON_BLANKS);
    var r := Respaced(entries, before, after);
    RespacedFirst(entries, before, after);
    FirstBefore(r, before, pad);
  }

  // ---- One save --------------------------------------------------------

  /** The 256-byte window shows the closing bracket, and for an empty array the opening one as well. */
  predicate WindowReaches(entries: seq<Entry>, pad: string, after: string) {
    |after| < WINDOW && (entries == [] ==> |pad| + |after| + 2 <= WINDOW)
  }

  lemma LastOfStretch(upTo: string, blanks: string, rest: string)
    requires upTo != "" && upTo[|upTo| - 1] !in JSON_BLANKS && Blank(blanks, JSON_BLANKS)
    ensures LastNotIn(upTo + blanks + rest, JSON_BLANKS, |upTo| + |blanks|) == Some(|upTo| - 1)
  {
    var s := upTo + blanks + rest;
    assert s[|upTo| - 1] == upTo[|upTo| - 1];
    assert forall i :: |upTo| <= i < |upTo| + |blanks| ==> s[i] == blanks[i - |upTo|];
    LastNotInIs(s, JSON_BLANKS, |upTo| + |blanks|, |upTo| - 1);
  }

  lemma CloseSeen(head: string, after: string)
    requires Blank(after, JSON_BLANKS)
    ensures CloseOf(head + "]" + after) == (if |after| < WINDOW then Some(|head|) else None)
    ensures (head + "]" + after)[..|head|] == head
  {
    var text := head + "]" + after;
    LastOfStretch(head + "]", after, "");
    assert text == head + "]" + after + "";
    assert text[|head|] == ']';
  }

  lemma EmptyOpeningSeen(before: string, pad: string, after: string)
    requires Blank(pad, JSON_BLANKS)
    ensures var head := before + "[" + pad;
            OpensBefore(head + "]" + after, |head|) <==> |pad| + |after| + 2 <= WINDOW
  {
    LastOfStretch(before + "[", pad, "]" + after);
    assert before + "[" + pad + "]" + after == before + "[" + pad + ("]" + after);
  }

  lemma FullOpeningHidden(start: string, blanks: string, after: string)
    requires start != "" && start[|start| - 1] !in JSON_BLANKS && start[|start| - 1] != '['
    requires Blank(blanks, JSON_BLANKS)
    ensures !OpensBefore(start + blanks + "]" + after, |start + blanks|)
  {
    LastOfStretch(start, blanks, "]" + after);
    assert start + blanks + "]" + after == start + blanks + ("]" + after);
  }

  lemma OpeningSeen(text: string, before: string, entries: seq<Entry>, pad: string, after: string)
    requires IsArrayTextWith(text, before, entries, pad, after)
    ensures var close := |before + "[" + PrintBody(entries, pad)|;
            close <= |text| && (OpensBefore(text, close) <==> entries == [] && |pad| + |after| + 2 <= WINDOW)
  {
    ArrayText(text, before, entries, pad, after);
    if entries == [] {
      EmptyOpeningSeen(before, pad, after);
    } else {
      var start, blanks := BodyEnds(before, entries, pad);
      FullOpeningHidden(start, blanks, after);
    }
  }

  /** The text up to the end of the last value, and the blanks behind it. */
  lemma BodyEnds(before: string, entries: seq<Entry>, pad: string) returns (start: string, blanks: string)
    requires Good(Array(entries, pad)) && entries != []
    ensures before + "[" + PrintBody(entries, pad) == start + blanks && Blank(blanks, JSON_BLANKS)
    ensures start != "" && start[|start| - 1] !in JSON_BLANKS && start[|start| - 1] != '['
  {
    var upTo := LastAfter(entries, "", pad);
    assert GoodEntry(entries[|entries| - 1], false);
    start, blanks := before + "[" + upTo, entries[|entries| - 1].after;
    assert start[|start| - 1] == upTo[|upTo| - 1];
    assert before + "[" + (upTo + blanks) == start + blanks;
  }

  lemma InnerOf(save: string, added: seq<Entry>, before: string, after: string)
    requires IsArrayText(save, added)
    ensures Inner(save).Some?
    ensures Inner(save).value == "" <==> added == []
    ensures added != [] ==> PrintBody(Respaced(added, before, after), "") == before + Inner(save).value + after
  {
    var pre, pad, post :| IsArrayTextWith(save, pre, added, pad, post);
    assert save == pre + "[" + PrintBody(added, pad) + "]" + post;
    BodyOf(pre, PrintBody(added, pad), post);
    if added != [] {
      RespacedPrints(added, before, after, pad);
      PadUnused(Respaced(added, before, after), pad, "");
    }
  }

  /** The entries of the file after a save: those it had, then those added, re-spaced. */
  function Merged(entries: seq<Entry>, pad: string, added: seq<Entry>): seq<Entry>
    requires added != []
  {
    entries + Respaced(added, if entries == [] then pad else "\n", "\n")
  }

  /** What a save writes, as a printed array. */
  lemma Regroup(before: string, body: string, inner: string)
    ensures before + "[\n" + inner + "\n]\n" == before + ("[" + ("\n" + inner + "\n") + "]") + "\n"
    ensures before + "[" + body + "" + inner + "\n]\n" == before + ("[" + ("" + (body + inner + "\n")) + "]") + "\n"
    ensures before + "[" + body + ",\n" + inner + "\n]\n"
         == before + ("[" + (body + "," + ("\n" + inner + "\n")) + "]") + "\n"
  {
  }

  /** A save into a well-formed array whose end the window shows gives a well-formed array again. */
  lemma SaveMerges(text: string, before: string, entries: seq<Entry>, pad: string, after: string,
                   save: string, added: seq<Entry>)
    requires IsArrayTextWith(text, before, entries, pad, after) && WindowReaches(entries, pad, after)
    requires IsArrayText(save, added) && added != []
    ensures var r := Saved(Some(text), save, WORKING);
            && r.Some?
            && IsArrayTextWith(r.value, before, Merged(entries, pad, added), "", "\n")
    ensures Texts(Merged(entries, pad, added)) == Texts(entries) + Texts(added)
  {
    MergedGood(text, before, entries, pad, after, save, added);
    InnerOf(save, added, "", "");
    SaveWrites(text, before, entries, pad, after, save);
    MergedPrints(entries, pad, save, added);
    Regroup(before, PrintBody(entries, pad), Inner(save).value);
    var merged := Merged(entries, pad, added);
    assert Print(Array(merged, "")) == "[" + PrintBody(merged, "") + "]";
  }

  lemma MergedGood(text: string, before: string, entries: seq<Entry>, pad: string, after: string,
                   save: string, added: seq<Entry>)
    requires IsArrayTextWith(text, before, entries, pad, after)
    requires IsArrayText(save, added) && added != []
    ensures Good(Array(Merged(entries, pad, added), ""))
    ensures Texts(Merged(entries, pad, added)) == Texts(entries) + Texts(added)
  {
    var gap := if entries == [] then pad else "\n";
    AddedGood(save, added, gap);
    TextsConcat(entries, Respaced(added, gap, "\n"));
    assert GoodEntries(entries, false) by { assert Good(Array(entries, pad)); }
    GoodConcat(entries, Respaced(added, gap, "\n"));
  }

  lemma MergedPrints(entries: seq<Entry>, pad: string, save: string, added: seq<Entry>)
    requires IsArrayText(save, added) && added != []
    ensures var gap := if entries == [] then pad else "\n";
            && Inner(save).Some?
            && PrintBody(Merged(entries, pad, added), "")
            == (if entries == [] then "" else PrintBody(entries, pad) + ",") + (gap + Inner(save).value + "\n")
  {
    var gap := if entries == [] then pad else "\n";
    var more := Respaced(added, gap, "\n");
    InnerOf(save, added, gap, "\n");
    if entries == [] {
      assert entries + more == more;
      assert "" + PrintBody(more, "") == PrintBody(more, "");
    } else {
      BodyConcat(entries, more, pad, "");
      PadUnused(more, pad, "");
    }
  }

  lemma GoodConcat(a: seq<Entry>, b: seq<Entry>)
    requires GoodEntries(a, false) && GoodEntries(b, false)
    ensures GoodEntries(a + b, false)
  {
  }

  lemma ArrayText(text: string, before: string, entries: seq<Entry>, pad: string, after: string)
    requires IsArrayTextWith(text, before, entries, pad, after)
    ensures text == before + "[" + PrintBody(entries, pad) + "]" + after
    ensures Blank(before, JSON_BLANKS) && Blank(after, JSON_BLANKS)
  {
  }

  lemma SaveWrites(text: string, before: string, entries: seq<Entry>, pad: string, after: string, save: string)
    requires IsArrayTextWith(text, before, entries, pad, after) && |after| < WINDOW
    requires Inner(save).Some? && Inner(save).value != ""
    ensures var separator := if entries == [] && |pad| + |after| + 2 <= WINDOW then "" else ",\n";
            && Saved(Some(text), save, WORKING)
            == Some(before + "[" + PrintBody(entries, pad) + separator + Inner(save).value + "\n]\n")
  {
    hide *;
    var head := before + "[" + PrintBody(entries, pad);
    ArrayText(text, before, entries, pad, after);
    CloseSeen(head, after);
    OpeningSeen(text, before, entries, pad, after);
    SavedInto(text, save, |head|);
  }

  lemma SavedInto(text: string, save: string, close: nat)
    requires Inner(save).Some? && Inner(save).value != "" && CloseOf(text) == Some(close)
    ensures Saved(Some(text), save, WORKING)
         == Some(text[..close] + (if OpensBefore(text, close) then "" else ",\n") + Inner(save).value + "\n]\n")
  {
  }

  lemma SavedNew(content: Option<string>, save: string)
    requires Inner(save).Some? && Inner(save).value != "" && Blank(TextOf(content), JSON_BLANKS)
    ensures Saved(content, save, WORKING) == Some(TextOf(content) + "[\n" + Inner(save).value + "\n]\n")
  {
    var inner := Inner(save).value;
    assert TextOf(content) + ("[\n" + inner + "\n]\n") == TextOf(content) + "[\n" + inner + "\n]\n";
    assert LastNotIn(TextOf(content), JSON_BLANKS, |TextOf(content)|) == None;
  }

  lemma AddedGood(save: string, added: seq<Entry>, gap: string)
    requires IsArrayText(save, added) && added != [] && Blank(gap, JSON_BLANKS)
    ensures GoodEntries(Respaced(added, gap, "\n"), false)
    ensures Texts(Respaced(added, gap, "\n")) == Texts(added)
  {
    var pre, pad, post :| IsArrayTextWith(save, pre, added, pad, post);
    RespacedGood(added, gap, "\n");
  }

  /** The first save into a missing or blank file. */
  lemma SaveCreates(content: Option<string>, save: string, added: seq<Entry>)
    requires Blank(TextOf(content), JSON_BLANKS)
    requires IsArrayText(save, added) && added != []
    ensures var r := Saved(content, save, WORKING);
            && r.Some?
            && IsArrayTextWith(r.value, TextOf(content), Respaced(added, "\n", "\n"), "", "\n")
            && Texts(Respaced(added, "\n", "\n")) == Texts(added)
  {
    AddedGood(save, added, "\n");
    InnerOf(save, added, "\n", "\n");
    SavedNew(content, save);
    Regroup(TextOf(content), "", Inner(save).value);
  }

  // ---- Exactly when one save is read back ------------------------------

  lemma {:induction false} CutCount(a: string, b: string, st: State)
    ensures |Cut(a + b, st)| == |Cut(a, st)| + |Cut(b, Scan(a, st))| - 1
  {
    if a == "" {
      assert a + b == b;
    } else {
      assert (a + b)[1..] == a[1..] + b;
      CutCount(a[1..], b, Next(st, a[0]));
    }
  }

  lemma BodyCounts(entries: seq<Entry>, pad: string)
    requires Good(Array(entries, pad))
    ensures Scan(PrintBody(entries, pad), TOP) == TOP
    ensures |Cut(PrintBody(entries, pad), TOP)| == if entries == [] then 1 else |entries|
  {
    if entries == [] {
      BlankPasses(pad, 0);
      PassesScans(pad, TOP, TOP);
      CutWhole(pad, TOP, TOP);
    } else {
      BodyReadsBack(entries, pad);
    }
  }

  lemma TrimLonger(m: string, s: string, i: nat)
    requires i < |m| && m[i] !in JSON_BLANKS
    requires !Blank(s, JSON_BLANKS)
    ensures |Trim(m + s, JSON_BLANKS)| > |Trim(s, JSON_BLANKS)|
  {
    var t := m + s;
    InBefore(s, JSON_BLANKS, 0);
    InBehind(s, JSON_BLANKS, |s|);
    InBefore(t, JSON_BLANKS, 0);
    InBehind(t, JSON_BLANKS, |t|);
    var first, last := FirstNotIn(s, JSON_BLANKS, 0).value, LastNotIn(s, JSON_BLANKS, |s|).value;
    assert t[i] == m[i] && t[|m| + last] == s[last];
    var first', last' := FirstNotIn(t, JSON_BLANKS, 0).value, LastNotIn(t, JSON_BLANKS, |t|).value;
    assert first' <= i && last' >= |m| + last;
  }

  /** Past the closing bracket: scanning from it over `after` and the new '[' is back at the top. */
  lemma StrayPasses(after: string)
    requires Blank(after, JSON_BLANKS)
    ensures Passes("]" + after + "[", TOP, TOP)
  {
    BlankPasses(after, -1);
    PassesConcat("]", after, TOP, State(-1, Code), State(-1, Code));
    PassesConcat("]" + after, "[", TOP, State(-1, Code), TOP);
  }

  lemma GluedPasses(pad: string, after: string)
    requires Blank(pad, JSON_BLANKS) && Blank(after, JSON_BLANKS)
    ensures Passes(pad + ("]" + after + "["), TOP, TOP)
  {
    BlankPasses(pad, 0);
    StrayPasses(after);
    PassesConcat(pad, "]" + after + "[", TOP, TOP, TOP);
  }

  /** Behind a non-empty array, a second one loses a comma: one element too few is read. */
  lemma SecondArrayMerges(left: string, after: string, right: string)
    requires Scan(left, TOP) == TOP && Blank(after, JSON_BLANKS)
    ensures |Cut(left + ("]" + after + "[" + right), TOP)| == |Cut(left, TOP)| + |Cut(right, TOP)| - 1
  {
    StrayPasses(after);
    CutAfter("]" + after + "[", right, TOP, TOP);
    CutCount(left, "]" + after + "[" + right, TOP);
  }

  /** Behind an empty array, the brackets between the two stick to the first element. */
  lemma SecondArraySticks(pad: string, after: string, right: string)
    requires Blank(pad, JSON_BLANKS) && Blank(after, JSON_BLANKS)
    requires TrimAll(Cut(right, TOP))[0] != ""
    ensures TrimAll(Cut(pad + ("]" + after + "[" + right), TOP)) != TrimAll(Cut(right, TOP))
  {
    hide *;
    var glued := pad + ("]" + after + "[");
    GluedPasses(pad, after);
    CutAfter(glued, right, TOP, TOP);
    GluedText(pad, after, right);
    FirstTrimmed(Cut(right, TOP));
    FirstTrimmed(Cut(glued + right, TOP));
    TrimLonger(glued, Cut(right, TOP)[0], |pad|);
  }

  lemma GluedText(pad: string, after: string, right: string)
    ensures var glued := pad + ("]" + after + "[");
            pad + ("]" + after + "[" + right) == glued + right && |pad| < |glued| && glued[|pad|] !in JSON_BLANKS
  {
  }

  lemma FirstTrimmed(pieces: seq<string>)
    requires pieces != []
    ensures TrimAll(pieces)[0] == Trim(pieces[0], JSON_BLANKS)
    ensures TrimAll(pieces)[0] == "" <==> Blank(pieces[0], JSON_BLANKS)
  {
  }

  lemma FirstTextNonempty(entries: seq<Entry>)
    requires entries != [] && GoodEntries(entries, false)
    ensures Texts(entries)[0] != ""
  {
    TextsAt(entries, 0);
    assert GoodEntry(entries[0], false);
    ValueEnds(entries[0].value);
  }

  /** A second array behind the first does not read back as the two joined. */
  lemma SecondArrayMisread(entries: seq<Entry>, pad: string, after: string, added: seq<Entry>)
    requires Good(Array(entries, pad)) && GoodEntries(added, false) && added != [] && Blank(after, JSON_BLANKS)
    ensures TrimAll(Cut(PrintBody(entries, pad) + ("]" + after + "[" + PrintBody(added, "")), TOP))
         != Texts(entries) + Texts(added)
  {
    var left, right := PrintBody(entries, pad), PrintBody(added, "");
    BodyReadsBack(added, "");
    if entries == [] {
      FirstTextNonempty(added);
      SecondArraySticks(pad, after, right);
      assert Texts(entries) + Texts(added) == TrimAll(Cut(right, TOP));
    } else {
      BodyCounts(entries, pad);
      SecondArrayMerges(left, after, right);
      var all := TrimAll(Cut(left + ("]" + after + "[" + right), TOP));
      assert |all| == |entries| + |added| - 1;
    }
  }

  lemma SavedBehind(text: string, save: string)
    requires Inner(save).Some? && Inner(save).value != "" && CloseOf(text).None?
    ensures Saved(Some(text), save, WORKING) == Some(text + ("[\n" + Inner(save).value + "\n]\n"))
  {
    assert text + ("[\n" + Inner(save).value + "\n]\n") == text + "[\n" + Inner(save).value + "\n]\n";
  }

  lemma ElementsOfBody(before: string, body: string, after: string)
    requires Blank(before, JSON_BLANKS) && Blank(after, JSON_BLANKS)
    ensures Elements(before + "[" + body + "]" + after)
         == Some(if Blank(body, JSON_BLANKS) then [] else TrimAll(Cut(body, TOP)))
  {
    BodyOf(before, body, after);
  }

  lemma BracketUnseen(text: string, before: string, entries: seq<Entry>, pad: string, after: string)
    requires IsArrayTextWith(text, before, entries, pad, after) && |after| >= WINDOW
    ensures CloseOf(text) == None
  {
    hide *;
    ArrayText(text, before, entries, pad, after);
    CloseSeen(before + "[" + PrintBody(entries, pad), after);
  }

  /** What is written when the bracket lies beyond the window: a second array behind the first. */
  lemma BehindText(text: string, before: string, entries: seq<Entry>, pad: string, after: string,
                   save: string, more: seq<Entry>)
    requires IsArrayTextWith(text, before, entries, pad, after) && |after| >= WINDOW
    requires Inner(save).Some? && Inner(save).value != ""
    requires PrintBody(more, "") == "\n" + Inner(save).value + "\n"
    ensures Saved(Some(text), save, WORKING)
         == Some(before + "[" + (PrintBody(entries, pad) + ("]" + after + "[" + PrintBody(more, ""))) + "]" + "\n")
  {
    hide *;
    BracketUnseen(text, before, entries, pad, after);
    ArrayText(text, before, entries, pad, after);
    SavedBehind(text, save);
    RegroupBehind(before, PrintBody(entries, pad), after, Inner(save).value);
  }

  lemma ArrayIsJson(text: string, entries: seq<Entry>)
    requires IsArrayText(text, entries)
    ensures IsJson(text)
  {
    var before, pad, after :| IsArrayTextWith(text, before, entries, pad, after);
    assert IsJsonWith(text, before, Array(entries, pad), after);
  }

  /** A JSON text is none any more with another array behind it. */
  lemma SecondValueBreaks(text: string, rest: string)
    requires IsJson(text)
    ensures Read(text + "[", START).Fail?
    ensures !IsJson(text + ("[" + rest))
  {
    JsonReads(text);
    ReadConcat(text, "[", START);
    ReadOne('[', Read(text, START));
    assert text + ("[" + rest) == (text + "[") + rest;
    NotJson(text + ("[" + rest), text + "[", rest);
  }

  lemma BehindBreaks(text: string, entries: seq<Entry>, save: string)
    requires IsArrayText(text, entries) && Inner(save).Some? && Inner(save).value != "" && CloseOf(text).None?
    ensures var r := Saved(Some(text), save, WORKING);
            r.Some? && !IsJson(r.value)
  {
    hide *;
    ArrayIsJson(text, entries);
    SavedBehind(text, save);
    var rest := "\n" + Inner(save).value + "\n]\n";
    assert "[\n" + Inner(save).value + "\n]\n" == "[" + rest;
    SecondValueBreaks(text, rest);
  }

  /** With 256 blanks or more behind it the bracket is missed: a second array behind the first is no JSON. */
  lemma UnseenBracketMisread(text: string, before: string, entries: seq<Entry>, pad: string, after: string,
                             save: string, added: seq<Entry>)
    requires IsArrayTextWith(text, before, entries, pad, after) && |after| >= WINDOW
    requires IsArrayText(save, added) && added != []
    ensures var r := Saved(Some(text), save, WORKING);
            r.Some? && !IsJson(r.value) && Elements(r.value) != Some(Texts(entries) + Texts(added))
  {
    var more := Respaced(added, "\n", "\n");
    AddedGood(save, added, "\n");
    InnerOf(save, added, "\n", "\n");
    BehindText(text, before, entries, pad, after, save, more);
    MisreadBehind(before, entries, pad, after, more);
    BracketUnseen(text, before, entries, pad, after);
    BehindBreaks(text, entries, save);
  }

  lemma MisreadBehind(before: string, entries: seq<Entry>, pad: string, after: string, more: seq<Entry>)
    requires Good(Array(entries, pad)) && GoodEntries(more, false) && more != []
    requires Blank(before, JSON_BLANKS) && Blank(after, JSON_BLANKS)
    ensures Elements(before + "[" + (PrintBody(entries, pad) + ("]" + after + "[" + PrintBody(more, ""))) + "]" + "\n")
         != Some(Texts(entries) + Texts(more))
  {
    var body := PrintBody(entries, pad) + ("]" + after + "[" + PrintBody(more, ""));
    SecondArrayMisread(entries, pad, after, more);
    ElementsOfBody(before, body, "\n");
    assert |Texts(more)| > 0;
  }

  lemma RegroupBehind(before: string, left: string, after: string, inner: string)
    ensures before + "[" + left + "]" + after + ("[\n" + inner + "\n]\n")
         == before + "[" + (left + ("]" + after + "[" + ("\n" + inner + "\n"))) + "]" + "\n"
  {
  }

  lemma EmptyBody(pad: string)
    ensures PrintBody([], pad) == pad
  {
  }

  lemma CommaText(before: string, pad: string, inner: string)
    ensures before + "[" + pad + ",\n" + inner + "\n]\n"
         == before + ("[" + (pad + "," + ("\n" + inner + "\n")) + "]") + "\n"
    ensures before + "[" + pad + ",\n" + inner + "\n]\n" == before + "[" + pad + "," + ("\n" + inner + "\n]\n")
  {
  }

  /** What is written when the '[' of an empty array lies beyond the window. */
  lemma OpeningUnseen(text: string, before: string, pad: string, after: string, save: string)
    requires IsArrayTextWith(text, before, [], pad, after) && |after| < WINDOW < |pad| + |after| + 2
    requires Inner(save).Some? && Inner(save).value != ""
    ensures Saved(Some(text), save, WORKING) == Some(before + "[" + pad + ",\n" + Inner(save).value + "\n]\n")
  {
    hide *;
    SaveWrites(text, before, [], pad, after, save);
    EmptyBody(pad);
  }

  /** A comma is written there where no element stands before it. */
  lemma UnseenOpeningMisread(text: string, before: string, pad: string, after: string, save: string, added: seq<Entry>)
    requires IsArrayTextWith(text, before, [], pad, after) && |after| < WINDOW < |pad| + |after| + 2
    requires IsArrayText(save, added) && added != []
    ensures var r := Saved(Some(text), save, WORKING);
            r.Some? && !IsJson(r.value) && Elements(r.value) != Some(Texts(added))
  {
    hide *;
    ArrayBlanks(text, before, pad, after);
    NewlineBlank();
    AddedGood(save, added, "\n");
    InnerOf(save, added, "\n", "\n");
    OpeningUnseen(text, before, pad, after, save);
    CommaText(before, pad, Inner(save).value);
    RespacedSome(added, "\n", "\n");
    MisreadComma(before, pad, Respaced(added, "\n", "\n"));
    CommaBreaks(before, pad, "\n" + Inner(save).value + "\n]\n");
  }

  lemma NewlineBlank()
    ensures Blank("\n", JSON_BLANKS)
  {
  }

  lemma ArrayBlanks(text: string, before: string, pad: string, after: string)
    requires IsArrayTextWith(text, before, [], pad, after)
    ensures Blank(before, JSON_BLANKS) && Blank(pad, JSON_BLANKS)
  {
  }

  lemma RespacedSome(entries: seq<Entry>, before: string, after: string)
    requires entries != []
    ensures |Respaced(entries, before, after)| == |entries|
  {
  }

  /** Right behind the bracket that opens an array there is no comma. */
  lemma CommaBreaks(before: string, pad: string, rest: string)
    requires Blank(before, JSON_BLANKS) && Blank(pad, JSON_BLANKS)
    ensures !IsJson(before + "[" + pad + "," + rest)
  {
    hide Read;
    BlankReady(before, START, []);
    ReadConcat(before, "[", START);
    ReadOne('[', Read(before, START));
    ReadConcat(before + "[", pad, START);
    BlankFresh(pad, Read(before + "[", START));
    ReadConcat(before + "[" + pad, ",", START);
    ReadOne(',', Read(before + "[" + pad, START));
    NotJson(before + "[" + pad + "," + rest, before + "[" + pad + ",", rest);
  }

  lemma MisreadComma(before: string, pad: string, more: seq<Entry>)
    requires Blank(before, JSON_BLANKS) && Blank(pad, JSON_BLANKS) && GoodEntries(more, false) && more != []
    ensures Elements(before + ("[" + (pad + "," + PrintBody(more, "")) + "]") + "\n") != Some(Texts(more))
  {
    var right := PrintBody(more, "");
    assert before + ("[" + (pad + "," + right) + "]") + "\n" == before + "[" + (pad + "," + right) + "]" + "\n";
    ElementsOfBody(before, pad + "," + right, "\n");
    BodyReadsBack(more, "");
    BlankPasses(pad, 0);
    PassesScans(pad, TOP, TOP);
    CutWhole(pad, TOP, TOP);
    CutJoin(pad, right, TOP);
    assert |Texts(more)| > 0;
  }

  lemma SaveReadsBack(text: string, before: string, entries: seq<Entry>, pad: string, after: string,
                      save: string, added: seq<Entry>)
    requires IsArrayTextWith(text, before, entries, pad, after) && WindowReaches(entries, pad, after)
    requires IsArrayText(save, added) && added != []
    ensures var r := Saved(Some(text), save, WORKING);
            r.Some? && IsJson(r.value) && Elements(r.value) == Some(Texts(entries) + Texts(added))
  {
    SaveMerges(text, before, entries, pad, after, save, added);
    var merged := Merged(entries, pad, added);
    assert IsArrayText(Saved(Some(text), save, WORKING).value, merged);
    ReadBack(Saved(Some(text), save, WORKING).value, merged);
    ArrayIsJson(Saved(Some(text), save, WORKING).value, merged);
  }

  lemma WindowMisses(entries: seq<Entry>, pad: string, after: string)
    requires !WindowReaches(entries, pad, after)
    ensures |after| >= WINDOW || (entries == [] && WINDOW < |pad| + |after| + 2)
  {
  }

  lemma NoTexts(texts: seq<string>)
    ensures Texts([]) + texts == texts
  {
  }

  /** A save into a well-formed array leaves a JSON text, and is read back as its elements followed by those added, if
      and only if the window reaches the brackets that matter. */
  lemma SaveReadsBackIff(text: string, before: string, entries: seq<Entry>, pad: string, after: string,
                         save: string, added: seq<Entry>)
    requires IsArrayTextWith(text, before, entries, pad, after)
    requires IsArrayText(save, added) && added != []
    ensures var r := Saved(Some(text), save, WORKING);
            && r.Some?
            && (Elements(r.value) == Some(Texts(entries) + Texts(added)) <==> WindowReaches(entries, pad, after))
            && (IsJson(r.value) <==> WindowReaches(entries, pad, after))
  {
    hide *;
    if WindowReaches(entries, pad, after) {
      SaveReadsBack(text, before, entries, pad, after, save, added);
    } else if |after| >= WINDOW {
      UnseenBracketMisread(text, before, entries, pad, after, save, added);
    } else {
      WindowMisses(entries, pad, after);
      UnseenOpeningMisread(text, before, pad, after, save, added);
      NoTexts(Texts(added));
    }
  }

  function Blanks(n: nat): string {
    seq(n, i requires 0 <= i < n => ' ')
  }

  const ONE: seq<Entry> := [Entry(NoName, "", Scalar("1"), "")]

  lemma OnePrints()
    ensures IsArrayText("[1]", ONE)
  {
    IntegerIsScalar(1);
    assert Digits(1) == "1" && ToString(1) == "1";
    assert Print(Scalar("1")) == "1" && PrintEntry(ONE[0]) == "1";
    assert "[1]" == "" + Print(Array(ONE, "")) + "";
    assert IsArrayTextWith("[1]", "", ONE, "", "");
  }

  /** For example [] with 256 blanks behind it. */
  lemma UnseenBracketExample()
    ensures var r := Saved(Some("[]" + Blanks(256)), "[1]", WORKING);
            r.Some? && !IsJson(r.value)
  {
    OnePrints();
    assert "[]" + Blanks(256) == "" + Print(Array([], "")) + Blanks(256);
    assert IsArrayTextWith("[]" + Blanks(256), "", [], "", Blanks(256));
    UnseenBracketMisread("[]" + Blanks(256), "", [], "", Blanks(256), "[1]", ONE);
  }

  /** Or 255 blanks between the brackets. */
  lemma UnseenOpeningExample()
    ensures var r := Saved(Some("[" + Blanks(255) + "]"), "[1]", WORKING);
            r.Some? && !IsJson(r.value)
  {
    OnePrints();
    assert "[" + Blanks(255) + "]" == "" + Print(Array([], Blanks(255))) + "";
    assert IsArrayTextWith("[" + Blanks(255) + "]", "", [], Blanks(255), "");
    UnseenOpeningMisread("[" + Blanks(255) + "]", "", Blanks(255), "", "[1]", ONE);
  }

  lemma OneWithBlanks(after: string)
    requires Blank(after, JSON_BLANKS)
    ensures IsArrayTextWith("[1]" + after, "", ONE, "", after)
  {
    OnePrints();
    OneTexts();
    assert "[1]" + after == "" + Print(Array(ONE, "")) + after;
  }

  /** With up to 255 blanks behind it the bracket is seen. */
  lemma SeenBracketExample(after: string)
    requires Blank(after, JSON_BLANKS) && |after| <= 255
    ensures var r := Saved(Some("[1]" + after), "[1]", WORKING);
            r.Some? && IsJson(r.value) && Elements(r.value) == Some(["1", "1"])
  {
    hide Saved, IsJson, Elements, Texts, IsArrayTextWith;
    OnePrints();
    OneTexts();
    OneWithBlanks(after);
    SaveReadsBack("[1]" + after, "", ONE, "", after, "[1]", ONE);
    assert ["1"] + ["1"] == ["1", "1"];
  }

  lemma OneTexts()
    ensures Print(Array(ONE, "")) == "[1]" && Texts(ONE) == ["1"]
  {
    assert PrintEntry(ONE[0]) == "1" && PrintBody(ONE, "") == "1";
    assert Texts(ONE) == [Print(ONE[0].value)] + Texts(ONE[1..]);
  }

  lemma OneInner()
    ensures Inner("[1]") == Some("1")
  {
    OnePrints();
    InnerOf("[1]", ONE, "", "");
    assert Respaced(ONE, "", "") == ONE;
    OneTexts();
    assert "" + Inner("[1]").value + "" == Inner("[1]").value;
    assert PrintBody(ONE, "") == "1";
  }

  /** Two saves of [1] into a missing file, character by character. */
  lemma TwoSavesText()
    ensures Saved(None, "[1]", WORKING) == Some("[\n1\n]\n")
    ensures Saved(Saved(None, "[1]", WORKING), "[1]", WORKING) == Some("[\n1\n,\n1\n]\n")
  {
    OneInner();
    var once := "[\n1\n]\n";
    assert TextOf(None) + ("[\n" + "1" + "\n]\n") == once;
    assert once[4] == ']' && once[5] == '\n' && once[3] == '\n' && once[2] == '1';
    LastNotInIs(once, JSON_BLANKS, 6, 4);
    LastNotInIs(once, JSON_BLANKS, 4, 2);
    assert CloseOf(once) == Some(4) && !OpensBefore(once, 4);
    assert once[..4] + ",\n" + "1" + "\n]\n" == "[\n1\n,\n1\n]\n";
  }

  // ---- Texts that are no array -----------------------------------------

  lemma NoPair(text: string)
    requires forall i, j :: 0 <= i < j < |text| ==> !(text[i] == '[' && text[j] == ']')
    ensures Body(text) == None
  {
    var open, close := FirstIn(text, {'['}, 0), LastIn(text, {']'}, |text|);
    if open.Some? && close.Some? {
      assert text[open.value] == '[' && text[close.value] == ']';
    }
  }

  /** A text without a '[' before a ']' is appended as it is. */
  lemma OtherTextAppended(content: Option<string>, text: string, disk: Disk)
    requires forall i, j :: 0 <= i < j < |text| ==> !(text[i] == '[' && text[j] == ']')
    ensures Saved(content, text, disk)
         == if !disk.opensForAppend then content else if content.None? then Some(text) else Some(content.value + text)
  {
    NoPair(text);
    assert "" + text == text;
  }

  /** An empty array changes nothing, not even a missing file. */
  lemma EmptyArrayIgnored(content: Option<string>, text: string, disk: Disk)
    requires IsArrayText(text, [])
    ensures Saved(content, text, disk) == content
  {
    InnerOf(text, [], "", "");
  }

  // ---- Whole runs ------------------------------------------------------

  datatype Step = Step(save: string, disk: Disk)

  /** The file after a run of saves. */
  function Run(content: Option<string>, steps: seq<Step>): Option<string> {
    if steps == [] then content
    else
      var last := steps[|steps| - 1];
      Saved(Run(content, steps[..|steps| - 1]), last.save, last.disk)
  }

  /** The save reaches the file: before the first element nothing is truncated. */
  predicate Lands(bodies: seq<string>, step: Step) {
    && Inner(step.save).Some? && Inner(step.save).value != ""
    && step.disk.opensForAppend && (bodies != [] ==> step.disk.truncates)
  }

  /** The trimmed non-empty bodies of the saves that reach the file. */
  function Bodies(steps: seq<Step>): seq<string> {
    if steps == [] then []
    else
      var bodies, last := Bodies(steps[..|steps| - 1]), steps[|steps| - 1];
      if Lands(bodies, last) then bodies + [Inner(last.save).value] else bodies
  }

  /** Behind the first element that has reached the file, the save is blind, for the file cannot be read but be written
      to, or torn: the file can be truncated but not be opened again. */
  predicate Spoils(bodies: seq<string>, step: Step) {
    && bodies != [] && Inner(step.save).Some? && Inner(step.save).value != ""
    && if step.disk.readable then step.disk.truncates && !step.disk.opensForAppend else step.disk.opensForAppend
  }

  /** Some save of the run is blind or torn. */
  predicate Spoiled(steps: seq<Step>) {
    && steps != []
    && (Spoiled(steps[..|steps| - 1]) || Spoils(Bodies(steps[..|steps| - 1]), steps[|steps| - 1]))
  }

  /** The elements of the arrays that reach the file, in order. */
  ghost function LandedTexts(steps: seq<Step>, arrays: seq<seq<Entry>>): seq<string>
    requires |steps| == |arrays|
  {
    if steps == [] then []
    else
      var n := |steps| - 1;
      LandedTexts(steps[..n], arrays[..n]) + if Lands(Bodies(steps[..n]), steps[n]) then Texts(arrays[n]) else []
  }

  function Join(bodies: seq<string>): string
    requires bodies != []
  {
    if |bodies| == 1 then bodies[0] else Join(bodies[..|bodies| - 1]) + "\n,\n" + bodies[|bodies| - 1]
  }

  function Layout(before: string, bodies: seq<string>): string
    requires bodies != []
  {
    before + "[\n" + Join(bodies) + "\n]\n"
  }

  ghost predicate Runs(steps: seq<Step>, arrays: seq<seq<Entry>>) {
    && |steps| == |arrays|
    && forall i :: 0 <= i < |steps| ==> IsArrayText(steps[i].save, arrays[i])
  }

  /** The content is laid out from the bodies and is one array with the elements `texts`. */
  ghost predicate Holds(content: Option<string>, before: string, bodies: seq<string>, texts: seq<string>,
                        entries: seq<Entry>) {
    && bodies != [] && entries != []
    && content == Some(Layout(before, bodies))
    && IsArrayTextWith(content.value, before, entries, "", "\n")
    && Texts(entries) == texts
  }

  /** A step that does not land changes nothing. */
  lemma StepSkips(content: Option<string>, bodies: seq<string>, step: Step)
    requires !Spoils(bodies, step) && Inner(step.save).Some? && !Lands(bodies, step)
    requires bodies != [] <==> content.Some? && CloseOf(content.value).Some?
    ensures Saved(content, step.save, step.disk) == content
  {
  }

  /** A step that lands does what a save on a working disk does. */
  lemma StepWorks(content: Option<string>, bodies: seq<string>, step: Step)
    requires !Spoils(bodies, step) && Lands(bodies, step)
    requires bodies != [] <==> content.Some? && CloseOf(content.value).Some?
    ensures Saved(content, step.save, step.disk) == Saved(content, step.save, WORKING)
  {
  }

  lemma HoldsCloses(content: Option<string>, before: string, bodies: seq<string>, texts: seq<string>,
                    entries: seq<Entry>)
    requires Holds(content, before, bodies, texts, entries)
    ensures content.Some? && |content.value| >= 2 && CloseOf(content.value) == Some(|content.value| - 2)
    ensures !OpensBefore(content.value, |content.value| - 2)
  {
    ArrayText(content.value, before, entries, "", "\n");
    CloseSeen(before + "[" + PrintBody(entries, ""), "\n");
    OpeningSeen(content.value, before, entries, "", "\n");
  }

  lemma ExtendLayout(before: string, bodies: seq<string>, inner: string, content: string, save: string, close: nat)
    requires bodies != [] && content == Layout(before, bodies)
    requires Inner(save) == Some(inner) && inner != ""
    requires CloseOf(content) == Some(close) && close == |content| - 2 && !OpensBefore(content, close)
    ensures Saved(Some(content), save, WORKING) == Some(Layout(before, bodies + [inner]))
  {
    SavedInto(content, save, close);
    var joined := Join(bodies);
    assert Join(bodies + [inner]) == joined + "\n,\n" + inner by {
      assert (bodies + [inner])[..|bodies|] == bodies;
    }
    assert content[..close] == before + "[\n" + joined + "\n";
    assert content[..close] + ",\n" + inner + "\n]\n" == before + "[\n" + (joined + "\n,\n" + inner) + "\n]\n";
  }

  lemma LaterLayout(content: Option<string>, before: string, bodies: seq<string>, texts: seq<string>,
                    entries: seq<Entry>, save: string)
    requires Holds(content, before, bodies, texts, entries)
    requires Inner(save).Some? && Inner(save).value != ""
    ensures Saved(content, save, WORKING) == Some(Layout(before, bodies + [Inner(save).value]))
  {
    HoldsCloses(content, before, bodies, texts, entries);
    ExtendLayout(before, bodies, Inner(save).value, content.value, save, |content.value| - 2);
  }

  lemma LaterStep(content: Option<string>, before: string, bodies: seq<string>, texts: seq<string>,
                  entries: seq<Entry>, save: string, added: seq<Entry>)
    requires Holds(content, before, bodies, texts, entries)
    requires IsArrayText(save, added) && added != []
    ensures Inner(save).Some?
    ensures Holds(Saved(content, save, WORKING), before, bodies + [Inner(save).value], texts + Texts(added),
                  Merged(entries, "", added))
  {
    InnerOf(save, added, "", "");
    LaterLayout(content, before, bodies, texts, entries, save);
    assert entries != [] && WindowReaches(entries, "", "\n");
    SaveMerges(content.value, before, entries, "", "\n", save, added);
  }

  lemma FirstStep(content: Option<string>, save: string, added: seq<Entry>)
    requires Blank(TextOf(content), JSON_BLANKS)
    requires IsArrayText(save, added) && added != []
    ensures Inner(save).Some?
    ensures Holds(Saved(content, save, WORKING), TextOf(content), [Inner(save).value], Texts(added),
                  Respaced(added, "\n", "\n"))
  {
    InnerOf(save, added, "", "");
    SaveCreates(content, save, added);
    SavedNew(content, save);
  }

  ghost predicate Reached(start: Option<string>, content: Option<string>, bodies: seq<string>, texts: seq<string>,
                          entries: seq<Entry>) {
    if bodies == [] then content == start && texts == []
    else Holds(content, TextOf(start), bodies, texts, entries)
  }

  lemma AdvanceSave(start: Option<string>, content: Option<string>, bodies: seq<string>, texts: seq<string>,
                entries: seq<Entry>, step: Step, added: seq<Entry>) returns (entries': seq<Entry>)
    requires Blank(TextOf(start), JSON_BLANKS) && Reached(start, content, bodies, texts, entries)
    requires !Spoils(bodies, step) && IsArrayText(step.save, added)
    ensures Inner(step.save).Some?
    ensures var landed := Lands(bodies, step);
            Reached(start, Saved(content, step.save, step.disk),
                    if landed then bodies + [Inner(step.save).value] else bodies,
                    texts + (if landed then Texts(added) else []), entries')
  {
    InnerOf(step.save, added, "", "");
    ReachedCloses(start, content, bodies, texts, entries);
    if !Lands(bodies, step) {
      StepSkips(content, bodies, step);
      entries' := entries;
      assert texts + [] == texts;
    } else {
      StepWorks(content, bodies, step);
      entries' := Landing(start, content, bodies, texts, entries, step.save, added);
    }
  }

  lemma ReachedCloses(start: Option<string>, content: Option<string>, bodies: seq<string>, texts: seq<string>,
                      entries: seq<Entry>)
    requires Blank(TextOf(start), JSON_BLANKS) && Reached(start, content, bodies, texts, entries)
    ensures bodies != [] <==> content.Some? && CloseOf(content.value).Some?
  {
    if bodies == [] {
      assert LastNotIn(TextOf(start), JSON_BLANKS, |TextOf(start)|) == None;
    } else {
      HoldsCloses(content, TextOf(start), bodies, texts, entries);
    }
  }

  lemma Landing(start: Option<string>, content: Option<string>, bodies: seq<string>, texts: seq<string>,
                entries: seq<Entry>, save: string, added: seq<Entry>) returns (entries': seq<Entry>)
    requires Blank(TextOf(start), JSON_BLANKS) && Reached(start, content, bodies, texts, entries)
    requires IsArrayText(save, added) && added != []
    ensures Inner(save).Some?
    ensures Reached(start, Saved(content, save, WORKING), bodies + [Inner(save).value], texts + Texts(added), entries')
  {
    if bodies == [] {
      FirstStep(content, save, added);
      entries' := Respaced(added, "\n", "\n");
      assert texts + Texts(added) == Texts(added) && bodies + [Inner(save).value] == [Inner(save).value];
    } else {
      LaterStep(content, TextOf(start), bodies, texts, entries, save, added);
      entries' := Merged(entries, "", added);
    }
  }

  lemma {:induction false} RunReaches(start: Option<string>, steps: seq<Step>, arrays: seq<seq<Entry>>)
    returns (entries: seq<Entry>)
    requires Blank(TextOf(start), JSON_BLANKS) && Runs(steps, arrays) && !Spoiled(steps)
    ensures Reached(start, Run(start, steps), Bodies(steps), LandedTexts(steps, arrays), entries)
  {
    if steps == [] {
      entries := [];
    } else {
      var n := |steps| - 1;
      entries := RunReaches(start, steps[..n], arrays[..n]);
      entries := AdvanceSave(start, Run(start, steps[..n]), Bodies(steps[..n]), LandedTexts(steps[..n], arrays[..n]),
                         entries, steps[n], arrays[n]);
    }
  }

  /** Every run of saves of well-formed arrays into a missing or blank file, none of them blind or torn: the file is
      untouched as long as nothing has landed; after that it is the layout of the bodies, it is one well-formed array,
      and reading it gives the elements of all the arrays that landed, in order. */
  lemma SavesKeepOneArray(start: Option<string>, steps: seq<Step>, arrays: seq<seq<Entry>>)
    requires Blank(TextOf(start), JSON_BLANKS) && Runs(steps, arrays) && !Spoiled(steps)
    ensures var r := Run(start, steps);
            if Bodies(steps) == [] then r == start && LandedTexts(steps, arrays) == []
            else
              && r == Some(Layout(TextOf(start), Bodies(steps)))
              && Elements(r.value) == Some(LandedTexts(steps, arrays))
              && exists entries :: IsArrayText(r.value, entries) && Texts(entries) == LandedTexts(steps, arrays)
  {
    var entries := RunReaches(start, steps, arrays);
    if Bodies(steps) != [] {
      var r := Run(start, steps);
      assert IsArrayText(r.value, entries) by {
        assert IsArrayTextWith(r.value, TextOf(start), entries, "", "\n");
      }
      ReadBack(r.value, entries);
    }
  }
}
