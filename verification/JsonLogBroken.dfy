/** When repeated saves do not keep the file one JSON array: a blind or a torn save spoils it for good. */
module JsonLogBroken {
  import opened Wrappers
  import opened Strings
  import opened Json
  import opened JsonReader
  import opened JsonLog
  import opened JsonLogRuns

  /** There is a value behind the first one, or something else in front of a '[' that no JSON text starts with. */
  ghost predicate Stray(s: string) {
    exists front :: front <= s && IsStray(front)
  }

  predicate IsStray(front: string) {
    front != "" && front[|front| - 1] == '[' && Read(front, START).Fail?
  }

  /** A bracket is left open. */
  predicate Deep(s: string) {
    Scan(s, TOP).mode.Code? && Scan(s, TOP).depth >= 1
  }

  ghost predicate Broken(content: Option<string>) {
    content.Some? && (Stray(content.value) || Deep(content.value))
  }

  ghost predicate IsJsonFile(content: Option<string>) {
    content.Some? && IsJson(content.value)
  }

  // ---- Broken is no JSON -----------------------------------------------

  lemma BlankScans(s: string, d: int)
    requires Blank(s, JSON_BLANKS)
    ensures Scan(s, State(d, Code)) == State(d, Code)
  {
    BlankPasses(s, d);
    PassesScans(s, State(d, Code), State(d, Code));
  }

  /** Every JSON text closes what it opens. */
  lemma JsonScans(text: string)
    requires IsJson(text)
    ensures Scan(text, TOP) == TOP
  {
    var before, v, after :| IsJsonWith(text, before, v, after);
    BlankScans(before, 0);
    ValuePasses(v, 0);
    PassesScans(Print(v), TOP, TOP);
    BlankScans(after, 0);
    ScanConcat(before, Print(v), TOP);
    ScanConcat(before + Print(v), after, TOP);
  }

  lemma StrayNotJson(s: string)
    requires Stray(s)
    ensures !IsJson(s)
  {
    var front :| front <= s && IsStray(front);
    NotJson(s, front, s[|front|..]);
  }

  lemma BrokenNotJson(content: Option<string>)
    requires Broken(content)
    ensures !IsJsonFile(content)
  {
    if Stray(content.value) {
      StrayNotJson(content.value);
    } else if IsJson(content.value) {
      JsonScans(content.value);
    }
  }

  lemma BlankNotJson(text: string)
    requires Blank(text, JSON_BLANKS)
    ensures !IsJson(text)
  {
    if IsJson(text) {
      var before, v, after :| IsJsonWith(text, before, v, after);
      ValueEnds(v);
      NotBlank(before, Print(v), after);
    }
  }

  lemma NotBlank(before: string, s: string, after: string)
    requires s != "" && s[0] !in JSON_BLANKS
    ensures !Blank(before + s + after, JSON_BLANKS)
  {
    assert (before + s + after)[|before|] == s[0];
  }

  // ---- Broken stays broken ---------------------------------------------

  lemma StrayPrefix(s: string, t: string, upTo: nat)
    requires upTo <= |s| && s[..upTo] <= t && Stray(s)
    requires forall i :: upTo <= i < |s| ==> s[i] != '['
    ensures Stray(t)
  {
    var front :| front <= s && IsStray(front);
    assert s[|front| - 1] == '[';
    assert front <= t;
  }

  /** From the closing bracket on there is no other bracket. */
  lemma NoOpeningBehind(content: string, close: nat)
    requires CloseOf(content) == Some(close)
    ensures forall i :: close <= i < |content| ==> content[i] != '['
  {
    InBehind(content, JSON_BLANKS, |content|);
  }

  lemma BehindClose(content: string, close: nat)
    requires CloseOf(content) == Some(close)
    ensures content == content[..close] + "]" + content[close + 1..]
    ensures Blank(content[close + 1..], JSON_BLANKS)
  {
    InBehind(content, JSON_BLANKS, |content|);
  }

  /** The closing bracket closes something, so one more is open before it. */
  lemma {:induction false} BlankMode(s: string, st: State)
    requires Blank(s, JSON_BLANKS)
    ensures Scan(s, st).depth == st.depth
    ensures Scan(s, st).mode.Code? ==> st.mode.Code?
  {
    if s != "" {
      assert s[0] in JSON_BLANKS;
      assert Blank(s[1..], JSON_BLANKS);
      BlankMode(s[1..], Next(st, s[0]));
    }
  }

  lemma OpenBefore(content: string, close: nat)
    requires CloseOf(content) == Some(close) && Deep(content)
    ensures Scan(content[..close], TOP) == State(Scan(content, TOP).depth + 1, Code)
  {
    var front, back := content[..close], content[close + 1..];
    BehindClose(content, close);
    ScanConcat(front, "]", TOP);
    ScanConcat(front + "]", back, TOP);
    BlankMode(back, Scan(front + "]", TOP));
    OneBracket(Scan(front, TOP));
  }

  lemma OneBracket(st: State)
    ensures Scan("]", st) == Next(st, ']')
    ensures Next(st, ']').mode.Code? ==> st.mode.Code? && Next(st, ']').depth == st.depth - 1
  {
    assert "]"[1..] == "";
  }

  /** A body can be scanned anywhere inside a bracket. */
  lemma InnerScans(save: string, added: seq<Entry>, before: string, after: string, d: nat)
    requires IsArrayText(save, added) && added != [] && d > 0
    requires Blank(before, JSON_BLANKS) && Blank(after, JSON_BLANKS)
    ensures Inner(save).Some? && Scan(before + Inner(save).value + after, State(d, Code)) == State(d, Code)
  {
    var pre, pad, post :| IsArrayTextWith(save, pre, added, pad, post);
    var more := Respaced(added, before, after);
    InnerOf(save, added, before, after);
    RespacedGood(added, before, after);
    BodyPasses(more, false, "", d);
    PassesScans(PrintBody(more, ""), State(d, Code), State(d, Code));
  }

  /** A whole new array leaves the depth as it is. */
  lemma ArrayScans(save: string, added: seq<Entry>, d: nat)
    requires IsArrayText(save, added) && added != []
    ensures Inner(save).Some? && Scan("[\n" + Inner(save).value + "\n]\n", State(d, Code)) == State(d, Code)
  {
    hide IsArrayTextWith, Trim;
    InnerScans(save, added, "\n", "\n", d + 1);
    var body := "\n" + Inner(save).value + "\n";
    assert "[\n" + Inner(save).value + "\n]\n" == "[" + body + "]" + "\n";
    BracketScans(body, d);
  }

  lemma BracketScans(body: string, d: nat)
    requires Scan(body, State(d + 1, Code)) == State(d + 1, Code)
    ensures Scan("[" + body + "]" + "\n", State(d, Code)) == State(d, Code)
  {
    ScanConcat("[", body, State(d, Code));
    ScanConcat("[" + body, "]", State(d, Code));
    ScanConcat("[" + body + "]", "\n", State(d, Code));
    BlankScans("\n", d);
    assert "["[1..] == "";
    OneBracket(State(d + 1, Code));
  }

  /** What an extension puts in place of the closing bracket closes it again. */
  lemma ExtensionScans(separator: string, save: string, added: seq<Entry>, d: nat)
    requires IsArrayText(save, added) && added != [] && (separator == "" || separator == ",\n")
    ensures Inner(save).Some?
    ensures Scan(separator + (Inner(save).value + "\n") + "]" + "\n", State(d + 1, Code)) == State(d, Code)
  {
    hide IsArrayTextWith, Scan, Trim;
    InnerScans(save, added, "", "\n", d + 1);
    var st, body := State(d + 1, Code), Inner(save).value + "\n";
    assert "" + Inner(save).value + "\n" == body;
    SeparatorScans(separator, d + 1);
    ScanConcat(separator, body, st);
    ScanConcat(separator + body, "]", st);
    ScanConcat(separator + body + "]", "\n", st);
    OneBracket(st);
    BlankScans("\n", d);
  }

  lemma SeparatorScans(separator: string, d: int)
    requires separator == "" || separator == ",\n"
    ensures Scan(separator, State(d, Code)) == State(d, Code)
  {
    if separator == ",\n" {
      assert separator[1..] == "\n";
      BlankScans("\n", d);
    }
  }

  lemma WrittenStays(content: string, save: string, added: seq<Entry>)
    requires Broken(Some(content)) && IsArrayText(save, added) && added != []
    ensures Inner(save).Some? && Broken(Some(content + ("[\n" + Inner(save).value + "\n]\n")))
  {
    InnerOf(save, added, "", "");
    var t := content + ("[\n" + Inner(save).value + "\n]\n");
    if Stray(content) {
      assert content[..|content|] == content;
      StrayPrefix(content, t, |content|);
    } else {
      ArrayScans(save, added, Scan(content, TOP).depth);
      ScanConcat(content, "[\n" + Inner(save).value + "\n]\n", TOP);
    }
  }

  lemma TornStays(content: string, close: nat)
    requires Broken(Some(content)) && CloseOf(content) == Some(close)
    ensures Broken(Some(content[..close]))
  {
    if Stray(content) {
      NoOpeningBehind(content, close);
      StrayPrefix(content, content[..close], close);
    } else {
      OpenBefore(content, close);
    }
  }

  lemma DeepExtension(content: string, front: string, separator: string, save: string, added: seq<Entry>)
    requires IsArrayText(save, added) && added != [] && (separator == "" || separator == ",\n") && Deep(content)
    requires Scan(front, TOP) == State(Scan(content, TOP).depth + 1, Code)
    ensures Inner(save).Some? && Deep(front + (separator + (Inner(save).value + "\n") + "]" + "\n"))
  {
    hide IsArrayTextWith;
    ExtensionScans(separator, save, added, Scan(content, TOP).depth);
    ScanConcat(front, separator + (Inner(save).value + "\n") + "]" + "\n", TOP);
  }

  lemma ExtendedStays(content: string, close: nat, save: string, added: seq<Entry>)
    requires Broken(Some(content)) && CloseOf(content) == Some(close) && IsArrayText(save, added) && added != []
    ensures Inner(save).Some? && Broken(Some(Extended(content, close, Inner(save).value)))
  {
    InnerOf(save, added, "", "");
    var separator := if OpensBefore(content, close) then "" else ",\n";
    ExtendedText(content[..close], separator, Inner(save).value);
    if Stray(content) {
      NoOpeningBehind(content, close);
      StrayPrefix(content, Extended(content, close, Inner(save).value), close);
    } else {
      OpenBefore(content, close);
      DeepExtension(content, content[..close], separator, save, added);
    }
  }

  lemma ExtendedText(front: string, separator: string, inner: string)
    ensures front + separator + inner + "\n]\n" == front + (separator + (inner + "\n") + "]" + "\n")
  {
  }

  lemma SavedOneOf(content: string, save: string, disk: Disk)
    requires Inner(save).Some? && Inner(save).value != ""
    ensures var r := Saved(Some(content), save, disk);
            || r == Some(content)
            || r == Some(content + ("[\n" + Inner(save).value + "\n]\n"))
            || (CloseOf(content).Some? && r == Some(content[..CloseOf(content).value]))
            || (CloseOf(content).Some? && r == Some(Extended(content, CloseOf(content).value, Inner(save).value)))
  {
  }

  lemma BrokenStays(content: Option<string>, save: string, added: seq<Entry>, disk: Disk)
    requires Broken(content) && IsArrayText(save, added)
    ensures Broken(Saved(content, save, disk))
  {
    InnerOf(save, added, "", "");
    if added != [] {
      SavedOneOf(content.value, save, disk);
      WrittenStays(content.value, save, added);
      if CloseOf(content.value).Some? {
        TornStays(content.value, CloseOf(content.value).value);
        ExtendedStays(content.value, CloseOf(content.value).value, save, added);
      }
    }
  }

  // ---- A blind or torn save breaks the file ----------------------------

  lemma BlindBreaks(content: string, entries: seq<Entry>, save: string, added: seq<Entry>)
    requires IsArrayText(content, entries) && IsArrayText(save, added) && added != []
    ensures Inner(save).Some? && Broken(Some(content + ("[\n" + Inner(save).value + "\n]\n")))
  {
    hide *;
    InnerOf(save, added, "", "");
    ArrayIsJson(content, entries);
    SecondValueBreaks(content, "");
    StrayStarts(content, "\n" + Inner(save).value + "\n]\n");
    assert "[\n" + Inner(save).value + "\n]\n" == "[" + ("\n" + Inner(save).value + "\n]\n");
  }

  lemma StrayStarts(content: string, rest: string)
    requires Read(content + "[", START).Fail?
    ensures Broken(Some(content + ("[" + rest)))
  {
    var front := content + "[";
    assert content + ("[" + rest) == front + rest;
    assert IsStray(front) && front <= content + ("[" + rest);
  }

  lemma TornBreaks(content: string, before: string, entries: seq<Entry>)
    requires IsArrayTextWith(content, before, entries, "", "\n") && CloseOf(content) == Some(|content| - 2)
    ensures Broken(Some(content[..|content| - 2]))
  {
    var body := PrintBody(entries, "");
    assert content == before + "[" + body + "]" + "\n";
    assert content[..|content| - 2] == before + "[" + body;
    BlankScans(before, 0);
    BodyPasses(entries, false, "", 1);
    PassesScans(body, State(1, Code), State(1, Code));
    ScanConcat(before, "[", TOP);
    assert "["[1..] == "";
    ScanConcat(before + "[", body, TOP);
  }

  lemma TornSave(content: string, before: string, entries: seq<Entry>, save: string, disk: Disk)
    requires IsArrayTextWith(content, before, entries, "", "\n") && CloseOf(content) == Some(|content| - 2)
    requires Inner(save).Some? && Inner(save).value != ""
    requires disk.readable && disk.truncates && !disk.opensForAppend
    ensures Broken(Saved(Some(content), save, disk))
  {
    TornBreaks(content, before, entries);
  }

  lemma BlindSave(content: string, entries: seq<Entry>, save: string, added: seq<Entry>, disk: Disk)
    requires IsArrayText(content, entries) && IsArrayText(save, added) && added != []
    requires !disk.readable && disk.opensForAppend
    ensures Broken(Saved(Some(content), save, disk))
  {
    BlindBreaks(content, entries, save, added);
    InnerOf(save, added, "", "");
  }

  lemma SpoilsDisk(bodies: seq<string>, step: Step)
    requires Spoils(bodies, step)
    ensures Inner(step.save).Some? && Inner(step.save).value != ""
    ensures if step.disk.readable then step.disk.truncates && !step.disk.opensForAppend else step.disk.opensForAppend
  {
  }

  lemma SpoilingBreaks(content: Option<string>, before: string, bodies: seq<string>, texts: seq<string>,
                       entries: seq<Entry>, step: Step, added: seq<Entry>)
    requires Holds(content, before, bodies, texts, entries) && Spoils(bodies, step) && IsArrayText(step.save, added)
    ensures Broken(Saved(content, step.save, step.disk))
  {
    hide *;
    SpoilsDisk(bodies, step);
    HoldsCloses(content, before, bodies, texts, entries);
    HoldsArray(content, before, bodies, texts, entries);
    InnerOf(step.save, added, "", "");
    if step.disk.readable {
      TornSave(content.value, before, entries, step.save, step.disk);
    } else {
      BlindSave(content.value, entries, step.save, added, step.disk);
    }
  }

  lemma HoldsArray(content: Option<string>, before: string, bodies: seq<string>, texts: seq<string>,
                   entries: seq<Entry>)
    requires Holds(content, before, bodies, texts, entries)
    ensures content.Some? && IsArrayTextWith(content.value, before, entries, "", "\n")
    ensures IsArrayText(content.value, entries)
  {
  }

  /** After a blind or torn save the file is broken, whatever is saved afterwards. */
  lemma {:induction false} SpoiledRuns(start: Option<string>, steps: seq<Step>, arrays: seq<seq<Entry>>)
    requires Blank(TextOf(start), JSON_BLANKS) && Runs(steps, arrays) && Spoiled(steps)
    ensures Broken(Run(start, steps))
  {
    var n := |steps| - 1;
    if Spoiled(steps[..n]) {
      SpoiledRuns(start, steps[..n], arrays[..n]);
      BrokenStays(Run(start, steps[..n]), steps[n].save, arrays[n], steps[n].disk);
    } else {
      var entries := RunReaches(start, steps[..n], arrays[..n]);
      SpoilingBreaks(Run(start, steps[..n]), TextOf(start), Bodies(steps[..n]), LandedTexts(steps[..n], arrays[..n]),
                     entries, steps[n], arrays[n]);
    }
  }

  /** After any run of saves of well-formed arrays into a missing or blank file, on any disk, the file is JSON if and
      only if something has reached it and no save behind that was blind or torn. */
  lemma RunIsJsonIff(start: Option<string>, steps: seq<Step>, arrays: seq<seq<Entry>>)
    requires Blank(TextOf(start), JSON_BLANKS) && Runs(steps, arrays)
    ensures IsJsonFile(Run(start, steps)) <==> Bodies(steps) != [] && !Spoiled(steps)
  {
    if Spoiled(steps) {
      SpoiledRuns(start, steps, arrays);
      BrokenNotJson(Run(start, steps));
    } else {
      SavesKeepOneArray(start, steps, arrays);
      if Bodies(steps) == [] {
        BlankNotJson(TextOf(start));
      } else {
        var entries :| IsArrayText(Run(start, steps).value, entries) && Texts(entries) == LandedTexts(steps, arrays);
        ArrayIsJson(Run(start, steps).value, entries);
      }
    }
  }

  /** A run is spoiled from a blind or torn save on, and something has landed before that. */
  lemma {:induction false} SpoiledLater(steps: seq<Step>, k: nat)
    requires k <= |steps| && Spoiled(steps[..k])
    ensures Spoiled(steps) && Bodies(steps) != []
    decreases |steps|
  {
    if k == |steps| {
      assert steps[..k] == steps;
      SpoiledHasBodies(steps);
    } else {
      var n := |steps| - 1;
      assert steps[..n][..k] == steps[..k];
      SpoiledLater(steps[..n], k);
    }
  }

  lemma {:induction false} SpoiledHasBodies(steps: seq<Step>)
    requires Spoiled(steps)
    ensures Bodies(steps) != []
  {
    hide Lands, Spoils;
    var n := |steps| - 1;
    if Spoiled(steps[..n]) {
      SpoiledHasBodies(steps[..n]);
    } else {
      SpoilsBodies(Bodies(steps[..n]), steps[n]);
    }
  }

  lemma SpoilsBodies(bodies: seq<string>, step: Step)
    requires Spoils(bodies, step)
    ensures bodies != []
  {
  }

  /** From the first save that lands on, the file is JSON after every save if and only if none was blind or torn. */
  lemma EverySaveIsJsonIff(start: Option<string>, steps: seq<Step>, arrays: seq<seq<Entry>>)
    requires Blank(TextOf(start), JSON_BLANKS) && Runs(steps, arrays)
    ensures (forall k :: 0 <= k <= |steps| && Bodies(steps[..k]) != [] ==> IsJsonFile(Run(start, steps[..k])))
            <==> !Spoiled(steps)
  {
    hide Run, Bodies, Spoiled, IsJsonFile;
    if Spoiled(steps) {
      RunIsJsonIff(start, steps, arrays);
      SpoiledHasBodies(steps);
      assert steps[..|steps|] == steps;
    } else {
      forall k | 0 <= k <= |steps| && Bodies(steps[..k]) != [] ensures IsJsonFile(Run(start, steps[..k])) {
        if Spoiled(steps[..k]) {
          SpoiledLater(steps, k);
        }
        RunIsJsonIff(start, steps[..k], arrays[..k]);
      }
    }
  }

  const TEARING := Disk(true, true, false)

  lemma TwoSaves(save: string)
    requires Inner(save).Some? && Inner(save).value != ""
    ensures Spoiled([Step(save, WORKING), Step(save, TEARING)])
  {
    hide Inner;
    var steps := [Step(save, WORKING), Step(save, TEARING)];
    assert steps[..1] == [Step(save, WORKING)] && steps[..1][..0] == [];
    assert Bodies(steps[..1]) == [Inner(save).value];
  }

  /** For example the second of two saves is torn: the array of the first stays open. */
  lemma TornExample()
    ensures var steps := [Step("[1]", WORKING), Step("[1]", TEARING)];
            Runs(steps, [ONE, ONE]) && Spoiled(steps) && !IsJsonFile(Run(None, steps))
  {
    hide Inner, Run, Spoiled;
    OnePrints();
    InnerOf("[1]", ONE, "", "");
    TwoSaves("[1]");
    RunIsJsonIff(None, [Step("[1]", WORKING), Step("[1]", TEARING)], [ONE, ONE]);
  }
}
