/** Annotating result files: `inject_json_kv` of tools/optkit-cli/stat.cc splices keys into the text of a
    file, `extract_scalar_by_key` of tools/optkit-cli/report.cc reads them back. Neither parses JSON. */
module Annotate {
  import opened Wrappers
  import opened Strings
  import opened Decimal

  const ANCHOR: string := "\"duration\""

  function Quoted(key: string): string {
    "\"" + key + "\""
  }

  /** What is inserted: the key, the literal and a comma. */
  function Piece(key: string, literal: string): string {
    Quoted(key) + (": " + literal + ", ")
  }

  function Insert(content: string, pos: nat, piece: string): string
    requires pos <= |content|
  {
    content[..pos] + piece + content[pos..]
  }

  function SkipBlanks(content: string, pos: nat): (r: nat)
    requires pos <= |content|
    ensures pos <= r <= |content|
    decreases |content| - pos
  {
    if pos < |content| && content[pos] in ALL_BLANKS then SkipBlanks(content, pos + 1) else pos
  }

  lemma SkipOne(content: string, pos: nat)
    requires pos <= |content|
    ensures SkipBlanks(content, pos)
         == if pos < |content| && content[pos] in ALL_BLANKS then SkipBlanks(content, pos + 1) else pos
  {
  }

  lemma {:induction false} BlanksSkipped(content: string, pos: nat)
    requires pos <= |content|
    ensures var r := SkipBlanks(content, pos);
            && (forall i :: pos <= i < r ==> content[i] in ALL_BLANKS)
            && (r < |content| ==> content[r] !in ALL_BLANKS)
    decreases |content| - pos
  {
    if pos < |content| && content[pos] in ALL_BLANKS {
      BlanksSkipped(content, pos + 1);
    }
  }

  lemma {:induction false} SkipBlanksIs(content: string, pos: nat, r: nat)
    requires pos <= r <= |content| && (forall i :: pos <= i < r ==> content[i] in ALL_BLANKS)
    requires r < |content| ==> content[r] !in ALL_BLANKS
    ensures SkipBlanks(content, pos) == r
    decreases r - pos
  {
    if pos < r {
      SkipBlanksIs(content, pos + 1, r);
    }
  }

  /** The first '[', or without one the first '{'. */
  function Bracket(content: string): (r: Option<nat>)
    ensures r.Some? ==> r.value < |content| && content[r.value] in {'[', '{'}
  {
    match FirstIn(content, {'['}, 0)
    case Some(p) => Some(p)
    case None => FirstIn(content, {'{'}, 0)
  }

  /** Before the first anchor; without one, behind the first bracket and the blanks that follow it. */
  function InsertionPoint(content: string): (r: Option<nat>)
    ensures r.Some? ==> r.value <= |content|
  {
    match Find(content, ANCHOR, 0)
    case Some(p) => Some(p)
    case None =>
      match Bracket(content)
      case Some(p) => Some(SkipBlanks(content, p + 1))
      case None => None
  }

  /** The text of a file after the injection of one key. */
  function Injected(content: string, key: string, literal: string): string {
    if key == "" || Contains(content, Quoted(key)) then content
    else
      match InsertionPoint(content)
      case None => content
      case Some(p) => Insert(content, p, Piece(key, literal))
  }

  // ---- The loops -------------------------------------------------------

  method InjectInto(content: string, key: string, literal: string, anchor: string)
    returns (inserted: bool, text: string)
    requires anchor == ANCHOR && key != "" && !Contains(content, Quoted(key))
    ensures text == Injected(content, key, literal)
    ensures inserted <==> InsertionPoint(content).Some?
  {
    hide Contains, FirstIn, Quoted, Piece, SkipBlanks;
    text := content;
    inserted := false;
    var prefix := Piece(key, literal);
    var anchorPos := Find(text, anchor, 0);
    if anchorPos.Some? {
      text := text[..anchorPos.value] + prefix + text[anchorPos.value..];
      inserted := true;
    } else {
      var pos := FirstIn(text, {'['}, 0);
      if pos.None? {
        pos := FirstIn(text, {'{'}, 0);
      }
      if pos.Some? {
        var at := pos.value + 1;
        while at < |text| && text[at] in ALL_BLANKS
          invariant pos.value + 1 <= at <= |text|
          invariant SkipBlanks(text, at) == SkipBlanks(text, pos.value + 1)
        {
          SkipOne(text, at);
          at := at + 1;
        }
        SkipOne(text, at);
        text := text[..at] + prefix + text[at..];
        inserted := true;
      }
    }
  }

  /** A directory of files; some of them may refuse to be read or to be written. */
  class Directory {
    var files: map<string, string>
    const names: seq<string>
    const unreadable: set<string>
    const unwritable: set<string>

    constructor (files: map<string, string>, names: seq<string>, unreadable: set<string>, unwritable: set<string>)
      ensures this.files == files && this.names == names
      ensures this.unreadable == unreadable && this.unwritable == unwritable
    {
      this.files, this.names, this.unreadable, this.unwritable := files, names, unreadable, unwritable;
    }

    predicate Annotated(name: string) {
      |name| >= 5 && name[|name| - 5..] == ".json" && name !in unreadable && name !in unwritable
    }

    function AfterInjection(name: string, content: string, key: string, literal: string): string {
      if Annotated(name) then Injected(content, key, literal) else content
    }

    lemma JsonIsAnnotated(stem: string)
      ensures Annotated(stem + ".json") <==> stem + ".json" !in unreadable + unwritable
    {
      var name := stem + ".json";
      assert |name| >= 5 && name[|name| - 5..] == ".json";
    }

    lemma OthersAreNot(name: string)
      requires |name| < 5 || name[|name| - 5..] != ".json" || name in unreadable || name in unwritable
      ensures !Annotated(name)
    {
    }

    /** The body of the loop over the files. */
    method AnnotateFile(path: string, key: string, literal: string)
      requires path in files && key != ""
      modifies this
      ensures files == old(files)[path := AfterInjection(path, old(files)[path], key, literal)]
    {
      if |path| < 5 || path[|path| - 5..] != ".json" { return; }
      if path in unreadable { return; }
      var content := files[path];
      if Contains(content, Quoted(key)) { return; }
      var inserted, text := InjectInto(content, key, literal, ANCHOR);
      if !inserted { return; }
      if path in unwritable { return; }
      files := files[path := text];
    }

    /** Every JSON file that can be read and written is annotated; all other files keep their text. */
    method InjectJsonKv(key: string, literal: string)
      requires forall i :: 0 <= i < |names| ==> names[i] in files
      requires forall i, j :: 0 <= i < j < |names| ==> names[i] != names[j]
      modifies this
      ensures files.Keys == old(files).Keys
      ensures forall name :: name in files ==>
                files[name] == if name in names then AfterInjection(name, old(files)[name], key, literal)
                               else old(files)[name]
      // In terms of the names: the listed JSON files that can be read and written get the key, no other file changes.
      ensures forall stem: string :: stem + ".json" in names && stem + ".json" !in unreadable + unwritable ==>
                files[stem + ".json"] == Injected(old(files)[stem + ".json"], key, literal)
      ensures forall name :: name in files && (|name| < 5 || name[|name| - 5..] != ".json"
                                               || name !in names || name in unreadable || name in unwritable) ==>
                files[name] == old(files)[name]
    {
      hide Annotated, InsertionPoint, Contains, Insert;
      if key == "" {
        return;
      }
      for k := 0 to |names|
        invariant files.Keys == old(files).Keys
        invariant forall i :: 0 <= i < k ==>
                    files[names[i]] == AfterInjection(names[i], old(files)[names[i]], key, literal)
        invariant forall name :: name in files && name !in names[..k] ==> files[name] == old(files)[name]
      {
        assert names[k] !in names[..k];
        AnnotateFile(names[k], key, literal);
        assert names[..k + 1] == names[..k] + [names[k]];
      }
      assert names[..|names|] == names;
      forall stem: string | stem + ".json" in names && stem + ".json" !in unreadable + unwritable
        ensures files[stem + ".json"] == Injected(old(files)[stem + ".json"], key, literal)
      {
        JsonIsAnnotated(stem);
      }
      forall name | name in files && (|name| < 5 || name[|name| - 5..] != ".json"
                                      || name !in names || name in unreadable || name in unwritable)
        ensures files[name] == old(files)[name]
      {
        if name in names {
          OthersAreNot(name);
        }
      }
    }
  }

  // ---- Reading a number back -------------------------------------------

  const NUMBER_START: set<char> := DIGITS + {'-'}
  const NUMBER: set<char> := DIGITS + {'.', 'e', 'E', '+', '-'}

  /** The end of the run of number characters that starts at `pos`. */
  function NumberEnd(s: string, pos: nat): nat
    requires pos <= |s|
  {
    match FirstNotIn(s, NUMBER, pos)
    case Some(j) => j
    case None => |s|
  }

  /** The characters that are converted: the first run of number characters from `pos` on. */
  function NumberAfter(s: string, pos: nat): Option<string> {
    match FirstIn(s, NUMBER_START, pos)
    case None => None
    case Some(i) => Some(s[i..NumberEnd(s, i)])
  }

  function ExtractedText(json: string, key: string): Option<string> {
    match Find(json, Quoted(key), 0)
    case None => None
    case Some(k) =>
      match FirstIn(json, {':'}, k)
      case None => None
      case Some(colon) => NumberAfter(json, colon + 1)
  }

  function Converted(text: Option<string>): Option<real> {
    match text
    case None => None
    case Some(t) => Stod(t)
  }

  /** What `extract_scalar_by_key` reads. */
  function Extracted(json: string, key: string): Option<real> {
    Converted(ExtractedText(json, key))
  }

  method FindFirstNumberAfter(s: string, pos: nat, out0: real) returns (found: bool, out: real)
    ensures found == Converted(NumberAfter(s, pos)).Some?
    ensures out == if found then Converted(NumberAfter(s, pos)).value else out0
  {
    out := out0;
    var i := FirstIn(s, NUMBER_START, pos);
    if i.None? {
      return false, out;
    }
    var j := i.value;
    while j < |s|
      invariant i.value <= j <= |s|
      invariant forall k :: i.value <= k < j ==> s[k] in NUMBER
    {
      var c := s[j];
      if c in DIGITS || c == '.' || c == 'e' || c == 'E' || c == '+' || c == '-' {
        j := j + 1;
      } else {
        break;
      }
    }
    if j < |s| {
      FirstNotInIs(s, NUMBER, i.value, j);
    }
    assert j == NumberEnd(s, i.value);
    var value := Stod(s[i.value..j]);
    found := value.Some?;
    if found {
      out := value.value;
    }
  }

  method ExtractScalarByKey(json: string, key: string) returns (found: bool, out: real)
    ensures found == Extracted(json, key).Some?
    ensures out == if found then Extracted(json, key).value else 0.0
  {
    out := 0.0;
    var k := Find(json, Quoted(key), 0);
    if k.None? {
      return false, out;
    }
    var colon := FirstIn(json, {':'}, k.value);
    if colon.None? {
      return false, out;
    }
    assert ExtractedText(json, key) == NumberAfter(json, colon.value + 1);
    found, out := FindFirstNumberAfter(json, colon.value + 1, out);
  }
}
