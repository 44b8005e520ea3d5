/** `append_json_array_file` of src/utils/utils.hh: repeated saves into one file keep it one JSON array.

    The file is edited in place. Only its last 256 bytes are read, so the closing bracket is found
    through a window; `CloseOf` and `OpensBefore` say, on the whole file, what the window shows. */
module JsonLog {
  import opened Wrappers
  import opened Strings
  import opened Json

  const WINDOW: nat := 256

  /** What the file system answers during one save. A file that is missing is never readable. */
  datatype Disk = Disk(readable: bool, truncates: bool, opensForAppend: bool)

  const WORKING := Disk(true, true, true)

  // ---- Specification ---------------------------------------------------

  /** The trimmed inside of the array to save; None when the text has no pair of brackets. */
  function Inner(text: string): Option<string> {
    match Body(text)
    case None => None
    case Some(body) => Some(Trim(body, JSON_BLANKS))
  }

  /** The final ']' of the file, when only blanks follow it and it lies in the window. */
  function CloseOf(content: string): (r: Option<nat>)
    ensures r.Some? ==> r.value < |content| && content[r.value] == ']'
  {
    match LastNotIn(content, JSON_BLANKS, |content|)
    case Some(p) => if content[p] == ']' && |content| - p <= WINDOW then Some(p) else None
    case None => None
  }

  /** Only blanks stand between a '[' in the window and position `close`. */
  predicate OpensBefore(content: string, close: nat)
    requires close <= |content|
  {
    match LastNotIn(content, JSON_BLANKS, close)
    case Some(q) => content[q] == '[' && |content| - q <= WINDOW
    case None => false
  }

  function TextOf(content: Option<string>): string {
    if content.Some? then content.value else ""
  }

  function Written(content: Option<string>, text: string, disk: Disk): Option<string> {
    if disk.opensForAppend then Some(TextOf(content) + text) else content
  }

  /** The file with `inner` put in place of everything from the closing bracket on. */
  function Extended(content: string, close: nat, inner: string): string
    requires close <= |content|
  {
    content[..close] + (if OpensBefore(content, close) then "" else ",\n") + inner + "\n]\n"
  }

  /** The file after one save; None is a missing file. */
  function Saved(content: Option<string>, text: string, disk: Disk): Option<string> {
    match Inner(text)
    case None => Written(content, text, disk)
    case Some(inner) =>
      if inner == "" then content
      else if content.None? || !disk.readable || CloseOf(content.value).None? then
        Written(content, "[\n" + inner + "\n]\n", disk)
      else
        var close := CloseOf(content.value).value;
        if !disk.truncates then content
        else if !disk.opensForAppend then Some(content.value[..close])
        else Some(Extended(content.value, close, inner))
  }

  // ---- What the window shows -------------------------------------------

  /** The final ']' of the text, when only blanks follow it. */
  function CloseIn(text: string): (r: Option<nat>)
    ensures r.Some? ==> r.value < |text| && text[r.value] == ']'
  {
    match LastNotIn(text, JSON_BLANKS, |text|)
    case Some(p) => if text[p] == ']' then Some(p) else None
    case None => None
  }

  /** Only blanks stand between a '[' and position `close`. */
  predicate OpensIn(text: string, close: nat)
    requires close <= |text|
  {
    match LastNotIn(text, JSON_BLANKS, close)
    case Some(q) => text[q] == '['
    case None => false
  }

  // ---- The file, edited in place ---------------------------------------

  class LogFile {
    var content: Option<string>

    constructor (content: Option<string>)
      ensures this.content == content
    {
      this.content := content;
    }

    /** `write_file` in append mode: creates the file when it is missing. */
    method WriteFile(text: string, disk: Disk)
      modifies this
      ensures content == Written(old(content), text, disk)
    {
      if disk.opensForAppend {
        content := Some(TextOf(content) + text);
      }
    }

    /** Looks for the closing bracket in the last 256 bytes; -1 when there is none. */
    method InspectTail(disk: Disk) returns (existingClose: int, existingIsEmptyArray: bool)
      ensures existingClose >= 0 <==> content.Some? && disk.readable && CloseOf(content.value).Some?
      ensures existingClose >= 0 ==>
                existingClose == CloseOf(content.value).value
                && existingIsEmptyArray == OpensBefore(content.value, existingClose)
    {
      hide FirstIn, LastIn, FirstNotIn, LastNotIn, CloseOf, OpensBefore;
      existingClose, existingIsEmptyArray := -1, false;
      if content.Some? && disk.readable {
        var text := content.value;
        var window := if |text| < WINDOW then |text| else WINDOW;
        var tail := text[|text| - window..];
        WindowShows(text, tail);
        var last := LastNotIn(tail, JSON_BLANKS, window);
        if last.Some? && tail[last.value] == ']' {
          existingClose := |text| - window + last.value;
          var prev := if last.value == 0 then None else LastNotIn(tail, JSON_BLANKS, last.value);
          assert prev == LastNotIn(tail, JSON_BLANKS, last.value);
          existingIsEmptyArray := prev.Some? && tail[prev.value] == '[';
          assert existingIsEmptyArray == OpensBefore(text, existingClose);
        }
      }
    }

    method AppendJsonArray(text: string, disk: Disk)
      modifies this
      ensures content == Saved(old(content), text, disk)
    {
      hide FirstIn, LastIn, FirstNotIn, LastNotIn, CloseOf, OpensBefore;
      var openBracket := FirstIn(text, {'['}, 0);
      var closeBracket := LastIn(text, {']'}, |text|);
      if openBracket.None? || closeBracket.None? || closeBracket.value < openBracket.value {
        WriteFile(text, disk);
        return;
      }
      var inner := text[openBracket.value + 1..closeBracket.value];
      var innerBegin := FirstNotIn(inner, JSON_BLANKS, 0);
      if innerBegin.None? {
        return;
      }
      InBehind(inner, JSON_BLANKS, |inner|);
      inner := inner[innerBegin.value..LastNotIn(inner, JSON_BLANKS, |inner|).value + 1];

      var existingClose, existingIsEmptyArray := InspectTail(disk);
      if existingClose < 0 {
        WriteFile("[\n" + inner + "\n]\n", disk);
        return;
      }
      if !disk.truncates {
        return;
      }
      content := Some(content.value[..existingClose]);
      if !disk.opensForAppend {
        return;
      }
      content := Some(content.value + (if existingIsEmptyArray then "" else ",\n") + inner + "\n]\n");
    }
  }

  /** The tail from `skip` on. */
  predicate IsTail(content: string, tail: string, skip: nat) {
    skip <= |content| && tail == content[skip..]
  }

  /** A non-blank of the tail is the last one of the whole file. */
  lemma TailLast(content: string, tail: string, skip: nat, end: nat, p: nat)
    requires IsTail(content, tail, skip) && end <= |tail| && LastNotIn(tail, JSON_BLANKS, end) == Some(p)
    ensures LastNotIn(content, JSON_BLANKS, skip + end) == Some(skip + p)
  {
    InBehind(tail, JSON_BLANKS, end);
    forall i | skip + p < i < skip + end ensures content[i] in JSON_BLANKS {
      assert tail[i - skip] == content[skip + (i - skip)];
    }
    assert tail[p] == content[skip + p];
    LastNotInIs(content, JSON_BLANKS, skip + end, skip + p);
  }

  /** A blank tail hides the last non-blank of the whole file. */
  lemma TailBlank(content: string, tail: string, skip: nat, end: nat)
    requires IsTail(content, tail, skip) && end <= |tail| && LastNotIn(tail, JSON_BLANKS, end) == None
    ensures LastNotIn(content, JSON_BLANKS, skip + end).Some? ==>
              LastNotIn(content, JSON_BLANKS, skip + end).value < skip
  {
    InBehind(tail, JSON_BLANKS, end);
    forall i | skip <= i < skip + end ensures content[i] in JSON_BLANKS {
      assert tail[i - skip] == content[i];
    }
  }

  lemma CloseShown(content: string, tail: string, skip: nat)
    requires IsTail(content, tail, skip) && |tail| == (if |content| < WINDOW then |content| else WINDOW)
    ensures CloseOf(content) == match CloseIn(tail) case Some(p) => Some(skip + p) case None => None
  {
    match LastNotIn(tail, JSON_BLANKS, |tail|)
    case Some(p) =>
      TailLast(content, tail, skip, |tail|, p);
      assert tail[p] == content[skip + p];
    case None =>
      TailBlank(content, tail, skip, |tail|);
  }

  lemma OpeningShown(content: string, tail: string, skip: nat, close: nat)
    requires IsTail(content, tail, skip) && |tail| == (if |content| < WINDOW then |content| else WINDOW)
    requires close <= |tail|
    ensures OpensBefore(content, skip + close) == OpensIn(tail, close)
  {
    match LastNotIn(tail, JSON_BLANKS, close)
    case Some(q) =>
      TailLast(content, tail, skip, close, q);
      assert tail[q] == content[skip + q];
    case None =>
      TailBlank(content, tail, skip, close);
  }

  /** The window shows the closing bracket, and what it closes, exactly as `CloseOf` and `OpensBefore` say. */
  lemma WindowShows(content: string, tail: string)
    requires |tail| == (if |content| < WINDOW then |content| else WINDOW) && tail == content[|content| - |tail|..]
    ensures match CloseIn(tail)
            case None => CloseOf(content) == None
            case Some(p) =>
              && CloseOf(content) == Some(|content| - |tail| + p)
              && OpensBefore(content, |content| - |tail| + p) == OpensIn(tail, p)
  {
    CloseShown(content, tail, |content| - |tail|);
    if CloseIn(tail).Some? {
      OpeningShown(content, tail, |content| - |tail|, CloseIn(tail).value);
    }
  }
}
