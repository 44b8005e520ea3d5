/** The parts of the C++ string library the program relies on, and the helpers of src/utils/utils.cc. */

module Wrappers {
  datatype Option<+T> = None | Some(value: T)

  datatype Result<+T> = Ok(value: T) | Err(error: string)
}

module Strings {
  import opened Wrappers

  const JSON_BLANKS: set<char> := {' ', '\t', '\r', '\n'}
  const ALL_BLANKS: set<char> := {' ', '\t', '\n', '\r', '\U{000C}', '\U{000B}'}

  // ---- Searching -------------------------------------------------------

  predicate OccursAt(s: string, pat: string, i: int) {
    0 <= i && i + |pat| <= |s| && s[i..i + |pat|] == pat
  }

  predicate Contains(s: string, pat: string) {
    Find(s, pat, 0).Some?
  }

  /** `s.find(pat, pos)`. */
  function Find(s: string, pat: string, pos: nat): (r: Option<nat>)
    ensures r.Some? ==> pos <= r.value && OccursAt(s, pat, r.value)
    decreases |s| - pos
  {
    if pos + |pat| > |s| then None
    else if OccursAt(s, pat, pos) then Some(pos)
    else Find(s, pat, pos + 1)
  }

  /** `s.find_first_of(cs, pos)`. */
  function FirstIn(s: string, cs: set<char>, pos: nat): (r: Option<nat>)
    ensures r.Some? ==> pos <= r.value < |s| && s[r.value] in cs
    decreases |s| - pos
  {
    if pos >= |s| then None else if s[pos] in cs then Some(pos) else FirstIn(s, cs, pos + 1)
  }

  /** `s.find_first_not_of(cs, pos)`. */
  function FirstNotIn(s: string, cs: set<char>, pos: nat): (r: Option<nat>)
    ensures r.Some? ==> pos <= r.value < |s| && s[r.value] !in cs
    decreases |s| - pos
  {
    if pos >= |s| then None else if s[pos] !in cs then Some(pos) else FirstNotIn(s, cs, pos + 1)
  }

  /** The last index below `end` holding a character of `cs`: `s.rfind`. */
  function LastIn(s: string, cs: set<char>, end: nat): (r: Option<nat>)
    requires end <= |s|
    ensures r.Some? ==> r.value < end && s[r.value] in cs
  {
    if end == 0 then None else if s[end - 1] in cs then Some(end - 1) else LastIn(s, cs, end - 1)
  }

  /** The last index below `end` holding a character outside `cs`: `s.find_last_not_of(cs, end - 1)`. */
  function LastNotIn(s: string, cs: set<char>, end: nat): (r: Option<nat>)
    requires end <= |s|
    ensures r.Some? ==> r.value < end && s[r.value] !in cs
  {
    if end == 0 then None else if s[end - 1] !in cs then Some(end - 1) else LastNotIn(s, cs, end - 1)
  }

  /** No occurrence is passed over. */
  lemma {:induction false} NoneBefore(s: string, pat: string, pos: nat)
    ensures var r := Find(s, pat, pos);
            forall i :: pos <= i && (r.Some? ==> i < r.value) ==> !OccursAt(s, pat, i)
    decreases |s| - pos
  {
    if pos + |pat| <= |s| && !OccursAt(s, pat, pos) {
      NoneBefore(s, pat, pos + 1);
    }
  }

  lemma {:induction false} NotInBefore(s: string, cs: set<char>, pos: nat)
    ensures var r := FirstIn(s, cs, pos);
            forall i :: pos <= i < (if r.Some? then r.value else |s|) ==> s[i] !in cs
    decreases |s| - pos
  {
    if pos < |s| && s[pos] !in cs {
      NotInBefore(s, cs, pos + 1);
    }
  }

  lemma {:induction false} InBefore(s: string, cs: set<char>, pos: nat)
    ensures var r := FirstNotIn(s, cs, pos);
            forall i :: pos <= i < (if r.Some? then r.value else |s|) ==> s[i] in cs
    decreases |s| - pos
  {
    if pos < |s| && s[pos] in cs {
      InBefore(s, cs, pos + 1);
    }
  }

  lemma {:induction false} NotInBehind(s: string, cs: set<char>, end: nat)
    requires end <= |s|
    ensures var r := LastIn(s, cs, end);
            forall i :: 0 <= i < end && (r.Some? ==> r.value < i) ==> s[i] !in cs
  {
    if end > 0 && s[end - 1] !in cs {
      NotInBehind(s, cs, end - 1);
    }
  }

  lemma {:induction false} InBehind(s: string, cs: set<char>, end: nat)
    requires end <= |s|
    ensures var r := LastNotIn(s, cs, end);
            forall i :: 0 <= i < end && (r.Some? ==> r.value < i) ==> s[i] in cs
  {
    if end > 0 && s[end - 1] in cs {
      InBehind(s, cs, end - 1);
    }
  }

  lemma OccursChars(s: string, pat: string, at: int)
    requires OccursAt(s, pat, at)
    ensures forall i :: 0 <= i < |pat| ==> s[at + i] == pat[i]
  {
    var slice := s[at..at + |pat|];
    assert forall i :: 0 <= i < |pat| ==> s[at + i] == slice[i];
  }

  lemma OccursSpan(s: string, pat: string, at: int)
    requires OccursAt(s, pat, at)
    ensures forall j :: at <= j < at + |pat| ==> s[j] == pat[j - at]
  {
    OccursChars(s, pat, at);
    forall j | at <= j < at + |pat| ensures s[j] == pat[j - at] {
      assert s[at + (j - at)] == pat[j - at];
    }
  }

  lemma FindIs(s: string, pat: string, x: nat)
    requires OccursAt(s, pat, x) && forall i :: 0 <= i < x ==> !OccursAt(s, pat, i)
    ensures Find(s, pat, 0) == Some(x)
  {
    NoneBefore(s, pat, 0);
  }

  lemma FindFromIs(s: string, pat: string, pos: nat, x: nat)
    requires pos <= x && OccursAt(s, pat, x) && forall i :: pos <= i < x ==> !OccursAt(s, pat, i)
    ensures Find(s, pat, pos) == Some(x)
  {
    NoneBefore(s, pat, pos);
  }

  lemma OccursContains(s: string, pat: string, i: nat)
    requires OccursAt(s, pat, i)
    ensures Contains(s, pat)
  {
    NoneBefore(s, pat, 0);
  }

  lemma FirstInIs(s: string, cs: set<char>, pos: nat, at: nat)
    requires pos <= at < |s| && s[at] in cs && forall k :: pos <= k < at ==> s[k] !in cs
    ensures FirstIn(s, cs, pos) == Some(at)
  {
    NotInBefore(s, cs, pos);
  }

  lemma FirstNotInIs(s: string, cs: set<char>, pos: nat, at: nat)
    requires pos <= at < |s| && s[at] !in cs && forall k :: pos <= k < at ==> s[k] in cs
    ensures FirstNotIn(s, cs, pos) == Some(at)
  {
    InBefore(s, cs, pos);
  }

  lemma LastInIs(s: string, cs: set<char>, end: nat, at: nat)
    requires at < end <= |s| && s[at] in cs && forall k :: at < k < end ==> s[k] !in cs
    ensures LastIn(s, cs, end) == Some(at)
  {
    NotInBehind(s, cs, end);
  }

  lemma LastNotInIs(s: string, cs: set<char>, end: nat, at: nat)
    requires at < end <= |s| && s[at] !in cs && forall k :: at < k < end ==> s[k] in cs
    ensures LastNotIn(s, cs, end) == Some(at)
  {
    InBehind(s, cs, end);
  }

  lemma FirstInBehind(front: string, cs: set<char>, rest: string)
    requires (forall i :: 0 <= i < |front| ==> front[i] !in cs) && rest != "" && rest[0] in cs
    ensures FirstIn(front + rest, cs, 0) == Some(|front|)
  {
    FirstInIs(front + rest, cs, 0, |front|);
  }

  lemma LastInBefore(front: string, cs: set<char>, rest: string)
    requires front != "" && front[|front| - 1] in cs && forall i :: 0 <= i < |rest| ==> rest[i] !in cs
    ensures LastIn(front + rest, cs, |front + rest|) == Some(|front| - 1)
  {
    LastInIs(front + rest, cs, |front + rest|, |front| - 1);
  }

  /** An occurrence inside a slice is an occurrence in the whole, and back. */
  lemma OccursInSlice(s: string, pat: string, lo: nat, hi: nat, i: nat)
    requires lo <= hi <= |s| && i + |pat| <= hi - lo
    ensures OccursAt(s[lo..hi], pat, i) <==> OccursAt(s, pat, lo + i)
  {
    var inner, outer := s[lo..hi][i..i + |pat|], s[lo + i..lo + i + |pat|];
    assert forall k :: 0 <= k < |pat| ==> inner[k] == outer[k];
    assert inner == outer;
  }

  // ---- Trimming --------------------------------------------------------

  predicate Blank(s: string, blanks: set<char>) {
    forall i :: 0 <= i < |s| ==> s[i] in blanks
  }

  /** The blanks of JSON (section 2 of RFC 8259), and those of `str_trim` and `isspace`. */
  lemma BlanksAre(c: char)
    ensures c in JSON_BLANKS <==> c == ' ' || c == '\t' || c == '\n' || c == '\r'
    ensures c in ALL_BLANKS <==> c in JSON_BLANKS || c == '\U{000B}' || c == '\U{000C}'
  {
  }

  /** Neither end of `s` is blank. */
  predicate Tight(s: string, blanks: set<char>) {
    s == "" || (s[0] !in blanks && s[|s| - 1] !in blanks)
  }

  /** `str_trim`, for any set of blanks. */
  function Trim(s: string, blanks: set<char>): (r: string)
    ensures Tight(r, blanks)
    ensures r == "" <==> Blank(s, blanks)
  {
    InBefore(s, blanks, 0);
    match FirstNotIn(s, blanks, 0)
    case None => ""
    case Some(first) =>
      InBehind(s, blanks, |s|);
      var last := LastNotIn(s, blanks, |s|).value;
      s[first..last + 1]
  }

  /** Trimming removes exactly the blanks around a tight text. */
  lemma TrimPadded(before: string, s: string, after: string, blanks: set<char>)
    requires Blank(before, blanks) && Blank(after, blanks) && Tight(s, blanks)
    ensures Trim(before + s + after, blanks) == s
  {
    var t := before + s + after;
    if s == "" {
      assert Blank(t, blanks);
    } else {
      assert t[|before|] == s[0];
      assert t[|before| + |s| - 1] == s[|s| - 1];
      assert forall i :: 0 <= i < |before| ==> t[i] == before[i];
      assert forall i :: |before| + |s| <= i < |t| ==> t[i] == after[i - |before| - |s|];
      FirstNotInIs(t, blanks, 0, |before|);
      LastNotInIs(t, blanks, |t|, |before| + |s| - 1);
    }
  }
}
