/** `str_split` of src/utils/utils.cc. */
module StrSplit {
  import opened Wrappers
  import opened Strings

  /** The tokens of `s` from `pos` on. */
  function SplitFrom(s: string, delimiter: string, pos: nat): (r: seq<string>)
    requires delimiter != "" && pos <= |s|
    ensures r != []
    decreases |s| - pos
  {
    match Find(s, delimiter, pos)
    case None => [s[pos..]]
    case Some(end) => [s[pos..end]] + SplitFrom(s, delimiter, end + |delimiter|)
  }

  function Split(s: string, delimiter: string): (r: seq<string>)
    requires delimiter != ""
    ensures r != []
  {
    SplitFrom(s, delimiter, 0)
  }

  function Join(tokens: seq<string>, delimiter: string): string {
    if tokens == [] then ""
    else if |tokens| == 1 then tokens[0]
    else tokens[0] + delimiter + Join(tokens[1..], delimiter)
  }

  method StrSplit(s: string, delimiter: string) returns (res: seq<string>)
    requires delimiter != ""
    ensures res == Split(s, delimiter)
  {
    hide SplitFrom;
    var posStart := 0;
    res := [];
    ghost var rest := SplitFrom(s, delimiter, 0);  // the tokens still to come
    var posEnd := Find(s, delimiter, posStart);
    while posEnd.Some?
      invariant posStart <= |s| && posEnd == Find(s, delimiter, posStart)
      invariant rest == SplitFrom(s, delimiter, posStart) && res + rest == Split(s, delimiter)
      decreases |s| - posStart
    {
      var token := s[posStart..posEnd.value];
      SplitStep(s, delimiter, posStart, posEnd.value);
      posStart := posEnd.value + |delimiter|;
      rest := SplitFrom(s, delimiter, posStart);
      Regroup(res, token, rest);
      res := res + [token];
      posEnd := Find(s, delimiter, posStart);
    }
    SplitEnd(s, delimiter, posStart);
    res := res + [s[posStart..]];
  }

  lemma SplitStep(s: string, delimiter: string, pos: nat, at: nat)
    requires delimiter != "" && Find(s, delimiter, pos) == Some(at)
    ensures SplitFrom(s, delimiter, pos) == [s[pos..at]] + SplitFrom(s, delimiter, at + |delimiter|)
  {
  }

  lemma SplitEnd(s: string, delimiter: string, pos: nat)
    requires delimiter != "" && pos <= |s| && Find(s, delimiter, pos) == None
    ensures SplitFrom(s, delimiter, pos) == [s[pos..]]
  {
  }

  lemma Regroup(res: seq<string>, token: string, rest: seq<string>)
    ensures res + ([token] + rest) == res + [token] + rest
  {
  }

  // ---- Splitting and joining -------------------------------------------

  lemma JoinCons(token: string, rest: seq<string>, delimiter: string)
    requires rest != []
    ensures Join([token] + rest, delimiter) == token + delimiter + Join(rest, delimiter)
  {
    assert ([token] + rest)[1..] == rest;
  }

  lemma CutTwice(s: string, delimiter: string, pos: nat, end: nat)
    requires pos <= end && OccursAt(s, delimiter, end)
    ensures s[pos..] == s[pos..end] + delimiter + s[end + |delimiter|..]
  {
    assert s[end..end + |delimiter|] == delimiter;
  }

  lemma {:induction false} JoinSplitFrom(s: string, delimiter: string, pos: nat)
    requires delimiter != "" && pos <= |s|
    ensures Join(SplitFrom(s, delimiter, pos), delimiter) == s[pos..]
    decreases |s| - pos
  {
    var found := Find(s, delimiter, pos);
    if found.Some? {
      var end := found.value;
      JoinSplitFrom(s, delimiter, end + |delimiter|);
      JoinCons(s[pos..end], SplitFrom(s, delimiter, end + |delimiter|), delimiter);
      CutTwice(s, delimiter, pos, end);
    }
  }

  /** Joining the tokens with the delimiter gives the string back. */
  lemma JoinSplit(s: string, delimiter: string)
    requires delimiter != ""
    ensures Join(Split(s, delimiter), delimiter) == s
  {
    JoinSplitFrom(s, delimiter, 0);
    assert s[0..] == s;
  }

  lemma TokenIsFree(s: string, delimiter: string, lo: nat, hi: nat)
    requires delimiter != "" && lo <= hi <= |s|
    requires forall i :: lo <= i < hi ==> !OccursAt(s, delimiter, i)
    ensures !Contains(s[lo..hi], delimiter)
  {
    var found := Find(s[lo..hi], delimiter, 0);
    if found.Some? {
      OccursInSlice(s, delimiter, lo, hi, found.value);
    }
  }

  /** No token contains the delimiter. */
  lemma {:induction false} TokensAreFree(s: string, delimiter: string, pos: nat, k: nat)
    requires delimiter != "" && pos <= |s| && k < |SplitFrom(s, delimiter, pos)|
    ensures !Contains(SplitFrom(s, delimiter, pos)[k], delimiter)
    decreases |s| - pos
  {
    hide Find;
    var found := Find(s, delimiter, pos);
    NoneBefore(s, delimiter, pos);
    if found.None? {
      TokenIsFree(s, delimiter, pos, |s|);
      assert s[pos..] == s[pos..|s|];
    } else if k == 0 {
      TokenIsFree(s, delimiter, pos, found.value);
    } else {
      TokensAreFree(s, delimiter, found.value + |delimiter|, k - 1);
    }
  }

  /** A token without the character `c`. */
  predicate Free(token: string, c: char) {
    forall i :: 0 <= i < |token| ==> token[i] != c
  }

  lemma OneAt(s: string, c: char, i: int)
    ensures OccursAt(s, [c], i) <==> 0 <= i < |s| && s[i] == c
  {
    if 0 <= i < |s| {
      assert s[i..i + 1] == [s[i]];
    }
  }

  lemma FreeOfOne(token: string, c: char)
    requires !Contains(token, [c])
    ensures Free(token, c)
  {
    NoneBefore(token, [c], 0);
    forall i | 0 <= i < |token| ensures token[i] != c {
      OneAt(token, c, i);
    }
  }

  lemma FindOne(s: string, c: char, pos: nat, at: nat)
    requires pos <= at < |s| && s[at] == c && forall i :: pos <= i < at ==> s[i] != c
    ensures Find(s, [c], pos) == Some(at)
  {
    OneAt(s, c, at);
    forall i | pos <= i < at ensures !OccursAt(s, [c], i) {
      OneAt(s, c, i);
    }
    FindFromIs(s, [c], pos, at);
  }

  lemma FindNone(s: string, c: char, pos: nat)
    requires forall i :: pos <= i < |s| ==> s[i] != c
    ensures Find(s, [c], pos) == None
  {
    var found := Find(s, [c], pos);
    if found.Some? {
      OneAt(s, c, found.value);
    }
  }

  /** The parts of a text that starts with a token and the delimiter. */
  lemma Parts(s: string, pos: nat, token: string, c: char, rest: string)
    requires pos <= |s| && s[pos..] == token + [c] + rest
    ensures var at := pos + |token|;
            && at < |s| && s[at] == c && s[pos..at] == token && s[at + 1..] == rest
            && forall i :: pos <= i < at ==> s[i] == token[i - pos]
  {
    var tail := s[pos..];
    assert tail[|token|] == c && tail[..|token|] == token && tail[|token| + 1..] == rest;
  }

  lemma {:induction false} SplitJoinFrom(s: string, pos: nat, tokens: seq<string>, c: char)
    requires tokens != [] && forall k :: 0 <= k < |tokens| ==> Free(tokens[k], c)
    requires pos <= |s| && s[pos..] == Join(tokens, [c])
    ensures SplitFrom(s, [c], pos) == tokens
    decreases |tokens|
  {
    hide OccursAt;
    if |tokens| == 1 {
      assert forall i :: pos <= i < |s| ==> s[i] == s[pos..][i - pos];
      FindNone(s, c, pos);
      SplitEnd(s, [c], pos);
    } else {
      var at := pos + |tokens[0]|;
      Parts(s, pos, tokens[0], c, Join(tokens[1..], [c]));
      FindOne(s, c, pos, at);
      SplitStep(s, [c], pos, at);
      SplitJoinFrom(s, at + 1, tokens[1..], c);
      assert [tokens[0]] + tokens[1..] == tokens;
    }
  }

  /** For a one-character delimiter, splitting a join of free tokens gives the tokens back. */
  lemma SplitJoin(tokens: seq<string>, c: char)
    requires tokens != [] && forall k :: 0 <= k < |tokens| ==> Free(tokens[k], c)
    ensures Split(Join(tokens, [c]), [c]) == tokens
  {
    var s := Join(tokens, [c]);
    assert s[0..] == s;
    SplitJoinFrom(s, 0, tokens, c);
  }

  lemma SplitIsFree(s: string, c: char)
    ensures forall k :: 0 <= k < |Split(s, [c])| ==> Free(Split(s, [c])[k], c)
  {
    forall k | 0 <= k < |Split(s, [c])| ensures Free(Split(s, [c])[k], c) {
      TokensAreFree(s, [c], 0, k);
      FreeOfOne(Split(s, [c])[k], c);
    }
  }
}
