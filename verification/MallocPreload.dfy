/** The LD_PRELOAD rewrite of tools/optkit-setenv/memory.cc. */
module MallocPreload {
  import opened Wrappers
  import opened Strings
  import opened StrSplit

  datatype Backend = Glibc | Jemalloc | Tcmalloc

  const JEMALLOC: string := "jemalloc"
  const TCMALLOC: string := "tcmalloc"
  const LIB: string := "/usr/lib/x86_64-linux-gnu/lib"
  const JEMALLOC_PATH: string := LIB + JEMALLOC + ".so.2"
  const TCMALLOC_PATH: string := LIB + TCMALLOC + ".so.4"

  predicate IsAllocator(lib: string) {
    Contains(lib, JEMALLOC) || Contains(lib, TCMALLOC)
  }

  // ---- Specification on the entries ------------------------------------

  function Others(entries: seq<string>): seq<string> {
    if entries == [] then []
    else
      var n := |entries| - 1;
      Others(entries[..n]) + if IsAllocator(entries[n]) then [] else [entries[n]]
  }

  predicate EndsEmpty(entries: seq<string>) {
    entries != [] && entries[|entries| - 1] == ""
  }

  /** One empty entry at the end does not count. */
  function Counted(entries: seq<string>): seq<string> {
    if EndsEmpty(entries) then entries[..|entries| - 1] else entries
  }

  function Entries(value: string): seq<string> {
    Counted(Split(value, ":"))
  }

  /** The entries that survive: those that name no allocator. */
  function Kept(preload: Option<string>): seq<string> {
    match preload
    case None => []
    case Some(value) => Others(Entries(value))
  }

  function Added(backend: Backend): seq<string> {
    match backend
    case Glibc => []
    case Jemalloc => [JEMALLOC_PATH]
    case Tcmalloc => [TCMALLOC_PATH]
  }

  /** The surviving entries, unless nothing or only an empty entry is left of them. */
  function Base(preload: Option<string>): seq<string> {
    if Join(Kept(preload), ":") == "" then [] else Kept(preload)
  }

  /** LD_PRELOAD after `set_malloc_backend`; None when it is unset. */
  function Rewritten(preload: Option<string>, backend: Backend): Option<string> {
    var value := Join(Base(preload) + Added(backend), ":");
    if value == "" then None else Some(value)
  }

  function BackendOf(preload: Option<string>): Backend {
    if preload.None? || preload.value == "" then Glibc
    else if Contains(preload.value, JEMALLOC) then Jemalloc
    else if Contains(preload.value, TCMALLOC) then Tcmalloc
    else Glibc
  }

  lemma JoinNone()
    ensures Join([], ":") == ""
  {
  }

  // ---- The loops -------------------------------------------------------

  class Memory {
    var ldPreload: Option<string>
    var mallocBackend: Backend

    constructor (ldPreload: Option<string>)
      ensures this.ldPreload == ldPreload
    {
      this.ldPreload, mallocBackend := ldPreload, Glibc;
    }

    method SetMallocBackend(backend: Backend)
      modifies this
      ensures ldPreload == Rewritten(old(ldPreload), backend)
      ensures mallocBackend == backend
    {
      var newPreload := "";
      if ldPreload.Some? {
        var libs := KeepLibraries(ldPreload.value);
        newPreload := JoinLibraries(libs);
      }
      BaseJoins(ldPreload, Added(backend));
      match backend {
        case Glibc =>
        case Jemalloc =>
          if newPreload != "" {
            newPreload := newPreload + ":";
          }
          newPreload := newPreload + JEMALLOC_PATH;
        case Tcmalloc =>
          if newPreload != "" {
            newPreload := newPreload + ":";
          }
          newPreload := newPreload + TCMALLOC_PATH;
      }
      assert newPreload == Join(Base(ldPreload) + Added(backend), ":");
      ldPreload := if newPreload == "" then None else Some(newPreload);
      mallocBackend := backend;
    }

    method KeepLibraries(value: string) returns (libs: seq<string>)
      ensures libs == Others(Entries(value))
    {
      var preload := value;
      libs := [];
      ghost var done, rest: seq<string> := [], Split(value, ":");  // the entries erased so far, and the others
      var pos := Find(preload, ":", 0);
      while pos.Some?
        invariant pos == Find(preload, ":", 0)
        invariant rest == Split(preload, ":") && done + rest == Split(value, ":")
        invariant libs == Others(done)
        decreases |preload|
      {
        var lib := preload[..pos.value];
        libs := Keep(libs, lib);
        EraseFront(preload, pos.value);
        preload := preload[pos.value + 1..];
        rest := Split(preload, ":");
        OthersSnoc(done, lib);
        Regroup(done, lib, rest);
        done := done + [lib];
        pos := Find(preload, ":", 0);
      }
      OneToken(preload);
      LastEntry(value, done, preload);
      if preload != "" {
        libs := Keep(libs, preload);
      }
    }

    /** One more library, unless it is an allocator. */
    static method Keep(libs: seq<string>, lib: string) returns (kept: seq<string>)
      ensures kept == libs + if IsAllocator(lib) then [] else [lib]
    {
      kept := libs;
      if !Contains(lib, JEMALLOC) && !Contains(lib, TCMALLOC) {
        kept := kept + [lib];
      }
    }

    method JoinLibraries(libs: seq<string>) returns (value: string)
      ensures value == Join(libs, ":")
    {
      hide Join;
      value := "";
      JoinNone();
      assert libs[..0] == [];
      for i := 0 to |libs|
        invariant value == Join(libs[..i], ":") + if 0 < i < |libs| then ":" else ""
      {
        JoinSnoc(libs[..i], libs[i]);
        assert libs[..i + 1] == libs[..i] + [libs[i]];
        value := value + libs[i];
        if i < |libs| - 1 {
          value := value + ":";
        }
      }
      assert libs[..|libs|] == libs;
    }

    method GetMallocBackend() returns (backend: Backend)
      ensures backend == BackendOf(ldPreload)
    {
      if ldPreload.None? || |ldPreload.value| == 0 {
        return Glibc;
      }
      var preload := ldPreload.value;
      if Contains(preload, JEMALLOC) {
        return Jemalloc;
      }
      if Contains(preload, TCMALLOC) {
        return Tcmalloc;
      }
      return Glibc;
    }
  }

  lemma {:induction false} JoinSnoc(tokens: seq<string>, token: string)
    ensures Join(tokens + [token], ":") == if tokens == [] then token else Join(tokens, ":") + ":" + token
  {
    if tokens == [] {
      assert tokens + [token] == [token];
    } else {
      JoinSnoc(tokens[1..], token);
      assert (tokens + [token])[1..] == tokens[1..] + [token];
    }
  }

  lemma OthersSnoc(entries: seq<string>, lib: string)
    ensures Others(entries + [lib]) == Others(entries) + if IsAllocator(lib) then [] else [lib]
  {
    assert (entries + [lib])[..|entries|] == entries;
  }

  /** Erasing the first entry and its ':' leaves the rest of the tokens. */
  lemma EraseFront(s: string, at: nat)
    requires Find(s, ":", 0) == Some(at)
    ensures at < |s| && Split(s, ":") == [s[..at]] + Split(s[at + 1..], ":")
  {
    SplitStep(s, ":", 0, at);
    assert s[0..at] == s[..at];
    JoinSplit(s[at + 1..], ":");
    assert ":" == [':'];
    SplitIsFree(s[at + 1..], ':');
    SplitJoinFrom(s, at + 1, Split(s[at + 1..], ":"), ':');
  }

  lemma OneToken(s: string)
    requires Find(s, ":", 0) == None
    ensures Split(s, ":") == [s]
  {
    SplitEnd(s, ":", 0);
    assert s[0..] == s;
  }

  lemma LastEntry(value: string, done: seq<string>, last: string)
    requires Split(value, ":") == done + [last]
    ensures Others(Entries(value)) == Others(done) + if last == "" || IsAllocator(last) then [] else [last]
  {
    OthersSnoc(done, last);
    assert (done + [last])[..|done|] == done;
  }

  /** Joining the base with what is added is what the code builds piece by piece. */
  lemma BaseJoins(preload: Option<string>, added: seq<string>)
    requires |added| <= 1
    ensures var kept := Join(Kept(preload), ":");
            Join(Base(preload) + added, ":")
            == if added == [] then kept else if kept == "" then added[0] else kept + ":" + added[0]
  {
    if |added| == 1 {
      JoinSnoc(Base(preload), added[0]);
      assert added == [added[0]];
    } else {
      assert Base(preload) + added == Base(preload);
    }
  }

  // ---- No match straddles a join ---------------------------------------

  lemma NoMatchAcross(a: string, b: string, pat: string)
    requires pat != "" && Free(pat, ':') && !Contains(a, pat) && !Contains(b, pat)
    ensures !Contains(a + ":" + b, pat)
  {
    hide Find;
    var t := a + ":" + b;
    var found := Find(t, pat, 0);
    NoneBefore(a, pat, 0);
    NoneBefore(b, pat, 0);
    if found.Some? {
      var q := found.value;
      OccursSpan(t, pat, q);
      assert t[|a|] == ':';
      if q + |pat| <= |a| {
        assert t[0..|a|] == a;
        OccursInSlice(t, pat, 0, |a|, q);
      } else if q > |a| {
        assert t[|a| + 1..|t|] == b;
        OccursInSlice(t, pat, |a| + 1, |t|, q - |a| - 1);
      }
    }
  }

  lemma {:induction false} JoinLacks(tokens: seq<string>, pat: string)
    requires pat != "" && Free(pat, ':') && forall k :: 0 <= k < |tokens| ==> !Contains(tokens[k], pat)
    ensures !Contains(Join(tokens, ":"), pat)
  {
    if |tokens| > 1 {
      JoinLacks(tokens[1..], pat);
      NoMatchAcross(tokens[0], Join(tokens[1..], ":"), pat);
    }
  }

  lemma ContainsBehind(a: string, b: string, pat: string)
    requires Contains(b, pat)
    ensures Contains(a + b, pat)
  {
    var i := Find(b, pat, 0).value;
    var t := a + b;
    assert t[|a|..|t|] == b;
    OccursInSlice(t, pat, |a|, |t|, i);
    OccursContains(t, pat, |a| + i);
  }

  lemma JoinHasLast(tokens: seq<string>, last: string, pat: string)
    requires Contains(last, pat)
    ensures Contains(Join(tokens + [last], ":"), pat)
  {
    JoinSnoc(tokens, last);
    if tokens != [] {
      ContainsBehind(Join(tokens, ":") + ":", last, pat);
    }
  }

  lemma FreeConcat(a: string, b: string, c: char)
    requires Free(a, c) && Free(b, c)
    ensures Free(a + b, c)
  {
  }

  lemma ContainsMiddle(a: string, pat: string, b: string)
    ensures Contains(a + pat + b, pat)
  {
    var t := a + pat + b;
    assert t[|a|..|a| + |pat|] == pat;
    OccursContains(t, pat, |a|);
  }

  /** A text that lacks a character of the pattern lacks the pattern. */
  lemma LacksChar(s: string, pat: string, k: nat)
    requires k < |pat| && Free(s, pat[k])
    ensures !Contains(s, pat)
  {
    var found := Find(s, pat, 0);
    if found.Some? {
      OccursChars(s, pat, found.value);
    }
  }

  lemma Names()
    ensures Free(LIB, ':') && Free(JEMALLOC, ':') && Free(TCMALLOC, ':') && Free(".so.2", ':') && Free(".so.4", ':')
    ensures Free(LIB, 'j') && Free(TCMALLOC, 'j') && Free(".so.4", 'j') && JEMALLOC[0] == 'j'
  {
  }

  lemma Paths()
    ensures Contains(JEMALLOC_PATH, JEMALLOC) && Contains(TCMALLOC_PATH, TCMALLOC) && !Contains(TCMALLOC_PATH, JEMALLOC)
    ensures Free(JEMALLOC_PATH, ':') && Free(TCMALLOC_PATH, ':') && Free(JEMALLOC, ':') && Free(TCMALLOC, ':')
  {
    Names();
    ContainsMiddle(LIB, JEMALLOC, ".so.2");
    ContainsMiddle(LIB, TCMALLOC, ".so.4");
    FreeConcat(LIB + TCMALLOC, ".so.4", 'j');
    LacksChar(TCMALLOC_PATH, JEMALLOC, 0);
  }

  // ---- What survives ---------------------------------------------------

  predicate Plain(lib: string) {
    Free(lib, ':') && !IsAllocator(lib)
  }

  predicate AllPlain(entries: seq<string>) {
    forall k :: 0 <= k < |entries| ==> Plain(entries[k])
  }

  lemma {:induction false} OthersPlain(entries: seq<string>)
    requires forall k :: 0 <= k < |entries| ==> Free(entries[k], ':')
    ensures AllPlain(Others(entries))
  {
    if entries != [] {
      OthersPlain(entries[..|entries| - 1]);
    }
  }

  lemma {:induction false} OthersOfPlain(entries: seq<string>)
    requires AllPlain(entries)
    ensures Others(entries) == entries
  {
    if entries != [] {
      OthersOfPlain(entries[..|entries| - 1]);
      assert Plain(entries[|entries| - 1]);
    }
  }

  lemma KeptPlain(preload: Option<string>)
    ensures AllPlain(Kept(preload)) && AllPlain(Base(preload))
  {
    if preload.Some? {
      assert ":" == [':'];
      SplitIsFree(preload.value, ':');
      OthersPlain(Entries(preload.value));
    }
  }

  /** `get_malloc_backend` after `set_malloc_backend(b)` returns b, whatever LD_PRELOAD was. */
  lemma GetAfterSet(preload: Option<string>, backend: Backend)
    ensures BackendOf(Rewritten(preload, backend)) == backend
  {
    var base := Base(preload);
    KeptPlain(preload);
    Paths();
    match backend {
      case Glibc =>
        assert base + [] == base;
        forall k | 0 <= k < |base| ensures !Contains(base[k], JEMALLOC) && !Contains(base[k], TCMALLOC) {
          assert Plain(base[k]);
        }
        JoinLacks(base, JEMALLOC);
        JoinLacks(base, TCMALLOC);
      case Jemalloc =>
        JoinHasLast(base, JEMALLOC_PATH, JEMALLOC);
      case Tcmalloc =>
        JoinHasLast(base, TCMALLOC_PATH, TCMALLOC);
        var all := base + [TCMALLOC_PATH];
        forall k | 0 <= k < |all| ensures !Contains(all[k], JEMALLOC) {
          assert k < |base| ==> Plain(base[k]);
        }
        JoinLacks(all, JEMALLOC);
    }
  }

  lemma ListNonempty(preload: Option<string>, backend: Backend)
    ensures Rewritten(preload, backend) == None <==> Base(preload) + Added(backend) == []
  {
    BaseJoins(preload, Added(backend));
  }

  /** The entries of the new value are the base, in order, and then the backend's library. The base is every
      surviving entry, except that a single empty one is dropped. */
  lemma EntriesSurvive(preload: Option<string>, backend: Backend)
    ensures match Rewritten(preload, backend)
            case None => Base(preload) + Added(backend) == []
            case Some(value) => Split(value, ":") == Base(preload) + Added(backend)
    ensures Base(preload) == Kept(preload) || (Base(preload) == [] && Kept(preload) == [""])
  {
    var list := Base(preload) + Added(backend);
    ListNonempty(preload, backend);
    KeptPlain(preload);
    Paths();
    if list != [] {
      forall k | 0 <= k < |list| ensures Free(list[k], ':') {
        assert k < |Base(preload)| ==> Plain(Base(preload)[k]);
      }
      assert ":" == [':'];
      SplitJoin(list, ':');
    }
    if |Kept(preload)| > 1 {
      assert Join(Kept(preload), ":") != "";
    }
  }

  // ---- Setting twice ---------------------------------------------------

  lemma KeptAgain(preload: Option<string>, backend: Backend)
    ensures Kept(Rewritten(preload, backend)) == Others(Counted(Base(preload) + Added(backend)))
  {
    hide Base, Added, Rewritten, Split;
    EntriesSurvive(preload, backend);
  }

  lemma AddedShape(backend: Backend)
    ensures backend == Glibc ==> Added(backend) == []
    ensures backend != Glibc ==>
              |Added(backend)| == 1 && Added(backend)[0] != "" && IsAllocator(Added(backend)[0])
  {
    Paths();
  }

  lemma LastDropped(base: seq<string>)
    requires AllPlain(base)
    ensures Others(Counted(base)) == if EndsEmpty(base) then base[..|base| - 1] else base
  {
    OthersOfPlain(Counted(base));
  }

  lemma LastKept(base: seq<string>, path: string)
    requires path != ""
    ensures Counted(base + [path]) == base + [path]
  {
  }

  /** What survives of a rewritten value. */
  lemma KeptAfter(preload: Option<string>, backend: Backend)
    ensures var base := Base(preload);
            Kept(Rewritten(preload, backend))
            == if backend == Glibc && EndsEmpty(base) then base[..|base| - 1] else base
  {
    hide *;
    var base := Base(preload);
    KeptPlain(preload);
    OthersOfPlain(base);
    KeptAgain(preload, backend);
    AddedShape(backend);
    if backend == Glibc {
      assert base + [] == base;
      LastDropped(base);
    } else {
      var path := Added(backend)[0];
      OthersSnoc(base, path);
      assert Added(backend) == [path];
      LastKept(base, path);
    }
  }

  lemma BaseOfBase(preload: Option<string>, again: Option<string>)
    requires Kept(again) == Base(preload)
    ensures Base(again) == Base(preload)
  {
  }

  lemma JoinDropsColon(entries: seq<string>)
    requires EndsEmpty(entries) && Join(entries, ":") != ""
    ensures |entries| > 1 && Join(entries, ":") == Join(entries[..|entries| - 1], ":") + ":"
  {
    var kept := entries[..|entries| - 1];
    assert entries == kept + [""];
    JoinSnoc(kept, "");
  }

  /** What the code writes for a joined list `kept` and at most one addition. */
  function Value(kept: string, added: seq<string>): string {
    if added == [] then kept else if kept == "" then added[0] else kept + ":" + added[0]
  }

  lemma RewrittenValue(preload: Option<string>, backend: Backend)
    ensures var value := Value(Join(Kept(preload), ":"), Added(backend));
            Rewritten(preload, backend) == if value == "" then None else Some(value)
  {
    BaseJoins(preload, Added(backend));
  }

  lemma ColonShows(kept: string, added: seq<string>)
    ensures |Value(kept + ":", added)| > |Value(kept, added)|
  {
  }

  /** Dropping an empty last entry loses the ':' before it. */
  lemma Shorter(preload: Option<string>, again: Option<string>, backend: Backend)
    requires EndsEmpty(Base(preload)) && Kept(again) == Base(preload)[..|Base(preload)| - 1]
    ensures Rewritten(again, backend) != Rewritten(preload, backend)
  {
    RewrittenValue(preload, backend);
    RewrittenValue(again, backend);
    JoinDropsColon(Base(preload));
    ColonShows(Join(Kept(again), ":"), Added(backend));
  }

  /** Setting b1 and then b2 is the same as setting b2 alone, unless b1 is the default backend and the surviving
      entries end with an empty one: that entry is lost when the value is split again. */
  lemma SetTwiceIff(preload: Option<string>, b1: Backend, b2: Backend)
    ensures Rewritten(Rewritten(preload, b1), b2) == Rewritten(preload, b2)
            <==> !(b1 == Glibc && EndsEmpty(Base(preload)))
  {
    KeptAfter(preload, b1);
    var again := Rewritten(preload, b1);
    if b1 == Glibc && EndsEmpty(Base(preload)) {
      Shorter(preload, again, b2);
    } else {
      BaseOfBase(preload, again);
    }
  }

  lemma {:induction false} OthersFrom(entries: seq<string>, k: nat)
    requires k < |Others(entries)|
    ensures Others(entries)[k] in entries
  {
    if k < |Others(entries[..|entries| - 1])| {
      OthersFrom(entries[..|entries| - 1], k);
    }
  }

  /** In particular when no entry of the value is empty. */
  lemma SetTwice(preload: Option<string>, b1: Backend, b2: Backend)
    requires preload.Some? ==> "" !in Split(preload.value, ":")
    ensures Rewritten(Rewritten(preload, b1), b2) == Rewritten(preload, b2)
  {
    SetTwiceIff(preload, b1, b2);
    var base := Base(preload);
    if EndsEmpty(base) {
      OthersFrom(Entries(preload.value), |base| - 1);
    }
  }

  /** An empty entry at the end of what survives is lost when the value is rewritten twice. */
  lemma EmptyEntryLost(lib: string)
    requires Plain(lib) && lib != ""
    ensures var preload := Some(Join([lib, "", ""], ":"));
            Rewritten(Rewritten(preload, Glibc), Glibc) != Rewritten(preload, Glibc)
  {
    var tokens, preload := [lib, "", ""], Some(Join([lib, "", ""], ":"));
    assert ":" == [':'];
    SplitJoin(tokens, ':');
    assert Entries(preload.value) == [lib, ""];
    NoAllocator("");
    OthersOfPlain([lib, ""]);
    JoinSnoc([lib], "");
    assert [lib] + [""] == [lib, ""];
    SetTwiceIff(preload, Glibc, Glibc);
  }

  /** For example "a::": setting the default backend gives "a:" at first, and "a" when it is set again. */
  lemma SetTwiceFails()
    ensures Rewritten(Rewritten(Some("a::"), Glibc), Glibc) != Rewritten(Some("a::"), Glibc)
  {
    NoAllocator("a");
    EmptyEntryLost("a");
    JoinedExample();
  }

  lemma JoinedExample()
    ensures Join(["a", "", ""], ":") == "a::"
  {
    assert ["a", "", ""][1..] == ["", ""];
    assert Join(["", ""], ":") == ":" by {
      assert ["", ""][1..] == [""];
    }
  }

  lemma NoAllocator(lib: string)
    requires |lib| < 8
    ensures !IsAllocator(lib)
  {
  }

  // ---- Entry by entry --------------------------------------------------

  /** Neither name stands anywhere in the entry. */
  ghost predicate NamesNone(entry: string) {
    forall i :: !OccursAt(entry, "jemalloc", i) && !OccursAt(entry, "tcmalloc", i)
  }

  lemma ContainsIff(s: string, pat: string)
    ensures Contains(s, pat) <==> exists i :: OccursAt(s, pat, i)
  {
    NoneBefore(s, pat, 0);
    if Contains(s, pat) {
      assert OccursAt(s, pat, Find(s, pat, 0).value);
    }
    forall i | OccursAt(s, pat, i) ensures Contains(s, pat) {
      OccursContains(s, pat, i);
    }
  }

  lemma AllocatorIff(entry: string)
    ensures IsAllocator(entry) <==> !NamesNone(entry)
  {
    ContainsIff(entry, "jemalloc");
    ContainsIff(entry, "tcmalloc");
  }

  lemma {:induction false} OthersHas(entries: seq<string>, entry: string)
    ensures entry in Others(entries) <==> entry in entries && NamesNone(entry)
  {
    hide IsAllocator, NamesNone;
    if entries != [] {
      var n := |entries| - 1;
      OthersHas(entries[..n], entry);
      AllocatorIff(entries[n]);
      assert entries == entries[..n] + [entries[n]];
    }
  }

  lemma NoOthers()
    ensures Others([]) == []
  {
  }

  /** The entries that survive do so one by one, and stay in order. */
  lemma {:induction false} OthersConcat(a: seq<string>, b: seq<string>)
    ensures Others(a + b) == Others(a) + Others(b)
  {
    hide IsAllocator, Others;
    if b == [] {
      assert a + b == a;
      NoOthers();
    } else {
      var n := |b| - 1;
      OthersConcat(a, b[..n]);
      OthersSnoc(a + b[..n], b[n]);
      OthersSnoc(b[..n], b[n]);
      assert b == b[..n] + [b[n]];
      assert a + b == a + b[..n] + [b[n]];
      assert Others(a) + (Others(b[..n]) + [b[n]]) == Others(a) + Others(b[..n]) + [b[n]];
    }
  }

  lemma CountedHas(tokens: seq<string>, entry: string)
    requires entry != ""
    ensures entry in Counted(tokens) <==> entry in tokens
  {
    if EndsEmpty(tokens) {
      assert tokens == tokens[..|tokens| - 1] + [""];
    }
  }

  lemma BaseHas(preload: Option<string>, entry: string)
    requires entry != ""
    ensures entry in Base(preload) <==> preload.Some? && entry in Split(preload.value, ":") && NamesNone(entry)
  {
    hide NamesNone, Split, Counted, Others;
    if preload.Some? {
      CountedHas(Split(preload.value, ":"), entry);
      OthersHas(Entries(preload.value), entry);
    }
    if Join(Kept(preload), ":") == "" {
      JoinedNothing(Kept(preload), entry);
    }
  }

  lemma JoinedNothing(entries: seq<string>, entry: string)
    requires Join(entries, ":") == "" && entry != ""
    ensures entry !in entries
  {
    if |entries| == 1 {
      assert entries == [""];
    }
  }

  /** Which entries LD_PRELOAD has afterwards, empty ones aside: those from before that name no allocator, and the
      library of the new one. */
  lemma EntriesAre(preload: Option<string>, backend: Backend, entry: string)
    requires entry != ""
    ensures (Rewritten(preload, backend).Some? && entry in Split(Rewritten(preload, backend).value, ":"))
            <==> (|| (preload.Some? && entry in Split(preload.value, ":") && NamesNone(entry))
                  || (backend == Jemalloc && entry == "/usr/lib/x86_64-linux-gnu/libjemalloc.so.2")
                  || (backend == Tcmalloc && entry == "/usr/lib/x86_64-linux-gnu/libtcmalloc.so.4"))
  {
    hide NamesNone, Split, Rewritten, Base, Added;
    EntriesSurvive(preload, backend);
    BaseHas(preload, entry);
    AddedIs(backend);
  }

  lemma AddedIs(backend: Backend)
    ensures Added(backend) == match backend
                              case Glibc => []
                              case Jemalloc => ["/usr/lib/x86_64-linux-gnu/libjemalloc.so.2"]
                              case Tcmalloc => ["/usr/lib/x86_64-linux-gnu/libtcmalloc.so.4"]
  {
    assert JEMALLOC_PATH == "/usr/lib/x86_64-linux-gnu/libjemalloc.so.2";
    assert TCMALLOC_PATH == "/usr/lib/x86_64-linux-gnu/libtcmalloc.so.4";
  }

  /** The backend that is reported: jemalloc if it is named anywhere, or else tcmalloc if that is, or else glibc. */
  lemma BackendIs(value: string)
    ensures BackendOf(None) == Glibc
    ensures BackendOf(Some(value)) == Jemalloc <==> exists i :: OccursAt(value, "jemalloc", i)
    ensures BackendOf(Some(value)) == Glibc <==> NamesNone(value)
  {
    ContainsIff(value, "jemalloc");
    ContainsIff(value, "tcmalloc");
  }
}
