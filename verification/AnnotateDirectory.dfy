/** Several keys, one after the other, through all files of a directory. */
module AnnotateDirectory {
  import opened Wrappers
  import opened Decimal
  import opened Annotate
  import opened AnnotateRuns

  lemma OneMoreNote(content: string, notes: seq<Note>, k: nat)
    requires k < |notes|
    ensures InjectAll(content, notes[..k + 1])
         == Injected(InjectAll(content, notes[..k]), notes[k].key, notes[k].Literal())
  {
    assert notes[..k + 1][..k] == notes[..k];
  }

  lemma AllNotes(content: string, notes: seq<Note>)
    ensures InjectAll(content, notes[..|notes|]) == InjectAll(content, notes)
    ensures InjectAll(content, notes[..0]) == content
  {
    assert notes[..|notes|] == notes;
  }

  /** Any run of annotations of one directory. */
  method InjectKeys(dir: Directory, notes: seq<Note>)
    requires forall i :: 0 <= i < |dir.names| ==> dir.names[i] in dir.files
    requires forall i, j :: 0 <= i < j < |dir.names| ==> dir.names[i] != dir.names[j]
    modifies dir
    ensures dir.files.Keys == old(dir.files).Keys
    ensures forall stem: string :: stem + ".json" in dir.names && stem + ".json" !in dir.unreadable + dir.unwritable ==>
              dir.files[stem + ".json"] == InjectAll(old(dir.files)[stem + ".json"], notes)
    ensures forall name :: name in dir.files && (|name| < 5 || name[|name| - 5..] != ".json" || name !in dir.names
                                                 || name in dir.unreadable || name in dir.unwritable) ==>
              dir.files[name] == old(dir.files)[name]
    ensures forall stem: string, i ::
              (&& 0 <= i < |notes| && stem + ".json" in dir.names
               && stem + ".json" !in dir.unreadable + dir.unwritable
               && Fresh(old(dir.files)[stem + ".json"], notes)) ==>
              Extracted(dir.files[stem + ".json"], notes[i].key) == Some(notes[i].value as real)
  {
    hide InjectAll, Injected, Extracted, Fresh, Note.Literal;
    ghost var files := dir.files;
    forall stem: string | stem + ".json" in dir.names
      ensures InjectAll(files[stem + ".json"], notes[..0]) == files[stem + ".json"]
    {
      AllNotes(files[stem + ".json"], notes);
    }
    for k := 0 to |notes|
      invariant dir.files.Keys == files.Keys
      invariant forall stem: string ::
                  stem + ".json" in dir.names && stem + ".json" !in dir.unreadable + dir.unwritable ==>
                    dir.files[stem + ".json"] == InjectAll(files[stem + ".json"], notes[..k])
      invariant forall name :: name in dir.files && (|name| < 5 || name[|name| - 5..] != ".json" || name !in dir.names
                                                     || name in dir.unreadable || name in dir.unwritable) ==>
                  dir.files[name] == files[name]
    {
      dir.InjectJsonKv(notes[k].key, notes[k].Literal());
      forall stem: string | stem + ".json" in dir.names && stem + ".json" !in dir.unreadable + dir.unwritable
        ensures dir.files[stem + ".json"] == InjectAll(files[stem + ".json"], notes[..k + 1])
      {
        OneMoreNote(files[stem + ".json"], notes, k);
      }
    }
    forall stem: string | stem + ".json" in dir.names && stem + ".json" !in dir.unreadable + dir.unwritable
      ensures dir.files[stem + ".json"] == InjectAll(files[stem + ".json"], notes)
    {
      AllNotes(files[stem + ".json"], notes);
    }
    forall stem: string, i | 0 <= i < |notes| && stem + ".json" in dir.names
        && stem + ".json" !in dir.unreadable + dir.unwritable && Fresh(files[stem + ".json"], notes)
      ensures Extracted(dir.files[stem + ".json"], notes[i].key) == Some(notes[i].value as real)
    {
      InjectedIsReadBack(files[stem + ".json"], notes);
    }
  }

  const CORE_KEY: string := "core_frequency_khz"
  const UNCORE_KEY: string := "uncore_frequency_khz"

  function Frequencies(core: int, uncore: int): seq<Note> {
    [Note(CORE_KEY, core), Note(UNCORE_KEY, uncore)]
  }

  lemma BothInjected(content: string, core: int, uncore: int)
    ensures InjectAll(content, Frequencies(core, uncore))
         == Injected(Injected(content, CORE_KEY, ToString(core)), UNCORE_KEY, ToString(uncore))
  {
    hide Injected, ToString;
    var notes := Frequencies(core, uncore);
    OneMoreNote(content, notes, 0);
    OneMoreNote(content, notes, 1);
    AllNotes(content, notes);
  }

  /** What is done after a run at fixed frequencies: both read back from every file that had neither. */
  method AnnotateFrequencies(dir: Directory, core: int, uncore: int)
    requires forall i :: 0 <= i < |dir.names| ==> dir.names[i] in dir.files
    requires forall i, j :: 0 <= i < j < |dir.names| ==> dir.names[i] != dir.names[j]
    modifies dir
    ensures dir.files.Keys == old(dir.files).Keys
    ensures forall stem: string ::
              (&& stem + ".json" in dir.names && stem + ".json" !in dir.unreadable + dir.unwritable
               && Fresh(old(dir.files)[stem + ".json"], Frequencies(core, uncore))) ==>
              && Extracted(dir.files[stem + ".json"], CORE_KEY) == Some(core as real)
              && Extracted(dir.files[stem + ".json"], UNCORE_KEY) == Some(uncore as real)
  {
    hide InjectAll, Injected, Extracted, Fresh, ToString;
    ghost var files := dir.files;
    dir.InjectJsonKv(CORE_KEY, ToString(core));
    dir.InjectJsonKv(UNCORE_KEY, ToString(uncore));
    forall stem: string | stem + ".json" in dir.names && stem + ".json" !in dir.unreadable + dir.unwritable
        && Fresh(files[stem + ".json"], Frequencies(core, uncore))
      ensures Extracted(dir.files[stem + ".json"], CORE_KEY) == Some(core as real)
      ensures Extracted(dir.files[stem + ".json"], UNCORE_KEY) == Some(uncore as real)
    {
      BothInjected(files[stem + ".json"], core, uncore);
      BothRead(files[stem + ".json"], core, uncore);
    }
  }

  lemma BothRead(content: string, core: int, uncore: int)
    requires Fresh(content, Frequencies(core, uncore))
    ensures var t := InjectAll(content, Frequencies(core, uncore));
            Extracted(t, CORE_KEY) == Some(core as real) && Extracted(t, UNCORE_KEY) == Some(uncore as real)
  {
    hide InjectAll, Injected, Extracted, Fresh;
    InjectedIsReadBack(content, Frequencies(core, uncore));
    var notes := Frequencies(core, uncore);
    assert notes[0].key == CORE_KEY && notes[1].key == UNCORE_KEY;
  }
}
