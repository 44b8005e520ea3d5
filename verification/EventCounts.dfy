/** Folding per-CPU counters by event name: `event_counts_from_values` of tools/optkit-daemon/main.cc. */
module EventCounts {
  import opened Arithmetic
  import opened Deduplication

  const WORD: int := 0x1_0000_0000_0000_0000

  const DURATION: string := "duration_microsec"

  /** An unsigned 64-bit counter. */
  type Word = x: int | 0 <= x < WORD

  /** The event at position `j`: the names repeat for every CPU. */
  function NameAt(names: seq<string>, j: nat): (r: string)
    requires names != []
    ensures r in names
  {
    names[j % |names|]
  }

  /** The values of the positions that belong to event `name`, added up. */
  function SumFor(names: seq<string>, values: seq<Word>, name: string): nat
    requires names != []
  {
    if values == [] then 0
    else
      var n := |values| - 1;
      SumFor(names, values[..n], name) + if NameAt(names, n) == name then values[n] else 0
  }

  function Sum(values: seq<Word>): nat {
    if values == [] then 0 else Sum(values[..|values| - 1]) + values[|values| - 1]
  }

  /** Some position below `count` belongs to event `name`. */
  ghost predicate Seen(names: seq<string>, count: nat, name: string)
    requires names != []
  {
    exists j: nat :: j < count && NameAt(names, j) == name
  }

  function Get(counts: map<string, Word>, name: string): Word {
    if name in counts then counts[name] else 0
  }

  /** `counts` is the fold of `values`: exactly the seen names, each with its sum modulo 2^64. */
  ghost predicate Folded(counts: map<string, Word>, names: seq<string>, values: seq<Word>)
    requires names != []
  {
    && (forall name :: name in counts <==> Seen(names, |values|, name))
    && (forall name :: Get(counts, name) == SumFor(names, values, name) % WORD)
  }

  lemma SeenStep(names: seq<string>, count: nat, name: string)
    requires names != []
    ensures Seen(names, count + 1, name) <==> Seen(names, count, name) || NameAt(names, count) == name
  {
  }

  lemma SumStep(names: seq<string>, values: seq<Word>, v: Word, other: string)
    requires names != []
    ensures SumFor(names, values + [v], other)
         == SumFor(names, values, other) + if NameAt(names, |values|) == other then v else 0
  {
    assert (values + [v])[..|values|] == values;
  }

  /** The counts after one more value. */
  function Counted(counts: map<string, Word>, name: string, v: Word): map<string, Word> {
    counts[name := (Get(counts, name) + v) % WORD]
  }

  lemma FoldSame(counts: map<string, Word>, sum: nat, name: string, v: Word)
    requires Get(counts, name) == sum % WORD
    ensures Get(Counted(counts, name, v), name) == (sum + v) % WORD
  {
    ModAdd(sum, v, WORD);
  }

  lemma FoldOther(counts: map<string, Word>, name: string, v: Word, other: string)
    requires other != name
    ensures Get(Counted(counts, name, v), other) == Get(counts, other)
  {
  }

  /** What one more value does to the count of one name. */
  lemma FoldStepAt(counts: map<string, Word>, names: seq<string>, values: seq<Word>, v: Word, other: string)
    requires names != [] && Get(counts, other) == SumFor(names, values, other) % WORD
    ensures Get(Counted(counts, NameAt(names, |values|), v), other) == SumFor(names, values + [v], other) % WORD
  {
    SumStep(names, values, v, other);
    if other == NameAt(names, |values|) {
      FoldSame(counts, SumFor(names, values, other), other, v);
    } else {
      FoldOther(counts, NameAt(names, |values|), v, other);
    }
  }

  lemma FoldStep(counts: map<string, Word>, names: seq<string>, values: seq<Word>, v: Word)
    requires names != [] && Folded(counts, names, values)
    ensures Folded(Counted(counts, NameAt(names, |values|), v), names, values + [v])
  {
    var after := Counted(counts, NameAt(names, |values|), v);
    forall other
      ensures other in after <==> Seen(names, |values + [v]|, other)
      ensures Get(after, other) == SumFor(names, values + [v], other) % WORD
    {
      SeenStep(names, |values|, other);
      FoldStepAt(counts, names, values, v, other);
    }
  }

  lemma FoldedEmpty(names: seq<string>)
    requires names != []
    ensures Folded(map[], names, [])
  {
  }

  /** The fold, with the entry of the duration set last. */
  ghost predicate IsResult(counts: map<string, Word>, names: seq<string>, values: seq<Word>, duration: Word)
    requires names != []
  {
    exists folded :: Folded(folded, names, values) && counts == folded[DURATION := duration]
  }

  method EventCountsFromValues(names: seq<string>, values: seq<Word>, durationMicrosec: Word)
    returns (counts: map<string, Word>)
    ensures names == [] || values == [] ==> counts == map[DURATION := durationMicrosec]
    ensures names != [] ==> IsResult(counts, names, values, durationMicrosec)
  {
    counts := map[];
    if names != [] {
      FoldedEmpty(names);
    }
    if names != [] && values != [] {
      for j := 0 to |values|
        invariant Folded(counts, names, values[..j])
      {
        var name := NameAt(names, j);
        assert |values[..j]| == j;
        FoldStep(counts, names, values[..j], values[j]);
        assert values[..j] + [values[j]] == values[..j + 1];
        counts := Counted(counts, name, values[j]);
      }
      assert values[..|values|] == values;
    }
    ghost var folded := counts;
    assert names != [] ==> Folded(folded, names, values);
    counts := counts[DURATION := durationMicrosec];
  }

  // ---- Conservation ----------------------------------------------------

  function SumOver(counts: map<string, Word>, list: seq<string>): nat {
    if list == [] then 0 else SumOver(counts, list[..|list| - 1]) + Get(counts, list[|list| - 1])
  }

  function SumForAll(names: seq<string>, values: seq<Word>, list: seq<string>): nat
    requires names != []
  {
    if list == [] then 0 else SumForAll(names, values, list[..|list| - 1]) + SumFor(names, values, list[|list| - 1])
  }

  /** One more value adds to exactly one of the listed names. */
  lemma {:induction false} SumForAllStep(names: seq<string>, values: seq<Word>, v: Word, list: seq<string>)
    requires names != [] && Distinct(list)
    ensures SumForAll(names, values + [v], list)
         == SumForAll(names, values, list) + if NameAt(names, |values|) in list then v else 0
  {
    if list != [] {
      var n := |list| - 1;
      SumForAllStep(names, values, v, list[..n]);
      assert (values + [v])[..|values|] == values;
      assert list == list[..n] + [list[n]];
    }
  }

  lemma {:induction false} SumForAllIsSum(names: seq<string>, values: seq<Word>, list: seq<string>)
    requires names != [] && Distinct(list)
    requires forall j: nat :: j < |values| ==> NameAt(names, j) in list
    ensures SumForAll(names, values, list) == Sum(values)
  {
    if values == [] {
      SumForAllEmpty(names, list);
    } else {
      var n := |values| - 1;
      SumForAllIsSum(names, values[..n], list);
      SumForAllStep(names, values[..n], values[n], list);
      assert values[..n] + [values[n]] == values;
    }
  }

  lemma {:induction false} SumForAllEmpty(names: seq<string>, list: seq<string>)
    requires names != []
    ensures SumForAll(names, [], list) == 0
  {
    if list != [] {
      SumForAllEmpty(names, list[..|list| - 1]);
    }
  }

  lemma {:induction false} SumForBound(names: seq<string>, values: seq<Word>, name: string)
    requires names != []
    ensures SumFor(names, values, name) <= Sum(values)
  {
    if values != [] {
      SumForBound(names, values[..|values| - 1], name);
    }
  }

  lemma {:induction false} SumOverIsSumForAll(counts: map<string, Word>, names: seq<string>, values: seq<Word>,
                                              list: seq<string>)
    requires names != [] && Folded(counts, names, values) && Sum(values) < WORD
    ensures SumOver(counts, list) == SumForAll(names, values, list)
  {
    if list != [] {
      var n := |list| - 1;
      SumOverIsSumForAll(counts, names, values, list[..n]);
      GetIsSum(counts, names, values, list[n]);
    }
  }

  lemma GetIsSum(counts: map<string, Word>, names: seq<string>, values: seq<Word>, name: string)
    requires names != [] && Folded(counts, names, values) && Sum(values) < WORD
    ensures Get(counts, name) == SumFor(names, values, name)
  {
    SumForBound(names, values, name);
    DivModUnique(SumFor(names, values, name), WORD, 0, SumFor(names, values, name));
  }

  /** Without overflow, and with no event called like the duration, the counts of the events add up to the sum
      of all values read: nothing is lost and nothing is counted twice, repeated names included. */
  lemma CountsAddUp(names: seq<string>, values: seq<Word>, duration: Word, counts: map<string, Word>, list: seq<string>)
    requires names != [] && DURATION !in names && Sum(values) < WORD
    requires IsResult(counts, names, values, duration)
    requires Distinct(list) && forall name :: name in list <==> Seen(names, |values|, name)
    ensures DURATION !in list
    ensures SumOver(counts, list) == Sum(values)
  {
    var folded :| Folded(folded, names, values) && counts == folded[DURATION := duration];
    forall j: nat | j < |values| ensures NameAt(names, j) in list {
      assert Seen(names, |values|, NameAt(names, j));
    }
    SumForAllIsSum(names, values, list);
    SumOverIsSumForAll(folded, names, values, list);
    assert !Seen(names, |values|, DURATION);
    SumOverOther(folded, duration, list);
  }

  lemma {:induction false} SumOverOther(counts: map<string, Word>, duration: Word, list: seq<string>)
    requires DURATION !in list
    ensures SumOver(counts[DURATION := duration], list) == SumOver(counts, list)
  {
    if list != [] {
      var n := |list| - 1;
      assert list[n] in list;
      SumOverOther(counts, duration, list[..n]);
    }
  }

  /** The count of every event that was seen is the sum of its values. */
  ghost predicate AllCounted(counts: map<string, Word>, names: seq<string>, values: seq<Word>)
    requires names != []
  {
    forall name :: Seen(names, |values|, name) ==> name in counts && counts[name] == SumFor(names, values, name) % WORD
  }

  /** Every event has its count if and only if none that is called like the duration was seen, or the duration is the
      sum of its values. */
  lemma DurationShadows(names: seq<string>, values: seq<Word>, duration: Word, counts: map<string, Word>)
    requires names != [] && IsResult(counts, names, values, duration)
    ensures AllCounted(counts, names, values)
            <==> !Seen(names, |values|, DURATION) || duration == SumFor(names, values, DURATION) % WORD
  {
    var folded :| Folded(folded, names, values) && counts == folded[DURATION := duration];
    forall name | Seen(names, |values|, name)
      ensures name in folded && folded[name] == SumFor(names, values, name) % WORD
    {
      assert Get(folded, name) == SumFor(names, values, name) % WORD;
    }
    if Seen(names, |values|, DURATION) {
      assert counts[DURATION] == duration;
    }
  }

  /** An event with this name that counted 1 in 2 microseconds is reported as 2. */
  lemma DurationLost(counts: map<string, Word>)
    requires IsResult(counts, [DURATION], [1], 2)
    ensures counts == map[DURATION := 2] && !AllCounted(counts, [DURATION], [1])
  {
    hide Get;
    var names, values := [DURATION], [1];
    var folded :| Folded(folded, names, values) && counts == folded[DURATION := 2];
    assert NameAt(names, 0) == DURATION;
    assert Seen(names, 1, DURATION);
    assert values[..0] == [] && SumFor(names, values, DURATION) == 1;
    forall name | name in folded ensures name == DURATION {
      var j: nat :| j < 1 && NameAt(names, j) == name;
    }
  }

  // ---- Value by value --------------------------------------------------

  /** The values of one CPU after those of the others. */
  function Together(cpus: seq<seq<Word>>): seq<Word> {
    if cpus == [] then [] else Together(cpus[..|cpus| - 1]) + cpus[|cpus| - 1]
  }

  /** Every CPU has one value for each event. */
  predicate Complete(names: seq<string>, cpus: seq<seq<Word>>) {
    forall c :: 0 <= c < |cpus| ==> |cpus[c]| == |names|
  }

  /** The values of one counter on all CPUs, added up. */
  function Column(names: seq<string>, cpus: seq<seq<Word>>, i: nat): nat
    requires i < |names| && Complete(names, cpus)
  {
    if cpus == [] then 0 else Column(names, cpus[..|cpus| - 1], i) + cpus[|cpus| - 1][i]
  }

  lemma {:induction false} WholeCpus(names: seq<string>, cpus: seq<seq<Word>>)
    requires names != [] && Complete(names, cpus)
    ensures |Together(cpus)| % |names| == 0
  {
    if cpus == [] {
      DivModUnique(0, |names|, 0, 0);
    } else {
      WholeCpus(names, cpus[..|cpus| - 1]);
      ModShift(|Together(cpus[..|cpus| - 1])|, 1, |names|);
    }
  }

  lemma NameInCpu(names: seq<string>, before: nat, k: nat)
    requires k < |names| && before % |names| == 0
    ensures NameAt(names, before + k) == names[k]
  {
    ModAdd(before, k, |names|);
    DivModUnique(k, |names|, 0, k);
  }

  lemma SumForSnoc(names: seq<string>, values: seq<Word>, block: seq<Word>, k: nat, name: string)
    requires names != [] && k < |block|
    ensures SumFor(names, values + block[..k + 1], name)
         == SumFor(names, values + block[..k], name) + if NameAt(names, |values| + k) == name then block[k] else 0
  {
    assert values + block[..k + 1] == values + block[..k] + [block[k]];
    SumStep(names, values + block[..k], block[k], name);
  }

  /** The values of one more CPU add one value to each counter. */
  lemma {:induction false} CpuAdds(names: seq<string>, values: seq<Word>, block: seq<Word>, i: nat, k: nat)
    requires Distinct(names) && i < |names| && |values| % |names| == 0 && k <= |block| == |names|
    ensures SumFor(names, values + block[..k], names[i])
         == SumFor(names, values, names[i]) + if i < k then block[i] else 0
  {
    hide SumFor, NameAt;
    if k == 0 {
      assert values + block[..0] == values;
    } else {
      CpuAdds(names, values, block, i, k - 1);
      SumForSnoc(names, values, block, k - 1, names[i]);
      NameInCpu(names, |values|, k - 1);
    }
  }

  lemma {:induction false} ColumnSum(names: seq<string>, cpus: seq<seq<Word>>, i: nat)
    requires Distinct(names) && i < |names| && Complete(names, cpus)
    ensures SumFor(names, Together(cpus), names[i]) == Column(names, cpus, i)
  {
    hide NameAt;
    if cpus != [] {
      var n := |cpus| - 1;
      ColumnSum(names, cpus[..n], i);
      WholeCpus(names, cpus[..n]);
      CpuAdds(names, Together(cpus[..n]), cpus[n], i, |names|);
      assert cpus[n][..|names|] == cpus[n];
    }
  }

  /** With distinct names and one value per event on every CPU, each event gets the sum of its own values. */
  lemma CountsPerCpu(names: seq<string>, cpus: seq<seq<Word>>, duration: Word, counts: map<string, Word>, i: nat)
    requires Distinct(names) && i < |names| && names[i] != "duration_microsec" && cpus != [] && Complete(names, cpus)
    requires IsResult(counts, names, Together(cpus), duration)
    ensures names[i] in counts && counts[names[i]] == Column(names, cpus, i) % 0x1_0000_0000_0000_0000
  {
    hide SumFor, NameAt, Together;
    var folded :| Folded(folded, names, Together(cpus)) && counts == folded[DURATION := duration];
    ColumnSum(names, cpus, i);
    EachIsSeen(names, cpus, i);
    assert Get(folded, names[i]) == SumFor(names, Together(cpus), names[i]) % WORD;
  }

  lemma EachIsSeen(names: seq<string>, cpus: seq<seq<Word>>, i: nat)
    requires i < |names| && cpus != [] && Complete(names, cpus)
    ensures Seen(names, |Together(cpus)|, names[i])
  {
    var before := |Together(cpus[..|cpus| - 1])|;
    WholeCpus(names, cpus[..|cpus| - 1]);
    NameInCpu(names, before, i);
    assert before + i < |Together(cpus)|;
  }

  /** In particular, with one CPU each event has its own value. */
  lemma CountsOneEach(names: seq<string>, values: seq<Word>, duration: Word, counts: map<string, Word>, i: nat)
    requires Distinct(names) && i < |names| == |values| && names[i] != "duration_microsec"
    requires IsResult(counts, names, values, duration)
    ensures names[i] in counts && counts[names[i]] == values[i]
  {
    hide IsResult;
    assert [values][..0] == [] && Together([]) == [];
    assert Together([values]) == [] + values == values;
    CountsPerCpu(names, [values], duration, counts, i);
    assert Column(names, [values], i) == values[i];
  }
}
