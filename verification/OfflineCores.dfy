/** `set_offline_cores` and `set_online_cores` of tools/optkit-setenv/cpu.cc: the bookkeeping of cores taken offline,
    beside the online flags of the kernel. */
module OfflineCores {
  import opened Deduplication

  /** What becomes of a write to an online flag. Only a file that cannot be opened throws; a value that the kernel
      refuses leaves the stream in a failed state that nobody asks for. */
  datatype Write = OpenFails | Refused | Done

  /** The cores whose flag was opened, in order: to the code, the writes that succeeded. Core 0 is skipped. */
  function Opened(cores: seq<int>, writes: seq<Write>): seq<int>
    requires |cores| == |writes|
  {
    if cores == [] then []
    else
      var n := |cores| - 1;
      Opened(cores[..n], writes[..n]) + if cores[n] != 0 && !writes[n].OpenFails? then [cores[n]] else []
  }

  /** The cores whose flag was set. */
  function Written(cores: seq<int>, writes: seq<Write>): set<int>
    requires |cores| == |writes|
  {
    set k | 0 <= k < |cores| && cores[k] != 0 && writes[k].Done? :: cores[k]
  }

  /** The list with the cores of `more` put behind it that it does not have. */
  function Merged(list: seq<int>, more: seq<int>): seq<int> {
    if more == [] then list
    else
      var n := |more| - 1;
      var front := Merged(list, more[..n]);
      if more[n] in front then front else front + [more[n]]
  }

  /** The list without the first occurrence of a core. */
  function Erased(list: seq<int>, core: int): seq<int> {
    if list == [] then []
    else if list[0] == core then list[1..]
    else [list[0]] + Erased(list[1..], core)
  }

  function ErasedAll(list: seq<int>, cores: seq<int>): seq<int> {
    if cores == [] then list else Erased(ErasedAll(list, cores[..|cores| - 1]), cores[|cores| - 1])
  }

  class Cpu {
    var offlineCores: seq<int>
    // The cores whose online flag is 0 in the kernel.
    var kernelOffline: set<int>

    constructor ()
      ensures offlineCores == [] && kernelOffline == {}
    {
      offlineCores, kernelOffline := [], {};
    }

    /** Writes the online flag of a core. */
    method WriteOnline(core: int, online: bool, write: Write) returns (thrown: bool)
      modifies `kernelOffline
      ensures thrown <==> write.OpenFails?
      ensures kernelOffline == if !write.Done? then old(kernelOffline)
                               else if online then old(kernelOffline) - {core}
                               else old(kernelOffline) + {core}
    {
      thrown := write.OpenFails?;
      if write.Done? {
        kernelOffline := if online then kernelOffline - {core} else kernelOffline + {core};
      }
    }

    method SetOfflineCores(cores: seq<int>, writes: seq<Write>) returns (r: bool)
      requires |cores| == |writes|
      modifies this
      ensures offlineCores == Merged(old(offlineCores), Opened(cores, writes))
      ensures kernelOffline == old(kernelOffline) + Written(cores, writes)
      ensures r <==> Opened(cores, writes) != []
    {
      var successfullyOfflined: seq<int> := [];
      for i := 0 to |cores|
        invariant offlineCores == old(offlineCores)
        invariant successfullyOfflined == Opened(cores[..i], writes[..i])
        invariant kernelOffline == old(kernelOffline) + Written(cores[..i], writes[..i])
      {
        OpenedStep(cores, writes, i);
        WrittenStep(cores, writes, i);
        if cores[i] != 0 {
          var thrown := WriteOnline(cores[i], false, writes[i]);
          if !thrown {
            successfullyOfflined := successfullyOfflined + [cores[i]];
          }
        }
      }
      Whole(cores, writes);
      for i := 0 to |successfullyOfflined|
        invariant kernelOffline == old(kernelOffline) + Written(cores, writes)
        invariant offlineCores == Merged(old(offlineCores), successfullyOfflined[..i])
      {
        MergedStep(old(offlineCores), successfullyOfflined, i);
        if successfullyOfflined[i] !in offlineCores {
          offlineCores := offlineCores + [successfullyOfflined[i]];
        }
      }
      assert successfullyOfflined[..|successfullyOfflined|] == successfullyOfflined;
      r := successfullyOfflined != [];
    }

    method SetOnlineCores(cores: seq<int>, writes: seq<Write>) returns (r: bool)
      requires |cores| == |writes|
      modifies this
      ensures offlineCores == ErasedAll(old(offlineCores), Opened(cores, writes))
      ensures kernelOffline == old(kernelOffline) - Written(cores, writes)
      ensures r
    {
      hide Erased;
      for i := 0 to |cores|
        invariant offlineCores == ErasedAll(old(offlineCores), Opened(cores[..i], writes[..i]))
        invariant kernelOffline == old(kernelOffline) - Written(cores[..i], writes[..i])
      {
        OpenedStep(cores, writes, i);
        WrittenStep(cores, writes, i);
        if cores[i] != 0 {
          var thrown := WriteOnline(cores[i], true, writes[i]);
          if !thrown {
            ErasedStep(old(offlineCores), Opened(cores[..i], writes[..i]), cores[i]);
            Erase(cores[i]);
          }
        }
      }
      Whole(cores, writes);
      r := true;
    }

    /** `std::find` and `erase`. */
    method Erase(core: int)
      modifies `offlineCores
      ensures offlineCores == Erased(old(offlineCores), core)
    {
      var it := 0;
      while it < |offlineCores| && offlineCores[it] != core
        invariant it <= |offlineCores| && offlineCores == old(offlineCores)
        invariant Erased(offlineCores, core) == offlineCores[..it] + Erased(offlineCores[it..], core)
      {
        ErasedSkip(offlineCores, it, core);
        it := it + 1;
      }
      if it < |offlineCores| {
        ErasedHere(offlineCores, it, core);
        offlineCores := offlineCores[..it] + offlineCores[it + 1..];
      } else {
        assert offlineCores[..it] == offlineCores;
      }
    }
  }

  lemma Whole(cores: seq<int>, writes: seq<Write>)
    requires |cores| == |writes|
    ensures cores[..|cores|] == cores && writes[..|cores|] == writes
  {
  }

  lemma OpenedStep(cores: seq<int>, writes: seq<Write>, i: nat)
    requires |cores| == |writes| && i < |cores|
    ensures Opened(cores[..i + 1], writes[..i + 1])
         == if cores[i] != 0 && !writes[i].OpenFails? then Opened(cores[..i], writes[..i]) + [cores[i]]
            else Opened(cores[..i], writes[..i])
  {
    assert cores[..i + 1][..i] == cores[..i] && writes[..i + 1][..i] == writes[..i];
  }

  lemma WrittenStep(cores: seq<int>, writes: seq<Write>, i: nat)
    requires |cores| == |writes| && i < |cores|
    ensures Written(cores[..i + 1], writes[..i + 1])
         == Written(cores[..i], writes[..i]) + if cores[i] != 0 && writes[i].Done? then {cores[i]} else {}
  {
    var before, after := Written(cores[..i], writes[..i]), Written(cores[..i + 1], writes[..i + 1]);
    forall c | c in before ensures c in after {
      var k :| 0 <= k < i && cores[..i][k] == c && c != 0 && writes[..i][k].Done?;
      assert cores[..i + 1][k] == c;
    }
    if cores[i] != 0 && writes[i].Done? {
      assert cores[..i + 1][i] == cores[i];
    }
  }

  lemma MergedStep(list: seq<int>, more: seq<int>, i: nat)
    requires i < |more|
    ensures Merged(list, more[..i + 1])
         == Merged(list, more[..i]) + if more[i] in Merged(list, more[..i]) then [] else [more[i]]
  {
    assert more[..i + 1][..i] == more[..i];
    assert Merged(list, more[..i]) + [] == Merged(list, more[..i]);
  }

  lemma ErasedStep(list: seq<int>, cores: seq<int>, core: int)
    ensures ErasedAll(list, cores + [core]) == Erased(ErasedAll(list, cores), core)
  {
    assert (cores + [core])[..|cores|] == cores;
  }

  lemma ErasedSkip(list: seq<int>, it: nat, core: int)
    requires it < |list| && list[it] != core
    ensures list[..it] + Erased(list[it..], core) == list[..it + 1] + Erased(list[it + 1..], core)
  {
    assert list[it..][1..] == list[it + 1..];
    assert list[..it + 1] == list[..it] + [list[it]];
  }

  lemma ErasedHere(list: seq<int>, it: nat, core: int)
    requires it < |list| && list[it] == core
    ensures Erased(list[it..], core) == list[it + 1..]
  {
    assert list[it..][1..] == list[it + 1..];
  }

  // ---- Runs -----------------------------------------------------------

  datatype Call = Offline(cores: seq<int>, writes: seq<Write>) | Online(cores: seq<int>, writes: seq<Write>) {
    predicate Valid() {
      |cores| == |writes|
    }
  }

  /** The list of the code, and the cores whose flag is 0 in the kernel. */
  datatype State = State(list: seq<int>, offline: set<int>)

  function Step(s: State, call: Call): State
    requires call.Valid()
  {
    var touched, written := Opened(call.cores, call.writes), Written(call.cores, call.writes);
    if call.Offline? then State(Merged(s.list, touched), s.offline + written)
    else State(ErasedAll(s.list, touched), s.offline - written)
  }

  function Run(s: State, calls: seq<Call>): State
    requires forall call :: call in calls ==> call.Valid()
  {
    if calls == [] then s else Step(Run(s, calls[..|calls| - 1]), calls[|calls| - 1])
  }

  /** The list has no core twice and never has core 0. */
  predicate Tidy(list: seq<int>) {
    Distinct(list) && 0 !in list
  }

  ghost predicate Agrees(s: State) {
    forall c :: c in s.list <==> c in s.offline
  }

  /** A write would have changed the flag of a core, but the kernel refused it and every other write of the call to
      that core. */
  ghost predicate Loses(s: State, call: Call)
    requires call.Valid()
  {
    exists c :: c in Opened(call.cores, call.writes) && c !in Written(call.cores, call.writes)
             && (if call.Offline? then c !in s.offline else c in s.offline)
  }

  // ---- One call --------------------------------------------------------

  lemma {:induction false} OpenedCore(cores: seq<int>, writes: seq<Write>, c: int)
    requires |cores| == |writes| && c in Opened(cores, writes)
    ensures c != 0
  {
    var n := |cores| - 1;
    if c in Opened(cores[..n], writes[..n]) {
      OpenedCore(cores[..n], writes[..n], c);
    }
  }

  lemma {:induction false} WrittenIsOpened(cores: seq<int>, writes: seq<Write>, c: int)
    requires |cores| == |writes| && c in Written(cores, writes)
    ensures c in Opened(cores, writes)
  {
    var k :| 0 <= k < |cores| && cores[k] == c && c != 0 && writes[k].Done?;
    var n := |cores| - 1;
    if k < n {
      assert cores[..n][k] == c && writes[..n][k].Done?;
      WrittenIsOpened(cores[..n], writes[..n], c);
    }
  }

  lemma {:induction false} MergedHas(list: seq<int>, more: seq<int>, c: int)
    ensures c in Merged(list, more) <==> c in list || c in more
  {
    if more != [] {
      var n := |more| - 1;
      MergedHas(list, more[..n], c);
      assert more == more[..n] + [more[n]];
    }
  }

  lemma {:induction false} MergedTidy(list: seq<int>, more: seq<int>)
    requires Tidy(list) && 0 !in more
    ensures Tidy(Merged(list, more)) && list <= Merged(list, more)
  {
    if more != [] {
      MergedTidy(list, more[..|more| - 1]);
    }
  }

  lemma {:induction false} ErasedHas(list: seq<int>, core: int, c: int)
    requires Distinct(list)
    ensures c in Erased(list, core) <==> c in list && c != core
  {
    if list != [] && list[0] != core {
      ErasedHas(list[1..], core, c);
      assert list == [list[0]] + list[1..];
    }
  }

  lemma {:induction false} ErasedTidy(list: seq<int>, core: int)
    requires Tidy(list)
    ensures Tidy(Erased(list, core))
  {
    if list != [] && list[0] != core {
      ErasedTidy(list[1..], core);
      ErasedHas(list[1..], core, list[0]);
    }
  }

  lemma {:induction false} ErasedAllTidy(list: seq<int>, cores: seq<int>)
    requires Tidy(list)
    ensures Tidy(ErasedAll(list, cores))
  {
    if cores != [] {
      var n := |cores| - 1;
      ErasedAllTidy(list, cores[..n]);
      ErasedTidy(ErasedAll(list, cores[..n]), cores[n]);
    }
  }

  lemma {:induction false} ErasedAllHas(list: seq<int>, cores: seq<int>, c: int)
    requires Tidy(list)
    ensures c in ErasedAll(list, cores) <==> c in list && c !in cores
  {
    if cores != [] {
      var n := |cores| - 1;
      ErasedAllTidy(list, cores[..n]);
      ErasedAllHas(list, cores[..n], c);
      ErasedHas(ErasedAll(list, cores[..n]), cores[n], c);
      assert cores == cores[..n] + [cores[n]];
    }
  }

  /** No core is listed twice and core 0 never is, whatever fails. */
  lemma StepTidy(s: State, call: Call)
    requires call.Valid() && Tidy(s.list)
    ensures Tidy(Step(s, call).list)
  {
    var touched := Opened(call.cores, call.writes);
    if call.Offline? {
      if 0 in touched { OpenedCore(call.cores, call.writes, 0); }
      MergedTidy(s.list, touched);
    } else {
      ErasedAllTidy(s.list, touched);
    }
  }

  lemma StepHas(s: State, call: Call, c: int)
    requires call.Valid() && Tidy(s.list)
    ensures var touched := Opened(call.cores, call.writes);
            c in Step(s, call).list <==> if call.Offline? then c in s.list || c in touched
                                         else c in s.list && c !in touched
  {
    MergedHas(s.list, Opened(call.cores, call.writes), c);
    ErasedAllHas(s.list, Opened(call.cores, call.writes), c);
  }

  /** A call keeps the list in agreement with the kernel if and only if none of its changes is silently refused. */
  lemma StepAgreesIff(s: State, call: Call)
    requires call.Valid() && Tidy(s.list) && Agrees(s)
    ensures Agrees(Step(s, call)) <==> !Loses(s, call)
  {
    var after := Step(s, call);
    forall c
      ensures (c in after.list <==> c in after.offline)
              <==> !(c in Opened(call.cores, call.writes) && c !in Written(call.cores, call.writes)
                     && (if call.Offline? then c !in s.offline else c in s.offline))
    {
      StepHas(s, call, c);
      if c in Written(call.cores, call.writes) {
        WrittenIsOpened(call.cores, call.writes, c);
      }
    }
  }

  // ---- Every interleaving ----------------------------------------------

  lemma {:induction false} RunTidy(s: State, calls: seq<Call>)
    requires (forall call :: call in calls ==> call.Valid()) && Tidy(s.list)
    ensures Tidy(Run(s, calls).list)
  {
    if calls != [] {
      var n := |calls| - 1;
      RunTidy(s, calls[..n]);
      StepTidy(Run(s, calls[..n]), calls[n]);
    }
  }

  lemma RunStep(s: State, calls: seq<Call>, k: nat)
    requires (forall call :: call in calls ==> call.Valid()) && k < |calls|
    ensures Run(s, calls[..k + 1]) == Step(Run(s, calls[..k]), calls[k])
  {
    assert calls[..k + 1][..k] == calls[..k];
  }

  ghost predicate AgreesAfter(s: State, calls: seq<Call>, k: nat)
    requires (forall call :: call in calls ==> call.Valid()) && k <= |calls|
  {
    Agrees(Run(s, calls[..k]))
  }

  ghost predicate LosesAt(s: State, calls: seq<Call>, k: nat)
    requires (forall call :: call in calls ==> call.Valid()) && k < |calls|
  {
    Loses(Run(s, calls[..k]), calls[k])
  }

  lemma CallAgreesIff(s: State, calls: seq<Call>, k: nat)
    requires (forall call :: call in calls ==> call.Valid()) && Tidy(s.list) && k < |calls| && AgreesAfter(s, calls, k)
    ensures AgreesAfter(s, calls, k + 1) <==> !LosesAt(s, calls, k)
  {
    RunTidy(s, calls[..k]);
    RunStep(s, calls, k);
    StepAgreesIff(Run(s, calls[..k]), calls[k]);
  }

  lemma {:induction false} AgreesUpTo(s: State, calls: seq<Call>, n: nat)
    requires (forall call :: call in calls ==> call.Valid()) && Tidy(s.list) && Agrees(s) && n <= |calls|
    requires forall k: nat :: k < n ==> !LosesAt(s, calls, k)
    ensures AgreesAfter(s, calls, n)
  {
    if n > 0 {
      AgreesUpTo(s, calls, n - 1);
      CallAgreesIff(s, calls, n - 1);
    }
  }

  /** Starting in agreement, the list agrees with the kernel after every call of any interleaving if and only if no
      call has a change silently refused. Writes that throw, repeated cores and core 0 do no harm. */
  lemma RunAgreesIff(s: State, calls: seq<Call>)
    requires (forall call :: call in calls ==> call.Valid()) && Tidy(s.list) && Agrees(s)
    ensures (forall k: nat :: k <= |calls| ==> AgreesAfter(s, calls, k))
            <==> (forall k: nat :: k < |calls| ==> !LosesAt(s, calls, k))
  {
    if forall k: nat :: k < |calls| ==> !LosesAt(s, calls, k) {
      forall k: nat | k <= |calls| ensures AgreesAfter(s, calls, k) {
        AgreesUpTo(s, calls, k);
      }
    }
    if forall k: nat :: k <= |calls| ==> AgreesAfter(s, calls, k) {
      forall k: nat | k < |calls| ensures !LosesAt(s, calls, k) {
        CallAgreesIff(s, calls, k);
      }
    }
  }

  /** A write that opens the file and is then refused, as for the last core online, leaves core 1 in the list
      although it stays online. */
  lemma RefusedWriteMisleads()
    ensures var s := Run(State([], {}), [Offline([1], [Refused])]);
            1 in s.list && s.offline == {}
  {
    var call := Offline([1], [Refused]);
    assert [call][..0] == [];
    assert Run(State([], {}), []) == State([], {});
    OpenedStep([1], [Refused], 0);
    Whole([1], [Refused]);
    MergedHas([], Opened([1], [Refused]), 1);
  }

  // ---- Core by core ----------------------------------------------------

  /** Some write to the flag of core `c`, which is not core 0, has been taken for done. */
  ghost predicate Reached(cores: seq<int>, writes: seq<Write>, c: int)
    requires |cores| == |writes|
  {
    exists k :: 0 <= k < |cores| && cores[k] == c && c != 0 && writes[k] != OpenFails
  }

  /** Some write to it has been done. */
  ghost predicate Changed(cores: seq<int>, writes: seq<Write>, c: int)
    requires |cores| == |writes|
  {
    exists k :: 0 <= k < |cores| && cores[k] == c && c != 0 && writes[k] == Done
  }

  lemma ReachedStep(cores: seq<int>, writes: seq<Write>, c: int)
    requires |cores| == |writes| && cores != []
    ensures var n := |cores| - 1;
            Reached(cores, writes, c)
            <==> Reached(cores[..n], writes[..n], c) || (cores[n] == c && c != 0 && writes[n] != OpenFails)
  {
    var n := |cores| - 1;
    if Reached(cores[..n], writes[..n], c) {
      var k :| 0 <= k < n && cores[..n][k] == c && c != 0 && writes[..n][k] != OpenFails;
      assert cores[k] == c && writes[k] != OpenFails;
    }
    if Reached(cores, writes, c) {
      var k :| 0 <= k < |cores| && cores[k] == c && c != 0 && writes[k] != OpenFails;
      if k < n {
        assert cores[..n][k] == c && writes[..n][k] != OpenFails;
      }
    }
  }

  lemma {:induction false} OpenedIff(cores: seq<int>, writes: seq<Write>, c: int)
    requires |cores| == |writes|
    ensures c in Opened(cores, writes) <==> Reached(cores, writes, c)
  {
    if cores != [] {
      ReachedStep(cores, writes, c);
      OpenedIff(cores[..|cores| - 1], writes[..|cores| - 1], c);
    }
  }

  /** A core is listed after a call if it was before or has been reached by an offline call, unless it has been reached
      by an online call; and the kernel has changed exactly the flags of the writes that were done. */
  lemma StepAt(s: State, call: Call, c: int)
    requires call.Valid() && Tidy(s.list)
    ensures c in Step(s, call).list <==> if call.Offline? then c in s.list || Reached(call.cores, call.writes, c)
                                         else c in s.list && !Reached(call.cores, call.writes, c)
    ensures c in Step(s, call).offline <==> if call.Offline? then c in s.offline || Changed(call.cores, call.writes, c)
                                            else c in s.offline && !Changed(call.cores, call.writes, c)
  {
    StepHas(s, call, c);
    OpenedIff(call.cores, call.writes, c);
  }

  // ---- The order of the list -------------------------------------------

  lemma {:induction false} ErasedAt(list: seq<int>, core: int, i: nat)
    requires Distinct(list) && i < |list| && list[i] == core
    ensures Erased(list, core) == list[..i] + list[i + 1..]
  {
    if i == 0 {
      assert list[..0] + list[1..] == list[1..];
    } else {
      assert list[0] != core;
      ErasedAt(list[1..], core, i - 1);
      assert [list[0]] + (list[1..][..i - 1] + list[1..][i..]) == list[..i] + list[i + 1..];
    }
  }

  lemma {:induction false} ErasedNone(list: seq<int>, core: int)
    requires core !in list
    ensures Erased(list, core) == list
  {
    if list != [] {
      assert list[0] in list && (forall x :: x in list[1..] ==> x in list);
      ErasedNone(list[1..], core);
    }
  }

  /** `a` is listed before `b`. */
  ghost predicate Ahead(list: seq<int>, a: int, b: int) {
    exists i, j :: 0 <= i < j < |list| && list[i] == a && list[j] == b
  }

  lemma ErasedOrder(list: seq<int>, core: int, a: int, b: int)
    requires Distinct(list) && a != core && b != core
    ensures Ahead(Erased(list, core), a, b) <==> Ahead(list, a, b)
  {
    if core in list {
      var i :| 0 <= i < |list| && list[i] == core;
      ErasedAt(list, core, i);
      CutOrder(list, i, a, b);
    } else {
      ErasedNone(list, core);
    }
  }

  lemma CutOrder(list: seq<int>, at: nat, a: int, b: int)
    requires at < |list| && a != list[at] && b != list[at]
    ensures Ahead(list[..at] + list[at + 1..], a, b) <==> Ahead(list, a, b)
  {
    var cut := list[..at] + list[at + 1..];
    if Ahead(list, a, b) {
      var i, j :| 0 <= i < j < |list| && list[i] == a && list[j] == b;
      var i', j' := if i < at then i else i - 1, if j < at then j else j - 1;
      assert 0 <= i' < j' < |cut| && cut[i'] == a && cut[j'] == b;
    }
    if Ahead(cut, a, b) {
      var i, j :| 0 <= i < j < |cut| && cut[i] == a && cut[j] == b;
      var i', j' := if i < at then i else i + 1, if j < at then j else j + 1;
      assert 0 <= i' < j' < |list| && list[i'] == a && list[j'] == b;
    }
  }

  lemma {:induction false} ErasedAllOrder(list: seq<int>, cores: seq<int>, a: int, b: int)
    requires Tidy(list) && a !in cores && b !in cores
    ensures Ahead(ErasedAll(list, cores), a, b) <==> Ahead(list, a, b)
  {
    if cores != [] {
      var n := |cores| - 1;
      assert forall x :: x in cores[..n] ==> x in cores;
      ErasedAllOrder(list, cores[..n], a, b);
      ErasedAllTidy(list, cores[..n]);
      ErasedOrder(ErasedAll(list, cores[..n]), cores[n], a, b);
    }
  }

  /** A call leaves the cores that stay listed in their order, and puts new ones behind them. */
  lemma StepOrder(s: State, call: Call, a: int, b: int)
    requires call.Valid() && Tidy(s.list)
    ensures call.Offline? ==> s.list <= Step(s, call).list
    ensures call.Online? && !Reached(call.cores, call.writes, a) && !Reached(call.cores, call.writes, b) ==>
              (Ahead(Step(s, call).list, a, b) <==> Ahead(s.list, a, b))
  {
    var touched := Opened(call.cores, call.writes);
    OpenedIff(call.cores, call.writes, a);
    OpenedIff(call.cores, call.writes, b);
    if call.Offline? {
      if 0 in touched { OpenedCore(call.cores, call.writes, 0); }
      MergedTidy(s.list, touched);
    } else if a !in touched && b !in touched {
      ErasedAllOrder(s.list, touched, a, b);
    }
  }
}
