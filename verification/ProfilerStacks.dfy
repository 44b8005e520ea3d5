/** The start and stop functions of src/optkit_c.cc and the stacks of running profilers behind them. */
module ProfilerStacks {
  import opened Wrappers
  import opened Deduplication

  /** The profiler types. `ProfilerManager` keeps one stack for each. */
  datatype Slot = Perf | Callstack | Pdu | Rapl | CpuHwmon | Nvidia | Amd | Disk | HwmonTemp | GpuTemp

  /** The pairs of functions that start and stop profilers. */
  datatype Kind = PerfKind | Energy | EnergyCpu | EnergyGpu | CallstackKind | DiskKind | Temperature
                | TemperatureHwmon | TemperatureGpu

  /** The profilers on each stack, named by the start call that made them. */
  type Stacks = map<Slot, seq<nat>>

  const CPU_ENERGY: set<Slot> := {Pdu, Rapl, CpuHwmon}

  predicate Total(s: Stacks) {
    forall slot: Slot :: slot in s
  }

  // ---- What the functions do -------------------------------------------

  /** The profilers made in turn until one cannot be. */
  function Made(slots: seq<Slot>, broken: set<Slot>): seq<Slot> {
    if slots == [] || slots[0] in broken then [] else [slots[0]] + Made(slots[1..], broken)
  }

  /** The stacks a start pushes to, when the profilers of `broken` cannot be made. */
  function Pushes(kind: Kind, backend: Slot, broken: set<Slot>): seq<Slot> {
    match kind
    case PerfKind => Made([Perf], broken)
    case Energy => Made([backend], broken) + Made([Nvidia, Amd], broken)
    case EnergyCpu => Made([backend], broken)
    case EnergyGpu => Made([Nvidia, Amd], broken)
    case CallstackKind => Made([Callstack], broken)
    case DiskKind => Made([Disk], broken)
    case Temperature => Made([HwmonTemp, GpuTemp], broken)
    case TemperatureHwmon => Made([HwmonTemp], broken)
    case TemperatureGpu => Made([GpuTemp], broken)
  }

  /** The stacks a stop pops. The energy backend is not remembered: all three are popped. */
  function Pops(kind: Kind): seq<Slot> {
    match kind
    case PerfKind => [Perf]
    case Energy => [Pdu, Rapl, CpuHwmon, Amd, Nvidia]
    case EnergyCpu => [Pdu, Rapl, CpuHwmon]
    case EnergyGpu => [Amd, Nvidia]
    case CallstackKind => [Callstack]
    case DiskKind => [Disk]
    case Temperature => [HwmonTemp, GpuTemp]
    case TemperatureHwmon => [HwmonTemp]
    case TemperatureGpu => [GpuTemp]
  }

  function PushAll(s: Stacks, slots: seq<Slot>, id: nat): (r: Stacks)
    requires Total(s)
    ensures Total(r)
  {
    if slots == [] then s else PushAll(s[slots[0] := s[slots[0]] + [id]], slots[1..], id)
  }

  function Popped(stack: seq<nat>): seq<nat> {
    if stack == [] then [] else stack[..|stack| - 1]
  }

  function PopAll(s: Stacks, slots: seq<Slot>): (r: Stacks)
    requires Total(s)
    ensures Total(r)
  {
    if slots == [] then s else PopAll(s[slots[0] := Popped(s[slots[0]])], slots[1..])
  }

  const SLOTS: set<Slot> := {Perf, Callstack, Pdu, Rapl, CpuHwmon, Nvidia, Amd, Disk, HwmonTemp, GpuTemp}

  lemma EverySlot(slot: Slot)
    ensures slot in SLOTS
  {
    match slot
    case _ =>
  }

  function NoProfilers(): (r: Stacks)
    ensures Total(r) && forall slot :: slot in r ==> r[slot] == []
  {
    assert forall slot: Slot :: slot in SLOTS by {
      forall slot: Slot ensures slot in SLOTS { EverySlot(slot); }
    }
    map slot | slot in SLOTS :: []
  }

  datatype Status = Started | InvalidArgument | NotInitialized | Failed

  predicate AnyBroken(slots: seq<Slot>, broken: set<Slot>) {
    exists i :: 0 <= i < |slots| && slots[i] in broken
  }

  /** What a start reports, when it looks at the profilers of `slots`. */
  function Outcome(initialized: bool, name: Option<string>, slots: seq<Slot>, broken: set<Slot>): Status {
    if !initialized then NotInitialized
    else if name.None? then InvalidArgument
    else if AnyBroken(slots, broken) then Failed
    else Started
  }

  lemma OneBroken(slot: Slot, broken: set<Slot>)
    ensures AnyBroken([slot], broken) <==> slot in broken
  {
    assert [slot][0] == slot;
  }

  lemma TwoBroken(first: Slot, second: Slot, broken: set<Slot>)
    ensures AnyBroken([first, second], broken) <==> first in broken || second in broken
  {
    var slots := [first, second];
    assert slots[0] == first && slots[1] == second;
  }

  /** An array of names as it comes from C: a pointer, null or not, and a count. */
  datatype Names = Names(given: bool, count: nat)

  /** The start of the perf profiler cannot use its arrays: one with a count is missing, or both are empty. */
  predicate Unusable(metrics: Names, events: Names) {
    || (metrics.count > 0 && !metrics.given) || (events.count > 0 && !events.given)
    || (metrics.count == 0 && events.count == 0)
  }

  class Profilers {
    var stacks: Stacks
    var initialized: bool
    const backend: Slot

    ghost predicate Valid()
      reads this
    {
      Total(stacks) && backend in CPU_ENERGY
    }

    constructor (backend: Slot)
      requires backend in CPU_ENERGY
      ensures Valid() && this.backend == backend && forall slot :: slot in stacks ==> stacks[slot] == []
    {
      this.backend := backend;
      initialized := false;
      stacks := NoProfilers();
    }

    method Push(slot: Slot, id: nat, broken: set<Slot>) returns (made: bool)
      requires Valid()
      modifies `stacks
      ensures Valid() && made == (slot !in broken)
      ensures stacks == if made then old(stacks)[slot := old(stacks)[slot] + [id]] else old(stacks)
    {
      made := slot !in broken;
      if made {
        stacks := stacks[slot := stacks[slot] + [id]];
      }
    }

    method Pop(slot: Slot)
      requires Valid()
      modifies `stacks
      ensures Valid() && stacks == old(stacks)[slot := Popped(old(stacks)[slot])]
    {
      if stacks[slot] != [] {
        stacks := stacks[slot := stacks[slot][..|stacks[slot]| - 1]];
      }
    }

    /** The checks at the head of every start. */
    method Check(name: Option<string>) returns (status: Status)
      ensures status == if !initialized then NotInitialized else if name.None? then InvalidArgument else Started
    {
      status := if !initialized then NotInitialized else if name.None? then InvalidArgument else Started;
    }

    method EnergyCpuStart(name: Option<string>, id: nat, broken: set<Slot>) returns (status: Status)
      requires Valid()
      modifies `stacks
      ensures Valid() && status == Outcome(initialized, name, [backend], broken)
      ensures stacks == if !initialized || name.None? then old(stacks)
                        else PushAll(old(stacks), Pushes(EnergyCpu, backend, broken), id)
    {
      status := Check(name);
      if !status.Started? { return; }
      var made := Push(backend, id, broken);
      OnePushed(old(stacks), backend, id, broken);
      OneBroken(backend, broken);
      status := if made then Started else Failed;
    }

    method EnergyGpuStart(name: Option<string>, id: nat, broken: set<Slot>) returns (status: Status)
      requires Valid()
      modifies `stacks
      ensures Valid() && status == Outcome(initialized, name, [Nvidia, Amd], broken)
      ensures stacks == if !initialized || name.None? then old(stacks)
                        else PushAll(old(stacks), Pushes(EnergyGpu, backend, broken), id)
    {
      status := Check(name);
      if !status.Started? { return; }
      var made := Push(Nvidia, id, broken);
      TwoPushed(old(stacks), Nvidia, Amd, id, broken);
      TwoBroken(Nvidia, Amd, broken);
      if !made { return Failed; }
      made := Push(Amd, id, broken);
      status := if made then Started else Failed;
    }

    /** The status of the CPU start is overwritten by that of the GPU start. */
    method EnergyStart(name: Option<string>, id: nat, broken: set<Slot>) returns (status: Status)
      requires Valid()
      modifies `stacks
      ensures Valid() && status == Outcome(initialized, name, [Nvidia, Amd], broken)
      ensures stacks == if !initialized || name.None? then old(stacks)
                        else PushAll(old(stacks), Pushes(Energy, backend, broken), id)
    {
      status := Check(name);
      if !status.Started? { return; }
      PushAllAppend(stacks, Pushes(EnergyCpu, backend, broken), Pushes(EnergyGpu, backend, broken), id);
      status := EnergyCpuStart(name, id, broken);
      status := EnergyGpuStart(name, id, broken);
    }

    method EnergyCpuStop()
      requires Valid()
      modifies `stacks
      ensures Valid() && stacks == PopAll(old(stacks), Pops(EnergyCpu))
    {
      PopThree(stacks, Pdu, Rapl, CpuHwmon);
      Pop(Pdu);
      Pop(Rapl);
      Pop(CpuHwmon);
    }

    method EnergyGpuStop()
      requires Valid()
      modifies `stacks
      ensures Valid() && stacks == PopAll(old(stacks), Pops(EnergyGpu))
    {
      PopTwo(stacks, Amd, Nvidia);
      Pop(Amd);
      Pop(Nvidia);
    }

    method EnergyStop()
      requires Valid()
      modifies `stacks
      ensures Valid() && stacks == PopAll(old(stacks), Pops(Energy))
    {
      PopAllAppend(stacks, Pops(EnergyCpu), Pops(EnergyGpu));
      assert Pops(EnergyCpu) + Pops(EnergyGpu) == Pops(Energy);
      EnergyCpuStop();
      EnergyGpuStop();
    }

    method TemperatureStart(name: Option<string>, id: nat, broken: set<Slot>) returns (status: Status)
      requires Valid()
      modifies `stacks
      ensures Valid() && status == Outcome(initialized, name, [HwmonTemp, GpuTemp], broken)
      ensures stacks == if !initialized || name.None? then old(stacks)
                        else PushAll(old(stacks), Pushes(Temperature, backend, broken), id)
    {
      status := Check(name);
      if !status.Started? { return; }
      var made := Push(HwmonTemp, id, broken);
      TwoPushed(old(stacks), HwmonTemp, GpuTemp, id, broken);
      TwoBroken(HwmonTemp, GpuTemp, broken);
      if !made { return Failed; }
      made := Push(GpuTemp, id, broken);
      status := if made then Started else Failed;
    }

    method TemperatureStop()
      requires Valid()
      modifies `stacks
      ensures Valid() && stacks == PopAll(old(stacks), Pops(Temperature))
    {
      PopTwo(stacks, HwmonTemp, GpuTemp);
      Pop(HwmonTemp);
      Pop(GpuTemp);
    }

    /** Beside the checks of the other starts, this one refuses arrays that it cannot use. */
    method PerfStart(name: Option<string>, metrics: Names, events: Names, id: nat, broken: set<Slot>)
      returns (status: Status)
      requires Valid()
      modifies `stacks
      ensures Valid()
      ensures status == if initialized && Unusable(metrics, events) then InvalidArgument
                        else Outcome(initialized, name, [Perf], broken)
      ensures status == Started
              <==> && initialized && name != None && Perf !in broken
                   && (metrics.count == 0 || metrics.given) && (events.count == 0 || events.given)
                   && metrics.count + events.count > 0
      ensures stacks == if !initialized || name.None? || Unusable(metrics, events) then old(stacks)
                        else PushAll(old(stacks), Pushes(PerfKind, backend, broken), id)
    {
      status := Check(name);
      if !status.Started? { return; }
      if metrics.count > 0 && !metrics.given { return InvalidArgument; }
      if events.count > 0 && !events.given { return InvalidArgument; }
      if events.count == 0 && metrics.count == 0 { return InvalidArgument; }
      var made := Push(Perf, id, broken);
      OnePushed(old(stacks), Perf, id, broken);
      OneBroken(Perf, broken);
      status := if made then Started else Failed;
    }

    /** The four other functions that start a single profiler. */
    method SingleStart(kind: Kind, name: Option<string>, id: nat, broken: set<Slot>) returns (status: Status)
      requires Valid() && kind in {CallstackKind, DiskKind, TemperatureHwmon, TemperatureGpu}
      modifies `stacks
      ensures Valid() && status == Outcome(initialized, name, Pops(kind), broken)
      ensures stacks == if !initialized || name.None? then old(stacks)
                        else PushAll(old(stacks), Pushes(kind, backend, broken), id)
    {
      status := Check(name);
      if !status.Started? { return; }
      var made := Push(Pops(kind)[0], id, broken);
      OnePushed(old(stacks), Pops(kind)[0], id, broken);
      OneBroken(Pops(kind)[0], broken);
      status := if made then Started else Failed;
    }

    /** The five functions that stop a single profiler. */
    method SingleStop(kind: Kind)
      requires Valid() && kind !in {Energy, EnergyCpu, EnergyGpu, Temperature}
      modifies `stacks
      ensures Valid() && stacks == PopAll(old(stacks), Pops(kind))
    {
      PopOne(stacks, Pops(kind)[0]);
      Pop(Pops(kind)[0]);
    }
  }

  lemma OnePushed(s: Stacks, slot: Slot, id: nat, broken: set<Slot>)
    requires Total(s)
    ensures PushAll(s, Made([slot], broken), id) == if slot in broken then s else s[slot := s[slot] + [id]]
  {
    assert Made([slot], broken) == if slot in broken then [] else [slot];
  }

  lemma TwoPushed(s: Stacks, first: Slot, second: Slot, id: nat, broken: set<Slot>)
    requires Total(s)
    ensures var one := s[first := s[first] + [id]];
            PushAll(s, Made([first, second], broken), id)
            == if first in broken then s else if second in broken then one else one[second := one[second] + [id]]
  {
    assert Made([first, second], broken)
        == if first in broken then [] else [first] + Made([second], broken);
    var one := s[first := s[first] + [id]];
    OnePushed(one, second, id, broken);
    assert ([first] + Made([second], broken))[1..] == Made([second], broken);
  }

  lemma {:induction false} PushAllAppend(s: Stacks, a: seq<Slot>, b: seq<Slot>, id: nat)
    requires Total(s)
    ensures PushAll(s, a + b, id) == PushAll(PushAll(s, a, id), b, id)
  {
    if a == [] {
      assert a + b == b;
    } else {
      PushAllAppend(s[a[0] := s[a[0]] + [id]], a[1..], b, id);
      assert (a + b)[1..] == a[1..] + b;
    }
  }

  lemma {:induction false} PopAllAppend(s: Stacks, a: seq<Slot>, b: seq<Slot>)
    requires Total(s)
    ensures PopAll(s, a + b) == PopAll(PopAll(s, a), b)
  {
    if a == [] {
      assert a + b == b;
    } else {
      PopAllAppend(s[a[0] := Popped(s[a[0]])], a[1..], b);
      assert (a + b)[1..] == a[1..] + b;
    }
  }

  lemma PopOne(s: Stacks, slot: Slot)
    requires Total(s)
    ensures PopAll(s, [slot]) == s[slot := Popped(s[slot])]
  {
  }

  lemma PopTwo(s: Stacks, first: Slot, second: Slot)
    requires Total(s)
    ensures var one := s[first := Popped(s[first])];
            PopAll(s, [first, second]) == one[second := Popped(one[second])]
  {
    PopAllAppend(s, [first], [second]);
    assert [first] + [second] == [first, second];
  }

  lemma PopThree(s: Stacks, first: Slot, second: Slot, third: Slot)
    requires Total(s)
    ensures var one := s[first := Popped(s[first])];
            var two := one[second := Popped(one[second])];
            PopAll(s, [first, second, third]) == two[third := Popped(two[third])]
  {
    PopAllAppend(s, [first, second], [third]);
    assert [first, second] + [third] == [first, second, third];
    PopTwo(s, first, second);
  }

  // ---- One stack at a time ---------------------------------------------

  datatype Op = Start(kind: Kind, id: nat) | Stop(kind: Kind)

  /** A call, with the successful start of every profiler. */
  function Step(s: Stacks, backend: Slot, op: Op): (r: Stacks)
    requires Total(s)
    ensures Total(r)
  {
    if op.Start? then PushAll(s, Pushes(op.kind, backend, {}), op.id) else PopAll(s, Pops(op.kind))
  }

  function Run(s: Stacks, backend: Slot, ops: seq<Op>): (r: Stacks)
    requires Total(s)
    ensures Total(r)
  {
    if ops == [] then s else Step(Run(s, backend, ops[..|ops| - 1]), backend, ops[|ops| - 1])
  }

  /** What the call does to one stack. */
  function StackStep(stack: seq<nat>, slot: Slot, backend: Slot, op: Op): seq<nat> {
    if slot !in Pops(op.kind) then stack
    else if op.Stop? then Popped(stack)
    else if slot in CPU_ENERGY && slot != backend then stack
    else stack + [op.id]
  }

  function StackRun(stack: seq<nat>, slot: Slot, backend: Slot, ops: seq<Op>): seq<nat> {
    if ops == [] then stack
    else StackStep(StackRun(stack, slot, backend, ops[..|ops| - 1]), slot, backend, ops[|ops| - 1])
  }

  lemma {:induction false} PushAllAt(s: Stacks, slots: seq<Slot>, id: nat, slot: Slot)
    requires Total(s) && Distinct(slots)
    ensures PushAll(s, slots, id)[slot] == if slot in slots then s[slot] + [id] else s[slot]
  {
    if slots != [] {
      PushAllAt(s[slots[0] := s[slots[0]] + [id]], slots[1..], id, slot);
      assert slots == [slots[0]] + slots[1..];
    }
  }

  lemma {:induction false} PopAllAt(s: Stacks, slots: seq<Slot>, slot: Slot)
    requires Total(s) && Distinct(slots)
    ensures PopAll(s, slots)[slot] == if slot in slots then Popped(s[slot]) else s[slot]
  {
    if slots != [] {
      PopAllAt(s[slots[0] := Popped(s[slots[0]])], slots[1..], slot);
      assert slots == [slots[0]] + slots[1..];
    }
  }

  lemma MadeOne(slot: Slot, broken: set<Slot>)
    ensures Made([slot], broken) == if slot in broken then [] else [slot]
  {
  }

  lemma MadeTwo(first: Slot, second: Slot, broken: set<Slot>)
    ensures Made([first, second], broken)
         == if first in broken then [] else if second in broken then [first] else [first, second]
  {
    MadeOne(second, broken);
    assert [first, second][1..] == [second];
  }

  lemma InThree(slot: Slot, a: Slot, b: Slot, c: Slot)
    ensures slot in [a, b, c] <==> slot == a || slot == b || slot == c
  {
  }

  lemma CpuPushesArePops(backend: Slot, slot: Slot)
    requires backend in CPU_ENERGY
    ensures slot in Pushes(EnergyCpu, backend, {}) <==> slot == backend
    ensures slot in Pops(EnergyCpu) <==> slot in CPU_ENERGY
  {
    MadeOne(backend, {});
    InThree(slot, Pdu, Rapl, CpuHwmon);
  }

  lemma GpuPushesArePops(backend: Slot, slot: Slot)
    ensures slot in Pushes(EnergyGpu, backend, {}) <==> slot == Nvidia || slot == Amd
    ensures slot in Pops(EnergyGpu) <==> slot == Nvidia || slot == Amd
  {
    MadeTwo(Nvidia, Amd, {});
  }

  lemma EnergyIsBoth(backend: Slot)
    ensures Pushes(Energy, backend, {}) == Pushes(EnergyCpu, backend, {}) + Pushes(EnergyGpu, backend, {})
    ensures Pops(Energy) == Pops(EnergyCpu) + Pops(EnergyGpu)
  {
  }

  /** A start pushes to no stack that its stop does not pop, and to the selected backend only. */
  lemma PushesArePops(kind: Kind, backend: Slot, slot: Slot)
    requires backend in CPU_ENERGY
    ensures slot in Pushes(kind, backend, {}) <==> slot in Pops(kind) && (slot in CPU_ENERGY ==> slot == backend)
  {
    hide Made;
    match kind
    case Energy => EnergyIsBoth(backend); CpuPushesArePops(backend, slot); GpuPushesArePops(backend, slot);
    case EnergyCpu => CpuPushesArePops(backend, slot);
    case EnergyGpu => GpuPushesArePops(backend, slot);
    case Temperature => MadeTwo(HwmonTemp, GpuTemp, {});
    case PerfKind => MadeOne(Perf, {});
    case CallstackKind => MadeOne(Callstack, {});
    case DiskKind => MadeOne(Disk, {});
    case TemperatureHwmon => MadeOne(HwmonTemp, {});
    case TemperatureGpu => MadeOne(GpuTemp, {});
  }

  /** A start, successful or not, pushes once to some of the stacks that its stop pops. */
  lemma PushesDistinct(kind: Kind, backend: Slot, broken: set<Slot>)
    requires backend in CPU_ENERGY
    ensures Distinct(Pushes(kind, backend, broken))
    ensures forall slot :: slot in Pushes(kind, backend, broken) ==> slot in Pops(kind)
  {
    hide Made;
    match kind
    case PerfKind => MadeOne(Perf, broken);
    case Energy => MadeOne(backend, broken); MadeTwo(Nvidia, Amd, broken);
    case EnergyCpu => MadeOne(backend, broken);
    case EnergyGpu => MadeTwo(Nvidia, Amd, broken);
    case CallstackKind => MadeOne(Callstack, broken);
    case DiskKind => MadeOne(Disk, broken);
    case Temperature => MadeTwo(HwmonTemp, GpuTemp, broken);
    case TemperatureHwmon => MadeOne(HwmonTemp, broken);
    case TemperatureGpu => MadeOne(GpuTemp, broken);
  }

  lemma StepAt(s: Stacks, backend: Slot, op: Op, slot: Slot)
    requires Total(s) && backend in CPU_ENERGY
    ensures Step(s, backend, op)[slot] == StackStep(s[slot], slot, backend, op)
  {
    if op.Start? {
      PushesArePops(op.kind, backend, slot);
      PushesDistinct(op.kind, backend, {});
      PushAllAt(s, Pushes(op.kind, backend, {}), op.id, slot);
    } else {
      PopAllAt(s, Pops(op.kind), slot);
    }
  }

  /** The stacks are independent: what a run does to one is a run on that stack alone. */
  lemma {:induction false} RunAt(s: Stacks, backend: Slot, ops: seq<Op>, slot: Slot)
    requires Total(s) && backend in CPU_ENERGY
    ensures Run(s, backend, ops)[slot] == StackRun(s[slot], slot, backend, ops)
  {
    if ops != [] {
      var n := |ops| - 1;
      RunAt(s, backend, ops[..n], slot);
      StepAt(Run(s, backend, ops[..n]), backend, ops[n], slot);
    }
  }

  // ---- Well-bracketed words --------------------------------------------

  /** Nested pairs of start and stop, each start with its own name. */
  datatype Word = Empty | Bracket(kind: Kind, id: nat, inner: Word, rest: Word)

  function Ops(word: Word): seq<Op> {
    match word
    case Empty => []
    case Bracket(kind, id, inner, rest) => [Start(kind, id)] + Ops(inner) + [Stop(kind)] + Ops(rest)
  }

  lemma {:induction false} StackRunAppend(stack: seq<nat>, slot: Slot, backend: Slot, a: seq<Op>, b: seq<Op>)
    ensures StackRun(stack, slot, backend, a + b) == StackRun(StackRun(stack, slot, backend, a), slot, backend, b)
  {
    hide StackStep;
    if b == [] {
      assert a + b == a;
    } else {
      var n := |b| - 1;
      StackRunAppend(stack, slot, backend, a, b[..n]);
      assert (a + b)[..|a + b| - 1] == a + b[..n];
    }
  }

  lemma StackRunOne(stack: seq<nat>, slot: Slot, backend: Slot, op: Op)
    ensures StackRun(stack, slot, backend, [op]) == StackStep(stack, slot, backend, op)
  {
    assert [op][..0] == [];
  }

  /** The stack of an unselected energy backend stays empty in every run, so that its pops do nothing. */
  lemma {:induction false} UnselectedStaysEmpty(slot: Slot, backend: Slot, ops: seq<Op>)
    requires slot in CPU_ENERGY && slot != backend
    ensures StackRun([], slot, backend, ops) == []
  {
    if ops != [] {
      UnselectedStaysEmpty(slot, backend, ops[..|ops| - 1]);
    }
  }

  lemma Bracketed(stack: seq<nat>, slot: Slot, backend: Slot, kind: Kind, id: nat)
    requires slot in CPU_ENERGY && slot != backend ==> stack == []
    ensures StackStep(StackStep(stack, slot, backend, Start(kind, id)), slot, backend, Stop(kind)) == stack
    ensures slot in CPU_ENERGY && slot != backend ==> StackStep(stack, slot, backend, Start(kind, id)) == []
  {
  }

  lemma {:induction false} WordOnStack(stack: seq<nat>, slot: Slot, backend: Slot, word: Word)
    requires slot in CPU_ENERGY && slot != backend ==> stack == []
    ensures StackRun(stack, slot, backend, Ops(word)) == stack
    decreases word
  {
    match word
    case Empty =>
    case Bracket(kind, id, inner, rest) =>
      var a, b, c, d := [Start(kind, id)], Ops(inner), [Stop(kind)], Ops(rest);
      Bracketed(stack, slot, backend, kind, id);
      StackRunOne(stack, slot, backend, Start(kind, id));
      var up := StackRun(stack, slot, backend, a);
      WordOnStack(up, slot, backend, inner);
      StackRunOne(up, slot, backend, Stop(kind));
      StackRunAppend(stack, slot, backend, a, b);
      StackRunAppend(stack, slot, backend, a + b, c);
      StackRunAppend(stack, slot, backend, a + b + c, d);
      WordOnStack(stack, slot, backend, rest);
  }

  ghost predicate UnselectedEmpty(s: Stacks, backend: Slot)
    requires Total(s)
  {
    forall slot | slot in CPU_ENERGY && slot != backend :: s[slot] == []
  }

  /** The calls of a run that touch one stack. */
  function Touching(ops: seq<Op>, slot: Slot): seq<Op> {
    if ops == [] then []
    else
      var n := |ops| - 1;
      Touching(ops[..n], slot) + if slot in Pops(ops[n].kind) then [ops[n]] else []
  }

  lemma {:induction false} TouchingSuffices(stack: seq<nat>, slot: Slot, backend: Slot, ops: seq<Op>)
    ensures StackRun(stack, slot, backend, Touching(ops, slot)) == StackRun(stack, slot, backend, ops)
  {
    if ops != [] {
      var n := |ops| - 1;
      TouchingSuffices(stack, slot, backend, ops[..n]);
      if slot in Pops(ops[n].kind) {
        StackRunAppend(stack, slot, backend, Touching(ops[..n], slot), [ops[n]]);
        StackRunOne(StackRun(stack, slot, backend, ops[..n]), slot, backend, ops[n]);
      } else {
        assert Touching(ops, slot) == Touching(ops[..n], slot);
      }
    }
  }

  /** To each stack the run looks like a well-bracketed word. Every well-bracketed word is such a run, and so are
      those where pairs on different stacks overlap. */
  ghost predicate LooksBracketed(ops: seq<Op>, slot: Slot) {
    exists word :: Touching(ops, slot) == Touching(Ops(word), slot)
  }

  /** Every run that looks well-bracketed to each stack leaves all stacks exactly as they were. */
  lemma BracketedRunsRestore(s: Stacks, backend: Slot, ops: seq<Op>)
    requires Total(s) && backend in CPU_ENERGY && UnselectedEmpty(s, backend)
    requires forall slot :: LooksBracketed(ops, slot)
    ensures Run(s, backend, ops) == s
  {
    forall slot: Slot ensures Run(s, backend, ops)[slot] == s[slot] {
      RunAt(s, backend, ops, slot);
      assert LooksBracketed(ops, slot);
      var word :| Touching(ops, slot) == Touching(Ops(word), slot);
      TouchingSuffices(s[slot], slot, backend, ops);
      TouchingSuffices(s[slot], slot, backend, Ops(word));
      WordOnStack(s[slot], slot, backend, word);
    }
  }

  lemma WordsRestore(s: Stacks, backend: Slot, word: Word)
    requires Total(s) && backend in CPU_ENERGY && UnselectedEmpty(s, backend)
    ensures Run(s, backend, Ops(word)) == s
  {
    forall slot ensures LooksBracketed(Ops(word), slot) {
    }
    BracketedRunsRestore(s, backend, Ops(word));
  }

  /** Each stop destroys precisely the profilers of its start: behind a start and any well-bracketed word, exactly
      the stacks the start pushed to have its profiler on top, and no other stack that is popped has any. */
  lemma StopDestroysItsStart(s: Stacks, backend: Slot, kind: Kind, id: nat, inner: Word, slot: Slot)
    requires Total(s) && backend in CPU_ENERGY && UnselectedEmpty(s, backend) && slot in Pops(kind)
    ensures var now := Run(Step(s, backend, Start(kind, id)), backend, Ops(inner));
            if slot in Pushes(kind, backend, {}) then now[slot] == s[slot] + [id] else now[slot] == []
  {
    var started := Step(s, backend, Start(kind, id));
    forall other | other in CPU_ENERGY && other != backend ensures started[other] == [] {
      StepAt(s, backend, Start(kind, id), other);
    }
    WordsRestore(started, backend, inner);
    StepAt(s, backend, Start(kind, id), slot);
    PushesArePops(kind, backend, slot);
  }

  // ---- When a start fails, or the backend changes ----------------------

  /** The stacks that the stop pops and the start should have pushed to have lost a profiler. */
  ghost predicate Robs(s: Stacks, kind: Kind, backend: Slot, broken: set<Slot>)
    requires Total(s)
  {
    exists slot :: slot in Pops(kind) && slot !in Pushes(kind, backend, broken) && s[slot] != []
  }

  lemma StartStopAt(s: Stacks, kind: Kind, backend: Slot, broken: set<Slot>, id: nat, slot: Slot)
    requires Total(s) && backend in CPU_ENERGY
    ensures PopAll(PushAll(s, Pushes(kind, backend, broken), id), Pops(kind))[slot]
         == if slot in Pops(kind) && slot !in Pushes(kind, backend, broken) then Popped(s[slot]) else s[slot]
  {
    var slots := Pushes(kind, backend, broken);
    PushesDistinct(kind, backend, broken);
    PushAllAt(s, slots, id, slot);
    PopAllAt(PushAll(s, slots, id), Pops(kind), slot);
  }

  /** A start and its stop leave the stacks as they were if and only if every stack that the start did not push to,
      because a profiler could not be made or another backend is selected, was empty. */
  lemma StartStopRestoresIff(s: Stacks, kind: Kind, backend: Slot, broken: set<Slot>, id: nat)
    requires Total(s) && backend in CPU_ENERGY
    ensures PopAll(PushAll(s, Pushes(kind, backend, broken), id), Pops(kind)) == s <==> !Robs(s, kind, backend, broken)
  {
    hide PushAll;
    var down := PopAll(PushAll(s, Pushes(kind, backend, broken), id), Pops(kind));
    forall slot: Slot
      ensures down[slot] == s[slot]
              <==> !(slot in Pops(kind) && slot !in Pushes(kind, backend, broken) && s[slot] != [])
    {
      StartStopAt(s, kind, backend, broken, id, slot);
    }
  }

  /** A start of all energy profilers that is reported as a success and its stop leave the stacks as they were if and
      only if no unselected CPU backend has profilers, and the selected one could be started or had none either. */
  lemma ReportedStartRestoresIff(s: Stacks, backend: Slot, name: Option<string>, broken: set<Slot>, id: nat)
    requires Total(s) && backend in CPU_ENERGY && Outcome(true, name, [Nvidia, Amd], broken).Started?
    ensures PopAll(PushAll(s, Pushes(Energy, backend, broken), id), Pops(Energy)) == s
            <==> UnselectedEmpty(s, backend) && (backend !in broken || s[backend] == [])
  {
    hide Made, PopAll;
    StartStopRestoresIff(s, Energy, backend, broken, id);
    TwoBroken(Nvidia, Amd, broken);
    MadeOne(backend, broken);
    MadeTwo(Nvidia, Amd, broken);
    forall slot: Slot
      ensures slot in Pops(Energy) && slot !in Pushes(Energy, backend, broken)
              <==> slot in CPU_ENERGY && (slot != backend || backend in broken)
    {
    }
  }

  /** With one RAPL profiler running, a start whose RAPL profiler cannot be made is reported as a success, and its stop
      ends the one that was running. */
  lemma ReportedStartRobs(id: nat)
    ensures var s := NoProfilers()[Rapl := [0]];
            && Outcome(true, Some("block"), [Nvidia, Amd], {Rapl}).Started?
            && PopAll(PushAll(s, Pushes(Energy, Rapl, {Rapl}), id), Pops(Energy)) == NoProfilers()
  {
    hide PopAll, PushAll;
    var s := NoProfilers()[Rapl := [0]];
    TwoBroken(Nvidia, Amd, {Rapl});
    MadeOne(Rapl, {Rapl});
    forall slot: Slot
      ensures PopAll(PushAll(s, Pushes(Energy, Rapl, {Rapl}), id), Pops(Energy))[slot] == NoProfilers()[slot]
    {
      StartStopAt(s, Energy, Rapl, {Rapl}, id, slot);
    }
  }

  // ---- Stack by stack --------------------------------------------------

  function With(s: Stacks, slot: Slot, id: nat): (r: Stacks)
    requires Total(s)
    ensures Total(r)
  {
    s[slot := s[slot] + [id]]
  }

  /** The starts of one profiler: each puts it on the stack of its own kind. */
  lemma StartsOne(s: Stacks, backend: Slot, id: nat, broken: set<Slot>)
    requires Total(s)
    ensures PushAll(s, Pushes(PerfKind, backend, broken), id) == if Perf in broken then s else With(s, Perf, id)
    ensures PushAll(s, Pushes(CallstackKind, backend, broken), id)
         == if Callstack in broken then s else With(s, Callstack, id)
    ensures PushAll(s, Pushes(DiskKind, backend, broken), id) == if Disk in broken then s else With(s, Disk, id)
    ensures PushAll(s, Pushes(TemperatureHwmon, backend, broken), id)
         == if HwmonTemp in broken then s else With(s, HwmonTemp, id)
    ensures PushAll(s, Pushes(TemperatureGpu, backend, broken), id)
         == if GpuTemp in broken then s else With(s, GpuTemp, id)
    ensures PushAll(s, Pushes(EnergyCpu, backend, broken), id)
         == if backend in broken then s else With(s, backend, id)
  {
    hide PushAll, Made;
    OnePushed(s, Perf, id, broken);
    OnePushed(s, Callstack, id, broken);
    OnePushed(s, Disk, id, broken);
    OnePushed(s, HwmonTemp, id, broken);
    OnePushed(s, GpuTemp, id, broken);
    OnePushed(s, backend, id, broken);
  }

  /** The starts of several: NVIDIA before AMD, hwmon before the GPU, and nothing behind one that cannot be made. The
      GPUs are started whatever became of the CPU. */
  lemma StartsMore(s: Stacks, backend: Slot, id: nat, broken: set<Slot>)
    requires Total(s)
    ensures PushAll(s, Pushes(EnergyGpu, backend, broken), id)
         == if Nvidia in broken then s
            else if Amd in broken then With(s, Nvidia, id) else With(With(s, Nvidia, id), Amd, id)
    ensures PushAll(s, Pushes(Temperature, backend, broken), id)
         == if HwmonTemp in broken then s
            else if GpuTemp in broken then With(s, HwmonTemp, id) else With(With(s, HwmonTemp, id), GpuTemp, id)
    ensures var cpu := if backend in broken then s else With(s, backend, id);
            PushAll(s, Pushes(Energy, backend, broken), id)
            == if Nvidia in broken then cpu
               else if Amd in broken then With(cpu, Nvidia, id) else With(With(cpu, Nvidia, id), Amd, id)
  {
    hide PushAll, Made;
    var cpu := if backend in broken then s else With(s, backend, id);
    TwoPushed(s, Nvidia, Amd, id, broken);
    TwoPushed(s, HwmonTemp, GpuTemp, id, broken);
    OnePushed(s, backend, id, broken);
    TwoPushed(cpu, Nvidia, Amd, id, broken);
    PushAllAppend(s, Made([backend], broken), Made([Nvidia, Amd], broken), id);
  }

  /** Which stacks a stop pops, each once. */
  predicate Stops(kind: Kind, slot: Slot) {
    match kind
    case PerfKind => slot == Perf
    case Energy => slot in {Pdu, Rapl, CpuHwmon, Nvidia, Amd}
    case EnergyCpu => slot in {Pdu, Rapl, CpuHwmon}
    case EnergyGpu => slot in {Nvidia, Amd}
    case CallstackKind => slot == Callstack
    case DiskKind => slot == Disk
    case Temperature => slot in {HwmonTemp, GpuTemp}
    case TemperatureHwmon => slot == HwmonTemp
    case TemperatureGpu => slot == GpuTemp
  }

  /** A stop takes the latest profiler off each of its stacks, and leaves the others alone. */
  lemma StopsEach(s: Stacks, kind: Kind, slot: Slot)
    requires Total(s)
    ensures PopAll(s, Pops(kind))[slot]
         == if Stops(kind, slot) && s[slot] != [] then s[slot][..|s[slot]| - 1] else s[slot]
  {
    PopsOnce(kind, slot);
    PopAllOnce(s, Pops(kind), slot);
  }

  lemma PopsOnce(kind: Kind, slot: Slot)
    ensures Distinct(Pops(kind)) && (slot in Pops(kind) <==> Stops(kind, slot))
  {
  }

  lemma {:induction false} PopAllOnce(s: Stacks, slots: seq<Slot>, slot: Slot)
    requires Total(s) && Distinct(slots)
    ensures PopAll(s, slots)[slot] == if slot in slots then Popped(s[slot]) else s[slot]
  {
    if slots != [] {
      var one := s[slots[0] := Popped(s[slots[0]])];
      PopAllOnce(one, slots[1..], slot);
      assert slots == [slots[0]] + slots[1..];
    }
  }

  /** What a start reports: first that nothing has been initialised, then a missing name, then a profiler that cannot be
      made. */
  lemma OutcomeIs(initialized: bool, name: Option<string>, slots: seq<Slot>, broken: set<Slot>)
    ensures var status := Outcome(initialized, name, slots, broken);
            && (status == NotInitialized <==> !initialized)
            && (status == InvalidArgument <==> initialized && name == None)
            && (status == Started <==> initialized && name != None && forall slot :: slot in slots ==> slot !in broken)
  {
  }
}
