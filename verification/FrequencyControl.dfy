/** The two hysteresis controllers of tools/optkit-daemon/main.cc. Frequencies are in kHz. */
module FrequencyControl {
  const THRESHOLD: int := 180000
  const NEVER: int := -1

  /** One predicted frequency: not finite or not positive, or rounded to kHz. */
  datatype Prediction = Invalid | Target(khz: nat)

  function Abs(x: int): nat {
    if x < 0 then -x else x
  }

  predicate Applies(last: int, p: Prediction) {
    p.Target? && (last < 0 || Abs(p.khz - last) >= THRESHOLD)
  }

  /** The last applied value after one prediction. */
  function Next(last: int, p: Prediction): int {
    if Applies(last, p) then p.khz else last
  }

  /** 0.18 GHz or more away, or the first one. */
  predicate Moves(last: int, khz: int) {
    last < 0 || khz >= last + 180000 || khz <= last - 180000
  }

  // ---- One tick --------------------------------------------------------

  class Governor {
    var lastCore: int
    var lastUncore: int
    const coreCommand: array<int>  // what each socket was last commanded, NEVER before the first command
    const uncoreCommand: array<int>

    ghost predicate Valid()
      reads this, coreCommand, uncoreCommand
    {
      && coreCommand != uncoreCommand
      && (forall s :: 0 <= s < coreCommand.Length ==> coreCommand[s] == lastCore)
      && (forall s :: 0 <= s < uncoreCommand.Length ==> uncoreCommand[s] == lastUncore)
    }

    constructor (sockets: nat)
      ensures Valid() && lastCore == lastUncore == NEVER
      ensures coreCommand.Length == uncoreCommand.Length == sockets
      ensures fresh(coreCommand) && fresh(uncoreCommand)
    {
      lastCore, lastUncore := NEVER, NEVER;
      coreCommand := new int[sockets](_ => NEVER);
      uncoreCommand := new int[sockets](_ => NEVER);
    }

    method CommandAll(commands: array<int>, khz: int)
      modifies commands
      ensures forall s :: 0 <= s < commands.Length ==> commands[s] == khz
    {
      for socket := 0 to commands.Length
        invariant forall s :: 0 <= s < socket ==> commands[s] == khz
      {
        commands[socket] := khz;
      }
    }

    /** One output of the model: core alone, or core and uncore; anything beyond is ignored. */
    method Apply(outputs: seq<Prediction>)
      requires Valid()
      modifies this, coreCommand, uncoreCommand
      ensures Valid()
      ensures lastCore == Next(old(lastCore), CoreOf(outputs))
      ensures lastUncore == Next(old(lastUncore), UncoreOf(outputs))
      // The first prediction goes to the cores and the second one to the uncore, each with its own memory.
      ensures lastCore == if |outputs| >= 1 && outputs[0].Target? && Moves(old(lastCore), outputs[0].khz)
                          then outputs[0].khz else old(lastCore)
      ensures lastUncore == if |outputs| >= 2 && outputs[1].Target? && Moves(old(lastUncore), outputs[1].khz)
                            then outputs[1].khz else old(lastUncore)
      ensures forall s :: 0 <= s < coreCommand.Length ==> coreCommand[s] == lastCore
      ensures forall s :: 0 <= s < uncoreCommand.Length ==> uncoreCommand[s] == lastUncore
    {
      if |outputs| != 0 {
        var core := outputs[0];
        if core.Target? {
          var diff := if lastCore < 0 then THRESHOLD else Abs(core.khz - lastCore);
          if diff >= THRESHOLD {
            CommandAll(coreCommand, core.khz);
            lastCore := core.khz;
          }
        }
        if |outputs| >= 2 {
          var uncore := outputs[1];
          if uncore.Target? {
            var diff := if lastUncore < 0 then THRESHOLD else Abs(uncore.khz - lastUncore);
            if diff >= THRESHOLD {
              CommandAll(uncoreCommand, uncore.khz);
              lastUncore := uncore.khz;
            }
          }
        }
      }
    }
  }

  /** The core prediction of a model output. */
  function CoreOf(outputs: seq<Prediction>): Prediction {
    if |outputs| == 0 then Invalid else outputs[0]
  }

  function UncoreOf(outputs: seq<Prediction>): Prediction {
    if |outputs| < 2 then Invalid else outputs[1]
  }

  // ---- Runs of one controller ------------------------------------------

  /** The last applied value after a run. */
  function Run(ps: seq<Prediction>): int {
    if ps == [] then NEVER else Next(Run(ps[..|ps| - 1]), ps[|ps| - 1])
  }

  /** The values that were applied, in order. */
  function Applied(ps: seq<Prediction>): seq<int> {
    if ps == [] then []
    else
      var n := |ps| - 1;
      Applied(ps[..n]) + if Applies(Run(ps[..n]), ps[n]) then [ps[n].khz] else []
  }

  /** The valid targets, in order. */
  function Targets(ps: seq<Prediction>): seq<int> {
    if ps == [] then []
    else
      var n := |ps| - 1;
      Targets(ps[..n]) + if ps[n].Target? then [ps[n].khz] else []
  }

  /** The total variation of a list of frequencies. */
  function Variation(xs: seq<int>): nat {
    if |xs| < 2 then 0 else Variation(xs[..|xs| - 1]) + Abs(xs[|xs| - 1] - xs[|xs| - 2])
  }

  lemma {:induction false} RunIsLastApplied(ps: seq<Prediction>)
    ensures Applied(ps) == [] <==> Run(ps) == NEVER
    ensures Applied(ps) != [] <==> Run(ps) >= 0
    ensures Applied(ps) != [] ==> Run(ps) == Applied(ps)[|Applied(ps)| - 1]
    ensures Targets(ps) == [] <==> Applied(ps) == []
  {
    if ps != [] {
      RunIsLastApplied(ps[..|ps| - 1]);
    }
  }

  /** After a valid prediction the applied value is less than the threshold away from it. */
  lemma AppliedIsClose(ps: seq<Prediction>, p: Prediction)
    requires p.Target?
    ensures Run(ps + [p]) >= 0 && Abs(Run(ps + [p]) - p.khz) < THRESHOLD
  {
    assert (ps + [p])[..|ps|] == ps;
    RunIsLastApplied(ps);
  }

  /** Consecutive applied values are at least the threshold apart. */
  lemma {:induction false} StepsAreLarge(ps: seq<Prediction>, i: nat)
    requires i + 1 < |Applied(ps)|
    ensures Abs(Applied(ps)[i + 1] - Applied(ps)[i]) >= THRESHOLD
  {
    var n := |ps| - 1;
    RunIsLastApplied(ps[..n]);
    if i + 1 < |Applied(ps[..n])| {
      StepsAreLarge(ps[..n], i);
    }
  }

  lemma VariationSnoc(xs: seq<int>, x: int)
    requires xs != []
    ensures Variation(xs + [x]) == Variation(xs) + Abs(x - xs[|xs| - 1])
  {
    assert (xs + [x])[..|xs|] == xs;
  }

  /** The variation pays for the changes made so far and for the distance to the latest target. */
  lemma {:induction false} VariationPays(ps: seq<Prediction>)
    requires Targets(ps) != []
    ensures Applied(ps) != []
    ensures var ts := Targets(ps);
            THRESHOLD * (|Applied(ps)| - 1) + Abs(ts[|ts| - 1] - Run(ps)) <= Variation(ts)
  {
    RunIsLastApplied(ps);
    var n := |ps| - 1;
    var before := Targets(ps[..n]);
    RunIsLastApplied(ps[..n]);
    if ps[n].Invalid? {
      assert Targets(ps) == before && Applied(ps) == Applied(ps[..n]);
      VariationPays(ps[..n]);
    } else if before != [] {
      VariationPays(ps[..n]);
      VariationSnoc(before, ps[n].khz);
    }
  }

  /** On every run, each frequency change after the first costs at least the threshold in variation of the targets. */
  lemma ChangesAreBounded(ps: seq<Prediction>)
    ensures THRESHOLD * (|Applied(ps)| - 1) <= Variation(Targets(ps))
  {
    RunIsLastApplied(ps);
    if Targets(ps) != [] {
      VariationPays(ps);
    }
  }

  // ---- Both controllers ------------------------------------------------

  function Cores(outputs: seq<seq<Prediction>>): seq<Prediction> {
    seq(|outputs|, i requires 0 <= i < |outputs| => CoreOf(outputs[i]))
  }

  function Uncores(outputs: seq<seq<Prediction>>): seq<Prediction> {
    seq(|outputs|, i requires 0 <= i < |outputs| => UncoreOf(outputs[i]))
  }

  /** The daemon's loop over the outputs of the model: the two controllers run independently, each on its own
      predictions, and every socket was last commanded what its controller last applied. */
  method Control(outputs: seq<seq<Prediction>>, sockets: nat) returns (governor: Governor)
    ensures governor.Valid() && governor.coreCommand.Length == governor.uncoreCommand.Length == sockets
    ensures governor.lastCore == Run(Cores(outputs)) && governor.lastUncore == Run(Uncores(outputs))
  {
    governor := new Governor(sockets);
    for i := 0 to |outputs|
      invariant governor.Valid() && fresh(governor) && fresh(governor.coreCommand) && fresh(governor.uncoreCommand)
      invariant governor.coreCommand.Length == governor.uncoreCommand.Length == sockets
      invariant governor.lastCore == Run(Cores(outputs[..i])) && governor.lastUncore == Run(Uncores(outputs[..i]))
    {
      governor.Apply(outputs[i]);
      assert Cores(outputs[..i + 1])[..i] == Cores(outputs[..i]);
      assert Uncores(outputs[..i + 1])[..i] == Uncores(outputs[..i]);
    }
    assert outputs[..|outputs|] == outputs;
  }
}
