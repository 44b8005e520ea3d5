/** `set_core_freq` and `set_uncore_freq` of tools/optkit-setenv/cpu.cc: all sockets or a rollback. */
module FrequencyRollback {
  /** The setting of a frequency domain of one socket. `Partial` is what a call that fails among the cores of the
      socket may leave. */
  datatype Setting = Default | Fixed(khz: int) | Partial

  /** What the driver does when a socket is set; a failing call may leave any setting behind. */
  datatype Attempt = Sets | Fails(left: Setting)

  /** The first socket that cannot be set, or their number. */
  function FirstFailure(attempts: seq<Attempt>): (r: nat)
    ensures r <= |attempts|
    ensures forall i :: 0 <= i < r ==> attempts[i].Sets?
    ensures r < |attempts| ==> attempts[r].Fails?
  {
    if attempts == [] || attempts[0].Fails? then 0 else 1 + FirstFailure(attempts[1..])
  }

  lemma {:induction false} FailsFirstAt(attempts: seq<Attempt>, r: nat)
    requires r <= |attempts| && forall i :: 0 <= i < r ==> attempts[i].Sets?
    requires r < |attempts| ==> attempts[r].Fails?
    ensures FirstFailure(attempts) == r
  {
    if r > 0 {
      FailsFirstAt(attempts[1..], r - 1);
    }
  }

  /** A socket after the rollback that a failure at socket `failed` starts: the sockets before it are reset, if the
      reset works. Without a failure they all have the new frequency. */
  function SettingAfter(before: Setting, khz: int, attempts: seq<Attempt>, resets: seq<bool>, i: nat): Setting
    requires i < |attempts| == |resets|
  {
    var failed := FirstFailure(attempts);
    if failed == |attempts| then Fixed(khz)
    else if i < failed then if resets[i] then Default else Fixed(khz)
    else if i == failed then attempts[failed].left
    else before
  }

  function After(before: seq<Setting>, khz: int, attempts: seq<Attempt>, resets: seq<bool>): (r: seq<Setting>)
    requires |before| == |attempts| == |resets|
    ensures |r| == |before|
  {
    seq(|before|, i requires 0 <= i < |before| => SettingAfter(before[i], khz, attempts, resets, i))
  }

  predicate Succeeds(attempts: seq<Attempt>) {
    FirstFailure(attempts) == |attempts|
  }

  class Cpu {
    const core: array<Setting>
    const uncore: array<Setting>
    var coreFreq: int
    var uncoreFreq: int

    constructor (sockets: nat)
      ensures fresh(core) && fresh(uncore) && core != uncore && core.Length == uncore.Length == sockets
      ensures coreFreq == uncoreFreq == 0
    {
      core := new Setting[sockets](_ => Default);
      uncore := new Setting[sockets](_ => Default);
      coreFreq, uncoreFreq := 0, 0;
    }

    method SetCoreFreq(khz: int, attempts: seq<Attempt>, resets: seq<bool>) returns (r: bool)
      requires |attempts| == |resets| == core.Length
      modifies `coreFreq, core
      ensures r <==> Succeeds(attempts)
      ensures core[..] == After(old(core[..]), khz, attempts, resets)
      ensures coreFreq == if r then khz else old(coreFreq)
      ensures core != uncore ==> uncore[..] == old(uncore[..])
    {
      var socket := 0;
      while socket < core.Length
        invariant socket <= core.Length
        invariant coreFreq == old(coreFreq)
        invariant forall i :: 0 <= i < socket ==> attempts[i].Sets? && core[i] == Fixed(khz)
        invariant forall i :: socket <= i < core.Length ==> core[i] == old(core[i])
      {
        if attempts[socket].Fails? {
          core[socket] := attempts[socket].left;
          FailsFirstAt(attempts, socket);
          Rollback(core, socket, resets);
          return false;
        }
        core[socket] := Fixed(khz);
        socket := socket + 1;
      }
      FailsFirstAt(attempts, socket);
      coreFreq := khz;
      r := true;
    }

    method SetUncoreFreq(khz: int, attempts: seq<Attempt>, resets: seq<bool>) returns (r: bool)
      requires |attempts| == |resets| == uncore.Length
      modifies `uncoreFreq, uncore
      ensures r <==> Succeeds(attempts)
      ensures uncore[..] == After(old(uncore[..]), khz, attempts, resets)
      ensures uncoreFreq == if r then khz else old(uncoreFreq)
      ensures core != uncore ==> core[..] == old(core[..])
    {
      var socket := 0;
      while socket < uncore.Length
        invariant socket <= uncore.Length
        invariant uncoreFreq == old(uncoreFreq)
        invariant forall i :: 0 <= i < socket ==> attempts[i].Sets? && uncore[i] == Fixed(khz)
        invariant forall i :: socket <= i < uncore.Length ==> uncore[i] == old(uncore[i])
      {
        if attempts[socket].Fails? {
          uncore[socket] := attempts[socket].left;
          FailsFirstAt(attempts, socket);
          Rollback(uncore, socket, resets);
          return false;
        }
        uncore[socket] := Fixed(khz);
        socket := socket + 1;
      }
      FailsFirstAt(attempts, socket);
      uncoreFreq := khz;
      r := true;
    }

    /** Resets the sockets that were changed, which are those below `changed`. */
    static method Rollback(sockets: array<Setting>, changed: nat, resets: seq<bool>)
      requires changed <= sockets.Length == |resets|
      modifies sockets
      ensures forall i :: 0 <= i < changed ==> sockets[i] == if resets[i] then Default else old(sockets[i])
      ensures forall i :: changed <= i < sockets.Length ==> sockets[i] == old(sockets[i])
    {
      for s := 0 to changed
        invariant forall i :: 0 <= i < s ==> sockets[i] == if resets[i] then Default else old(sockets[i])
        invariant forall i :: s <= i < sockets.Length ==> sockets[i] == old(sockets[i])
      {
        if resets[s] {
          sockets[s] := Default;
        }
      }
    }
  }

  // ---- What a caller may rely on ---------------------------------------

  /** Every socket has the frequency that the field records. */
  predicate Recorded(settings: seq<Setting>, freq: int) {
    forall i :: 0 <= i < |settings| ==> settings[i] == Fixed(freq)
  }

  /** All or nothing: on success every socket is set. Otherwise the sockets behind the failing one are untouched, and
      no other has the new frequency if and only if every changed socket is reset and the failing one is not left
      with it. */
  lemma AllOrReset(before: seq<Setting>, khz: int, attempts: seq<Attempt>, resets: seq<bool>)
    requires |before| == |attempts| == |resets|
    ensures var after, failed := After(before, khz, attempts, resets), FirstFailure(attempts);
            if Succeeds(attempts) then Recorded(after, khz)
            else after[failed + 1..] == before[failed + 1..]
                 && ((forall i :: 0 <= i <= failed ==> after[i] != Fixed(khz))
                     <==> (forall i :: 0 <= i < failed ==> resets[i]) && attempts[failed].left != Fixed(khz))
  {
    var after, failed := After(before, khz, attempts, resets), FirstFailure(attempts);
    forall i | 0 <= i < |after| ensures after[i] == SettingAfter(before[i], khz, attempts, resets, i) {
    }
    if failed < |attempts| {
      assert after[failed] == attempts[failed].left;
      forall i | 0 <= i < failed ensures after[i] != Fixed(khz) <==> resets[i] {
      }
    }
  }

  /** A call keeps the record true if and only if it succeeds, or it fails without touching anything: the sockets
      before the failure were set to what they had and could not be reset, and the failing one is as it was. So a
      rollback makes the record wrong unless the first socket is the one that fails. */
  lemma RecordStaysTrueIff(before: seq<Setting>, freq: int, khz: int, attempts: seq<Attempt>, resets: seq<bool>)
    requires |before| == |attempts| == |resets| && Recorded(before, freq)
    ensures var failed := FirstFailure(attempts);
            Recorded(After(before, khz, attempts, resets), if Succeeds(attempts) then khz else freq)
            <==> Succeeds(attempts)
                 || (attempts[failed].left == Fixed(freq) && forall i :: 0 <= i < failed ==> !resets[i] && khz == freq)
  {
    var after, failed := After(before, khz, attempts, resets), FirstFailure(attempts);
    forall i | 0 <= i < |after| ensures after[i] == SettingAfter(before[i], khz, attempts, resets, i) {
    }
    if failed < |attempts| {
      assert after[failed] == attempts[failed].left;
      forall i | 0 <= i < failed ensures after[i] == Fixed(freq) <==> !resets[i] && khz == freq {
      }
    }
  }

  /** A failure at the second socket resets the first one, while the field still has the old frequency. */
  lemma RollbackMisleads(freq: int, khz: int)
    ensures var before, attempts, resets := [Fixed(freq), Fixed(freq)], [Sets, Fails(Default)], [true, true];
            && Recorded(before, freq) && !Succeeds(attempts)
            && After(before, khz, attempts, resets) == [Default, Default]
            && !Recorded(After(before, khz, attempts, resets), freq)
  {
    FailsFirstAt([Sets, Fails(Default)], 1);
    assert After([Fixed(freq), Fixed(freq)], khz, [Sets, Fails(Default)], [true, true])[0] == Default;
  }
}
