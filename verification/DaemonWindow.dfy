/** The model input of tools/optkit-daemon/main.cc, and the training windows of
    tools/optkit-cli/train_model.py that it has to reproduce. */
module DaemonWindow {
  import opened Wrappers

  type Frame = seq<real>

  predicate AllOf(frames: seq<Frame>, elems: nat) {
    forall i :: 0 <= i < |frames| ==> |frames[i]| == elems
  }

  /** Frames written one after the other. */
  function Flat(frames: seq<Frame>): seq<real> {
    if frames == [] then [] else Flat(frames[..|frames| - 1]) + frames[|frames| - 1]
  }

  function Zeros(n: nat): (r: seq<real>)
    ensures |r| == n && forall i :: 0 <= i < n ==> r[i] == 0.0
  {
    seq(n, _ => 0.0)
  }

  function ZeroFrames(n: nat, elems: nat): (r: seq<Frame>)
    ensures |r| == n && AllOf(r, elems) && forall i :: 0 <= i < n ==> r[i] == Zeros(elems)
  {
    seq(n, _ => Zeros(elems))
  }

  /** The last `n` of the frames. */
  function Last(frames: seq<Frame>, n: nat): seq<Frame>
    requires n <= |frames|
  {
    frames[|frames| - n..]
  }

  /** What the model must be given: the last `window` frames of a history that starts with `window` zero frames. */
  function ModelInput(frames: seq<Frame>, window: nat, elems: nat): seq<real> {
    Flat(Last(ZeroFrames(window, elems) + frames, window))
  }

  lemma {:induction false} FlatLength(frames: seq<Frame>, elems: nat)
    requires AllOf(frames, elems)
    ensures |Flat(frames)| == |frames| * elems
  {
    if frames != [] {
      var n := |frames| - 1;
      FlatLength(frames[..n], elems);
      assert (n + 1) * elems == n * elems + elems;
    }
  }

  lemma FlatSnoc(frames: seq<Frame>, frame: Frame)
    ensures Flat(frames + [frame]) == Flat(frames) + frame
  {
    assert (frames + [frame])[..|frames|] == frames;
  }

  lemma {:induction false} FlatZeros(n: nat, elems: nat)
    ensures Flat(ZeroFrames(n, elems)) == Zeros(n * elems)
  {
    hide *;
    if n == 0 {
      NoFrames(elems);
    } else {
      FlatZeros(n - 1, elems);
      FlatSnoc(ZeroFrames(n - 1, elems), Zeros(elems));
      ZeroFramesSnoc(n - 1, elems);
      ZerosConcat((n - 1) * elems, elems);
      assert n * elems == (n - 1) * elems + elems;
    }
  }

  lemma NoFrames(elems: nat)
    ensures Flat(ZeroFrames(0, elems)) == Zeros(0) == Flat([]) == []
  {
  }

  lemma ZeroFramesSnoc(n: nat, elems: nat)
    ensures ZeroFrames(n + 1, elems) == ZeroFrames(n, elems) + [Zeros(elems)]
  {
  }

  lemma ZerosConcat(a: nat, b: nat)
    ensures Zeros(a) + Zeros(b) == Zeros(a + b)
  {
  }

  lemma MulMonotone(a: nat, b: nat, c: nat)
    requires a <= b
    ensures a * c <= b * c
  {
  }

  /** The frames `done` stand at the start of `s`. */
  predicate Filled(s: seq<real>, done: seq<Frame>, elems: nat) {
    |done| * elems <= |s| && s[..|done| * elems] == Flat(done)
  }

  lemma ZerosFilled(s: seq<real>, k: nat, n: nat, elems: nat)
    requires |s| == n * elems && k <= n && forall i :: 0 <= i < |s| ==> s[i] == 0.0
    ensures Filled(s, ZeroFrames(k, elems), elems)
  {
    FlatZeros(k, elems);
    MulMonotone(k, n, elems);
    assert s[..k * elems] == Zeros(k * elems);
  }

  lemma LastSnoc(frames: seq<Frame>, n: nat, frame: Frame, elems: nat)
    requires n <= |frames| && AllOf(frames, elems) && |frame| == elems
    ensures |Last(frames, n)| == n && Last(frames, n) + [frame] == Last(frames + [frame], n + 1)
    ensures AllOf(frames + [frame], elems)
  {
  }

  lemma LastTail(frames: seq<Frame>, n: nat)
    requires 0 < n <= |frames|
    ensures |Last(frames, n)| == n && Last(frames, n)[1..] == Last(frames, n - 1)
  {
  }

  lemma LastOf(frames: seq<Frame>, n: nat, elems: nat)
    requires n <= |frames| && AllOf(frames, elems)
    ensures AllOf(Last(frames, n), elems)
  {
  }

  class Daemon {
    const window: nat
    const elems: nat
    var history: seq<Frame>
    ghost var frames: seq<Frame>  // every frame of the run so far

    ghost predicate Valid()
      reads this
    {
      && window > 0
      && AllOf(frames, elems)
      && |history| == (if |frames| < window then |frames| else window)
      && history == Last(frames, |history|)
    }

    constructor (window: nat, elems: nat)
      requires window > 0
      ensures Valid() && frames == [] && this.window == window && this.elems == elems
    {
      this.window, this.elems := window, elems;
      history, frames := [], [];
    }

    /** One tick: the new frame enters the history, and the history is laid out for the model. */
    method Tick(frame: Frame) returns (input: array<real>)
      requires Valid() && |frame| == elems
      modifies this
      ensures Valid() && frames == old(frames) + [frame]
      ensures fresh(input) && input[..] == ModelInput(frames, window, elems)
    {
      PushFrame(frame);
      input := FlattenHistory();
      PaddedLast(frames, window, elems);
    }

    /** The history, flattened behind as many zero frames as are missing from a full window. */
    method FlattenHistory() returns (input: array<real>)
      requires Valid()
      ensures fresh(input) && input[..] == Flat(ZeroFrames(window - |history|, elems) + history)
    {
      hide Flat, Zeros, ZeroFrames, Filled, Last, AllOf;
      var size := window * elems;
      input := new real[size](_ => 0.0);
      ghost var offset := window - |history|;
      ZerosFilled(input[..], offset, window, elems);
      LastOf(frames, |history|, elems);
      CopyHistory(input, ZeroFrames(offset, elems), history, window, elems);
    }

    /** `push_back`, then `pop_front` while there are too many. */
    method PushFrame(frame: Frame)
      requires Valid() && |frame| == elems
      modifies this
      ensures Valid() && frames == old(frames) + [frame]
    {
      hide Last, AllOf;
      LastSnoc(frames, |history|, frame, elems);
      history := history + [frame];
      frames := frames + [frame];
      while |history| > window
        invariant window <= |history| <= |frames| || |history| == |frames| <= window
        invariant history == Last(frames, |history|)
        invariant AllOf(frames, elems) && frames == old(frames) + [frame]
      {
        LastTail(frames, |history|);
        history := history[1..];
      }
    }
  }

  lemma NextFrame(k: nat, n: nat, c: nat)
    requires k < n
    ensures k * c + c == (k + 1) * c <= n * c
  {
    MulMonotone(k + 1, n, c);
  }

  lemma ExtendFilled(s: seq<real>, done: seq<Frame>, frame: Frame, elems: nat)
    requires Filled(s, done, elems) && |frame| == elems && |done| * elems + elems <= |s|
    ensures Filled(s[..|done| * elems] + frame + s[|done| * elems + elems..], done + [frame], elems)
  {
    var at := |done| * elems;
    var t := s[..at] + frame + s[at + elems..];
    FlatSnoc(done, frame);
    assert (|done| + 1) * elems == at + elems;
    assert t[..at + elems] == s[..at] + frame;
  }

  /** The loop that copies the history behind the zero frames. */
  method CopyHistory(input: array<real>, ghost zeros: seq<Frame>, history: seq<Frame>, window: nat, elems: nat)
    requires |zeros| + |history| == window && AllOf(history, elems)
    requires input.Length == window * elems && Filled(input[..], zeros, elems)
    modifies input
    ensures input[..] == Flat(zeros + history)
  {
    var offset := window - |history|;
    ghost var done := zeros;
    for i := 0 to |history|
      invariant done == zeros + history[..i]
      invariant Filled(input[..], done, elems)
    {
      PlaceFrame(input, done, offset + i, window, elems, history[i]);
      done := done + [history[i]];
    }
    assert done == zeros + history;
    assert input[..|done| * elems] == input[..];
  }

  /** `std::copy` of one frame to its place in the flattened input. */
  method PlaceFrame(input: array<real>, ghost done: seq<Frame>, k: nat, window: nat, elems: nat, v: Frame)
    requires |done| == k < window && |v| == elems
    requires input.Length == window * elems && Filled(input[..], done, elems)
    modifies input
    ensures Filled(input[..], done + [v], elems)
  {
    hide Filled;
    NextFrame(k, window, elems);
    var base := k * elems;
    ghost var s := input[..];
    assert input[..base] == s[..base] && input[base + |v|..] == s[base + |v|..];
    CopyFrame(input, base, v);
    ExtendFilled(s, done, v, elems);
  }

  method CopyFrame(input: array<real>, base: nat, v: Frame)
    requires base + |v| <= input.Length
    modifies input
    ensures input[..] == old(input[..base]) + v + old(input[base + |v|..])
  {
    forall j | 0 <= j < |v| {
      input[base + j] := v[j];
    }
  }

  /** The history, padded on the left with zero frames, is the last window of the padded run. */
  lemma PaddedLast(frames: seq<Frame>, window: nat, elems: nat)
    ensures var have := if |frames| < window then |frames| else window;
            Last(ZeroFrames(window, elems) + frames, window) == ZeroFrames(window - have, elems) + Last(frames, have)
  {
  }

  // ---- Training windows ------------------------------------------------

  /** The chunks that are cut from one run. */
  function Chunks(frames: seq<Frame>, window: nat): seq<seq<Frame>> {
    if |frames| < window then []
    else seq(|frames| - window + 1, start requires 0 <= start <= |frames| - window => frames[start..start + window])
  }

  /** The chunks of all runs, run after run. */
  function AllChunks(arrays: seq<seq<Frame>>, window: nat): seq<seq<Frame>> {
    if arrays == [] then [] else AllChunks(arrays[..|arrays| - 1], window) + Chunks(arrays[|arrays| - 1], window)
  }

  /** The target of each chunk: that of its run. */
  function AllTargets<T>(arrays: seq<seq<Frame>>, targets: seq<T>, window: nat): seq<T>
    requires |arrays| == |targets|
  {
    if arrays == [] then []
    else
      var n := |arrays| - 1;
      AllTargets(arrays[..n], targets[..n], window) + seq(|Chunks(arrays[n], window)|, _ => targets[n])
  }

  method BuildTrainingExamples<T>(arrays: seq<seq<Frame>>, targets: seq<T>, window: nat)
    returns (r: Result<(seq<seq<Frame>>, seq<T>)>)
    requires |arrays| == |targets|
    ensures r.Err? <==> AllChunks(arrays, window) == []
    ensures r.Ok? ==> r.value.0 == AllChunks(arrays, window) && r.value.1 == AllTargets(arrays, targets, window)
  {
    var xs, ys := [], [];
    for run := 0 to |arrays|
      invariant xs == AllChunks(arrays[..run], window)
      invariant ys == AllTargets(arrays[..run], targets[..run], window)
    {
      assert arrays[..run + 1][..run] == arrays[..run] && targets[..run + 1][..run] == targets[..run];
      if |arrays[run]| < window { continue; }
      var chunks, repeated := CutRun(arrays[run], targets[run], window);
      xs := xs + chunks;
      ys := ys + repeated;
    }
    assert arrays[..|arrays|] == arrays && targets[..|targets|] == targets;
    r := if xs == [] then Err("No training examples built") else Ok((xs, ys));
  }

  /** The inner loop: one chunk for every start that leaves room for a whole window. */
  method CutRun<T>(arr: seq<Frame>, target: T, window: nat) returns (xs: seq<seq<Frame>>, ys: seq<T>)
    requires window <= |arr|
    ensures xs == Chunks(arr, window) && ys == seq(|Chunks(arr, window)|, _ => target)
  {
    xs, ys := [], [];
    for start := 0 to |arr| - window + 1
      invariant xs == Chunks(arr, window)[..start]
      invariant ys == seq(start, _ => target)
    {
      xs := xs + [arr[start..start + window]];
      ys := ys + [target];
    }
  }

  /** From tick `window` on, the inputs the daemon gives to the model are, in order, exactly the chunks cut
      from the same run for training; before that, the missing frames are zero. */
  lemma InputsAreChunks(frames: seq<Frame>, window: nat, elems: nat, tick: nat)
    requires window > 0 && AllOf(frames, elems) && tick <= |frames|
    ensures tick >= window ==>
              && tick - window < |Chunks(frames, window)|
              && ModelInput(frames[..tick], window, elems) == Flat(Chunks(frames, window)[tick - window])
    ensures tick < window ==>
              ModelInput(frames[..tick], window, elems) == Zeros((window - tick) * elems) + Flat(frames[..tick])
    ensures |frames| >= window ==> |Chunks(frames, window)| == |frames| - window + 1
  {
    hide Flat;
    PaddedLast(frames[..tick], window, elems);
    if tick >= window {
      assert Last(frames[..tick], window) == frames[tick - window..tick];
      assert ZeroFrames(0, elems) + Last(frames[..tick], window) == Last(frames[..tick], window);
    } else {
      FlatZeros(window - tick, elems);
      FlatConcat(ZeroFrames(window - tick, elems), frames[..tick]);
      assert Last(frames[..tick], tick) == frames[..tick];
    }
  }

  lemma {:induction false} FlatConcat(a: seq<Frame>, b: seq<Frame>)
    ensures Flat(a + b) == Flat(a) + Flat(b)
  {
    hide *;
    if b == [] {
      assert a + b == a;
      NoFrames(0);
    } else {
      var n := |b| - 1;
      FlatConcat(a, b[..n]);
      FlatSnoc(a + b[..n], b[n]);
      FlatSnoc(b[..n], b[n]);
      assert b == b[..n] + [b[n]];
      assert a + b == a + b[..n] + [b[n]];
    }
  }

  /** The input always has window * elems values. */
  lemma InputLength(frames: seq<Frame>, window: nat, elems: nat)
    requires AllOf(frames, elems)
    ensures |ModelInput(frames, window, elems)| == window * elems
  {
    FlatLength(Last(ZeroFrames(window, elems) + frames, window), elems);
  }

  // ---- Value by value --------------------------------------------------

  lemma FlatAtSplits(front: seq<Frame>, last: Frame, elems: nat, k: nat, j: nat)
    requires AllOf(front, elems) && |last| == elems && k <= |front| && j < elems
    ensures |Flat(front)| == |front| * elems && k * elems + j < |Flat(front + [last])|
    ensures k < |front| ==> k * elems + j < |Flat(front)|
                            && Flat(front + [last])[k * elems + j] == Flat(front)[k * elems + j]
    ensures k == |front| ==> Flat(front + [last])[k * elems + j] == last[j]
  {
    FlatLength(front, elems);
    FlatSnoc(front, last);
    if k < |front| {
      NextFrame(k, |front|, elems);
    }
  }

  /** Value `j` of frame `k` stands at its place in the flattened frames. */
  lemma {:induction false} FlatAt(frames: seq<Frame>, elems: nat, k: nat, j: nat)
    requires AllOf(frames, elems) && k < |frames| && j < elems
    ensures k * elems + j < |Flat(frames)| && Flat(frames)[k * elems + j] == frames[k][j]
  {
    hide Flat;
    var n := |frames| - 1;
    assert frames == frames[..n] + [frames[n]];
    FlatAtSplits(frames[..n], frames[n], elems, k, j);
    if k < n {
      FlatAt(frames[..n], elems, k, j);
    }
  }

  lemma PaddedAt(frames: seq<Frame>, window: nat, elems: nat, k: nat)
    requires AllOf(frames, elems) && k < window
    ensures var padded := Last(ZeroFrames(window, elems) + frames, window);
            && |padded| == window && AllOf(padded, elems)
            && padded[k] == if k + |frames| < window then Zeros(elems) else frames[k + |frames| - window]
  {
  }

  /** Every value of the model input: oldest frame first, and zero where there is no frame yet. */
  lemma InputAt(frames: seq<Frame>, window: nat, elems: nat, k: nat, j: nat)
    requires AllOf(frames, elems) && k < window && j < elems
    ensures k * elems + j < |ModelInput(frames, window, elems)|
    ensures ModelInput(frames, window, elems)[k * elems + j]
         == if k + |frames| < window then 0.0 else frames[k + |frames| - window][j]
  {
    hide Flat, Last;
    PaddedAt(frames, window, elems, k);
    FlatAt(Last(ZeroFrames(window, elems) + frames, window), elems, k, j);
  }

  // ---- Chunk by chunk --------------------------------------------------

  /** The number of starts that leave room for a whole window, in the runs below `run`. */
  function Starts(arrays: seq<seq<Frame>>, window: nat, run: nat): nat
    requires run <= |arrays|
  {
    if run == 0 then 0
    else
      var length := |arrays[run - 1]|;
      Starts(arrays, window, run - 1) + if length < window then 0 else length - window + 1
  }

  lemma {:induction false} StartsOfPrefix(arrays: seq<seq<Frame>>, window: nat, n: nat, run: nat)
    requires run <= n <= |arrays|
    ensures Starts(arrays[..n], window, run) == Starts(arrays, window, run)
  {
    if run > 0 {
      StartsOfPrefix(arrays, window, n, run - 1);
    }
  }

  lemma LastExamples<T>(arrays: seq<seq<Frame>>, targets: seq<T>, window: nat)
    requires |arrays| == |targets| && arrays != []
    ensures var n := |arrays| - 1;
            var before, all := AllTargets(arrays[..n], targets[..n], window), AllTargets(arrays, targets, window);
            && AllChunks(arrays, window) == AllChunks(arrays[..n], window) + Chunks(arrays[n], window)
            && |all| == |before| + |Chunks(arrays[n], window)|
            && (forall i :: 0 <= i < |before| ==> all[i] == before[i])
            && (forall i :: |before| <= i < |all| ==> all[i] == targets[n])
  {
  }

  lemma NoExamples<T>(targets: seq<T>, window: nat)
    requires targets == []
    ensures AllChunks([], window) == [] && AllTargets([], targets, window) == []
  {
  }

  lemma ChunkCount(frames: seq<Frame>, window: nat)
    ensures |Chunks(frames, window)| == if |frames| < window then 0 else |frames| - window + 1
  {
  }

  lemma {:induction false} ExamplesCount<T>(arrays: seq<seq<Frame>>, targets: seq<T>, window: nat)
    requires |arrays| == |targets|
    ensures |AllChunks(arrays, window)| == |AllTargets(arrays, targets, window)| == Starts(arrays, window, |arrays|)
  {
    hide AllChunks, AllTargets, Chunks;
    if arrays == [] {
      NoExamples(targets, window);
    } else {
      var n := |arrays| - 1;
      ExamplesCount(arrays[..n], targets[..n], window);
      StartsOfPrefix(arrays, window, n, n);
      LastExamples(arrays, targets, window);
      ChunkCount(arrays[n], window);
    }
  }

  /** Every window of every run is a chunk, in order, and has the target of its run; there are no other chunks. */
  lemma {:induction false} ExampleAt<T>(arrays: seq<seq<Frame>>, targets: seq<T>, window: nat, run: nat, start: nat)
    requires |arrays| == |targets| && run < |arrays| && start + window <= |arrays[run]|
    ensures var i := Starts(arrays, window, run) + start;
            && i < |AllChunks(arrays, window)| == |AllTargets(arrays, targets, window)|
            && |AllChunks(arrays, window)| == Starts(arrays, window, |arrays|)
            && AllChunks(arrays, window)[i] == arrays[run][start..start + window]
            && AllTargets(arrays, targets, window)[i] == targets[run]
    decreases |arrays|
  {
    hide AllChunks, AllTargets;
    var n := |arrays| - 1;
    ExamplesCount(arrays, targets, window);
    ExamplesCount(arrays[..n], targets[..n], window);
    StartsOfPrefix(arrays, window, n, n);
    LastExamples(arrays, targets, window);
    if run < n {
      StartsOfPrefix(arrays, window, n, run);
      ExampleAt(arrays[..n], targets[..n], window, run, start);
    }
  }
}
