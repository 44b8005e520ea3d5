/** Centre-of-mass velocity in examples/CoMD/src-mpi/initAtoms.c, over real arithmetic.

    Atoms live in boxes of MAXATOMS slots, of which the first nAtoms[iBox] are in use. The reduction
    `addRealParallel` is a sum over ranks: each rank gets what the other ranks contribute. */
module Momentum {
  import opened Lattice

  const MAXATOMS: int := 64

  function Add(a: Vec, b: Vec): Vec {
    Vec(a.x + b.x, a.y + b.y, a.z + b.z)
  }

  function Scale(k: real, a: Vec): Vec {
    Vec(k * a.x, k * a.y, k * a.z)
  }

  function Minus(a: Vec, b: Vec): Vec {
    Vec(a.x - b.x, a.y - b.y, a.z - b.z)
  }

  const ZERO := Vec(0.0, 0.0, 0.0)

  /** Total momentum and total mass: the four numbers that are reduced. */
  datatype Sums = Sums(p: Vec, m: real) {
    function Plus(s: Sums): Sums {
      Sums(Add(p, s.p), m + s.m)
    }

    /** The centre-of-mass velocity. */
    function Velocity(): Vec
      requires m != 0.0
    {
      Vec(p.x / m, p.y / m, p.z / m)
    }
  }

  const NOTHING := Sums(ZERO, 0.0)

  /** The atoms of one rank, as values. */
  datatype Local = Local(p: seq<Vec>, species: seq<int>, mass: seq<real>, nAtoms: seq<int>) {
    predicate Good() {
      && |p| == |species| && MAXATOMS * |nAtoms| <= |p|
      && (forall i :: 0 <= i < |species| ==> 0 <= species[i] < |mass|)
      && (forall b :: 0 <= b < |nAtoms| ==> 0 <= nAtoms[b] <= MAXATOMS)
    }

    /** Slot `i` holds an atom of a local box. */
    predicate Live(i: int) {
      0 <= i && i / MAXATOMS < |nAtoms| && i % MAXATOMS < nAtoms[i / MAXATOMS]
    }

    function MassAt(i: int): real
      requires Good() && 0 <= i < |p|
    {
      mass[species[i]]
    }

    /** Momentum and mass of the atoms in the slots below `k`. */
    function Sum(k: int): Sums
      requires Good() && k <= |p|
      decreases k
    {
      if k <= 0 then NOTHING
      else if Live(k - 1) then Sum(k - 1).Plus(Sums(p[k - 1], MassAt(k - 1)))
      else Sum(k - 1)
    }

    function Total(): Sums
      requires Good()
    {
      Sum(MAXATOMS * |nAtoms|)
    }

    /** Every live atom gets its mass times `v` in addition. */
    function Shifted(v: Vec): Local
      requires Good()
    {
      this.(p := seq(|p|, i requires 0 <= i < |p| => if Live(i) then Add(p[i], Scale(MassAt(i), v)) else p[i]))
    }

    function Scaled(k: real): Local
      requires Good()
    {
      this.(p := seq(|p|, i requires 0 <= i < |p| => if Live(i) then Scale(k, p[i]) else p[i]))
    }
  }

  // ---- Algebra of sums -------------------------------------------------

  lemma ScaleSum(a: real, b: real, v: Vec)
    ensures Add(Scale(a, v), Scale(b, v)) == Scale(a + b, v)
  {
  }

  lemma ScaleAdd(k: real, a: Vec, b: Vec)
    ensures Add(Scale(k, a), Scale(k, b)) == Scale(k, Add(a, b))
  {
  }

  function ShiftedSums(s: Sums, v: Vec): Sums {
    Sums(Add(s.p, Scale(s.m, v)), s.m)
  }

  function ScaledSums(s: Sums, k: real): Sums {
    Sums(Scale(k, s.p), s.m)
  }

  lemma ShiftPlus(s: Sums, t: Sums, v: Vec)
    ensures ShiftedSums(s.Plus(t), v) == ShiftedSums(s, v).Plus(ShiftedSums(t, v))
  {
    ScaleSum(s.m, t.m, v);
  }

  lemma ScalePlus(s: Sums, t: Sums, k: real)
    ensures ScaledSums(s.Plus(t), k) == ScaledSums(s, k).Plus(ScaledSums(t, k))
  {
    ScaleAdd(k, s.p, t.p);
  }

  lemma ChangedGood(a: Local, v: Vec, k: real)
    requires a.Good()
    ensures a.Shifted(v).Good() && a.Scaled(k).Good()
  {
  }

  /** One more slot. */
  lemma SumStep(a: Local, k: int, s: Sums)
    requires a.Good() && 0 < k <= |a.p| && a.Live(k - 1) && a.Sum(k - 1) == s
    ensures a.Sum(k) == s.Plus(Sums(a.p[k - 1], a.MassAt(k - 1)))
  {
  }

  lemma {:induction false} ShiftedSum(a: Local, v: Vec, k: int)
    requires a.Good() && k <= |a.p| && a.Shifted(v).Good()
    ensures a.Shifted(v).Sum(k) == ShiftedSums(a.Sum(k), v)
    decreases k
  {
    if k > 0 {
      ShiftedSum(a, v, k - 1);
      if a.Live(k - 1) {
        var b, atom := a.Shifted(v), Sums(a.p[k - 1], a.MassAt(k - 1));
        SumStep(b, k, ShiftedSums(a.Sum(k - 1), v));
        assert Sums(b.p[k - 1], b.MassAt(k - 1)) == ShiftedSums(atom, v);
        ShiftPlus(a.Sum(k - 1), atom, v);
      }
    }
  }

  lemma {:induction false} ScaledSum(a: Local, s: real, k: int)
    requires a.Good() && k <= |a.p| && a.Scaled(s).Good()
    ensures a.Scaled(s).Sum(k) == ScaledSums(a.Sum(k), s)
    decreases k
  {
    if k > 0 {
      ScaledSum(a, s, k - 1);
      if a.Live(k - 1) {
        var b, atom := a.Scaled(s), Sums(a.p[k - 1], a.MassAt(k - 1));
        SumStep(b, k, ScaledSums(a.Sum(k - 1), s));
        assert Sums(b.p[k - 1], b.MassAt(k - 1)) == ScaledSums(atom, s);
        ScalePlus(a.Sum(k - 1), atom, s);
      }
    }
  }

  // ---- All ranks -------------------------------------------------------

  predicate AllGood(ranks: seq<Local>) {
    forall r :: 0 <= r < |ranks| ==> ranks[r].Good()
  }

  /** The reduction over all ranks. */
  function GlobalSum(ranks: seq<Local>): Sums
    requires AllGood(ranks)
  {
    if ranks == [] then NOTHING else GlobalSum(ranks[..|ranks| - 1]).Plus(ranks[|ranks| - 1].Total())
  }

  function AllShifted(ranks: seq<Local>, v: Vec): seq<Local>
    requires AllGood(ranks)
  {
    seq(|ranks|, r requires 0 <= r < |ranks| => ranks[r].Shifted(v))
  }

  function AllScaled(ranks: seq<Local>, k: real): seq<Local>
    requires AllGood(ranks)
  {
    seq(|ranks|, r requires 0 <= r < |ranks| => ranks[r].Scaled(k))
  }

  lemma AllChangedGood(ranks: seq<Local>, v: Vec, k: real)
    requires AllGood(ranks)
    ensures AllGood(AllShifted(ranks, v)) && AllGood(AllScaled(ranks, k))
  {
    forall r | 0 <= r < |ranks| ensures ranks[r].Shifted(v).Good() && ranks[r].Scaled(k).Good() {
      ChangedGood(ranks[r], v, k);
    }
  }

  lemma {:induction false} GlobalShift(ranks: seq<Local>, v: Vec)
    requires AllGood(ranks) && AllGood(AllShifted(ranks, v))
    ensures GlobalSum(AllShifted(ranks, v)) == ShiftedSums(GlobalSum(ranks), v)
  {
    if ranks != [] {
      var n, all := |ranks| - 1, AllShifted(ranks, v);
      assert all[..n] == AllShifted(ranks[..n], v);
      GlobalShift(ranks[..n], v);
      ShiftedSum(ranks[n], v, MAXATOMS * |ranks[n].nAtoms|);
      ShiftPlus(GlobalSum(ranks[..n]), ranks[n].Total(), v);
    }
  }

  lemma {:induction false} GlobalScale(ranks: seq<Local>, k: real)
    requires AllGood(ranks) && AllGood(AllScaled(ranks, k))
    ensures GlobalSum(AllScaled(ranks, k)) == ScaledSums(GlobalSum(ranks), k)
  {
    if ranks != [] {
      var n, all := |ranks| - 1, AllScaled(ranks, k);
      assert all[..n] == AllScaled(ranks[..n], k);
      GlobalScale(ranks[..n], k);
      ScaledSum(ranks[n], k, MAXATOMS * |ranks[n].nAtoms|);
      ScalePlus(GlobalSum(ranks[..n]), ranks[n].Total(), k);
    }
  }

  /** What the ranks other than `r` contribute to the reduction. */
  function RestOf(ranks: seq<Local>, r: nat): Sums
    requires AllGood(ranks) && r < |ranks|
  {
    GlobalSum(ranks[..r] + ranks[r + 1..])
  }

  lemma GlobalSnoc(ranks: seq<Local>, last: Local)
    requires AllGood(ranks) && last.Good()
    ensures AllGood(ranks + [last]) && GlobalSum(ranks + [last]) == GlobalSum(ranks).Plus(last.Total())
  {
    assert (ranks + [last])[..|ranks|] == ranks;
  }

  lemma LastRank(a: seq<Local>, b: seq<Local>)
    requires b != []
    ensures b == b[..|b| - 1] + [b[|b| - 1]] && a + b == (a + b[..|b| - 1]) + [b[|b| - 1]]
  {
  }

  lemma {:induction false} GlobalAppend(a: seq<Local>, b: seq<Local>)
    requires AllGood(a) && AllGood(b)
    ensures AllGood(a + b) && GlobalSum(a + b) == GlobalSum(a).Plus(GlobalSum(b))
  {
    if b == [] {
      assert a + b == a;
    } else {
      var front, last := b[..|b| - 1], b[|b| - 1];
      LastRank(a, b);
      GlobalAppend(a, front);
      GlobalSnoc(a + front, last);
      GlobalSnoc(front, last);
      PlusAssociates(GlobalSum(a), GlobalSum(front), last.Total());
    }
  }

  lemma PlusAssociates(s: Sums, t: Sums, u: Sums)
    ensures s.Plus(t).Plus(u) == s.Plus(t.Plus(u))
  {
  }

  lemma PlusSwaps(s: Sums, t: Sums, u: Sums)
    ensures s.Plus(t).Plus(u) == t.Plus(s.Plus(u))
  {
  }

  lemma GlobalSwaps(front: seq<Local>, own: Local, rest: seq<Local>)
    requires AllGood(front) && own.Good() && AllGood(rest)
    ensures AllGood(front + rest) && AllGood(front + [own] + rest)
    ensures GlobalSum(front + [own] + rest) == own.Total().Plus(GlobalSum(front + rest))
  {
    GlobalSnoc(front, own);
    GlobalAppend(front + [own], rest);
    GlobalAppend(front, rest);
    PlusSwaps(GlobalSum(front), own.Total(), GlobalSum(rest));
  }

  lemma SplitRanks(ranks: seq<Local>, r: nat)
    requires r < |ranks|
    ensures ranks == ranks[..r] + [ranks[r]] + ranks[r + 1..]
  {
  }

  /** Whichever rank adds its own part, the reduction is the same sum over all ranks. */
  lemma ReductionIsGlobal(ranks: seq<Local>, r: nat)
    requires AllGood(ranks) && r < |ranks|
    ensures ranks[r].Total().Plus(RestOf(ranks, r)) == GlobalSum(ranks)
  {
    SplitRanks(ranks, r);
    GlobalSwaps(ranks[..r], ranks[r], ranks[r + 1..]);
  }

  /** `setVcm` on each rank shifts all of them by the same velocity. */
  lemma EachRankShifts(ranks: seq<Local>, r: nat, newVcm: Vec)
    requires AllGood(ranks) && r < |ranks| && GlobalSum(ranks).m > 0.0
    ensures var reduced := ranks[r].Total().Plus(RestOf(ranks, r));
            && reduced.m > 0.0
            && ranks[r].Shifted(Minus(newVcm, reduced.Velocity()))
               == AllShifted(ranks, Minus(newVcm, GlobalSum(ranks).Velocity()))[r]
  {
    ReductionIsGlobal(ranks, r);
  }

  lemma HitsTarget(p: real, m: real, v: real)
    requires m != 0.0
    ensures (p + m * (v - p / m)) / m == v
  {
    var q := p / m;
    assert q * m == p;
    assert p + m * (v - q) == v * m;
  }

  /** After `setVcm(newVcm)` on every rank, `computeVcm` returns exactly newVcm. */
  lemma SetVcmHitsTarget(ranks: seq<Local>, newVcm: Vec)
    requires AllGood(ranks) && GlobalSum(ranks).m > 0.0
    ensures var shift := Minus(newVcm, GlobalSum(ranks).Velocity());
            && AllGood(AllShifted(ranks, shift))
            && GlobalSum(AllShifted(ranks, shift)).m == GlobalSum(ranks).m
            && GlobalSum(AllShifted(ranks, shift)).Velocity() == newVcm
  {
    var shift := Minus(newVcm, GlobalSum(ranks).Velocity());
    AllChangedGood(ranks, shift, 1.0);
    GlobalShift(ranks, shift);
    SumsHitTarget(GlobalSum(ranks), newVcm);
  }

  lemma SumsHitTarget(s: Sums, v: Vec)
    requires s.m != 0.0
    ensures ShiftedSums(s, Minus(v, s.Velocity())).Velocity() == v
  {
    HitsTarget(s.p.x, s.m, v.x);
    HitsTarget(s.p.y, s.m, v.y);
    HitsTarget(s.p.z, s.m, v.z);
  }

  /** Any uniform scaling of the momenta keeps a zero centre-of-mass velocity zero. */
  lemma ScalingKeepsZero(ranks: seq<Local>, k: real)
    requires AllGood(ranks) && GlobalSum(ranks).m > 0.0 && GlobalSum(ranks).Velocity() == ZERO
    ensures AllGood(AllScaled(ranks, k))
    ensures GlobalSum(AllScaled(ranks, k)).m == GlobalSum(ranks).m
    ensures GlobalSum(AllScaled(ranks, k)).Velocity() == ZERO
  {
    AllChangedGood(ranks, ZERO, k);
    GlobalScale(ranks, k);
    ZeroStays(GlobalSum(ranks), k);
  }

  lemma ZeroStays(s: Sums, k: real)
    requires s.m != 0.0 && s.Velocity() == ZERO
    ensures ScaledSums(s, k).Velocity() == ZERO
  {
    ZeroQuotient(s.p.x, s.m);
    ZeroQuotient(s.p.y, s.m);
    ZeroQuotient(s.p.z, s.m);
    assert s.p == ZERO;
    assert Scale(k, ZERO) == ZERO;
  }

  lemma ZeroQuotient(p: real, m: real)
    requires m != 0.0 && p / m == 0.0
    ensures p == 0.0
  {
    assert p / m * m == p;
  }

  /** `setTemperature`: the momenta are brought to rest and then scaled; the centre of mass stays at rest. */
  lemma TemperatureAtRest(ranks: seq<Local>, k: real)
    requires AllGood(ranks) && GlobalSum(ranks).m > 0.0
    ensures var still := AllShifted(ranks, Minus(ZERO, GlobalSum(ranks).Velocity()));
            && AllGood(still) && AllGood(AllScaled(still, k))
            && GlobalSum(AllScaled(still, k)).m > 0.0
            && GlobalSum(AllScaled(still, k)).Velocity() == ZERO
  {
    SetVcmHitsTarget(ranks, ZERO);
    ScalingKeepsZero(AllShifted(ranks, Minus(ZERO, GlobalSum(ranks).Velocity())), k);
  }

  // ---- The loops of one rank -------------------------------------------

  /** Slot `ii` of box `iBox` is live exactly when it is below the box's count. */
  lemma SlotLive(a: Local, iBox: int, ii: int)
    requires 0 <= iBox < |a.nAtoms| && 0 <= ii < MAXATOMS
    ensures a.Live(MAXATOMS * iBox + ii) <==> ii < a.nAtoms[iBox]
  {
    var i := MAXATOMS * iBox + ii;
    assert i / MAXATOMS == iBox && i % MAXATOMS == ii;
  }

  lemma {:induction false} SumSkips(a: Local, from: int, upTo: int)
    requires a.Good() && 0 <= from <= upTo <= |a.p|
    requires forall i :: from <= i < upTo ==> !a.Live(i)
    ensures a.Sum(upTo) == a.Sum(from)
    decreases upTo
  {
    if from < upTo {
      SumSkips(a, from, upTo - 1);
    }
  }

  lemma TailDead(a: Local, iBox: int, i: int)
    requires 0 <= iBox < |a.nAtoms| && 0 <= a.nAtoms[iBox]
    requires MAXATOMS * iBox + a.nAtoms[iBox] <= i < MAXATOMS * (iBox + 1)
    ensures !a.Live(i)
  {
    SlotLive(a, iBox, i - MAXATOMS * iBox);
  }

  lemma TailRange(a: Local, iBox: int)
    requires a.Good() && 0 <= iBox < |a.nAtoms|
    ensures 0 <= MAXATOMS * iBox + a.nAtoms[iBox] <= MAXATOMS * (iBox + 1) <= |a.p|
    ensures forall i :: MAXATOMS * iBox + a.nAtoms[iBox] <= i < MAXATOMS * (iBox + 1) ==> !a.Live(i)
  {
    forall i | MAXATOMS * iBox + a.nAtoms[iBox] <= i < MAXATOMS * (iBox + 1) ensures !a.Live(i) {
      TailDead(a, iBox, i);
    }
  }

  /** The slots of a box above its count add nothing. */
  lemma BoxTail(a: Local, iBox: int, from: int, upTo: int)
    requires a.Good() && 0 <= iBox < |a.nAtoms|
    requires from == MAXATOMS * iBox + a.nAtoms[iBox] && upTo == MAXATOMS * (iBox + 1)
    ensures from <= upTo <= |a.p|
    ensures a.Sum(from) == a.Sum(upTo)
  {
    TailRange(a, iBox);
    SumSkips(a, from, upTo);
  }

  /** What shifting and scaling do to the slots of one box. */
  lemma BoxSlots(a: Local, iBox: int, v: Vec, k: real)
    requires a.Good() && 0 <= iBox < |a.nAtoms|
    ensures var lo, hi := MAXATOMS * iBox + a.nAtoms[iBox], MAXATOMS * (iBox + 1);
            && 0 <= lo <= hi <= |a.p|
            && a.Shifted(v).p[lo..hi] == a.p[lo..hi] && a.Scaled(k).p[lo..hi] == a.p[lo..hi]
  {
    TailRange(a, iBox);
  }

  lemma LiveSlot(a: Local, iBox: int, ii: int, v: Vec, k: real)
    requires a.Good() && 0 <= iBox < |a.nAtoms| && 0 <= ii < a.nAtoms[iBox]
    ensures var i := MAXATOMS * iBox + ii;
            && 0 <= i < |a.p| && a.Live(i)
            && a.Shifted(v).p[i] == Add(a.p[i], Scale(a.MassAt(i), v)) && a.Scaled(k).p[i] == Scale(k, a.p[i])
  {
    SlotLive(a, iBox, ii);
  }

  lemma BeyondBoxes(a: Local, v: Vec, k: real)
    requires a.Good()
    ensures var lo := MAXATOMS * |a.nAtoms|;
            a.Shifted(v).p[lo..] == a.p[lo..] && a.Scaled(k).p[lo..] == a.p[lo..]
  {
    forall i | MAXATOMS * |a.nAtoms| <= i < |a.p| ensures !a.Live(i) {
      assert i / MAXATOMS >= |a.nAtoms|;
    }
  }

  /** The slots below `k` as in `b`, the others as in `a`. */
  function Splice(b: seq<Vec>, a: seq<Vec>, k: int): seq<Vec>
    requires |a| == |b| && 0 <= k <= |a|
  {
    b[..k] + a[k..]
  }

  predicate Spliced(s: seq<Vec>, b: seq<Vec>, a: seq<Vec>, k: int) {
    |s| == |a| == |b| && 0 <= k <= |s| && s == Splice(b, a, k)
  }

  lemma SpliceNext(s: seq<Vec>, b: seq<Vec>, a: seq<Vec>, k: int)
    requires Spliced(s, b, a, k) && k < |s|
    ensures s[k] == a[k] && Spliced(s[k := b[k]], b, a, k + 1)
  {
  }

  lemma SpliceSkip(s: seq<Vec>, b: seq<Vec>, a: seq<Vec>, lo: int, hi: int)
    requires Spliced(s, b, a, lo) && lo <= hi <= |s| && b[lo..hi] == a[lo..hi]
    ensures Spliced(s, b, a, hi)
  {
    assert a[lo..] == a[lo..hi] + a[hi..];
    assert b[..hi] == b[..lo] + b[lo..hi];
  }

  lemma ShiftedStarts(a: Local, v: Vec)
    requires a.Good()
    ensures a.Shifted(v) == a.(p := a.Shifted(v).p) && Spliced(a.p, a.Shifted(v).p, a.p, 0)
  {
  }

  lemma ScaledStarts(a: Local, k: real)
    requires a.Good()
    ensures a.Scaled(k) == a.(p := a.Scaled(k).p) && Spliced(a.p, a.Scaled(k).p, a.p, 0)
  {
  }

  lemma ShiftedBox(s: seq<Vec>, a: Local, iBox: int, v: Vec)
    requires a.Good() && 0 <= iBox < |a.nAtoms|
    requires Spliced(s, a.Shifted(v).p, a.p, MAXATOMS * iBox + a.nAtoms[iBox])
    ensures Spliced(s, a.Shifted(v).p, a.p, MAXATOMS * (iBox + 1))
  {
    BoxSlots(a, iBox, v, 1.0);
    SpliceSkip(s, a.Shifted(v).p, a.p, MAXATOMS * iBox + a.nAtoms[iBox], MAXATOMS * (iBox + 1));
  }

  lemma ShiftedEnds(s: seq<Vec>, a: Local, v: Vec)
    requires a.Good() && Spliced(s, a.Shifted(v).p, a.p, MAXATOMS * |a.nAtoms|)
    ensures s == a.Shifted(v).p
  {
    BeyondBoxes(a, v, 1.0);
    SpliceSkip(s, a.Shifted(v).p, a.p, MAXATOMS * |a.nAtoms|, |s|);
  }

  lemma ScaledBox(s: seq<Vec>, a: Local, iBox: int, k: real)
    requires a.Good() && 0 <= iBox < |a.nAtoms|
    requires Spliced(s, a.Scaled(k).p, a.p, MAXATOMS * iBox + a.nAtoms[iBox])
    ensures Spliced(s, a.Scaled(k).p, a.p, MAXATOMS * (iBox + 1))
  {
    BoxSlots(a, iBox, ZERO, k);
    SpliceSkip(s, a.Scaled(k).p, a.p, MAXATOMS * iBox + a.nAtoms[iBox], MAXATOMS * (iBox + 1));
  }

  lemma ScaledEnds(s: seq<Vec>, a: Local, k: real)
    requires a.Good() && Spliced(s, a.Scaled(k).p, a.p, MAXATOMS * |a.nAtoms|)
    ensures s == a.Scaled(k).p
  {
    BeyondBoxes(a, ZERO, k);
    SpliceSkip(s, a.Scaled(k).p, a.p, MAXATOMS * |a.nAtoms|, |s|);
  }

  // ---- Slot by slot ----------------------------------------------------

  /** Slot `i` is among those in use of its box. */
  predicate InUse(nAtoms: seq<int>, i: nat) {
    i / 64 < |nAtoms| && i % 64 < nAtoms[i / 64]
  }

  /** The momenta `now`, where the atoms had `before`: each atom has gained its mass times `v`. */
  ghost predicate AllGained(before: Local, now: seq<Vec>, v: Vec)
    requires before.Good()
  {
    && |now| == |before.p|
    && forall i :: 0 <= i < |now| ==>
         var p, m := before.p[i], before.mass[before.species[i]];
         now[i] == if InUse(before.nAtoms, i) then Vec(p.x + m * v.x, p.y + m * v.y, p.z + m * v.z) else p
  }

  /** Each atom has `k` times its momentum. */
  ghost predicate AllTimes(before: Local, now: seq<Vec>, k: real) {
    && |now| == |before.p|
    && forall i :: 0 <= i < |now| ==>
         var p := before.p[i];
         now[i] == if InUse(before.nAtoms, i) then Vec(k * p.x, k * p.y, k * p.z) else p
  }

  /** Each atom moves at `v`. */
  ghost predicate AllMoveAt(a: Local, v: Vec)
    requires a.Good()
  {
    forall i :: 0 <= i < |a.p| && InUse(a.nAtoms, i) ==>
      var m := a.mass[a.species[i]];
      a.p[i] == Vec(m * v.x, m * v.y, m * v.z)
  }

  lemma ShiftedGains(a: Local, v: Vec)
    requires a.Good()
    ensures AllGained(a, a.Shifted(v).p, v)
  {
  }

  lemma ScaledTimes(a: Local, k: real)
    requires a.Good()
    ensures AllTimes(a, a.Scaled(k).p, k)
  {
  }

  /** The momentum is that of the mass moving at `v`. */
  predicate Along(s: Sums, v: Vec) {
    s.p == Scale(s.m, v)
  }

  lemma AlongPlus(s: Sums, t: Sums, v: Vec)
    requires Along(s, v) && Along(t, v)
    ensures Along(s.Plus(t), v)
  {
    ScaleSum(s.m, t.m, v);
  }

  lemma SumStarts(a: Local, k: int, v: Vec)
    requires a.Good() && k <= 0 && k <= |a.p|
    ensures Along(a.Sum(k), v)
  {
  }

  lemma SumStays(a: Local, k: int)
    requires a.Good() && 0 < k <= |a.p| && !a.Live(k - 1)
    ensures a.Sum(k) == a.Sum(k - 1)
  {
  }

  lemma MovesAlong(a: Local, v: Vec, i: int)
    requires a.Good() && AllMoveAt(a, v) && 0 <= i < |a.p| && a.Live(i)
    ensures Along(Sums(a.p[i], a.MassAt(i)), v)
  {
    assert InUse(a.nAtoms, i);
  }

  lemma InRange(a: Local)
    requires a.Good()
    ensures 0 <= MAXATOMS * |a.nAtoms| <= |a.p| && a.Total() == a.Sum(MAXATOMS * |a.nAtoms|)
  {
  }

  /** The sums of atoms that all move at `v`, slot by slot. */
  lemma {:induction false} MovingSum(a: Local, v: Vec, k: int)
    requires a.Good() && AllMoveAt(a, v) && k <= |a.p|
    ensures Along(a.Sum(k), v)
    decreases k
  {
    hide *;
    if k <= 0 {
      SumStarts(a, k, v);
    } else {
      MovingSum(a, v, k - 1);
      if a.Live(k - 1) {
        SumStep(a, k, a.Sum(k - 1));
        MovesAlong(a, v, k - 1);
        AlongPlus(a.Sum(k - 1), Sums(a.p[k - 1], a.MassAt(k - 1)), v);
      } else {
        SumStays(a, k);
      }
    }
  }

  lemma QuotientOf(m: real, v: real)
    requires m != 0.0
    ensures m * v / m == v
  {
  }

  lemma VelocityOf(s: Sums, v: Vec)
    requires s.m != 0.0 && Along(s, v)
    ensures s.Velocity() == v
  {
    QuotientOf(s.m, v.x);
    QuotientOf(s.m, v.y);
    QuotientOf(s.m, v.z);
  }

  /** If all atoms of all ranks move at `v`, so does the centre of mass. */
  lemma CentreMovesAlong(a: Local, rest: Sums, v: Vec)
    requires a.Good() && a.Total().Plus(rest).m > 0.0 && AllMoveAt(a, v) && Along(rest, v)
    ensures a.Total().Plus(rest).Velocity() == v
  {
    hide *;
    InRange(a);
    MovingSum(a, v, MAXATOMS * |a.nAtoms|);
    AlongPlus(a.Total(), rest, v);
    VelocityOf(a.Total().Plus(rest), v);
  }

  lemma GainedFromRest(a: Local, now: seq<Vec>, v: Vec)
    requires a.Good() && AllMoveAt(a, ZERO) && AllGained(a, now, v)
    ensures a.(p := now).Good() && AllMoveAt(a.(p := now), v)
  {
  }

  lemma RestIsAlong(m: real)
    ensures Along(Sums(ZERO, m), ZERO)
  {
  }

  lemma MinusZero(v: Vec)
    ensures Minus(v, ZERO) == v
  {
  }

  /** From rest, `setVcm(v)` makes each atom move at `v`. */
  lemma FromRest(a: Local, rest: Sums, v: Vec)
    requires a.Good() && a.Total().Plus(rest).m > 0.0 && AllMoveAt(a, ZERO) && rest.p == ZERO
    ensures var b := a.Shifted(Minus(v, a.Total().Plus(rest).Velocity()));
            b.Good() && AllMoveAt(b, v)
  {
    hide *;
    RestIsAlong(rest.m);
    CentreMovesAlong(a, rest, ZERO);
    MinusZero(v);
    ShiftedGains(a, v);
    ShiftedStarts(a, v);
    GainedFromRest(a, a.Shifted(v).p, v);
  }

  // ---- One atom --------------------------------------------------------

  /** The sums with the momentum of one atom replaced: the total gains the difference. */
  function Moved(s: Sums, p: Vec, q: Vec): Sums {
    Sums(Add(s.p, Minus(q, p)), s.m)
  }

  lemma MovedLast(s: Sums, p: Vec, q: Vec, m: real)
    ensures s.Plus(Sums(q, m)) == Moved(s.Plus(Sums(p, m)), p, q)
  {
  }

  lemma MovedEarlier(s: Sums, p: Vec, q: Vec, t: Sums)
    ensures Moved(s, p, q).Plus(t) == Moved(s.Plus(t), p, q)
  {
  }

  lemma OneReplaced(a: Local, b: Local, i: nat, k: int)
    requires a.Good() && i < |a.p| && 0 <= k < |a.p| && |b.p| == |a.p| && b == a.(p := a.p[i := b.p[i]])
    ensures b.Good() && (b.Live(k) <==> a.Live(k)) && b.MassAt(k) == a.MassAt(k) && (k != i ==> b.p[k] == a.p[k])
    ensures a.Live(k) <==> InUse(a.nAtoms, k)
  {
  }

  lemma SumNothing(a: Local, k: int)
    requires a.Good() && k <= 0
    ensures a.Sum(k) == NOTHING
  {
  }

  lemma GoodReplaced(a: Local, b: Local, i: nat)
    requires a.Good() && i < |a.p| && |b.p| == |a.p| && b == a.(p := a.p[i := b.p[i]])
    ensures b.Good()
  {
  }

  lemma {:induction false} SumChanges(a: Local, b: Local, i: nat, k: int)
    requires a.Good() && i < |a.p| && k <= |a.p| && |b.p| == |a.p| && b == a.(p := a.p[i := b.p[i]])
    ensures b.Good()
    ensures b.Sum(k) == if i < k && InUse(a.nAtoms, i) then Moved(a.Sum(k), a.p[i], b.p[i]) else a.Sum(k)
    decreases k
  {
    hide *;
    GoodReplaced(a, b, i);
    if k <= 0 {
      SumNothing(a, k);
      SumNothing(b, k);
    } else {
      SumChanges(a, b, i, k - 1);
      OneReplaced(a, b, i, k - 1);
      if a.Live(k - 1) {
        SumStep(a, k, a.Sum(k - 1));
        SumStep(b, k, b.Sum(k - 1));
        MovedLast(a.Sum(k - 1), a.p[i], b.p[i], a.MassAt(k - 1));
        MovedEarlier(a.Sum(k - 1), a.p[i], b.p[i], Sums(a.p[k - 1], a.MassAt(k - 1)));
      } else {
        SumStays(a, k);
        SumStays(b, k);
      }
    }
  }

  /** The total follows the momentum of each atom: what one atom gains, the total gains, and slots that are not in
      use do not count. */
  lemma TotalFollows(a: Local, i: nat, q: Vec)
    requires a.Good() && i < |a.p|
    ensures var b := a.(p := a.p[i := q]);
            && b.Good() && b.Total().m == a.Total().m
            && b.Total().p == if InUse(a.nAtoms, i) then
                                Vec(a.Total().p.x + (q.x - a.p[i].x), a.Total().p.y + (q.y - a.p[i].y),
                                    a.Total().p.z + (q.z - a.p[i].z))
                              else a.Total().p
  {
    var b := a.(p := a.p[i := q]);
    SumChanges(a, b, i, MAXATOMS * |a.nAtoms|);
    if InUse(a.nAtoms, i) {
      assert i < MAXATOMS * |a.nAtoms|;
    }
  }

  class Simulation {
    const p: array<Vec>
    const iSpecies: seq<int>
    const mass: seq<real>
    const nAtoms: seq<int>

    ghost function Values(): Local
      reads p
    {
      Local(p[..], iSpecies, mass, nAtoms)
    }

    constructor (p: array<Vec>, iSpecies: seq<int>, mass: seq<real>, nAtoms: seq<int>)
      requires Local(p[..], iSpecies, mass, nAtoms).Good()
      ensures this.p == p && Values() == Local(p[..], iSpecies, mass, nAtoms)
    {
      this.p, this.iSpecies, this.mass, this.nAtoms := p, iSpecies, mass, nAtoms;
    }

    /** The sums of `computeVcm` before the reduction. */
    method SumLocal() returns (local: Sums)
      requires Values().Good()
      ensures local == Values().Total()
    {
      local := NOTHING;
      ghost var a, k := Values(), 0;  // `local` is the sum of the slots below `k`
      for iBox := 0 to |nAtoms|
        invariant k == MAXATOMS * iBox && local == a.Sum(k)
      {
        for ii := 0 to nAtoms[iBox]
          invariant k == MAXATOMS * iBox + ii && local == a.Sum(k)
        {
          var iOff := MAXATOMS * iBox + ii;
          SlotLive(a, iBox, ii);
          k := k + 1;
          SumStep(a, k, local);
          local := local.Plus(Sums(p[iOff], mass[iSpecies[iOff]]));
        }
        ghost var next := MAXATOMS * (iBox + 1);
        BoxTail(a, iBox, k, next);
        k := next;
      }
    }

    /** `rest` is what the other ranks contribute to the reduction. */
    method ComputeVcm(rest: Sums) returns (vcm: Vec)
      requires Values().Good() && Values().Total().Plus(rest).m > 0.0
      ensures vcm == Values().Total().Plus(rest).Velocity()
      ensures forall v :: AllMoveAt(Values(), v) && Along(rest, v) ==> vcm == v
    {
      var vcmLocal := SumLocal();
      var vcmSum := vcmLocal.Plus(rest);
      var totalMass := vcmSum.m;
      vcm := Vec(vcmSum.p.x / totalMass, vcmSum.p.y / totalMass, vcmSum.p.z / totalMass);
      forall v | AllMoveAt(Values(), v) && Along(rest, v) ensures vcm == v {
        CentreMovesAlong(Values(), rest, v);
      }
    }

    method SetVcm(newVcm: Vec, rest: Sums)
      requires Values().Good() && Values().Total().Plus(rest).m > 0.0
      modifies p
      ensures Values() == old(Values()).Shifted(Minus(newVcm, old(Values()).Total().Plus(rest).Velocity()))
      ensures AllGained(old(Values()), p[..], Minus(newVcm, old(Values()).Total().Plus(rest).Velocity()))
      ensures AllMoveAt(old(Values()), ZERO) && rest.p == ZERO ==> AllMoveAt(Values(), newVcm)
    {
      hide Local.Shifted, Local.Total;
      ghost var a := Values();
      var oldVcm := ComputeVcm(rest);
      ShiftMomenta(Minus(newVcm, oldVcm));
      if AllMoveAt(a, ZERO) && rest.p == ZERO {
        FromRest(a, rest, newVcm);
      }
    }

    /** The loops of `setVcm`. */
    method ShiftMomenta(vShift: Vec)
      requires Values().Good()
      modifies p
      ensures Values() == old(Values()).Shifted(vShift)
      ensures AllGained(old(Values()), p[..], vShift)
    {
      hide Local.Shifted, Local.Live, Splice, Spliced;
      ghost var a := Values();
      ghost var b := a.Shifted(vShift).p;
      ShiftedStarts(a, vShift);
      for iBox := 0 to |nAtoms|
        invariant Spliced(p[..], b, a.p, MAXATOMS * iBox)
      {
        for ii := 0 to nAtoms[iBox]
          invariant Spliced(p[..], b, a.p, MAXATOMS * iBox + ii)
        {
          var iOff := MAXATOMS * iBox + ii;
          LiveSlot(a, iBox, ii, vShift, 1.0);
          SpliceNext(p[..], b, a.p, iOff);
          ghost var next := p[..][iOff := b[iOff]];
          p[iOff] := Add(p[iOff], Scale(mass[iSpecies[iOff]], vShift));
          assert p[..] == next;
        }
        ShiftedBox(p[..], a, iBox, vShift);
      }
      ShiftedEnds(p[..], a, vShift);
      ShiftedGains(a, vShift);
    }

    /** The scaling loop of `setTemperature`. */
    method ScaleMomenta(scaleFactor: real)
      requires Values().Good()
      modifies p
      ensures Values() == old(Values()).Scaled(scaleFactor)
      ensures AllTimes(old(Values()), p[..], scaleFactor)
    {
      hide Local.Scaled, Local.Live, Splice, Spliced;
      ghost var a := Values();
      ghost var b := a.Scaled(scaleFactor).p;
      ScaledStarts(a, scaleFactor);
      for iBox := 0 to |nAtoms|
        invariant Spliced(p[..], b, a.p, MAXATOMS * iBox)
      {
        for ii := 0 to nAtoms[iBox]
          invariant Spliced(p[..], b, a.p, MAXATOMS * iBox + ii)
        {
          var iOff := MAXATOMS * iBox + ii;
          LiveSlot(a, iBox, ii, ZERO, scaleFactor);
          SpliceNext(p[..], b, a.p, iOff);
          ghost var next := p[..][iOff := b[iOff]];
          p[iOff] := Scale(scaleFactor, p[iOff]);
          assert p[..] == next;
        }
        ScaledBox(p[..], a, iBox, scaleFactor);
      }
      ScaledEnds(p[..], a, scaleFactor);
      ScaledTimes(a, scaleFactor);
    }
  }
}
