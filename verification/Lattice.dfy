/** The FCC lattice of examples/CoMD/src-mpi/initAtoms.c, over real arithmetic.

    Every rank runs `CreateFccLattice` on its own brick. The loops visit only the unit cells between a
    floor and a ceiling; the specification `Owned` goes through all ids in order and keeps those whose
    site lies in the brick. */
module Lattice {
  import opened Arithmetic
  import opened Decomposition

  datatype Vec = Vec(x: real, y: real, z: real)

  datatype Atom = Atom(id: int, r: Vec)

  const NB: int := 4

  function Basis(ib: int): Vec {
    if ib == 0 then Vec(0.25, 0.25, 0.25)
    else if ib == 1 then Vec(0.25, 0.75, 0.75)
    else if ib == 2 then Vec(0.75, 0.25, 0.75)
    else Vec(0.75, 0.75, 0.25)
  }

  // ---- Sites -----------------------------------------------------------

  /** The id of basis atom `ib` of unit cell `c`. */
  function Id(n: Triple, c: Triple, ib: int): int {
    ib + NB * (c.z + n.z * (c.y + n.y * c.x))
  }

  function SiteCount(n: Triple): int {
    NB * (n.z * (n.y * n.x))
  }

  /** The unit cell of a site, read off its id digit by digit. */
  function CellOf(n: Triple, id: int): Triple
    requires n.Positive()
  {
    Triple(id / NB / n.z / n.y, id / NB / n.z % n.y, id / NB % n.z)
  }

  function Position(lat: real, c: Triple, ib: int): Vec {
    Vec((c.x as real + Basis(ib).x) * lat, (c.y as real + Basis(ib).y) * lat, (c.z as real + Basis(ib).z) * lat)
  }

  function SiteAtom(n: Triple, lat: real, id: int): Atom
    requires n.Positive()
  {
    Atom(id, Position(lat, CellOf(n, id), id % NB))
  }

  /** The id formula and the digits are inverse to each other. */
  lemma IdDigits(n: Triple, c: Triple, ib: int)
    requires n.Positive() && c.Inside(n) && 0 <= ib < NB
    ensures 0 <= Id(n, c, ib) < SiteCount(n)
    ensures CellOf(n, Id(n, c, ib)) == c && Id(n, c, ib) % NB == ib
  {
    MixedBound(c.y, c.x, n.y, n.x);
    MixedBound(c.z, c.y + n.y * c.x, n.z, n.y * n.x);
    MixedBound(ib, c.z + n.z * (c.y + n.y * c.x), NB, n.z * (n.y * n.x));
    DivModUnique(Id(n, c, ib), NB, c.z + n.z * (c.y + n.y * c.x), ib);
    DivModUnique(c.z + n.z * (c.y + n.y * c.x), n.z, c.y + n.y * c.x, c.z);
    DivModUnique(c.y + n.y * c.x, n.y, c.x, c.y);
  }

  /** Three divisions in turn. */
  lemma ThreeDigits(id: int, a: int, b: int)
    requires a > 0 && b > 0
    ensures id % NB + NB * (id / NB % a + a * (id / NB / a % b + b * (id / NB / a / b))) == id
  {
    DivMod(id / NB / a, b);
    DivMod(id / NB, a);
    DivMod(id, NB);
  }

  lemma DigitsId(n: Triple, id: int)
    requires n.Positive() && 0 <= id < SiteCount(n)
    ensures CellOf(n, id).Inside(n) && Id(n, CellOf(n, id), id % NB) == id
  {
    DivBound(id, NB, n.z * (n.y * n.x));
    DivBound(id / NB, n.z, n.y * n.x);
    DivBound(id / NB / n.z, n.y, n.x);
    ThreeDigits(id, n.z, n.y);
  }

  // ---- What one rank owns ----------------------------------------------

  predicate InBrick(lo: Vec, hi: Vec, r: Vec) {
    lo.x <= r.x < hi.x && lo.y <= r.y < hi.y && lo.z <= r.z < hi.z
  }

  /** The atoms with ids below `upTo` whose sites lie in the brick, in order of id. */
  function Owned(n: Triple, lat: real, lo: Vec, hi: Vec, upTo: int): seq<Atom>
    requires n.Positive()
    decreases upTo
  {
    if upTo <= 0 then []
    else
      var atom := SiteAtom(n, lat, upTo - 1);
      Owned(n, lat, lo, hi, upTo - 1) + if InBrick(lo, hi, atom.r) then [atom] else []
  }

  lemma {:induction false} OwnedSkip(n: Triple, lat: real, lo: Vec, hi: Vec, from: int, upTo: int)
    requires n.Positive() && 0 <= from <= upTo
    requires forall id :: from <= id < upTo ==> !InBrick(lo, hi, SiteAtom(n, lat, id).r)
    ensures Owned(n, lat, lo, hi, upTo) == Owned(n, lat, lo, hi, from)
    decreases upTo
  {
    if from < upTo {
      OwnedSkip(n, lat, lo, hi, from, upTo - 1);
    }
  }

  // ---- Cells outside the loop bounds -----------------------------------

  function Ceil(x: real): int {
    -((-x).Floor)
  }

  /** No site of a cell below floor(lo/lat) or from ceil(hi/lat) on reaches the interval [lo, hi). */
  lemma OutsideBounds(i: int, b: real, lat: real, lo: real, hi: real)
    requires lat > 0.0 && 0.0 < b < 1.0
    requires i < (lo / lat).Floor || i >= Ceil(hi / lat)
    ensures !(lo <= (i as real + b) * lat < hi)
  {
    if i < (lo / lat).Floor {
      FloorBounds(lo / lat, i + 1);
      RealMulLt(lat, i as real + b, lo / lat);
      RealDivMul(lo, lat);
    } else {
      FloorBounds(-(hi / lat), -i);
      RealMulLt(lat, hi / lat, i as real + b);
      RealDivMul(hi, lat);
    }
  }

  /** The loop bounds of one axis stay within the cells of the box. */
  lemma BoundsInBox(n: int, lat: real, lo: real, hi: real)
    requires lat > 0.0 && 0.0 <= lo <= hi <= n as real * lat
    ensures 0 <= (lo / lat).Floor <= Ceil(hi / lat) <= n
  {
    RealDivMul(lo, lat);
    RealDivMul(hi, lat);
    RealMulLt(lat, 0.0, lo / lat);
    RealMulLt(lat, lo / lat, hi / lat);
    RealMulLt(lat, hi / lat, n as real);
    FloorBounds(lo / lat, 0);
    FloorBounds(-(hi / lat), -n);
  }

  // ---- Ids of a slab of cells ------------------------------------------

  function First(n: Triple, x: int, y: int, z: int): int {
    Id(n, Triple(x, y, z), 0)
  }

  lemma FirstMonotone(n: Triple, x: int, y: int, z: int)
    requires n.Positive() && x >= 0 && y >= 0 && z >= 0
    ensures First(n, x, y, z) >= 0
  {
    assert n.y * x >= 0;
    assert n.z * (y + n.y * x) >= 0;
  }

  lemma SlabX(n: Triple, a: int, b: int, id: int)
    requires n.Positive() && First(n, a, 0, 0) <= id < First(n, b, 0, 0)
    ensures a <= CellOf(n, id).x < b
  {
    DivRange(id, NB, n.z * (n.y * a), n.z * (n.y * b));
    DivRange(id / NB, n.z, n.y * a, n.y * b);
    DivRange(id / NB / n.z, n.y, a, b);
  }

  lemma SlabY(n: Triple, x: int, a: int, b: int, id: int)
    requires n.Positive() && 0 <= a <= b <= n.y && First(n, x, a, 0) <= id < First(n, x, b, 0)
    ensures a <= CellOf(n, id).y < b
  {
    DivRange(id, NB, n.z * (a + n.y * x), n.z * (b + n.y * x));
    DivRange(id / NB, n.z, a + n.y * x, b + n.y * x);
    DivModUnique(id / NB / n.z, n.y, x, id / NB / n.z - n.y * x);
  }

  lemma SlabZ(n: Triple, x: int, y: int, a: int, b: int, id: int)
    requires n.Positive() && 0 <= a <= b <= n.z && First(n, x, y, a) <= id < First(n, x, y, b)
    ensures a <= CellOf(n, id).z < b
  {
    var row := n.z * (y + n.y * x);
    DivRange(id, NB, a + row, b + row);
    DivModUnique(id / NB, n.z, y + n.y * x, id / NB - row);
  }

  // ---- The loops of one rank -------------------------------------------

  /** The owned atoms that come before unit cell (x, y, z) in loop order. */
  function OwnedBefore(n: Triple, lat: real, lo: Vec, hi: Vec, x: int, y: int, z: int): seq<Atom>
    requires n.Positive()
  {
    Owned(n, lat, lo, hi, First(n, x, y, z))
  }

  predicate AxisBounds(n: int, lat: real, lo: real, hi: real, begin: int, end: int)
    requires lat > 0.0
  {
    begin == (lo / lat).Floor && end == Ceil(hi / lat) && 0 <= begin <= end <= n
  }

  /** The lattice and the brick of one rank, with the loop bounds that belong to it. */
  ghost predicate Bounds(n: Triple, lat: real, lo: Vec, hi: Vec, begin: Triple, end: Triple) {
    && n.Positive() && lat > 0.0
    && AxisBounds(n.x, lat, lo.x, hi.x, begin.x, end.x)
    && AxisBounds(n.y, lat, lo.y, hi.y, begin.y, end.y)
    && AxisBounds(n.z, lat, lo.z, hi.z, begin.z, end.z)
  }

  predicate OutsideLoops(begin: Triple, end: Triple, c: Triple) {
    c.x < begin.x || end.x <= c.x || c.y < begin.y || end.y <= c.y || c.z < begin.z || end.z <= c.z
  }

  lemma MissX(lat: real, lo: Vec, hi: Vec, c: Triple, ib: int)
    requires lat > 0.0 && (c.x < (lo.x / lat).Floor || Ceil(hi.x / lat) <= c.x)
    ensures !InBrick(lo, hi, Position(lat, c, ib))
  {
    OutsideBounds(c.x, Basis(ib).x, lat, lo.x, hi.x);
  }

  lemma MissY(lat: real, lo: Vec, hi: Vec, c: Triple, ib: int)
    requires lat > 0.0 && (c.y < (lo.y / lat).Floor || Ceil(hi.y / lat) <= c.y)
    ensures !InBrick(lo, hi, Position(lat, c, ib))
  {
    OutsideBounds(c.y, Basis(ib).y, lat, lo.y, hi.y);
  }

  lemma MissZ(lat: real, lo: Vec, hi: Vec, c: Triple, ib: int)
    requires lat > 0.0 && (c.z < (lo.z / lat).Floor || Ceil(hi.z / lat) <= c.z)
    ensures !InBrick(lo, hi, Position(lat, c, ib))
  {
    OutsideBounds(c.z, Basis(ib).z, lat, lo.z, hi.z);
  }

  lemma PositionMisses(n: Triple, lat: real, lo: Vec, hi: Vec, begin: Triple, end: Triple, c: Triple, ib: int)
    requires Bounds(n, lat, lo, hi, begin, end) && OutsideLoops(begin, end, c)
    ensures !InBrick(lo, hi, Position(lat, c, ib))
  {
    if c.x < begin.x || end.x <= c.x {
      MissX(lat, lo, hi, c, ib);
    } else if c.y < begin.y || end.y <= c.y {
      MissY(lat, lo, hi, c, ib);
    } else {
      MissZ(lat, lo, hi, c, ib);
    }
  }

  lemma OutsideMisses(n: Triple, lat: real, lo: Vec, hi: Vec, begin: Triple, end: Triple, id: int)
    requires Bounds(n, lat, lo, hi, begin, end) && OutsideLoops(begin, end, CellOf(n, id))
    ensures !InBrick(lo, hi, SiteAtom(n, lat, id).r)
  {
    PositionMisses(n, lat, lo, hi, begin, end, CellOf(n, id), id % NB);
  }

  lemma SkipIds(n: Triple, lat: real, lo: Vec, hi: Vec, begin: Triple, end: Triple, from: int, upTo: int)
    requires Bounds(n, lat, lo, hi, begin, end) && 0 <= from <= upTo
    requires forall id :: from <= id < upTo ==> OutsideLoops(begin, end, CellOf(n, id))
    ensures Owned(n, lat, lo, hi, upTo) == Owned(n, lat, lo, hi, from)
  {
    forall id | from <= id < upTo ensures !InBrick(lo, hi, SiteAtom(n, lat, id).r) {
      OutsideMisses(n, lat, lo, hi, begin, end, id);
    }
    OwnedSkip(n, lat, lo, hi, from, upTo);
  }

  lemma SkipX(n: Triple, lat: real, lo: Vec, hi: Vec, begin: Triple, end: Triple, a: int, b: int)
    requires Bounds(n, lat, lo, hi, begin, end) && 0 <= a <= b && (b <= begin.x || end.x <= a)
    ensures OwnedBefore(n, lat, lo, hi, b, 0, 0) == OwnedBefore(n, lat, lo, hi, a, 0, 0)
  {
    FirstMonotone(n, a, 0, 0);
    MulLe(n.y, a, b);
    MulLe(n.z, n.y * a, n.y * b);
    var from, upTo := First(n, a, 0, 0), First(n, b, 0, 0);
    forall id | from <= id < upTo ensures OutsideLoops(begin, end, CellOf(n, id)) {
      SlabX(n, a, b, id);
    }
    SkipIds(n, lat, lo, hi, begin, end, from, upTo);
  }

  lemma SkipY(n: Triple, lat: real, lo: Vec, hi: Vec, begin: Triple, end: Triple, x: int, a: int, b: int)
    requires Bounds(n, lat, lo, hi, begin, end) && 0 <= x && 0 <= a <= b <= n.y && (b <= begin.y || end.y <= a)
    ensures OwnedBefore(n, lat, lo, hi, x, b, 0) == OwnedBefore(n, lat, lo, hi, x, a, 0)
  {
    FirstMonotone(n, x, a, 0);
    MulLe(n.z, a + n.y * x, b + n.y * x);
    var from, upTo := First(n, x, a, 0), First(n, x, b, 0);
    forall id | from <= id < upTo ensures OutsideLoops(begin, end, CellOf(n, id)) {
      SlabY(n, x, a, b, id);
    }
    SkipIds(n, lat, lo, hi, begin, end, from, upTo);
  }

  lemma SkipZ(n: Triple, lat: real, lo: Vec, hi: Vec, begin: Triple, end: Triple, x: int, y: int, a: int, b: int)
    requires Bounds(n, lat, lo, hi, begin, end) && 0 <= x && 0 <= y && 0 <= a <= b <= n.z
    requires b <= begin.z || end.z <= a
    ensures OwnedBefore(n, lat, lo, hi, x, y, b) == OwnedBefore(n, lat, lo, hi, x, y, a)
  {
    FirstMonotone(n, x, y, a);
    var from, upTo := First(n, x, y, a), First(n, x, y, b);
    forall id | from <= id < upTo ensures OutsideLoops(begin, end, CellOf(n, id)) {
      SlabZ(n, x, y, a, b, id);
    }
    SkipIds(n, lat, lo, hi, begin, end, from, upTo);
  }

  lemma NextMultiple(g: int, a: int)
    ensures NB * (g + g * a) == NB * (0 + g * (a + 1))
  {
    assert g * (a + 1) == g * a + g;
  }

  lemma RowEnds(n: Triple, x: int, y: int)
    ensures First(n, x, y, n.z) == First(n, x, y + 1, 0)
  {
    NextMultiple(n.z, y + n.y * x);
  }

  lemma LayerEnds(n: Triple, x: int)
    ensures First(n, x, n.y, 0) == First(n, x + 1, 0, 0)
  {
    assert n.y + n.y * x == 0 + n.y * (x + 1);
  }

  /** A full row of cells ends where the next one starts. */
  lemma CarryRow(n: Triple, lat: real, lo: Vec, hi: Vec, x: int, y: int)
    requires n.Positive()
    ensures OwnedBefore(n, lat, lo, hi, x, y, n.z) == OwnedBefore(n, lat, lo, hi, x, y + 1, 0)
  {
    RowEnds(n, x, y);
  }

  /** A full layer of rows ends where the next one starts. */
  lemma CarryLayer(n: Triple, lat: real, lo: Vec, hi: Vec, x: int)
    requires n.Positive()
    ensures OwnedBefore(n, lat, lo, hi, x, n.y, 0) == OwnedBefore(n, lat, lo, hi, x + 1, 0, 0)
  {
    LayerEnds(n, x);
  }

  lemma OwnedEnds(n: Triple, lat: real, lo: Vec, hi: Vec)
    requires n.Positive()
    ensures OwnedBefore(n, lat, lo, hi, 0, 0, 0) == []
    ensures OwnedBefore(n, lat, lo, hi, n.x, 0, 0) == Owned(n, lat, lo, hi, SiteCount(n))
  {
    assert First(n, 0, 0, 0) == 0;
    assert First(n, n.x, 0, 0) == SiteCount(n);
  }

  /** The brick lies in the box of `n` unit cells. */
  predicate InBox(n: Triple, lat: real, lo: Vec, hi: Vec) {
    && 0.0 <= lo.x <= hi.x <= n.x as real * lat
    && 0.0 <= lo.y <= hi.y <= n.y as real * lat
    && 0.0 <= lo.z <= hi.z <= n.z as real * lat
  }

  lemma AxisHolds(n: int, lat: real, lo: real, hi: real)
    requires lat > 0.0 && 0.0 <= lo <= hi <= n as real * lat
    ensures AxisBounds(n, lat, lo, hi, (lo / lat).Floor, Ceil(hi / lat))
  {
    BoundsInBox(n, lat, lo, hi);
  }

  lemma BoundsHold(n: Triple, lat: real, lo: Vec, hi: Vec, begin: Triple, end: Triple)
    requires n.Positive() && lat > 0.0 && InBox(n, lat, lo, hi)
    requires begin == Triple((lo.x / lat).Floor, (lo.y / lat).Floor, (lo.z / lat).Floor)
    requires end == Triple(Ceil(hi.x / lat), Ceil(hi.y / lat), Ceil(hi.z / lat))
    ensures Bounds(n, lat, lo, hi, begin, end)
  {
    hide Ceil;
    AxisHolds(n.x, lat, lo.x, hi.x);
    AxisHolds(n.y, lat, lo.y, hi.y);
    AxisHolds(n.z, lat, lo.z, hi.z);
  }

  /** Before the loops, nothing has been passed over. */
  lemma StartBox(n: Triple, lat: real, lo: Vec, hi: Vec, begin: Triple, end: Triple)
    requires Bounds(n, lat, lo, hi, begin, end)
    ensures OwnedBefore(n, lat, lo, hi, begin.x, 0, 0) == []
  {
    OwnedEnds(n, lat, lo, hi);
    SkipX(n, lat, lo, hi, begin, end, 0, begin.x);
  }

  /** Behind each loop, nothing is passed over up to where the next pass of the outer loop starts. */
  lemma EndRow(n: Triple, lat: real, lo: Vec, hi: Vec, begin: Triple, end: Triple, x: int, y: int)
    requires Bounds(n, lat, lo, hi, begin, end) && 0 <= x && 0 <= y
    ensures OwnedBefore(n, lat, lo, hi, x, y, end.z) == OwnedBefore(n, lat, lo, hi, x, y + 1, 0)
  {
    SkipZ(n, lat, lo, hi, begin, end, x, y, end.z, n.z);
    CarryRow(n, lat, lo, hi, x, y);
  }

  lemma EndLayer(n: Triple, lat: real, lo: Vec, hi: Vec, begin: Triple, end: Triple, x: int)
    requires Bounds(n, lat, lo, hi, begin, end) && 0 <= x
    ensures OwnedBefore(n, lat, lo, hi, x, end.y, 0) == OwnedBefore(n, lat, lo, hi, x + 1, 0, 0)
  {
    SkipY(n, lat, lo, hi, begin, end, x, end.y, n.y);
    CarryLayer(n, lat, lo, hi, x);
  }

  lemma EndBox(n: Triple, lat: real, lo: Vec, hi: Vec, begin: Triple, end: Triple)
    requires Bounds(n, lat, lo, hi, begin, end)
    ensures OwnedBefore(n, lat, lo, hi, end.x, 0, 0) == Owned(n, lat, lo, hi, SiteCount(n))
  {
    SkipX(n, lat, lo, hi, begin, end, end.x, n.x);
    OwnedEnds(n, lat, lo, hi);
  }

  /** The next id in loop order contributes its atom exactly when its site is in the brick. */
  lemma OwnedStep(n: Triple, lat: real, lo: Vec, hi: Vec, c: Triple, ib: int)
    requires n.Positive() && c.Inside(n) && 0 <= ib < NB
    ensures var id := Id(n, c, ib);
            Owned(n, lat, lo, hi, Id(n, c, ib + 1))
            == Owned(n, lat, lo, hi, id)
               + if InBrick(lo, hi, Position(lat, c, ib)) then [Atom(id, Position(lat, c, ib))] else []
  {
    IdDigits(n, c, ib);
  }

  /** A unit cell takes the ids from its first up to that of the next cell of the row. */
  lemma CellEnds(n: Triple, lat: real, lo: Vec, hi: Vec, c: Triple)
    requires n.Positive()
    ensures OwnedBefore(n, lat, lo, hi, c.x, c.y, c.z) == Owned(n, lat, lo, hi, Id(n, c, 0))
    ensures OwnedBefore(n, lat, lo, hi, c.x, c.y, c.z + 1) == Owned(n, lat, lo, hi, Id(n, c, NB))
  {
    hide Owned;
  }

  class SimFlat {
    const domain: Domain
    var atoms: seq<Atom>

    constructor (domain: Domain)
      ensures this.domain == domain && atoms == []
    {
      this.domain := domain;
      atoms := [];
    }

    method PutAtomInBox(id: int, rx: real, ry: real, rz: real)
      modifies this
      ensures atoms == old(atoms) + [Atom(id, Vec(rx, ry, rz))]
    {
      atoms := atoms + [Atom(id, Vec(rx, ry, rz))];
    }

    /** The brick of this rank. */
    ghost function Lo(): Vec
      requires domain.Shaped()
      reads domain.localMin
    {
      Vec(domain.localMin[0], domain.localMin[1], domain.localMin[2])
    }

    ghost function Hi(): Vec
      requires domain.Shaped()
      reads domain.localMax
    {
      Vec(domain.localMax[0], domain.localMax[1], domain.localMax[2])
    }

    /** The four basis atoms of one unit cell. */
    method PlaceCell(n: Triple, lat: real, c: Triple)
      requires domain.Shaped() && n.Positive() && c.Inside(n)
      requires atoms == OwnedBefore(n, lat, Lo(), Hi(), c.x, c.y, c.z)
      modifies this
      ensures atoms == OwnedBefore(n, lat, Lo(), Hi(), c.x, c.y, c.z + 1)
    {
      hide Id, First, Owned, OwnedBefore, Position, Basis;
      var localMin, localMax := domain.localMin, domain.localMax;
      ghost var lo, hi := Lo(), Hi();
      CellEnds(n, lat, lo, hi, c);
      for ib := 0 to NB
        invariant atoms == Owned(n, lat, lo, hi, Id(n, c, ib))
      {
        OwnedStep(n, lat, lo, hi, c, ib);
        var r := Position(lat, c, ib);
        if r.x < localMin[0] || r.x >= localMax[0] { continue; }
        if r.y < localMin[1] || r.y >= localMax[1] { continue; }
        if r.z < localMin[2] || r.z >= localMax[2] { continue; }
        PutAtomInBox(Id(n, c, ib), r.x, r.y, r.z);
      }
    }

    /** The first and the last unit cell that can hold an atom of this rank. */
    method CellBounds(lat: real) returns (begin: seq<int>, end: seq<int>)
      requires domain.Shaped() && lat > 0.0
      ensures |begin| == |end| == 3
      ensures forall i :: 0 <= i < 3 ==>
                begin[i] == (domain.localMin[i] / lat).Floor && end[i] == Ceil(domain.localMax[i] / lat)
    {
      begin, end := [], [];
      for i := 0 to 3
        invariant |begin| == |end| == i
        invariant forall k :: 0 <= k < i ==>
                    begin[k] == (domain.localMin[k] / lat).Floor && end[k] == Ceil(domain.localMax[k] / lat)
      {
        begin := begin + [(domain.localMin[i] / lat).Floor];
        end := end + [Ceil(domain.localMax[i] / lat)];
      }
    }

    method CreateFccLattice(n: Triple, lat: real)
      requires domain.Shaped() && n.Positive() && lat > 0.0 && InBox(n, lat, Lo(), Hi()) && atoms == []
      modifies this
      ensures atoms == Owned(n, lat, Lo(), Hi(), SiteCount(n))
    {
      hide Id, First, Owned, OwnedBefore, SiteCount, Ceil;
      ghost var lo, hi := Lo(), Hi();
      var begin, end := CellBounds(lat);
      ghost var b, e := Triple(begin[0], begin[1], begin[2]), Triple(end[0], end[1], end[2]);
      BoundsHold(n, lat, lo, hi, b, e);
      StartBox(n, lat, lo, hi, b, e);
      for ix := begin[0] to end[0]
        invariant atoms == OwnedBefore(n, lat, lo, hi, ix, 0, 0)
      {
        SkipY(n, lat, lo, hi, b, e, ix, 0, begin[1]);
        for iy := begin[1] to end[1]
          invariant atoms == OwnedBefore(n, lat, lo, hi, ix, iy, 0)
        {
          SkipZ(n, lat, lo, hi, b, e, ix, iy, 0, begin[2]);
          for iz := begin[2] to end[2]
            invariant atoms == OwnedBefore(n, lat, lo, hi, ix, iy, iz)
          {
            PlaceCell(n, lat, Triple(ix, iy, iz));
          }
          EndRow(n, lat, lo, hi, b, e, ix, iy);
        }
        EndLayer(n, lat, lo, hi, b, e, ix);
      }
      EndBox(n, lat, lo, hi, b, e);
    }
  }
}
