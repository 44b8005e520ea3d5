/** All ranks together: the bricks tile the box and every lattice site is placed exactly once. */
module LatticeTiling {
  import opened Arithmetic
  import opened Decomposition
  import opened Lattice

  // ---- Bricks ----------------------------------------------------------

  /** The global box, as CoMD.c sets it up: `n` unit cells of size `lat`. */
  function Extent(n: Triple, lat: real): Vec {
    Vec(n.x as real * lat, n.y as real * lat, n.z as real * lat)
  }

  function Corner(grid: Triple, extent: Vec, c: Triple): Vec
    requires grid.Positive()
  {
    Vec(LowEnd(extent.x, grid.x, c.x), LowEnd(extent.y, grid.y, c.y), LowEnd(extent.z, grid.z, c.z))
  }

  function BrickLo(grid: Triple, extent: Vec, rank: int): Vec
    requires grid.Positive()
  {
    Corner(grid, extent, CoordOf(grid, rank))
  }

  function BrickHi(grid: Triple, extent: Vec, rank: int): Vec
    requires grid.Positive()
  {
    Corner(grid, extent, CoordOf(grid, rank).Plus(Triple(1, 1, 1)))
  }

  lemma LowEndScale(extent: real, g: int, c: int)
    requires g > 0 && extent >= 0.0
    ensures extent / g as real >= 0.0
    ensures LowEnd(extent, g, 0) == 0.0 && LowEnd(extent, g, g) == extent
  {
    RealDivMul(extent, g as real);
    var w := extent / g as real;
    if w < 0.0 {
      RealMulLt(g as real, w, 0.0);
      assert false;
    }
  }

  lemma LowEndMonotone(extent: real, g: int, a: int, b: int)
    requires g > 0 && extent >= 0.0 && a <= b
    ensures LowEnd(extent, g, a) <= LowEnd(extent, g, b)
  {
    LowEndScale(extent, g, a);
    var w := extent / g as real;
    if w > 0.0 {
      RealMulLt(w, a as real, b as real);
    }
  }

  /** On one axis, exactly one of the `g` intervals holds a point of the box. */
  function AxisOwner(extent: real, g: int, x: real): int
    requires g > 0 && extent > 0.0
  {
    (x / (extent / g as real)).Floor
  }

  predicate Within(extent: real, g: int, c: int, x: real)
    requires g > 0
  {
    LowEnd(extent, g, c) <= x < LowEnd(extent, g, c + 1)
  }

  lemma Scaled(w: real, q: real, x: real, at: real)
    requires w > 0.0 && q * w == x
    ensures at * w <= x <==> at <= q
    ensures x < at * w <==> q < at
  {
    RealMulLt(w, at, q);
    RealMulLt(w, q, at);
  }

  lemma FloorOwns(w: real, q: real, x: real, c: int, at: real, next: real)
    requires w > 0.0 && q * w == x && at == c as real && next == (c + 1) as real
    ensures at * w <= x < next * w <==> c == q.Floor
  {
    Scaled(w, q, x, at);
    Scaled(w, q, x, next);
    FloorBounds(q, c);
    FloorBounds(q, c + 1);
  }

  lemma FloorInRange(w: real, q: real, x: real, g: int, top: real)
    requires w > 0.0 && q * w == x && 0.0 <= x < top * w && top == g as real
    ensures 0 <= q.Floor < g
  {
    Scaled(w, q, x, 0.0);
    Scaled(w, q, x, top);
    FloorBounds(q, 0);
    FloorBounds(q, g);
  }

  lemma AxisOwnerOwns(extent: real, g: int, x: real, c: int)
    requires g > 0 && 0.0 <= x < extent
    ensures 0 <= AxisOwner(extent, g, x) < g
    ensures Within(extent, g, c, x) <==> c == AxisOwner(extent, g, x)
  {
    var w := extent / g as real;
    LowEndScale(extent, g, c);
    assert w > 0.0 by { RealDivMul(extent, g as real); }
    var q := x / w;
    RealDivMul(x, w);
    FloorOwns(w, q, x, c, c as real, (c + 1) as real);
    FloorInRange(w, q, x, g, g as real);
  }

  lemma SiteInBox(i: int, b: real, n: int, lat: real)
    requires lat > 0.0 && 0 <= i < n && 0.0 < b < 1.0
    ensures 0.0 <= (i as real + b) * lat < n as real * lat
  {
    RealMulLt(lat, 0.0, i as real + b);
    RealMulLt(lat, i as real + b, n as real);
  }

  predicate InsideBox(extent: Vec, r: Vec) {
    0.0 <= r.x < extent.x && 0.0 <= r.y < extent.y && 0.0 <= r.z < extent.z
  }

  /** The grid coordinates whose brick holds a position of the box. */
  function OwnerCoord(grid: Triple, extent: Vec, r: Vec): Triple
    requires grid.Positive() && InsideBox(extent, r)
  {
    Triple(AxisOwner(extent.x, grid.x, r.x), AxisOwner(extent.y, grid.y, r.y), AxisOwner(extent.z, grid.z, r.z))
  }

  lemma CornerWithin(grid: Triple, extent: Vec, c: Triple, r: Vec)
    requires grid.Positive()
    ensures InBrick(Corner(grid, extent, c), Corner(grid, extent, c.Plus(Triple(1, 1, 1))), r)
            <==> Within(extent.x, grid.x, c.x, r.x) && Within(extent.y, grid.y, c.y, r.y)
                 && Within(extent.z, grid.z, c.z, r.z)
  {
  }

  /** The bricks tile the box: each point of it lies in the brick of exactly one grid coordinate. */
  lemma CornersTile(grid: Triple, extent: Vec, r: Vec, c: Triple)
    requires grid.Positive() && InsideBox(extent, r)
    ensures OwnerCoord(grid, extent, r).Inside(grid)
    ensures InBrick(Corner(grid, extent, c), Corner(grid, extent, c.Plus(Triple(1, 1, 1))), r)
            <==> c == OwnerCoord(grid, extent, r)
  {
    CornerWithin(grid, extent, c, r);
    AxisOwnerOwns(extent.x, grid.x, r.x, c.x);
    AxisOwnerOwns(extent.y, grid.y, r.y, c.y);
    AxisOwnerOwns(extent.z, grid.z, r.z, c.z);
  }

  lemma InsideX(n: Triple, lat: real, c: Triple, ib: int)
    requires lat > 0.0 && c.Inside(n)
    ensures 0.0 <= Position(lat, c, ib).x < Extent(n, lat).x
  {
    SiteInBox(c.x, Basis(ib).x, n.x, lat);
  }

  lemma InsideY(n: Triple, lat: real, c: Triple, ib: int)
    requires lat > 0.0 && c.Inside(n)
    ensures 0.0 <= Position(lat, c, ib).y < Extent(n, lat).y
  {
    SiteInBox(c.y, Basis(ib).y, n.y, lat);
  }

  lemma InsideZ(n: Triple, lat: real, c: Triple, ib: int)
    requires lat > 0.0 && c.Inside(n)
    ensures 0.0 <= Position(lat, c, ib).z < Extent(n, lat).z
  {
    SiteInBox(c.z, Basis(ib).z, n.z, lat);
  }

  lemma PositionInside(n: Triple, lat: real, c: Triple, ib: int)
    requires lat > 0.0 && c.Inside(n)
    ensures InsideBox(Extent(n, lat), Position(lat, c, ib))
  {
    InsideX(n, lat, c, ib);
    InsideY(n, lat, c, ib);
    InsideZ(n, lat, c, ib);
  }

  lemma SiteInside(n: Triple, lat: real, id: int)
    requires n.Positive() && lat > 0.0 && 0 <= id < SiteCount(n)
    ensures InsideBox(Extent(n, lat), SiteAtom(n, lat, id).r)
  {
    DigitsId(n, id);
    PositionInside(n, lat, CellOf(n, id), id % NB);
  }

  // ---- Ownership of sites ----------------------------------------------

  /** A processor grid and a lattice for it. */
  datatype Setup = Setup(grid: Triple, n: Triple, lat: real) {
    predicate Good() {
      grid.Positive() && n.Positive() && lat > 0.0
    }

    predicate IsId(id: int) {
      0 <= id < SiteCount(n)
    }

    predicate IsRank(rank: int) {
      0 <= rank < grid.Volume()
    }

    predicate Holds(rank: int, id: int)
      requires Good()
    {
      InBrick(BrickLo(grid, Extent(n, lat), rank), BrickHi(grid, Extent(n, lat), rank), SiteAtom(n, lat, id).r)
    }

    /** What `CreateFccLattice` places on a rank, up to an id. */
    function Placed(rank: int, upTo: int): seq<Atom>
      requires Good()
    {
      Owned(n, lat, BrickLo(grid, Extent(n, lat), rank), BrickHi(grid, Extent(n, lat), rank), upTo)
    }

    /** `addIntParallel` over the ranks below `ranks`: the number of atoms placed. */
    function Total(ranks: nat, upTo: int): nat
      requires Good()
    {
      if ranks == 0 then 0 else Total(ranks - 1, upTo) + |Placed(ranks - 1, upTo)|
    }
  }

  /** The rank that places atom `id`. */
  function OwnerRank(s: Setup, id: int): int
    requires s.Good() && s.IsId(id)
  {
    SiteInside(s.n, s.lat, id);
    RankOf(s.grid, OwnerCoord(s.grid, Extent(s.n, s.lat), SiteAtom(s.n, s.lat, id).r))
  }

  lemma OneOwner(s: Setup, id: int, rank: int)
    requires s.Good() && s.IsId(id)
    ensures s.IsRank(OwnerRank(s, id))
    ensures s.IsRank(rank) ==> (s.Holds(rank, id) <==> rank == OwnerRank(s, id))
  {
    SiteInside(s.n, s.lat, id);
    var r := SiteAtom(s.n, s.lat, id).r;
    var owner := OwnerCoord(s.grid, Extent(s.n, s.lat), r);
    CornersTile(s.grid, Extent(s.n, s.lat), r, CoordOf(s.grid, rank));
    RankInRange(s.grid, owner);
    if s.IsRank(rank) {
      CoordOfRank(s.grid, owner);
      RankOfCoord(s.grid, rank);
    }
  }

  // ---- Every atom exactly once -----------------------------------------

  predicate Increasing(atoms: seq<Atom>, bound: int) {
    && (forall i :: 0 <= i < |atoms| ==> 0 <= atoms[i].id < bound)
    && (forall i, j :: 0 <= i < j < |atoms| ==> atoms[i].id < atoms[j].id)
  }

  lemma IncreasingSnoc(atoms: seq<Atom>, a: Atom)
    requires a.id >= 0 && Increasing(atoms, a.id)
    ensures Increasing(atoms, a.id + 1) && Increasing(atoms + [a], a.id + 1)
  {
  }

  lemma {:induction false} OwnedSorted(n: Triple, lat: real, lo: Vec, hi: Vec, upTo: nat)
    requires n.Positive()
    ensures Increasing(Owned(n, lat, lo, hi, upTo), upTo)
  {
    if upTo > 0 {
      OwnedSorted(n, lat, lo, hi, upTo - 1);
      IncreasingSnoc(Owned(n, lat, lo, hi, upTo - 1), SiteAtom(n, lat, upTo - 1));
    }
  }

  lemma {:induction false} OwnedHas(n: Triple, lat: real, lo: Vec, hi: Vec, upTo: nat, id: int)
    requires n.Positive() && 0 <= id < upTo && InBrick(lo, hi, SiteAtom(n, lat, id).r)
    ensures SiteAtom(n, lat, id) in Owned(n, lat, lo, hi, upTo)
  {
    if id < upTo - 1 {
      OwnedHas(n, lat, lo, hi, upTo - 1, id);
    }
  }

  lemma {:induction false} OwnedOnly(n: Triple, lat: real, lo: Vec, hi: Vec, upTo: nat, a: Atom)
    requires n.Positive() && a in Owned(n, lat, lo, hi, upTo)
    ensures 0 <= a.id < upTo && a == SiteAtom(n, lat, a.id) && InBrick(lo, hi, SiteAtom(n, lat, a.id).r)
  {
    if a in Owned(n, lat, lo, hi, upTo - 1) {
      OwnedOnly(n, lat, lo, hi, upTo - 1, a);
    }
  }

  /** In a list with increasing ids, an atom has one slot. */
  lemma SortedUnique(atoms: seq<Atom>, a: Atom) returns (i: nat)
    requires a in atoms && exists bound :: Increasing(atoms, bound)
    ensures i < |atoms| && atoms[i] == a && forall j :: 0 <= j < |atoms| && atoms[j].id == a.id ==> i == j
  {
    i :| 0 <= i < |atoms| && atoms[i] == a;
  }

  /** Over all ranks, the lattice loops place every atom of the lattice exactly once: the owner of its site
      does, in one slot, and no other rank places an atom with that id. */
  lemma EachAtomOnce(s: Setup, id: int, rank: int)
    requires s.Good() && s.IsId(id) && s.IsRank(rank)
    ensures s.IsRank(OwnerRank(s, id))
    ensures var placed := s.Placed(rank, SiteCount(s.n));
            if rank == OwnerRank(s, id) then
              exists i :: 0 <= i < |placed| && placed[i] == SiteAtom(s.n, s.lat, id)
                       && forall j :: 0 <= j < |placed| && placed[j].id == id ==> i == j
            else forall j :: 0 <= j < |placed| ==> placed[j].id != id
  {
    OneOwner(s, id, rank);
    var lo, hi := BrickLo(s.grid, Extent(s.n, s.lat), rank), BrickHi(s.grid, Extent(s.n, s.lat), rank);
    var placed := s.Placed(rank, SiteCount(s.n));
    if rank == OwnerRank(s, id) {
      OwnedHas(s.n, s.lat, lo, hi, SiteCount(s.n), id);
      OwnedSorted(s.n, s.lat, lo, hi, SiteCount(s.n));
      var i := SortedUnique(placed, SiteAtom(s.n, s.lat, id));
      assert placed[i] == SiteAtom(s.n, s.lat, id);
    } else {
      forall j | 0 <= j < |placed| ensures placed[j].id != id {
        OwnedOnly(s.n, s.lat, lo, hi, SiteCount(s.n), placed[j]);
      }
    }
  }

  lemma {:induction false} TotalStep(s: Setup, ranks: nat, id: int)
    requires s.Good() && s.IsId(id) && ranks <= s.grid.Volume()
    ensures s.Total(ranks, id + 1) == s.Total(ranks, id) + if OwnerRank(s, id) < ranks then 1 else 0
  {
    hide SiteAtom;
    OneOwner(s, id, ranks - 1);
    if ranks > 0 {
      TotalStep(s, ranks - 1, id);
      assert |s.Placed(ranks - 1, id + 1)| == |s.Placed(ranks - 1, id)| + if s.Holds(ranks - 1, id) then 1 else 0;
    }
  }

  lemma {:induction false} TotalZero(s: Setup, ranks: nat)
    requires s.Good()
    ensures s.Total(ranks, 0) == 0
  {
    if ranks > 0 {
      TotalZero(s, ranks - 1);
    }
  }

  lemma {:induction false} TotalUpTo(s: Setup, upTo: nat)
    requires s.Good() && upTo <= SiteCount(s.n)
    ensures s.grid.Volume() >= 0 && s.Total(s.grid.Volume(), upTo) == upTo
  {
    hide SiteAtom;
    RankInRange(s.grid, Triple(0, 0, 0));
    if upTo == 0 {
      TotalZero(s, s.grid.Volume());
    } else {
      TotalUpTo(s, upTo - 1);
      TotalStep(s, s.grid.Volume(), upTo - 1);
      OneOwner(s, upTo - 1, 0);
    }
  }

  /** The assertion at the end of `createFccLattice`: nGlobal == nb*nx*ny*nz. */
  lemma CountAssertionHolds(s: Setup)
    requires s.Good()
    ensures s.grid.Volume() >= 0 && SiteCount(s.n) >= 0
    ensures s.Total(s.grid.Volume(), SiteCount(s.n)) == NB * s.n.x * s.n.y * s.n.z
  {
    IdDigits(s.n, Triple(0, 0, 0), 0);
    TotalUpTo(s, SiteCount(s.n));
    CountRegroups(s.n);
  }

  lemma CountRegroups(n: Triple)
    ensures SiteCount(n) == NB * n.x * n.y * n.z
  {
    assert n.z * (n.y * n.x) == n.x * n.y * n.z;
  }

  // ---- One rank of the program -----------------------------------------

  lemma BrickInBox(s: Setup, rank: int)
    requires s.Good() && s.IsRank(rank)
    ensures InBox(s.n, s.lat, BrickLo(s.grid, Extent(s.n, s.lat), rank), BrickHi(s.grid, Extent(s.n, s.lat), rank))
  {
    RankOfCoord(s.grid, rank);
    var c, extent := CoordOf(s.grid, rank), Extent(s.n, s.lat);
    AxisInBox(extent.x, s.grid.x, c.x);
    AxisInBox(extent.y, s.grid.y, c.y);
    AxisInBox(extent.z, s.grid.z, c.z);
  }

  lemma AxisInBox(extent: real, g: int, c: int)
    requires g > 0 && extent >= 0.0 && 0 <= c < g
    ensures 0.0 <= LowEnd(extent, g, c) <= LowEnd(extent, g, c + 1) <= extent
  {
    LowEndScale(extent, g, c);
    LowEndMonotone(extent, g, 0, c);
    LowEndMonotone(extent, g, c, c + 1);
    LowEndMonotone(extent, g, c + 1, g);
  }

  lemma DomainBrick(domain: Domain, extent: Vec)
    requires domain.Valid() && domain.globalExtent[..] == [extent.x, extent.y, extent.z]
    ensures var c := domain.Coord();
            && Vec(domain.localMin[0], domain.localMin[1], domain.localMin[2]) == Corner(domain.Grid(), extent, c)
            && Vec(domain.localMax[0], domain.localMax[1], domain.localMax[2])
               == Corner(domain.Grid(), extent, c.Plus(Triple(1, 1, 1)))
  {
    var global := domain.globalExtent[..];
    assert global[0] == extent.x && global[1] == extent.y && global[2] == extent.z;
  }

  /** The set-up of one rank: its domain, then its share of the lattice. */
  method InitRank(s: Setup, nRanks: int, rank: int) returns (sim: SimFlat)
    requires s.Good() && nRanks == s.grid.Volume() && s.IsRank(rank)
    ensures fresh(sim) && sim.atoms == s.Placed(rank, SiteCount(s.n))
  {
    BrickInBox(s, rank);
    var extent := Extent(s.n, s.lat);
    var domain := new Domain(s.grid.x, s.grid.y, s.grid.z, [extent.x, extent.y, extent.z], nRanks, rank);
    sim := new SimFlat(domain);
    DomainBrick(domain, extent);
    sim.CreateFccLattice(s.n, s.lat);
  }
}
