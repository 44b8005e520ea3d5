/** The processor grid of examples/CoMD/src-mpi/decomposition.c. */
module Decomposition {
  import opened Arithmetic

  datatype Triple = Triple(x: int, y: int, z: int) {
    function Plus(t: Triple): Triple {
      Triple(x + t.x, y + t.y, z + t.z)
    }

    function Negated(): Triple {
      Triple(-x, -y, -z)
    }

    predicate Positive() {
      x > 0 && y > 0 && z > 0
    }

    /** The number of cells of a grid of this size. */
    function Volume(): int {
      x * (y * z)
    }

    predicate Inside(grid: Triple) {
      0 <= x < grid.x && 0 <= y < grid.y && 0 <= z < grid.z
    }
  }

  /** The rank at grid coordinates `c`: x varies fastest. */
  function RankOf(grid: Triple, c: Triple): int {
    c.x + grid.x * (c.y + grid.y * c.z)
  }

  /** The grid coordinates of a rank. */
  function CoordOf(grid: Triple, rank: int): Triple
    requires grid.Positive()
  {
    Triple(rank % grid.x, rank / grid.x % grid.y, rank / grid.x / grid.y)
  }

  lemma RankInRange(grid: Triple, c: Triple)
    requires c.Inside(grid)
    ensures 0 <= RankOf(grid, c) < grid.Volume()
  {
    MixedBound(c.y, c.z, grid.y, grid.z);
    MixedBound(c.x, c.y + grid.y * c.z, grid.x, grid.y * grid.z);
  }

  lemma CoordOfRank(grid: Triple, c: Triple)
    requires c.Inside(grid)
    ensures CoordOf(grid, RankOf(grid, c)) == c
  {
    DivModUnique(RankOf(grid, c), grid.x, c.y + grid.y * c.z, c.x);
    DivModUnique(c.y + grid.y * c.z, grid.y, c.z, c.y);
  }

  lemma RankOfCoord(grid: Triple, rank: int)
    requires grid.Positive() && 0 <= rank < grid.Volume()
    ensures CoordOf(grid, rank).Inside(grid) && RankOf(grid, CoordOf(grid, rank)) == rank
  {
    DivBound(rank, grid.x, grid.y * grid.z);
    DivBound(rank / grid.x, grid.y, grid.z);
  }

  // ---- Neighbours on the torus -----------------------------------------

  function Wrapped(grid: Triple, c: Triple): Triple
    requires grid.Positive()
  {
    Triple(c.x % grid.x, c.y % grid.y, c.z % grid.z)
  }

  /** The rank `d` steps away from `rank` on the torus. */
  function Neighbour(grid: Triple, rank: int, d: Triple): int
    requires grid.Positive()
  {
    RankOf(grid, Wrapped(grid, CoordOf(grid, rank).Plus(d)))
  }

  lemma WrappedInside(grid: Triple, c: Triple)
    requires grid.Positive()
    ensures Wrapped(grid, c).Inside(grid)
  {
  }

  lemma NeighbourCoord(grid: Triple, rank: int, d: Triple)
    requires grid.Positive()
    ensures 0 <= Neighbour(grid, rank, d) < grid.Volume()
    ensures CoordOf(grid, Neighbour(grid, rank, d)) == Wrapped(grid, CoordOf(grid, rank).Plus(d))
  {
    var c := Wrapped(grid, CoordOf(grid, rank).Plus(d));
    WrappedInside(grid, c);
    RankInRange(grid, c);
    CoordOfRank(grid, c);
  }

  lemma WrappedPlus(grid: Triple, c: Triple, d: Triple)
    requires grid.Positive()
    ensures Wrapped(grid, Wrapped(grid, c).Plus(d)) == Wrapped(grid, c.Plus(d))
  {
    ModAdd(c.x, d.x, grid.x);
    ModAdd(c.y, d.y, grid.y);
    ModAdd(c.z, d.z, grid.z);
  }

  /** Zero steps lead back to the rank itself. */
  lemma NeighbourZero(grid: Triple, rank: int)
    requires grid.Positive() && 0 <= rank < grid.Volume()
    ensures Neighbour(grid, rank, Triple(0, 0, 0)) == rank
  {
    RankOfCoord(grid, rank);
    var c := CoordOf(grid, rank);
    DivModUnique(c.x, grid.x, 0, c.x);
    DivModUnique(c.y, grid.y, 0, c.y);
    DivModUnique(c.z, grid.z, 0, c.z);
    assert Wrapped(grid, c.Plus(Triple(0, 0, 0))) == c;
  }

  /** Stepping by d and then by e is stepping by d + e. */
  lemma NeighbourPlus(grid: Triple, rank: int, d: Triple, e: Triple)
    requires grid.Positive()
    ensures Neighbour(grid, Neighbour(grid, rank, d), e) == Neighbour(grid, rank, d.Plus(e))
  {
    NeighbourCoord(grid, rank, d);
    WrappedPlus(grid, CoordOf(grid, rank).Plus(d), e);
    assert CoordOf(grid, rank).Plus(d).Plus(e) == CoordOf(grid, rank).Plus(d.Plus(e));
  }

  /** -d undoes d. */
  lemma NeighbourUndo(grid: Triple, rank: int, d: Triple)
    requires grid.Positive() && 0 <= rank < grid.Volume()
    ensures Neighbour(grid, Neighbour(grid, rank, d), d.Negated()) == rank
  {
    NeighbourPlus(grid, rank, d, d.Negated());
    assert d.Plus(d.Negated()) == Triple(0, 0, 0);
    NeighbourZero(grid, rank);
  }

  // ---- Unit steps ------------------------------------------------------

  /** One step up an axis of `g` places. */
  lemma StepWraps(c: int, g: int)
    requires 0 <= c < g
    ensures (c + 1) % g == if c + 1 < g then c + 1 else 0
  {
    if c + 1 < g {
      DivModUnique(c + 1, g, 0, c + 1);
    } else {
      DivModUnique(c + 1, g, 1, 0);
    }
  }

  lemma StaysPut(c: int, g: int)
    requires 0 <= c < g
    ensures c % g == c
  {
    DivModUnique(c, g, 0, c);
  }

  /** A step up the x axis leads to the next rank, or from the last place of a row to its first. */
  lemma StepX(grid: Triple, rank: int)
    requires grid.Positive() && 0 <= rank < grid.Volume()
    ensures Neighbour(grid, rank, Triple(1, 0, 0))
         == if rank % grid.x + 1 < grid.x then rank + 1 else rank - (grid.x - 1)
  {
    RankOfCoord(grid, rank);
    var c := CoordOf(grid, rank);
    StepWraps(c.x, grid.x);
    StaysPut(c.y, grid.y);
    StaysPut(c.z, grid.z);
  }

  /** A step up the y axis leads one row of ranks further. */
  lemma StepY(grid: Triple, rank: int)
    requires grid.Positive() && 0 <= rank < grid.Volume()
    ensures Neighbour(grid, rank, Triple(0, 1, 0))
         == if rank / grid.x % grid.y + 1 < grid.y then rank + grid.x else rank - (grid.y - 1) * grid.x
  {
    RankOfCoord(grid, rank);
    var c := CoordOf(grid, rank);
    StaysPut(c.x, grid.x);
    StepWraps(c.y, grid.y);
    StaysPut(c.z, grid.z);
    Row(grid.x, c.y, grid.y * c.z);
    Row(grid.x, 1 - grid.y, c.y + grid.y * c.z);
  }

  lemma Row(g: int, a: int, b: int)
    ensures g * (a + 1 + b) == g * (a + b) + g
    ensures g * (a + b) == a * g + g * b
  {
  }

  /** A step up the z axis leads one layer of ranks further. */
  lemma StepZ(grid: Triple, rank: int)
    requires grid.Positive() && 0 <= rank < grid.Volume()
    ensures Neighbour(grid, rank, Triple(0, 0, 1))
         == if rank / grid.x / grid.y + 1 < grid.z then rank + grid.x * grid.y
            else rank - (grid.z - 1) * (grid.x * grid.y)
  {
    RankOfCoord(grid, rank);
    var c := CoordOf(grid, rank);
    StaysPut(c.x, grid.x);
    StaysPut(c.y, grid.y);
    StepWraps(c.z, grid.z);
    Layer(grid.x, grid.y, c.y, c.z, grid.z);
  }

  lemma Layer(g: int, h: int, y: int, z: int, n: int)
    ensures g * (y + h * (z + 1)) == g * (y + h * z) + g * h
    ensures z == n - 1 ==> g * (y + h * z) == g * (y + h * 0) + (n - 1) * (g * h)
  {
    Row(g, y, h * z);
    Row(h, z, 0);
    Row(g, h, y + h * z);
    if z == n - 1 {
      assert g * (y + h * z) == g * y + g * (h * z);
      assert g * (h * z) == z * (g * h);
    }
  }

  /** Every offset can be taken in unit steps, axis by axis and in any order. */
  lemma UnitSteps(grid: Triple, rank: int, dx: int, dy: int, dz: int)
    requires grid.Positive()
    ensures Neighbour(grid, Neighbour(grid, rank, Triple(1, 0, 0)), Triple(dx, dy, dz))
         == Neighbour(grid, rank, Triple(dx + 1, dy, dz))
    ensures Neighbour(grid, Neighbour(grid, rank, Triple(0, 1, 0)), Triple(dx, dy, dz))
         == Neighbour(grid, rank, Triple(dx, dy + 1, dz))
    ensures Neighbour(grid, Neighbour(grid, rank, Triple(0, 0, 1)), Triple(dx, dy, dz))
         == Neighbour(grid, rank, Triple(dx, dy, dz + 1))
  {
    hide Neighbour;
    NeighbourPlus(grid, rank, Triple(1, 0, 0), Triple(dx, dy, dz));
    NeighbourPlus(grid, rank, Triple(0, 1, 0), Triple(dx, dy, dz));
    NeighbourPlus(grid, rank, Triple(0, 0, 1), Triple(dx, dy, dz));
  }

  function Ranks(grid: Triple): set<int> {
    Below(grid.Volume())
  }

  lemma NeighbourInverse(grid: Triple, rank: int, d: Triple)
    requires grid.Positive() && rank in Ranks(grid)
    ensures Neighbour(grid, rank, d) in Ranks(grid)
    ensures Neighbour(grid, Neighbour(grid, rank, d), d.Negated()) == rank
  {
    NeighbourCoord(grid, rank, d);
    NeighbourUndo(grid, rank, d);
  }

  ghost predicate Permutes(f: int -> int, s: set<int>) {
    && (forall x :: x in s ==> f(x) in s)
    && (forall x, y :: x in s && y in s && f(x) == f(y) ==> x == y)
    && (forall z :: z in s ==> exists x :: x in s && f(x) == z)
  }

  lemma InverseMeansPermutes(f: int -> int, g: int -> int, s: set<int>)
    requires forall x :: x in s ==> f(x) in s && g(f(x)) == x
    requires forall x :: x in s ==> g(x) in s && f(g(x)) == x
    ensures Permutes(f, s)
  {
    forall x, y | x in s && y in s && f(x) == f(y) ensures x == y {
      assert g(f(x)) == x && g(f(y)) == y;
    }
    forall z | z in s ensures exists x :: x in s && f(x) == z {
      var x := g(z);
      assert x in s && f(x) == z;
    }
  }

  /** Every fixed offset permutes the ranks. */
  lemma NeighbourPermutes(grid: Triple, d: Triple)
    requires grid.Positive()
    ensures Permutes(rank => Neighbour(grid, rank, d), Ranks(grid))
  {
    var f, g := rank => Neighbour(grid, rank, d), rank => Neighbour(grid, rank, d.Negated());
    forall rank | rank in Ranks(grid)
      ensures f(rank) in Ranks(grid) && g(f(rank)) == rank
      ensures g(rank) in Ranks(grid) && f(g(rank)) == rank
    {
      NeighbourInverse(grid, rank, d);
      NeighbourInverse(grid, rank, d.Negated());
      assert d.Negated().Negated() == d;
    }
    InverseMeansPermutes(f, g, Ranks(grid));
  }

  // ---- The domain of one rank ------------------------------------------

  /** One axis of the brick of a processor: its lower end; the upper end is the lower end of the next one. */
  function LowEnd(extent: real, procs: int, coord: int): real
    requires procs > 0
  {
    coord as real * (extent / procs as real)
  }

  lemma LowEndScales(extent: real, procs: int, coord: int)
    requires procs > 0
    ensures LowEnd(extent, procs, coord) * procs as real == coord as real * extent
  {
    var w := extent / procs as real;
    RealDivMul(extent, procs as real);
    assert coord as real * w * procs as real == coord as real * (w * procs as real);
  }

  /** `procs` intervals of the same length make up the extent, and this is the one at place `coord`. */
  predicate IsShare(low: real, high: real, extent: real, procs: int, coord: int) {
    low * procs as real == coord as real * extent && high * procs as real == (coord + 1) as real * extent
  }

  lemma ShareIs(extent: real, procs: int, coord: int)
    requires procs > 0
    ensures IsShare(LowEnd(extent, procs, coord), LowEnd(extent, procs, coord + 1), extent, procs, coord)
  {
    LowEndScales(extent, procs, coord);
    LowEndScales(extent, procs, coord + 1);
  }

  class Domain {
    const procGrid: array<int>
    const procCoord: array<int>
    const globalMin: array<real>
    const globalMax: array<real>
    const globalExtent: array<real>
    const localMin: array<real>
    const localMax: array<real>
    const localExtent: array<real>

    ghost predicate Shaped() {
      && procGrid.Length == procCoord.Length == 3
      && globalMin.Length == globalMax.Length == globalExtent.Length == 3
      && localMin.Length == localMax.Length == localExtent.Length == 3
    }

    ghost function Grid(): Triple
      requires Shaped()
      reads procGrid
    {
      Triple(procGrid[0], procGrid[1], procGrid[2])
    }

    ghost function Coord(): Triple
      requires Shaped()
      reads procCoord
    {
      Triple(procCoord[0], procCoord[1], procCoord[2])
    }

    ghost predicate Separate() {
      && globalMin != globalMax && globalMin != globalExtent && globalMax != globalExtent
      && localMin != localMax && localMin != localExtent && localMax != localExtent
      && localMin != globalMin && localMin != globalExtent && localMax != globalMin && localMax != globalExtent
      && localExtent != globalMin && localExtent != globalExtent
    }

    /** The brick of this processor is its share of the global box. */
    ghost predicate Valid()
      reads procGrid, procCoord, globalExtent, localMin, localMax
    {
      && Shaped()
      && Grid().Positive() && Coord().Inside(Grid())
      && HasShare()
    }

    ghost predicate HasShare()
      requires Shaped() && Grid().Positive()
      reads procGrid, procCoord, globalExtent, localMin, localMax
    {
      forall i :: 0 <= i < 3 ==>
        && localMin[i] == LowEnd(globalExtent[i], procGrid[i], procCoord[i])
        && localMax[i] == LowEnd(globalExtent[i], procGrid[i], procCoord[i] + 1)
    }

    constructor (xproc: int, yproc: int, zproc: int, extent: seq<real>, nRanks: int, rank: int)
      requires xproc > 0 && yproc > 0 && zproc > 0 && |extent| == 3
      requires xproc * (yproc * zproc) == nRanks && 0 <= rank < nRanks
      ensures Valid()
      ensures Grid() == Triple(xproc, yproc, zproc)
      ensures Coord() == CoordOf(Grid(), rank) && RankOf(Grid(), Coord()) == rank
      ensures globalExtent[..] == extent
    {
      hide LowEnd, IsShare, RankOf, CoordOf;
      procGrid, procCoord := new int[3], new int[3];
      globalMin, globalMax, globalExtent := new real[3], new real[3], new real[3];
      localMin, localMax, localExtent := new real[3], new real[3], new real[3];
      new;
      SetCoordinates(xproc, yproc, zproc, rank);
      SetGlobalBounds(extent);
      SetLocalBounds();
    }

    /** The bricks along an axis are equally long, and as many of them as there are processors make up the extent. */
    lemma SharesEven()
      requires Valid()
      ensures forall i :: 0 <= i < 3 ==> IsShare(localMin[i], localMax[i], globalExtent[i], procGrid[i], procCoord[i])
    {
      hide LowEnd, IsShare;
      forall i | 0 <= i < 3 ensures IsShare(localMin[i], localMax[i], globalExtent[i], procGrid[i], procCoord[i]) {
        assert Grid().Positive() && procGrid[i] > 0;
        ShareIs(globalExtent[i], procGrid[i], procCoord[i]);
      }
    }

    method SetCoordinates(xproc: int, yproc: int, zproc: int, rank: int)
      requires Shaped() && procGrid != procCoord
      requires xproc > 0 && yproc > 0 && zproc > 0 && 0 <= rank < xproc * (yproc * zproc)
      modifies procGrid, procCoord
      ensures Grid() == Triple(xproc, yproc, zproc)
      ensures Coord() == CoordOf(Grid(), rank) && Coord().Inside(Grid()) && RankOf(Grid(), Coord()) == rank
      ensures rank == procCoord[0] + xproc * (procCoord[1] + yproc * procCoord[2])
    {
      procGrid[0] := xproc;
      procGrid[1] := yproc;
      procGrid[2] := zproc;
      var myRank := rank;
      procCoord[0] := myRank % procGrid[0];
      myRank := myRank / procGrid[0];
      procCoord[1] := myRank % procGrid[1];
      procCoord[2] := myRank / procGrid[1];
      RankOfCoord(Grid(), rank);
    }

    method SetGlobalBounds(extent: seq<real>)
      requires Shaped() && Separate() && |extent| == 3
      modifies globalMin, globalMax, globalExtent
      ensures globalExtent[..] == extent && globalMax[..] == extent && forall i :: 0 <= i < 3 ==> globalMin[i] == 0.0
    {
      for i := 0 to 3
        invariant forall k :: 0 <= k < i ==>
                    globalMin[k] == 0.0 && globalMax[k] == extent[k] && globalExtent[k] == extent[k]
      {
        globalMin[i] := 0.0;
        globalMax[i] := extent[i];
        globalExtent[i] := globalMax[i] - globalMin[i];
      }
    }

    method SetLocalBounds()
      requires Shaped() && Separate() && Grid().Positive()
      requires forall i :: 0 <= i < 3 ==> globalMin[i] == 0.0
      modifies localExtent, localMin, localMax
      ensures HasShare()
    {
      for i := 0 to 3
        invariant forall k :: 0 <= k < i ==>
                    && localMin[k] == LowEnd(globalExtent[k], procGrid[k], procCoord[k])
                    && localMax[k] == LowEnd(globalExtent[k], procGrid[k], procCoord[k] + 1)
      {
        assert Grid().Positive();
        localExtent[i] := globalExtent[i] / procGrid[i] as real;
        localMin[i] := globalMin[i] + procCoord[i] as real * localExtent[i];
        localMax[i] := globalMin[i] + (procCoord[i] + 1) as real * localExtent[i];
      }
    }

    /** The rank at a relative coordinate; no offset may be below -procGrid. */
    method ProcessorNum(dix: int, diy: int, diz: int) returns (rank: int)
      requires Valid()
      requires dix >= -procGrid[0] && diy >= -procGrid[1] && diz >= -procGrid[2]
      ensures rank == Neighbour(Grid(), RankOf(Grid(), Coord()), Triple(dix, diy, diz))
      // Each grid coordinate of the rank, as it is read off a rank, moves by its own offset.
      ensures 0 <= rank < procGrid[0] * (procGrid[1] * procGrid[2])
      ensures rank % procGrid[0] == (procCoord[0] + dix) % procGrid[0]
      ensures rank / procGrid[0] % procGrid[1] == (procCoord[1] + diy) % procGrid[1]
      ensures rank / procGrid[0] / procGrid[1] == (procCoord[2] + diz) % procGrid[2]
    {
      ghost var grid, c := Grid(), Coord();
      var ix := (procCoord[0] + dix + procGrid[0]) % procGrid[0];
      var iy := (procCoord[1] + diy + procGrid[1]) % procGrid[1];
      var iz := (procCoord[2] + diz + procGrid[2]) % procGrid[2];
      CoordOfRank(grid, c);
      ModShift(c.x + dix, 1, grid.x);
      ModShift(c.y + diy, 1, grid.y);
      ModShift(c.z + diz, 1, grid.z);
      assert Triple(ix, iy, iz) == Wrapped(grid, c.Plus(Triple(dix, diy, diz)));
      rank := ix + procGrid[0] * (iy + procGrid[1] * iz);
      NeighbourCoord(grid, RankOf(grid, c), Triple(dix, diy, diz));
    }
  }
}
