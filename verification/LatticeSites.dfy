/** Where the atoms of the lattice are, in its own terms: a face-centred cubic lattice, cell by cell in order of id. */
module LatticeSites {
  import opened Arithmetic
  import opened Decomposition
  import opened Lattice
  import opened LatticeTiling

  // ---- Quarters of a cell ----------------------------------------------

  /** The middle of the h-th half of a cell. */
  function Middle(lat: real, h: int): real {
    lat / 4.0 * (2 * h + 1) as real
  }

  lemma MiddleIs(lat: real, i: int, e: int, b: real)
    requires e == 0 || e == 1
    requires b == 0.25 + 0.5 * e as real
    ensures (i as real + b) * lat == Middle(lat, 2 * i + e)
  {
    var w := lat / 4.0;
    assert lat == 4.0 * w;
    assert (2 * (2 * i + e) + 1) as real == 4.0 * (i as real + b);
    assert (i as real + b) * (4.0 * w) == w * (4.0 * (i as real + b));
  }

  lemma MiddleMonotone(lat: real, g: int, h: int)
    requires lat > 0.0 && g < h
    ensures Middle(lat, g) < Middle(lat, h)
  {
    RealMulLt(lat / 4.0, (2 * g + 1) as real, (2 * h + 1) as real);
  }

  lemma SameMiddle(lat: real, g: int, h: int)
    requires lat > 0.0 && Middle(lat, g) == Middle(lat, h)
    ensures g == h
  {
    if g < h {
      MiddleMonotone(lat, g, h);
    } else if h < g {
      MiddleMonotone(lat, h, g);
    }
  }

  /** The halves of its cell in which a basis atom lies. */
  function Halves(ib: int): Triple {
    if ib == 0 then Triple(0, 0, 0)
    else if ib == 1 then Triple(0, 1, 1)
    else if ib == 2 then Triple(1, 0, 1)
    else Triple(1, 1, 0)
  }

  function HalfOf(c: Triple, ib: int): Triple {
    Triple(2 * c.x + Halves(ib).x, 2 * c.y + Halves(ib).y, 2 * c.z + Halves(ib).z)
  }

  function Point(lat: real, h: Triple): Vec {
    Vec(Middle(lat, h.x), Middle(lat, h.y), Middle(lat, h.z))
  }

  lemma BasisHalves(ib: int)
    ensures var e, b := Halves(ib), Basis(ib);
            && (e.x == 0 || e.x == 1) && b.x == 0.25 + 0.5 * e.x as real
            && (e.y == 0 || e.y == 1) && b.y == 0.25 + 0.5 * e.y as real
            && (e.z == 0 || e.z == 1) && b.z == 0.25 + 0.5 * e.z as real
  {
  }

  lemma PositionIs(lat: real, c: Triple, ib: int)
    ensures Position(lat, c, ib) == Point(lat, HalfOf(c, ib))
  {
    hide Middle, Halves, Basis;
    BasisHalves(ib);
    MiddleIs(lat, c.x, Halves(ib).x, Basis(ib).x);
    MiddleIs(lat, c.y, Halves(ib).y, Basis(ib).y);
    MiddleIs(lat, c.z, Halves(ib).z, Basis(ib).z);
  }

  lemma SamePoint(lat: real, g: Triple, h: Triple)
    requires lat > 0.0 && Point(lat, g) == Point(lat, h)
    ensures g == h
  {
    SameMiddle(lat, g.x, h.x);
    SameMiddle(lat, g.y, h.y);
    SameMiddle(lat, g.z, h.z);
  }

  /** Cell and basis atom are read off the halves; the sum of the halves of a site is even. */
  lemma HalvesRead(c: Triple, ib: int)
    requires 0 <= ib < 4
    ensures var h := HalfOf(c, ib);
            && (h.x + h.y + h.z) % 2 == 0
            && c == Triple(h.x / 2, h.y / 2, h.z / 2) && ib == BasisAt(h)
  {
  }

  /** The basis atom in these halves of a cell. */
  function BasisAt(h: Triple): int {
    if h.x % 2 == 0 then if h.y % 2 == 0 then 0 else 1 else if h.y % 2 == 0 then 2 else 3
  }

  lemma HalvesOf(h: Triple)
    requires (h.x + h.y + h.z) % 2 == 0
    ensures HalfOf(Triple(h.x / 2, h.y / 2, h.z / 2), BasisAt(h)) == h
  {
  }

  // ---- Face-centred cubic ----------------------------------------------

  lemma SiteIs(n: Triple, lat: real, id: int)
    requires n.Positive() && 0 <= id < SiteCount(n)
    ensures CellOf(n, id).Inside(n) && Id(n, CellOf(n, id), id % 4) == id
    ensures SiteAtom(n, lat, id).r == Point(lat, HalfOf(CellOf(n, id), id % 4))
  {
    hide Position, Id;
    DigitsId(n, id);
    PositionIs(lat, CellOf(n, id), id % NB);
  }

  lemma SiteAt(n: Triple, lat: real, c: Triple, ib: int)
    requires n.Positive() && c.Inside(n) && 0 <= ib < 4
    ensures 0 <= Id(n, c, ib) < SiteCount(n)
    ensures SiteAtom(n, lat, Id(n, c, ib)).r == Point(lat, HalfOf(c, ib))
  {
    hide Position, Id;
    IdDigits(n, c, ib);
    PositionIs(lat, c, ib);
  }

  lemma CountIs(n: Triple)
    ensures SiteCount(n) == 4 * n.x * n.y * n.z
  {
    CountRegroups(n);
  }

  /** The sites are the points of a face-centred cubic lattice: with the cells cut in half on each axis, the middle of
      a part is a site if and only if the numbers of its halves have an even sum. */
  lemma SitesAreCentred(n: Triple, lat: real, a: int, b: int, c: int)
    requires n.Positive() && lat > 0.0 && 0 <= a < 2 * n.x && 0 <= b < 2 * n.y && 0 <= c < 2 * n.z
    ensures (exists id :: 0 <= id < 4 * n.x * n.y * n.z
               && SiteAtom(n, lat, id).r == Vec(lat / 4.0 * (2 * a + 1) as real, lat / 4.0 * (2 * b + 1) as real,
                                                lat / 4.0 * (2 * c + 1) as real))
            <==> (a + b + c) % 2 == 0
  {
    hide SiteAtom, SiteCount, Id, CellOf, HalfOf;
    var h := Triple(a, b, c);
    CountIs(n);
    if (a + b + c) % 2 == 0 {
      HalvesOf(h);
      SiteAt(n, lat, Triple(a / 2, b / 2, c / 2), BasisAt(h));
    }
    forall id | 0 <= id < SiteCount(n) && SiteAtom(n, lat, id).r == Point(lat, h) ensures (a + b + c) % 2 == 0 {
      SiteIs(n, lat, id);
      SamePoint(lat, HalfOf(CellOf(n, id), id % 4), h);
      HalvesRead(CellOf(n, id), id % 4);
    }
  }

  /** No two sites are at the same place. */
  lemma SitesDiffer(n: Triple, lat: real, id: int, other: int)
    requires n.Positive() && lat > 0.0
    requires 0 <= id < 4 * n.x * n.y * n.z && 0 <= other < 4 * n.x * n.y * n.z && id != other
    ensures SiteAtom(n, lat, id).r != SiteAtom(n, lat, other).r
  {
    hide SiteAtom, SiteCount, Id, CellOf, HalfOf;
    CountIs(n);
    SiteIs(n, lat, id);
    SiteIs(n, lat, other);
    if SiteAtom(n, lat, id).r == SiteAtom(n, lat, other).r {
      SamePoint(lat, HalfOf(CellOf(n, id), id % 4), HalfOf(CellOf(n, other), other % 4));
      HalvesRead(CellOf(n, id), id % 4);
      HalvesRead(CellOf(n, other), other % 4);
    }
  }

  // ---- In order of id --------------------------------------------------

  lemma Quarter(lat: real, i: int)
    ensures Middle(lat, 2 * i) == (i as real + 0.25) * lat
    ensures Middle(lat, 2 * i + 1) == Middle(lat, 2 * i) + lat / 2.0
  {
    MiddleIs(lat, i, 0, 0.25);
    MiddleIs(lat, i, 1, 0.75);
  }

  lemma PlaceInCell(lat: real, c: Triple, ib: int)
    ensures var r := Point(lat, HalfOf(c, ib));
            && r.x == (c.x as real + 0.25) * lat + (if ib == 0 || ib == 1 then 0.0 else lat / 2.0)
            && r.y == (c.y as real + 0.25) * lat + (if ib == 0 || ib == 2 then 0.0 else lat / 2.0)
            && r.z == (c.z as real + 0.25) * lat + (if ib == 1 || ib == 2 then lat / 2.0 else 0.0)
  {
    hide Middle;
    Quarter(lat, c.x);
    Quarter(lat, c.y);
    Quarter(lat, c.z);
  }

  lemma CellIs(n: Triple, id: int)
    requires n.Positive() && CellOf(n, id).Inside(n)
    ensures CellOf(n, id) == Triple(id / 4 / n.z / n.y, id / 4 / n.z % n.y, id / 4 % n.z)
    ensures 0 <= id / 4 / n.z / n.y < n.x
  {
  }

  /** The ids go through the cells with z fastest. The first atom of a cell is at a quarter of it on each axis; the
      others are half a cell further on two axes, and level with it on the first, the second and the third in turn. */
  lemma SitesInOrder(n: Triple, lat: real, id: int)
    requires n.Positive() && 0 <= id < 4 * n.x * n.y * n.z
    ensures var cell, ib, r := id / 4, id % 4, SiteAtom(n, lat, id).r;
            && 0 <= cell / n.z / n.y < n.x
            && r.x == ((cell / n.z / n.y) as real + 0.25) * lat + (if ib == 0 || ib == 1 then 0.0 else lat / 2.0)
            && r.y == ((cell / n.z % n.y) as real + 0.25) * lat + (if ib == 0 || ib == 2 then 0.0 else lat / 2.0)
            && r.z == ((cell % n.z) as real + 0.25) * lat + (if ib == 1 || ib == 2 then lat / 2.0 else 0.0)
  {
    hide *;
    CountIs(n);
    SiteIs(n, lat, id);
    CellIs(n, id);
    PlaceInCell(lat, CellOf(n, id), id % 4);
  }

  /** What the loops of one rank place: exactly the sites in its half-open brick, each at its own place. */
  lemma PlacedSites(n: Triple, lat: real, lo: Vec, hi: Vec, a: Atom)
    requires n.Positive()
    ensures SiteCount(n) == 4 * n.x * n.y * n.z
    ensures a in Owned(n, lat, lo, hi, SiteCount(n))
            <==> && 0 <= a.id < 4 * n.x * n.y * n.z && a.r == SiteAtom(n, lat, a.id).r
                 && lo.x <= a.r.x < hi.x && lo.y <= a.r.y < hi.y && lo.z <= a.r.z < hi.z
  {
    hide Position, CellOf, Owned;
    CountIs(n);
    IdDigits(n, Triple(0, 0, 0), 0);
    if a in Owned(n, lat, lo, hi, SiteCount(n)) {
      OwnedOnly(n, lat, lo, hi, SiteCount(n), a);
    } else if 0 <= a.id < SiteCount(n) && a == SiteAtom(n, lat, a.id) && InBrick(lo, hi, a.r) {
      OwnedHas(n, lat, lo, hi, SiteCount(n), a.id);
    }
  }
}
