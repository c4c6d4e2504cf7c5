/**
 * The neighbourhood enumerator: every integer cell of the cube of a given
 * radius around a position, x outermost, then y, then z.
 */
module Neighbourhood {

  import opened Geometry

  /** Cells per axis: 2r + 1, or none for a negative radius. */
  function Side(r: int): nat
  {
    if r >= 0 then 2 * r + 1 else 0
  }

  /** The cells (x, y, z), ..., (x, y, z + nz - 1). */
  function ZRun(x: int, y: int, z: int, nz: nat): seq<Cell>
  {
    seq(nz, k => Cell(x, y, z + k))
  }

  /** The runs of ss one after the other. */
  function Concat(ss: seq<seq<Cell>>): seq<Cell>
  {
    if |ss| == 0 then [] else Concat(ss[..|ss| - 1]) + ss[|ss| - 1]
  }

  /** The z-runs for y, ..., y + ny - 1, one after the other. */
  function Slab(x: int, y: int, z: int, ny: nat, nz: nat): seq<Cell>
  {
    Concat(seq(ny, j => ZRun(x, y + j, z, nz)))
  }

  /** The slabs for x, ..., x + nx - 1, one after the other. */
  function Cube(x: int, y: int, z: int, nx: nat, ny: nat, nz: nat): seq<Cell>
  {
    Concat(seq(nx, i => Slab(x + i, y, z, ny, nz)))
  }

  /** The cells the enumerator yields around c for radius r. */
  function NearbyCells(c: Vec3, r: int): seq<Cell>
  {
    var n := Side(r);
    Cube(c.x.Floor - r, c.y.Floor - r, c.z.Floor - r, n, n, n)
  }

  /** Lexicographic order on cells: x first, then y, then z. */
  predicate LexLess(a: Cell, b: Cell)
  {
    a.x < b.x || (a.x == b.x && (a.y < b.y || (a.y == b.y && a.z < b.z)))
  }

  predicate StrictlyIncreasing(s: seq<Cell>)
  {
    forall i, j :: 0 <= i < j < |s| ==> LexLess(s[i], s[j])
  }

  /** The cell lies in the box of nx by ny by nz cells whose least cell is (x, y, z). */
  predicate InRange(cell: Cell, x: int, y: int, z: int, nx: int, ny: int, nz: int)
  {
    x <= cell.x < x + nx && y <= cell.y < y + ny && z <= cell.z < z + nz
  }

  /** The cell lies within r of the floored position on every axis. */
  predicate InNeighbourhood(cell: Cell, c: Vec3, r: int)
  {
    && c.x.Floor - r <= cell.x <= c.x.Floor + r
    && c.y.Floor - r <= cell.y <= c.y.Floor + r
    && c.z.Floor - r <= cell.z <= c.z.Floor + r
  }

  lemma AppendIncreasing(a: seq<Cell>, b: seq<Cell>)
    requires StrictlyIncreasing(a) && StrictlyIncreasing(b)
    requires forall u, v :: u in a && v in b ==> LexLess(u, v)
    ensures StrictlyIncreasing(a + b)
  {
    forall i, j | 0 <= i < j < |a + b|
      ensures LexLess((a + b)[i], (a + b)[j])
    {
      if j < |a| {
        assert (a + b)[i] == a[i] && (a + b)[j] == a[j];
      } else if i >= |a| {
        assert (a + b)[i] == b[i - |a|] && (a + b)[j] == b[j - |a|];
      } else {
        assert (a + b)[i] in a && (a + b)[j] in b;
      }
    }
  }

  /** A cell is in the concatenation exactly when it is in one of the runs. */
  lemma {:induction false} ConcatMember(ss: seq<seq<Cell>>, cell: Cell)
    ensures cell in Concat(ss) <==> exists i :: 0 <= i < |ss| && cell in ss[i]
  {
    if |ss| > 0 {
      var n := |ss| - 1;
      ConcatMember(ss[..n], cell);
      assert forall i :: 0 <= i < n ==> ss[..n][i] == ss[i];
    }
  }

  lemma {:induction false} ConcatLength(ss: seq<seq<Cell>>, m: nat)
    requires forall i :: 0 <= i < |ss| ==> |ss[i]| == m
    ensures |Concat(ss)| == |ss| * m
  {
    if |ss| > 0 {
      var n := |ss| - 1;
      assert forall i :: 0 <= i < n ==> ss[..n][i] == ss[i];
      ConcatLength(ss[..n], m);
      assert n * m + m == |ss| * m;
    }
  }

  /** Increasing runs, each wholly before the later ones, concatenate to an increasing sequence. */
  lemma {:induction false} ConcatIncreasing(ss: seq<seq<Cell>>)
    requires forall i :: 0 <= i < |ss| ==> StrictlyIncreasing(ss[i])
    requires forall i, j, u, v :: 0 <= i < j < |ss| && u in ss[i] && v in ss[j] ==> LexLess(u, v)
    ensures StrictlyIncreasing(Concat(ss))
  {
    if |ss| > 0 {
      var n := |ss| - 1;
      var front := ss[..n];
      assert forall i :: 0 <= i < n ==> front[i] == ss[i];
      ConcatIncreasing(front);
      forall u, v | u in Concat(front) && v in ss[n]
        ensures LexLess(u, v)
      {
        ConcatMember(front, u);
      }
      AppendIncreasing(Concat(front), ss[n]);
    }
  }

  /** Extending a generated list of runs by one appends the next run. */
  lemma ConcatSnoc(ss: seq<seq<Cell>>, t: seq<Cell>)
    ensures Concat(ss + [t]) == Concat(ss) + t
  {
    assert (ss + [t])[..|ss|] == ss;
  }

  /** One more step of the innermost loop appends the next cell of the run. */
  lemma ZRunSnoc(x: int, y: int, z: int, k: nat)
    ensures ZRun(x, y, z, k + 1) == ZRun(x, y, z, k) + [Cell(x, y, z + k)]
  {
    var longer, extended := ZRun(x, y, z, k + 1), ZRun(x, y, z, k) + [Cell(x, y, z + k)];
    assert forall i :: 0 <= i < |longer| ==> longer[i] == extended[i];
  }

  lemma ZRunMember(x: int, y: int, z: int, nz: nat, cell: Cell)
    ensures cell in ZRun(x, y, z, nz) <==> InRange(cell, x, y, z, 1, 1, nz)
  {
    if InRange(cell, x, y, z, 1, 1, nz) {
      assert ZRun(x, y, z, nz)[cell.z - z] == cell;
    }
  }

  lemma ZRunIncreasing(x: int, y: int, z: int, nz: nat)
    ensures StrictlyIncreasing(ZRun(x, y, z, nz))
  {
  }

  /** One more step of the middle loop appends the next z-run. */
  lemma SlabSnoc(x: int, y: int, z: int, j: nat, nz: nat)
    ensures Slab(x, y, z, j + 1, nz) == Slab(x, y, z, j, nz) + ZRun(x, y + j, z, nz)
  {
    var longer := seq(j + 1, j' => ZRun(x, y + j', z, nz));
    var shorter := seq(j, j' => ZRun(x, y + j', z, nz));
    assert longer == shorter + [ZRun(x, y + j, z, nz)];
    ConcatSnoc(shorter, ZRun(x, y + j, z, nz));
  }

  lemma SlabLength(x: int, y: int, z: int, ny: nat, nz: nat)
    ensures |Slab(x, y, z, ny, nz)| == ny * nz
  {
    var ss := seq(ny, j => ZRun(x, y + j, z, nz));
    forall j | 0 <= j < ny
      ensures |ss[j]| == nz
    {
      assert ss[j] == ZRun(x, y + j, z, nz);
    }
    ConcatLength(ss, nz);
  }

  lemma SlabMember(x: int, y: int, z: int, ny: nat, nz: nat, cell: Cell)
    ensures cell in Slab(x, y, z, ny, nz) <==> InRange(cell, x, y, z, 1, ny, nz)
  {
    var ss := seq(ny, j => ZRun(x, y + j, z, nz));
    ConcatMember(ss, cell);
    if cell in Slab(x, y, z, ny, nz) {
      var j :| 0 <= j < ny && cell in ss[j];
      ZRunMember(x, y + j, z, nz, cell);
    }
    if InRange(cell, x, y, z, 1, ny, nz) {
      ZRunMember(x, cell.y, z, nz, cell);
      assert cell in ss[cell.y - y];
    }
  }

  lemma SlabIncreasing(x: int, y: int, z: int, ny: nat, nz: nat)
    ensures StrictlyIncreasing(Slab(x, y, z, ny, nz))
  {
    var ss := seq(ny, j => ZRun(x, y + j, z, nz));
    forall j | 0 <= j < ny
      ensures StrictlyIncreasing(ss[j])
    {
      ZRunIncreasing(x, y + j, z, nz);
    }
    forall i, j, u, v | 0 <= i < j < |ss| && u in ss[i] && v in ss[j]
      ensures LexLess(u, v)
    {
      ZRunMember(x, y + i, z, nz, u);
      ZRunMember(x, y + j, z, nz, v);
    }
    ConcatIncreasing(ss);
  }

  /** One more step of the outer loop appends the next slab. */
  lemma CubeSnoc(x: int, y: int, z: int, i: nat, ny: nat, nz: nat)
    ensures Cube(x, y, z, i + 1, ny, nz) == Cube(x, y, z, i, ny, nz) + Slab(x + i, y, z, ny, nz)
  {
    var longer := seq(i + 1, i' => Slab(x + i', y, z, ny, nz));
    var shorter := seq(i, i' => Slab(x + i', y, z, ny, nz));
    assert longer == shorter + [Slab(x + i, y, z, ny, nz)];
    ConcatSnoc(shorter, Slab(x + i, y, z, ny, nz));
  }

  lemma CubeLength(x: int, y: int, z: int, nx: nat, ny: nat, nz: nat)
    ensures |Cube(x, y, z, nx, ny, nz)| == nx * (ny * nz)
  {
    var ss := seq(nx, i => Slab(x + i, y, z, ny, nz));
    forall i | 0 <= i < nx
      ensures |ss[i]| == ny * nz
    {
      SlabLength(x + i, y, z, ny, nz);
    }
    ConcatLength(ss, ny * nz);
  }

  lemma CubeMember(x: int, y: int, z: int, nx: nat, ny: nat, nz: nat, cell: Cell)
    ensures cell in Cube(x, y, z, nx, ny, nz) <==> InRange(cell, x, y, z, nx, ny, nz)
  {
    var ss := seq(nx, i => Slab(x + i, y, z, ny, nz));
    ConcatMember(ss, cell);
    if cell in Cube(x, y, z, nx, ny, nz) {
      var i :| 0 <= i < nx && cell in ss[i];
      SlabMember(x + i, y, z, ny, nz, cell);
    }
    if InRange(cell, x, y, z, nx, ny, nz) {
      SlabMember(cell.x, y, z, ny, nz, cell);
      assert cell in ss[cell.x - x];
    }
  }

  lemma CubeIncreasing(x: int, y: int, z: int, nx: nat, ny: nat, nz: nat)
    ensures StrictlyIncreasing(Cube(x, y, z, nx, ny, nz))
  {
    var ss := seq(nx, i => Slab(x + i, y, z, ny, nz));
    forall i | 0 <= i < nx
      ensures StrictlyIncreasing(ss[i])
    {
      SlabIncreasing(x + i, y, z, ny, nz);
    }
    forall i, j, u, v | 0 <= i < j < |ss| && u in ss[i] && v in ss[j]
      ensures LexLess(u, v)
    {
      SlabMember(x + i, y, z, ny, nz, u);
      SlabMember(x + j, y, z, ny, nz, v);
    }
    ConcatIncreasing(ss);
  }

  /** The enumeration holds (2r + 1)^3 cells. */
  lemma NearbyCellsCount(c: Vec3, r: int)
    ensures |NearbyCells(c, r)| == Side(r) * (Side(r) * Side(r))
  {
    var n := Side(r);
    CubeLength(c.x.Floor - r, c.y.Floor - r, c.z.Floor - r, n, n, n);
  }

  /** The enumeration yields exactly the cells within r of the floored position on each axis. */
  lemma NearbyCellsMembers(c: Vec3, r: int)
    ensures forall cell :: cell in NearbyCells(c, r) <==> InNeighbourhood(cell, c, r)
  {
    var n := Side(r);
    forall cell
      ensures cell in NearbyCells(c, r) <==> InNeighbourhood(cell, c, r)
    {
      CubeMember(c.x.Floor - r, c.y.Floor - r, c.z.Floor - r, n, n, n, cell);
    }
  }

  /** The enumeration is in x-then-y-then-z order, so no cell appears twice. */
  lemma NearbyCellsOrdered(c: Vec3, r: int)
    ensures StrictlyIncreasing(NearbyCells(c, r))
    ensures forall i, j :: 0 <= i < j < |NearbyCells(c, r)| ==> NearbyCells(c, r)[i] != NearbyCells(c, r)[j]
  {
    var n := Side(r);
    CubeIncreasing(c.x.Floor - r, c.y.Floor - r, c.z.Floor - r, n, n, n);
  }

  /** At the scan's radius of 2 there are 125 candidate cells. */
  lemma RadiusTwoHas125Cells(c: Vec3)
    ensures |NearbyCells(c, 2)| == 125
  {
    NearbyCellsCount(c, 2);
  }

  /** Adding a whole number to a real shifts its floor by that number. */
  lemma FloorShift(a: real, k: int)
    ensures (a + k as real).Floor == a.Floor + k
  {
  }

  /**
   * The model of getNearbyBlockLocations: three nested loops step real
   * coordinates from c - r while they are at most c + r and push the floor
   * of each step.
   */
  method NearbyBlockLocations(c: Vec3, r: int) returns (locations: seq<Cell>)
    ensures locations == NearbyCells(c, r)
  {
    var n := Side(r);
    var x0, y0, z0 := c.x.Floor - r, c.y.Floor - r, c.z.Floor - r;
    locations := [];
    var x := c.x - r as real;
    ghost var i := 0;
    while x <= c.x + r as real
      invariant 0 <= i <= n && x == c.x - r as real + i as real
      invariant locations == Cube(x0, y0, z0, i, n, n)
      decreases n - i
    {
      var y := c.y - r as real;
      ghost var j := 0;
      while y <= c.y + r as real
        invariant 0 <= j <= n && y == c.y - r as real + j as real
        invariant locations == Cube(x0, y0, z0, i, n, n) + Slab(x0 + i, y0, z0, j, n)
        decreases n - j
      {
        var z := c.z - r as real;
        ghost var k := 0;
        while z <= c.z + r as real
          invariant 0 <= k <= n && z == c.z - r as real + k as real
          invariant locations == Cube(x0, y0, z0, i, n, n) + Slab(x0 + i, y0, z0, j, n) + ZRun(x0 + i, y0 + j, z0, k)
          decreases n - k
        {
          FloorShift(c.x, i - r);
          FloorShift(c.y, j - r);
          FloorShift(c.z, k - r);
          ZRunSnoc(x0 + i, y0 + j, z0, k);
          locations := locations + [Cell(x.Floor, y.Floor, z.Floor)];
          z := z + 1.0;
          k := k + 1;
        }
        SlabSnoc(x0 + i, y0, z0, j, n);
        y := y + 1.0;
        j := j + 1;
      }
      CubeSnoc(x0, y0, z0, i, n, n);
      x := x + 1.0;
      i := i + 1;
    }
  }
}
