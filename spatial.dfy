/** Integer geometry over a structure's block grid: footprints, the door scan and the
    filling of boxes with cells (src/agent/npc/controller.js). */
module Spatial {
  import opened Data

  /** A structure's block grid, indexed [y][z][x]; a cell holds a block label or null. */
  type Grid = seq<seq<seq<Option<string>>>>

  /** A structure definition: its grid, the vertical offset of layer 0, and whether it is a home. */
  datatype Construction = Construction(blocks: Grid, offset: int, is_home: bool)

  /** `rotateXZ(x, z, orientation, sizex, sizez)`: a collaborator whose formula is not part of this model. */
  type Rotation = (int, int, int, int, int) -> (int, int)

  /** The sizes are read from `blocks[0][0]` and `blocks[0]`, which must exist. */
  predicate WellFormed(c: Construction) {
    |c.blocks| > 0 && |c.blocks[0]| > 0
  }

  function SizeX(c: Construction): nat
    requires WellFormed(c)
  {
    |c.blocks[0][0]|
  }

  function SizeZ(c: Construction): nat
    requires WellFormed(c)
  {
    |c.blocks[0]|
  }

  function SizeY(c: Construction): nat {
    |c.blocks|
  }

  /** JavaScript's `%`, which truncates toward zero (only for a positive divisor). */
  function JsRem(a: int, b: int): (r: int)
    requires b > 0
    ensures -b < r < b
    ensures a >= 0 ==> r == a % b
  {
    if a >= 0 then a % b else -((-a) % b)
  }

  /** `orientation % 2 === 1`: the x and z extents are exchanged. A negative odd
      orientation leaves a remainder of -1 and does not exchange them. */
  predicate SwapsExtents(orientation: int) {
    JsRem(orientation, 2) == 1
  }

  /** The exchange happens exactly for a non-negative odd orientation. */
  lemma SwapsExactlyForNonNegativeOdd(orientation: int)
    ensures SwapsExtents(orientation) <==> orientation >= 0 && orientation % 2 == 1
  {
  }

  /** The half-open box [corner.x, corner.x+sx) × [corner.y+ylo, corner.y+ylo+sy) × [corner.z, corner.z+sz). */
  predicate InBox(p: Pos, corner: Pos, ylo: int, sx: int, sy: int, sz: int) {
    && corner.x <= p.x < corner.x + sx
    && corner.y + ylo <= p.y < corner.y + ylo + sy
    && corner.z <= p.z < corner.z + sz
  }

  /** The world-space footprint of a placed structure: its grid box lifted by the offset,
      with the x and z extents exchanged for an odd orientation. */
  predicate InFootprint(p: Pos, inst: Instance, c: Construction)
    requires WellFormed(c)
  {
    if SwapsExtents(inst.orientation) then InBox(p, inst.position, c.offset, SizeZ(c), SizeY(c), SizeX(c))
    else InBox(p, inst.position, c.offset, SizeX(c), SizeY(c), SizeZ(c))
  }

  /** The grid box lifted by the offset, ignoring the orientation. */
  predicate InGridBox(p: Pos, inst: Instance, c: Construction)
    requires WellFormed(c)
  {
    InBox(p, inst.position, c.offset, SizeX(c), SizeY(c), SizeZ(c))
  }

  /** `s.includes(t)`, searched from the front. */
  function Includes(s: string, t: string): bool
    decreases |s|
  {
    t <= s || (s != [] && Includes(s[1..], t))
  }

  /** `t` occurs in `s` starting at index `i`. */
  ghost predicate OccursAt(s: string, t: string, i: int) {
    0 <= i && i + |t| <= |s| && s[i..i + |t|] == t
  }

  /** The front-to-back search finds `t` exactly when it occurs somewhere in `s`. */
  lemma {:induction false} IncludesIffOccurs(s: string, t: string)
    ensures Includes(s, t) <==> exists i :: OccursAt(s, t, i)
    decreases |s|
  {
    if t <= s {
      assert OccursAt(s, t, 0);
    } else if s == [] {
      assert forall i :: !OccursAt(s, t, i);
    } else {
      IncludesIffOccurs(s[1..], t);
      forall i | OccursAt(s[1..], t, i) ensures OccursAt(s, t, i + 1) {
        assert s[i + 1..i + 1 + |t|] == s[1..][i..i + |t|];
      }
      forall i | OccursAt(s, t, i) ensures OccursAt(s[1..], t, i - 1) {
        assert s[i..i + |t|] == s[1..][i - 1..i - 1 + |t|];
      }
    }
  }

  /** A grid coordinate. */
  datatype Cell = Cell(y: nat, z: nat, x: nat)

  predicate InGrid(g: Grid, c: Cell) {
    c.y < |g| && c.z < |g[c.y]| && c.x < |g[c.y][c.z]|
  }

  /** A cell whose label is present and contains "door". */
  predicate IsDoor(block: Option<string>) {
    block.Some? && Includes(block.value, "door")
  }

  predicate DoorAt(g: Grid, c: Cell) {
    InGrid(g, c) && IsDoor(g[c.y][c.z][c.x])
  }

  /** Scan order: y first, then z, then x. */
  predicate Earlier(a: Cell, b: Cell) {
    a.y < b.y || (a.y == b.y && (a.z < b.z || (a.z == b.z && a.x < b.x)))
  }

  ghost predicate NoDoorBefore(g: Grid, bound: Cell) {
    forall c :: DoorAt(g, c) ==> !Earlier(c, bound)
  }

  ghost predicate NoDoor(g: Grid) {
    forall c :: !DoorAt(g, c)
  }

  /** `c` is the first door cell in scan order. */
  ghost predicate FirstDoorAt(g: Grid, c: Cell) {
    DoorAt(g, c) && NoDoorBefore(g, c)
  }

  /** There is at most one first door. */
  lemma FirstDoorUnique(g: Grid, a: Cell, b: Cell)
    requires FirstDoorAt(g, a) && FirstDoorAt(g, b)
    ensures a == b
  {
  }

  /** The door scan of `getBuildingDoor`: each row is scanned over its own length, and the
      first cell in y, z, x order whose label contains "door" is returned. */
  method FindDoor(g: Grid) returns (r: Option<Cell>)
    ensures r.None? ==> NoDoor(g)
    ensures r.Some? ==> FirstDoorAt(g, r.value)
  {
    var y := 0;
    while y < |g|
      invariant 0 <= y <= |g|
      invariant NoDoorBefore(g, Cell(y, 0, 0))
    {
      var z := 0;
      while z < |g[y]|
        invariant 0 <= z <= |g[y]|
        invariant NoDoorBefore(g, Cell(y, z, 0))
      {
        var x := 0;
        while x < |g[y][z]|
          invariant 0 <= x <= |g[y][z]|
          invariant NoDoorBefore(g, Cell(y, z, x))
        {
          var block := g[y][z][x];
          if block.Some? && Includes(block.value, "door") {
            return Some(Cell(y, z, x));
          }
          x := x + 1;
        }
        z := z + 1;
      }
      y := y + 1;
    }
    return None;
  }

  /** Where the door ends up in the world: its layer lifted by the offset, its x and z
      offsets given by the rotation, all relative to the instance's position. */
  predicate DoorPlaced(p: Pos, inst: Instance, c: Construction, cell: Cell, rotate: Rotation)
    requires WellFormed(c)
  {
    && p.y == inst.position.y + cell.y + c.offset
    && rotate(cell.x, cell.z, inst.orientation, SizeX(c), SizeZ(c)) == (p.x - inst.position.x, p.z - inst.position.z)
  }

  /** Concatenation regroups freely. */
  lemma AppendAssoc<T>(a: seq<T>, b: seq<T>, c: seq<T>)
    ensures (a + b) + c == a + (b + c)
  {
  }

  /** Cells 0 .. x-1 of row `z` of layer `y` of a box, in order. */
  function Row(corner: Pos, y: int, z: int, x: nat): (r: seq<Pos>)
    ensures |r| == x
  {
    if x == 0 then [] else Row(corner, y, z, x - 1) + [Pos(corner.x + x - 1, corner.y + y, corner.z + z)]
  }

  /** Rows 0 .. z-1 of layer `y` of a box, each of sx cells, in order. */
  function Layer(corner: Pos, y: int, z: nat, sx: nat): (r: seq<Pos>)
    ensures |r| == z * sx
  {
    if z == 0 then [] else Layer(corner, y, z - 1, sx) + Row(corner, y, z - 1, sx)
  }

  /** The first n layers, from layer ylo up, of a box of sz rows of sx cells, in y, z, x order. */
  function Box(corner: Pos, ylo: int, n: nat, sx: nat, sz: nat): (r: seq<Pos>)
    ensures |r| == n * (sz * sx)
  {
    if n == 0 then [] else Box(corner, ylo, n - 1, sx, sz) + Layer(corner, ylo + n - 1, sz, sx)
  }

  /** A row holds exactly the cells of its x range. */
  lemma {:induction false} RowMembers(corner: Pos, y: int, z: int, x: nat)
    ensures forall p :: p in Row(corner, y, z, x) <==>
      p.y == corner.y + y && p.z == corner.z + z && corner.x <= p.x < corner.x + x
  {
    if x > 0 {
      RowMembers(corner, y, z, x - 1);
    }
  }

  /** A layer holds exactly the cells of its z and x ranges. */
  lemma {:induction false} LayerMembers(corner: Pos, y: int, z: nat, sx: nat)
    ensures forall p :: p in Layer(corner, y, z, sx) <==>
      p.y == corner.y + y && corner.z <= p.z < corner.z + z && corner.x <= p.x < corner.x + sx
  {
    if z > 0 {
      LayerMembers(corner, y, z - 1, sx);
      RowMembers(corner, y, z - 1, sx);
      var l := Layer(corner, y, z, sx);
      assert l == Layer(corner, y, z - 1, sx) + Row(corner, y, z - 1, sx);
      forall p
        ensures p in l <==> p.y == corner.y + y && corner.z <= p.z < corner.z + z && corner.x <= p.x < corner.x + sx
      {
        assert p in l <==> p in Layer(corner, y, z - 1, sx) || p in Row(corner, y, z - 1, sx);
      }
    }
  }

  /** The box holds exactly the cells of its three ranges: each cell of the box lifted by the
      offset appears, and no other. */
  lemma {:induction false} BoxMembers(corner: Pos, ylo: int, n: nat, sx: nat, sz: nat)
    ensures forall p :: p in Box(corner, ylo, n, sx, sz) <==> InBox(p, corner, ylo, sx, n, sz)
  {
    if n > 0 {
      BoxMembers(corner, ylo, n - 1, sx, sz);
      LayerMembers(corner, ylo + n - 1, sz, sx);
      var b := Box(corner, ylo, n, sx, sz);
      assert b == Box(corner, ylo, n - 1, sx, sz) + Layer(corner, ylo + n - 1, sz, sx);
      forall p ensures p in b <==> InBox(p, corner, ylo, sx, n, sz) {
        assert p in b <==> p in Box(corner, ylo, n - 1, sx, sz) || p in Layer(corner, ylo + n - 1, sz, sx);
      }
    }
  }

  /** The triple loop of `getBuiltPositions` for one structure: appends the cells of the box,
      one per cell, in y, z, x order. */
  method AppendBox(acc: seq<Pos>, corner: Pos, ylo: int, sx: nat, sy: nat, sz: nat) returns (r: seq<Pos>)
    ensures r == acc + Box(corner, ylo, sy, sx, sz)
    ensures |r| == |acc| + sy * (sz * sx)
    ensures forall p :: p in r <==> p in acc || InBox(p, corner, ylo, sx, sy, sz)
  {
    r := acc;
    var y := ylo;
    while y < sy + ylo
      invariant ylo <= y <= sy + ylo
      invariant r == acc + Box(corner, ylo, y - ylo, sx, sz)
    {
      ghost var base := r;
      var z := 0;
      while z < sz
        invariant 0 <= z <= sz
        invariant r == base + Layer(corner, y, z, sx)
      {
        ghost var before := r;
        var x := 0;
        while x < sx
          invariant 0 <= x <= sx
          invariant r == before + Row(corner, y, z, x)
        {
          AppendAssoc(before, Row(corner, y, z, x), [Pos(corner.x + x, corner.y + y, corner.z + z)]);
          r := r + [Pos(corner.x + x, corner.y + y, corner.z + z)];
          x := x + 1;
        }
        AppendAssoc(base, Layer(corner, y, z, sx), Row(corner, y, z, sx));
        z := z + 1;
      }
      AppendAssoc(acc, Box(corner, ylo, y - ylo, sx, sz), Layer(corner, y, sz, sx));
      assert Box(corner, ylo, y + 1 - ylo, sx, sz) == Box(corner, ylo, y - ylo, sx, sz) + Layer(corner, y, sz, sx);
      y := y + 1;
    }
    BoxMembers(corner, ylo, sy, sx, sz);
  }

  /** A structure two cells wide and one deep, placed with orientation 1: the cell at x + 1 is
      in its grid box but not in its footprint. */
  lemma GridBoxIgnoresOrientation()
    ensures var c := Construction([[[None, None]]], 0, false);
            var inst := Instance("hut", Pos(0, 0, 0), 1, false);
            WellFormed(c) && InGridBox(Pos(1, 0, 0), inst, c) && !InFootprint(Pos(1, 0, 0), inst, c)
  {
  }

  /** Containment is exact on every face: the cells just past the six faces of a footprint
      lie outside it. */
  lemma FootprintFaces(p: Pos, inst: Instance, c: Construction)
    requires WellFormed(c) && InFootprint(p, inst, c)
    ensures var q := inst.position;
      && !InFootprint(Pos(q.x - 1, p.y, p.z), inst, c)
      && !InFootprint(Pos(p.x, q.y + c.offset - 1, p.z), inst, c)
      && !InFootprint(Pos(p.x, p.y, q.z - 1), inst, c)
      && !InFootprint(Pos(q.x + (if SwapsExtents(inst.orientation) then SizeZ(c) else SizeX(c)), p.y, p.z), inst, c)
      && !InFootprint(Pos(p.x, q.y + c.offset + SizeY(c), p.z), inst, c)
      && !InFootprint(Pos(p.x, p.y, q.z + (if SwapsExtents(inst.orientation) then SizeX(c) else SizeZ(c))), inst, c)
  {
  }
}
