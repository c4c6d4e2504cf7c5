/**
 * The shape classifier: a block's type identifier selects an offset
 * profile, which is placed around the block's centre to give the block's
 * collision box.
 */
module Shapes {

  import opened Geometry
  import opened Strings

  /** The profiles the classifier chooses between. */
  datatype Shape = Fence | PaneOrBars | Wall | Stairs | FullBlock

  /** First match wins: "fence", then "pane" or "bars", then "wall", then "stairs". */
  function Classify(typeId: string): (s: Shape)
    ensures s == Fence <==> Contains(typeId, "fence")
    ensures s == PaneOrBars <==>
      !Contains(typeId, "fence") && (Contains(typeId, "pane") || Contains(typeId, "bars"))
    ensures s == Wall <==>
      !Contains(typeId, "fence") && !Contains(typeId, "pane") && !Contains(typeId, "bars")
      && Contains(typeId, "wall")
    ensures s == Stairs <==>
      !Contains(typeId, "fence") && !Contains(typeId, "pane") && !Contains(typeId, "bars")
      && !Contains(typeId, "wall") && Contains(typeId, "stairs")
    ensures s == FullBlock <==>
      !Contains(typeId, "fence") && !Contains(typeId, "pane") && !Contains(typeId, "bars")
      && !Contains(typeId, "wall") && !Contains(typeId, "stairs")
  {
    if Contains(typeId, "fence") then Fence
    else if Contains(typeId, "pane") || Contains(typeId, "bars") then PaneOrBars
    else if Contains(typeId, "wall") then Wall
    else if Contains(typeId, "stairs") then Stairs
    else FullBlock
  }

  /** A block's location is its minimum corner; its centre is half a block in on x and z. */
  const CenterOffset: Vec3 := Vec3(0.5, 0.0, 0.5)

  /** Offset profiles, relative to the block's centre. */
  const BlockOffset: Aabb := Aabb(Vec3(-0.5001, 0.0001, -0.5001), Vec3(0.5001, 1.0, 0.5001))
  const FenceOffset: Aabb := Aabb(Vec3(-0.1251, 0.0, -0.1251), Vec3(0.1251, 1.5, 0.1251))
  const PaneOffset: Aabb := Aabb(Vec3(-0.1251, 0.0, -0.1251), Vec3(0.1251, 1.5, 0.1251))
  const WallOffset: Aabb := Aabb(Vec3(-0.1251, 0.0, -0.1251), Vec3(0.1251, 1.5, 0.1251))

  function Center(cell: Cell): Vec3
  {
    Add(Corner(cell), CenterOffset)
  }

  /** A profile placed around a centre point. */
  function Place(profile: Aabb, center: Vec3): Aabb
  {
    Aabb(Add(center, profile.min), Add(center, profile.max))
  }

  /** The box every block gets before its type is looked at. */
  function FullBlockBox(cell: Cell): Aabb
  {
    Place(BlockOffset, Center(cell))
  }

  /**
   * The block's collision box. Stairs keep the full-block box except for
   * three bounds: minY drops to the floor, maxX reaches a whole block past
   * the centre and maxY sits one block above the floor.
   */
  function BlockBox(cell: Cell, typeId: string): (b: Aabb)
    ensures WellFormed(b)
    ensures
      var x, y, z := cell.x as real, cell.y as real, cell.z as real;
      match Classify(typeId)
      case FullBlock =>
        b == Aabb(Vec3(x - 0.0001, y + 0.0001, z - 0.0001), Vec3(x + 1.0001, y + 1.0, z + 1.0001))
      case Stairs =>
        b == Aabb(Vec3(x - 0.0001, y, z - 0.0001), Vec3(x + 1.5, y + 1.0, z + 1.0001))
      case _ =>
        b == Aabb(Vec3(x + 0.3749, y, z + 0.3749), Vec3(x + 0.6251, y + 1.5, z + 0.6251))
  {
    var c := Center(cell);
    var full := FullBlockBox(cell);
    match Classify(typeId)
    case Fence => Place(FenceOffset, c)
    case PaneOrBars => Place(PaneOffset, c)
    case Wall => Place(WallOffset, c)
    case Stairs => Aabb(Vec3(full.min.x, c.y, full.min.z), Vec3(c.x + 1.0, c.y + 1.0, full.max.z))
    case FullBlock => full
  }

  /** The stairs branch overrides only minY, maxX and maxY of the full-block box. */
  lemma StairsPartialOverride(cell: Cell, typeId: string)
    requires Classify(typeId) == Stairs
    ensures
      var b, full, c := BlockBox(cell, typeId), FullBlockBox(cell), Center(cell);
      && b.min.x == full.min.x && b.min.z == full.min.z && b.max.z == full.max.z
      && b.min.y == c.y && b.max.x == c.x + 1.0 && b.max.y == c.y + 1.0
      && b.min.y != full.min.y && b.max.x != full.max.x
  {
  }

  /** Fences, panes or bars, and walls share the same narrow box. */
  lemma NarrowProfilesAgree(cell: Cell, t1: string, t2: string)
    requires Classify(t1) in {Fence, PaneOrBars, Wall}
    requires Classify(t2) in {Fence, PaneOrBars, Wall}
    ensures BlockBox(cell, t1) == BlockBox(cell, t2)
  {
  }

  /** "fence" anywhere in an identifier selects the fence profile. */
  lemma FenceAnywhere(pre: string, post: string)
    ensures Classify(pre + "fence" + post) == Fence
  {
    ContainsInfix(pre, "fence", post);
  }

  /** A block with no recognised substring gets the full-block box. */
  lemma UnrecognisedGetsFullBlock(cell: Cell, typeId: string)
    requires !Contains(typeId, "fence") && !Contains(typeId, "pane") && !Contains(typeId, "bars")
    requires !Contains(typeId, "wall") && !Contains(typeId, "stairs")
    ensures BlockBox(cell, typeId) == FullBlockBox(cell)
  {
  }

  /**
   * Full blocks in neighbouring cells overlap by 0.0002 on the shared face;
   * two cells apart they are disjoint.
   */
  lemma FullBlockNeighbours(x: int, y: int, z: int)
    ensures Intersects(FullBlockBox(Cell(x, y, z)), FullBlockBox(Cell(x + 1, y, z)))
    ensures !Intersects(FullBlockBox(Cell(x, y, z)), FullBlockBox(Cell(x + 2, y, z)))
  {
  }

  /**
   * The model of getBlockBoundingBox as written: six bounds start at the
   * full-block profile and the first matching branch reassigns them.
   */
  method GetBlockBoundingBox(cell: Cell, typeId: string) returns (b: Aabb)
    ensures b == BlockBox(cell, typeId)
  {
    var offsetX := cell.x as real + CenterOffset.x;
    var offsetY := cell.y as real + CenterOffset.y;
    var offsetZ := cell.z as real + CenterOffset.z;

    var minX := offsetX + BlockOffset.min.x;
    var minY := offsetY + BlockOffset.min.y;
    var minZ := offsetZ + BlockOffset.min.z;
    var maxX := offsetX + BlockOffset.max.x;
    var maxY := offsetY + BlockOffset.max.y;
    var maxZ := offsetZ + BlockOffset.max.z;

    if Contains(typeId, "fence") {
      minX := offsetX + FenceOffset.min.x;
      maxX := offsetX + FenceOffset.max.x;
      minY := offsetY + FenceOffset.min.y;
      maxY := offsetY + FenceOffset.max.y;
      minZ := offsetZ + FenceOffset.min.z;
      maxZ := offsetZ + FenceOffset.max.z;
    } else if Contains(typeId, "pane") || Contains(typeId, "bars") {
      minX := offsetX + PaneOffset.min.x;
      maxX := offsetX + PaneOffset.max.x;
      minY := offsetY + PaneOffset.min.y;
      maxY := offsetY + PaneOffset.max.y;
      minZ := offsetZ + PaneOffset.min.z;
      maxZ := offsetZ + PaneOffset.max.z;
    } else if Contains(typeId, "wall") {
      minX := offsetX + WallOffset.min.x;
      maxX := offsetX + WallOffset.max.x;
      minY := offsetY + WallOffset.min.y;
      maxY := offsetY + WallOffset.max.y;
      minZ := offsetZ + WallOffset.min.z;
      maxZ := offsetZ + WallOffset.max.z;
    } else if Contains(typeId, "stairs") {
      minY := offsetY;
      maxX := offsetX + 1.0;
      maxY := offsetY + 1.0;
    }

    b := Aabb(Vec3(minX, minY, minZ), Vec3(maxX, maxY, maxZ));
  }

}
