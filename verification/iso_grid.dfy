/**
 * The isometric tile grid of IsoGrid.cs: flat/position indexing, the
 * constructor's tile layout, `PlaceTile` and the 8-neighbour enumeration the
 * flow-field search walks. Draw positions, vanishing points and the tile
 * colliders are float render data and are not part of this model; the
 * float conversion `MapPosToWorldPos` is a parameter.
 */
module IsoGrids {
  import opened IntWidth
  import opened Wrappers
  import opened FixedVec

  /** `IsoTileFlags`, an int-backed [Flags] enum. */
  type IsoTileFlags = Int32

  const TILE_NONE: IsoTileFlags := 0
  const TILE_BLOCKED: IsoTileFlags := 1

  const TILE_WIDTH_HALF: Int32 := 16
  const TILE_HEIGHT_HALF: Int32 := 8

  /** A reference to a `SpriteTexture`; `None` is null. */
  type SpriteId = nat

  /** The deterministic fields of `IsoTile`. */
  datatype IsoTile = IsoTile(
    flags: IsoTileFlags,
    flatIndex: int,
    xIndex: int,
    yIndex: int,
    worldPos: Vec2,
    sprite: Option<SpriteId>)

  /** `new IsoTile()`: every field zero or null. */
  const DEFAULT_TILE: IsoTile := IsoTile(TILE_NONE, 0, 0, 0, ZERO, None)

  datatype IsoGrid = IsoGrid(widthCount: int, heightCount: int, level: int, tiles: seq<IsoTile>)

  /** The tile array holds `widthCount * heightCount` tiles. */
  predicate Sized(g: IsoGrid) {
    g.widthCount > 0 && g.heightCount > 0 && |g.tiles| == g.widthCount * g.heightCount
  }

  /** `PosIndexToFlatIndex`: row-major with rows of `w` tiles. */
  function PosIndexToFlatIndex(w: int, x: int, y: int): (r: int)
    ensures 0 <= x < w ==> y * w <= r < y * w + w
  {
    x + y * w
  }

  /** `FlatIndexToPosIndex`: C# `%` and `/`, which truncate toward zero. */
  function FlatIndexToPosIndex(w: int, i: int): (r: (int, int))
    requires w != 0
    ensures w > 0 && i >= 0 ==> 0 <= r.0 < w && 0 <= r.1
    ensures w > 0 && i < 0 ==> -w < r.0 <= 0 && r.1 <= 0
  {
    if w > 0 && i >= 0 then CsDivNonNeg(i, w); (CsRem(i, w), CsDiv(i, w))
    else (CsRem(i, w), CsDiv(i, w))
  }

  /** A grid position is on the grid. */
  predicate InGrid(w: int, h: int, x: int, y: int) {
    0 <= x < w && 0 <= y < h
  }

  /** From position to flat index and back is the identity; the flat index of an on-grid position is in the array. */
  lemma PosFlatRoundTrip(w: int, h: int, x: int, y: int)
    requires InGrid(w, h, x, y)
    ensures FlatIndexToPosIndex(w, PosIndexToFlatIndex(w, x, y)) == (x, y)
    ensures 0 <= PosIndexToFlatIndex(w, x, y) < w * h
  {
    PosFlatInArray(w, h, x, y);
    var i := x + y * w;
    CsDivNonNeg(i, w);
    DivModUnique(i, w, y, x);
  }

  lemma PosFlatInArray(w: int, h: int, x: int, y: int)
    requires InGrid(w, h, x, y)
    ensures 0 <= PosIndexToFlatIndex(w, x, y) < w * h
  {
    var t := h - y;
    MulAtLeast(w, t);
    assert w * h == w * y + w * t by { assert h == y + t; }
    assert 0 <= y * w == w * y;
  }

  /** From flat index to position and back is the identity, and the position is on the grid. */
  lemma FlatPosRoundTrip(w: int, h: int, i: int)
    requires w > 0 && 0 <= i < w * h
    ensures InGrid(w, h, FlatIndexToPosIndex(w, i).0, FlatIndexToPosIndex(w, i).1)
    ensures PosIndexToFlatIndex(w, FlatIndexToPosIndex(w, i).0, FlatIndexToPosIndex(w, i).1) == i
  {
    CsDivNonNeg(i, w);
    var y := i / w;
    assert i == y * w + i % w;
  }

  // ------------------------------------------------------------ construction

  /** `Vector2Fp.FromInt(TILE_WIDTH_HALF, -TILE_HEIGHT_HALF)`, added to each tile's map position. */
  const TILE_OFFSET: Vec2 := Vec2(FromInt(TILE_WIDTH_HALF), FromInt(0 - TILE_HEIGHT_HALF))

  /**
   * The tile the constructor builds at (x, y): its own position indices, an
   * empty tile, and a world position the fixed half-tile offset away from
   * `mapToWorld`, which is `MapPosToWorldPos` for the grid's level.
   */
  function TileAt(w: int, x: int, y: int, mapToWorld: (int, int) -> Vec2): (r: IsoTile)
    ensures r.xIndex == x && r.yIndex == y && r.flags == TILE_NONE
    ensures Sub(r.worldPos, TILE_OFFSET) == mapToWorld(x, y)
  {
    AddSubInverse(mapToWorld(x, y), TILE_OFFSET);
    IsoTile(TILE_NONE, PosIndexToFlatIndex(w, x, y), x, y, Add(mapToWorld(x, y), TILE_OFFSET), None)
  }

  /** Each tile's flat index, position indices and world position agree with its place in the array. */
  predicate Indexed(g: IsoGrid) {
    g.widthCount > 0
    && forall i :: 0 <= i < |g.tiles| ==>
      g.tiles[i].flatIndex == i
      && (g.tiles[i].xIndex, g.tiles[i].yIndex) == FlatIndexToPosIndex(g.widthCount, i)
  }

  /** Slot `i` has been written once the loops are past its column, or past its row in the current column. */
  predicate Written(w: int, i: int, x: int, y: int)
    requires w > 0
  {
    i % w < x || (i % w == x && i / w < y)
  }

  /** The tiles written so far (see `Written`) are the constructor's, the rest still default. */
  ghost predicate FilledUpTo(tiles: seq<IsoTile>, w: int, x: int, y: int, mapToWorld: (int, int) -> Vec2)
    requires w > 0
  {
    forall i :: 0 <= i < |tiles| ==>
      tiles[i] == if Written(w, i, x, y) then TileAt(w, i % w, i / w, mapToWorld) else DEFAULT_TILE
  }

  /**
   * The `IsoGrid` constructor: the column loop outside, the row loop inside,
   * each tile stored at its flat index. `new IsoTile[wc * hc]` throws on a
   * negative size, hence the bounds.
   */
  method NewIsoGrid(wc: int, hc: int, level: int, mapToWorld: (int, int) -> Vec2) returns (g: IsoGrid)
    requires 0 < wc && 0 <= hc && wc * hc <= INT_MAX
    ensures g.widthCount == wc && g.heightCount == hc && g.level == level
    ensures |g.tiles| == wc * hc
    ensures Indexed(g)
    ensures forall i :: 0 <= i < |g.tiles| ==>
      g.tiles[i] == TileAt(wc, FlatIndexToPosIndex(wc, i).0, FlatIndexToPosIndex(wc, i).1, mapToWorld)
  {
    var tiles := seq(wc * hc, _ => DEFAULT_TILE);
    var x := 0;
    while x < wc
      invariant 0 <= x <= wc && |tiles| == wc * hc
      invariant FilledUpTo(tiles, wc, x, 0, mapToWorld)
    {
      tiles := FillColumn(tiles, wc, hc, x, mapToWorld);
      ColumnDone(tiles, wc, hc, x, mapToWorld);
      x := x + 1;
    }
    g := IsoGrid(wc, hc, level, tiles);
    AllFilled(g, mapToWorld);
  }

  /** The row loop of the constructor: fills column `x` from top to bottom. */
  method FillColumn(tiles: seq<IsoTile>, wc: int, hc: int, x: int, mapToWorld: (int, int) -> Vec2)
    returns (r: seq<IsoTile>)
    requires 0 <= x < wc && 0 <= hc && |tiles| == wc * hc
    requires FilledUpTo(tiles, wc, x, 0, mapToWorld)
    ensures |r| == wc * hc && FilledUpTo(r, wc, x, hc, mapToWorld)
  {
    r := tiles;
    var y := 0;
    while y < hc
      invariant 0 <= y <= hc && |r| == wc * hc
      invariant FilledUpTo(r, wc, x, y, mapToWorld)
    {
      var k := PosIndexToFlatIndex(wc, x, y);
      PosFlatRoundTrip(wc, hc, x, y);
      r := r[k := TileAt(wc, x, y, mapToWorld)];
      forall i | 0 <= i < |r|
        ensures r[i] == if Written(wc, i, x, y + 1) then TileAt(wc, i % wc, i / wc, mapToWorld) else DEFAULT_TILE
      {
        WrittenStep(wc, hc, x, y, i);
      }
      y := y + 1;
    }
  }

  /** A finished column moves the written region on to the next column. */
  lemma ColumnDone(tiles: seq<IsoTile>, w: int, h: int, x: int, mapToWorld: (int, int) -> Vec2)
    requires 0 <= x < w && 0 <= h && |tiles| == w * h
    requires FilledUpTo(tiles, w, x, h, mapToWorld)
    ensures FilledUpTo(tiles, w, x + 1, 0, mapToWorld)
  {
    forall i | 0 <= i < |tiles|
      ensures Written(w, i, x, h) <==> Written(w, i, x + 1, 0)
    {
      FlatIsEuclid(w, h, i);
    }
  }

  /** Once every column is written each tile is the constructor's tile for its position. */
  lemma AllFilled(g: IsoGrid, mapToWorld: (int, int) -> Vec2)
    requires g.widthCount > 0 && 0 <= g.heightCount && |g.tiles| == g.widthCount * g.heightCount
    requires FilledUpTo(g.tiles, g.widthCount, g.widthCount, 0, mapToWorld)
    ensures Indexed(g)
    ensures forall i :: 0 <= i < |g.tiles| ==>
      g.tiles[i] == TileAt(g.widthCount, FlatIndexToPosIndex(g.widthCount, i).0, FlatIndexToPosIndex(g.widthCount, i).1, mapToWorld)
  {
    var w := g.widthCount;
    forall i | 0 <= i < |g.tiles|
      ensures g.tiles[i].flatIndex == i
      ensures (g.tiles[i].xIndex, g.tiles[i].yIndex) == FlatIndexToPosIndex(w, i)
      ensures g.tiles[i] == TileAt(w, FlatIndexToPosIndex(w, i).0, FlatIndexToPosIndex(w, i).1, mapToWorld)
    {
      FlatIsEuclid(w, g.heightCount, i);
    }
  }

  /** On the array's indices the C# split is the Euclidean one, and row i / w is on the grid. */
  lemma FlatIsEuclid(w: int, h: int, i: int)
    requires w > 0 && 0 <= i < w * h
    ensures FlatIndexToPosIndex(w, i) == (i % w, i / w)
    ensures PosIndexToFlatIndex(w, i % w, i / w) == i
    ensures 0 <= i / w < h
  {
    FlatPosRoundTrip(w, h, i);
    CsDivNonNeg(i, w);
  }

  /** Writing slot (x, y) extends the written region by exactly that slot. */
  lemma WrittenStep(w: int, h: int, x: int, y: int, i: int)
    requires InGrid(w, h, x, y) && 0 <= i < w * h
    ensures Written(w, i, x, y + 1) <==> Written(w, i, x, y) || i == PosIndexToFlatIndex(w, x, y)
    ensures i == PosIndexToFlatIndex(w, x, y) ==> i % w == x && i / w == y
  {
    PosFlatRoundTrip(w, h, x, y);
    FlatIsEuclid(w, h, i);
  }

  // ------------------------------------------------------------ PlaceTile

  /** `PlaceTile`; the two Debug.Asserts put (x, y) on the grid. */
  function PlaceTile(g: IsoGrid, x: int, y: int, flags: IsoTileFlags, sprite: Option<SpriteId>): (r: IsoGrid)
    requires Sized(g) && InGrid(g.widthCount, g.heightCount, x, y)
    ensures Sized(r)
  {
    PosFlatRoundTrip(g.widthCount, g.heightCount, x, y);
    var k := PosIndexToFlatIndex(g.widthCount, x, y);
    g.(tiles := g.tiles[k := g.tiles[k].(flags := flags, sprite := sprite)])
  }

  /**
   * On an indexed grid PlaceTile rewrites the flags and sprite of exactly the
   * tile whose position indices are (x, y); every other tile and every other
   * field is unchanged, so the grid stays indexed.
   */
  lemma PlaceTileHitsItsPosition(g: IsoGrid, x: int, y: int, flags: IsoTileFlags, sprite: Option<SpriteId>)
    requires Sized(g) && Indexed(g) && InGrid(g.widthCount, g.heightCount, x, y)
    ensures Indexed(PlaceTile(g, x, y, flags, sprite))
    ensures forall i :: 0 <= i < |g.tiles| ==>
      PlaceTile(g, x, y, flags, sprite).tiles[i]
        == if g.tiles[i].xIndex == x && g.tiles[i].yIndex == y
           then g.tiles[i].(flags := flags, sprite := sprite)
           else g.tiles[i]
  {
    var w, h := g.widthCount, g.heightCount;
    var k := PosIndexToFlatIndex(w, x, y);
    PosFlatRoundTrip(w, h, x, y);
    forall i | 0 <= i < |g.tiles| && g.tiles[i].xIndex == x && g.tiles[i].yIndex == y
      ensures i == k
    {
      FlatPosRoundTrip(w, h, i);
    }
  }

  // ------------------------------------------------------------ neighbours

  /** `GetNeighbors`: split the index into a position, then list that position's neighbours. */
  function GetNeighbors(w: int, h: int, t: int): (r: seq<int>)
    requires w > 0
    ensures |r| <= 8
  {
    var (x, y) := FlatIndexToPosIndex(w, t);
    NeighborsOfPos(w, h, x, y)
  }

  /** Left, right, up, down, then the four diagonals, skipping those off the grid. */
  function NeighborsOfPos(w: int, h: int, x: int, y: int): (r: seq<int>)
    ensures |r| <= 8
  {
    (if x > 0 then [PosIndexToFlatIndex(w, x - 1, y)] else [])
    + (if x < w - 1 then [PosIndexToFlatIndex(w, x + 1, y)] else [])
    + (if y > 0 then [PosIndexToFlatIndex(w, x, y - 1)] else [])
    + (if y < h - 1 then [PosIndexToFlatIndex(w, x, y + 1)] else [])
    + (if x > 0 && y > 0 then [PosIndexToFlatIndex(w, x - 1, y - 1)] else [])
    + (if x < w - 1 && y > 0 then [PosIndexToFlatIndex(w, x + 1, y - 1)] else [])
    + (if x > 0 && y < h - 1 then [PosIndexToFlatIndex(w, x - 1, y + 1)] else [])
    + (if x < w - 1 && y < h - 1 then [PosIndexToFlatIndex(w, x + 1, y + 1)] else [])
  }

  /** Two distinct tiles of the array whose positions differ by at most one in each axis. */
  predicate IsNeighbor(w: int, h: int, a: int, b: int)
    requires w > 0
  {
    0 <= a < w * h && 0 <= b < w * h && a != b
    && -1 <= FlatIndexToPosIndex(w, a).0 - FlatIndexToPosIndex(w, b).0 <= 1
    && -1 <= FlatIndexToPosIndex(w, a).1 - FlatIndexToPosIndex(w, b).1 <= 1
  }

  /** The order GetNeighbors tries the eight directions in. */
  const NEIGHBOR_OFFSETS: seq<(int, int)> := [(-1, 0), (1, 0), (0, -1), (0, 1), (-1, -1), (1, -1), (-1, 1), (1, 1)]

  /** The flat index of (x, y) + d, if that is on the grid. */
  function Step(w: int, h: int, x: int, y: int, d: (int, int)): seq<int> {
    if InGrid(w, h, x + d.0, y + d.1) then [PosIndexToFlatIndex(w, x + d.0, y + d.1)] else []
  }

  /** The flat indices of the on-grid positions among (x, y) + offs, in the order of offs. */
  function OnGridOffsets(w: int, h: int, x: int, y: int, offs: seq<(int, int)>): seq<int>
    decreases |offs|
  {
    if |offs| == 0 then []
    else OnGridOffsets(w, h, x, y, offs[..|offs| - 1]) + Step(w, h, x, y, offs[|offs| - 1])
  }

  lemma OnGridOffsetsSnoc(w: int, h: int, x: int, y: int, offs: seq<(int, int)>, k: nat)
    requires k < |offs|
    ensures OnGridOffsets(w, h, x, y, offs[..k + 1]) == OnGridOffsets(w, h, x, y, offs[..k]) + Step(w, h, x, y, offs[k])
  {
    assert offs[..k + 1][..k] == offs[..k];
  }

  /** GetNeighbors is the fixed offset list, filtered to the grid. */
  lemma GetNeighborsFollowsOffsets(w: int, h: int, t: int)
    requires w > 0 && 0 <= t < w * h
    ensures GetNeighbors(w, h, t)
      == OnGridOffsets(w, h, FlatIndexToPosIndex(w, t).0, FlatIndexToPosIndex(w, t).1, NEIGHBOR_OFFSETS)
  {
    FlatPosRoundTrip(w, h, t);
    var (x, y) := FlatIndexToPosIndex(w, t);
    NeighborsOfPosFollowsOffsets(w, h, x, y);
  }

  lemma NeighborsOfPosFollowsOffsets(w: int, h: int, x: int, y: int)
    requires InGrid(w, h, x, y)
    ensures NeighborsOfPos(w, h, x, y) == OnGridOffsets(w, h, x, y, NEIGHBOR_OFFSETS)
  {
    var o := NEIGHBOR_OFFSETS;
    assert o[..0] == [];
    OnGridOffsetsSnoc(w, h, x, y, o, 0);
    assert [] + Step(w, h, x, y, o[0]) == Step(w, h, x, y, o[0]);
    OnGridOffsetsSnoc(w, h, x, y, o, 1);
    OnGridOffsetsSnoc(w, h, x, y, o, 2);
    OnGridOffsetsSnoc(w, h, x, y, o, 3);
    OnGridOffsetsSnoc(w, h, x, y, o, 4);
    OnGridOffsetsSnoc(w, h, x, y, o, 5);
    OnGridOffsetsSnoc(w, h, x, y, o, 6);
    OnGridOffsetsSnoc(w, h, x, y, o, 7);
    assert o[..8] == o;
  }

  /** Every index GetNeighbors lists is a neighbour, and every neighbour is listed. */
  lemma GetNeighborsIffNeighbor(w: int, h: int, t: int, j: int)
    requires w > 0 && 0 <= t < w * h
    ensures j in GetNeighbors(w, h, t) <==> IsNeighbor(w, h, t, j)
  {
    FlatPosRoundTrip(w, h, t);
    var (x, y) := FlatIndexToPosIndex(w, t);
    if j in GetNeighbors(w, h, t) {
      ListedAreNeighbors(w, h, x, y, j);
    }
    if IsNeighbor(w, h, t, j) {
      FlatPosRoundTrip(w, h, j);
      var (px, py) := FlatIndexToPosIndex(w, j);
      NeighborsAreListed(w, h, x, y, px, py);
    }
  }

  lemma ListedAreNeighbors(w: int, h: int, x: int, y: int, j: int)
    requires InGrid(w, h, x, y) && j in NeighborsOfPos(w, h, x, y)
    ensures IsNeighbor(w, h, PosIndexToFlatIndex(w, x, y), j)
  {
    NeighborsOfPosFollowsOffsets(w, h, x, y);
    OnGridOffsetsAreNeighbors(w, h, x, y, NEIGHBOR_OFFSETS, j);
  }

  /** Each offset is one step in some direction. */
  predicate UnitSteps(offs: seq<(int, int)>) {
    forall k :: 0 <= k < |offs| ==> -1 <= offs[k].0 <= 1 && -1 <= offs[k].1 <= 1 && offs[k] != (0, 0)
  }

  lemma {:induction false} OnGridOffsetsAreNeighbors(w: int, h: int, x: int, y: int, offs: seq<(int, int)>, j: int)
    requires InGrid(w, h, x, y) && UnitSteps(offs) && j in OnGridOffsets(w, h, x, y, offs)
    ensures IsNeighbor(w, h, PosIndexToFlatIndex(w, x, y), j)
    decreases |offs|
  {
    var n := |offs| - 1;
    var d := offs[n];
    if j in Step(w, h, x, y, d) {
      NeighborCandidate(w, h, x, y, d.0, d.1);
    } else {
      assert UnitSteps(offs[..n]) by {
        forall k | 0 <= k < n ensures offs[..n][k] == offs[k] { }
      }
      OnGridOffsetsAreNeighbors(w, h, x, y, offs[..n], j);
    }
  }

  lemma NeighborsAreListed(w: int, h: int, x: int, y: int, px: int, py: int)
    requires InGrid(w, h, x, y) && InGrid(w, h, px, py) && (px, py) != (x, y)
    requires -1 <= x - px <= 1 && -1 <= y - py <= 1
    ensures PosIndexToFlatIndex(w, px, py) in NeighborsOfPos(w, h, x, y)
  {
  }

  /** An on-grid position one step away in some direction is a neighbour. */
  lemma NeighborCandidate(w: int, h: int, x: int, y: int, dx: int, dy: int)
    requires InGrid(w, h, x, y) && InGrid(w, h, x + dx, y + dy)
    requires -1 <= dx <= 1 && -1 <= dy <= 1 && (dx, dy) != (0, 0)
    ensures IsNeighbor(w, h, PosIndexToFlatIndex(w, x, y), PosIndexToFlatIndex(w, x + dx, y + dy))
  {
    PosFlatRoundTrip(w, h, x, y);
    PosFlatRoundTrip(w, h, x + dx, y + dy);
  }

  /** Two distinct tiles whose stored position indices differ by at most one in each axis. */
  predicate TilesAdjacent(g: IsoGrid, a: int, b: int) {
    0 <= a < |g.tiles| && 0 <= b < |g.tiles| && a != b
    && -1 <= g.tiles[a].xIndex - g.tiles[b].xIndex <= 1
    && -1 <= g.tiles[a].yIndex - g.tiles[b].yIndex <= 1
  }

  /** On an indexed grid, GetNeighbors lists exactly the tiles adjacent to `t`. */
  lemma GetNeighborsIffAdjacent(g: IsoGrid, t: int, j: int)
    requires Sized(g) && Indexed(g) && 0 <= t < |g.tiles|
    ensures j in GetNeighbors(g.widthCount, g.heightCount, t) <==> TilesAdjacent(g, t, j)
  {
    GetNeighborsIffNeighbor(g.widthCount, g.heightCount, t, j);
  }
}
