/**
 * The OpenTK generation's game mode (modes/GameModeGame.cs): a table of 100
 * entities searched by a linear scan, a checksum over raw positions, the
 * MOVE_UNITS action that hands an entity a flow field, the tick that applies
 * both players' turns and walks the units along their fields, and the turn
 * block of UpdateTick that feeds the sliding window.
 */
module GameModeGame {
  import opened IntWidth
  import opened Wrappers
  import opened EntityIds
  import opened FixedVec
  import opened SlotTable
  import opened IsoGrids
  import opened FlowFields
  import opened GeometryFp
  import opened Actions
  import opened MapTurns
  import opened SyncQueues

  /** `EntityType` of this generation. */
  datatype EntityType = TypeInvalid | UnitBegin | UnitWorker | UnitEnd

  /**
   * The deterministic fields of this generation's `Entity`. A null
   * `flowField` is the empty sequence; the float `visualPos`, the sprite and
   * the selection bounds are not modelled.
   */
  datatype Entity = Entity(
    id: EntityId,
    entityType: EntityType,
    pos: Vec2,
    hasDestination: bool,
    prevWalkedIndex: int,
    destination: Vec2,
    destIndex: int,
    flowField: seq<FlowTile>,
    gridLevel: int,
    playerNumber: int,
    circleCollider: CircleCollider,
    isSelected: bool)

  /** `entities = new Entity[ 100 ]`. */
  const ENTITY_COUNT: nat := 100

  /**
   * `new Entity()`: every field zero or null (the id is the zeroed struct,
   * since a field's default does not run the struct's constructor), except
   * the `gridLevel = 1` initialiser.
   */
  const NEW_ENTITY: Entity :=
    Entity(ZEROED, TypeInvalid, ZERO, false, 0, ZERO, 0, [], 1, 0, CircleCollider(ZERO, 0), false)

  /** `new CircleCollider( Vector2Fp.FromFloat( -0.5f, 0.0f ), F64.FromInt( 3 ) )`; -0.5 is exact in 32.32. */
  const SPAWN_COLLIDER: CircleCollider := CircleCollider(Vec2(-0x8000_0000, 0), FromInt(3))

  // ------------------------------------------------------------ entity table

  /** The entity `MapApply_SpawnEntity` writes into slot `i`. */
  function SpawnedEntity(i: nat, entityType: EntityType, playerNumber: int): Entity
    requires i < ENTITY_COUNT
  {
    NEW_ENTITY.(entityType := entityType, playerNumber := playerNumber,
                id := EntityId(i, 1), circleCollider := SPAWN_COLLIDER)
  }

  /**
   * `MapApply_SpawnEntity`: the lowest free slot gets a new entity with id
   * (slot, 1). A full table trips `Debug.Assert( false )`, so a free slot is
   * a precondition. The result is the new table and the slot filled.
   */
  function MapApplySpawnEntity(entities: seq<Option<Entity>>, entityType: EntityType, playerNumber: int)
    : (r: (seq<Option<Entity>>, nat))
    requires |entities| == ENTITY_COUNT && !Full(entities)
    ensures r.1 < |entities| && entities[r.1].None?
    ensures forall j :: 0 <= j < r.1 ==> entities[j].Some?
    ensures |r.0| == |entities| && r.0[r.1] == Some(SpawnedEntity(r.1, entityType, playerNumber))
    ensures forall j :: 0 <= j < |entities| && j != r.1 ==> r.0[j] == entities[j]
  {
    var i := FirstFree(entities).value;
    (entities[i := Some(SpawnedEntity(i, entityType, playerNumber))], i)
  }

  /** Slot `j` holds an entity whose id is `==` to `id`. */
  predicate Holds(entities: seq<Option<Entity>>, j: int, id: EntityId) {
    0 <= j < |entities| && entities[j].Some? && Same(entities[j].value.id, id)
  }

  /** The scan of `MapLookUpEntity` from slot `from` on. */
  function LookUpFrom(entities: seq<Option<Entity>>, id: EntityId, from: nat): (r: Option<nat>)
    requires from <= |entities|
    ensures r.Some? ==> from <= r.value && Holds(entities, r.value, id)
    ensures r.Some? ==> forall k :: from <= k < r.value ==> !Holds(entities, k, id)
    ensures r.None? <==> forall k :: from <= k < |entities| ==> !Holds(entities, k, id)
    decreases |entities| - from
  {
    if from == |entities| then None
    else if entities[from].Some? && Same(entities[from].value.id, id) then
      assert Holds(entities, from, id); Some(from)
    else LookUpFrom(entities, id, from + 1)
  }

  /**
   * `MapLookUpEntity`: the first occupied slot whose entity's id is `==` to
   * `id`, or nothing. The slot stands for the object reference the source
   * returns and then mutates.
   */
  function MapLookUpEntity(entities: seq<Option<Entity>>, id: EntityId): (r: Option<nat>)
    ensures r.Some? ==> Holds(entities, r.value, id) && forall k :: 0 <= k < r.value ==> !Holds(entities, k, id)
    ensures r.None? <==> forall k :: 0 <= k < |entities| ==> !Holds(entities, k, id)
  {
    LookUpFrom(entities, id, 0)
  }

  /** Every entity sits in the slot its id names, as spawning arranges. */
  predicate IdsMatchSlots(entities: seq<Option<Entity>>) {
    forall j :: 0 <= j < |entities| && entities[j].Some? ==> entities[j].value.id.index == j
  }

  /**
   * While ids match their slots, the linear scan finds exactly what the
   * index-plus-generation lookup of the Raylib generation finds.
   */
  lemma LookUpIsSlotLookUp(entities: seq<Option<Entity>>, id: EntityId)
    requires IdsMatchSlots(entities)
    ensures MapLookUpEntity(entities, id).Some? <==>
      (0 <= id.index < |entities| && entities[id.index].Some?
       && entities[id.index].value.id.generation == id.generation)
    ensures MapLookUpEntity(entities, id).Some? ==> MapLookUpEntity(entities, id).value == id.index
  {
    if 0 <= id.index < |entities| && entities[id.index].Some?
       && entities[id.index].value.id.generation == id.generation {
      assert Holds(entities, id.index as int, id);
    }
  }

  /**
   * A spawn keeps ids in their slots, adds exactly one occupant, and the id
   * it hands out finds the new entity.
   */
  lemma SpawnThenLookUp(entities: seq<Option<Entity>>, entityType: EntityType, playerNumber: int)
    requires |entities| == ENTITY_COUNT && !Full(entities) && IdsMatchSlots(entities)
    ensures var (r, i) := MapApplySpawnEntity(entities, entityType, playerNumber);
      IdsMatchSlots(r) && Occupied(r) == Occupied(entities) + 1
      && MapLookUpEntity(r, EntityId(i, 1)) == Some(i)
  {
    var (r, i) := MapApplySpawnEntity(entities, entityType, playerNumber);
    assert r == entities[i := Some(SpawnedEntity(i, entityType, playerNumber))];
    OccupiedFill(entities, i, SpawnedEntity(i, entityType, playerNumber));
    LookUpIsSlotLookUp(r, EntityId(i, 1));
  }

  // ------------------------------------------------------------ checksum

  /** What one slot adds to the checksum: RawY - RawX of an occupied slot. */
  function PosTerm(e: Option<Entity>): int {
    if e.Some? then e.value.pos.rawY - e.value.pos.rawX else 0
  }

  /** The unwrapped sum of the slots' terms. */
  function PosSum(s: seq<Option<Entity>>): int
    decreases |s|
  {
    if |s| == 0 then 0 else PosSum(s[..|s| - 1]) + PosTerm(s[|s| - 1])
  }

  /** The checksum the peers compare: the sum of the terms modulo 2^64. */
  function CheckSum(entities: seq<Option<Entity>>): Int64 {
    Wrap64(PosSum(entities))
  }

  /** One entity's two wrapping updates add its term to the wrapped running sum. */
  lemma CheckSumStep(entities: seq<Option<Entity>>, i: int, sum: Int64)
    requires 0 <= i < |entities| && entities[i].Some?
    requires sum == Wrap64(PosSum(entities[..i]))
    ensures Wrap64(Wrap64(sum - entities[i].value.pos.rawX) + entities[i].value.pos.rawY)
         == Wrap64(PosSum(entities[..i + 1]))
  {
    var before := PosSum(entities[..i]);
    var p := entities[i].value.pos;
    Wrap64Absorb(before, 0 - p.rawX as int);
    Wrap64Absorb(before - p.rawX, p.rawY);
    assert entities[..i + 1][..i] == entities[..i];
  }

  /** `MapComputeCheckSum`: the loop with its two wrapping `long` updates per entity. */
  method MapComputeCheckSum(entities: seq<Option<Entity>>) returns (sum: Int64)
    ensures sum == CheckSum(entities)
  {
    sum := 0;
    var entityIndex := 0;
    assert entities[..0] == [];
    while entityIndex < |entities|
      invariant 0 <= entityIndex <= |entities|
      invariant sum == Wrap64(PosSum(entities[..entityIndex]))
    {
      var ent := entities[entityIndex];
      if ent.Some? {
        CheckSumStep(entities, entityIndex, sum);
        sum := Wrap64(sum - ent.value.pos.rawX);
        sum := Wrap64(sum + ent.value.pos.rawY);
      } else {
        assert entities[..entityIndex + 1][..entityIndex] == entities[..entityIndex];
      }
      entityIndex := entityIndex + 1;
    }
    assert entities[..entityIndex] == entities;
  }

  /** Two tables with the same occupied slots and the same positions in them. */
  predicate SamePositions(a: seq<Option<Entity>>, b: seq<Option<Entity>>) {
    |a| == |b|
    && forall j :: 0 <= j < |a| ==>
      (a[j].Some? <==> b[j].Some?) && (a[j].Some? ==> a[j].value.pos == b[j].value.pos)
  }

  /** The checksum sees positions only. */
  lemma {:induction false} SamePositionsSameCheckSum(a: seq<Option<Entity>>, b: seq<Option<Entity>>)
    requires SamePositions(a, b)
    ensures PosSum(a) == PosSum(b) && CheckSum(a) == CheckSum(b)
    decreases |a|
  {
    if |a| > 0 {
      var n := |a| - 1;
      assert SamePositions(a[..n], b[..n]) by {
        assert forall j :: 0 <= j < n ==> a[..n][j] == a[j] && b[..n][j] == b[j];
      }
      SamePositionsSameCheckSum(a[..n], b[..n]);
      assert PosTerm(a[n]) == PosTerm(b[n]);
    }
  }

  // ------------------------------------------------------------ MOVE_UNITS

  /**
   * `IsoTileIndexFromWorldPos` of a grid. `mapCell` is the float part, the
   * map position of a world position floored to integers; the bounds check
   * and the flat index are the source's.
   */
  function TileIndexOf(g: IsoGrid, mapCell: Vec2 -> (int, int), pos: Vec2): int {
    var (x, y) := mapCell(pos);
    if x >= 0 && x < g.widthCount && y >= 0 && y < g.heightCount then PosIndexToFlatIndex(g.widthCount, x, y)
    else -1
  }

  /** The index is -1 or a tile of the grid, and a tile index leads back to the map cell. */
  lemma TileIndexOfSpec(g: IsoGrid, mapCell: Vec2 -> (int, int), pos: Vec2)
    requires Sized(g)
    ensures -1 <= TileIndexOf(g, mapCell, pos) < |g.tiles|
    ensures TileIndexOf(g, mapCell, pos) == -1 <==> !InGrid(g.widthCount, g.heightCount, mapCell(pos).0, mapCell(pos).1)
    ensures TileIndexOf(g, mapCell, pos) >= 0 ==>
      FlatIndexToPosIndex(g.widthCount, TileIndexOf(g, mapCell, pos)) == mapCell(pos)
  {
    var (x, y) := mapCell(pos);
    if InGrid(g.widthCount, g.heightCount, x, y) {
      PosFlatRoundTrip(g.widthCount, g.heightCount, x, y);
    }
  }

  /** The two grids and what the model takes as given about them. */
  datatype Terrain = Terrain(
    groundGrid: IsoGrid,
    buildingGrid: IsoGrid,
    /** Each building tile's `floorConvexCollider`, built from float world positions. */
    floorColliders: seq<ConvexCollider>,
    /** The float `WorldPosToMapPos` followed by the floor to integers. */
    mapCell: Vec2 -> (int, int))

  /**
   * Both grids are built by the constructor with the same dimensions (10 by
   * 10 in the source), and every building tile has a floor collider.
   */
  predicate TerrainOk(t: Terrain) {
    Sized(t.buildingGrid) && Indexed(t.buildingGrid) && Sized(t.groundGrid)
    && |t.groundGrid.tiles| == |t.buildingGrid.tiles|
    && |t.floorColliders| == |t.buildingGrid.tiles|
    && forall i :: 0 <= i < |t.floorColliders| ==> |t.floorColliders[i].verts| <= INT_MAX
  }

  /** What `MapApplyAction` writes into the entity a MOVE_UNITS action names. */
  function Directed(t: Terrain, e: Entity, destIndex: int, flowField: seq<FlowTile>): Entity {
    e.(hasDestination := true, destIndex := destIndex,
       prevWalkedIndex := TileIndexOf(t.groundGrid, t.mapCell, e.pos), flowField := flowField)
  }

  /**
   * The MOVE_UNITS branch of `MapApplyAction` once `PathFind` has produced
   * `flowField`: nothing happens unless the entity resolves.
   */
  function MoveUnits(t: Terrain, entities: seq<Option<Entity>>, a: Action, flowField: seq<FlowTile>)
    : (r: seq<Option<Entity>>)
    requires a.MoveUnitsAction?
    ensures |r| == |entities|
    ensures MapLookUpEntity(entities, a.entId).None? ==> r == entities
    ensures MapLookUpEntity(entities, a.entId).Some? ==>
      var j := MapLookUpEntity(entities, a.entId).value;
      r[j].Some? && r[j].value.hasDestination && r[j].value.flowField == flowField
      && r[j].value.destIndex == a.destIndex && r[j].value.pos == entities[j].value.pos
      && r[j].value.id == entities[j].value.id && r[j].value.entityType == entities[j].value.entityType
      && forall k :: 0 <= k < |entities| && k != j ==> r[k] == entities[k]
  {
    match MapLookUpEntity(entities, a.entId)
    case None => entities
    case Some(j) => entities[j := Some(Directed(t, entities[j].value, a.destIndex, flowField))]
  }

  /** A list of MOVE_UNITS actions, each with the flow field computed for it, applied in list order. */
  function ApplyMoves(t: Terrain, entities: seq<Option<Entity>>, acts: seq<Action>, fields: seq<seq<FlowTile>>)
    : (r: seq<Option<Entity>>)
    requires |fields| == |acts| && forall k :: 0 <= k < |acts| ==> acts[k].MoveUnitsAction?
    ensures |r| == |entities|
    decreases |acts|
  {
    if |acts| == 0 then entities
    else
      var n := |acts| - 1;
      MoveUnits(t, ApplyMoves(t, entities, acts[..n], fields[..n]), acts[n], fields[n])
  }

  /** Applying a concatenation is applying one list, then the other. */
  lemma {:induction false} ApplyMovesAppend(t: Terrain, entities: seq<Option<Entity>>,
                                            xs: seq<Action>, fx: seq<seq<FlowTile>>,
                                            ys: seq<Action>, fy: seq<seq<FlowTile>>)
    requires |fx| == |xs| && forall k :: 0 <= k < |xs| ==> xs[k].MoveUnitsAction?
    requires |fy| == |ys| && forall k :: 0 <= k < |ys| ==> ys[k].MoveUnitsAction?
    ensures forall k :: 0 <= k < |xs + ys| ==> (xs + ys)[k].MoveUnitsAction?
    ensures ApplyMoves(t, entities, xs + ys, fx + fy) == ApplyMoves(t, ApplyMoves(t, entities, xs, fx), ys, fy)
    decreases |ys|
  {
    assert forall k :: 0 <= k < |xs + ys| ==> (xs + ys)[k] == if k < |xs| then xs[k] else ys[k - |xs|];
    if |ys| == 0 {
      assert xs + ys == xs && fx + fy == fx;
    } else {
      var n := |ys| - 1;
      assert (xs + ys)[..|xs| + n] == xs + ys[..n];
      assert (fx + fy)[..|fx| + n] == fx + fy[..n];
      ApplyMovesAppend(t, entities, xs, fx, ys[..n], fy[..n]);
    }
  }

  /** Every MOVE_UNITS action keeps positions, so it keeps the checksum. */
  lemma {:induction false} ApplyMovesKeepsPositions(t: Terrain, entities: seq<Option<Entity>>,
                                                    acts: seq<Action>, fields: seq<seq<FlowTile>>)
    requires |fields| == |acts| && forall k :: 0 <= k < |acts| ==> acts[k].MoveUnitsAction?
    ensures SamePositions(entities, ApplyMoves(t, entities, acts, fields))
    ensures CheckSum(ApplyMoves(t, entities, acts, fields)) == CheckSum(entities)
    decreases |acts|
  {
    var r := ApplyMoves(t, entities, acts, fields);
    if |acts| > 0 {
      var n := |acts| - 1;
      ApplyMovesKeepsPositions(t, entities, acts[..n], fields[..n]);
    }
    SamePositionsSameCheckSum(entities, r);
  }

  /**
   * What `PathFind(destIndex)` promises about the field it returns: one tile
   * per grid tile, the destination marked, every other tile either
   * unvisited or reached from an unblocked neighbour, and visited exactly
   * when reachable.
   */
  ghost predicate FlowFieldFor(g: IsoGrid, ops: FixedOps, dest: int, ff: seq<FlowTile>) {
    |ff| == |g.tiles| && 0 <= dest < |ff|
    && ff[dest] == FlowTile(DESTINATION, g.tiles[dest].worldPos, ZERO)
    && (forall i :: 0 <= i < |ff| && i != dest ==> ff[i].parentIndex == UNVISITED || ChildOf(g, ops, i, ff[i]))
    && forall i :: 0 <= i < |ff| ==> (Visited(ff, i) <==> Reachable(g, dest, i))
  }

  /** Actions `MapApplyAction` can run: MOVE_UNITS, with a destination on the building grid. */
  predicate MovesOnGrid(acts: seq<Action>, n: int) {
    forall k :: 0 <= k < |acts| ==> acts[k].MoveUnitsAction? && 0 <= acts[k].destIndex < n
  }

  /**
   * `MapApplyAction` for a MOVE_UNITS action: the search runs whether or not
   * the entity resolves, and its field is also kept as `debugFlowTiles`.
   * The INVALID and default branches only log, and no `Action` reaches them.
   */
  method MapApplyAction(ops: FixedOps, t: Terrain, entities: seq<Option<Entity>>, a: Action)
    returns (r: seq<Option<Entity>>, debugFlowTiles: seq<FlowTile>)
    requires TerrainOk(t) && a.MoveUnitsAction? && 0 <= a.destIndex < |t.buildingGrid.tiles|
    ensures FlowFieldFor(t.buildingGrid, ops, a.destIndex, debugFlowTiles)
    ensures r == MoveUnits(t, entities, a, debugFlowTiles)
  {
    var flowField, _ := PathFind(t.buildingGrid, ops, a.destIndex);
    debugFlowTiles := flowField;
    var found := MapLookUpEntity(entities, a.entId);
    r := entities;
    if found.Some? {
      var j := found.value;
      var ent := entities[j].value;
      ent := ent.(hasDestination := true, destIndex := a.destIndex);
      ent := ent.(prevWalkedIndex := TileIndexOf(t.groundGrid, t.mapCell, ent.pos), flowField := flowField);
      r := entities[j := Some(ent)];
    }
  }

  /** One player's action loop of `MapTick`, in list order; `fields` are the flow fields computed on the way. */
  method ApplyTurnActions(ops: FixedOps, t: Terrain, entities: seq<Option<Entity>>, acts: seq<Action>)
    returns (r: seq<Option<Entity>>, fields: seq<seq<FlowTile>>)
    requires TerrainOk(t) && MovesOnGrid(acts, |t.buildingGrid.tiles|)
    ensures |fields| == |acts|
    ensures forall k :: 0 <= k < |acts| ==> FlowFieldFor(t.buildingGrid, ops, acts[k].destIndex, fields[k])
    ensures r == ApplyMoves(t, entities, acts, fields)
  {
    r := entities;
    fields := [];
    var actionIndex := 0;
    while actionIndex < |acts|
      invariant 0 <= actionIndex <= |acts| && |fields| == actionIndex
      invariant forall k :: 0 <= k < actionIndex ==> FlowFieldFor(t.buildingGrid, ops, acts[k].destIndex, fields[k])
      invariant r == ApplyMoves(t, entities, acts[..actionIndex], fields)
    {
      var a := acts[actionIndex];
      var next, ff := MapApplyAction(ops, t, r, a);
      assert (acts[..actionIndex + 1])[..actionIndex] == acts[..actionIndex];
      assert (fields + [ff])[..actionIndex] == fields;
      r := next;
      fields := fields + [ff];
      actionIndex := actionIndex + 1;
    }
    assert acts[..actionIndex] == acts;
  }

  // ------------------------------------------------------------ walking

  /**
   * What the update loop needs of an entity with a destination: a flow field
   * with one tile per grid tile, and a last walked index that is -1 or a
   * tile.
   */
  predicate Sound(e: Entity, n: int) {
    e.hasDestination ==> |e.flowField| == n && -1 <= e.prevWalkedIndex < n
  }

  predicate AllSound(entities: seq<Option<Entity>>, n: int) {
    forall j :: 0 <= j < |entities| && entities[j].Some? ==> Sound(entities[j].value, n)
  }

  /** MOVE_UNITS actions with fields from the search keep every entity sound and every id in its slot. */
  lemma {:induction false} ApplyMovesKeepsSound(t: Terrain, entities: seq<Option<Entity>>,
                                                acts: seq<Action>, fields: seq<seq<FlowTile>>)
    requires TerrainOk(t) && |fields| == |acts| && forall k :: 0 <= k < |acts| ==> acts[k].MoveUnitsAction?
    requires forall k :: 0 <= k < |fields| ==> |fields[k]| == |t.buildingGrid.tiles|
    requires AllSound(entities, |t.buildingGrid.tiles|)
    ensures AllSound(ApplyMoves(t, entities, acts, fields), |t.buildingGrid.tiles|)
    ensures IdsMatchSlots(entities) ==> IdsMatchSlots(ApplyMoves(t, entities, acts, fields))
    decreases |acts|
  {
    if |acts| > 0 {
      var n := |acts| - 1;
      ApplyMovesKeepsSound(t, entities, acts[..n], fields[..n]);
      var before := ApplyMoves(t, entities, acts[..n], fields[..n]);
      var found := MapLookUpEntity(before, acts[n].entId);
      if found.Some? {
        TileIndexOfSpec(t.groundGrid, t.mapCell, before[found.value].value.pos);
      }
    }
  }

  /** `flags.HasFlag( IsoTileFlags.BLOCKED )`: the low bit is set. */
  predicate HasBlockedFlag(flags: IsoTileFlags) {
    flags % 2 == 1
  }

  /**
   * One slot of the update loop of `MapTick`: a worker with a destination
   * stops on its destination tile; on another tile of the grid it steps by
   * that tile's flow if the search reached it (remembering the tile), else by
   * the flow of the last tile it walked, else by zero.
   */
  function WalkEntity(t: Terrain, e: Entity): (r: Entity)
    requires TerrainOk(t) && Sound(e, |t.buildingGrid.tiles|)
    ensures Sound(r, |t.buildingGrid.tiles|)
    ensures r == e.(pos := r.pos, hasDestination := r.hasDestination, prevWalkedIndex := r.prevWalkedIndex)
    ensures e.entityType != UnitWorker || !e.hasDestination ==> r == e
  {
    if e.entityType != UnitWorker || !e.hasDestination then e
    else
      var mapIndex := TileIndexOf(t.groundGrid, t.mapCell, e.pos);
      TileIndexOfSpec(t.groundGrid, t.mapCell, e.pos);
      if mapIndex == e.destIndex then e.(hasDestination := false)
      else if mapIndex >= 0 then
        if e.flowField[mapIndex].parentIndex != -1 then
          e.(pos := Add(e.pos, e.flowField[mapIndex].flow), prevWalkedIndex := mapIndex)
        else if e.prevWalkedIndex != -1 then
          e.(pos := Add(e.pos, e.flowField[e.prevWalkedIndex].flow))
        else
          e.(pos := Add(e.pos, ZERO))
      else e
  }

  /**
   * A worker on a tile the search reached, other than its destination, steps
   * by the normalised direction from that tile to the neighbouring tile the
   * search reached it from.
   */
  lemma WalkStepsTowardParent(ops: FixedOps, t: Terrain, e: Entity)
    requires TerrainOk(t) && Sound(e, |t.buildingGrid.tiles|)
    requires e.entityType == UnitWorker && e.hasDestination
    requires FlowFieldFor(t.buildingGrid, ops, e.destIndex, e.flowField)
    requires var i := TileIndexOf(t.groundGrid, t.mapCell, e.pos);
      0 <= i < |e.flowField| && i != e.destIndex && Visited(e.flowField, i)
    ensures var i := TileIndexOf(t.groundGrid, t.mapCell, e.pos);
      var p := e.flowField[i].parentIndex;
      0 <= p < |t.buildingGrid.tiles| && TilesAdjacent(t.buildingGrid, p, i)
      && WalkEntity(t, e).pos ==
        Add(e.pos, NormalizeFast(ops, Sub(t.buildingGrid.tiles[p].worldPos, t.buildingGrid.tiles[i].worldPos)))
      && WalkEntity(t, e).prevWalkedIndex == i
  {
    var i := TileIndexOf(t.groundGrid, t.mapCell, e.pos);
    assert ChildOf(t.buildingGrid, ops, i, e.flowField[i]);
  }

  /** The update loop over all slots. */
  function WalkEntities(t: Terrain, entities: seq<Option<Entity>>): (r: seq<Option<Entity>>)
    requires TerrainOk(t) && AllSound(entities, |t.buildingGrid.tiles|)
    ensures |r| == |entities| && AllSound(r, |t.buildingGrid.tiles|)
    ensures forall j :: 0 <= j < |r| ==> r[j] == if entities[j].None? then None else Some(WalkEntity(t, entities[j].value))
  {
    seq(|entities|, j requires 0 <= j < |entities| =>
      if entities[j].None? then None else Some(WalkEntity(t, entities[j].value)))
  }

  // ------------------------------------------------------------ collisions

  /**
   * `b` is `a` after the collision pass: the same slots are occupied, and
   * only a worker's position may differ.
   */
  predicate Pushed(a: seq<Option<Entity>>, b: seq<Option<Entity>>) {
    |a| == |b|
    && forall j :: 0 <= j < |a| ==>
      (a[j].Some? <==> b[j].Some?)
      && (a[j].Some? ==> b[j].value == a[j].value.(pos := b[j].value.pos))
      && (a[j].Some? && a[j].value.entityType != UnitWorker ==> b[j] == a[j])
  }

  /** The collision pass moves nothing the update loop and the next tick depend on. */
  lemma PushedKeepsSound(a: seq<Option<Entity>>, b: seq<Option<Entity>>, n: int)
    requires Pushed(a, b) && AllSound(a, n)
    ensures AllSound(b, n) && (IdsMatchSlots(a) ==> IdsMatchSlots(b))
  {
    forall j | 0 <= j < |b| && b[j].Some?
      ensures Sound(b[j].value, n)
    {
      assert Sound(a[j].value, n);
    }
  }

  /**
   * The inner loop of the collision pass for one worker: against every
   * BLOCKED tile in tile order, the world-space circle is checked against the
   * tile's floor polygon and, on a hit, the position is pushed back by
   * `normal * penetration`.
   */
  method PushOut(ops: FixedOps, t: Terrain, e: Entity) returns (pos: Vec2)
    requires TerrainOk(t)
    ensures (forall i :: 0 <= i < |t.buildingGrid.tiles| ==> !HasBlockedFlag(t.buildingGrid.tiles[i].flags)) ==> pos == e.pos
  {
    pos := e.pos;
    var tileIndex := 0;
    while tileIndex < |t.buildingGrid.tiles|
      invariant 0 <= tileIndex <= |t.buildingGrid.tiles|
      invariant (forall i :: 0 <= i < tileIndex ==> !HasBlockedFlag(t.buildingGrid.tiles[i].flags)) ==> pos == e.pos
    {
      if HasBlockedFlag(t.buildingGrid.tiles[tileIndex].flags) {
        var hit, manifold := CircleVsConvex(ops, CircleTranslate(e.circleCollider, pos), t.floorColliders[tileIndex]);
        if hit {
          pos := Sub(pos, Scale(ops, manifold.normal, manifold.penetration));
        }
      }
      tileIndex := tileIndex + 1;
    }
  }

  /** The collision pass of `MapTick`: every worker, in slot order, pushed out of the blocked tiles. */
  method CollideWithBlocked(ops: FixedOps, t: Terrain, entities: seq<Option<Entity>>) returns (r: seq<Option<Entity>>)
    requires TerrainOk(t)
    ensures Pushed(entities, r)
  {
    r := entities;
    var entityIndex := 0;
    while entityIndex < |entities|
      invariant 0 <= entityIndex <= |entities| && |r| == |entities|
      invariant Pushed(entities, r)
      invariant forall j :: entityIndex <= j < |entities| ==> r[j] == entities[j]
    {
      var ent := r[entityIndex];
      if ent.Some? && ent.value.entityType == UnitWorker {
        var pos := PushOut(ops, t, ent.value);
        r := r[entityIndex := Some(ent.value.(pos := pos))];
      }
      entityIndex := entityIndex + 1;
    }
  }

  // ------------------------------------------------------------ the tick

  /**
   * The `Debug.Assert`s at the head of `MapTick` (both turns are for the
   * current tick and agree on the checksum), and what its loops need to
   * stay in bounds.
   */
  predicate TickReady(t: Terrain, entities: seq<Option<Entity>>, turnNumber: Int32, p1: MapTurn, p2: MapTurn) {
    TerrainOk(t) && AllSound(entities, |t.buildingGrid.tiles|)
    && p1.turnNumber == p2.turnNumber && p1.turnNumber == turnNumber && p1.checkSum == p2.checkSum
    && MovesOnGrid(p1.actions, |t.buildingGrid.tiles|) && MovesOnGrid(p2.actions, |t.buildingGrid.tiles|)
  }

  /**
   * `MapTick`: every player-1 action in list order, then every player-2
   * action, then the update loop, then the collision pass; the tick counter
   * goes up by one. `fields1` and `fields2` are the flow fields the actions
   * computed.
   */
  method MapTick(ops: FixedOps, t: Terrain, entities: seq<Option<Entity>>, turnNumber: Int32, p1: MapTurn, p2: MapTurn)
    returns (r: seq<Option<Entity>>, nextTurn: Int32, fields1: seq<seq<FlowTile>>, fields2: seq<seq<FlowTile>>)
    requires TickReady(t, entities, turnNumber, p1, p2)
    ensures nextTurn == Wrap32(turnNumber + 1)
    ensures |fields1| == |p1.actions| && |fields2| == |p2.actions|
    ensures forall k :: 0 <= k < |p1.actions| ==> FlowFieldFor(t.buildingGrid, ops, p1.actions[k].destIndex, fields1[k])
    ensures forall k :: 0 <= k < |p2.actions| ==> FlowFieldFor(t.buildingGrid, ops, p2.actions[k].destIndex, fields2[k])
    ensures AllSound(ApplyMoves(t, ApplyMoves(t, entities, p1.actions, fields1), p2.actions, fields2), |t.buildingGrid.tiles|)
    ensures Pushed(WalkEntities(t, ApplyMoves(t, ApplyMoves(t, entities, p1.actions, fields1), p2.actions, fields2)), r)
    ensures AllSound(r, |t.buildingGrid.tiles|)
    ensures IdsMatchSlots(entities) ==> IdsMatchSlots(r)
  {
    var n := |t.buildingGrid.tiles|;
    var afterPlayer1;
    afterPlayer1, fields1 := ApplyTurnActions(ops, t, entities, p1.actions);
    ApplyMovesKeepsSound(t, entities, p1.actions, fields1);
    var afterPlayer2;
    afterPlayer2, fields2 := ApplyTurnActions(ops, t, afterPlayer1, p2.actions);
    ApplyMovesKeepsSound(t, afterPlayer1, p2.actions, fields2);
    var walked := WalkEntities(t, afterPlayer2);
    r := CollideWithBlocked(ops, t, walked);
    PushedKeepsSound(walked, r, n);
    nextTurn := Wrap32(turnNumber + 1);
  }

  // ------------------------------------------------------------ UpdateTick

  /** The fields of `GameModeGame` the turn block reads and writes. */
  datatype Game = Game(
    entities: seq<Option<Entity>>,
    syncQueues: Queues,
    turnNumber: Int32,
    localTurn: MapTurn,
    localPlayerNumber: int,
    isMultiplayer: bool)

  /** The local turn as the turn block stamps it: the pre-tick checksum, and the tick W turns ahead. */
  function Stamped(g: Game): MapTurn {
    g.localTurn.(checkSum := CheckSum(g.entities), turnNumber := Wrap32(g.turnNumber + SLIDING_WINDOW_WIDTH))
  }

  /** The single-player stand-in for player 2's turn: the same number and checksum, no actions. */
  function DummyTurn(turn: MapTurn): MapTurn {
    FRESH.(turnNumber := turn.turnNumber, checkSum := turn.checkSum)
  }

  /** The queues once the stamped turn (and, in single player, its dummy) are enqueued. */
  function Enqueued(g: Game): (q: Queues)
    ensures CanTurn(g.syncQueues) ==> CanTurn(q)
  {
    var q := AddTurn(g.syncQueues, g.localPlayerNumber, Stamped(g));
    if g.isMultiplayer then q else AddTurn(q, 2, DummyTurn(Stamped(g)))
  }

  /** The tick the turn block ran turned `before` into `after`, for some flow fields the search produced. */
  ghost predicate TickOutcome(ops: FixedOps, t: Terrain, before: seq<Option<Entity>>, p1: MapTurn, p2: MapTurn,
                              after: seq<Option<Entity>>)
    requires TerrainOk(t) && AllSound(before, |t.buildingGrid.tiles|)
    requires MovesOnGrid(p1.actions, |t.buildingGrid.tiles|) && MovesOnGrid(p2.actions, |t.buildingGrid.tiles|)
  {
    exists fields1: seq<seq<FlowTile>>, fields2: seq<seq<FlowTile>> ::
      FieldsFit(t, p1, p2, fields1, fields2) && TickWith(t, before, p1, p2, fields1, fields2, after)
  }

  /** The tick's outcome, and the soundness and id placement it keeps. */
  ghost predicate Ticked(ops: FixedOps, t: Terrain, before: seq<Option<Entity>>, p1: MapTurn, p2: MapTurn,
                         after: seq<Option<Entity>>)
    requires TerrainOk(t) && AllSound(before, |t.buildingGrid.tiles|)
    requires MovesOnGrid(p1.actions, |t.buildingGrid.tiles|) && MovesOnGrid(p2.actions, |t.buildingGrid.tiles|)
  {
    TickOutcome(ops, t, before, p1, p2, after) && AllSound(after, |t.buildingGrid.tiles|)
    && (IdsMatchSlots(before) ==> IdsMatchSlots(after))
  }

  /** One flow field per action of each turn, each the size of the building grid. */
  predicate FieldsFit(t: Terrain, p1: MapTurn, p2: MapTurn, fields1: seq<seq<FlowTile>>, fields2: seq<seq<FlowTile>>) {
    |fields1| == |p1.actions| && |fields2| == |p2.actions|
    && (forall k :: 0 <= k < |fields1| ==> |fields1[k]| == |t.buildingGrid.tiles|)
    && (forall k :: 0 <= k < |fields2| ==> |fields2[k]| == |t.buildingGrid.tiles|)
  }

  /** The tick with these flow fields: both action lists, then the walk, then the push-out, from `before` to `after`. */
  predicate TickWith(t: Terrain, before: seq<Option<Entity>>, p1: MapTurn, p2: MapTurn,
                     fields1: seq<seq<FlowTile>>, fields2: seq<seq<FlowTile>>, after: seq<Option<Entity>>)
    requires TerrainOk(t) && FieldsFit(t, p1, p2, fields1, fields2)
    requires MovesOnGrid(p1.actions, |t.buildingGrid.tiles|) && MovesOnGrid(p2.actions, |t.buildingGrid.tiles|)
  {
    var n := |t.buildingGrid.tiles|;
    AllSound(ApplyMoves(t, ApplyMoves(t, before, p1.actions, fields1), p2.actions, fields2), n)
    && Pushed(WalkEntities(t, ApplyMoves(t, ApplyMoves(t, before, p1.actions, fields1), p2.actions, fields2)), after)
  }

  /**
   * The first half of the turn block: stamp the local turn with the
   * pre-tick checksum and the tick W turns ahead, enqueue it, and either
   * hand its packet to the network (multiplayer) or enqueue the dummy turn
   * for player 2 (single player).
   */
  method StampAndEnqueue(g: Game) returns (queues: Queues, sent: Option<seq<Byte>>)
    requires g.isMultiplayer ==> Serializable(g.localTurn)
    ensures queues == Enqueued(g)
    ensures sent.Some? <==> g.isMultiplayer
    ensures sent.Some? ==> sent.value == TurnBytes(AsWritten, Stamped(g), g.localPlayerNumber % 256)
  {
    sent := None;
    var checkSum := MapComputeCheckSum(g.entities);
    var localTurn := g.localTurn.(checkSum := checkSum);
    localTurn := localTurn.(turnNumber := Wrap32(g.turnNumber + GetSlidingWindowWidth(g.syncQueues)));
    assert localTurn == Stamped(g);
    queues := AddTurn(g.syncQueues, g.localPlayerNumber, localTurn);
    if g.isMultiplayer {
      var turnPacket := SerializeToBytes(AsWritten, [], localTurn, g.localPlayerNumber % 256);
      sent := Some(turnPacket);
    } else {
      var turn := FRESH;
      turn := turn.(turnNumber := localTurn.turnNumber, checkSum := localTurn.checkSum);
      queues := AddTurn(queues, 2, turn);
    }
  }

  /** The second half of the turn block: peek both players' head turns and run one tick on them. */
  method TickHeads(ops: FixedOps, t: Terrain, entities: seq<Option<Entity>>, turnNumber: Int32, queues: Queues)
    returns (after: seq<Option<Entity>>, nextTurn: Int32)
    requires CanTurn(queues)
    requires TickReady(t, entities, turnNumber, GetNextTurn(queues, 1), GetNextTurn(queues, 2))
    ensures nextTurn == Wrap32(turnNumber + 1)
    ensures Ticked(ops, t, entities, GetNextTurn(queues, 1), GetNextTurn(queues, 2), after)
  {
    var player1Turn := GetNextTurn(queues, 1);
    var player2Turn := GetNextTurn(queues, 2);
    var fields1, fields2;
    after, nextTurn, fields1, fields2 := MapTick(ops, t, entities, turnNumber, player1Turn, player2Turn);
    assert FieldsFit(t, player1Turn, player2Turn, fields1, fields2) by {
      var n := |t.buildingGrid.tiles|;
      assert forall k :: 0 <= k < |fields1| ==> |fields1[k]| == n;
      assert forall k :: 0 <= k < |fields2| ==> |fields2[k]| == n;
    }
    assert TickWith(t, entities, player1Turn, player2Turn, fields1, fields2, after);
  }

  /**
   * The turn block of `UpdateTick` (run once the turn timer fires): when
   * both players' next turns are present, stamp the local turn, enqueue it
   * (sending its packet in multiplayer, or enqueueing a dummy for player 2
   * otherwise), start a fresh local turn, run exactly one tick on the two
   * head turns and drop them. `sent` is the packet handed to the network.
   */
  method UpdateTurn(ops: FixedOps, t: Terrain, g: Game) returns (r: Game, sent: Option<seq<Byte>>)
    requires CanTurn(g.syncQueues) ==>
      TickReady(t, g.entities, g.turnNumber, GetNextTurn(g.syncQueues, 1), GetNextTurn(g.syncQueues, 2))
    requires g.isMultiplayer ==> Serializable(g.localTurn)
    ensures !CanTurn(g.syncQueues) ==> r == g && sent.None?
    ensures CanTurn(g.syncQueues) ==>
      r == Game(r.entities, FinishTurn(Enqueued(g)), Wrap32(g.turnNumber + 1), FRESH, g.localPlayerNumber, g.isMultiplayer)
      && Ticked(ops, t, g.entities, GetNextTurn(g.syncQueues, 1), GetNextTurn(g.syncQueues, 2), r.entities)
    ensures sent.Some? <==> CanTurn(g.syncQueues) && g.isMultiplayer
    ensures sent.Some? ==> sent.value == TurnBytes(AsWritten, Stamped(g), g.localPlayerNumber % 256)
  {
    r := g;
    sent := None;
    if !CanTurn(g.syncQueues) {
      return;
    }
    var queues;
    queues, sent := StampAndEnqueue(g);
    var entities, nextTurn := TickHeads(ops, t, g.entities, g.turnNumber, g.syncQueues);
    queues := FinishTurn(queues);
    r := Game(entities, queues, nextTurn, FRESH, g.localPlayerNumber, g.isMultiplayer);
  }

  // ------------------------------------------------------------ single player

  /**
   * The single-player steady state of the turn buffer: each queue holds the
   * next W turns, numbered on from the current tick; player 2's are the
   * dummies of player 1's, and player 1's carry actions a tick can run.
   */
  predicate Window(t: Terrain, g: Game) {
    var q := g.syncQueues;
    !g.isMultiplayer && g.localPlayerNumber == 1
    && |q.player1Turns| == SLIDING_WINDOW_WIDTH && |q.player2Turns| == SLIDING_WINDOW_WIDTH
    && forall k :: 0 <= k < SLIDING_WINDOW_WIDTH ==>
      q.player1Turns[k].turnNumber == Wrap32(g.turnNumber + k)
      && q.player2Turns[k] == DummyTurn(q.player1Turns[k])
      && MovesOnGrid(q.player1Turns[k].actions, |t.buildingGrid.tiles|)
  }

  /** `Init` and `Start` in single player (tick 1, freshly started queues) open the window. */
  lemma {:induction false} StartOpensWindow(t: Terrain, g: Game)
    requires !g.isMultiplayer && g.localPlayerNumber == 1 && g.turnNumber == 1
    requires StartedTurns(g.syncQueues.player1Turns, SLIDING_WINDOW_WIDTH)
    requires StartedTurns(g.syncQueues.player2Turns, SLIDING_WINDOW_WIDTH)
    ensures Window(t, g)
  {
    var q := g.syncQueues;
    forall k | 0 <= k < SLIDING_WINDOW_WIDTH
      ensures q.player1Turns[k].turnNumber == Wrap32(g.turnNumber + k)
      ensures q.player2Turns[k] == DummyTurn(q.player1Turns[k])
      ensures MovesOnGrid(q.player1Turns[k].actions, |t.buildingGrid.tiles|)
    {
      Wrap32Spec(1 + k);
      assert q.player1Turns[k].actions == [];
    }
  }

  /**
   * In the window the turn block always runs a tick, and the asserts at the
   * head of `MapTick` hold: both head turns are for the current tick and
   * agree on the checksum.
   */
  lemma WindowReady(t: Terrain, g: Game)
    requires Window(t, g) && TerrainOk(t) && AllSound(g.entities, |t.buildingGrid.tiles|)
    ensures CanTurn(g.syncQueues)
    ensures TickReady(t, g.entities, g.turnNumber, GetNextTurn(g.syncQueues, 1), GetNextTurn(g.syncQueues, 2))
  {
    Wrap32Spec(g.turnNumber + 0);
    assert g.syncQueues.player1Turns[0].turnNumber == Wrap32(g.turnNumber + 0);
  }

  /**
   * One turn block slides the window by one tick: its requires on `r` are
   * exactly what `UpdateTurn` ensures once both queues hold a turn, which a
   * window always does.
   */
  lemma WindowSlides(t: Terrain, g: Game, r: Game)
    requires Window(t, g) && MovesOnGrid(g.localTurn.actions, |t.buildingGrid.tiles|)
    requires r.syncQueues == FinishTurn(Enqueued(g)) && r.turnNumber == Wrap32(g.turnNumber + 1)
    requires r.isMultiplayer == g.isMultiplayer && r.localPlayerNumber == g.localPlayerNumber
    ensures Window(t, r)
  {
    var q := g.syncQueues;
    var q' := r.syncQueues;
    var stamped := Stamped(g);
    assert q'.player1Turns == q.player1Turns[1..] + [stamped];
    assert q'.player2Turns == q.player2Turns[1..] + [DummyTurn(stamped)];
    forall k | 0 <= k < SLIDING_WINDOW_WIDTH
      ensures q'.player1Turns[k].turnNumber == Wrap32(r.turnNumber + k)
      ensures q'.player2Turns[k] == DummyTurn(q'.player1Turns[k])
      ensures MovesOnGrid(q'.player1Turns[k].actions, |t.buildingGrid.tiles|)
    {
      Wrap32Absorb(g.turnNumber + 1, k);
      if k < SLIDING_WINDOW_WIDTH - 1 {
        assert q'.player1Turns[k] == q.player1Turns[k + 1];
        assert q.player1Turns[k + 1].turnNumber == Wrap32(g.turnNumber + (k + 1));
      }
    }
  }
}
