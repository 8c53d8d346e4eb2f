/**
 * The Raylib-generation map of Map.cs: the turn counter, the 100 x 100
 * walkability grid, and the 1000-slot entity table with its spawn, lookup
 * and checksum. Tile world positions come from float arithmetic and are not
 * modelled; only `isWalkable` is kept per tile.
 */
module RaylibMap {
  import opened IntWidth
  import opened Wrappers
  import opened EntityIds
  import opened FixedVec
  import opened SlotTable
  import opened RaylibEntities

  const MAP_TILE_W_COUNT: int := 100
  const MAP_TILE_H_COUNT: int := 100
  const ENTITY_CAPACITY: nat := 1000
  /** `MapTile.WORLD_WIDTH_UNITS` and `WORLD_HEIGHT_UNITS`. */
  const WORLD_WIDTH_UNITS: Int32 := 25
  const WORLD_HEIGHT_UNITS: Int32 := 25

  /** `tiles[x, y].isWalkable`, indexed `[x][y]`. */
  predicate TileGrid(tiles: seq<seq<bool>>) {
    |tiles| == MAP_TILE_W_COUNT && forall x :: 0 <= x < |tiles| ==> |tiles[x]| == MAP_TILE_H_COUNT
  }

  datatype MapState = MapState(turnNumber: Int32, tiles: seq<seq<bool>>, entities: seq<Option<Entity>>)

  predicate WellFormed(m: MapState) {
    TileGrid(m.tiles) && |m.entities| == ENTITY_CAPACITY
  }

  /** `Start`: the first turn is turn 1; nothing else changes. */
  function Start(m: MapState): (r: MapState)
    ensures r.turnNumber == 1 && r.tiles == m.tiles && r.entities == m.entities
  {
    m.(turnNumber := 1)
  }

  // ------------------------------------------------------------ entity table

  /** The entity `SpawnEntity` writes into slot `i`. */
  function SpawnedEntity(i: nat, entityType: EntityType, flags: EntityFlags, playerNumber: Int32): Entity
    requires i < ENTITY_CAPACITY
  {
    NEW_ENTITY.(flags := flags, id := EntityId(i, 1), entityType := entityType, playerNumber := playerNumber)
  }

  /** `SpawnEntity`: the lowest free slot gets id (slot, 1) and the given type, flags and player. */
  function SpawnEntity(entities: seq<Option<Entity>>, entityType: EntityType, flags: EntityFlags, playerNumber: Int32)
    : (r: Spawned<Entity>)
    requires |entities| == ENTITY_CAPACITY
    ensures |r.entities| == |entities|
    ensures r.slot.None? <==> Full(entities)
    ensures r.slot.None? ==> r.entities == entities
    ensures r.slot.Some? ==> r.slot.value < |entities| && entities[r.slot.value].None?
    ensures r.slot.Some? ==> forall j :: 0 <= j < r.slot.value ==> entities[j].Some?
    ensures r.slot.Some? ==> forall j :: 0 <= j < |entities| && j != r.slot.value ==> r.entities[j] == entities[j]
    ensures r.slot.Some? ==> r.entities[r.slot.value] == Some(SpawnedEntity(r.slot.value, entityType, flags, playerNumber))
  {
    match FirstFree(entities)
    case None => Spawned(entities, None)
    case Some(i) => Spawned(entities[i := Some(SpawnedEntity(i, entityType, flags, playerNumber))], Some(i))
  }

  /**
   * `LookUpEntityFromId`: the entity in the id's slot if its generation
   * matches. An index outside the table throws, so it is a precondition.
   */
  function LookUpEntityFromId(entities: seq<Option<Entity>>, id: EntityId): (r: Option<Entity>)
    requires 0 <= id.index < |entities|
    ensures r.Some? <==> entities[id.index].Some? && entities[id.index].value.id.generation == id.generation
    ensures r.Some? ==> r == entities[id.index]
  {
    var e := entities[id.index];
    if e.Some? && e.value.id.generation == id.generation then e else None
  }

  /** The id a spawn hands out resolves to the spawned entity. */
  lemma SpawnThenLookUp(entities: seq<Option<Entity>>, entityType: EntityType, flags: EntityFlags, playerNumber: Int32)
    requires |entities| == ENTITY_CAPACITY
    ensures var r := SpawnEntity(entities, entityType, flags, playerNumber);
      r.slot.Some? ==>
        LookUpEntityFromId(r.entities, EntityId(r.slot.value, 1))
          == Some(SpawnedEntity(r.slot.value, entityType, flags, playerNumber))
  {
  }

  /** A successful spawn adds exactly one occupant. */
  lemma SpawnCount(entities: seq<Option<Entity>>, entityType: EntityType, flags: EntityFlags, playerNumber: Int32)
    requires |entities| == ENTITY_CAPACITY
    ensures var r := SpawnEntity(entities, entityType, flags, playerNumber);
      r.slot.Some? ==> Occupied(r.entities) == Occupied(entities) + 1
  {
    var r := SpawnEntity(entities, entityType, flags, playerNumber);
    if r.slot.Some? {
      var i := r.slot.value;
      assert r.entities == entities[i := Some(SpawnedEntity(i, entityType, flags, playerNumber))];
      OccupiedFill(entities, i, SpawnedEntity(i, entityType, flags, playerNumber));
    }
  }

  // ------------------------------------------------------------ checksum

  /** What one slot adds to the checksum: RawX - RawY for a general, nothing otherwise. */
  function CheckSumTerm(e: Option<Entity>): int {
    if e.Some? && e.value.entityType == General then e.value.pos.rawX - e.value.pos.rawY else 0
  }

  /** The unwrapped sum of the slots' terms. */
  function GeneralsSum(s: seq<Option<Entity>>): int
    decreases |s|
  {
    if |s| == 0 then 0 else GeneralsSum(s[..|s| - 1]) + CheckSumTerm(s[|s| - 1])
  }

  /** The checksum peers compare: the turn number plus the generals' terms, modulo 2^64. */
  function CheckSum(m: MapState): Int64 {
    Wrap64(m.turnNumber + GeneralsSum(m.entities))
  }

  /** One slot of the checksum loop: a general's two wrapping updates add its term; any other slot adds nothing. */
  lemma CheckSumSlot(turnNumber: Int32, entities: seq<Option<Entity>>, i: int, sum: Int64)
    requires 0 <= i < |entities|
    requires sum == Wrap64(turnNumber + GeneralsSum(entities[..i]))
    ensures var e := entities[i];
      (if e.Some? && e.value.entityType == General
       then Wrap64(Wrap64(sum + e.value.pos.rawX) - e.value.pos.rawY) else sum)
        == Wrap64(turnNumber + GeneralsSum(entities[..i + 1]))
  {
    assert entities[..i + 1][..i] == entities[..i];
    var e := entities[i];
    var before := turnNumber + GeneralsSum(entities[..i]);
    if e.Some? && e.value.entityType == General {
      Wrap64Absorb(before, e.value.pos.rawX);
      Wrap64Absorb(before + e.value.pos.rawX, 0 - e.value.pos.rawY as int);
    }
  }

  /** `ComputeCheckSum`: the loop with its two wrapping updates per general. */
  method ComputeCheckSum(m: MapState) returns (bigSum: Int64)
    ensures bigSum == CheckSum(m)
  {
    bigSum := m.turnNumber;
    var entityIndex := 0;
    Wrap64Spec(m.turnNumber);
    assert m.entities[..0] == [];
    while entityIndex < |m.entities|
      invariant 0 <= entityIndex <= |m.entities|
      invariant bigSum == Wrap64(m.turnNumber + GeneralsSum(m.entities[..entityIndex]))
    {
      var e := m.entities[entityIndex];
      CheckSumSlot(m.turnNumber, m.entities, entityIndex, bigSum);
      if e.Some? {
        match e.value.entityType {
          case General =>
            bigSum := Wrap64(bigSum + e.value.pos.rawX);
            bigSum := Wrap64(bigSum - e.value.pos.rawY);
          case BuildingsTownCenter =>
          case ResourceR1 =>
          case ResourceR2 =>
          case _ =>
        }
      }
      entityIndex := entityIndex + 1;
    }
    assert m.entities[..entityIndex] == m.entities;
  }

  /** Replacing a slot's content changes the sum by exactly the difference of the two terms. */
  lemma {:induction false} GeneralsSumUpdate(s: seq<Option<Entity>>, i: nat, e: Option<Entity>)
    requires i < |s|
    ensures GeneralsSum(s[i := e]) == GeneralsSum(s) - CheckSumTerm(s[i]) + CheckSumTerm(e)
    decreases |s|
  {
    var n := |s| - 1;
    if i < n {
      assert s[i := e][..n] == s[..n][i := e];
      GeneralsSumUpdate(s[..n], i, e);
    } else {
      assert s[i := e][..n] == s[..n];
    }
  }

  /** Only generals count: swapping a slot between non-general contents leaves the checksum alone. */
  lemma CheckSumIgnoresNonGenerals(m: MapState, i: nat, e: Option<Entity>)
    requires i < |m.entities|
    requires m.entities[i].None? || m.entities[i].value.entityType != General
    requires e.None? || e.value.entityType != General
    ensures CheckSum(m.(entities := m.entities[i := e])) == CheckSum(m)
  {
    GeneralsSumUpdate(m.entities, i, e);
  }

  // ------------------------------------------------------------ tiles

  /** `F64.FloorToInt`: the integer part of the raw value, rounding toward minus infinity. */
  function FloorToInt(x: F64): int {
    x / ONE_RAW
  }

  /** `pos.X / WORLD_WIDTH_UNITS_FP + MAP_TILE_W_COUNT_FP / F64.Two`, the fractional column. */
  function XIndexF(ops: FixedOps, pos: Vec2): F64 {
    Wrap64(Div(ops, pos.rawX, FromInt(WORLD_WIDTH_UNITS)) + Div(ops, FromInt(MAP_TILE_W_COUNT), FromInt(2)))
  }

  /** The fractional row, the same way. */
  function YIndexF(ops: FixedOps, pos: Vec2): F64 {
    Wrap64(Div(ops, pos.rawY, FromInt(WORLD_HEIGHT_UNITS)) + Div(ops, FromInt(MAP_TILE_H_COUNT), FromInt(2)))
  }

  datatype TileIndices = TileIndices(found: bool, x: int, y: int)

  /** `TileWorldPosToIndices`: the tile under `pos`, or false with (-1, -1) off the map. */
  function TileWorldPosToIndices(ops: FixedOps, pos: Vec2): (r: TileIndices)
    ensures r.found <==> (0 <= XIndexF(ops, pos) < FromInt(MAP_TILE_W_COUNT)
                          && 0 <= YIndexF(ops, pos) < FromInt(MAP_TILE_H_COUNT))
    ensures !r.found ==> r.x == -1 && r.y == -1
    ensures r.found ==> 0 <= r.x < MAP_TILE_W_COUNT && 0 <= r.y < MAP_TILE_H_COUNT
    ensures r.found ==> FromInt(r.x) <= XIndexF(ops, pos) < FromInt(r.x + 1)
    ensures r.found ==> FromInt(r.y) <= YIndexF(ops, pos) < FromInt(r.y + 1)
  {
    var xIndexF := XIndexF(ops, pos);
    var yIndexF := YIndexF(ops, pos);
    if xIndexF < 0 || xIndexF >= FromInt(MAP_TILE_W_COUNT) then TileIndices(false, -1, -1)
    else if yIndexF < 0 || yIndexF >= FromInt(MAP_TILE_H_COUNT) then TileIndices(false, -1, -1)
    else
      FloorBelow(xIndexF, MAP_TILE_W_COUNT);
      FloorBelow(yIndexF, MAP_TILE_H_COUNT);
      TileIndices(true, FloorToInt(xIndexF), FloorToInt(yIndexF))
  }

  /** A raw value in [0, FromInt(n)) has its integer part in [0, n), and lies in that unit's span. */
  lemma FloorBelow(v: F64, n: Int32)
    requires 0 <= v < FromInt(n)
    ensures 0 <= FloorToInt(v) < n
    ensures IsInt(FloorToInt(v) + 1) && FromInt(FloorToInt(v)) <= v < FromInt(FloorToInt(v) + 1)
  {
    assert FromInt(n) == n * ONE_RAW;
    var q := FloorToInt(v);
    assert 0 <= q < n && IsInt(n);
    assert IsInt(q) && IsInt(q + 1);
    assert v == q * ONE_RAW + v % ONE_RAW;
    assert FromInt(q) == q * ONE_RAW;
    assert FromInt(q + 1) == q * ONE_RAW + ONE_RAW;
  }

  /** The rectangle [baseX, baseX + w) x [baseY, baseY + h). */
  predicate InRect(x: int, y: int, baseX: int, baseY: int, w: int, h: int) {
    baseX <= x < baseX + w && baseY <= y < baseY + h
  }

  /**
   * `TileMarkAsWalkable`. The two Debug.Asserts are preconditions, and so is
   * the array bound on the first index the loops touch.
   */
  method TileMarkAsWalkable(tiles: seq<seq<bool>>, baseX: int, baseY: int, wCount: int, hCount: int, isWalkable: bool)
    returns (r: seq<seq<bool>>)
    requires TileGrid(tiles)
    requires baseX + wCount < MAP_TILE_W_COUNT && baseY + hCount < MAP_TILE_H_COUNT
    requires wCount > 0 && hCount > 0 ==> 0 <= baseX && 0 <= baseY
    ensures TileGrid(r)
    ensures forall x, y :: 0 <= x < MAP_TILE_W_COUNT && 0 <= y < MAP_TILE_H_COUNT ==>
      r[x][y] == (if InRect(x, y, baseX, baseY, wCount, hCount) then isWalkable else tiles[x][y])
  {
    r := tiles;
    var y := 0;
    while y < hCount
      invariant 0 <= y && (y <= hCount || y == 0)
      invariant TileGrid(r)
      invariant forall x', y' :: 0 <= x' < MAP_TILE_W_COUNT && 0 <= y' < MAP_TILE_H_COUNT ==>
        r[x'][y'] == (if InRect(x', y', baseX, baseY, wCount, y) then isWalkable else tiles[x'][y'])
    {
      var x := 0;
      while x < wCount
        invariant 0 <= x && (x <= wCount || x == 0)
        invariant TileGrid(r)
        invariant forall x', y' :: 0 <= x' < MAP_TILE_W_COUNT && 0 <= y' < MAP_TILE_H_COUNT ==>
          r[x'][y'] == (if InRect(x', y', baseX, baseY, wCount, y) || InRect(x', y', baseX, baseY + y, x, 1)
                        then isWalkable else tiles[x'][y'])
      {
        r := r[baseX + x := r[baseX + x][baseY + y := isWalkable]];
        x := x + 1;
      }
      y := y + 1;
    }
  }
}
