/**
 * The Raylib-generation entity (Entity.cs) and the 100-slot entity table of
 * GameMode.cs. Float fields (`visPos`) are render-only and not modelled.
 */
module RaylibEntities {
  import opened IntWidth
  import opened Wrappers
  import opened EntityIds
  import opened FixedVec
  import opened SlotTable

  /** `EntityType`; the START/END members bracket the building and resource kinds. */
  datatype EntityType =
    | Invalid | General
    | BuildingsStart | BuildingsTownCenter | BuildingsEnd
    | ResourceStart | ResourceR1 | ResourceR2 | ResourceEnd

  /** The C# ordinal of each member. */
  function TypeOrdinal(t: EntityType): int {
    match t
    case Invalid => 0
    case General => 1
    case BuildingsStart => 2
    case BuildingsTownCenter => 3
    case BuildingsEnd => 4
    case ResourceStart => 5
    case ResourceR1 => 6
    case ResourceR2 => 7
    case ResourceEnd => 8
  }

  /** Range checks of the form `START < t < END` select exactly the kinds declared between the markers. */
  lemma TypeRanges(t: EntityType)
    ensures TypeOrdinal(BuildingsStart) < TypeOrdinal(t) < TypeOrdinal(BuildingsEnd) <==> t == BuildingsTownCenter
    ensures TypeOrdinal(ResourceStart) < TypeOrdinal(t) < TypeOrdinal(ResourceEnd) <==> t == ResourceR1 || t == ResourceR2
    ensures forall u: EntityType :: TypeOrdinal(u) == TypeOrdinal(t) ==> u == t
  {
  }

  /** `EntityFlags`, a [Flags] bit set. */
  type EntityFlags = bv32

  const FLAGS_NONE: EntityFlags := 0
  const FLAG_SELECTABLE: EntityFlags := 1 << 0

  /** `flags.HasFlag(f)`: every bit of `f` is set. */
  predicate HasFlag(flags: EntityFlags, f: EntityFlags) {
    flags & f == f
  }

  /** NONE is in every set; SELECTABLE is bit 0, set exactly in the odd flag words. */
  lemma FlagsLayout(flags: EntityFlags)
    ensures HasFlag(flags, FLAGS_NONE)
    ensures HasFlag(flags, FLAG_SELECTABLE) <==> flags & 1 == 1
    ensures !HasFlag(FLAGS_NONE, FLAG_SELECTABLE) && HasFlag(FLAG_SELECTABLE, FLAG_SELECTABLE)
  {
  }

  /** The fields of `Entity` other than the float `visPos`. */
  datatype Entity = Entity(
    id: EntityId,
    entityType: EntityType,
    flags: EntityFlags,
    pos: Vec2,
    playerNumber: Int32,
    selected: bool,
    baseTileXIndex: Int32,
    baseTileYIndex: Int32,
    widthInTiles: Int32,
    heightInTiles: Int32,
    resourceAmount: Int32,
    target: Vec2)

  /**
   * `new Entity()`: every field holds its zero value; the `id` field is the
   * zeroed struct, not `EntityId.INVALID`, because a field's default does not
   * run the struct's constructor.
   */
  const NEW_ENTITY: Entity := Entity(ZEROED, Invalid, FLAGS_NONE, ZERO, 0, false, 0, 0, 0, 0, 0, ZERO)

  /** The table of GameMode.cs holds 100 entities. */
  const GAME_MODE_CAPACITY: nat := 100

  /** A spawn's outcome: the new table and the slot filled, if any. */
  datatype Spawned<T> = Spawned(entities: seq<Option<T>>, slot: Option<nat>)

  /** `GameMode.SpawnEntity`: a new entity of `entityType` in the lowest free slot, or nothing if full. */
  function GameModeSpawnEntity(entities: seq<Option<Entity>>, entityType: EntityType): (r: Spawned<Entity>)
    ensures r.slot.None? <==> Full(entities)
    ensures r.slot.None? ==> r.entities == entities
    ensures r.slot.Some? ==> r.slot.value < |entities| && entities[r.slot.value].None?
    ensures r.slot.Some? ==> forall j :: 0 <= j < r.slot.value ==> entities[j].Some?
    ensures r.slot.Some? ==> r.entities == entities[r.slot.value := Some(NEW_ENTITY.(entityType := entityType))]
  {
    match FirstFree(entities)
    case None => Spawned(entities, None)
    case Some(i) => Spawned(entities[i := Some(NEW_ENTITY.(entityType := entityType))], Some(i))
  }

  /** A successful spawn grows the occupied count by exactly one; a failed one changes nothing. */
  lemma GameModeSpawnCount(entities: seq<Option<Entity>>, entityType: EntityType)
    ensures var r := GameModeSpawnEntity(entities, entityType);
      |r.entities| == |entities| &&
      (r.slot.Some? ==> Occupied(r.entities) == Occupied(entities) + 1) &&
      (r.slot.None? ==> Occupied(entities) == |entities|)
  {
    var r := GameModeSpawnEntity(entities, entityType);
    if r.slot.Some? {
      OccupiedFill(entities, r.slot.value, NEW_ENTITY.(entityType := entityType));
    } else {
      OccupiedBound(entities);
    }
  }
}
