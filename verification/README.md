# Unambiguous lockstep core, modelled in Dafny

Unambiguous is a small two-player RTS prototype written in C#. Its two peers stay in step by exchanging turns rather than game state:
- Every tick each peer stamps its local turn with a checksum of its current entity table and the tick number four turns ahead (the sliding window).
- It queues the turn locally and sends it.
- Once both players' next turns are queued, it applies player 1's actions, then player 2's, advances the entities and drops both turns.

Everything that feeds the checksum is integer or 32.32 fixed-point arithmetic on raw `long` values. This project models that deterministic core and proves what the code promises about it.

The repository holds two generations of the game, and each gets its own modules:
- the Raylib generation: `Map.cs`, `Entity.cs`, `GameMode.cs` and the two selection actions;
- the OpenTK generation: `modes/GameModeGame.cs` with its isometric grids and flow-field pathfinding.

| module | file | what it models |
|---|---|---|
| `Wrappers` | wrappers.dfy | `Option` and `Result` |
| `IntWidth` | int_width.dfy | C# `int`/`long`/`byte` ranges, two's-complement wrap-around, C#'s truncating `/` and `%` |
| `EntityIds` | entity_ids.dfy | `EntityId`: its default, `INVALID`, `IsValid`, `==` and `!=` |
| `FixedVec` | fixed_vec.dfy | `Vector2Fp` on raw 32.32 parts, with the FixPointCS kernels as parameters |
| `ByteOps` | byte_ops.dfy | big-endian `Plonk`/`Scoop` of ints, longs, ids and vectors |
| `Actions` | actions.dfy | the three action payloads, their tags, and their encoders and decoders |
| `MapTurns` | map_turn.dfy | the turn packet: encoder, decoder as written, corrected decoder |
| `SyncQueues` | sync_queues.dfy | the two per-player turn FIFOs with window width 4 |
| `SlotTable` | slot_table.dfy | the first-free-slot scan shared by every spawn |
| `RaylibEntities` | raylib_entity.dfy | Raylib `Entity`, its type ordinals and flags, `GameMode.SpawnEntity` |
| `RaylibMap` | raylib_map.dfy | `Map`: spawn, lookup, checksum, tile indices, walkability |
| `RaylibTurn` | raylib_turn.dfy | the selection actions' `Apply` and `Map.DoTurn` |
| `IsoGrids` | iso_grid.dfy | `IsoGrid` indexing, construction, `PlaceTile`, `GetNeighbors` |
| `FlowFields` | path_find.dfy | `IsoGrid.PathFind`, the breadth-first flow field |
| `GeometryFp` | geometry_fp.dfy | fixed-point colliders and `CollisionTestsFp.CircleVsConvex` |
| `GameModeGame` | game_mode_game.dfy | the OpenTK entity table, `MapTick` and the turn block of `UpdateTick` |
| `Util` | util.dfy | `Util.IntClamp` |
| `Content` | content.dfy | the alpha-border padding of `Content.LoadSpriteTexture` |
| `FontBakerResults` | font_baker_result.dfy | the validating constructor of `FontBakerResult` |

How the C# is modelled:
- Mutable arrays and objects become sequences and immutable datatypes. A `null` slot is `None`.
- A method that mutates its receiver becomes a function or method returning the new value.
- A `Debug.Assert`, or a runtime exception the code does not catch, becomes a precondition.
- C# integer overflow is written out with `Wrap32`/`Wrap64`.
- The FixPointCS arithmetic kernels (`Fixed64.Mul`, `Div`, `RSqrt`, `NormalizeFast`, the distance kernel) are not part of this model. They come in through the `FixedOps` record of functions, and every result is wrapped to 64 bits, so no property depends on what those kernels compute. Two exact bit operations are modelled concretely instead: `FromInt` (`n << 32`) and `F64.FloorToInt` (`raw >> 32`), and the tile-index properties of `RaylibMap` depend on them.

## Notes on the code

- **Spawning when full.** The OpenTK `MapApply_SpawnEntity` trips `Debug.Assert(false)` on a full table, so `GameModeGame.MapApplySpawnEntity` requires a free slot. The Raylib spawns return null.
- **Decoding.** `MapTurn.SerializeFromBytes` decodes only the header (see Findings).
- **MOVE_UNITS payload.** `MapAction_MoveUnits` writes an entity id and a `Vector2Fp` destination (24 bytes). `GameModeGame` reads an undeclared `destIndex` field, which the model carries as an extra, unencoded field of the action.
- **Lookup.** The OpenTK `MapLookUpEntity` is a linear scan comparing whole ids. `GameModeGame.LookUpIsSlotLookUp` proves it agrees with the index-plus-generation lookup while every entity sits in the slot its id names.

## Model

| member | source | states |
|---|---|---|
| EntityIds.InvalidIsNotValid | Game/src/game/Entity.cs:9-17 | `EntityId.INVALID`, the parameterless-constructor value (-1, -1), is not valid |
| EntityIds.IsValidCharacterization | Game/src/game/Entity.cs:15-17 | a handle is invalid exactly when its index or its generation is -1, so every valid handle differs from INVALID |
| EntityIds.Same | Game/src/game/modes/GameModeGame.cs:22 | handle `==` holds exactly when the two handles are the same value |
| EntityIds.Differs | Game/src/game/modes/GameModeGame.cs:23 | handle `!=` is exactly the negation of `==` |
| FixedVec.FromInt | Game/src/meth/fixed/F64Vec2.cs:68 | an integer converted to 32.32 has that integer as its whole part and no fraction bits |
| FixedVec.FromRaw | Game/src/meth/fixed/F64Vec2.cs:61-67 | the raw constructor stores both raw parts unchanged |
| FixedVec.AccessorsRoundTrip | Game/src/meth/fixed/F64Vec2.cs:51-52 | the X/Y getters and setters pass raw values through in both directions, and setting one part leaves the other alone |
| FixedVec.Eq | Game/src/meth/fixed/F64Vec2.cs:90 | vector `==` holds exactly when both raw parts are equal |
| FixedVec.Neq | Game/src/meth/fixed/F64Vec2.cs:91 | vector `!=` is exactly the negation of `==` |
| FixedVec.AddSubInverse | Game/src/meth/fixed/F64Vec2.cs:73-74 | `(a + b) - b == a` for every pair of vectors, despite 64-bit wrap-around |
| FixedVec.SubAddInverse | Game/src/meth/fixed/F64Vec2.cs:73-74 | `(a - b) + b == a` for every pair of vectors, despite wrap-around |
| FixedVec.AddNegIsSub | Game/src/meth/fixed/F64Vec2.cs:72-74 | adding the negation is subtraction, and vector addition commutes |
| FixedVec.NegInvolution | Game/src/meth/fixed/F64Vec2.cs:72 | negating twice gives the vector back, including parts equal to `long.MinValue` |
| FixedVec.AddNegIsZero | Game/src/meth/fixed/F64Vec2.cs:72-73 | a vector plus its negation is the zero vector |
| FixedVec.ScalarAddCommutes | Game/src/meth/fixed/F64Vec2.cs:79-82 | the four scalar/vector `+` and `-` overloads act like vector `+`/`-` with the scalar in both parts, and `s + v == v + s` |
| FixedVec.MinMaxComponentwise | Game/src/meth/fixed/F64Vec2.cs:151-152 | Min and Max take, part by part, one of the two inputs, and it is the smaller (larger) one |
| FixedVec.ClampBounds | Game/src/meth/fixed/F64Vec2.cs:154-166 | with ordered bounds each clamped part lies in `[min, max]` and an in-range part is unchanged; the scalar overload is the vector overload with equal bounds in both parts |
| FixedVec.Scale | Game/src/meth/fixed/F64Vec2.cs:83-84 | `v * s` multiplies each raw part by the scalar, and whenever the FixPointCS multiply commutes it equals the `s * v` overload |
| FixedVec.Dot | Game/src/meth/fixed/F64Vec2.cs:141-146 | a vector dotted with itself is the squared length `LengthSqr` computes, and whenever the multiply commutes the operands may be swapped |
| FixedVec.Normalize | Game/src/meth/fixed/F64Vec2.cs:142-143 | the result is the input scaled by one factor (the reciprocal length), and it is what NormalizeFast gives whenever the two reciprocal square roots agree |
| FixedVec.NormalizeFast | Game/src/meth/fixed/F64Vec2.cs:143 | the result is the input scaled by one factor |
| ByteOps.PlonkInt | Game/src/net/ByteOps.cs:6-11 | appends exactly four bytes, the value's low 32 bits most significant first, and keeps the existing contents |
| ByteOps.PlonkLong | Game/src/net/ByteOps.cs:13-22 | appends exactly eight bytes, most significant first, and keeps the existing contents |
| ByteOps.PlonkIntIsShifts | Game/src/net/ByteOps.cs:7-10 | the four appended bytes are `(byte)(v >> 24)`, `(byte)(v >> 16)`, `(byte)(v >> 8)`, `(byte)v` |
| ByteOps.PlonkLongIsShifts | Game/src/net/ByteOps.cs:14-21 | appended byte `i` is `(byte)(v >> 8*(7 - i))` |
| ByteOps.ScoopInt | Game/src/net/ByteOps.cs:34-38 | reads the four bytes at the offset and advances the offset by four |
| ByteOps.ScoopIntIsShiftOr | Game/src/net/ByteOps.cs:35 | the value read is the OR of the four shifted bytes, taken as a signed 32-bit int |
| ByteOps.ScoopLong | Game/src/net/ByteOps.cs:40-51 | reads the eight bytes at the offset and advances the offset by eight |
| ByteOps.IntAt | Game/src/net/ByteOps.cs:34-38 | four bytes PlonkInt produced read back as the same int, wherever they sit in a buffer |
| ByteOps.LongAt | Game/src/net/ByteOps.cs:40-51 | eight bytes PlonkLong produced read back as the same long, wherever they sit |
| ByteOps.ScoopIntAfterPlonkInt | Game/src/net/ByteOps.cs:6-38 | ScoopInt at the old end of the list returns what PlonkInt appended, whatever follows it |
| ByteOps.ScoopLongAfterPlonkLong | Game/src/net/ByteOps.cs:13-51 | ScoopLong at the old end of the list returns what PlonkLong appended, whatever follows it |
| ByteOps.ScoopReadsOnlyWindow | Game/src/net/ByteOps.cs:34-51 | a scoop depends only on the bytes in its own window |
| ByteOps.PlonkEntityId | Game/src/net/ByteOps.cs:24-27 | appends index then generation, eight bytes in all |
| ByteOps.PlonkVector2Fp | Game/src/net/ByteOps.cs:29-32 | appends RawX then RawY, sixteen bytes in all |
| ByteOps.ScoopEntityId | Game/src/net/ByteOps.cs:53-58 | reads index then generation and advances the offset by eight |
| ByteOps.ScoopVector2Fp | Game/src/net/ByteOps.cs:60-65 | reads RawX then RawY and advances the offset by sixteen |
| ByteOps.EntityIdAt | Game/src/net/ByteOps.cs:53-58 | the eight bytes of an id read back as the same id, wherever they sit |
| ByteOps.Vector2FpAt | Game/src/net/ByteOps.cs:60-65 | the sixteen bytes of a vector read back as the same vector, wherever they sit |
| ByteOps.EntityIdRoundTrip | Game/src/net/ByteOps.cs:24-58 | ScoopEntityId inverts PlonkEntityId |
| ByteOps.Vector2FpRoundTrip | Game/src/net/ByteOps.cs:29-65 | ScoopVector2Fp inverts PlonkVector2Fp |
| Actions.SelectionTypeFromTag | Game/src/game/actions/MapAction.cs:2-6 | an ordinal names a selection action type exactly when it is 0, 1 or 2, and the type read back has that ordinal |
| Actions.TagSetsClosed | Game/src/game/actions/MapAction.cs:2-6 | each action-type enum has three members with pairwise distinct ordinals 0..2, and every selection type survives ordinal and back |
| Actions.GatherResourceTagCollides | Game/src/game/actions/MapActionSelectionGatherResource.cs:9-11 | as written the gather action reports SELECTION_MOVE: its tag is a move's, not SELECTION_GATHER_RESOURCE, which its unit test expects |
| Actions.ActionTagAsWritten | Game/src/game/actions/MapActionSelectionGatherResource.cs:9-11 | the tag the source reports is the move tag for a gather action and agrees with the corrected tag for every other action |
| Actions.ActionTag | Game/src/game/actions/MapActionSelectionGatherResource.cs:9-11 | with the tag corrected, each action class reports its own type, and every selection action's tag reads back as a selection type |
| Actions.PlonkIds | Game/src/game/actions/MapActionSelectionMove.cs:15-17 | the id loop appends the eight bytes of every id, in order, behind the existing contents |
| Actions.Plonk | Game/src/game/actions/MapActionSelectionMove.cs:13-19 | every action appends its payload (for the selections: count, ids, then target or resource node) behind the existing contents |
| Actions.Payload | Game/src/game/actions/MapActionSelectionMove.cs:13-19 | a MoveUnits payload is 24 bytes; a selection payload is a 4-byte count, 8 bytes per id and then 16 (target) or 8 (resource node) bytes |
| Actions.ScoopIds | Game/src/game/actions/MapActionSelectionMove.cs:24-26 | the id loop succeeds exactly when 8 bytes per id remain, and then yields exactly `count` ids |
| Actions.ScoopCountedIds | Game/src/game/actions/MapActionSelectionMove.cs:22-26 | a successful count-and-ids read ends inside the buffer |
| Actions.IdsAt | Game/src/game/actions/MapActionSelectionMove.cs:24-26 | the read loop returns, in order, every id the write loop wrote, wherever they sit in a buffer |
| Actions.CountedIdsAt | Game/src/game/actions/MapActionSelectionMove.cs:22-26 | the count and the ids behind it read back as the written list |
| Actions.ScoopMoveUnits | Game/src/game/map/MapAction.cs:29-32 | the read succeeds exactly when 24 bytes remain, yields a MoveUnits action that keeps the unencoded `destIndex`, and ends 24 bytes on |
| Actions.ScoopSelectionMove | Game/src/game/actions/MapActionSelectionMove.cs:21-28 | a successful read yields an encodable SelectionMove and ends after the count, 8 bytes per id read and the 16-byte target, inside the buffer |
| Actions.ScoopGatherResource | Game/src/game/actions/MapActionSelectionGatherResource.cs:21-28 | a successful read yields an encodable gather action and ends after the count, 8 bytes per id read and the 8-byte node id, inside the buffer |
| Actions.MoveUnitsAt | Game/src/game/map/MapAction.cs:29-32 | a MoveUnits payload reads back as the same entity id and destination, ending right after it |
| Actions.SelectionMoveAt | Game/src/game/actions/MapActionSelectionMove.cs:21-28 | a SelectionMove payload reads back as the same ids and target, ending right after it |
| Actions.GatherResourceAt | Game/src/game/actions/MapActionSelectionGatherResource.cs:21-28 | a gather payload reads back as the same ids and resource node, ending right after it |
| Actions.MoveUnitsRoundTrip | Game/src/game/map/MapAction.cs:24-32 | Scoop after Plonk restores the entity id and destination and advances the offset by the bytes written |
| Actions.SelectionMoveRoundTrip | Game/src/game/actions/MapActionSelectionMove.cs:13-28 | Scoop after Plonk restores the ids (length and contents) and the target and advances the offset by the bytes written |
| Actions.GatherResourceRoundTrip | Game/src/game/actions/MapActionSelectionGatherResource.cs:13-28 | Scoop after Plonk restores the ids (length and contents) and the resource node and advances the offset by the bytes written |
| MapTurns.PlonkActions | Game/src/game/map/MapTurn.cs:19-22 | every action is appended as its 4-byte type tag followed by its own payload, in list order, behind the existing bytes; the tag is the one the source reports (1 for a gather action) or, under the corrected tagging, the action's own |
| MapTurns.SerializeToBytes | Game/src/game/map/MapTurn.cs:12-25 | the packet is the MAP_TURN type byte, the player byte, turn number, checksum, action count and the tagged actions, whatever the reused container held; it is 18 header bytes plus the actions |
| MapTurns.ActionsBytesAtLeast | Game/src/game/map/MapTurn.cs:19-22 | every encoded action takes at least 16 bytes |
| MapTurns.EmptyTurnSize | Game/src/game/map/MapTurn.cs:12-18 | a turn without actions encodes to exactly 18 bytes |
| MapTurns.HeaderAt | Game/src/game/map/MapTurn.cs:14-18 | in an encoded turn the type and player bytes come first and the turn number, checksum and action count read back at offsets 2, 6 and 14 |
| MapTurns.SkipTagsAsWritten | Game/src/game/map/MapTurn.cs:31-51 | as written, the tag loop adds no action whatever tags it reads |
| MapTurns.SerializeFromBytesAsWritten | Game/src/game/map/MapTurn.cs:27-52 | as written, decoding sets the turn number and checksum from the bytes and leaves the action list as it was |
| MapTurns.EncodedInBounds | Game/src/game/map/MapTurn.cs:27-32 | decoding an encoded turn from offset 2 reads only inside the packet |
| MapTurns.AsWrittenHeaderRoundTrip | Game/src/game/map/MapTurn.cs:27-30 | as written, the turn number and checksum of a sent turn survive the round trip |
| MapTurns.AsWrittenDropsActions | Game/src/game/map/MapTurn.cs:31-51 | as written, a sent turn with actions arrives with none, so the received turn differs from the sent one |
| MapTurns.DecodeAction | Game/src/game/map/MapTurn.cs:32-45 | a successful read is an encodable selection action whose tag is the int at the offset, and it ends at least 16 bytes on and inside the buffer |
| MapTurns.DecodeActions | Game/src/game/map/MapTurn.cs:31-51 | a successful read yields exactly `count` encodable selection actions and never moves backwards |
| MapTurns.DecodeTurn | Game/src/game/map/MapTurn.cs:27-52 | a successful read takes the turn number and checksum from the header, holds as many actions as a positive count says (none otherwise) and is a turn the encoder accepts |
| MapTurns.ActionAt | Game/src/game/map/MapTurn.cs:32-45 | with the per-tag decoders in place, a selection action reads back from its tag and payload, wherever it sits |
| MapTurns.ActionsAt | Game/src/game/map/MapTurn.cs:31-51 | with the decoders in place, the action list reads back in order and the read ends right after it |
| MapTurns.DecodeTurnRoundTrip | Game/src/game/map/MapTurn.cs:12-52 | the corrected decoder inverts the encoder: a turn of selection actions comes back whole from offset 2 |
| MapTurns.MoveUnitsTagIsSelectionMove | Game/src/game/map/MapAction.cs:4-8 | the MOVE_UNITS ordinal 1 of one action-type enum reads as SELECTION_MOVE in the other |
| MapTurns.ActionBytesCompare | Game/src/game/map/MapTurn.cs:19-22 | the encodings of an action with the source's tag and with the corrected tag have the same length and differ exactly for a gather action, whose tag ends in byte 1 as written and 2 corrected |
| MapTurns.ActionsBytesCompare | Game/src/game/map/MapTurn.cs:19-22 | the two encodings of an action list have the same length and are equal exactly when no action is a gather |
| MapTurns.TurnBytesCompare | Game/src/game/map/MapTurn.cs:12-25 | the two packets of a turn have the same length and header and are equal exactly when the turn holds no gather action |
| MapTurns.GatherTagOnWire | Game/src/game/map/MapTurn.cs:20 | a turn whose first action is a gather carries byte 1 at packet offset 21 as written, where the corrected packet carries 2 |
| SyncQueues.Start | Game/src/game/SyncQueues.cs:8-18 | afterwards both queues hold exactly turns 1..4, each with a zero checksum and no actions, so a tick can run and both heads are turn 1 |
| SyncQueues.CanTurn | Game/src/game/SyncQueues.cs:20-29 | when it answers true, both players' next turns can be peeked |
| SyncQueues.CanTurnIffPeekable | Game/src/game/SyncQueues.cs:20-29 | a tick can run exactly when both queues are non-empty |
| SyncQueues.FinishTurn | Game/src/game/SyncQueues.cs:49-52 | exactly the two heads are dropped; the rest of each queue stays in order |
| SyncQueues.AddTurnRouting | Game/src/game/SyncQueues.cs:31-38 | player 1's turn goes to the back of the first queue and any other number's to the back of the second; the other queue is untouched |
| SyncQueues.AddTurnKeepsHead | Game/src/game/SyncQueues.cs:31-47 | first in, first out: enqueueing behind a non-empty queue does not change its head |
| SyncQueues.AddTurnToEmpty | Game/src/game/SyncQueues.cs:31-47 | a turn enqueued into an empty queue becomes its head |
| SyncQueues.FinishTurnCommutesWithAdd | Game/src/game/SyncQueues.cs:31-52 | enqueueing behind the heads and then finishing the tick is the same as finishing first and then enqueueing |
| SyncQueues.AddTurn | Game/src/game/SyncQueues.cs:31-38 | each call enqueues exactly one turn in all |
| SyncQueues.GetSlidingWindowWidth | Game/src/game/SyncQueues.cs:54-55 | the window width is the positive constant 4 |
| SlotTable.FirstFreeFrom | Game/src/game/GameMode.cs:11-17 | the scan returns the lowest free slot at or after its start, with every slot before it occupied, and nothing exactly when every remaining slot is occupied |
| SlotTable.FirstFreeIsLowest | Game/src/game/GameMode.cs:11-19 | the scan finds nothing exactly when the table is full, and otherwise a free slot no later than any free slot |
| SlotTable.OccupiedFill | Game/src/game/GameMode.cs:13 | filling a free slot raises the occupant count by exactly one |
| SlotTable.OccupiedBound | Game/src/game/GameMode.cs:3 | the occupant count never exceeds the capacity, and reaches it exactly when the table is full |
| RaylibEntities.TypeRanges | Game/src/game/Entity.cs:20-30 | a `START < t < END` range test selects exactly the kinds declared between the two markers; ordinals are distinct |
| RaylibEntities.FlagsLayout | Game/src/game/Entity.cs:32-36 | NONE is contained in every flag set, and SELECTABLE is bit 0 |
| RaylibEntities.GameModeSpawnEntity | Game/src/game/GameMode.cs:10-20 | a full table yields null and is left unchanged; otherwise the lowest free slot gets a fresh entity of the requested type and no other slot changes |
| RaylibEntities.GameModeSpawnCount | Game/src/game/GameMode.cs:10-20 | a successful spawn raises the occupant count by exactly one; a failed one happens only when every slot is occupied |
| RaylibMap.Start | Game/src/game/Map.cs:82-84 | starting the map sets the turn counter to 1 and leaves tiles and entities alone |
| RaylibMap.SpawnEntity | Game/src/game/Map.cs:187-200 | a full 1000-slot table yields null and is left unchanged; otherwise the lowest free slot gets id (slot, 1) with the given type, flags and player, and no other slot changes |
| RaylibMap.LookUpEntityFromId | Game/src/game/Map.cs:168-174 | the lookup yields the slot's entity exactly when the slot is occupied and its generation matches the id's; otherwise null |
| RaylibMap.SpawnThenLookUp | Game/src/game/Map.cs:168-200 | the id a successful spawn hands out resolves to the entity it spawned |
| RaylibMap.SpawnCount | Game/src/game/Map.cs:187-198 | a successful spawn raises the occupant count by exactly one |
| RaylibMap.CheckSumSlot | Game/src/game/Map.cs:139-162 | one pass of the loop: a general's add of RawX and subtract of RawY, each wrapping at 64 bits, extends the running sum by exactly its term; every other slot leaves the sum unchanged |
| RaylibMap.ComputeCheckSum | Game/src/game/Map.cs:136-166 | the loop's two wrapping updates per general give the turn number plus the sum of RawX - RawY over generals, modulo 2^64 |
| RaylibMap.GeneralsSumUpdate | Game/src/game/Map.cs:138-163 | replacing one slot changes the checksum's sum by exactly the difference of the old and new slot's terms |
| RaylibMap.CheckSumIgnoresNonGenerals | Game/src/game/Map.cs:147-160 | town centres, resource nodes, other kinds and empty slots contribute nothing: swapping such slots leaves the checksum unchanged |
| RaylibMap.TileWorldPosToIndices | Game/src/game/Map.cs:268-290 | off the map (a fractional index outside [0, 100)) the answer is false with (-1, -1); on it, true with both indices in [0, 100), each the whole part of its fractional index |
| RaylibMap.FloorBelow | Game/src/game/Map.cs:286-287 | the integer part of a fractional index in [0, n) lies in [0, n) |
| RaylibMap.TileMarkAsWalkable | Game/src/game/Map.cs:292-301 | exactly the tiles of [baseX, baseX+w) x [baseY, baseY+h) get the new walkability; every other tile keeps its own |
| RaylibTurn.ApplySelectionMoveSpec | Game/src/game/actions/MapActionSelectionMove.cs:30-37 | every entity named by a resolving id gets the action's target and nothing else; unnamed slots and unresolved ids leave the table unchanged; ids are untouched |
| RaylibTurn.ApplySelectionMoveIdempotent | Game/src/game/actions/MapActionSelectionMove.cs:30-37 | applying the same selection move twice gives the table applying it once gives |
| RaylibTurn.NamedDependsOnIds | Game/src/game/Map.cs:168-174 | whether an id list names a slot depends only on the ids the slots hold, so retargeting never changes which ids resolve |
| RaylibTurn.ApplyGatherResource | Game/src/game/actions/MapActionSelectionGatherResource.cs:30-47 | when the resource node does not resolve the table is returned unchanged |
| RaylibTurn.GatherPoint | Game/src/game/actions/MapActionSelectionGatherResource.cs:36 | the gather point is exactly half a tile (width/2, height/2) from the node, whatever wrapped |
| RaylibTurn.GatherTargetOffset | Game/src/game/actions/MapActionSelectionGatherResource.cs:41-44 | a retargeted general's target is the gather point plus 25 times the normalised direction from it toward the general, whatever wrapped |
| RaylibTurn.ApplyGatherIdsSpec | Game/src/game/actions/MapActionSelectionGatherResource.cs:36-46 | only named generals change, and only their target, which becomes p + Normalize(pos - p) * 25 for p the node position offset by half a tile; everything else is unchanged |
| RaylibTurn.GatherWithoutNodeIsNoOp | Game/src/game/actions/MapActionSelectionGatherResource.cs:31-34 | a gather whose node slot is empty or of another generation changes nothing, whatever ids it names |
| RaylibTurn.ApplyActionsAppend | Game/src/game/Map.cs:97-103 | applying a concatenated action list is applying the first list, then the second |
| RaylibTurn.ApplyActionRetargets | Game/src/game/actions/MapActionSelectionGatherResource.cs:30-47 | either selection action's `Apply` changes only targets: the same slots stay occupied and every other field is unchanged |
| RaylibTurn.ApplyActionsRetarget | Game/src/game/Map.cs:97-103 | running a whole action list changes only targets, so ids, kinds and positions are those before the actions |
| RaylibTurn.MoveEntities | Game/src/game/Map.cs:105-131 | the update loop treats every slot independently: slot j of the result is slot j moved one step |
| RaylibTurn.MoveEntity | Game/src/game/Map.cs:105-131 | a general moves by exactly `(target - pos) * speed`, whatever wrapped, and keeps every other field; town centres and resource nodes stay put; an empty slot stays empty |
| RaylibTurn.DoTurn | Game/src/game/Map.cs:86-134 | a turn advances the counter by exactly one (wrapping), leaves the tiles unchanged, and its entities are player 1's then player 2's actions followed by one movement step per slot; ids and entity kinds are kept |
| RaylibTurn.DoTurnOrder | Game/src/game/Map.cs:97-103 | player 1's actions all run before player 2's: the tick equals one in which player 1 sent both lists, its own first |
| IsoGrids.PosFlatRoundTrip | Game/src/game/IsoGrid.cs:184-192 | for an on-grid (x, y), converting to a flat index and back gives (x, y), and the flat index lies in [0, w*h) |
| IsoGrids.PosFlatInArray | Game/src/game/IsoGrid.cs:184-186 | the flat index of an on-grid position lies inside the tile array |
| IsoGrids.FlatPosRoundTrip | Game/src/game/IsoGrid.cs:184-192 | for 0 <= i < w*h, converting to a position and back gives i, and the position is on the grid |
| IsoGrids.FlatIsEuclid | Game/src/game/IsoGrid.cs:188-192 | on array indices the truncating C# split agrees with the Euclidean one, and the row lies in [0, h) |
| IsoGrids.PosIndexToFlatIndex | Game/src/game/IsoGrid.cs:184-186 | a column x in [0, w) lands in row y's block [y*w, y*w + w) |
| IsoGrids.FlatIndexToPosIndex | Game/src/game/IsoGrid.cs:188-192 | a non-negative index gives a column in [0, w) and a non-negative row; a negative one, by C#'s truncation, a column in (-w, 0] and a non-positive row |
| IsoGrids.TileAt | Game/src/game/IsoGrid.cs:60-64 | the constructor's tile at (x, y) carries x and y and no flags, and its world position is exactly the offset (16, -8) away from the map position |
| IsoGrids.NewIsoGrid | Game/src/game/IsoGrid.cs:53-73 | the constructor creates w*h tiles, and the tile at flat index i carries flat index i, the position FlatIndexToPosIndex(i) and that position's world offset |
| IsoGrids.FillColumn | Game/src/game/IsoGrid.cs:59-71 | the row loop fills column x: afterwards every slot up to and including that column holds its constructor tile and every later slot is still default |
| IsoGrids.ColumnDone | Game/src/game/IsoGrid.cs:58-72 | a finished column is the same written region as the start of the next one |
| IsoGrids.AllFilled | Game/src/game/IsoGrid.cs:58-72 | once every column is written, each tile carries its flat index, its position and its constructor tile |
| IsoGrids.WrittenStep | Game/src/game/IsoGrid.cs:58-71 | one inner-loop step writes exactly the slot of (x, y) and no other |
| IsoGrids.PlaceTile | Game/src/game/IsoGrid.cs:81-87 | placing a tile keeps the array's size |
| IsoGrids.PlaceTileHitsItsPosition | Game/src/game/IsoGrid.cs:81-87 | on an indexed grid only the tile whose position is (x, y) gets the new flags and sprite; every other tile and field is unchanged, so the grid stays indexed |
| IsoGrids.GetNeighbors | Game/src/game/IsoGrid.cs:145-172 | at most eight neighbours are listed |
| IsoGrids.NeighborsOfPos | Game/src/game/IsoGrid.cs:147-171 | at most eight neighbours are listed for a position |
| IsoGrids.GetNeighborsFollowsOffsets | Game/src/game/IsoGrid.cs:145-172 | the listed neighbours are left, right, up, down, then the four diagonals, in that order, with off-grid ones dropped |
| IsoGrids.NeighborsOfPosFollowsOffsets | Game/src/game/IsoGrid.cs:148-171 | the eight guarded appends are the fixed offset list filtered to the grid |
| IsoGrids.OnGridOffsetsSnoc | Game/src/game/IsoGrid.cs:148-171 | each further direction appends at most its own on-grid index |
| IsoGrids.GetNeighborsIffNeighbor | Game/src/game/IsoGrid.cs:145-172 | an index is listed exactly when it is a different on-grid tile within one step in each axis, so the tile itself is never listed |
| IsoGrids.ListedAreNeighbors | Game/src/game/IsoGrid.cs:148-171 | every listed index is a neighbour |
| IsoGrids.OnGridOffsetsAreNeighbors | Game/src/game/IsoGrid.cs:148-171 | any list of unit steps filtered to the grid contains only neighbours |
| IsoGrids.NeighborsAreListed | Game/src/game/IsoGrid.cs:148-171 | every on-grid position within one step in each axis is listed |
| IsoGrids.NeighborCandidate | Game/src/game/IsoGrid.cs:184-186 | an on-grid position one non-zero step away is a neighbour |
| IsoGrids.GetNeighborsIffAdjacent | Game/src/game/IsoGrid.cs:145-172 | on an indexed grid the listed indices are exactly the tiles whose stored positions are adjacent |
| FlowFields.PathFind | Game/src/game/IsoGrid.cs:112-143 | the destination is marked -2 with its own world position and zero flow; every other tile is either still -1 or holds a neighbouring, unblocked child's parent, position and normalised flow; a tile is reached exactly when an unblocked 8-neighbour walk leads to it from the destination; each reached tile's parent was reached before it, so following parents ends at the destination |
| FlowFields.Expand | Game/src/game/IsoGrid.cs:128-139 | expanding one dequeued tile keeps the search's bookkeeping, only appends to the queue, closes the tile (all its unblocked neighbours are reached) and keeps unreached-plus-queued constant |
| FlowFields.Consider | Game/src/game/IsoGrid.cs:131-138 | one neighbour is reached from the dequeued tile exactly when it is still -1 and not BLOCKED; the expansion invariant survives either way |
| FlowFields.ExpandStarts | Game/src/game/IsoGrid.cs:128-129 | before any neighbour is considered the expansion invariant holds |
| FlowFields.ExpandFinishes | Game/src/game/IsoGrid.cs:130-139 | after every listed neighbour has been considered, the dequeued tile's unblocked neighbours are all reached |
| FlowFields.VisitKeepsInv | Game/src/game/IsoGrid.cs:132-137 | reaching an unvisited, unblocked neighbour and queuing it keeps the expansion invariant |
| FlowFields.SkipKeepsInv | Game/src/game/IsoGrid.cs:132 | skipping a visited or blocked neighbour keeps the expansion invariant |
| FlowFields.NeighborsDoneStep | Game/src/game/IsoGrid.cs:130-139 | once neighbour m is settled, the first m+1 neighbours are all reached or blocked |
| FlowFields.EnqueueKeepsState | Game/src/game/IsoGrid.cs:133-137 | queuing a reached child keeps: destination marked, visited exactly when queued, every queued tile a child of an earlier one |
| FlowFields.ReachAppend | Game/src/game/IsoGrid.cs:137 | the queue holds only tiles reachable from the destination after a reachable tile joins it |
| FlowFields.ClosedMono | Game/src/game/IsoGrid.cs:127-140 | tiles already closed stay closed as the queue grows and more tiles are reached |
| FlowFields.ReachStep | Game/src/game/IsoGrid.cs:132 | a walk from the destination extends by any step onto an adjacent, unblocked tile |
| FlowFields.ReachableIsVisited | Game/src/game/IsoGrid.cs:127-140 | once the queue is empty, every tile an unblocked walk from the destination ends on has been reached |
| FlowFields.UnreachedVisit | Game/src/game/IsoGrid.cs:133 | reaching one more tile lowers the unreached count by exactly one, which bounds the search loop |
| FlowFields.UnreachedAll | Game/src/game/IsoGrid.cs:113-116 | right after the sentinel loop every tile is unreached |
| FlowFields.AdjacencyListHolds | Game/src/game/IsoGrid.cs:129 | the neighbour list the search uses holds exactly the tiles adjacent to the dequeued one |
| GeometryFp.CircleClone | Game/src/meth/GeometryFp.cs:15-20 | the clone equals the original circle |
| GeometryFp.CircleTranslate | Game/src/meth/GeometryFp.cs:29-31 | translating keeps the radius and moves the centre by t |
| GeometryFp.CircleTranslateBack | Game/src/meth/GeometryFp.cs:29-31 | translating by t and then by -t restores the circle, whatever the 64-bit wrap-around |
| GeometryFp.ConvexClone | Game/src/meth/GeometryFp.cs:37-44 | the clone has the same vertex count and each vertex equals the original's |
| GeometryFp.ConvexTranslate | Game/src/meth/GeometryFp.cs:54-58 | the vertex count is kept and every vertex is moved by t |
| GeometryFp.ConvexTranslateBack | Game/src/meth/GeometryFp.cs:54-58 | a polygon translated by t and then by -t is the original |
| GeometryFp.ClosestIndex | Game/src/meth/GeometryFp.cs:69-84 | the scan keeps no vertex exactly when every distance equals F64.MaxValue; otherwise it keeps a vertex strictly nearer than every earlier one and no farther than any later one |
| GeometryFp.ClosestAtUnique | Game/src/meth/GeometryFp.cs:77 | the strict `<` makes the kept vertex unique: ties go to the earliest index |
| GeometryFp.GetClosestPointSpec | Game/src/meth/GeometryFp.cs:69-84 | the closest point is the kept vertex, or zero when no vertex beats F64.MaxValue |
| GeometryFp.GetClosestPoint | Game/src/meth/GeometryFp.cs:69-84 | the closest point is one of the polygon's vertices, or zero when none beats F64.MaxValue |
| GeometryFp.ProjectVerticesBounds | Game/src/meth/GeometryFp.cs:183-194 | every vertex's dot product lies within the projection; with no vertices it is (MaxValue, MinValue) |
| GeometryFp.ProjectVerticesAttained | Game/src/meth/GeometryFp.cs:183-194 | on a non-empty polygon both ends are some vertex's dot product, hence min <= max |
| GeometryFp.ProjectCircle | Game/src/meth/GeometryFp.cs:197-213 | the projection is the two projected ends of the circle in ascending order, so min <= max |
| GeometryFp.NextIndex | Game/src/meth/GeometryFp.cs:122 | the next vertex index wraps to 0 after the last and stays in range |
| GeometryFp.Axes | Game/src/meth/GeometryFp.cs:120-146 | the checked axes are one per edge, in vertex order, then the axis toward the closest vertex |
| GeometryFp.Tests | Game/src/meth/GeometryFp.cs:120-161 | one outcome per checked axis, in the loop's order |
| GeometryFp.TestsOpenWithEdges | Game/src/meth/GeometryFp.cs:120-141 | the first outcomes are the edge axes', in order |
| GeometryFp.LastTestAt | Game/src/meth/GeometryFp.cs:143-161 | the last outcome is the closest-vertex axis's |
| GeometryFp.ScanNoneIff | Game/src/meth/GeometryFp.cs:130-133 | the axis loop fails exactly when some axis separates the shapes |
| GeometryFp.ScanSomeIsBest | Game/src/meth/GeometryFp.cs:135-140 | when it succeeds, the depth is the smallest overlap over all axes (below MaxValue) and the normal the first axis attaining it |
| GeometryFp.BestOfUnique | Game/src/meth/GeometryFp.cs:135-140 | the smallest overlap and the first axis attaining it are unique, so there is only one answer the scan can give |
| GeometryFp.ScanStep | Game/src/meth/GeometryFp.cs:130-140 | one more axis either fails the scan or keeps the best with a strict `<` |
| GeometryFp.ScanNoneExtends | Game/src/meth/GeometryFp.cs:130-133 | an early return on a prefix of the axes is a failure of the whole test |
| GeometryFp.Oriented | Game/src/meth/GeometryFp.cs:163-173 | the normal is negated exactly when its dot product with (polygon centre - circle centre) is negative |
| GeometryFp.CircleVsConvex | Game/src/meth/GeometryFp.cs:108-180 | the test fails with the default manifold exactly when some checked axis separates; on a hit the penetration is the minimum overlap over all axes and the normal the first axis attaining it (both unique), flipped toward the polygon's centre |
| GeometryFp.EdgeTest | Game/src/meth/GeometryFp.cs:121-128 | one pass of the edge loop computes the outcome of edge i's normal axis |
| GeometryFp.ClosestTest | Game/src/meth/GeometryFp.cs:143-149 | the final test is on the normalised axis from the circle's centre to the closest vertex |
| GeometryFp.Orient | Game/src/meth/GeometryFp.cs:163-173 | the orientation step computes the polygon centre and flips the normal as Oriented says |
| GeometryFp.EdgeLoop | Game/src/meth/GeometryFp.cs:120-141 | the edge loop returns early exactly when the scan of the edge axes fails, and otherwise ends with the scan's best depth and axis |
| GameModeGame.MapApplySpawnEntity | Game/src/game/modes/GameModeGame.cs:489-505 | with a free slot among the 100, the lowest free slot gets a new entity with id (slot, 1), the given type and player and the spawn collider; every earlier slot is occupied and no other slot changes |
| GameModeGame.LookUpFrom | Game/src/game/modes/GameModeGame.cs:451-460 | the scan from a slot on finds the first occupied slot whose id is `==` to the query, or nothing exactly when no later slot holds it |
| GameModeGame.MapLookUpEntity | Game/src/game/modes/GameModeGame.cs:450-461 | the lookup yields the first occupied slot whose id equals the query, and null exactly when no slot holds it |
| GameModeGame.LookUpIsSlotLookUp | Game/src/game/modes/GameModeGame.cs:450-461 | while every entity sits in the slot its id names, the linear scan finds exactly the slot the index-plus-generation lookup finds |
| GameModeGame.SpawnThenLookUp | Game/src/game/modes/GameModeGame.cs:489-505 | a spawn keeps ids in their slots, adds exactly one occupant, and the id it hands out finds the new entity |
| GameModeGame.CheckSumStep | Game/src/game/modes/GameModeGame.cs:442-443 | the loop's two wrapping updates for one occupied slot add that slot's RawY - RawX to the running checksum |
| GameModeGame.MapComputeCheckSum | Game/src/game/modes/GameModeGame.cs:437-448 | the checksum is the sum over occupied slots of RawY - RawX, wrapped to 64 bits |
| GameModeGame.SamePositionsSameCheckSum | Game/src/game/modes/GameModeGame.cs:437-448 | two tables with the same occupied slots and the same positions have the same checksum, whatever else differs |
| GameModeGame.TileIndexOfSpec | Game/src/game/IsoGrid.cs:174-182 | the tile index under a world position is -1 exactly when its map cell is off the grid, and otherwise the tile of that cell |
| GameModeGame.MoveUnits | Game/src/game/modes/GameModeGame.cs:470-479 | an entity that does not resolve leaves the table unchanged; otherwise only that entity changes, getting hasDestination, destIndex, prevWalkedIndex and the flow field |
| GameModeGame.ApplyMovesAppend | Game/src/game/modes/GameModeGame.cs:366-373 | applying a concatenated action list is applying the first list, then the second |
| GameModeGame.ApplyMovesKeepsPositions | Game/src/game/modes/GameModeGame.cs:470-479 | MOVE_UNITS actions never move an entity, so they leave the checksum unchanged |
| GameModeGame.MapApplyAction | Game/src/game/modes/GameModeGame.cs:463-487 | a MOVE_UNITS action runs the search to its destination (also kept as the debug field) and then directs the resolved entity, if any |
| GameModeGame.ApplyTurnActions | Game/src/game/modes/GameModeGame.cs:367-369 | a player's actions run in list order, each with the flow field the search produced for its destination |
| GameModeGame.ApplyMovesKeepsSound | Game/src/game/modes/GameModeGame.cs:470-479 | actions with search-produced fields keep every entity's flow field and last walked tile in range, and every id in its slot |
| GameModeGame.WalkEntity | Game/src/game/modes/GameModeGame.cs:378-406 | the update touches only a worker with a destination, and only its position, hasDestination and last walked tile; everything else is unchanged |
| GameModeGame.WalkStepsTowardParent | Game/src/game/modes/GameModeGame.cs:390-399 | a worker on a reached tile other than its destination steps by the normalised direction toward the neighbouring tile the search reached it from |
| GameModeGame.WalkEntities | Game/src/game/modes/GameModeGame.cs:378-406 | the update loop treats each slot on its own and keeps every entity sound |
| GameModeGame.PushedKeepsSound | Game/src/game/modes/GameModeGame.cs:408-432 | moving workers' positions keeps every entity sound and every id in its slot |
| GameModeGame.PushOut | Game/src/game/modes/GameModeGame.cs:410-420 | with no BLOCKED tile a worker is not moved |
| GameModeGame.CollideWithBlocked | Game/src/game/modes/GameModeGame.cs:408-432 | the collision pass changes nothing but workers' positions: same occupied slots, every other field and every non-worker unchanged |
| GameModeGame.StampAndEnqueue | Game/src/game/modes/GameModeGame.cs:134-148 | the queues gain exactly the stamped turn (pre-tick checksum, tick + 4) and, in single player, a dummy for player 2 with the same number and checksum and no actions; a packet goes out exactly in multiplayer and is the stamped turn's wire layout, with the tags the source writes, under the local player's number |
| GameModeGame.TickHeads | Game/src/game/modes/GameModeGame.cs:152-155 | the tick runs on the two head turns: the counter goes up by one, wrapping at 32 bits, and the entities become player 1's moves, then player 2's, then the walk and the push-out, for flow fields of the grid's size; entities stay sound and ids stay in their slots |
| GameModeGame.MapTick | Game/src/game/modes/GameModeGame.cs:360-435 | under the asserts (equal turn numbers equal to the tick, equal checksums), player 1's actions run before player 2's, then the update loop, then the collision pass; the counter goes up by exactly one and ids stay in their slots |
| GameModeGame.Enqueued | Game/src/game/modes/GameModeGame.cs:137-148 | enqueuing the stamped turn (and in single player its dummy) never takes away the ability to tick |
| GameModeGame.UpdateTurn | Game/src/game/modes/GameModeGame.cs:133-158 | without both next turns nothing changes and nothing is sent; otherwise the stamped turn (pre-tick checksum, turn + 4) is enqueued and in multiplayer sent as exactly its serialised packet (tags as the source writes them), the local turn starts fresh, one tick runs on the two head turns, both heads are dropped and the counter goes up by one |
| GameModeGame.StartOpensWindow | Game/src/game/SyncQueues.cs:8-18 | in single player, freshly started queues at tick 1 hold the next four turns numbered from the current tick, player 2's being dummies of player 1's |
| GameModeGame.WindowReady | Game/src/game/modes/GameModeGame.cs:133-155 | in that window the turn block always ticks, and the asserts at the head of the tick hold |
| GameModeGame.WindowSlides | Game/src/game/modes/GameModeGame.cs:133-158 | one turn block slides the window by exactly one tick: any result with `UpdateTurn`'s queues, counter, player and mode is again a window, so the single-player loop never stalls or trips an assert |
| Util.IntClamp | Game/src/engine/Util.cs:15-25 | below min gives min; otherwise above max gives max; otherwise x itself |
| Util.IntClampInRange | Game/src/engine/Util.cs:15-25 | when min <= max the result lies in [min, max] and is the point of that range nearest to x |
| Util.IntClampIdempotent | Game/src/engine/Util.cs:15-25 | when min <= max clamping twice equals clamping once |
| Util.IntClampInverted | Game/src/engine/Util.cs:15-25 | when min > max the lower test wins: the result is min for x below min and max for every other x |
| Content.PixelOf | Game/src/contents/Content.cs:78-79 | byte c of pixel (x, y) decodes back to pixel x + y*w, column x, row y, channel c |
| Content.Decompose | Game/src/contents/Content.cs:78-79 | every byte of a w x h buffer is byte c of some in-range pixel (x, y) |
| Content.BorderAt | Game/src/contents/Content.cs:77-85 | IsImageBorder on any byte of pixel (x, y) holds exactly when the pixel is in the first or last column or row |
| Content.InsideBuffer | Game/src/contents/Content.cs:53-57 | every in-range pixel's bytes lie inside the buffer |
| Content.GroupIsPixel | Game/src/contents/Content.cs:28-37 | the scan's test on a 4-byte group is the transparent-border test of that pixel |
| Content.ShouldCreatePaddedAlphaBorder | Game/src/contents/Content.cs:26-38 | padding is chosen exactly when some 4-byte group is a border pixel with alpha 0 |
| Content.ScanFindsTransparentBorder | Game/src/contents/Content.cs:28-38 | the scan's condition holds exactly when some border pixel of the image has alpha 0 |
| Content.InteriorSource | Game/src/contents/Content.cs:50-57 | a non-border byte of the padded buffer reads an in-range source pixel, one column and one row up-left |
| Content.GroupByte | Game/src/contents/Content.cs:49-62 | a padded border group is all zero and an interior group copies the four source bytes; the loop step stays in bounds and aligned |
| Content.ExtendGroup | Game/src/contents/Content.cs:58-61 | writing one group's four bytes extends the finished prefix by four |
| Content.PadAlphaBorder | Game/src/contents/Content.cs:44-63 | the padded buffer has 4*(w+2)*(h+2) bytes, each the zero border or the copied source byte |
| Content.PaddedPixel | Game/src/contents/Content.cs:49-52 | padded pixel (x, y) lies in the buffer and the loop's coordinates recover (x, y) |
| Content.PaddedBorderIsZero | Game/src/contents/Content.cs:48-50 | every byte of a border pixel of the padded image is zero |
| Content.PaddedInteriorIsSource | Game/src/contents/Content.cs:51-61 | padded pixel (x+1, y+1) equals source pixel (x, y) in all four channels |
| Content.PaddedBytesFrame | Game/src/contents/Content.cs:44-63 | the padded buffer is the source framed by a one-pixel transparent border |
| Content.MakeSpriteTexture | Game/src/contents/Content.cs:26-70 | an image with a transparent border pixel becomes a (w+2) x (h+2) texture framing it; any other image is kept with its dimensions and bytes |
| FontBakerResults.NewAsWritten | Game/src/contents/font/FontBakerResult.cs:11-30 | construction succeeds exactly when glyphs and bitmap are present, both dimensions are positive and the bitmap is at least the 32-bit-wrapped product long; on success the four properties equal the arguments |
| FontBakerResults.AsWrittenAcceptsShortBitmap | Game/src/contents/font/FontBakerResult.cs:24-25 | a 65536 x 65536 request with an empty bitmap passes every check, yet the bitmap does not cover the area |
| FontBakerResults.New | Game/src/contents/font/FontBakerResult.cs:11-30 | with the true product, each ordered failure gives its own exception and success guarantees the bitmap covers width x height |
| FontBakerResults.NewAcceptsExactlyValid | Game/src/contents/font/FontBakerResult.cs:11-30 | the corrected constructor succeeds exactly when both arguments are present, both dimensions are positive and the bitmap covers the area |
| FontBakerResults.AgreeWhenAreaFits | Game/src/contents/font/FontBakerResult.cs:24 | whenever width x height fits in 32 bits the written and corrected constructors agree |

## Left out

**Float and render code**
- `visPos`/`visualPos` and their lerps, `Vector2Fp.FromFloat`/`ToV2`, `Map.TileIndicesToWorldPos`, the draw positions, vanishing points and float colliders of `IsoGrid`, `CircleCollider.ToBounds`/`ConvexCollider.ToBounds`, and the float helpers of `Util.cs` (`Lerp`, `DegToRad`, `RadToDeg`): float values that only feed rendering.
- `IsoGrid.MapPosToWorldPos`: goes through `float`, so it is the parameter `mapToWorld` of `IsoGrids.NewIsoGrid`.
- `IsoGrid.WorldPosToMapPos` plus the floor in `IsoTileIndexFromWorldPos`: goes through `float`, so it is the parameter `mapCell` of `GameModeGame.TileIndexOf`. The bounds check and flat index after it are modelled.
- The building tiles' `floorConvexCollider`s: built from float world positions, so they are an input (`Terrain.floorColliders`).
- The step `F64.FromFloat(0.1f)` of the Raylib `DoTurn`: a float conversion, so it is the parameter `speed`.
- `ConvexCollider.SortPointsIntoClockWiseOrder`: `Array.Sort` with an `Atan2` comparator whose order FixPointCS decides. It is not called by the modelled code.

**FixPointCS and outside state**
- The FixPointCS arithmetic kernels (`Mul`, `Div`, `RSqrt`, `RSqrtFast`, the distance kernel): not part of this model, so they are uninterpreted functions (`FixedOps`). Properties that hold whatever they return are proved; none about their numeric values.
- RaylibMap.FloorToInt: modelled concretely, not as an uninterpreted kernel. It is the arithmetic shift `raw >> 32`, that is floor(raw / 2^32), written as Dafny's Euclidean division by 2^32, which agrees with the shift on every 64-bit value. `FromInt` is likewise the exact shift `n << 32`.
- `UpdateTick`'s turn timer (`turnAccumulator`, a float `dt`): the model starts at the `CanTurn` test of the turn block.

**I/O and networking**
- `Engine.NetworkSendPacket`: returned as `UpdateTurn`'s `sent` packet instead of being sent.
- Receiving remote turns (`NetworkPacketReceived`), `GameClient`, `Server`: ENet I/O outside the core.
- The file read and the Stbi decode in `Content.LoadSpriteTexture`: the decoded width, height, channel count and bytes are parameters. The GL upload of the texture, and font and sound loading, are foreign calls.

**Raylib `Map.cs` code outside the core**
- `Map.Create`, `SpawnGeneral`, `SpawnTownCenter`, `SpawnResource1Node`, `SpawnResource2Node`, `SelectionContainsEntityType` and the player resources: scripted setup and UI queries built from the modelled `SpawnEntity`, `TileMarkAsWalkable` and `LookUpEntityFromId` plus float positions.
- `IsoGrid.Fill`: a render-only sprite assignment.

**Control flow with no model**
- The INVALID and default branches of `MapApplyAction`: they only log, and no `Action` value reaches them.
- The commented-out entity-vs-entity push in `MapTick`: not code.
- The `ByteOps` id and vector helpers are commented out in the source, yet the action classes call them. They are modelled from the commented bodies.
- A `null` flow field of an entity with no destination: the empty sequence.
- `Debug.Assert`s, out-of-range indexing and dequeuing from an empty queue are preconditions, not behaviour. This covers:
  - `SyncQueues.GetNextTurn`/`FinishTurn` on empty queues;
  - `RaylibMap.LookUpEntityFromId` with an index outside the table;
  - `GameModeGame.MapApplySpawnEntity` on a full table;
  - the asserts heading `DoTurn` and `MapTick`;
  - `PlaceTile`'s bounds;
  - `TileMarkAsWalkable`'s upper bounds, plus non-negative lower bounds for the array access.

**Contracts stated weaker or narrower than the source**
- FlowFields.PathFind: requires a grid built by the constructor (every tile carries its own indices), which is the only kind the game creates. It proves that a tile's parent was reached before it, so following parents ends at the destination, rather than that the BFS depth drops by exactly one per step.
- FlowFields.PathFind: also returns the queue's contents (`visitOrder`), the order in which tiles were reached, which the source's `Queue` holds but does not return.
- GameModeGame.PushOut: states only that a worker with no BLOCKED tile around is not moved, not the exact accumulated push, which depends on FixPointCS's `Normalize` and `Mul` through `CircleVsConvex`.
- GameModeGame.CollideWithBlocked: states that only workers' positions change, not by how much, for the same reason.
- GameModeGame.MapTick: the post-collision positions are related to the update loop's result only through `Pushed`, for the same reason.
- Content.PadAlphaBorder: requires the padded size 4·(w+2)·(h+2) to fit in an `int`; the overflowing `paddedSize` of a huge image is not modelled.
- Content.MakeSpriteTexture: requires the same.
- IsoGrids.NewIsoGrid: requires w·h to fit in an `int` (`new IsoTile[wc * hc]`). It also requires w > 0, so the empty zero-width grid is not modelled: every use of the grid divides by `widthCount`.
- RaylibTurn.DoTurn: runs only the two selection actions. `MapAction_MoveUnits` has no `Apply` in that generation. Its entity switch requires known entity types, because the default case asserts.

## Findings

| source | as written | input that shows it | evidently intended | confidence | as-written member | corrected member |
|---|---|---|---|---|---|---|
| Game/src/game/actions/MapActionSelectionGatherResource.cs:9-11 | `GetMapActionType` of the gather action returns `SELECTION_MOVE`, and `MapTurn.SerializeToBytes` writes that tag, so a gather goes out tagged as a move | any `MapActionSelectionGatherResource`; its unit test (GameTests/src/game/actions/MapActionSelectionGatherResourceTests.cs:13-16) expects `SELECTION_GATHER_RESOURCE` | the gather action reports `SELECTION_GATHER_RESOURCE`, so a receiver can tell it from a move | not executed | Actions.GatherResourceTagCollides | Actions.ActionTag |
| Game/src/game/map/MapTurn.cs:31-51 | `SerializeFromBytes` reads the action count and tags but, with the per-tag decoders commented out, appends nothing | a turn holding one `SelectionMove` action, serialised and decoded from offset 2, arrives with no actions | decoding inverts `SerializeToBytes`, actions included | not executed | MapTurns.AsWrittenDropsActions | MapTurns.DecodeTurnRoundTrip |
| Game/src/contents/font/FontBakerResult.cs:24-25 | `bitmap.Length < width * height` multiplies in 32-bit `int`, which wraps | width = height = 65536 with an empty bitmap: the area wraps to 0 and the constructor accepts it | reject any bitmap shorter than the true area | not executed | FontBakerResults.AsWrittenAcceptsShortBitmap | FontBakerResults.NewAcceptsExactlyValid |
