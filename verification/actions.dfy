/**
 * The map actions carried by a turn and their wire payloads: the
 * MoveUnits action of map/MapAction.cs and the two selection actions of
 * actions/MapActionSelectionMove.cs and actions/MapActionSelectionGatherResource.cs.
 * The two generations declare two different `MapActionType` enums; both are
 * modelled, each with its own ordinals.
 */
module Actions {
  import opened IntWidth
  import opened Wrappers
  import opened EntityIds
  import opened FixedVec
  import opened ByteOps

  /** `MapActionType` of map/MapAction.cs. */
  datatype UnitActionType = UnitInvalid | MoveUnits | UnitGatherResource

  /** `MapActionType` of actions/MapAction.cs. */
  datatype SelectionActionType = SelectionInvalid | SelectionMove | SelectionGatherResource

  /** The C# ordinal of a map/ tag. */
  function UnitTag(t: UnitActionType): int {
    match t
    case UnitInvalid => 0
    case MoveUnits => 1
    case UnitGatherResource => 2
  }

  /** The C# ordinal of an actions/ tag. */
  function SelectionTag(t: SelectionActionType): int {
    match t
    case SelectionInvalid => 0
    case SelectionMove => 1
    case SelectionGatherResource => 2
  }

  /** Reading an actions/ tag back from its ordinal; anything else is not a member. */
  function SelectionTypeFromTag(n: int): (r: Option<SelectionActionType>)
    ensures r.Some? <==> 0 <= n <= 2
    ensures r.Some? ==> SelectionTag(r.value) == n
  {
    if n == 0 then Some(SelectionInvalid)
    else if n == 1 then Some(SelectionMove)
    else if n == 2 then Some(SelectionGatherResource)
    else None
  }

  /** Each tag set is closed: three members, ordinals 0, 1, 2, pairwise distinct. */
  lemma TagSetsClosed(t: SelectionActionType, u: UnitActionType)
    ensures SelectionTypeFromTag(SelectionTag(t)) == Some(t)
    ensures 0 <= SelectionTag(t) <= 2 && 0 <= UnitTag(u) <= 2
    ensures forall a: SelectionActionType, b: SelectionActionType :: SelectionTag(a) == SelectionTag(b) ==> a == b
    ensures forall a: UnitActionType, b: UnitActionType :: UnitTag(a) == UnitTag(b) ==> a == b
  {
  }

  /** One action of a turn. */
  datatype Action =
      /**
       * `MapAction_MoveUnits`. `destIndex` is not declared by map/MapAction.cs
       * but is the field modes/GameModeGame.cs writes and reads; it is not
       * part of the wire payload.
       */
    | MoveUnitsAction(entId: EntityId, destination: Vec2, destIndex: Int32)
    | SelectionMoveAction(entityIds: seq<EntityId>, target: Vec2)
    | GatherResourceAction(entityIds: seq<EntityId>, resourceNodeId: EntityId)

  /** What `MapActionSelectionGatherResource.GetMapActionType` returns as written. */
  function GatherResourceTypeAsWritten(): SelectionActionType {
    SelectionMove
  }

  /**
   * As written, the gather action announces itself as a move, so its tag is
   * indistinguishable from a SelectionMove on the wire, and the unit test's
   * expectation fails.
   */
  lemma GatherResourceTagCollides()
    ensures GatherResourceTypeAsWritten() != SelectionGatherResource
    ensures SelectionTag(GatherResourceTypeAsWritten()) == SelectionTag(SelectionMove)
  {
  }

  /** `GetMapActionType` of each action class, with the gather tag corrected. */
  function ActionTag(a: Action): (r: int)
    ensures a.MoveUnitsAction? ==> r == UnitTag(MoveUnits)
    ensures a.SelectionMoveAction? ==> r == SelectionTag(SelectionMove)
    ensures a.GatherResourceAction? ==> r == SelectionTag(SelectionGatherResource)
    ensures !a.MoveUnitsAction? ==> SelectionTypeFromTag(r).Some?
  {
    match a
    case MoveUnitsAction(_, _, _) => UnitTag(MoveUnits)
    case SelectionMoveAction(_, _) => SelectionTag(SelectionMove)
    case GatherResourceAction(_, _) => SelectionTag(SelectionGatherResource)
  }

  /** `GetMapActionType` of each action class as written: the gather action reports a move. */
  function ActionTagAsWritten(a: Action): (r: int)
    ensures a.GatherResourceAction? ==> r == SelectionTag(SelectionMove)
    ensures r == ActionTag(a) <==> !a.GatherResourceAction?
  {
    match a
    case MoveUnitsAction(_, _, _) => UnitTag(MoveUnits)
    case SelectionMoveAction(_, _) => SelectionTag(SelectionMove)
    case GatherResourceAction(_, _) => SelectionTag(GatherResourceTypeAsWritten())
  }

  /** Which tag an encoder writes: the program's as written, or the one the unit test expects. */
  datatype Tagging = AsWritten | Corrected

  function TagOf(k: Tagging, a: Action): int {
    if k == AsWritten then ActionTagAsWritten(a) else ActionTag(a)
  }

  /** Only the selection actions have an id list; its length is a C# array length. */
  predicate Encodable(a: Action) {
    !a.MoveUnitsAction? ==> |a.entityIds| <= INT_MAX
  }

  /** A Scoop result that holds `a` and ends at `next`. */
  predicate ReadsAs(r: Option<(Action, nat)>, a: Action, next: int) {
    r.Some? && r.value.0 == a && r.value.1 == next
  }

  /** The bytes of an id list: each id in order, 8 bytes apiece. */
  function IdsBytes(ids: seq<EntityId>): (r: seq<Byte>)
    ensures |r| == 8 * |ids|
    decreases |ids|
  {
    if |ids| == 0 then [] else EntityIdBytes(ids[0]) + IdsBytes(ids[1..])
  }

  /**
   * The bytes each action class's `Plonk` appends: 24 bytes for MoveUnits;
   * for the selections the id count, 8 bytes per id, then 16 (target) or 8
   * (resource node) bytes.
   */
  function Payload(a: Action): (r: seq<Byte>)
    requires Encodable(a)
    ensures a.MoveUnitsAction? ==> |r| == 24
    ensures a.SelectionMoveAction? ==> |r| == 4 + 8 * |a.entityIds| + 16
    ensures a.GatherResourceAction? ==> |r| == 4 + 8 * |a.entityIds| + 8
  {
    match a
    case MoveUnitsAction(entId, destination, _) =>
      EntityIdBytes(entId) + Vec2Bytes(destination)
    case SelectionMoveAction(ids, target) =>
      BytesOf(|ids|, 4) + IdsBytes(ids) + Vec2Bytes(target)
    case GatherResourceAction(ids, resourceNodeId) =>
      BytesOf(|ids|, 4) + IdsBytes(ids) + EntityIdBytes(resourceNodeId)
  }

  /** The per-id loop of the selection actions' Plonk. */
  function PlonkIds(data: seq<Byte>, ids: seq<EntityId>): (r: seq<Byte>)
    ensures r == data + IdsBytes(ids)
    decreases |ids|
  {
    if |ids| == 0 then data
    else
      Append3(data, EntityIdBytes(ids[0]), IdsBytes(ids[1..]));
      PlonkIds(PlonkEntityId(data, ids[0]), ids[1..])
  }

  /** Each action class's `Plonk`: its fields appended in declaration order. */
  function Plonk(data: seq<Byte>, a: Action): (r: seq<Byte>)
    requires Encodable(a)
    ensures r == data + Payload(a)
  {
    match a
    case MoveUnitsAction(entId, destination, _) =>
      Append3(data, EntityIdBytes(entId), Vec2Bytes(destination));
      PlonkVector2Fp(PlonkEntityId(data, entId), destination)
    case SelectionMoveAction(ids, target) =>
      Append4(data, BytesOf(|ids|, 4), IdsBytes(ids), Vec2Bytes(target));
      PlonkVector2Fp(PlonkIds(PlonkInt(data, |ids|), ids), target)
    case GatherResourceAction(ids, resourceNodeId) =>
      Append4(data, BytesOf(|ids|, 4), IdsBytes(ids), EntityIdBytes(resourceNodeId));
      PlonkEntityId(PlonkIds(PlonkInt(data, |ids|), ids), resourceNodeId)
  }

  /**
   * The per-id loop of the selection actions' Scoop, reading `count` ids from
   * `offset`; None where the source would read past the end. The loop ends at
   * `offset + 8 * count`.
   */
  function ScoopIds(data: seq<Byte>, offset: nat, count: nat): (r: Option<seq<EntityId>>)
    ensures r.Some? <==> offset + 8 * count <= |data|
    ensures r.Some? ==> |r.value| == count
    decreases count
  {
    if count == 0 then (if offset <= |data| then Some([]) else None)
    else if offset + 8 > |data| then None
    else
      var id := ScoopEntityId(data, offset).0;
      match ScoopIds(data, offset + 8, count - 1)
      case None => None
      case Some(rest) => Some([id] + rest)
  }

  /**
   * `MoveUnits.Scoop`: the entity id, then the destination. The result keeps
   * the `destIndex` of the object Scoop is called on.
   */
  function ScoopMoveUnits(data: seq<Byte>, offset: nat, priorDestIndex: Int32): (r: Option<(Action, nat)>)
    ensures r.Some? <==> offset + 24 <= |data|
    ensures r.Some? ==>
      r.value.0.MoveUnitsAction? && r.value.0.destIndex == priorDestIndex && r.value.1 == offset + 24
  {
    if offset + 24 > |data| then None
    else
      var id := ScoopEntityId(data, offset).0;
      var dest := ScoopVector2Fp(data, offset + 8).0;
      Some((MoveUnitsAction(id, dest, priorDestIndex), offset + 24))
  }

  /** Reads the id count and the ids; a negative count makes `new EntityId[count]` throw. */
  function ScoopCountedIds(data: seq<Byte>, offset: nat): (r: Option<seq<EntityId>>)
    ensures r.Some? ==> offset + 4 + 8 * |r.value| <= |data| && |r.value| <= INT_MAX
  {
    if offset + 4 > |data| then None
    else
      var count := ScoopInt(data, offset).0;
      if count < 0 then None else ScoopIds(data, offset + 4, count)
  }

  /** `MapActionSelectionMove.Scoop`. */
  function ScoopSelectionMove(data: seq<Byte>, offset: nat): (r: Option<(Action, nat)>)
    ensures r.Some? ==>
      r.value.0.SelectionMoveAction? && Encodable(r.value.0) && r.value.1 == offset + 4 + 8 * |r.value.0.entityIds| + 16 <= |data|
  {
    match ScoopCountedIds(data, offset)
    case None => None
    case Some(ids) =>
      var o1 := offset + 4 + 8 * |ids|;
      if o1 + 16 > |data| then None
      else Some((SelectionMoveAction(ids, ScoopVector2Fp(data, o1).0), o1 + 16))
  }

  /** `MapActionSelectionGatherResource.Scoop`. */
  function ScoopGatherResource(data: seq<Byte>, offset: nat): (r: Option<(Action, nat)>)
    ensures r.Some? ==>
      r.value.0.GatherResourceAction? && Encodable(r.value.0) && r.value.1 == offset + 4 + 8 * |r.value.0.entityIds| + 8 <= |data|
  {
    match ScoopCountedIds(data, offset)
    case None => None
    case Some(ids) =>
      var o1 := offset + 4 + 8 * |ids|;
      if o1 + 8 > |data| then None
      else Some((GatherResourceAction(ids, ScoopEntityId(data, o1).0), o1 + 8))
  }

  // ------------------------------------------------------------ laws

  lemma Append4(p: seq<Byte>, a: seq<Byte>, b: seq<Byte>, c: seq<Byte>)
    ensures p + a + b + c == p + (a + b + c)
  {
  }

  /** The id loop reads back, in order, every id the Plonk loop wrote, whatever surrounds them. */
  lemma {:induction false} IdsAt(w: seq<Byte>, o: nat, pre: seq<Byte>, ids: seq<EntityId>, post: seq<Byte>)
    requires w == pre + IdsBytes(ids) + post && o == |pre|
    ensures ScoopIds(w, o, |ids|) == Some(ids)
    decreases |ids|
  {
    if |ids| > 0 {
      var e, rest := EntityIdBytes(ids[0]), IdsBytes(ids[1..]);
      Reassociate(pre, e, rest, post);
      EntityIdAt(w, o, pre, ids[0], rest + post);
      IdsAt(w, o + 8, pre + e, ids[1..], post);
      ScoopIdsCons(w, o, |ids|, ids[0], ids[1..]);
      assert [ids[0]] + ids[1..] == ids;
    }
  }

  /** One step of the id loop: the first id, then the remaining ones. */
  lemma ScoopIdsCons(w: seq<Byte>, o: nat, n: nat, id: EntityId, rest: seq<EntityId>)
    requires n == |rest| + 1 && o + 8 <= |w|
    requires ScoopEntityId(w, o).0 == id && ScoopIds(w, o + 8, |rest|) == Some(rest)
    ensures ScoopIds(w, o, n) == Some([id] + rest)
  {
  }

  /** The count in front of an id list, and the list, read back. */
  lemma CountedIdsAt(w: seq<Byte>, o: nat, pre: seq<Byte>, ids: seq<EntityId>, post: seq<Byte>)
    requires |ids| <= INT_MAX
    requires w == pre + (BytesOf(|ids|, 4) + IdsBytes(ids)) + post && o == |pre|
    ensures ScoopCountedIds(w, o) == Some(ids)
  {
    var c, b := BytesOf(|ids|, 4), IdsBytes(ids);
    Reassociate(pre, c, b, post);
    IntAt(w, o, pre, |ids|, b + post);
    IdsAt(w, o + 4, pre + c, ids, post);
  }

  /** MoveUnits reads back from its payload: id and destination; `destIndex` is kept from the receiver. */
  lemma MoveUnitsAt(w: seq<Byte>, o: nat, pre: seq<Byte>, a: Action, post: seq<Byte>)
    requires a.MoveUnitsAction? && w == pre + Payload(a) + post && o == |pre|
    ensures ReadsAs(ScoopMoveUnits(w, o, a.destIndex), a, o + |Payload(a)|)
  {
    var e, v := EntityIdBytes(a.entId), Vec2Bytes(a.destination);
    assert Payload(a) == e + v;
    Reassociate(pre, e, v, post);
    EntityIdAt(w, o, pre, a.entId, v + post);
    Vector2FpAt(w, o + 8, pre + e, a.destination, post);
  }

  /** SelectionMove reads back from its payload: ids (length and contents) and target. */
  lemma SelectionMoveAt(w: seq<Byte>, o: nat, pre: seq<Byte>, a: Action, post: seq<Byte>)
    requires a.SelectionMoveAction? && Encodable(a) && w == pre + Payload(a) + post && o == |pre|
    ensures ReadsAs(ScoopSelectionMove(w, o), a, o + |Payload(a)|)
  {
    var h, v := BytesOf(|a.entityIds|, 4) + IdsBytes(a.entityIds), Vec2Bytes(a.target);
    assert Payload(a) == h + v;
    Reassociate(pre, h, v, post);
    CountedIdsAt(w, o, pre, a.entityIds, v + post);
    var o1 := |pre + h|;
    Vector2FpAt(w, o1, pre + h, a.target, post);
    SelectionMoveUnfold(w, o, o1, a);
  }

  lemma SelectionMoveUnfold(w: seq<Byte>, o: nat, o1: int, a: Action)
    requires a.SelectionMoveAction? && o1 == o + 4 + 8 * |a.entityIds| && o1 + 16 <= |w|
    requires ScoopCountedIds(w, o) == Some(a.entityIds)
    requires ScoopVector2Fp(w, o1).0 == a.target
    ensures ReadsAs(ScoopSelectionMove(w, o), a, o1 + 16)
  {
    assert a == SelectionMoveAction(a.entityIds, a.target);
  }

  /** The gather action reads back from its payload: ids and resource node. */
  lemma GatherResourceAt(w: seq<Byte>, o: nat, pre: seq<Byte>, a: Action, post: seq<Byte>)
    requires a.GatherResourceAction? && Encodable(a) && w == pre + Payload(a) + post && o == |pre|
    ensures ReadsAs(ScoopGatherResource(w, o), a, o + |Payload(a)|)
  {
    var h, e := BytesOf(|a.entityIds|, 4) + IdsBytes(a.entityIds), EntityIdBytes(a.resourceNodeId);
    assert Payload(a) == h + e;
    Reassociate(pre, h, e, post);
    CountedIdsAt(w, o, pre, a.entityIds, e + post);
    var o1 := |pre + h|;
    EntityIdAt(w, o1, pre + h, a.resourceNodeId, post);
    GatherResourceUnfold(w, o, o1, a);
  }

  lemma GatherResourceUnfold(w: seq<Byte>, o: nat, o1: int, a: Action)
    requires a.GatherResourceAction? && o1 == o + 4 + 8 * |a.entityIds| && o1 + 8 <= |w|
    requires ScoopCountedIds(w, o) == Some(a.entityIds)
    requires ScoopEntityId(w, o1).0 == a.resourceNodeId
    ensures ReadsAs(ScoopGatherResource(w, o), a, o1 + 8)
  {
    assert a == GatherResourceAction(a.entityIds, a.resourceNodeId);
  }

  /** Scoop is the inverse of Plonk for MoveUnits, whatever follows in the buffer. */
  lemma MoveUnitsRoundTrip(data: seq<Byte>, a: Action, tail: seq<Byte>)
    requires a.MoveUnitsAction?
    ensures ReadsAs(ScoopMoveUnits(Plonk(data, a) + tail, |data|, a.destIndex), a, |Plonk(data, a)|)
  {
    MoveUnitsAt(Plonk(data, a) + tail, |data|, data, a, tail);
  }

  /** Scoop is the inverse of Plonk for SelectionMove, whatever follows in the buffer. */
  lemma SelectionMoveRoundTrip(data: seq<Byte>, a: Action, tail: seq<Byte>)
    requires a.SelectionMoveAction? && Encodable(a)
    ensures ReadsAs(ScoopSelectionMove(Plonk(data, a) + tail, |data|), a, |Plonk(data, a)|)
  {
    SelectionMoveAt(Plonk(data, a) + tail, |data|, data, a, tail);
  }

  /** Scoop is the inverse of Plonk for the gather action, whatever follows in the buffer. */
  lemma GatherResourceRoundTrip(data: seq<Byte>, a: Action, tail: seq<Byte>)
    requires a.GatherResourceAction? && Encodable(a)
    ensures ReadsAs(ScoopGatherResource(Plonk(data, a) + tail, |data|), a, |Plonk(data, a)|)
  {
    GatherResourceAt(Plonk(data, a) + tail, |data|, data, a, tail);
  }
}
