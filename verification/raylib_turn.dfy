/**
 * What a turn does to the Raylib-generation map: the `Apply` of the two
 * selection actions (actions/MapActionSelectionMove.cs and
 * actions/MapActionSelectionGatherResource.cs) and `Map.DoTurn`, which runs
 * player 1's actions, then player 2's, then moves every general one step
 * toward its target and advances the turn counter.
 */
module RaylibTurn {
  import opened IntWidth
  import opened Wrappers
  import opened EntityIds
  import opened FixedVec
  import opened RaylibEntities
  import opened RaylibMap
  import opened Actions
  import opened MapTurns

  /** Every id indexes the table: `LookUpEntityFromId` throws otherwise. */
  predicate IdsInTable(ids: seq<EntityId>) {
    forall k :: 0 <= k < |ids| ==> 0 <= ids[k].index < ENTITY_CAPACITY
  }

  /** An action this generation can apply to a table of the right size. */
  predicate Applicable(entities: seq<Option<Entity>>, a: Action) {
    |entities| == ENTITY_CAPACITY && IsSelectionAction(a) && IdsInTable(a.entityIds)
    && (a.GatherResourceAction? ==> 0 <= a.resourceNodeId.index < ENTITY_CAPACITY)
  }

  predicate AllApplicable(entities: seq<Option<Entity>>, acts: seq<Action>) {
    forall i :: 0 <= i < |acts| ==> Applicable(entities, acts[i])
  }

  /** `id` names the entity in slot `j`: right index, occupied, same generation. */
  predicate ResolvesTo(entities: seq<Option<Entity>>, id: EntityId, j: int) {
    0 <= j < |entities| && id.index == j && entities[j].Some? && entities[j].value.id.generation == id.generation
  }

  /** Some id of the list names slot `j`. */
  predicate Named(entities: seq<Option<Entity>>, ids: seq<EntityId>, j: int) {
    exists k :: 0 <= k < |ids| && ResolvesTo(entities, ids[k], j)
  }

  /** Two tables whose slots hold the same ids resolve every id the same way. */
  predicate SameIds(a: seq<Option<Entity>>, b: seq<Option<Entity>>) {
    |a| == |b| && forall j :: 0 <= j < |a| ==> a[j].Some? == b[j].Some? && (a[j].Some? ==> a[j].value.id == b[j].value.id)
  }

  // ------------------------------------------------------------ SelectionMove

  /** `MapActionSelectionMove.Apply`: every id that resolves gets the action's target. */
  function ApplySelectionMove(entities: seq<Option<Entity>>, ids: seq<EntityId>, target: Vec2): (r: seq<Option<Entity>>)
    requires |entities| == ENTITY_CAPACITY && IdsInTable(ids)
    ensures |r| == ENTITY_CAPACITY
    decreases |ids|
  {
    if |ids| == 0 then entities
    else
      var e := LookUpEntityFromId(entities, ids[0]);
      var next := if e.Some? then entities[ids[0].index := Some(e.value.(target := target))] else entities;
      ApplySelectionMove(next, ids[1..], target)
  }

  /**
   * The entities named by the action get the target and nothing else;
   * every other slot, and every unresolved id, leaves the table as it was.
   */
  lemma {:induction false} ApplySelectionMoveSpec(entities: seq<Option<Entity>>, ids: seq<EntityId>, target: Vec2)
    requires |entities| == ENTITY_CAPACITY && IdsInTable(ids)
    ensures SameIds(ApplySelectionMove(entities, ids, target), entities)
    ensures forall j :: 0 <= j < |entities| ==>
      ApplySelectionMove(entities, ids, target)[j]
        == (if Named(entities, ids, j) then Some(entities[j].value.(target := target)) else entities[j])
    decreases |ids|
  {
    if |ids| > 0 {
      var e := LookUpEntityFromId(entities, ids[0]);
      var next := if e.Some? then entities[ids[0].index := Some(e.value.(target := target))] else entities;
      ApplySelectionMoveSpec(next, ids[1..], target);
      forall j | 0 <= j < |entities|
        ensures Named(next, ids[1..], j) <==> Named(entities, ids[1..], j)
        ensures Named(entities, ids, j) <==> ResolvesTo(entities, ids[0], j) || Named(entities, ids[1..], j)
      {
        if Named(entities, ids, j) && !ResolvesTo(entities, ids[0], j) {
          var k :| 0 <= k < |ids| && ResolvesTo(entities, ids[k], j);
          assert ids[1..][k - 1] == ids[k];
        }
        if Named(entities, ids[1..], j) {
          var k :| 0 <= k < |ids[1..]| && ResolvesTo(entities, ids[1..][k], j);
          assert ids[k + 1] == ids[1..][k];
          assert ResolvesTo(next, ids[1..][k], j);
        }
        if Named(next, ids[1..], j) {
          var k :| 0 <= k < |ids[1..]| && ResolvesTo(next, ids[1..][k], j);
          assert ResolvesTo(entities, ids[1..][k], j);
        }
      }
    }
  }

  /** Applying the same SelectionMove twice gives the table applying it once gives. */
  lemma ApplySelectionMoveIdempotent(entities: seq<Option<Entity>>, ids: seq<EntityId>, target: Vec2)
    requires |entities| == ENTITY_CAPACITY && IdsInTable(ids)
    ensures ApplySelectionMove(ApplySelectionMove(entities, ids, target), ids, target)
         == ApplySelectionMove(entities, ids, target)
  {
    var once := ApplySelectionMove(entities, ids, target);
    ApplySelectionMoveSpec(entities, ids, target);
    ApplySelectionMoveSpec(once, ids, target);
    forall j | 0 <= j < |entities|
      ensures ApplySelectionMove(once, ids, target)[j] == once[j]
    {
      NamedDependsOnIds(entities, once, ids, j);
    }
  }

  /** Resolution depends only on which ids the slots hold. */
  lemma NamedDependsOnIds(a: seq<Option<Entity>>, b: seq<Option<Entity>>, ids: seq<EntityId>, j: int)
    requires SameIds(a, b)
    ensures Named(a, ids, j) <==> Named(b, ids, j)
  {
    if Named(a, ids, j) {
      var k :| 0 <= k < |ids| && ResolvesTo(a, ids[k], j);
      assert ResolvesTo(b, ids[k], j);
    }
    if Named(b, ids, j) {
      var k :| 0 <= k < |ids| && ResolvesTo(b, ids[k], j);
      assert ResolvesTo(a, ids[k], j);
    }
  }

  // ------------------------------------------------------------ GatherResource

  /** Half a world unit in each direction, through the FixPointCS divide. */
  function HalfUnit(ops: FixedOps): Vec2 {
    Vec2(Div(ops, FromInt(WORLD_WIDTH_UNITS), FromInt(2)), Div(ops, FromInt(WORLD_HEIGHT_UNITS), FromInt(2)))
  }

  /** `resource.pos` plus half a tile in each direction: the offset from the node is exactly that half unit. */
  function GatherPoint(ops: FixedOps, resource: Entity): (r: Vec2)
    ensures Sub(r, resource.pos) == HalfUnit(ops)
  {
    var half := HalfUnit(ops);
    AddThenSub(half.rawX, resource.pos.rawX);
    AddThenSub(half.rawY, resource.pos.rawY);
    Add(resource.pos, half)
  }

  /** The target a general gets: 25 units from `p`, on the side the general stands. */
  function GatherTarget(ops: FixedOps, p: Vec2, e: Entity): Vec2 {
    var dir := Sub(e.pos, p);
    var dir := Normalize(ops, dir);
    var dir := Scale(ops, dir, FromInt(25));
    Add(p, dir)
  }

  /** The target lies `p` plus 25 times the normalised direction from `p` toward the general, whatever wrapped. */
  lemma GatherTargetOffset(ops: FixedOps, p: Vec2, e: Entity)
    ensures Sub(GatherTarget(ops, p, e), p) == Scale(ops, Normalize(ops, Sub(e.pos, p)), FromInt(25))
  {
    var dir := Scale(ops, Normalize(ops, Sub(e.pos, p)), FromInt(25));
    assert GatherTarget(ops, p, e) == Add(p, dir) == Add(dir, p);
    AddSubInverse(dir, p);
  }

  /** The id loop of the gather `Apply`: generals among the resolved ids are retargeted around `p`. */
  function ApplyGatherIds(ops: FixedOps, entities: seq<Option<Entity>>, ids: seq<EntityId>, p: Vec2)
    : (r: seq<Option<Entity>>)
    requires |entities| == ENTITY_CAPACITY && IdsInTable(ids)
    ensures |r| == ENTITY_CAPACITY
    decreases |ids|
  {
    if |ids| == 0 then entities
    else
      var e := LookUpEntityFromId(entities, ids[0]);
      var next := if e.Some? && e.value.entityType == General
        then entities[ids[0].index := Some(e.value.(target := GatherTarget(ops, p, e.value)))]
        else entities;
      ApplyGatherIds(ops, next, ids[1..], p)
  }

  /** `MapActionSelectionGatherResource.Apply`: nothing happens unless the resource node resolves. */
  function ApplyGatherResource(ops: FixedOps, entities: seq<Option<Entity>>, ids: seq<EntityId>, node: EntityId)
    : (r: seq<Option<Entity>>)
    requires |entities| == ENTITY_CAPACITY && IdsInTable(ids) && 0 <= node.index < ENTITY_CAPACITY
    ensures |r| == ENTITY_CAPACITY
    ensures LookUpEntityFromId(entities, node).None? ==> r == entities
  {
    var resource := LookUpEntityFromId(entities, node);
    if resource.None? then entities
    else ApplyGatherIds(ops, entities, ids, GatherPoint(ops, resource.value))
  }

  /** A slot the gather loop retargets: named by an id and holding a general. */
  predicate NamedGeneral(entities: seq<Option<Entity>>, ids: seq<EntityId>, j: int) {
    Named(entities, ids, j) && entities[j].value.entityType == General
  }

  /**
   * Only generals named by the action change, and only their target, which
   * becomes `p + Normalize(pos - p) * 25`; everything else is unchanged.
   */
  lemma {:induction false} ApplyGatherIdsSpec(ops: FixedOps, entities: seq<Option<Entity>>, ids: seq<EntityId>, p: Vec2)
    requires |entities| == ENTITY_CAPACITY && IdsInTable(ids)
    ensures SameIds(ApplyGatherIds(ops, entities, ids, p), entities)
    ensures forall j :: 0 <= j < |entities| ==>
      ApplyGatherIds(ops, entities, ids, p)[j]
        == (if NamedGeneral(entities, ids, j)
            then Some(entities[j].value.(target := GatherTarget(ops, p, entities[j].value)))
            else entities[j])
    decreases |ids|
  {
    if |ids| > 0 {
      var e := LookUpEntityFromId(entities, ids[0]);
      var next := if e.Some? && e.value.entityType == General
        then entities[ids[0].index := Some(e.value.(target := GatherTarget(ops, p, e.value)))]
        else entities;
      ApplyGatherIdsSpec(ops, next, ids[1..], p);
      forall j | 0 <= j < |entities|
        ensures Named(next, ids[1..], j) <==> Named(entities, ids[1..], j)
        ensures Named(entities, ids, j) <==> ResolvesTo(entities, ids[0], j) || Named(entities, ids[1..], j)
      {
        assert SameIds(next, entities);
        NamedDependsOnIds(next, entities, ids[1..], j);
        if Named(entities, ids, j) && !ResolvesTo(entities, ids[0], j) {
          var k :| 0 <= k < |ids| && ResolvesTo(entities, ids[k], j);
          assert ids[1..][k - 1] == ids[k];
        }
        if Named(entities, ids[1..], j) {
          var k :| 0 <= k < |ids[1..]| && ResolvesTo(entities, ids[1..][k], j);
          assert ids[k + 1] == ids[1..][k];
        }
      }
    }
  }

  /** Gathering with a node that does not resolve changes nothing, whatever the ids. */
  lemma GatherWithoutNodeIsNoOp(ops: FixedOps, entities: seq<Option<Entity>>, ids: seq<EntityId>, node: EntityId)
    requires |entities| == ENTITY_CAPACITY && IdsInTable(ids) && 0 <= node.index < ENTITY_CAPACITY
    requires entities[node.index].None? || entities[node.index].value.id.generation != node.generation
    ensures ApplyGatherResource(ops, entities, ids, node) == entities
  {
  }

  // ------------------------------------------------------------ turns

  /** Each action's `Apply`. */
  function ApplyAction(ops: FixedOps, entities: seq<Option<Entity>>, a: Action): (r: seq<Option<Entity>>)
    requires Applicable(entities, a)
    ensures |r| == ENTITY_CAPACITY
  {
    match a
    case SelectionMoveAction(ids, target) => ApplySelectionMove(entities, ids, target)
    case GatherResourceAction(ids, node) => ApplyGatherResource(ops, entities, ids, node)
  }

  /** A list of actions, applied in list order. */
  function ApplyActions(ops: FixedOps, entities: seq<Option<Entity>>, acts: seq<Action>): (r: seq<Option<Entity>>)
    requires |entities| == ENTITY_CAPACITY && AllApplicable(entities, acts)
    ensures |r| == ENTITY_CAPACITY
    decreases |acts|
  {
    if |acts| == 0 then entities
    else
      var next := ApplyAction(ops, entities, acts[0]);
      assert AllApplicable(next, acts[1..]) by {
        forall i | 0 <= i < |acts[1..]| ensures Applicable(next, acts[1..][i]) {
          assert acts[1..][i] == acts[i + 1];
        }
      }
      ApplyActions(ops, next, acts[1..])
  }

  /** Applying a concatenation is applying one list, then the other. */
  lemma {:induction false} ApplyActionsAppend(ops: FixedOps, entities: seq<Option<Entity>>, xs: seq<Action>, ys: seq<Action>)
    requires |entities| == ENTITY_CAPACITY && AllApplicable(entities, xs + ys)
    ensures AllApplicable(entities, xs) && AllApplicable(ApplyActions(ops, entities, xs), ys)
    ensures ApplyActions(ops, entities, xs + ys) == ApplyActions(ops, ApplyActions(ops, entities, xs), ys)
    decreases |xs|
  {
    assert forall i :: 0 <= i < |xs| ==> (xs + ys)[i] == xs[i];
    assert forall i :: 0 <= i < |ys| ==> (xs + ys)[|xs| + i] == ys[i];
    if |xs| == 0 {
      assert xs + ys == ys;
    } else {
      var next := ApplyAction(ops, entities, xs[0]);
      assert (xs + ys)[1..] == xs[1..] + ys;
      assert AllApplicable(next, xs[1..] + ys) by {
        forall i | 0 <= i < |xs[1..] + ys| ensures Applicable(next, (xs[1..] + ys)[i]) {
          assert (xs[1..] + ys)[i] == (xs + ys)[i + 1];
        }
      }
      ApplyActionsAppend(ops, next, xs[1..], ys);
    }
  }

  /** `b` is `a` with, at most, new targets: the same slots occupied, and everything but the target kept. */
  predicate Retargeted(a: seq<Option<Entity>>, b: seq<Option<Entity>>) {
    |a| == |b| && forall j :: 0 <= j < |a| ==>
      a[j].Some? == b[j].Some? && (a[j].Some? ==> b[j].value == a[j].value.(target := b[j].value.target))
  }

  /** Each action's `Apply` only retargets entities. */
  lemma ApplyActionRetargets(ops: FixedOps, entities: seq<Option<Entity>>, a: Action)
    requires Applicable(entities, a)
    ensures Retargeted(entities, ApplyAction(ops, entities, a))
  {
    match a
    case SelectionMoveAction(ids, target) =>
      ApplySelectionMoveSpec(entities, ids, target);
    case GatherResourceAction(ids, node) =>
      var resource := LookUpEntityFromId(entities, node);
      if resource.Some? {
        ApplyGatherIdsSpec(ops, entities, ids, GatherPoint(ops, resource.value));
      }
  }

  /** A list of actions only retargets entities, so every slot keeps its id and its kind. */
  lemma {:induction false} ApplyActionsRetarget(ops: FixedOps, entities: seq<Option<Entity>>, acts: seq<Action>)
    requires |entities| == ENTITY_CAPACITY && AllApplicable(entities, acts)
    ensures Retargeted(entities, ApplyActions(ops, entities, acts))
    decreases |acts|
  {
    if |acts| > 0 {
      var next := ApplyAction(ops, entities, acts[0]);
      ApplyActionRetargets(ops, entities, acts[0]);
      assert AllApplicable(next, acts[1..]) by {
        forall i | 0 <= i < |acts[1..]| ensures Applicable(next, acts[1..][i]) {
          assert acts[1..][i] == acts[i + 1];
        }
      }
      ApplyActionsRetarget(ops, next, acts[1..]);
      var last := ApplyActions(ops, next, acts[1..]);
      assert ApplyActions(ops, entities, acts) == last;
      forall j | 0 <= j < |entities| && entities[j].Some?
        ensures last[j].value == entities[j].value.(target := last[j].value.target)
      {
        assert next[j].value == entities[j].value.(target := next[j].value.target);
      }
    }
  }

  /** The entity types `DoTurn`'s switch handles; any other trips its Debug.Assert. */
  predicate KnownTypes(entities: seq<Option<Entity>>) {
    forall j :: 0 <= j < |entities| && entities[j].Some? ==>
      entities[j].value.entityType in {General, BuildingsTownCenter, ResourceR1, ResourceR2}
  }

  /** A general steps `speed` of the way toward its target; other kinds stand still. */
  function MoveEntity(ops: FixedOps, speed: F64, e: Option<Entity>): (r: Option<Entity>)
    ensures r.Some? == e.Some?
    ensures e.Some? ==> r.value == e.value.(pos := r.value.pos)
    ensures e.Some? && e.value.entityType != General ==> r == e
    ensures e.Some? && e.value.entityType == General ==>
      Sub(r.value.pos, e.value.pos) == Scale(ops, Sub(e.value.target, e.value.pos), speed)
  {
    if e.None? then e
    else
      match e.value.entityType
      case General =>
        var step := Scale(ops, Sub(e.value.target, e.value.pos), speed);
        assert Add(e.value.pos, step) == Add(step, e.value.pos);
        AddSubInverse(step, e.value.pos);
        Some(e.value.(pos := Add(e.value.pos, step)))
      case _ => e
  }

  /** The entity update loop of `DoTurn`, slot by slot. */
  function MoveEntities(ops: FixedOps, speed: F64, entities: seq<Option<Entity>>): (r: seq<Option<Entity>>)
    ensures |r| == |entities|
    ensures forall j :: 0 <= j < |r| ==> r[j] == MoveEntity(ops, speed, entities[j])
    decreases |entities|
  {
    if |entities| == 0 then []
    else [MoveEntity(ops, speed, entities[0])] + MoveEntities(ops, speed, entities[1..])
  }

  /** The Debug.Asserts at the head of `DoTurn`, and what its loops need. */
  predicate DoTurnDefined(m: MapState, t1: MapTurn, t2: MapTurn) {
    WellFormed(m) && KnownTypes(m.entities)
    && t1.turnNumber == m.turnNumber && t2.turnNumber == m.turnNumber && t1.checkSum == t2.checkSum
    && AllApplicable(m.entities, t1.actions + t2.actions)
  }

  /**
   * `DoTurn`. `speed` is `F64.FromFloat(0.1f)`, a float conversion that is
   * not part of this model.
   */
  function DoTurn(ops: FixedOps, speed: F64, m: MapState, t1: MapTurn, t2: MapTurn): (r: MapState)
    requires DoTurnDefined(m, t1, t2)
    ensures r.turnNumber == Wrap32(m.turnNumber + 1) && r.tiles == m.tiles
    ensures |r.entities| == ENTITY_CAPACITY
    ensures r.entities == MoveEntities(ops, speed, ApplyActions(ops, m.entities, t1.actions + t2.actions))
    ensures SameIds(r.entities, m.entities) && KnownTypes(r.entities)
  {
    ApplyActionsAppend(ops, m.entities, t1.actions, t2.actions);
    ApplyActionsRetarget(ops, m.entities, t1.actions + t2.actions);
    var afterPlayer1 := ApplyActions(ops, m.entities, t1.actions);
    var afterPlayer2 := ApplyActions(ops, afterPlayer1, t2.actions);
    MapState(Wrap32(m.turnNumber + 1), m.tiles, MoveEntities(ops, speed, afterPlayer2))
  }

  /**
   * Player 1's actions run first: a tick gives the same map as one in which
   * player 1 had sent both lists, its own first, and player 2 nothing.
   */
  lemma DoTurnOrder(ops: FixedOps, speed: F64, m: MapState, t1: MapTurn, t2: MapTurn)
    requires DoTurnDefined(m, t1, t2)
    ensures DoTurnDefined(m, t1.(actions := t1.actions + t2.actions), t2.(actions := []))
    ensures DoTurn(ops, speed, m, t1, t2) == DoTurn(ops, speed, m, t1.(actions := t1.actions + t2.actions), t2.(actions := []))
  {
    var t1' := t1.(actions := t1.actions + t2.actions);
    var t2' := t2.(actions := []);
    assert t1'.actions + t2'.actions == t1.actions + t2.actions;
    ApplyActionsAppend(ops, m.entities, t1.actions, t2.actions);
    ApplyActionsAppend(ops, m.entities, t1'.actions, []);
    assert ApplyActions(ops, ApplyActions(ops, m.entities, t1'.actions), []) == ApplyActions(ops, m.entities, t1'.actions);
  }
}
