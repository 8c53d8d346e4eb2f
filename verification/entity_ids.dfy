/**
 * The generational entity handle shared by both game generations
 * (Entity.cs and modes/GameModeGame.cs declare the same struct).
 */
module EntityIds {
  import opened IntWidth

  /** A slot index plus the generation the slot had when the handle was made. */
  datatype EntityId = EntityId(index: Int32, generation: Int32)

  /** The value `new EntityId()` produces: the explicit parameterless constructor. */
  const INVALID: EntityId := EntityId(-1, -1)

  /** The all-zero value a class field of type EntityId holds before anything assigns it. */
  const ZEROED: EntityId := EntityId(0, 0)

  /** A handle is valid unless either part carries the -1 sentinel. */
  predicate IsValid(id: EntityId) {
    id.index != -1 && id.generation != -1
  }

  lemma InvalidIsNotValid()
    ensures !IsValid(INVALID)
    ensures INVALID == EntityId(-1, -1)
  {
  }

  /** IsValid fails exactly when one of the two sentinels is present. */
  lemma IsValidCharacterization(id: EntityId)
    ensures !IsValid(id) <==> (id.index == -1 || id.generation == -1)
    ensures IsValid(id) ==> id != INVALID
  {
  }

  /** `operator ==` of the OpenTK generation: both parts equal. */
  function Same(a: EntityId, b: EntityId): (r: bool)
    ensures r <==> a == b
  {
    a.index == b.index && a.generation == b.generation
  }

  /** `operator !=` of the OpenTK generation, written out independently. */
  function Differs(a: EntityId, b: EntityId): (r: bool)
    ensures r <==> !Same(a, b)
  {
    a.index != b.index || a.generation != b.generation
  }
}
