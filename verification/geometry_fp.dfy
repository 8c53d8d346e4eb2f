/**
 * The fixed-point colliders of GeometryFp.cs and `CollisionTestsFp.CircleVsConvex`,
 * a separating-axis test of a circle against a convex polygon. Every
 * comparison is on raw F64 values; the FixPointCS kernels behind Dot,
 * Normalize and DistanceSqr come in through `FixedOps`.
 */
module GeometryFp {
  import opened IntWidth
  import opened Wrappers
  import opened FixedVec

  datatype CircleCollider = CircleCollider(center: Vec2, radius: F64)

  datatype ConvexCollider = ConvexCollider(verts: seq<Vec2>)

  /** `ManifoldFp`; `new ManifoldFp()` has both fields zero. */
  datatype Manifold = Manifold(normal: Vec2, penetration: F64)

  const EMPTY_MANIFOLD: Manifold := Manifold(ZERO, 0)

  // ---------------------------------------------------------------- colliders

  /** `CircleCollider.Clone`: a copy equal to the original. */
  function CircleClone(c: CircleCollider): (r: CircleCollider)
    ensures r == c
  {
    CircleCollider(c.center, c.radius)
  }

  /** `CircleCollider.Translate`: `center += t`. */
  function CircleTranslate(c: CircleCollider, t: Vec2): (r: CircleCollider)
    ensures r.radius == c.radius
  {
    c.(center := Add(c.center, t))
  }

  /** Translating back by the negated offset restores the circle, whatever the wrap-around. */
  lemma CircleTranslateBack(c: CircleCollider, t: Vec2)
    ensures CircleTranslate(CircleTranslate(c, t), Neg(t)) == c
  {
    AddNegIsSub(Add(c.center, t), t);
    AddSubInverse(c.center, t);
  }

  /** `ConvexCollider.Clone`: a new array filled element by element. */
  method ConvexClone(v: ConvexCollider) returns (r: ConvexCollider)
    ensures |r.verts| == |v.verts|
    ensures forall i :: 0 <= i < |v.verts| ==> r.verts[i] == v.verts[i]
  {
    var verts := seq(|v.verts|, _ => ZERO);
    var i := 0;
    while i < |v.verts|
      invariant 0 <= i <= |v.verts| == |verts|
      invariant forall j :: 0 <= j < i ==> verts[j] == v.verts[j]
    {
      verts := verts[i := v.verts[i]];
      i := i + 1;
    }
    r := ConvexCollider(verts);
  }

  /** `ConvexCollider.Translate`: `verts[i] += t` for every vertex. */
  method ConvexTranslate(v: ConvexCollider, t: Vec2) returns (r: ConvexCollider)
    ensures |r.verts| == |v.verts|
    ensures forall i :: 0 <= i < |v.verts| ==> r.verts[i] == Add(v.verts[i], t)
  {
    var verts := v.verts;
    var i := 0;
    while i < |verts|
      invariant 0 <= i <= |verts| == |v.verts|
      invariant forall j :: 0 <= j < i ==> verts[j] == Add(v.verts[j], t)
      invariant forall j :: i <= j < |verts| ==> verts[j] == v.verts[j]
    {
      verts := verts[i := Add(verts[i], t)];
      i := i + 1;
    }
    r := ConvexCollider(verts);
  }

  /** A translated polygon translated back by the negated offset is the original. */
  lemma ConvexTranslateBack(verts: seq<Vec2>, moved: seq<Vec2>, back: seq<Vec2>, t: Vec2)
    requires |moved| == |verts| && forall i :: 0 <= i < |verts| ==> moved[i] == Add(verts[i], t)
    requires |back| == |moved| && forall i :: 0 <= i < |moved| ==> back[i] == Add(moved[i], Neg(t))
    ensures back == verts
  {
    forall i | 0 <= i < |verts|
      ensures back[i] == verts[i]
    {
      AddNegIsSub(moved[i], t);
      AddSubInverse(verts[i], t);
    }
  }

  /** Wrapping sum of the vertices, in array order. */
  function SumVerts(verts: seq<Vec2>): Vec2
    decreases |verts|
  {
    if |verts| == 0 then ZERO else Add(SumVerts(verts[..|verts| - 1]), verts[|verts| - 1])
  }

  /** `ConvexCollider.ComputeCenter`, also inlined in CircleVsConvex: the sum divided by the count. */
  function ComputeCenter(ops: FixedOps, v: ConvexCollider): Vec2
    requires |v.verts| <= INT_MAX
  {
    DivScalar(ops, SumVerts(v.verts), FromInt(|v.verts|))
  }

  // ---------------------------------------------------------------- closest vertex

  /**
   * Vertex `i` is the one GetClosestPoint's scan keeps: nearer than the
   * starting `F64.MaxValue`, strictly nearer than every earlier vertex, and
   * no farther than any later one.
   */
  predicate ClosestAt(ops: FixedOps, verts: seq<Vec2>, p: Vec2, i: int) {
    0 <= i < |verts| && DistanceSqr(ops, verts[i], p) < MAX_RAW
    && (forall j :: 0 <= j < i ==> DistanceSqr(ops, verts[i], p) < DistanceSqr(ops, verts[j], p))
    && (forall j :: i < j < |verts| ==> DistanceSqr(ops, verts[i], p) <= DistanceSqr(ops, verts[j], p))
  }

  /** The index held by the scan's `closePoint` after every vertex, if the strict test ever passed. */
  function ClosestIndex(ops: FixedOps, verts: seq<Vec2>, p: Vec2): (r: Option<int>)
    ensures r.None? <==> forall j :: 0 <= j < |verts| ==> DistanceSqr(ops, verts[j], p) == MAX_RAW
    ensures r.Some? ==> ClosestAt(ops, verts, p, r.value)
    decreases |verts|
  {
    if |verts| == 0 then None
    else
      var n := |verts| - 1;
      var d := DistanceSqr(ops, verts[n], p);
      var prefix := verts[..n];
      assert forall j :: 0 <= j < n ==> prefix[j] == verts[j];
      match ClosestIndex(ops, prefix, p)
      case None => if d < MAX_RAW then Some(n) else None
      case Some(i) => if d < DistanceSqr(ops, verts[i], p) then Some(n) else Some(i)
  }

  /** At most one vertex is the kept one: ties go to the earliest index. */
  lemma ClosestAtUnique(ops: FixedOps, verts: seq<Vec2>, p: Vec2, i: int, j: int)
    requires ClosestAt(ops, verts, p, i) && ClosestAt(ops, verts, p, j)
    ensures i == j
  {
  }

  /** `ConvexCollider.GetClosestPoint(p)`; `Vector2Fp.Zero` when no vertex beats `F64.MaxValue`. */
  function GetClosestPoint(ops: FixedOps, v: ConvexCollider, p: Vec2): (r: Vec2)
    ensures r == ZERO || r in v.verts
  {
    match ClosestIndex(ops, v.verts, p)
    case None => ZERO
    case Some(i) => v.verts[i]
  }

  /** GetClosestPoint returns the kept vertex, or zero when every distance is `F64.MaxValue`. */
  lemma GetClosestPointSpec(ops: FixedOps, v: ConvexCollider, p: Vec2)
    ensures (forall j :: 0 <= j < |v.verts| ==> DistanceSqr(ops, v.verts[j], p) == MAX_RAW)
      ==> GetClosestPoint(ops, v, p) == ZERO
    ensures forall i :: ClosestAt(ops, v.verts, p, i) ==> GetClosestPoint(ops, v, p) == v.verts[i]
  {
    forall i | ClosestAt(ops, v.verts, p, i) ensures GetClosestPoint(ops, v, p) == v.verts[i] {
      ClosestAtUnique(ops, v.verts, p, i, ClosestIndex(ops, v.verts, p).value);
    }
  }

  // ---------------------------------------------------------------- projections

  /** An interval on an axis. */
  datatype Projection = Projection(min: F64, max: F64)

  /** `ProjectVertices`: the extreme dot products of the vertices with the axis, scanning from `MaxValue`/`MinValue`. */
  function ProjectVertices(ops: FixedOps, verts: seq<Vec2>, axis: Vec2): Projection
    decreases |verts|
  {
    if |verts| == 0 then Projection(MAX_RAW, MIN_RAW)
    else
      var n := |verts| - 1;
      var before := ProjectVertices(ops, verts[..n], axis);
      var proj := Dot(ops, verts[n], axis);
      Projection(if proj < before.min then proj else before.min,
                 if proj > before.max then proj else before.max)
  }

  /** Every vertex projects inside the interval; with no vertices it is the empty `(MaxValue, MinValue)`. */
  lemma {:induction false} ProjectVerticesBounds(ops: FixedOps, verts: seq<Vec2>, axis: Vec2)
    ensures |verts| == 0 ==> ProjectVertices(ops, verts, axis) == Projection(MAX_RAW, MIN_RAW)
    ensures forall i :: 0 <= i < |verts| ==>
      ProjectVertices(ops, verts, axis).min <= Dot(ops, verts[i], axis) <= ProjectVertices(ops, verts, axis).max
    decreases |verts|
  {
    if |verts| > 0 {
      var n := |verts| - 1;
      var prefix := verts[..n];
      ProjectVerticesBounds(ops, prefix, axis);
      assert forall j :: 0 <= j < n ==> prefix[j] == verts[j];
    }
  }

  /** On a non-empty polygon both ends of the projection are attained by some vertex, so min <= max. */
  lemma {:induction false} ProjectVerticesAttained(ops: FixedOps, verts: seq<Vec2>, axis: Vec2)
    requires |verts| > 0
    ensures var r := ProjectVertices(ops, verts, axis);
      (exists i :: 0 <= i < |verts| && r.min == Dot(ops, verts[i], axis))
      && (exists i :: 0 <= i < |verts| && r.max == Dot(ops, verts[i], axis))
      && r.min <= r.max
    decreases |verts|
  {
    ProjectVerticesBounds(ops, verts, axis);
    var n := |verts| - 1;
    var prefix := verts[..n];
    var r := ProjectVertices(ops, verts, axis);
    var proj := Dot(ops, verts[n], axis);
    if n == 0 {
      assert ProjectVertices(ops, prefix, axis) == Projection(MAX_RAW, MIN_RAW);
      assert r.min == proj && r.max == proj;
    } else {
      ProjectVerticesAttained(ops, prefix, axis);
      var before := ProjectVertices(ops, prefix, axis);
      var i :| 0 <= i < n && before.min == Dot(ops, prefix[i], axis);
      var k :| 0 <= k < n && before.max == Dot(ops, prefix[k], axis);
      assert prefix[i] == verts[i] && prefix[k] == verts[k];
      if proj < before.min {
        assert r.min == Dot(ops, verts[n], axis);
      } else {
        assert r.min == Dot(ops, verts[i], axis);
      }
      if proj > before.max {
        assert r.max == Dot(ops, verts[n], axis);
      } else {
        assert r.max == Dot(ops, verts[k], axis);
      }
    }
  }

  /** The two points of the circle on the line through its centre along `axis`, projected. */
  function CircleEnds(ops: FixedOps, circle: CircleCollider, axis: Vec2): (F64, F64) {
    var directionAndRadius := Scale(ops, axis, circle.radius);
    (Dot(ops, Add(circle.center, directionAndRadius), axis),
     Dot(ops, Sub(circle.center, directionAndRadius), axis))
  }

  /** `ProjectCircle`: the two projected ends, swapped when the first is larger. */
  function ProjectCircle(ops: FixedOps, circle: CircleCollider, axis: Vec2): (r: Projection)
    ensures var (a, b) := CircleEnds(ops, circle, axis);
      r.min <= r.max && ((r.min == a && r.max == b) || (r.min == b && r.max == a))
  {
    var (p1, p2) := CircleEnds(ops, circle, axis);
    if p1 > p2 then Projection(p2, p1) else Projection(p1, p2)
  }

  // ---------------------------------------------------------------- separating axes

  /** The test that returns false: the intervals do not overlap, touching counting as apart. */
  predicate Separated(a: Projection, b: Projection) {
    a.min >= b.max || b.min >= a.max
  }

  /** The overlap measured on one axis: `F64.Min(maxB - minA, maxA - minB)` with wrapping subtraction. */
  function Overlap(a: Projection, b: Projection): F64 {
    MinRaw(Wrap64(b.max - a.min), Wrap64(a.max - b.min))
  }

  /** What one axis contributes: whether it separates the shapes, and the overlap on it. */
  datatype AxisTest = AxisTest(axis: Vec2, separated: bool, depth: F64)

  function TestAxis(ops: FixedOps, c: CircleCollider, verts: seq<Vec2>, axis: Vec2): AxisTest {
    var pa := ProjectVertices(ops, verts, axis);
    var pb := ProjectCircle(ops, c, axis);
    AxisTest(axis, Separated(pa, pb), Overlap(pa, pb))
  }

  /** The index after `i`, wrapping to 0: `(i + 1) % vertexCount` for `0 <= i < vertexCount`. */
  function NextIndex(i: int, n: int): (r: int)
    requires 0 <= i < n
    ensures 0 <= r < n && r == (i + 1) % n
  {
    if i + 1 == n then 0 else i + 1
  }

  /** The normalised perpendicular `(-edge.Y, edge.X)` of the edge from vertex `i` to the next, cyclically. */
  function EdgeAxis(ops: FixedOps, verts: seq<Vec2>, i: int): Vec2
    requires 0 <= i < |verts|
  {
    var edge := Sub(verts[NextIndex(i, |verts|)], verts[i]);
    Normalize(ops, Vec2(Wrap64(0 - edge.rawY as int), edge.rawX))
  }

  /** The axis checked after the edges: from the circle's centre to the closest vertex. */
  function ClosestAxis(ops: FixedOps, c: CircleCollider, v: ConvexCollider): Vec2 {
    Normalize(ops, Sub(GetClosestPoint(ops, v, c.center), c.center))
  }

  /** The axes checked, in order: one per edge, then the closest-vertex axis. */
  function Axes(ops: FixedOps, c: CircleCollider, v: ConvexCollider): (r: seq<Vec2>)
    ensures |r| == |v.verts| + 1
    ensures forall i :: 0 <= i < |v.verts| ==> r[i] == EdgeAxis(ops, v.verts, i)
    ensures r[|v.verts|] == ClosestAxis(ops, c, v)
  {
    seq(|v.verts|, i requires 0 <= i < |v.verts| => EdgeAxis(ops, v.verts, i)) + [ClosestAxis(ops, c, v)]
  }

  /** Every axis checked with its outcome, in the order the loop checks them. */
  function Tests(ops: FixedOps, c: CircleCollider, v: ConvexCollider): (r: seq<AxisTest>)
    ensures |r| == |v.verts| + 1
  {
    var axes := Axes(ops, c, v);
    seq(|axes|, k requires 0 <= k < |axes| => TestAxis(ops, c, v.verts, axes[k]))
  }

  /** `tests` opens with the outcome of each edge axis, in order. */
  ghost predicate EdgeTests(ops: FixedOps, c: CircleCollider, verts: seq<Vec2>, tests: seq<AxisTest>) {
    forall i {:trigger EdgeAxis(ops, verts, i)} :: 0 <= i < |verts| && i < |tests| ==>
      tests[i] == TestAxis(ops, c, verts, EdgeAxis(ops, verts, i))
  }

  lemma TestsOpenWithEdges(ops: FixedOps, c: CircleCollider, v: ConvexCollider)
    ensures EdgeTests(ops, c, v.verts, Tests(ops, c, v))
  {
  }

  lemma LastTestAt(ops: FixedOps, c: CircleCollider, v: ConvexCollider, axis: Vec2)
    requires axis == ClosestAxis(ops, c, v)
    ensures Tests(ops, c, v)[|v.verts|] == TestAxis(ops, c, v.verts, axis)
  {
  }

  /** The running best of the axis loop: the smallest overlap so far and the axis it was seen on. */
  datatype Best = Best(depth: F64, normal: Vec2)

  const START: Best := Best(MAX_RAW, ZERO)

  /** The axis loop over `tests`: `None` once an axis separates, otherwise the best kept with a strict `<`. */
  function Scan(tests: seq<AxisTest>): Option<Best>
    decreases |tests|
  {
    if |tests| == 0 then Some(START)
    else
      var n := |tests| - 1;
      match Scan(tests[..n])
      case None => None
      case Some(b) =>
        if tests[n].separated then None
        else Some(if tests[n].depth < b.depth then Best(tests[n].depth, tests[n].axis) else b)
  }

  /** The scan fails exactly when some axis separates the shapes. */
  lemma {:induction false} ScanNoneIff(tests: seq<AxisTest>)
    ensures Scan(tests).None? <==> exists k :: 0 <= k < |tests| && tests[k].separated
    decreases |tests|
  {
    if |tests| > 0 {
      var n := |tests| - 1;
      var prefix := tests[..n];
      ScanNoneIff(prefix);
      assert forall k :: 0 <= k < n ==> prefix[k] == tests[k];
    }
  }

  /**
   * On success the depth is the smallest overlap over all axes, and the
   * normal is the first axis that attains it; only when every overlap is
   * `F64.MaxValue` does the normal stay zero (the strict `<` never lets an
   * overlap of `F64.MaxValue` replace the start value).
   */
  predicate BestOf(tests: seq<AxisTest>, b: Best) {
    (forall k :: 0 <= k < |tests| ==> b.depth <= tests[k].depth)
    && ((b == START && forall k :: 0 <= k < |tests| ==> tests[k].depth == MAX_RAW)
        || exists k :: 0 <= k < |tests| && b == Best(tests[k].depth, tests[k].axis) && b.depth < MAX_RAW
             && forall j :: 0 <= j < k ==> b.depth < tests[j].depth)
  }

  /** `BestOf` pins the result down: at most one depth and normal satisfy it. */
  lemma BestOfUnique(tests: seq<AxisTest>, b1: Best, b2: Best)
    requires BestOf(tests, b1) && BestOf(tests, b2)
    ensures b1 == b2
  {
    if b1 != START && b2 != START {
      var k1 :| 0 <= k1 < |tests| && b1 == Best(tests[k1].depth, tests[k1].axis) && b1.depth < MAX_RAW
        && forall j :: 0 <= j < k1 ==> b1.depth < tests[j].depth;
      var k2 :| 0 <= k2 < |tests| && b2 == Best(tests[k2].depth, tests[k2].axis) && b2.depth < MAX_RAW
        && forall j :: 0 <= j < k2 ==> b2.depth < tests[j].depth;
      assert k1 == k2;
    }
  }

  lemma {:induction false} ScanSomeIsBest(tests: seq<AxisTest>)
    requires Scan(tests).Some?
    ensures BestOf(tests, Scan(tests).value)
    decreases |tests|
  {
    if |tests| > 0 {
      var n := |tests| - 1;
      var prefix := tests[..n];
      assert forall k :: 0 <= k < n ==> prefix[k] == tests[k];
      ScanSomeIsBest(prefix);
      var b := Scan(prefix).value;
      var r := Scan(tests).value;
      if tests[n].depth < b.depth {
        assert r == Best(tests[n].depth, tests[n].axis);
      } else {
        assert r == b;
        if !(b == START && forall k :: 0 <= k < n ==> prefix[k].depth == MAX_RAW) {
          var k :| 0 <= k < n && b == Best(prefix[k].depth, prefix[k].axis)
            && forall j :: 0 <= j < k ==> b.depth < prefix[j].depth;
          assert b == Best(tests[k].depth, tests[k].axis);
        }
      }
    }
  }

  /** One more iteration of the axis loop. */
  lemma ScanStep(tests: seq<AxisTest>, i: int, b: Best)
    requires 0 <= i < |tests| && Scan(tests[..i]) == Some(b)
    ensures Scan(tests[..i + 1]) ==
      if tests[i].separated then None
      else Some(if tests[i].depth < b.depth then Best(tests[i].depth, tests[i].axis) else b)
  {
    assert tests[..i + 1][..i] == tests[..i];
  }

  /** Once a prefix of the tests fails, the whole scan fails. */
  lemma {:induction false} ScanNoneExtends(tests: seq<AxisTest>, m: int)
    requires 0 <= m <= |tests| && Scan(tests[..m]).None?
    ensures Scan(tests).None?
    decreases |tests| - m
  {
    if m < |tests| {
      assert tests[..m + 1][..m] == tests[..m];
      ScanNoneExtends(tests, m + 1);
    } else {
      assert tests[..m] == tests;
    }
  }

  /** The normal points from the circle toward the polygon's centre: negated when the dot product is negative. */
  function Oriented(ops: FixedOps, c: CircleCollider, v: ConvexCollider, normal: Vec2): (r: Vec2)
    requires |v.verts| <= INT_MAX
    ensures Dot(ops, Sub(ComputeCenter(ops, v), c.center), normal) < 0 ==> r == Neg(normal)
    ensures Dot(ops, Sub(ComputeCenter(ops, v), c.center), normal) >= 0 ==> r == normal
  {
    if Dot(ops, Sub(ComputeCenter(ops, v), c.center), normal) < 0 then Neg(normal) else normal
  }

  /** `CollisionTestsFp.CircleVsConvex`: the axis loop with its early returns, then the orientation step. */
  method CircleVsConvex(ops: FixedOps, c: CircleCollider, v: ConvexCollider) returns (hit: bool, m: Manifold)
    requires |v.verts| <= INT_MAX
    ensures !hit <==> exists k :: 0 <= k < |v.verts| + 1 && Tests(ops, c, v)[k].separated
    ensures !hit ==> m == EMPTY_MANIFOLD
    ensures hit ==> exists b :: (BestOf(Tests(ops, c, v), b)
      && m == Manifold(Oriented(ops, c, v, b.normal), b.depth))
  {
    ghost var tests := Tests(ops, c, v);
    ScanNoneIff(tests);
    TestsOpenWithEdges(ops, c, v);
    var separated, depth, normal := EdgeLoop(ops, c, v.verts, tests);
    if separated {
      ScanNoneExtends(tests, |v.verts|);
      return false, EMPTY_MANIFOLD;
    }

    var t := ClosestTest(ops, c, v);
    LastTestAt(ops, c, v, t.axis);
    ScanStep(tests, |v.verts|, Best(depth, normal));
    assert tests[..|v.verts| + 1] == tests;
    if t.separated {
      return false, EMPTY_MANIFOLD;
    }
    if t.depth < depth {
      depth := t.depth;
      normal := t.axis;
    }
    ghost var best := Best(depth, normal);
    ScanSomeIsBest(tests);
    normal := Orient(ops, c, v, normal);
    return true, Manifold(normal, depth);
  }

  /** One pass of the edge loop: the axis normal to edge `i`, the two projections on it, and the outcome. */
  method EdgeTest(ops: FixedOps, c: CircleCollider, verts: seq<Vec2>, i: int, ghost tests: seq<AxisTest>)
    returns (t: AxisTest)
    requires 0 <= i < |verts| < |tests|
    requires EdgeTests(ops, c, verts, tests)
    ensures t == tests[i]
  {
    var axis := EdgeAxis(ops, verts, i);
    t := TestAxis(ops, c, verts, axis);
  }

  /** The final axis: from the circle's centre towards the polygon's closest vertex. */
  method ClosestTest(ops: FixedOps, c: CircleCollider, v: ConvexCollider) returns (t: AxisTest)
    ensures t.axis == ClosestAxis(ops, c, v)
    ensures t == TestAxis(ops, c, v.verts, ClosestAxis(ops, c, v))
  {
    var axis := ClosestAxis(ops, c, v);
    t := TestAxis(ops, c, v.verts, axis);
  }

  /** The orientation step: flip the normal when it points away from the polygon's centre. */
  method Orient(ops: FixedOps, c: CircleCollider, v: ConvexCollider, normal: Vec2) returns (r: Vec2)
    requires |v.verts| <= INT_MAX
    ensures r == Oriented(ops, c, v, normal)
  {
    var polygonCenter := ComputeCenter(ops, v);
    var direction := Sub(polygonCenter, c.center);
    r := normal;
    if Dot(ops, direction, normal) < 0 {
      r := Neg(normal);
    }
  }

  /**
   * The loop over the polygon's edges in CircleVsConvex: `separated` when
   * it returned early, otherwise the best depth and axis so far.
   */
  method EdgeLoop(ops: FixedOps, c: CircleCollider, verts: seq<Vec2>, ghost tests: seq<AxisTest>)
    returns (separated: bool, depth: F64, normal: Vec2)
    requires |tests| == |verts| + 1
    requires EdgeTests(ops, c, verts, tests)
    ensures separated <==> Scan(tests[..|verts|]).None?
    ensures !separated ==> Scan(tests[..|verts|]) == Some(Best(depth, normal))
  {
    depth := MAX_RAW;
    normal := ZERO;
    var vertexCount := |verts|;
    var i := 0;
    assert tests[..0] == [];
    while i < vertexCount
      invariant 0 <= i <= vertexCount
      invariant Scan(tests[..i]) == Some(Best(depth, normal))
    {
      var t := EdgeTest(ops, c, verts, i, tests);
      ScanStep(tests, i, Best(depth, normal));
      if t.separated {
        ScanNoneExtends(tests[..vertexCount], i + 1);
        return true, depth, normal;
      }
      if t.depth < depth {
        depth := t.depth;
        normal := t.axis;
      }
      i := i + 1;
    }
    return false, depth, normal;
  }
}
