/**
 * `IsoGrid.PathFind`: a breadth-first flood from the destination tile that
 * leaves, in every tile it reaches, the tile it was reached from and the
 * normalised direction toward it. The frontier queue is a sequence with a
 * read position; the dequeued prefix is the order tiles were expanded in.
 */
module FlowFields {
  import opened IntWidth
  import opened FixedVec
  import opened IsoGrids

  /** `FlowTile`. */
  datatype FlowTile = FlowTile(parentIndex: int, pos: Vec2, flow: Vec2)

  /** Parent sentinel of a tile the search has not reached. */
  const UNVISITED: int := -1
  /** Parent sentinel of the destination. */
  const DESTINATION: int := -2

  /** `new FlowTile[n]` before the sentinel loop: every field zero. */
  const ZERO_FLOW_TILE: FlowTile := FlowTile(0, ZERO, ZERO)

  /** The search compares flags with `!=` against BLOCKED, so only the exact value 1 blocks. */
  predicate Blocked(g: IsoGrid, i: int)
    requires 0 <= i < |g.tiles|
  {
    g.tiles[i].flags == TILE_BLOCKED
  }

  predicate Visited(flow: seq<FlowTile>, i: int)
    requires 0 <= i < |flow|
  {
    flow[i].parentIndex != UNVISITED
  }

  /**
   * A walk from the destination through 8-neighbour steps, every tile after
   * the first unblocked.
   */
  predicate IsPath(g: IsoGrid, dest: int, p: seq<int>)
  {
    |p| > 0 && p[0] == dest
    && forall k :: 0 < k < |p| ==>
      TilesAdjacent(g, p[k - 1], p[k]) && !Blocked(g, p[k])
  }

  ghost predicate Reachable(g: IsoGrid, dest: int, i: int)
  {
    exists p :: IsPath(g, dest, p) && p[|p| - 1] == i
  }

  /** What the search leaves in tile `i` when it reaches it from `ft.parentIndex`. */
  predicate ChildOf(g: IsoGrid, ops: FixedOps, i: int, ft: FlowTile)
    requires 0 <= i < |g.tiles|
  {
    var parent := ft.parentIndex;
    0 <= parent < |g.tiles|
    && TilesAdjacent(g, parent, i) && !Blocked(g, i)
    && ft.pos == g.tiles[i].worldPos
    && ft.flow == NormalizeFast(ops, Sub(g.tiles[parent].worldPos, g.tiles[i].worldPos))
  }

  /**
   * The search's bookkeeping: the destination is marked; a tile is visited
   * exactly when it has been queued; every queued tile after the first is a
   * child of a tile queued before it.
   */
  predicate SearchState(g: IsoGrid, ops: FixedOps, dest: int, flow: seq<FlowTile>, frontier: seq<int>)
    requires 0 <= dest < |g.tiles|
  {
    |flow| == |g.tiles| && |frontier| > 0 && frontier[0] == dest
    && (forall k :: 0 <= k < |frontier| ==> 0 <= frontier[k] < |flow|)
    && flow[dest] == FlowTile(DESTINATION, g.tiles[dest].worldPos, ZERO)
    && (forall i :: 0 <= i < |flow| ==> (Visited(flow, i) <==> i in frontier))
    && (forall k :: 0 < k < |frontier| ==>
          frontier[k] != dest && ChildOf(g, ops, frontier[k], flow[frontier[k]])
          && flow[frontier[k]].parentIndex in frontier[..k])
  }

  /** Every unblocked neighbour of the first `head` queued tiles has been visited. */
  ghost predicate ClosedUpTo(g: IsoGrid, flow: seq<FlowTile>, frontier: seq<int>, head: int)
    requires |flow| == |g.tiles| && 0 <= head <= |frontier|
  {
    forall k, j :: 0 <= k < head && TilesAdjacent(g, frontier[k], j) && !Blocked(g, j)
      ==> Visited(flow, j)
  }

  ghost predicate AllReachable(g: IsoGrid, dest: int, frontier: seq<int>)
  {
    forall k :: 0 <= k < |frontier| ==> Reachable(g, dest, frontier[k])
  }

  /** Number of tiles not yet reached. */
  function Unreached(flow: seq<FlowTile>): nat
    decreases |flow|
  {
    if |flow| == 0 then 0
    else Unreached(flow[..|flow| - 1]) + (if flow[|flow| - 1].parentIndex == UNVISITED then 1 else 0)
  }

  /** Reaching one more tile lowers the count by one. */
  lemma {:induction false} UnreachedVisit(flow: seq<FlowTile>, i: int, ft: FlowTile)
    requires 0 <= i < |flow| && !Visited(flow, i) && ft.parentIndex != UNVISITED
    ensures Unreached(flow[i := ft]) == Unreached(flow) - 1
    decreases |flow|
  {
    var t := flow[i := ft];
    var n := |flow| - 1;
    if i < n {
      assert t[..n] == flow[..n][i := ft];
      UnreachedVisit(flow[..n], i, ft);
    } else {
      assert t[..n] == flow[..n];
    }
  }

  /** Before the search every tile is unreached. */
  lemma {:induction false} UnreachedAll(flow: seq<FlowTile>)
    requires forall i :: 0 <= i < |flow| ==> flow[i].parentIndex == UNVISITED
    ensures Unreached(flow) == |flow|
    decreases |flow|
  {
    if |flow| > 0 {
      var n := |flow| - 1;
      assert forall i :: 0 <= i < n ==> flow[..n][i] == flow[i];
      UnreachedAll(flow[..n]);
    }
  }

  /** `neighbors` lists exactly the tiles adjacent to `t`. */
  ghost predicate AdjacencyList(g: IsoGrid, t: int, neighbors: seq<int>) {
    (forall mm :: 0 <= mm < |neighbors| ==> TilesAdjacent(g, t, neighbors[mm]))
    && (forall j :: TilesAdjacent(g, t, j) ==> j in neighbors)
  }

  lemma AdjacencyListHolds(g: IsoGrid, t: int)
    requires Sized(g) && Indexed(g) && 0 <= t < |g.tiles|
    ensures AdjacencyList(g, t, GetNeighbors(g.widthCount, g.heightCount, t))
  {
    var neighbors := GetNeighbors(g.widthCount, g.heightCount, t);
    forall mm | 0 <= mm < |neighbors| ensures TilesAdjacent(g, t, neighbors[mm]) {
      GetNeighborsIffAdjacent(g, t, neighbors[mm]);
    }
    forall j | TilesAdjacent(g, t, j) ensures j in neighbors {
      GetNeighborsIffAdjacent(g, t, j);
    }
  }

  /**
   * `PathFind(destIndex)`. Besides the flow tiles it returns the queue's
   * contents, the order in which tiles were reached.
   */
  method PathFind(g: IsoGrid, ops: FixedOps, destIndex: int) returns (flowTiles: seq<FlowTile>, visitOrder: seq<int>)
    requires Sized(g) && Indexed(g) && 0 <= destIndex < |g.tiles|
    ensures |flowTiles| == |g.tiles|
    ensures flowTiles[destIndex] == FlowTile(DESTINATION, g.tiles[destIndex].worldPos, ZERO)
    ensures forall i :: 0 <= i < |flowTiles| && i != destIndex ==>
      flowTiles[i].parentIndex == UNVISITED || ChildOf(g, ops, i, flowTiles[i])
    ensures forall i :: 0 <= i < |flowTiles| ==> (Visited(flowTiles, i) <==> Reachable(g, destIndex, i))
    ensures |visitOrder| > 0 && visitOrder[0] == destIndex
    ensures forall i :: 0 <= i < |flowTiles| ==> (Visited(flowTiles, i) <==> i in visitOrder)
    ensures forall k :: 0 < k < |visitOrder| ==>
      0 <= visitOrder[k] < |flowTiles| && flowTiles[visitOrder[k]].parentIndex in visitOrder[..k]
  {
    var n := |g.tiles|;
    flowTiles := seq(n, _ => ZERO_FLOW_TILE);
    var i := 0;
    while i < n
      invariant 0 <= i <= n && |flowTiles| == n
      invariant forall j :: 0 <= j < n ==> flowTiles[j] == if j < i then FlowTile(UNVISITED, ZERO, ZERO) else ZERO_FLOW_TILE
    {
      flowTiles := flowTiles[i := flowTiles[i].(parentIndex := UNVISITED)];
      i := i + 1;
    }

    flowTiles := flowTiles[destIndex := flowTiles[destIndex].(parentIndex := DESTINATION)];
    flowTiles := flowTiles[destIndex := flowTiles[destIndex].(pos := g.tiles[destIndex].worldPos)];
    flowTiles := flowTiles[destIndex := flowTiles[destIndex].(flow := ZERO)];

    var frontier := [destIndex];
    var head := 0;
    assert IsPath(g, destIndex, [destIndex]);
    ghost var before := flowTiles[destIndex := FlowTile(UNVISITED, ZERO, ZERO)];
    assert forall j :: 0 <= j < n ==> before[j] == FlowTile(UNVISITED, ZERO, ZERO);
    UnreachedAll(before);
    UnreachedVisit(before, destIndex, flowTiles[destIndex]);
    assert before[destIndex := flowTiles[destIndex]] == flowTiles;
    while head < |frontier|
      invariant 0 <= head <= |frontier|
      invariant SearchState(g, ops, destIndex, flowTiles, frontier)
      invariant Unreached(flowTiles) + |frontier| == n
      invariant ClosedUpTo(g, flowTiles, frontier, head)
      invariant AllReachable(g, destIndex, frontier)
      decreases n - head
    {
      head := head + 1;
      var neighbors := GetNeighbors(g.widthCount, g.heightCount, frontier[head - 1]);
      AdjacencyListHolds(g, frontier[head - 1]);
      flowTiles, frontier := Expand(g, ops, destIndex, flowTiles, frontier, head, neighbors);
    }
    visitOrder := frontier;

    forall i | 0 <= i < n && Reachable(g, destIndex, i)
      ensures Visited(flowTiles, i)
    {
      var p :| IsPath(g, destIndex, p) && p[|p| - 1] == i;
      ReachableIsVisited(g, destIndex, flowTiles, frontier, p);
    }
    forall i | 0 <= i < n && i != destIndex && Visited(flowTiles, i)
      ensures ChildOf(g, ops, i, flowTiles[i])
    {
      var k :| 0 <= k < |frontier| && frontier[k] == i;
    }
  }

  /**
   * One pass of the queue loop: the tile at `head - 1` has been dequeued and
   * each of its neighbours is considered in GetNeighbors order.
   */
  method Expand(g: IsoGrid, ops: FixedOps, dest: int, flow0: seq<FlowTile>, frontier0: seq<int>, head: int, neighbors: seq<int>)
    returns (flow: seq<FlowTile>, frontier: seq<int>)
    requires 0 <= dest < |g.tiles|
    requires SearchState(g, ops, dest, flow0, frontier0) && 0 < head <= |frontier0|
    requires AdjacencyList(g, frontier0[head - 1], neighbors)
    requires ClosedUpTo(g, flow0, frontier0, head - 1) && AllReachable(g, dest, frontier0)
    ensures SearchState(g, ops, dest, flow, frontier) && |frontier0| <= |frontier|
    ensures ClosedUpTo(g, flow, frontier, head) && AllReachable(g, dest, frontier)
    ensures frontier[..|frontier0|] == frontier0
    ensures Unreached(flow) + |frontier| == Unreached(flow0) + |frontier0|
  {
    flow, frontier := flow0, frontier0;
    var tileIndex := frontier[head - 1];
    ExpandStarts(g, ops, dest, flow0, frontier0, head, neighbors);
    var m := 0;
    while m < |neighbors|
      invariant 0 <= m <= |neighbors|
      invariant ExpandInv(g, ops, dest, flow0, frontier0, head, tileIndex, neighbors, m, flow, frontier)
    {
      flow, frontier := Consider(g, ops, dest, flow0, frontier0, head, tileIndex, neighbors, m, flow, frontier);
      m := m + 1;
    }
    ExpandFinishes(g, ops, dest, flow0, frontier0, head, neighbors, flow, frontier);
  }

  lemma ExpandStarts(g: IsoGrid, ops: FixedOps, dest: int, flow0: seq<FlowTile>, frontier0: seq<int>, head: int, neighbors: seq<int>)
    requires 0 <= dest < |g.tiles|
    requires SearchState(g, ops, dest, flow0, frontier0) && 0 < head <= |frontier0|
    requires ClosedUpTo(g, flow0, frontier0, head - 1) && AllReachable(g, dest, frontier0)
    ensures ExpandInv(g, ops, dest, flow0, frontier0, head, frontier0[head - 1], neighbors, 0, flow0, frontier0)
  {
    assert frontier0[..|frontier0|] == frontier0;
    var tileIndex := frontier0[head - 1];
    if head > 1 {
      assert ChildOf(g, ops, tileIndex, flow0[tileIndex]);
    }
  }

  /** Once every listed neighbour has been considered, the dequeued tile is closed. */
  lemma ExpandFinishes(g: IsoGrid, ops: FixedOps, dest: int, flow0: seq<FlowTile>, frontier0: seq<int>, head: int,
                       neighbors: seq<int>, flow: seq<FlowTile>, frontier: seq<int>)
    requires 0 <= dest < |g.tiles| && |flow0| == |g.tiles| && 0 < head <= |frontier0|
    requires 0 <= frontier0[head - 1] < |g.tiles|
    requires AdjacencyList(g, frontier0[head - 1], neighbors)
    requires ExpandInv(g, ops, dest, flow0, frontier0, head, frontier0[head - 1], neighbors, |neighbors|, flow, frontier)
    ensures ClosedUpTo(g, flow, frontier, head)
  {
    var tileIndex := frontier0[head - 1];
    assert frontier[head - 1] == tileIndex;
    forall k, j | 0 <= k < head && TilesAdjacent(g, frontier[k], j) && !Blocked(g, j)
      ensures Visited(flow, j)
    {
      if k == head - 1 {
        assert j in neighbors;
      }
    }
  }

  /** The inner loop's invariant while expanding `tileIndex`, after `m` of its neighbours. */
  ghost predicate ExpandInv(g: IsoGrid, ops: FixedOps, dest: int, flow0: seq<FlowTile>, frontier0: seq<int>, head: int,
                            tileIndex: int, neighbors: seq<int>, m: int, flow: seq<FlowTile>, frontier: seq<int>)
    requires 0 <= dest < |g.tiles| && |flow0| == |g.tiles| && 0 < head <= |frontier0|
    requires 0 <= tileIndex < |g.tiles| && 0 <= m <= |neighbors|
  {
    SearchState(g, ops, dest, flow, frontier)
    && |frontier0| <= |frontier| && frontier[..|frontier0|] == frontier0
    && flow[tileIndex].pos == g.tiles[tileIndex].worldPos && Visited(flow, tileIndex)
    && AllReachable(g, dest, frontier)
    && (forall i :: 0 <= i < |flow| && Visited(flow0, i) ==> Visited(flow, i))
    && ClosedUpTo(g, flow, frontier, head - 1)
    && NeighborsDone(g, tileIndex, flow, neighbors, m)
    && Unreached(flow) + |frontier| == Unreached(flow0) + |frontier0|
  }

  /**
   * The body of the neighbour loop: a neighbour still unvisited and not
   * BLOCKED is reached from `tileIndex` and joins the queue.
   */
  method Consider(g: IsoGrid, ops: FixedOps, dest: int, flow0: seq<FlowTile>, frontier0: seq<int>, head: int,
                  tileIndex: int, neighbors: seq<int>, m: int, flow: seq<FlowTile>, frontier: seq<int>)
    returns (flow': seq<FlowTile>, frontier': seq<int>)
    requires 0 <= dest < |g.tiles| && |flow0| == |g.tiles| && 0 < head <= |frontier0|
    requires 0 <= tileIndex < |g.tiles| && 0 <= m < |neighbors|
    requires forall mm :: 0 <= mm < |neighbors| ==> TilesAdjacent(g, tileIndex, neighbors[mm])
    requires ExpandInv(g, ops, dest, flow0, frontier0, head, tileIndex, neighbors, m, flow, frontier)
    ensures ExpandInv(g, ops, dest, flow0, frontier0, head, tileIndex, neighbors, m + 1, flow', frontier')
  {
    var neighborIndex := neighbors[m];
    if flow[neighborIndex].parentIndex == UNVISITED && g.tiles[neighborIndex].flags != TILE_BLOCKED {
      var reached := Reached(g, ops, flow, tileIndex, neighborIndex);
      VisitKeepsInv(g, ops, dest, flow0, frontier0, head, tileIndex, neighbors, m, flow, frontier);
      flow', frontier' := flow[neighborIndex := reached], frontier + [neighborIndex];
    } else {
      flow', frontier' := flow, frontier;
      SkipKeepsInv(g, ops, dest, flow0, frontier0, head, tileIndex, neighbors, m, flow, frontier);
    }
  }

  lemma VisitKeepsInv(g: IsoGrid, ops: FixedOps, dest: int, flow0: seq<FlowTile>, frontier0: seq<int>, head: int,
                      tileIndex: int, neighbors: seq<int>, m: int, flow: seq<FlowTile>, frontier: seq<int>)
    requires 0 <= dest < |g.tiles| && |flow0| == |g.tiles| && 0 < head <= |frontier0|
    requires 0 <= tileIndex < |g.tiles| && 0 <= m < |neighbors|
    requires TilesAdjacent(g, tileIndex, neighbors[m])
    requires ExpandInv(g, ops, dest, flow0, frontier0, head, tileIndex, neighbors, m, flow, frontier)
    requires !Visited(flow, neighbors[m]) && !Blocked(g, neighbors[m])
    ensures ExpandInv(g, ops, dest, flow0, frontier0, head, tileIndex, neighbors, m + 1,
      flow[neighbors[m] := Reached(g, ops, flow, tileIndex, neighbors[m])], frontier + [neighbors[m]])
  {
    var child := neighbors[m];
    var reached := Reached(g, ops, flow, tileIndex, child);
    assert tileIndex in frontier;
    EnqueueKeepsState(g, ops, dest, flow, frontier, tileIndex, child);
    UnreachedVisit(flow, child, reached);
    ReachStep(g, dest, tileIndex, child);
    ReachAppend(g, dest, frontier, child);
    var flow', frontier' := flow[child := reached], frontier + [child];
    ClosedMono(g, flow, frontier, flow', frontier', head - 1);
    assert frontier'[..|frontier|] == frontier;
    assert frontier'[..|frontier0|] == frontier0;
    NeighborsDoneStep(g, tileIndex, flow, flow', neighbors, m);
    assert SearchState(g, ops, dest, flow', frontier');
    assert |frontier0| <= |frontier'| && frontier'[..|frontier0|] == frontier0;
    assert flow'[tileIndex].pos == g.tiles[tileIndex].worldPos && Visited(flow', tileIndex);
    assert AllReachable(g, dest, frontier');
    assert forall i :: 0 <= i < |flow'| && Visited(flow0, i) ==> Visited(flow', i);
    assert ClosedUpTo(g, flow', frontier', head - 1);
    assert NeighborsDone(g, tileIndex, flow', neighbors, m + 1);
    assert Unreached(flow') + |frontier'| == Unreached(flow0) + |frontier0|;
    assert ExpandInv(g, ops, dest, flow0, frontier0, head, tileIndex, neighbors, m + 1, flow', frontier');
  }

  lemma SkipKeepsInv(g: IsoGrid, ops: FixedOps, dest: int, flow0: seq<FlowTile>, frontier0: seq<int>, head: int,
                     tileIndex: int, neighbors: seq<int>, m: int, flow: seq<FlowTile>, frontier: seq<int>)
    requires 0 <= dest < |g.tiles| && |flow0| == |g.tiles| && 0 < head <= |frontier0|
    requires 0 <= tileIndex < |g.tiles| && 0 <= m < |neighbors|
    requires ExpandInv(g, ops, dest, flow0, frontier0, head, tileIndex, neighbors, m, flow, frontier)
    requires TilesAdjacent(g, tileIndex, neighbors[m])
    requires Visited(flow, neighbors[m]) || Blocked(g, neighbors[m])
    ensures ExpandInv(g, ops, dest, flow0, frontier0, head, tileIndex, neighbors, m + 1, flow, frontier)
  {
    NeighborsDoneStep(g, tileIndex, flow, flow, neighbors, m);
  }

  /** Every unblocked tile among the first `m` neighbours has been visited. */
  ghost predicate NeighborsDone(g: IsoGrid, tileIndex: int, flow: seq<FlowTile>, neighbors: seq<int>, m: int)
    requires |flow| == |g.tiles| && 0 <= m <= |neighbors|
  {
    forall mm :: 0 <= mm < m && TilesAdjacent(g, tileIndex, neighbors[mm]) && !Blocked(g, neighbors[mm])
      ==> Visited(flow, neighbors[mm])
  }

  lemma NeighborsDoneStep(g: IsoGrid, tileIndex: int, flow: seq<FlowTile>, flow': seq<FlowTile>, neighbors: seq<int>, m: int)
    requires |flow| == |g.tiles| && |flow'| == |g.tiles| && 0 <= m < |neighbors|
    requires NeighborsDone(g, tileIndex, flow, neighbors, m)
    requires forall i :: 0 <= i < |flow| && Visited(flow, i) ==> Visited(flow', i)
    requires TilesAdjacent(g, tileIndex, neighbors[m]) && !Blocked(g, neighbors[m]) ==> Visited(flow', neighbors[m])
    ensures NeighborsDone(g, tileIndex, flow', neighbors, m + 1)
  {
  }

  /**
   * The tile `child` once reached from `parent`: the parent index, its own
   * world position, and the normalised direction to the parent's position.
   */
  function Reached(g: IsoGrid, ops: FixedOps, flow: seq<FlowTile>, parent: int, child: int): FlowTile
    requires 0 <= parent < |flow| && 0 <= child < |g.tiles|
  {
    var direction := Sub(flow[parent].pos, g.tiles[child].worldPos);
    FlowTile(parent, g.tiles[child].worldPos, NormalizeFast(ops, direction))
  }

  /** Queuing an unvisited, unblocked neighbour of a queued tile keeps the search's bookkeeping. */
  lemma EnqueueKeepsState(g: IsoGrid, ops: FixedOps, dest: int, flow: seq<FlowTile>, frontier: seq<int>, parent: int, child: int)
    requires 0 <= dest < |g.tiles|
    requires SearchState(g, ops, dest, flow, frontier)
    requires parent in frontier && flow[parent].pos == g.tiles[parent].worldPos
    requires TilesAdjacent(g, parent, child) && !Blocked(g, child) && !Visited(flow, child)
    ensures SearchState(g, ops, dest, flow[child := Reached(g, ops, flow, parent, child)], frontier + [child])
  {
    var flow' := flow[child := Reached(g, ops, flow, parent, child)];
    var frontier' := frontier + [child];
    assert frontier'[..|frontier|] == frontier;
    forall k | 0 <= k < |frontier|
      ensures frontier'[..k] == frontier[..k] && frontier[k] != child
    {
    }
    forall i | 0 <= i < |flow'|
      ensures Visited(flow', i) <==> i in frontier'
    {
    }
  }

  lemma ReachAppend(g: IsoGrid, dest: int, frontier: seq<int>, child: int)
    requires AllReachable(g, dest, frontier) && Reachable(g, dest, child)
    ensures AllReachable(g, dest, frontier + [child])
  {
    assert forall k :: 0 <= k < |frontier| ==> (frontier + [child])[k] == frontier[k];
  }

  /** The closure of the expanded prefix survives growing the queue and visiting more tiles. */
  lemma ClosedMono(g: IsoGrid, flow: seq<FlowTile>, frontier: seq<int>, flow': seq<FlowTile>, frontier': seq<int>, head: int)
    requires |flow| == |g.tiles| && |flow'| == |g.tiles| && 0 <= head <= |frontier| <= |frontier'|
    requires frontier'[..|frontier|] == frontier
    requires forall i :: 0 <= i < |flow| && Visited(flow, i) ==> Visited(flow', i)
    requires ClosedUpTo(g, flow, frontier, head)
    ensures ClosedUpTo(g, flow', frontier', head)
  {
    forall k, j | 0 <= k < head && TilesAdjacent(g, frontier'[k], j) && !Blocked(g, j)
      ensures Visited(flow', j)
    {
      assert frontier'[k] == frontier[k];
    }
  }

  /** One more unblocked neighbour step extends a walk from the destination. */
  lemma ReachStep(g: IsoGrid, dest: int, a: int, b: int)
    requires Reachable(g, dest, a)
    requires TilesAdjacent(g, a, b) && !Blocked(g, b)
    ensures Reachable(g, dest, b)
  {
    var p :| IsPath(g, dest, p) && p[|p| - 1] == a;
    var q := p + [b];
    assert forall k :: 0 <= k < |p| ==> q[k] == p[k];
    assert IsPath(g, dest, q);
  }

  /**
   * Once every queued tile has been expanded, every walk from the destination
   * ends on a visited tile.
   */
  lemma {:induction false} ReachableIsVisited(g: IsoGrid, dest: int, flow: seq<FlowTile>, frontier: seq<int>, p: seq<int>)
    requires 0 <= dest < |g.tiles| == |flow| && Visited(flow, dest)
    requires forall i :: 0 <= i < |flow| && Visited(flow, i) ==> i in frontier
    requires ClosedUpTo(g, flow, frontier, |frontier|)
    requires IsPath(g, dest, p)
    ensures 0 <= p[|p| - 1] < |flow| && Visited(flow, p[|p| - 1])
    decreases |p|
  {
    if |p| > 1 {
      var q := p[..|p| - 1];
      assert forall k :: 0 <= k < |q| ==> q[k] == p[k];
      assert IsPath(g, dest, q);
      ReachableIsVisited(g, dest, flow, frontier, q);
      var a := p[|p| - 2];
      var k :| 0 <= k < |frontier| && frontier[k] == a;
      assert TilesAdjacent(g, frontier[k], p[|p| - 1]);
    }
  }
}
