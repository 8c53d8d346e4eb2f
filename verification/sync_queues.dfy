/**
 * The lockstep turn buffer of SyncQueues.cs: one FIFO of turns per player.
 * A tick may run only when both players' next turns are present; it reads
 * both heads and then drops them together.
 */
module SyncQueues {
  import opened IntWidth
  import opened MapTurns

  /** `slidingWindowWidth`: how many turns ahead of the tick a player's turn is stamped. */
  const SLIDING_WINDOW_WIDTH: int := 4

  /** The two queues, heads first. */
  datatype Queues = Queues(player1Turns: seq<MapTurn>, player2Turns: seq<MapTurn>)

  /** The first `n` turns `Start` enqueues: numbers 1..n, fresh checksum and no actions. */
  predicate StartedTurns(q: seq<MapTurn>, n: int) {
    |q| == n && forall i :: 0 <= i < |q| ==> q[i].turnNumber == i + 1 && q[i].checkSum == 0 && q[i].actions == []
  }

  /** `Start`: clear both queues, then enqueue turns 1..W into each. */
  method Start(q: Queues) returns (r: Queues)
    ensures StartedTurns(r.player1Turns, SLIDING_WINDOW_WIDTH)
    ensures StartedTurns(r.player2Turns, SLIDING_WINDOW_WIDTH)
    ensures CanTurn(r)
    ensures GetNextTurn(r, 1).turnNumber == 1 && GetNextTurn(r, 2).turnNumber == 1
  {
    r := Queues([], []);
    var i := 1;
    while i <= SLIDING_WINDOW_WIDTH
      invariant 1 <= i <= SLIDING_WINDOW_WIDTH + 1
      invariant StartedTurns(r.player1Turns, i - 1) && StartedTurns(r.player2Turns, i - 1)
    {
      var turn := FRESH.(turnNumber := i);
      r := Queues(r.player1Turns + [turn], r.player2Turns + [turn]);
      i := i + 1;
    }
  }

  /** `CanTurn`: both players have a turn waiting. */
  function CanTurn(q: Queues): (r: bool)
    ensures r ==> GetNextTurnDefined(q, 1) && GetNextTurnDefined(q, 2)
  {
    var player1Count := |q.player1Turns|;
    var player2Count := |q.player2Turns|;
    if player1Count > 0 && player2Count > 0 then true else false
  }

  /** `AddTurn`: player 1 goes to the first queue; every other number goes to the second. */
  function AddTurn(q: Queues, playerNumber: int, turn: MapTurn): (r: Queues)
    ensures |r.player1Turns| + |r.player2Turns| == |q.player1Turns| + |q.player2Turns| + 1
  {
    if playerNumber == 1 then q.(player1Turns := q.player1Turns + [turn])
    else q.(player2Turns := q.player2Turns + [turn])
  }

  /** `Queue.Peek` throws on an empty queue, so the player's queue must hold a turn. */
  predicate GetNextTurnDefined(q: Queues, playerNumber: int) {
    if playerNumber == 1 then |q.player1Turns| > 0 else |q.player2Turns| > 0
  }

  /** `GetNextTurn`: the head of the player's queue, without removing it. */
  function GetNextTurn(q: Queues, playerNumber: int): MapTurn
    requires GetNextTurnDefined(q, playerNumber)
  {
    if playerNumber == 1 then q.player1Turns[0] else q.player2Turns[0]
  }

  /** `FinishTurn`: drop both heads; `Dequeue` throws on an empty queue. */
  function FinishTurn(q: Queues): (r: Queues)
    requires |q.player1Turns| > 0 && |q.player2Turns| > 0
    ensures |r.player1Turns| == |q.player1Turns| - 1 && |r.player2Turns| == |q.player2Turns| - 1
    ensures [q.player1Turns[0]] + r.player1Turns == q.player1Turns
    ensures [q.player2Turns[0]] + r.player2Turns == q.player2Turns
  {
    Queues(q.player1Turns[1..], q.player2Turns[1..])
  }

  /** `GetSlidingWindowWidth`. */
  function GetSlidingWindowWidth(q: Queues): (r: int)
    ensures r == SLIDING_WINDOW_WIDTH && r > 0
  {
    SLIDING_WINDOW_WIDTH
  }

  /** The queue `playerNumber` selects, as AddTurn and GetNextTurn route it. */
  function QueueOf(q: Queues, playerNumber: int): seq<MapTurn> {
    if playerNumber == 1 then q.player1Turns else q.player2Turns
  }

  // ------------------------------------------------------------ laws

  /** AddTurn appends to exactly one queue and leaves the other alone. */
  lemma AddTurnRouting(q: Queues, playerNumber: int, turn: MapTurn)
    ensures QueueOf(AddTurn(q, playerNumber, turn), playerNumber) == QueueOf(q, playerNumber) + [turn]
    ensures playerNumber == 1 ==> AddTurn(q, playerNumber, turn).player2Turns == q.player2Turns
    ensures playerNumber != 1 ==> AddTurn(q, playerNumber, turn).player1Turns == q.player1Turns
    ensures GetNextTurnDefined(AddTurn(q, playerNumber, turn), playerNumber)
  {
  }

  /** CanTurn holds exactly when both heads can be peeked. */
  lemma CanTurnIffPeekable(q: Queues)
    ensures CanTurn(q) <==> GetNextTurnDefined(q, 1) && GetNextTurnDefined(q, 2)
    ensures CanTurn(q) <==> |q.player1Turns| > 0 && |q.player2Turns| > 0
  {
  }

  /** FIFO: a turn added behind a non-empty queue does not change its head. */
  lemma AddTurnKeepsHead(q: Queues, p: int, turn: MapTurn, p2: int)
    requires GetNextTurnDefined(q, p2)
    ensures GetNextTurnDefined(AddTurn(q, p, turn), p2)
    ensures GetNextTurn(AddTurn(q, p, turn), p2) == GetNextTurn(q, p2)
  {
  }

  /** FIFO: adding to an empty queue makes the new turn its head. */
  lemma AddTurnToEmpty(q: Queues, p: int, turn: MapTurn)
    requires |QueueOf(q, p)| == 0
    ensures GetNextTurn(AddTurn(q, p, turn), p) == turn
  {
  }

  /** Adding behind the heads and finishing the tick commute. */
  lemma FinishTurnCommutesWithAdd(q: Queues, p: int, turn: MapTurn)
    requires |q.player1Turns| > 0 && |q.player2Turns| > 0
    ensures FinishTurn(AddTurn(q, p, turn)) == AddTurn(FinishTurn(q), p, turn)
  {
  }
}
