/**
 * One player's turn and its wire packet (map/MapTurn.cs): the packet type
 * byte, the player byte, the turn number, the checksum, the action count and
 * then every action as its tag followed by its payload.
 *
 * `SerializeFromBytes` as written reads the tags but never builds an action
 * (the per-tag decoders are commented out); it is modelled as written, and a
 * corrected decoder that dispatches on the actions/ tags is modelled next to
 * it and proved to invert the encoder.
 */
module MapTurns {
  import opened IntWidth
  import opened Wrappers
  import opened EntityIds
  import opened FixedVec
  import opened ByteOps
  import opened Actions

  /** `GamePacketType` of Shared/GamePacket.cs (a byte enum). */
  datatype GamePacketType = PacketInvalid | MapStart | MapTurnPacket

  function PacketTypeByte(t: GamePacketType): Byte {
    match t
    case PacketInvalid => 0
    case MapStart => 1
    case MapTurnPacket => 2
  }

  /** A turn: the tick it is meant for, the sender's checksum and its actions. */
  datatype MapTurn = MapTurn(turnNumber: Int32, checkSum: Int64, actions: seq<Action>)

  /** The field initialisers of `new MapTurn()`. */
  const FRESH: MapTurn := MapTurn(-1, 0, [])

  /** The header is 18 bytes: type, player, turn number (4), checksum (8), action count (4). */
  const HEADER_SIZE: nat := 18

  /** A turn the encoder can write: a C# list count, and every action encodable. */
  predicate Serializable(t: MapTurn) {
    |t.actions| <= INT_MAX && forall i :: 0 <= i < |t.actions| ==> Encodable(t.actions[i])
  }

  /** Only the selection actions belong to the tag set `SerializeFromBytes` switches on. */
  predicate IsSelectionAction(a: Action) {
    a.SelectionMoveAction? || a.GatherResourceAction?
  }

  // ------------------------------------------------------------ layout

  /** One action on the wire: its tag (4 bytes, as `k` chooses it) then its payload. */
  function ActionBytes(k: Tagging, a: Action): seq<Byte>
    requires Encodable(a)
  {
    BytesOf(TagOf(k, a), 4) + Payload(a)
  }

  /** Every action of a list, in list order. */
  function ActionsBytes(k: Tagging, acts: seq<Action>): seq<Byte>
    requires forall i :: 0 <= i < |acts| ==> Encodable(acts[i])
    decreases |acts|
  {
    if |acts| == 0 then [] else ActionBytes(k, acts[0]) + ActionsBytes(k, acts[1..])
  }

  /** The packet layout, field by field. */
  function TurnBytes(k: Tagging, t: MapTurn, player: Byte): seq<Byte>
    requires Serializable(t)
  {
    [PacketTypeByte(MapTurnPacket), player] + BytesOf(t.turnNumber, 4) + BytesOf(t.checkSum, 8)
      + BytesOf(|t.actions|, 4) + ActionsBytes(k, t.actions)
  }

  // ------------------------------------------------------------ encoder

  /** The `actions.ForEach` of SerializeToBytes: tag, then the action's own Plonk. */
  function PlonkActions(k: Tagging, data: seq<Byte>, acts: seq<Action>): (r: seq<Byte>)
    requires forall i :: 0 <= i < |acts| ==> Encodable(acts[i])
    ensures r == data + ActionsBytes(k, acts)
    decreases |acts|
  {
    if |acts| == 0 then data
    else
      var a := acts[0];
      var d := Plonk(PlonkInt(data, TagOf(k, a)), a);
      Append3(data, BytesOf(TagOf(k, a), 4), Payload(a));
      Append3(data, ActionBytes(k, a), ActionsBytes(k, acts[1..]));
      PlonkActions(k, d, acts[1..])
  }

  /**
   * `SerializeToBytes`, writing each action's tag as `k` chooses: `AsWritten`
   * is the program's encoder, `Corrected` the one with the gather tag fixed.
   * `container` is the reused buffer the source clears first, so what it held
   * never reaches the result.
   */
  function SerializeToBytes(k: Tagging, container: seq<Byte>, t: MapTurn, player: Byte): (r: seq<Byte>)
    requires Serializable(t)
    ensures r == TurnBytes(k, t, player)
    ensures |r| == HEADER_SIZE + |ActionsBytes(k, t.actions)|
  {
    var cleared: seq<Byte> := container[..0];
    var d := cleared + [PacketTypeByte(MapTurnPacket)] + [player];
    assert d == [PacketTypeByte(MapTurnPacket), player];
    var d := PlonkInt(d, t.turnNumber);
    var d := PlonkLong(d, t.checkSum);
    var d := PlonkInt(d, |t.actions|);
    PlonkActions(k, d, t.actions)
  }

  /** Every action takes at least 16 bytes: a 4-byte tag and a payload of 12 or more. */
  lemma {:induction false} ActionsBytesAtLeast(k: Tagging, acts: seq<Action>)
    requires forall i :: 0 <= i < |acts| ==> Encodable(acts[i])
    ensures |ActionsBytes(k, acts)| >= 16 * |acts|
    decreases |acts|
  {
    if |acts| > 0 {
      ActionsBytesAtLeast(k, acts[1..]);
    }
  }

  /** A turn without actions is exactly the 18-byte header. */
  lemma EmptyTurnSize(k: Tagging, container: seq<Byte>, t: MapTurn, player: Byte)
    requires Serializable(t) && t.actions == []
    ensures |SerializeToBytes(k, container, t, player)| == 18
  {
  }

  // ------------------------------------------------------------ decoder as written

  /**
   * The tag loop of `SerializeFromBytes` as written: it reads `count` tags at
   * consecutive 4-byte positions, switches on each and adds nothing.
   */
  function SkipTagsAsWritten(data: seq<Byte>, offset: nat, count: nat, acts: seq<Action>): (r: seq<Action>)
    requires offset + 4 * count <= |data|
    ensures r == acts
    decreases count
  {
    if count == 0 then acts
    else
      var tag := ScoopInt(data, offset).0;
      var acts' := match SelectionTypeFromTag(tag)
        case Some(SelectionMove) => acts
        case Some(SelectionGatherResource) => acts
        case _ => acts;
      SkipTagsAsWritten(data, offset + 4, count - 1, acts')
  }

  /** The reads of `SerializeFromBytes` stay inside `data`: header, then one tag per counted action. */
  predicate FromBytesInBounds(data: seq<Byte>, offset: int) {
    0 <= offset && offset + 16 <= |data| && offset + 16 + 4 * ScoopInt(data, offset + 12).0 <= |data|
  }

  /** `SerializeFromBytes` as written, applied to the turn `t` it is called on. */
  function SerializeFromBytesAsWritten(t: MapTurn, data: seq<Byte>, offset: int): (r: MapTurn)
    requires FromBytesInBounds(data, offset)
    ensures r.turnNumber == ScoopInt(data, offset).0
    ensures r.checkSum == ScoopLong(data, offset + 4).0
    ensures r.actions == t.actions
  {
    var turnNumber := ScoopInt(data, offset).0;
    var checkSum := ScoopLong(data, offset + 4).0;
    var actionCount := ScoopInt(data, offset + 12).0;
    var acts := if actionCount <= 0 then t.actions
                else SkipTagsAsWritten(data, offset + 16, actionCount, t.actions);
    MapTurn(turnNumber, checkSum, acts)
  }

  /** The header reads back from an encoded turn, whatever the player byte. */
  lemma HeaderAt(k: Tagging, t: MapTurn, player: Byte, w: seq<Byte>)
    requires Serializable(t) && w == TurnBytes(k, t, player)
    ensures |w| >= HEADER_SIZE && w[0] == PacketTypeByte(MapTurnPacket) && w[1] == player
    ensures ScoopInt(w, 2).0 == t.turnNumber
    ensures ScoopLong(w, 6).0 == t.checkSum
    ensures ScoopInt(w, 14).0 == |t.actions|
  {
    var a, b, c, d := BytesOf(t.turnNumber, 4), BytesOf(t.checkSum, 8), BytesOf(|t.actions|, 4), ActionsBytes(k, t.actions);
    var h := [PacketTypeByte(MapTurnPacket), player];
    Regroup5(h, a, b, c, d);
    IntAt(w, 2, h, t.turnNumber, b + c + d);
    LongAt(w, 6, h + a, t.checkSum, c + d);
    IntAt(w, 14, h + a + b, |t.actions|, d);
  }

  lemma Regroup5(h: seq<Byte>, a: seq<Byte>, b: seq<Byte>, c: seq<Byte>, d: seq<Byte>)
    ensures h + a + b + c + d == h + a + (b + c + d)
    ensures h + a + b + c + d == (h + a) + b + (c + d)
    ensures |h + a| == |h| + |a| && |h + a + b| == |h| + |a| + |b|
  {
  }

  /** The encoded turn satisfies the as-written decoder's bounds at offset 2. */
  lemma EncodedInBounds(k: Tagging, t: MapTurn, player: Byte, w: seq<Byte>)
    requires Serializable(t) && w == TurnBytes(k, t, player)
    ensures FromBytesInBounds(w, 2)
  {
    HeaderAt(k, t, player, w);
    ActionsBytesAtLeast(k, t.actions);
  }

  /** As written, decoding an encoded turn into a fresh one restores the turn number and checksum. */
  lemma AsWrittenHeaderRoundTrip(t: MapTurn, player: Byte)
    requires Serializable(t)
    ensures FromBytesInBounds(TurnBytes(AsWritten, t, player), 2)
    ensures SerializeFromBytesAsWritten(FRESH, TurnBytes(AsWritten, t, player), 2).turnNumber == t.turnNumber
    ensures SerializeFromBytesAsWritten(FRESH, TurnBytes(AsWritten, t, player), 2).checkSum == t.checkSum
  {
    HeaderAt(AsWritten, t, player, TurnBytes(AsWritten, t, player));
    EncodedInBounds(AsWritten, t, player, TurnBytes(AsWritten, t, player));
  }

  /** As written, every action is lost: the decoded turn has none, whatever was sent. */
  lemma AsWrittenDropsActions(t: MapTurn, player: Byte)
    requires Serializable(t) && |t.actions| > 0
    ensures FromBytesInBounds(TurnBytes(AsWritten, t, player), 2)
    ensures SerializeFromBytesAsWritten(FRESH, TurnBytes(AsWritten, t, player), 2).actions == []
    ensures SerializeFromBytesAsWritten(FRESH, TurnBytes(AsWritten, t, player), 2) != t
  {
    EncodedInBounds(AsWritten, t, player, TurnBytes(AsWritten, t, player));
  }

  // ------------------------------------------------------------ corrected decoder

  /** One action: the tag, then the Scoop of the class it names; None for any other tag or a short buffer. */
  function DecodeAction(data: seq<Byte>, offset: nat): (r: Option<(Action, nat)>)
    ensures r.Some? ==> offset + 4 <= |data| && IsSelectionAction(r.value.0) && Encodable(r.value.0)
    ensures r.Some? ==> ActionTag(r.value.0) == ScoopInt(data, offset).0 && offset + 16 <= r.value.1 <= |data|
  {
    if offset + 4 > |data| then None
    else
      match SelectionTypeFromTag(ScoopInt(data, offset).0)
      case Some(SelectionMove) => ScoopSelectionMove(data, offset + 4)
      case Some(SelectionGatherResource) => ScoopGatherResource(data, offset + 4)
      case _ => None
  }

  /** `count` actions, one after another. */
  function DecodeActions(data: seq<Byte>, offset: nat, count: nat): (r: Option<(seq<Action>, nat)>)
    ensures r.Some? ==> |r.value.0| == count && offset <= r.value.1
    ensures r.Some? ==> forall i :: 0 <= i < count ==> IsSelectionAction(r.value.0[i]) && Encodable(r.value.0[i])
    decreases count
  {
    if count == 0 then Some(([], offset))
    else
      match DecodeAction(data, offset)
      case None => None
      case Some((a, next)) =>
        match DecodeActions(data, next, count - 1)
        case None => None
        case Some((rest, last)) => Some(([a] + rest, last))
  }

  /**
   * `SerializeFromBytes` with the per-tag decoders in place, into a fresh turn;
   * a negative count reads no action, as the source's loop does.
   */
  function DecodeTurn(data: seq<Byte>, offset: nat): (r: Option<MapTurn>)
    ensures r.Some? ==> offset + 16 <= |data|
    ensures r.Some? ==> r.value.turnNumber == ScoopInt(data, offset).0 && r.value.checkSum == ScoopLong(data, offset + 4).0
    ensures r.Some? ==> |r.value.actions| == if ScoopInt(data, offset + 12).0 <= 0 then 0 else ScoopInt(data, offset + 12).0 as int
    ensures r.Some? ==> Serializable(r.value)
  {
    if offset + 16 > |data| then None
    else
      var turnNumber := ScoopInt(data, offset).0;
      var checkSum := ScoopLong(data, offset + 4).0;
      var actionCount := ScoopInt(data, offset + 12).0;
      if actionCount <= 0 then Some(MapTurn(turnNumber, checkSum, []))
      else
        match DecodeActions(data, offset + 16, actionCount)
        case None => None
        case Some((acts, _)) => Some(MapTurn(turnNumber, checkSum, acts))
  }

  /** A DecodeActions result that holds `acts` and ends at `next`. */
  predicate ReadsAllAs(r: Option<(seq<Action>, nat)>, acts: seq<Action>, next: int) {
    r.Some? && r.value.0 == acts && r.value.1 == next
  }

  /** A selection action reads back from its tag and payload, whatever surrounds them. */
  lemma ActionAt(w: seq<Byte>, o: nat, pre: seq<Byte>, a: Action, post: seq<Byte>)
    requires IsSelectionAction(a) && Encodable(a)
    requires w == pre + ActionBytes(Corrected, a) + post && o == |pre|
    ensures ReadsAs(DecodeAction(w, o), a, o + |ActionBytes(Corrected, a)|)
  {
    var tb, p := BytesOf(ActionTag(a), 4), Payload(a);
    Reassociate(pre, tb, p, post);
    IntAt(w, o, pre, ActionTag(a), p + post);
    var o1 := |pre + tb|;
    if a.SelectionMoveAction? {
      SelectionMoveAt(w, o1, pre + tb, a, post);
      DecodeMoveUnfold(w, o, o1, a, o1 + |p|);
    } else {
      GatherResourceAt(w, o1, pre + tb, a, post);
      DecodeGatherUnfold(w, o, o1, a, o1 + |p|);
    }
  }

  lemma DecodeMoveUnfold(w: seq<Byte>, o: nat, o1: nat, a: Action, next: int)
    requires o1 == o + 4 && o1 <= |w| && ScoopInt(w, o).0 == SelectionTag(SelectionMove)
    requires ReadsAs(ScoopSelectionMove(w, o1), a, next)
    ensures ReadsAs(DecodeAction(w, o), a, next)
  {
  }

  lemma DecodeGatherUnfold(w: seq<Byte>, o: nat, o1: nat, a: Action, next: int)
    requires o1 == o + 4 && o1 <= |w| && ScoopInt(w, o).0 == SelectionTag(SelectionGatherResource)
    requires ReadsAs(ScoopGatherResource(w, o1), a, next)
    ensures ReadsAs(DecodeAction(w, o), a, next)
  {
  }

  /** The action list reads back, in order, from its bytes, whatever surrounds them. */
  lemma {:induction false} ActionsAt(w: seq<Byte>, o: nat, pre: seq<Byte>, acts: seq<Action>, post: seq<Byte>)
    requires forall i :: 0 <= i < |acts| ==> Encodable(acts[i]) && IsSelectionAction(acts[i])
    requires w == pre + ActionsBytes(Corrected, acts) + post && o == |pre|
    ensures ReadsAllAs(DecodeActions(w, o, |acts|), acts, o + |ActionsBytes(Corrected, acts)|)
    decreases |acts|
  {
    if |acts| > 0 {
      var x, rest := ActionBytes(Corrected, acts[0]), ActionsBytes(Corrected, acts[1..]);
      Reassociate(pre, x, rest, post);
      ActionAt(w, o, pre, acts[0], rest + post);
      var o1 := |pre + x|;
      ActionsAt(w, o1, pre + x, acts[1..], post);
      DecodeActionsCons(w, o, |acts|, acts[0], o1, acts[1..], o1 + |rest|);
      assert [acts[0]] + acts[1..] == acts;
    }
  }

  /** One step of the action loop: the first action, then the remaining ones. */
  lemma DecodeActionsCons(w: seq<Byte>, o: nat, n: nat, a: Action, o1: nat, rest: seq<Action>, last: int)
    requires n == |rest| + 1
    requires ReadsAs(DecodeAction(w, o), a, o1)
    requires ReadsAllAs(DecodeActions(w, o1, |rest|), rest, last)
    ensures ReadsAllAs(DecodeActions(w, o, n), [a] + rest, last)
  {
  }

  /**
   * The corrected decoder inverts the encoder: every turn whose actions are
   * selection actions comes back whole from offset 2, past the type and player bytes.
   */
  lemma DecodeTurnRoundTrip(t: MapTurn, player: Byte)
    requires Serializable(t)
    requires forall i :: 0 <= i < |t.actions| ==> IsSelectionAction(t.actions[i])
    ensures DecodeTurn(TurnBytes(Corrected, t, player), 2) == Some(t)
  {
    var w := TurnBytes(Corrected, t, player);
    HeaderAt(Corrected, t, player, w);
    var h := [PacketTypeByte(MapTurnPacket), player] + BytesOf(t.turnNumber, 4) + BytesOf(t.checkSum, 8)
      + BytesOf(|t.actions|, 4);
    assert w == h + ActionsBytes(Corrected, t.actions) + [];
    if |t.actions| > 0 {
      ActionsAt(w, 18, h, t.actions, []);
      DecodeTurnUnfold(w, t);
    }
  }

  lemma DecodeTurnUnfold(w: seq<Byte>, t: MapTurn)
    requires 18 <= |w| && |t.actions| > 0
    requires ScoopInt(w, 2).0 == t.turnNumber && ScoopLong(w, 6).0 == t.checkSum
    requires ScoopInt(w, 14).0 == |t.actions|
    requires DecodeActions(w, 18, |t.actions|).Some? && DecodeActions(w, 18, |t.actions|).value.0 == t.actions
    ensures DecodeTurn(w, 2) == Some(t)
  {
  }

  /**
   * The two generations' tags collide: MoveUnits is written with ordinal 1,
   * which the actions/ tag set reads as SELECTION_MOVE.
   */
  lemma MoveUnitsTagIsSelectionMove(a: Action)
    requires a.MoveUnitsAction?
    ensures ActionTag(a) == SelectionTag(SelectionMove)
    ensures SelectionTypeFromTag(ActionTag(a)) == Some(SelectionMove)
  {
  }

  // ------------------------------------------------------------ the two encoders

  /** Splitting a concatenation at a boundary both sides share. */
  lemma ConcatEq(x: seq<Byte>, xs: seq<Byte>, y: seq<Byte>, ys: seq<Byte>)
    requires |x| == |y|
    ensures x + xs == y + ys <==> x == y && xs == ys
  {
    if x + xs == y + ys {
      assert x == (x + xs)[..|x|] && y == (y + ys)[..|y|];
      assert xs == (x + xs)[|x|..] && ys == (y + ys)[|y|..];
    }
  }

  /**
   * One action: the two encoders write the same bytes unless it is a gather,
   * whose tag field ends in 1 as written and in 2 corrected.
   */
  lemma ActionBytesCompare(a: Action)
    requires Encodable(a)
    ensures |ActionBytes(AsWritten, a)| == |ActionBytes(Corrected, a)|
    ensures ActionBytes(AsWritten, a) == ActionBytes(Corrected, a) <==> !a.GatherResourceAction?
    ensures a.GatherResourceAction? ==> ActionBytes(AsWritten, a)[3] == 1 && ActionBytes(Corrected, a)[3] == 2
  {
    if a.GatherResourceAction? {
      assert ActionBytes(AsWritten, a)[3] == BytesOf(1, 4)[3];
      assert ActionBytes(Corrected, a)[3] == BytesOf(2, 4)[3];
    }
  }

  /** No action of the list is a gather. */
  predicate NoGather(acts: seq<Action>) {
    forall i :: 0 <= i < |acts| ==> !acts[i].GatherResourceAction?
  }

  lemma NoGatherCons(acts: seq<Action>)
    requires |acts| > 0
    ensures NoGather(acts) <==> !acts[0].GatherResourceAction? && NoGather(acts[1..])
  {
    assert forall i :: 0 <= i < |acts| - 1 ==> acts[1..][i] == acts[i + 1];
  }

  /** An action list: the lengths always agree, and the bytes exactly when no action is a gather. */
  lemma {:induction false} ActionsBytesCompare(acts: seq<Action>)
    requires forall i :: 0 <= i < |acts| ==> Encodable(acts[i])
    ensures |ActionsBytes(AsWritten, acts)| == |ActionsBytes(Corrected, acts)|
    ensures ActionsBytes(AsWritten, acts) == ActionsBytes(Corrected, acts) <==> NoGather(acts)
    decreases |acts|
  {
    if |acts| > 0 {
      var rest := acts[1..];
      var x, xs := ActionBytes(AsWritten, acts[0]), ActionsBytes(AsWritten, rest);
      var y, ys := ActionBytes(Corrected, acts[0]), ActionsBytes(Corrected, rest);
      assert ActionsBytes(AsWritten, acts) == x + xs;
      assert ActionsBytes(Corrected, acts) == y + ys;
      ActionBytesCompare(acts[0]);
      ActionsBytesCompare(rest);
      ConcatEq(x, xs, y, ys);
      NoGatherCons(acts);
    }
  }

  /**
   * The program's packet and the corrected one have the same length and the
   * same 18-byte header, and are the same packet exactly when the turn holds
   * no gather action.
   */
  lemma TurnBytesCompare(t: MapTurn, player: Byte)
    requires Serializable(t)
    ensures |TurnBytes(AsWritten, t, player)| == |TurnBytes(Corrected, t, player)|
    ensures TurnBytes(AsWritten, t, player)[..HEADER_SIZE] == TurnBytes(Corrected, t, player)[..HEADER_SIZE]
    ensures TurnBytes(AsWritten, t, player) == TurnBytes(Corrected, t, player) <==> NoGather(t.actions)
  {
    var h := [PacketTypeByte(MapTurnPacket), player] + BytesOf(t.turnNumber, 4) + BytesOf(t.checkSum, 8)
      + BytesOf(|t.actions|, 4);
    ActionsBytesCompare(t.actions);
    ConcatEq(h, ActionsBytes(AsWritten, t.actions), h, ActionsBytes(Corrected, t.actions));
    assert TurnBytes(AsWritten, t, player)[..HEADER_SIZE] == h;
    assert TurnBytes(Corrected, t, player)[..HEADER_SIZE] == h;
  }

  /**
   * A turn whose first action is a gather: the program writes SELECTION_MOVE's
   * ordinal 1 into byte 21, the last byte of that action's tag, where the
   * corrected encoder writes SELECTION_GATHER_RESOURCE's 2.
   */
  lemma GatherTagOnWire(t: MapTurn, player: Byte)
    requires Serializable(t) && |t.actions| > 0 && t.actions[0].GatherResourceAction?
    ensures |TurnBytes(AsWritten, t, player)| > 21 && TurnBytes(AsWritten, t, player)[21] == 1
    ensures |TurnBytes(Corrected, t, player)| > 21 && TurnBytes(Corrected, t, player)[21] == 2
  {
    var h := [PacketTypeByte(MapTurnPacket), player] + BytesOf(t.turnNumber, 4) + BytesOf(t.checkSum, 8)
      + BytesOf(|t.actions|, 4);
    ActionBytesCompare(t.actions[0]);
    TagByteAt(AsWritten, t, player, h);
    TagByteAt(Corrected, t, player, h);
  }

  /** Byte 21 of a packet is byte 3 of its first action. */
  lemma TagByteAt(k: Tagging, t: MapTurn, player: Byte, h: seq<Byte>)
    requires Serializable(t) && |t.actions| > 0
    requires h == [PacketTypeByte(MapTurnPacket), player] + BytesOf(t.turnNumber, 4) + BytesOf(t.checkSum, 8)
      + BytesOf(|t.actions|, 4)
    ensures |TurnBytes(k, t, player)| > 21 && TurnBytes(k, t, player)[21] == ActionBytes(k, t.actions[0])[3]
  {
    var x, xs := ActionBytes(k, t.actions[0]), ActionsBytes(k, t.actions[1..]);
    assert ActionsBytes(k, t.actions) == x + xs;
    assert TurnBytes(k, t, player) == h + (x + xs);
    assert |h| == 18 && |x| >= 4;
    assert (h + (x + xs))[21] == x[3];
  }
}
