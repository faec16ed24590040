/** Declared attempts written out as a transcript, and what replaying it yields (`columns.ts`). */
module ScriptedColumn {
  import opened Foundations
  import opened Json
  import opened Transcript
  import opened HarnessSession

  /** One declared call; `arguments` are the ones it is issued with, forgery included. */
  datatype Attempt = Attempt(
    id: Text, tool: Option<Text>, arguments: Json, turn: Option<int>,
    overBudget: bool, inspect: bool, unreachable: bool)

  datatype Terminal = EndEscalating(reason: Text) | EndCrashing(reason: Text)

  datatype Move = Move(id: Text, attempts: seq<Attempt>, terminal: Option<Terminal>)

  datatype Writer = Writer(toolCall: (Text, Text, Json) -> Frame, complete: Json -> Frame)

  datatype Asking = Asking(callId: Text, tool: Text, arguments: Json)

  predicate IssuableByHarness(attempt: Attempt, turn: int) {
    && (if attempt.turn.Some? then attempt.turn.value else 1) == turn
    && !attempt.unreachable && !attempt.inspect && attempt.tool.Some?
  }

  // ----- Which attempts are issued, in which order

  /** Where an attempt stands: which move, and which of its attempts. */
  datatype Place = Place(move: nat, attempt: nat)

  predicate IsPlace(moves: seq<Move>, place: Place) {
    place.move < |moves| && place.attempt < |moves[place.move].attempts|
  }

  function At(moves: seq<Move>, place: Place): Attempt
    requires IsPlace(moves, place)
  {
    moves[place.move].attempts[place.attempt]
  }

  predicate Precedes(a: Place, b: Place) { a.move < b.move || (a.move == b.move && a.attempt < b.attempt) }

  ghost predicate IsIssuable(moves: seq<Move>, turn: int, place: Place) {
    IsPlace(moves, place) && IssuableByHarness(At(moves, place), turn)
  }

  /** A place, or the end of the attempts of a move, or the end of the moves. */
  predicate IsBound(moves: seq<Move>, i: nat, j: nat) {
    if i < |moves| then j <= |moves[i].attempts| else i == |moves| && j == 0
  }

  /** The issuable attempts that precede attempt `j` of move `i`. */
  function IssuedBefore(moves: seq<Move>, turn: int, i: nat, j: nat): (places: seq<Place>)
    requires IsBound(moves, i, j)
    ensures forall k :: 0 <= k < |places| ==> IsIssuable(moves, turn, places[k]) && Precedes(places[k], Place(i, j))
    decreases i, j
  {
    if j > 0 then
      IssuedBefore(moves, turn, i, j - 1)
      + if IssuableByHarness(moves[i].attempts[j - 1], turn) then [Place(i, j - 1)] else []
    else if i > 0 then IssuedBefore(moves, turn, i - 1, |moves[i - 1].attempts|)
    else []
  }

  lemma IssuedOneMore(moves: seq<Move>, turn: int, i: nat, j: nat)
    requires IsBound(moves, i, j)
    ensures IssuedBefore(moves, turn, 0, 0) == []
    ensures i < |moves| && j < |moves[i].attempts| ==>
      IssuedBefore(moves, turn, i, j + 1)
      == if IssuableByHarness(moves[i].attempts[j], turn)
         then IssuedBefore(moves, turn, i, j) + [Place(i, j)] else IssuedBefore(moves, turn, i, j)
    ensures i < |moves| && j == |moves[i].attempts| ==>
      IssuedBefore(moves, turn, i + 1, 0) == IssuedBefore(moves, turn, i, j)
  {
    assert IssuedBefore(moves, turn, i, j) + [] == IssuedBefore(moves, turn, i, j);
  }

  function Issued(moves: seq<Move>, turn: int): (places: seq<Place>)
    ensures forall k :: 0 <= k < |places| ==> IsIssuable(moves, turn, places[k])
  {
    IssuedBefore(moves, turn, |moves|, 0)
  }

  lemma {:induction false} IssuedBeforeIsOrderedAndWhole(moves: seq<Move>, turn: int, i: nat, j: nat)
    requires IsBound(moves, i, j)
    ensures
      var places := IssuedBefore(moves, turn, i, j);
      && (forall a, b :: 0 <= a < b < |places| ==> Precedes(places[a], places[b]))
      && (forall place :: IsIssuable(moves, turn, place) && Precedes(place, Place(i, j)) ==> place in places)
    decreases i, j
  {
    if j > 0 {
      IssuedBeforeIsOrderedAndWhole(moves, turn, i, j - 1);
      forall place | IsIssuable(moves, turn, place) && Precedes(place, Place(i, j))
        ensures place in IssuedBefore(moves, turn, i, j)
      {
        assert Precedes(place, Place(i, j - 1)) || place == Place(i, j - 1);
      }
    } else if i > 0 {
      IssuedBeforeIsOrderedAndWhole(moves, turn, i - 1, |moves[i - 1].attempts|);
      forall place | IsIssuable(moves, turn, place) && Precedes(place, Place(i, j))
        ensures Precedes(place, Place(i - 1, |moves[i - 1].attempts|))
      {
      }
    }
  }

  /** Every attempt of this turn that names a tool and can be made is issued, once, as declared, and nothing else is. */
  lemma IssuedIsTheIssuableInOrder(moves: seq<Move>, turn: int)
    ensures
      var places := Issued(moves, turn);
      && (forall a, b :: 0 <= a < b < |places| ==>
            places[a].move < places[b].move || (places[a].move == places[b].move && places[a].attempt < places[b].attempt))
      && (forall place :: place in places <==>
            && place.move < |moves| && place.attempt < |moves[place.move].attempts|
            && var attempt := moves[place.move].attempts[place.attempt];
               && (attempt.turn == Some(turn) || (attempt.turn.None? && turn == 1))
               && attempt.tool.Some? && !attempt.unreachable && !attempt.inspect)
  {
    IssuedBeforeIsOrderedAndWhole(moves, turn, |moves|, 0);
    forall place | place in Issued(moves, turn) ensures IsIssuable(moves, turn, place) {
      var k :| 0 <= k < |Issued(moves, turn)| && Issued(moves, turn)[k] == place;
    }
  }

  // ----- The transcript

  const DOT: CodeUnit := 0x2E

  function AttemptCallId(executionId: Text, move: Move, attempt: Attempt): Text {
    executionId + [DOT] + move.id + [DOT] + attempt.id
  }

  function AskingAt(executionId: Text, moves: seq<Move>, turn: int, place: Place): Asking
    requires IsIssuable(moves, turn, place)
  {
    var attempt := At(moves, place);
    Asking(AttemptCallId(executionId, moves[place.move], attempt), attempt.tool.value, attempt.arguments)
  }

  function AskingsBefore(executionId: Text, moves: seq<Move>, turn: int, i: nat, j: nat): seq<Asking>
    requires IsBound(moves, i, j)
  {
    var places := IssuedBefore(moves, turn, i, j);
    seq(|places|, k requires 0 <= k < |places| => AskingAt(executionId, moves, turn, places[k]))
  }

  /** The reason of the first move that declares how its turn ends. */
  function EndingReason(moves: seq<Move>): (reason: Option<Text>) {
    var first := FirstIndex((move: Move) => move.terminal.Some?, moves);
    if first == |moves| then None else Some(moves[first].terminal.value.reason)
  }

  /** The ending is the one the first move with an ending declares, whatever its kind. */
  lemma EndingIsTheFirstDeclared(moves: seq<Move>, i: nat)
    requires i < |moves| && forall j :: 0 <= j < i ==> moves[j].terminal.None?
    ensures moves[i].terminal.None? && i == |moves| - 1 ==> EndingReason(moves).None?
    ensures moves[i].terminal.Some? ==>
      EndingReason(moves) == match moves[i].terminal.value
                             case EndEscalating(reason) => Some(reason)
                             case EndCrashing(reason) => Some(reason)
  {
  }

  function EscalationEnding(executionId: Text, moves: seq<Move>): seq<Asking> {
    if EndingReason(moves).None? then []
    else [Asking(executionId + [DOT] + Ascii("escalate"), ESCALATION_TOOL_NAME, EscalationArguments(EndingReason(moves).value))]
  }

  /** Every call a transcript carries, in order: the issued attempts, then the declared ending. */
  function Askings(executionId: Text, moves: seq<Move>, turn: int): seq<Asking> {
    AskingsBefore(executionId, moves, turn, |moves|, 0) + EscalationEnding(executionId, moves)
  }

  function Batch(writer: Writer, asking: Asking): seq<Frame> {
    [writer.toolCall(asking.callId, asking.tool, asking.arguments)]
  }

  function BatchesOf(writer: Writer, askings: seq<Asking>): Batches {
    seq(|askings|, k requires 0 <= k < |askings| => Batch(writer, askings[k]))
  }

  const TRANSCRIPT := Ascii("transcript")

  function Closing(writer: Writer, executionId: Text): seq<Frame> {
    [writer.complete(JObject([Entry(TRANSCRIPT, JString(executionId))]))]
  }

  /** One batch per call, and a last one in which the turn completes. */
  method MovesToTranscript(writer: Writer, moves: seq<Move>, executionId: Text, turn: int) returns (batches: Batches)
    ensures batches == BatchesOf(writer, Askings(executionId, moves, turn)) + [Closing(writer, executionId)]
  {
    batches := [];
    for i := 0 to |moves|
      invariant batches == BatchesOf(writer, AskingsBefore(executionId, moves, turn, i, 0))
    {
      var move := moves[i];
      for j := 0 to |move.attempts|
        invariant batches == BatchesOf(writer, AskingsBefore(executionId, moves, turn, i, j))
      {
        var attempt := move.attempts[j];
        if IssuableByHarness(attempt, turn) {
          batches := batches + [[writer.toolCall(AttemptCallId(executionId, move, attempt), attempt.tool.value, attempt.arguments)]];
        }
      }
    }
    var ending := EscalationEnding(executionId, moves);
    if ending != [] {
      batches := batches + [Batch(writer, ending[0])];
    }
    batches := batches + [Closing(writer, executionId)];
  }

  // ----- The step a driver names past its budget

  /** Position `p` of the released calls is the last attempt declared to be over budget. */
  ghost predicate IsLastOverBudget(moves: seq<Move>, places: seq<Place>, p: int)
    requires forall k :: 0 <= k < |places| ==> IsPlace(moves, places[k])
  {
    && 0 <= p < |places| && At(moves, places[p]).overBudget
    && forall k :: p < k < |places| ==> !At(moves, places[k]).overBudget
  }

  ghost predicate AnyOverBudget(moves: seq<Move>, places: seq<Place>)
    requires forall k :: 0 <= k < |places| ==> IsPlace(moves, places[k])
  {
    exists k :: 0 <= k < |places| && At(moves, places[k]).overBudget
  }

  predicate ToolBudgetIsSpent(position: nat, request: TurnRequest) {
    request.maxToolCalls.Some? && position >= request.maxToolCalls.value
  }

  /** Names the turn's step ceiling at the target, unless the tool budget is the one exceeded there. */
  function StepBeyond(target: int): DeclareStep {
    (position: nat, request: TurnRequest) =>
      if position != target || ToolBudgetIsSpent(position, request) then None else request.maxSteps
  }

  /** The last over-budget call names the step ceiling, unless the tool budget is spent there; no other names any. */
  ghost predicate DeclaresOverBudget(declare: Option<DeclareStep>, moves: seq<Move>, turn: int) {
    forall position: nat, request :: StepDeclared(declare, position, request)
      == if IsLastOverBudget(moves, Issued(moves, turn), position)
            && (request.maxToolCalls.Some? ==> position < request.maxToolCalls.value)
         then request.maxSteps else None
  }

  method OverBudgetStep(moves: seq<Move>, turn: int) returns (declare: Option<DeclareStep>)
    ensures declare.Some? <==> AnyOverBudget(moves, Issued(moves, turn))
    ensures DeclaresOverBudget(declare, moves, turn)
  {
    hide IssuedBefore, IsTarget;
    var target, index := -1, 0;
    IssuedOneMore(moves, turn, 0, 0);
    NoTarget(moves);
    for i := 0 to |moves|
      invariant IsTarget(moves, IssuedBefore(moves, turn, i, 0), target) && index == |IssuedBefore(moves, turn, i, 0)|
    {
      for j := 0 to |moves[i].attempts|
        invariant IsTarget(moves, IssuedBefore(moves, turn, i, j), target) && index == |IssuedBefore(moves, turn, i, j)|
      {
        IssuedOneMore(moves, turn, i, j);
        if IssuableByHarness(moves[i].attempts[j], turn) {
          TargetOfOneMore(moves, IssuedBefore(moves, turn, i, j), Place(i, j), target);
          if moves[i].attempts[j].overBudget { target := index; }
          index := index + 1;
        }
      }
      IssuedOneMore(moves, turn, i, |moves[i].attempts|);
    }
    TargetMeans(moves, Issued(moves, turn), target);
    if target == -1 { return None; }
    return Some(StepBeyond(target));
  }

  ghost predicate IsTarget(moves: seq<Move>, places: seq<Place>, target: int)
    requires forall k :: 0 <= k < |places| ==> IsPlace(moves, places[k])
  {
    if AnyOverBudget(moves, places) then IsLastOverBudget(moves, places, target) else target == -1
  }

  lemma NoTarget(moves: seq<Move>)
    ensures IsTarget(moves, [], -1)
  {
  }

  lemma TargetMeans(moves: seq<Move>, places: seq<Place>, target: int)
    requires forall k :: 0 <= k < |places| ==> IsPlace(moves, places[k])
    requires IsTarget(moves, places, target)
    ensures target == -1 <==> !AnyOverBudget(moves, places)
    ensures forall p :: IsLastOverBudget(moves, places, p) <==> p == target != -1
  {
  }

  lemma TargetOfOneMore(moves: seq<Move>, places: seq<Place>, place: Place, target: int)
    requires (forall k :: 0 <= k < |places| ==> IsPlace(moves, places[k])) && IsPlace(moves, place)
    requires IsTarget(moves, places, target)
    ensures IsTarget(moves, places + [place], if At(moves, place).overBudget then |places| else target)
  {
    var more := places + [place];
    assert forall k :: 0 <= k < |places| ==> more[k] == places[k];
    assert more[|places|] == place;
    if AnyOverBudget(moves, places) { assert At(moves, more[target]).overBudget; }
  }
}
