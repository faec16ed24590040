/** Replaying a written transcript through the session yields what was declared. */
module ScriptedReplay {
  import opened Foundations
  import opened Json
  import opened Transcript
  import opened HarnessSession
  import opened ScriptedColumn

  /** At most `n` calls of `next`, going on while the decision is a tool call, each answered. */
  function Replay(setting: Setting, turn: Turn, input: Input, answers: nat -> Json, n: nat): seq<Decision>
    requires IsTurn(setting, turn)
    decreases n
  {
    if n == 0 then []
    else
      var (decision, after) := NextTurn(setting, turn, input);
      [decision]
      + if decision.Call? then Replay(setting, after, Answered(answers(after.held.released)), answers, n - 1) else []
  }

  const OPENED := Turn(Held([], [], 0), 0, 0)

  /** The session before call `p` of a script whose first `p` calls were all released. */
  function Before(p: nat): Turn { Turn(Held([], [], p), p, if p == 0 then 0 else p - 1) }

  function InputBefore(p: nat, answers: nat -> Json): Input { if p == 0 then Started else Answered(answers(p)) }

  /** Every batch is one frame that means one step, and no step is prose. */
  ghost predicate IsScript(protocol: Protocol, batches: Batches, steps: seq<Step>) {
    && |batches| == |steps|
    && forall k :: 0 <= k < |steps| ==>
      |batches[k]| == 1 && protocol.interpret(batches[k][0]) == [steps[k]] && !steps[k].Message?
  }

  predicate IsReleased(seat: Seat, step: Step) {
    step.Asked? && seat.AskedToEscalate(step.tool, step.arguments).None?
  }

  lemma {:induction false} SpokenScript(protocol: Protocol, batches: Batches, steps: seq<Step>, n: nat)
    requires IsScript(protocol, batches, steps) && n <= |batches|
    ensures |Spoken(batches, n)| == n
    ensures forall k :: 0 <= k < n ==> Spoken(batches, n)[k] == batches[k][0]
  {
    if n > 0 { SpokenScript(protocol, batches, steps, n - 1); }
  }

  /** One call of `next`, one step of the script. */
  lemma ScriptedNext(setting: Setting, steps: seq<Step>, p: nat, answers: nat -> Json)
    requires IsScript(setting.protocol, setting.batches, steps) && p < |steps|
    ensures IsTurn(setting, Before(p))
    ensures
      var r := NextTurn(setting, Before(p), InputBefore(p, answers));
      && r.0 == Decide(setting.seat, [], p, steps[p])
      && (r.0.Call? <==> IsReleased(setting.seat, steps[p]))
      && (r.0.Call? ==> r.1 == Before(p + 1))
  {
    hide Poll, Spoken, EscalationRequest;
    var (protocol, seat, batches, turn) := (setting.protocol, setting.seat, setting.batches, Before(p));
    SpokenScript(protocol, batches, steps, p + 1);
    if p > 0 { SpokenScript(protocol, batches, steps, p); }
    var ahead := Ahead(setting, turn, InputBefore(p, answers));
    assert ahead == [batches[p][0]];
    PollOnScript(protocol, seat, p, batches[p][0], steps[p], setting.maxIgnoredFrames + 1);
  }

  lemma PollOnScript(protocol: Protocol, seat: Seat, released: nat, frame: Frame, step: Step, limit: nat)
    requires protocol.interpret(frame) == [step] && !step.Message? && limit > 1
    ensures
      var decision := Decide(seat, [], released, step);
      Poll(protocol, seat, Held([], [], released), [frame], limit)
      == Polled(decision, Held([], [], released + if decision.Call? then 1 else 0), 1)
  {
    hide Poll, Decide;
    var held := Held([], [], released);
    PollOnce(protocol, seat, held, [frame], limit);
    assert Drained(seat, held) == (None, held) by { assert held.messages + Prose([]) == []; }
    var more := held.(pending := [step]);
    assert [] + protocol.interpret([frame][0]) == [step];
    PollOnce(protocol, seat, more, [frame][1..], limit - 1);
    assert FirstSaid(more.pending) == 0;
    assert more.messages + Prose(more.pending[..0]) == [] && more.pending[1..] == [];
  }

  /** The first step that is not released as a tool call: an escalation, or an ending. */
  function Stop(seat: Seat, steps: seq<Step>): (stop: nat)
    ensures stop <= |steps| && forall k :: 0 <= k < stop ==> IsReleased(seat, steps[k])
    ensures stop < |steps| ==> !IsReleased(seat, steps[stop])
  {
    FirstIndex((step: Step) => !IsReleased(seat, step), steps)
  }

  lemma ReplayOnce(setting: Setting, turn: Turn, input: Input, answers: nat -> Json, n: nat)
    requires IsTurn(setting, turn)
    ensures n == 0 ==> Replay(setting, turn, input, answers, n) == []
    ensures n > 0 ==>
      var (decision, after) := NextTurn(setting, turn, input);
      Replay(setting, turn, input, answers, n)
      == [decision]
      + if decision.Call? then Replay(setting, after, Answered(answers(after.held.released)), answers, n - 1) else []
  {
  }

  /** A script is played step by step as far as its stop, each step one decision, numbered as released. */
  lemma {:induction false} ReplayFrom(setting: Setting, steps: seq<Step>, p: nat, answers: nat -> Json, n: nat)
    requires IsScript(setting.protocol, setting.batches, steps)
    requires p <= Stop(setting.seat, steps) < |steps|
    ensures IsTurn(setting, Before(p))
    ensures
      var replay := Replay(setting, Before(p), InputBefore(p, answers), answers, n);
      var length := Stop(setting.seat, steps) + 1 - p;
      && |replay| == (if n < length then n else length)
      && forall k :: 0 <= k < |replay| ==> replay[k] == Decide(setting.seat, [], p + k, steps[p + k])
    decreases n
  {
    hide NextTurn, Decide, IsTurn, Replay, IsReleased;
    ScriptedNext(setting, steps, p, answers);
    ReplayOnce(setting, Before(p), InputBefore(p, answers), answers, n);
    if n > 0 && p < Stop(setting.seat, steps) {
      ReplayFrom(setting, steps, p + 1, answers, n - 1);
      var replay := Replay(setting, Before(p), InputBefore(p, answers), answers, n);
      var rest := Replay(setting, Before(p + 1), InputBefore(p + 1, answers), answers, n - 1);
      assert replay == [Decide(setting.seat, [], p, steps[p])] + rest;
      forall k | 0 < k < |replay| ensures replay[k] == Decide(setting.seat, [], p + k, steps[p + k]) {
        assert replay[k] == rest[k - 1];
      }
    }
  }

  // ----- The declared moves

  /** The codec reads back what its writer wrote: each call as itself, the closing frame as an ending. */
  ghost predicate ReadsBack(protocol: Protocol, writer: Writer, askings: seq<Asking>, executionId: Text) {
    && (forall k :: 0 <= k < |askings| ==>
      protocol.interpret(Batch(writer, askings[k])[0]) == [AskedStep(askings[k])])
    && var closing := protocol.interpret(Closing(writer, executionId)[0]);
    |closing| == 1 && closing[0].Completed?
  }

  /** How a script's turn completes: with the output and metadata its closing frame is read as, or with no text. */
  ghost function ClosingDecision(protocol: Protocol, writer: Writer, executionId: Text): (decision: Decision)
    requires
      var closing := protocol.interpret(Closing(writer, executionId)[0]);
      |closing| == 1 && closing[0].Completed?
    ensures decision.Complete?
  {
    match protocol.interpret(writer.complete(JObject([Entry(Ascii("transcript"), JString(executionId))])))[0]
    case Completed(output, metadata) =>
      Complete(if output in {None, Some(JNull)} then JObject([Entry(Ascii("text"), JString([]))]) else output.value, metadata)
  }

  function AskedStep(asking: Asking): Step { Asked(asking.callId, asking.tool, asking.arguments) }

  /** The steps a transcript of `askings` means. */
  function StepsOf(protocol: Protocol, writer: Writer, askings: seq<Asking>, executionId: Text): seq<Step> {
    seq(|askings|, k requires 0 <= k < |askings| => AskedStep(askings[k]))
    + protocol.interpret(Closing(writer, executionId)[0])
  }

  /** How far a turn goes: up to the first call to the escalate tool, where the turn holds it. */
  function Reached(seat: Seat, askings: seq<Asking>): (reached: nat)
    ensures reached <= |askings|
    ensures forall k :: 0 <= k < reached ==> !(seat.EscalationOffered() && askings[k].tool == ESCALATION_TOOL_NAME)
    ensures reached < |askings| ==> seat.EscalationOffered() && askings[reached].tool == ESCALATION_TOOL_NAME
  {
    FirstIndex((asking: Asking) => seat.EscalationOffered() && asking.tool == ESCALATION_TOOL_NAME, askings)
  }

  lemma ScriptOfAskings(protocol: Protocol, seat: Seat, writer: Writer, askings: seq<Asking>, executionId: Text)
    requires ReadsBack(protocol, writer, askings, executionId)
    ensures
      var steps := StepsOf(protocol, writer, askings, executionId);
      && IsScript(protocol, BatchesOf(writer, askings) + [Closing(writer, executionId)], steps)
      && |steps| == |askings| + 1
      && Stop(seat, steps) == Reached(seat, askings)
  {
    var steps := StepsOf(protocol, writer, askings, executionId);
    var batches := BatchesOf(writer, askings) + [Closing(writer, executionId)];
    forall k | 0 <= k < |steps|
      ensures |batches[k]| == 1 && protocol.interpret(batches[k][0]) == [steps[k]] && !steps[k].Message?
      ensures IsReleased(seat, steps[k])
        <==> k < |askings| && !(seat.EscalationOffered() && askings[k].tool == ESCALATION_TOOL_NAME)
    {
      if k < |askings| { assert batches[k] == Batch(writer, askings[k]); }
    }
    var (stop, reached) := (Stop(seat, steps), Reached(seat, askings));
    assert !IsReleased(seat, steps[reached]);
    if stop < reached { assert false; }
  }

  /**
   * A scripted turn: one call of `next` per declared call, in order, as far as the turn reaches;
   * then the escalation that stopped it, or the declared completion. It never fails.
   */
  lemma ReplayYieldsWhatWasDeclared(
    setting: Setting, writer: Writer, askings: seq<Asking>, executionId: Text, answers: nat -> Json, n: nat)
    requires ReadsBack(setting.protocol, writer, askings, executionId)
    requires setting.batches == BatchesOf(writer, askings) + [Closing(writer, executionId)]
    requires n > |askings|
    ensures IsTurn(setting, OPENED)
    ensures
      var (seat, reached) := (setting.seat, Reached(setting.seat, askings));
      var replay := Replay(setting, OPENED, Started, answers, n);
      && |replay| == reached + 1
      && (forall k :: 0 <= k < reached ==>
        replay[k] == Call(seat.Stamped(askings[k].callId, askings[k].tool, askings[k].arguments), seat.StepAt(k)))
      && (if reached < |askings|
          then replay[reached].Escalate?
               && Some(replay[reached].reason) == EscalationRequest(ESCALATION_TOOL_NAME, askings[reached].arguments, seat.trim)
          else replay[reached] == ClosingDecision(setting.protocol, writer, executionId))
  {
    hide Replay, NextTurn, Decide, IsTurn, IsScript, Stop;
    var steps := StepsOf(setting.protocol, writer, askings, executionId);
    ScriptOfAskings(setting.protocol, setting.seat, writer, askings, executionId);
    ReplayFrom(setting, steps, 0, answers, n);
    assert Before(0) == OPENED && InputBefore(0, answers) == Started;
    var reached := Reached(setting.seat, askings);
    forall k | 0 <= k <= reached
      ensures IsDecidedAsAsked(setting, writer, askings, executionId, k, Decide(setting.seat, [], k, steps[k]))
    {
      StepDecided(setting, writer, askings, executionId, k);
    }
  }

  /** What call `k` of a script comes to: released and stamped, an escalation, or past them all the ending. */
  ghost predicate IsDecidedAsAsked(
    setting: Setting, writer: Writer, askings: seq<Asking>, executionId: Text, k: nat, decision: Decision)
    requires ReadsBack(setting.protocol, writer, askings, executionId)
  {
    var (seat, reached) := (setting.seat, Reached(setting.seat, askings));
    if k < reached then
      decision == Call(seat.Stamped(askings[k].callId, askings[k].tool, askings[k].arguments), seat.StepAt(k))
    else if reached < |askings| then
      && decision.Escalate?
      && Some(decision.reason) == EscalationRequest(ESCALATION_TOOL_NAME, askings[reached].arguments, seat.trim)
    else decision == ClosingDecision(setting.protocol, writer, executionId)
  }

  lemma StepDecided(setting: Setting, writer: Writer, askings: seq<Asking>, executionId: Text, k: nat)
    requires ReadsBack(setting.protocol, writer, askings, executionId) && k <= Reached(setting.seat, askings)
    ensures
      var steps := StepsOf(setting.protocol, writer, askings, executionId);
      !steps[k].Message?
      && IsDecidedAsAsked(setting, writer, askings, executionId, k, Decide(setting.seat, [], k, steps[k]))
  {
    hide ClosingDecision;
    var steps := StepsOf(setting.protocol, writer, askings, executionId);
    if k == |askings| {
      assert steps[k] == setting.protocol.interpret(Closing(writer, executionId)[0])[0];
      ClosingIsDecided(setting.protocol, setting.seat, writer, executionId, k);
    } else {
      assert steps[k] == AskedStep(askings[k]);
    }
  }

  lemma ClosingIsDecided(protocol: Protocol, seat: Seat, writer: Writer, executionId: Text, released: nat)
    requires
      var closing := protocol.interpret(Closing(writer, executionId)[0]);
      |closing| == 1 && closing[0].Completed?
    ensures Decide(seat, [], released, protocol.interpret(Closing(writer, executionId)[0])[0])
      == ClosingDecision(protocol, writer, executionId)
  {
    var output := JObject([Entry(Ascii("transcript"), JString(executionId))]);
    assert Closing(writer, executionId)[0] == writer.complete(output);
    assert Lines([]) == [];
  }

  lemma IssuedAskings(executionId: Text, moves: seq<Move>, turn: int)
    ensures
      var (places, askings) := (Issued(moves, turn), Askings(executionId, moves, turn));
      && |places| <= |askings| == |places| + (if EndingReason(moves).Some? then 1 else 0)
      && (forall k :: 0 <= k < |places| ==> askings[k] == AskingAt(executionId, moves, turn, places[k]))
      && (EndingReason(moves).Some? ==>
        askings[|places|] == Asking(
          executionId + Ascii(".escalate"), Ascii("sharedos.escalate"),
          JObject([Entry(Ascii("reason"), JString(EndingReason(moves).value))])))
  {
    assert [DOT] + Ascii("escalate") == Ascii(".escalate");
    assert executionId + [DOT] + Ascii("escalate") == executionId + ([DOT] + Ascii("escalate"));
  }

  /** The attempt at `place` comes back as the call a session would stamp for it, with `step` declared. */
  ghost predicate IsPlayed(
    seat: Seat, executionId: Text, moves: seq<Move>, turn: int, place: Place, decision: Decision, step: Option<int>)
    requires IsIssuable(moves, turn, place)
  {
    var (move, attempt) := (moves[place.move], moves[place.move].attempts[place.attempt]);
    decision == Call(
      ToolCall(executionId + Ascii(".") + move.id + Ascii(".") + attempt.id, attempt.tool.value, attempt.arguments,
               seat.request.traceId, seat.request.now),
      step)
  }

  /** The whole replay of a turn's moves. */
  ghost predicate IsReplay(setting: Setting, writer: Writer, moves: seq<Move>, executionId: Text, turn: int) {
    var askings := Askings(executionId, moves, turn);
    && ReadsBack(setting.protocol, writer, askings, executionId)
    && setting.batches == BatchesOf(writer, askings) + [Closing(writer, executionId)]
    && DeclaresOverBudget(setting.seat.declareStep, moves, turn)
  }

  ghost predicate NamesTheAffordance(moves: seq<Move>, turn: int, place: Place)
    requires IsIssuable(moves, turn, place)
  {
    At(moves, place).tool == Some(ESCALATION_TOOL_NAME)
  }

  /**
   * Every issuable attempt is played, one per call of `next` and in declared order, exactly when the
   * turn does not hold the escalate affordance or no issuable attempt names it.
   */
  lemma EveryAttemptIsPlayedIff(
    setting: Setting, writer: Writer, moves: seq<Move>, executionId: Text, turn: int, answers: nat -> Json, n: nat)
    requires IsReplay(setting, writer, moves, executionId, turn) && n > |Askings(executionId, moves, turn)|
    ensures IsTurn(setting, OPENED)
    ensures
      var (seat, places) := (setting.seat, Issued(moves, turn));
      var replay := Replay(setting, OPENED, Started, answers, n);
      (|places| < |replay| && forall k :: 0 <= k < |places| ==>
        IsPlayed(seat, executionId, moves, turn, places[k], replay[k], seat.StepAt(k)))
      <==>
      (seat.EscalationOffered() ==> forall k :: 0 <= k < |places| ==> !NamesTheAffordance(moves, turn, places[k]))
  {
    hide Replay, NextTurn, EscalationRequest, IsTurn, IsPlayed, AskingAt, ClosingDecision, ReadsBack, Issued, Askings;
    IssuedAskings(executionId, moves, turn);
    ReplayYieldsWhatWasDeclared(setting, writer, Askings(executionId, moves, turn), executionId, answers, n);
    AttemptsAreReachedIff(setting.seat, moves, executionId, turn);
    var (seat, places) := (setting.seat, Issued(moves, turn));
    var replay := Replay(setting, OPENED, Started, answers, n);
    forall k | 0 <= k < |places| && k < |replay|
      ensures
        var asking := AskingAt(executionId, moves, turn, places[k]);
        replay[k] == Call(seat.Stamped(asking.callId, asking.tool, asking.arguments), seat.StepAt(k))
        <==> IsPlayed(seat, executionId, moves, turn, places[k], replay[k], seat.StepAt(k))
    {
      PlayedMeans(seat, executionId, moves, turn, places[k], replay[k], seat.StepAt(k));
    }
  }

  /** A codec that writes a call as three items and reads anything else as the end of the turn. */
  function ToyCodec(frame: Frame): seq<Step> {
    if frame.JArray? && |frame.items| == 3 && frame.items[0].JString? && frame.items[1].JString?
    then [Asked(frame.items[0].text, frame.items[1].text, frame.items[2])]
    else [Completed(None, None)]
  }

  const TOY_WRITER := Writer(
    (id: Text, tool: Text, arguments: Json) => JArray([JString(id), JString(tool), arguments]), (output: Json) => JArray([]))

  /** It happens: of two issuable attempts the first names the affordance, and the second is never made. */
  lemma AnAttemptCanEndTheTurn(answers: nat -> Json, n: nat) returns (setting: Setting, moves: seq<Move>)
    requires n > 2
    ensures IsReplay(setting, TOY_WRITER, moves, [], 1)
    ensures |Issued(moves, 1)| == 2 == |Askings([], moves, 1)|
    ensures IsTurn(setting, OPENED)
    ensures Replay(setting, OPENED, Started, answers, n) == [Escalate(Unsaid)]
  {
    var asking := Attempt([1], Some(ESCALATION_TOOL_NAME), JNull, None, false, false, false);
    var calling := Attempt([2], Some([3]), JNull, None, false, false, false);
    moves := [Move([7], [asking, calling], None)];
    TwoPlaces(moves);
    var askings := Askings([], moves, 1);
    var seat := Seat(TurnRequest([ESCALATION_TOOL_NAME], [], [], None, None), None, text => text);
    setting := Setting(Protocol(ToyCodec, result => result), seat, BatchesOf(TOY_WRITER, askings) + [Closing(TOY_WRITER, [])], 1);
    ReplayYieldsWhatWasDeclared(setting, TOY_WRITER, askings, [], answers, n);
    assert Reached(seat, askings) == 0;
  }

  lemma TwoPlaces(moves: seq<Move>)
    requires |moves| == 1 && |moves[0].attempts| == 2 && moves[0].terminal.None?
    requires IssuableByHarness(moves[0].attempts[0], 1) && IssuableByHarness(moves[0].attempts[1], 1)
    ensures Issued(moves, 1) == [Place(0, 0), Place(0, 1)]
    ensures EscalationEnding([], moves) == []
  {
    IssuedOneMore(moves, 1, 0, 0);
    IssuedOneMore(moves, 1, 0, 1);
    IssuedOneMore(moves, 1, 0, 2);
  }

  lemma AttemptsAreReachedIff(seat: Seat, moves: seq<Move>, executionId: Text, turn: int)
    ensures
      var places := Issued(moves, turn);
      |places| <= Reached(seat, Askings(executionId, moves, turn))
      <==>
      (seat.EscalationOffered() ==> forall k :: 0 <= k < |places| ==> !NamesTheAffordance(moves, turn, places[k]))
  {
    var (places, askings) := (Issued(moves, turn), Askings(executionId, moves, turn));
    IssuedAskings(executionId, moves, turn);
    var reached := Reached(seat, askings);
    if reached < |places| {
      assert NamesTheAffordance(moves, turn, places[reached]);
    } else {
      forall k | 0 <= k < |places| && seat.EscalationOffered() ensures !NamesTheAffordance(moves, turn, places[k]) {
        assert askings[k] == AskingAt(executionId, moves, turn, places[k]);
      }
    }
  }

  /** The ending as a call a session passes on: its own id, the affordance, the reason, the turn's stamps. */
  ghost function EndingCall(executionId: Text, reason: Text, request: TurnRequest): ToolCall {
    ToolCall(executionId + Ascii(".escalate"), Ascii("sharedos.escalate"),
             JObject([Entry(Ascii("reason"), JString(reason))]), request.traceId, request.now)
  }

  /**
   * The ending that follows the attempts: the declared escalation where the turn holds the affordance;
   * where it does not, the same call passed on without a step, then completion.
   */
  lemma TheDeclaredEndingFollows(
    setting: Setting, writer: Writer, moves: seq<Move>, executionId: Text, turn: int, answers: nat -> Json, n: nat)
    requires IsReplay(setting, writer, moves, executionId, turn) && n > |Askings(executionId, moves, turn)|
    requires setting.seat.EscalationOffered() ==>
      forall k :: 0 <= k < |Issued(moves, turn)| ==> !NamesTheAffordance(moves, turn, Issued(moves, turn)[k])
    ensures IsTurn(setting, OPENED)
    ensures
      var (seat, m) := (setting.seat, |Issued(moves, turn)|);
      var replay := Replay(setting, OPENED, Started, answers, n);
      var ending := EndingReason(moves);
      if ending.None? then
        |replay| == m + 1 && replay[m] == ClosingDecision(setting.protocol, writer, executionId)
      else if seat.EscalationOffered() then
        |replay| == m + 1 && replay[m].Escalate?
        && (seat.trim(ending.value) == ending.value && 0 < |ending.value| <= ESCALATION_REASON_MAX_LENGTH
            ==> replay[m] == Escalate(Said(ending.value)))
      else
        |replay| == m + 2 && replay[m + 1] == ClosingDecision(setting.protocol, writer, executionId)
        && replay[m] == Call(EndingCall(executionId, ending.value, seat.request), None)
  {
    hide Replay, NextTurn, EscalationRequest, IsTurn;
    var (seat, places, askings) := (setting.seat, Issued(moves, turn), Askings(executionId, moves, turn));
    IssuedAskings(executionId, moves, turn);
    ReplayYieldsWhatWasDeclared(setting, writer, askings, executionId, answers, n);
    AttemptsAreReachedIff(seat, moves, executionId, turn);
    var ending := EndingReason(moves);
    if ending.Some? && seat.trim(ending.value) == ending.value && 0 < |ending.value| <= ESCALATION_REASON_MAX_LENGTH {
      ReasonSurvivesTheAffordance(ending.value, seat.trim);
    }
    assert seat.StepAt(|places|) == None;
  }

  /** A step is declared on the last over-budget attempt alone, and unless the guard or an absent ceiling forbids it. */
  lemma StepIsDeclaredOnTheLastOverBudgetAttempt(
    setting: Setting, writer: Writer, moves: seq<Move>, executionId: Text, turn: int, answers: nat -> Json, n: nat, k: nat)
    requires IsReplay(setting, writer, moves, executionId, turn) && n > |Askings(executionId, moves, turn)|
    ensures IsTurn(setting, OPENED)
    ensures
      var (seat, places) := (setting.seat, Issued(moves, turn));
      var replay := Replay(setting, OPENED, Started, answers, n);
      k < |replay| && replay[k].Call? ==>
        (replay[k].step.Some?
         <==> IsLastOverBudget(moves, places, k) && seat.request.maxSteps.Some?
              && (seat.request.maxToolCalls.Some? ==> k < seat.request.maxToolCalls.value))
        && (replay[k].step.Some? ==>
          replay[k].step == seat.request.maxSteps
          && IsPlayed(seat, executionId, moves, turn, places[k], replay[k], seat.request.maxSteps))
  {
    hide Replay, NextTurn, EscalationRequest, IsTurn, Issued, Askings, ReadsBack, ClosingDecision, IsPlayed, AskingAt;
    IssuedAskings(executionId, moves, turn);
    ReplayYieldsWhatWasDeclared(setting, writer, Askings(executionId, moves, turn), executionId, answers, n);
    assert setting.seat.StepAt(k)
      == if IsLastOverBudget(moves, Issued(moves, turn), k)
            && (setting.seat.request.maxToolCalls.Some? ==> k < setting.seat.request.maxToolCalls.value)
         then setting.seat.request.maxSteps else None;
    if k < |Issued(moves, turn)| && k < Reached(setting.seat, Askings(executionId, moves, turn)) {
      var replay := Replay(setting, OPENED, Started, answers, n);
      PlayedMeans(setting.seat, executionId, moves, turn, Issued(moves, turn)[k], replay[k], setting.seat.StepAt(k));
    }
  }

  lemma PlayedMeans(
    seat: Seat, executionId: Text, moves: seq<Move>, turn: int, place: Place, decision: Decision, step: Option<int>)
    requires IsIssuable(moves, turn, place)
    ensures
      var asking := AskingAt(executionId, moves, turn, place);
      decision == Call(seat.Stamped(asking.callId, asking.tool, asking.arguments), step)
      <==> IsPlayed(seat, executionId, moves, turn, place, decision, step)
  {
    assert Ascii(".") == [DOT];
  }
}
