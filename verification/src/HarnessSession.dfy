/** One harness turn: frames in, one decision out per call of `next` (`driver.ts`, `seat.ts`). */
module HarnessSession {
  import opened Foundations
  import opened Json
  import opened Transcript

  /** The two errors a session raises itself, and whatever a harness reports. */
  datatype ProtocolError =
    | HarnessEndedWithoutOutcome
    | HarnessFrameLimitExceeded
    | Reported(code: Text)

  /** A human's decision is asked for in the seat's words, or in the fixed sentence for having none. */
  datatype Reason = Said(text: Text) | Unsaid

  /** The unit a session consumes; a vendor's codec makes any number of them out of one frame. */
  datatype Step =
    | Asked(callId: Text, tool: Text, arguments: Json)
    | Message(text: Text)
    | Completed(output: Option<Json>, metadata: Option<Json>)
    | Failed(error: ProtocolError)

  datatype ToolCall = ToolCall(id: Text, tool: Text, arguments: Json, traceId: Text, requestedAt: Text)

  datatype Decision =
    | Call(call: ToolCall, step: Option<int>)
    | Complete(output: Json, metadata: Option<Json>)
    | Escalate(reason: Reason)
    | Fail(error: ProtocolError)

  datatype Input = Started | Answered(result: Json)

  /** A vendor's wire shapes, read and written. */
  datatype Protocol = Protocol(interpret: Frame -> seq<Step>, encodeToolResult: Json -> Frame)

  datatype TurnRequest = TurnRequest(
    tools: seq<Text>, traceId: Text, now: Text, maxSteps: Option<int>, maxToolCalls: Option<int>)

  type DeclareStep = (nat, TurnRequest) -> Option<int>

  function StepDeclared(declare: Option<DeclareStep>, index: nat, request: TurnRequest): Option<int> {
    if declare.Some? then declare.value(index, request) else None
  }

  /** What a seat is configured with; `trim` is the language's own whitespace trimming. */
  datatype Seat = Seat(request: TurnRequest, declareStep: Option<DeclareStep>, trim: Text -> Text) {

    predicate EscalationOffered() { ESCALATION_TOOL_NAME in request.tools }

    function StepAt(index: nat): Option<int> { StepDeclared(declareStep, index, request) }

    function Stamped(id: Text, tool: Text, arguments: Json): ToolCall {
      ToolCall(id, tool, arguments, request.traceId, request.now)
    }

    /** Whether a call is an escalation, and its reason: the name alone counts for nothing unless it was offered. */
    function AskedToEscalate(tool: Text, arguments: Json): Option<Reason> {
      if EscalationOffered() then EscalationRequest(tool, arguments, trim) else None
    }
  }

  // ----- The escalate affordance (`escalation.ts`)

  const ESCALATION_TOOL_NAME := Ascii("sharedos.escalate")
  const ESCALATION_REASON_MAX_LENGTH := 512
  const REASON := Ascii("reason")

  function Field(arguments: Json, key: Text): Option<Json> {
    if !arguments.JObject? then None
    else
      var at := FirstIndex((entry: Entry) => entry.key == key, arguments.entries);
      if at == |arguments.entries| then None else Some(arguments.entries[at].value)
  }

  /** Cut to the bound, and never between the halves of a surrogate pair. */
  function BoundedReason(value: Option<Json>, trim: Text -> Text): (reason: Option<Text>)
    ensures reason.Some? ==> 0 < |reason.value| <= ESCALATION_REASON_MAX_LENGTH
  {
    if value.None? || !value.value.JString? then None
    else
      var trimmed := trim(value.value.text);
      if trimmed == [] then None
      else if |trimmed| <= ESCALATION_REASON_MAX_LENGTH then Some(trimmed)
      else
        var cut := trimmed[..ESCALATION_REASON_MAX_LENGTH];
        Some(if IsHighSurrogate(cut[|cut| - 1]) then cut[..|cut| - 1] else cut)
  }

  function EscalationRequest(tool: Text, arguments: Json, trim: Text -> Text): Option<Reason> {
    if tool != ESCALATION_TOOL_NAME then None
    else
      var reason := BoundedReason(Field(arguments, REASON), trim);
      Some(if reason.Some? then Said(reason.value) else Unsaid)
  }

  function EscalationArguments(reason: Text): Json { JObject([Entry(REASON, JString(reason))]) }

  /** A reason the outcome can carry, trimmed, is asked for and read back word for word. */
  lemma ReasonSurvivesTheAffordance(reason: Text, trim: Text -> Text)
    requires trim(reason) == reason && 0 < |reason| <= ESCALATION_REASON_MAX_LENGTH
    ensures EscalationRequest(ESCALATION_TOOL_NAME, EscalationArguments(reason), trim) == Some(Said(reason))
  {
    var arguments := EscalationArguments(reason);
    var at := FirstIndex((entry: Entry) => entry.key == REASON, arguments.entries);
    assert arguments.entries[0].key == REASON;
    assert at == 0;
    assert Field(arguments, REASON) == Some(JString(reason));
  }

  // ----- What the session answers, as functions

  const TEXT := Ascii("text")

  predicate IsSilent(steps: seq<Step>) { forall i :: 0 <= i < |steps| ==> steps[i].Message? }

  /** The texts of the messages among `steps`. */
  function Prose(steps: seq<Step>): seq<Text> {
    if steps == [] then []
    else Prose(steps[..|steps| - 1]) + if steps[|steps| - 1].Message? then [steps[|steps| - 1].text] else []
  }

  function Lines(messages: seq<Text>): Text {
    if messages == [] then []
    else if |messages| == 1 then messages[0]
    else messages[0] + [0x0A] + Lines(messages[1..])
  }

  /** The output a step gives, a null one counting as none; failing that, the prose so far. */
  function OutputOr(output: Option<Json>, messages: seq<Text>): Json {
    if output.Some? && !output.value.JNull? then output.value else JObject([Entry(TEXT, JString(Lines(messages)))])
  }

  /** What a session holds between calls: steps not yet consumed, prose so far, calls released. */
  datatype Held = Held(pending: seq<Step>, messages: seq<Text>, released: nat)

  /** The decision a step that is not prose comes to. */
  function Decide(seat: Seat, messages: seq<Text>, released: nat, step: Step): Decision
    requires !step.Message?
  {
    match step
    case Failed(error) => Fail(error)
    case Completed(output, metadata) =>
      Complete(OutputOr(output, messages), metadata)
    case Asked(callId, tool, arguments) =>
      if seat.AskedToEscalate(tool, arguments).Some? then Escalate(seat.AskedToEscalate(tool, arguments).value)
      else Call(seat.Stamped(callId, tool, arguments), seat.StepAt(released))
  }

  function FirstSaid(steps: seq<Step>): (index: nat)
    ensures index <= |steps| && forall i :: 0 <= i < index ==> steps[i].Message?
    ensures index < |steps| ==> !steps[index].Message?
    ensures IsSilent(steps) <==> index == |steps|
  {
    FirstIndex((step: Step) => !step.Message?, steps)
  }

  /** The queue consumed up to its first step that is not prose. */
  function Drained(seat: Seat, held: Held): (Option<Decision>, Held) {
    var k := FirstSaid(held.pending);
    var messages := held.messages + Prose(held.pending[..k]);
    if k == |held.pending| then (None, Held([], messages, held.released))
    else
      var decision := Decide(seat, messages, held.released, held.pending[k]);
      (Some(decision), Held(held.pending[k + 1..], messages, held.released + if decision.Call? then 1 else 0))
  }

  datatype Polled = Polled(decision: Decision, held: Held, read: nat)

  /** `limit` rounds of draining the queue and reading one of the frames `ahead`. */
  function Poll(protocol: Protocol, seat: Seat, held: Held, ahead: seq<Frame>, limit: nat): (r: Polled)
    ensures r.read <= |ahead| && r.read <= limit
    decreases limit
  {
    if limit == 0 then Polled(Fail(HarnessFrameLimitExceeded), held, 0)
    else
      var (decision, rest) := Drained(seat, held);
      if decision.Some? then Polled(decision.value, rest, 0)
      else if ahead == [] then Polled(Fail(HarnessEndedWithoutOutcome), rest, 0)
      else
        var r := Poll(protocol, seat, rest.(pending := rest.pending + protocol.interpret(ahead[0])), ahead[1..], limit - 1);
        r.(read := r.read + 1)
  }

  lemma PollOnce(protocol: Protocol, seat: Seat, held: Held, ahead: seq<Frame>, limit: nat)
    ensures limit == 0 ==> Poll(protocol, seat, held, ahead, limit) == Polled(Fail(HarnessFrameLimitExceeded), held, 0)
    ensures limit > 0 ==>
      var (decision, rest) := Drained(seat, held);
      Poll(protocol, seat, held, ahead, limit)
      == if decision.Some? then Polled(decision.value, rest, 0)
      else if ahead == [] then Polled(Fail(HarnessEndedWithoutOutcome), rest, 0)
      else
        var r := Poll(protocol, seat, rest.(pending := rest.pending + protocol.interpret(ahead[0])), ahead[1..], limit - 1);
        r.(read := r.read + 1)
  {
  }

  /** A session as one value: what it holds, frames read, results written. */
  datatype Turn = Turn(held: Held, position: nat, results: nat)

  type Positive = n: int | 1 <= n witness 1

  /** What stays fixed over a turn. */
  datatype Setting = Setting(protocol: Protocol, seat: Seat, batches: Batches, maxIgnoredFrames: Positive)

  predicate IsTurn(setting: Setting, turn: Turn) { turn.position <= |Heard(setting.batches, turn.results)| }

  function ResultsAfter(turn: Turn, input: Input): nat { turn.results + if input.Answered? then 1 else 0 }

  /** The frames the next call may read. */
  function Ahead(setting: Setting, turn: Turn, input: Input): seq<Frame>
    requires IsTurn(setting, turn)
  {
    HeardGrows(setting.batches, turn.results, ResultsAfter(turn, input));
    Heard(setting.batches, ResultsAfter(turn, input))[turn.position..]
  }

  function NextTurn(setting: Setting, turn: Turn, input: Input): (r: (Decision, Turn))
    requires IsTurn(setting, turn)
    ensures IsTurn(setting, r.1)
  {
    var polled := Poll(setting.protocol, setting.seat, turn.held, Ahead(setting, turn, input), setting.maxIgnoredFrames + 1);
    (polled.decision, Turn(polled.held, turn.position + polled.read, ResultsAfter(turn, input)))
  }

  // ----- The session

  class SeatCalls {
    const seat: Seat
    const offered: bool
    var released: nat

    ghost predicate Valid() { offered == seat.EscalationOffered() }

    constructor (seat: Seat)
      ensures Valid() && this.seat == seat && released == 0
    {
      this.seat, offered, released := seat, ESCALATION_TOOL_NAME in seat.request.tools, 0;
    }

    function Escalation(tool: Text, arguments: Json): (reason: Option<Reason>)
      requires Valid()
      ensures reason == seat.AskedToEscalate(tool, arguments)
    {
      if offered then EscalationRequest(tool, arguments, seat.trim) else None
    }

    /** Releases are numbered from zero, each number used once. */
    method Release(call: ToolCall) returns (decision: Decision)
      modifies this`released
      ensures released == old(released) + 1
      ensures decision == Call(call, seat.StepAt(old(released)))
    {
      var index := released;
      released := released + 1;
      decision := Call(call, seat.StepAt(index));
    }
  }

  class Session {
    const channel: TranscriptChannel
    const protocol: Protocol
    const maxIgnoredFrames: Positive
    const calls: SeatCalls
    var pending: seq<Step>
    var messages: seq<Text>

    ghost predicate Valid()
      reads this, channel
    {
      channel.Valid() && calls.Valid()
    }

    ghost function TheSetting(): Setting { Setting(protocol, calls.seat, channel.batches, maxIgnoredFrames) }

    ghost function Holding(): Held
      reads this, calls
    {
      Held(pending, messages, calls.released)
    }

    ghost function Now(): (turn: Turn)
      requires Valid()
      reads this, channel, calls
      ensures IsTurn(TheSetting(), turn)
    {
      Turn(Holding(), channel.Position(), channel.Results())
    }

    constructor (channel: TranscriptChannel, protocol: Protocol, maxIgnoredFrames: Positive, calls: SeatCalls)
      requires channel.Valid() && calls.Valid()
      ensures Valid() && TheSetting() == Setting(protocol, calls.seat, channel.batches, maxIgnoredFrames)
      ensures this.channel == channel && this.calls == calls && Holding() == Held([], [], calls.released)
    {
      this.channel, this.protocol, this.maxIgnoredFrames, this.calls := channel, protocol, maxIgnoredFrames, calls;
      pending, messages := [], [];
    }

    method DrainPending() returns (decision: Option<Decision>)
      requires Valid()
      modifies this`pending, this`messages, calls`released
      ensures Valid()
      ensures (decision, Holding()) == Drained(calls.seat, old(Holding()))
    {
      hide Lines, EscalationRequest, OutputOr;
      ghost var k := 0;
      ghost var queue := pending;
      ghost var first := FirstSaid(queue);
      while pending != []
        invariant Valid() && calls.released == old(calls.released)
        invariant k <= first && pending == queue[k..]
        invariant messages == old(messages) + Prose(queue[..k])
        decreases |pending|
      {
        var step := pending[0];
        assert step == queue[k];
        pending := pending[1..];
        match step {
          case Message(text) =>
            if k == first { assert false; }
            assert queue[..k + 1][..k] == queue[..k];
            k := k + 1;
            messages := messages + [text];
          case Failed(error) =>
            assert k == first;
            return Some(Fail(error));
          case Completed(output, metadata) =>
            assert k == first;
            return Some(Complete(OutputOr(output, messages), metadata));
          case Asked(callId, tool, arguments) =>
            assert k == first;
            var escalation := calls.Escalation(tool, arguments);
            if escalation.Some? { return Some(Escalate(escalation.value)); }
            var released := calls.Release(calls.seat.Stamped(callId, tool, arguments));
            return Some(released);
        }
      }
      assert queue[..|queue|] == queue;
      return None;
    }

    /** One decision: exactly `NextTurn` of what the session was, and the result written down. */
    method Next(input: Input) returns (decision: Decision)
      requires Valid()
      modifies this`pending, this`messages, calls`released, channel, channel.written
      ensures Valid()
      ensures (decision, Now()) == NextTurn(TheSetting(), old(Now()), input)
      ensures channel.written.frames == old(channel.written.frames)
        + if input.Answered? then [protocol.encodeToolResult(input.result)] else []
    {
      hide Poll, Heard, TranscriptChannel.Position;
      if input.Answered? {
        channel.Write(protocol.encodeToolResult(input.result));
      }
      decision := ReadUntilDecided();
    }

    /** Drain, read, and drain again, until a step decides, the harness stops, or the frames run over the limit. */
    method ReadUntilDecided() returns (decision: Decision)
      requires Valid()
      modifies this`pending, this`messages, calls`released, channel
      ensures Valid() && channel.Results() == old(channel.Results())
      ensures channel.Position() >= old(channel.Position())
      ensures
        var ahead := Heard(channel.batches, channel.Results())[old(channel.Position())..];
        Poll(protocol, calls.seat, old(Holding()), ahead, maxIgnoredFrames + 1)
        == Polled(decision, Holding(), channel.Position() - old(channel.Position()))
    {
      hide Poll, Drained, Heard, Spoken, TranscriptChannel.Position;
      ghost var start := channel.Position();
      ghost var ahead := Heard(channel.batches, channel.Results())[start..];
      ghost var whole := Poll(protocol, calls.seat, Holding(), ahead, maxIgnoredFrames + 1);
      var frames := 0;
      while frames <= maxIgnoredFrames
        invariant Valid() && 0 <= frames <= maxIgnoredFrames + 1 && frames <= |ahead|
        invariant channel.Results() == old(channel.Results()) && channel.Position() == start + frames
        invariant
          var r := Poll(protocol, calls.seat, Holding(), ahead[frames..], maxIgnoredFrames + 1 - frames);
          whole == r.(read := r.read + frames)
      {
        PollOnce(protocol, calls.seat, Holding(), ahead[frames..], maxIgnoredFrames + 1 - frames);
        var drained := DrainPending();
        if drained.Some? { return drained.value; }
        var frame := channel.Read();
        if frame.None? { return Fail(HarnessEndedWithoutOutcome); }
        assert ahead[frames..][0] == ahead[frames] && ahead[frames..][1..] == ahead[frames + 1..];
        pending := pending + protocol.interpret(frame.value);
        frames := frames + 1;
      }
      PollOnce(protocol, calls.seat, Holding(), ahead[frames..], 0);
      return Fail(HarnessFrameLimitExceeded);
    }
  }
}
