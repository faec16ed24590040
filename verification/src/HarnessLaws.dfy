/** What a harness turn keeps, whatever the transcript and whatever its frames mean. */
module HarnessLaws {
  import opened Foundations
  import opened Json
  import opened Transcript
  import opened HarnessSession

  /** Everything a run of frames means, in order. */
  function Meaning(protocol: Protocol, frames: seq<Frame>): seq<Step> {
    if frames == [] then [] else protocol.interpret(frames[0]) + Meaning(protocol, frames[1..])
  }

  lemma {:induction false} ProseOfBoth(a: seq<Step>, b: seq<Step>)
    ensures Prose(a + b) == Prose(a) + Prose(b)
  {
    if b == [] {
      assert a + b == a;
    } else {
      assert (a + b)[..|a + b| - 1] == a + b[..|b| - 1];
      ProseOfBoth(a, b[..|b| - 1]);
    }
  }

  /**
   * `before` is consumed from the front: prose is kept, the first other step decides and nothing
   * behind it is touched. With prose alone there is no decision to take, and the session fails.
   */
  ghost predicate TakenInOrder(
    seat: Seat, messages: seq<Text>, released: nat, before: seq<Step>, decision: Decision, left: Held, after: seq<Step>)
  {
    && |after| <= |before|
    && var n := |before| - |after|;
    && before == before[..n] + after
    && left.messages == messages + Prose(before[..n])
    && left.released == released + (if decision.Call? then 1 else 0)
    && (
      if IsSilent(before[..n])
      then decision in {Fail(HarnessEndedWithoutOutcome), Fail(HarnessFrameLimitExceeded)}
      else !before[n - 1].Message? && IsSilent(before[..n - 1])
           && decision == Decide(seat, left.messages, released, before[n - 1])
    )
  }

  lemma {:induction false} PollTakesInOrder(protocol: Protocol, seat: Seat, held: Held, ahead: seq<Frame>, limit: nat)
    ensures
      var r := Poll(protocol, seat, held, ahead, limit);
      TakenInOrder(seat, held.messages, held.released, held.pending + Meaning(protocol, ahead), r.decision, r.held,
                   r.held.pending + Meaning(protocol, ahead[r.read..]))
    decreases limit
  {
    hide TakenInOrder, Prose, Meaning, Poll;
    PollOnce(protocol, seat, held, ahead, limit);
    var meaning := Meaning(protocol, ahead);
    assert ahead[0..] == ahead;
    if limit == 0 {
      TakenNothing(seat, held, held.pending + meaning);
    } else if FirstSaid(held.pending) < |held.pending| {
      TakenFromQueue(seat, held, meaning);
    } else {
      var (_, rest) := Drained(seat, held);
      MeaningOfFirst(protocol, ahead);
      if ahead == [] {
        TakenWholeQueue(seat, held);
        assert held.pending + meaning == held.pending && rest.pending + meaning == [];
      } else {
        var more := rest.(pending := rest.pending + protocol.interpret(ahead[0]));
        assert more.pending == protocol.interpret(ahead[0]);
        PollTakesInOrder(protocol, seat, more, ahead[1..], limit - 1);
        var r := Poll(protocol, seat, more, ahead[1..], limit - 1);
        assert ahead[1..][r.read..] == ahead[r.read + 1..];
        TakenAfterProse(seat, held, meaning, r.decision, r.held, r.held.pending + Meaning(protocol, ahead[r.read + 1..]));
      }
    }
  }

  lemma MeaningOfFirst(protocol: Protocol, frames: seq<Frame>)
    ensures Meaning(protocol, []) == []
    ensures frames != [] ==> Meaning(protocol, frames) == protocol.interpret(frames[0]) + Meaning(protocol, frames[1..])
  {
  }

  lemma TakenNothing(seat: Seat, held: Held, before: seq<Step>)
    ensures TakenInOrder(seat, held.messages, held.released, before, Fail(HarnessFrameLimitExceeded), held, before)
  {
    assert before[..0] == [] && [] + before == before && held.messages + [] == held.messages;
  }

  lemma TakenFromQueue(seat: Seat, held: Held, meaning: seq<Step>)
    requires FirstSaid(held.pending) < |held.pending|
    ensures
      var (decision, rest) := Drained(seat, held);
      TakenInOrder(seat, held.messages, held.released, held.pending + meaning, decision.value, rest, rest.pending + meaning)
  {
    hide Decide;
    var before, k := held.pending + meaning, FirstSaid(held.pending);
    var after := held.pending[k + 1..] + meaning;
    assert before[..k + 1] + after == before;
    assert before[..k + 1] == held.pending[..k] + [held.pending[k]];
    ProseOfBoth(held.pending[..k], [held.pending[k]]);
    assert Prose([held.pending[k]]) == [] by { assert [held.pending[k]][..0] == []; }
    assert before[..k + 1][k] == held.pending[k] && !IsSilent(before[..k + 1]);
    assert |before| - |after| == k + 1 && before[..k] == held.pending[..k];
  }

  lemma TakenWholeQueue(seat: Seat, held: Held)
    requires FirstSaid(held.pending) == |held.pending|
    ensures TakenInOrder(seat, held.messages, held.released, held.pending, Fail(HarnessEndedWithoutOutcome), Drained(seat, held).1, [])
  {
    assert held.pending[..|held.pending|] == held.pending == held.pending + [];
  }

  lemma TakenAfterProse(seat: Seat, held: Held, meaning: seq<Step>, decision: Decision, left: Held, after: seq<Step>)
    requires FirstSaid(held.pending) == |held.pending|
    requires TakenInOrder(seat, Drained(seat, held).1.messages, held.released, meaning, decision, left, after)
    ensures TakenInOrder(seat, held.messages, held.released, held.pending + meaning, decision, left, after)
  {
    hide Decide, Prose, Drained;
    var p, n := held.pending, |meaning| - |after|;
    var before := p + meaning;
    TakenMore(p, meaning, n);
    assert before == before[..|p| + n] + after;
    assert Drained(seat, held).1.messages == held.messages + Prose(p) by { DrainedProse(seat, held); }
  }

  lemma DrainedProse(seat: Seat, held: Held)
    requires FirstSaid(held.pending) == |held.pending|
    ensures Drained(seat, held).1.messages == held.messages + Prose(held.pending)
  {
    assert held.pending[..|held.pending|] == held.pending;
  }

  lemma TakenMore(p: seq<Step>, meaning: seq<Step>, n: nat)
    requires IsSilent(p) && n <= |meaning|
    ensures Prose((p + meaning)[..|p| + n]) == Prose(p) + Prose(meaning[..n])
    ensures IsSilent((p + meaning)[..|p| + n]) <==> IsSilent(meaning[..n])
    ensures n > 0 ==> (IsSilent((p + meaning)[..|p| + n - 1]) <==> IsSilent(meaning[..n - 1]))
    ensures n > 0 ==> (p + meaning)[|p| + n - 1] == meaning[n - 1]
  {
    hide Prose, IsSilent;
    assert (p + meaning)[..|p| + n] == p + meaning[..n];
    ProseOfBoth(p, meaning[..n]);
    SilentBoth(p, meaning[..n]);
    if n > 0 {
      assert (p + meaning)[..|p| + n - 1] == p + meaning[..n - 1];
      SilentBoth(p, meaning[..n - 1]);
    }
  }

  lemma SilentBoth(a: seq<Step>, b: seq<Step>)
    ensures IsSilent(a + b) <==> IsSilent(a) && IsSilent(b)
  {
    if IsSilent(a + b) {
      forall i | 0 <= i < |a| ensures a[i].Message? { assert (a + b)[i] == a[i]; }
      forall i | 0 <= i < |b| ensures b[i].Message? { assert (a + b)[|a| + i] == b[i]; }
    }
  }

  /** Steps the session has not consumed once `input` is in: those queued, then those of the frames it may read. */
  function Outstanding(setting: Setting, turn: Turn, input: Input): seq<Step>
    requires IsTurn(setting, turn)
  {
    turn.held.pending + Meaning(setting.protocol, Ahead(setting, turn, input))
  }

  /** One call of `next` takes one decision from the front of what is outstanding, losing and repeating nothing. */
  lemma NextTakesStepsInOrder(setting: Setting, turn: Turn, input: Input)
    requires IsTurn(setting, turn)
    ensures
      var (decision, after) := NextTurn(setting, turn, input);
      TakenInOrder(setting.seat, turn.held.messages, turn.held.released, Outstanding(setting, turn, input),
                   decision, after.held, Outstanding(setting, after, Started))
  {
    hide Poll, TakenInOrder, Meaning;
    var ahead := Ahead(setting, turn, input);
    PollTakesInOrder(setting.protocol, setting.seat, turn.held, ahead, setting.maxIgnoredFrames + 1);
    var r := Poll(setting.protocol, setting.seat, turn.held, ahead, setting.maxIgnoredFrames + 1);
    var after := NextTurn(setting, turn, input).1;
    assert Ahead(setting, after, Started) == ahead[r.read..];
  }

  /** How many of the frames `ahead` have to be read before there is a decision to take. */
  function Needed(protocol: Protocol, pending: seq<Step>, ahead: seq<Frame>): nat {
    if !IsSilent(pending) then 0
    else 1 + FirstIndex((frame: Frame) => !IsSilent(protocol.interpret(frame)), ahead)
  }

  /**
   * Which way a call goes, exactly: it decides on the first step that is not prose when fewer frames
   * than the limit lead up to it, and otherwise fails for want of frames or for too many of them.
   */
  ghost predicate GoesAsItMust(
    protocol: Protocol, seat: Seat, released: nat, pending: seq<Step>, ahead: seq<Frame>, limit: nat, r: Polled)
  {
    var needed := Needed(protocol, pending, ahead);
    if needed < limit && needed <= |ahead| then
      var said := if needed == 0 then pending else protocol.interpret(ahead[needed - 1]);
      && r.read == needed && !IsSilent(said)
      && r.held.pending == said[FirstSaid(said) + 1..]
      && r.decision == Decide(seat, r.held.messages, released, said[FirstSaid(said)])
    else if |ahead| < limit then r.decision == Fail(HarnessEndedWithoutOutcome) && r.read == |ahead|
    else r.decision == Fail(HarnessFrameLimitExceeded) && r.read == limit
  }

  lemma {:induction false} PollDecidesIffWithinTheLimit(
    protocol: Protocol, seat: Seat, held: Held, ahead: seq<Frame>, limit: nat)
    ensures GoesAsItMust(protocol, seat, held.released, held.pending, ahead, limit, Poll(protocol, seat, held, ahead, limit))
    decreases limit
  {
    hide Poll, GoesAsItMust, Decide, Prose, Needed;
    PollOnce(protocol, seat, held, ahead, limit);
    if limit == 0 || !IsSilent(held.pending) || ahead == [] {
      GoesAtOnce(protocol, seat, held, ahead, limit);
    } else {
      var rest := Drained(seat, held).1;
      var more := rest.(pending := rest.pending + protocol.interpret(ahead[0]));
      assert more.pending == protocol.interpret(ahead[0]);
      PollDecidesIffWithinTheLimit(protocol, seat, more, ahead[1..], limit - 1);
      GoesOn(protocol, seat, held.released, held.pending, ahead, limit, Poll(protocol, seat, more, ahead[1..], limit - 1));
    }
  }

  lemma GoesAtOnce(protocol: Protocol, seat: Seat, held: Held, ahead: seq<Frame>, limit: nat)
    requires limit == 0 || !IsSilent(held.pending) || ahead == []
    ensures GoesAsItMust(protocol, seat, held.released, held.pending, ahead, limit, Poll(protocol, seat, held, ahead, limit))
  {
    hide Poll, Decide, Prose;
    PollOnce(protocol, seat, held, ahead, limit);
  }

  lemma GoesOn(
    protocol: Protocol, seat: Seat, released: nat, pending: seq<Step>, ahead: seq<Frame>, limit: nat, r: Polled)
    requires limit > 0 && IsSilent(pending) && ahead != []
    requires GoesAsItMust(protocol, seat, released, protocol.interpret(ahead[0]), ahead[1..], limit - 1, r)
    ensures GoesAsItMust(protocol, seat, released, pending, ahead, limit, r.(read := r.read + 1))
  {
    hide Decide, IsSilent;
    var needed := Needed(protocol, protocol.interpret(ahead[0]), ahead[1..]);
    assert Needed(protocol, pending, ahead) == 1 + needed;
    assert forall k :: 1 <= k < |ahead| ==> ahead[k] == ahead[1..][k - 1];
  }

  // ----- What a step comes to, field by field

  /** Prose is kept text by text, in order. */
  lemma {:induction false} ProseOfSilence(steps: seq<Step>)
    requires IsSilent(steps)
    ensures |Prose(steps)| == |steps|
    ensures forall i :: 0 <= i < |steps| ==> Prose(steps)[i] == steps[i].text
  {
    if steps != [] { ProseOfSilence(steps[..|steps| - 1]); }
  }

  /** One more message is one more line: a line feed between any two, and none anywhere else. */
  lemma {:induction false} LinesGrow(messages: seq<Text>, message: Text)
    ensures Lines([]) == [] && Lines([message]) == message
    ensures messages != [] ==> Lines(messages + [message]) == Lines(messages) + Ascii("\n") + message
  {
    assert Ascii("\n") == [0x0A];
    if |messages| > 1 {
      LinesGrow(messages[1..], message);
      assert (messages + [message])[1..] == messages[1..] + [message];
    }
  }

  /** The text an escalation is asked with: trimmed, at most 512 units, and whole characters. */
  ghost predicate IsReasonGiven(arguments: Json, trim: Text -> Text, reason: Reason) {
    var said := Field(arguments, Ascii("reason"));
    var words := if said.Some? && said.value.JString? then trim(said.value.text) else [];
    if words == [] then reason == Unsaid
    else if |words| <= 512 then reason == Said(words)
    else reason == Said(if 0xD800 <= words[511] <= 0xDBFF then words[..511] else words[..512])
  }

  ghost predicate IsEscalation(seat: Seat, tool: Text) {
    tool == Ascii("sharedos.escalate") && Ascii("sharedos.escalate") in seat.request.tools
  }

  /** What a session decides on a step, given the prose before it and the calls already released. */
  ghost predicate SaysAsItDoes(seat: Seat, messages: seq<Text>, released: nat, step: Step, decision: Decision) {
    match step
    case Message(_) => false
    case Failed(error) => decision == Fail(error)
    case Completed(output, metadata) =>
      decision == Complete(
        if output in {None, Some(JNull)} then JObject([Entry(Ascii("text"), JString(Lines(messages)))]) else output.value,
        metadata)
    case Asked(id, tool, arguments) =>
      if IsEscalation(seat, tool) then decision.Escalate? && IsReasonGiven(arguments, seat.trim, decision.reason)
      else
        && decision.Call?
        && decision.call == ToolCall(id, tool, arguments, seat.request.traceId, seat.request.now)
        && decision.step == if seat.declareStep.Some? then seat.declareStep.value(released, seat.request) else None
  }

  lemma DecisionSaysAsItDoes(seat: Seat, messages: seq<Text>, released: nat, step: Step)
    requires !step.Message?
    ensures SaysAsItDoes(seat, messages, released, step, Decide(seat, messages, released, step))
  {
  }

  /** `steps[n]` is the first that is not prose, and `decision` says what it says. */
  ghost predicate SpeaksFirst(seat: Seat, messages: seq<Text>, released: nat, steps: seq<Step>, n: nat, decision: Decision) {
    && n < |steps| && IsSilent(steps[..n])
    && SaysAsItDoes(seat, messages + Prose(steps[..n]), released, steps[n], decision)
  }

  lemma {:induction false} PollSaysAsTheStepDoes(protocol: Protocol, seat: Seat, held: Held, ahead: seq<Frame>, limit: nat)
    returns (n: nat)
    requires Needed(protocol, held.pending, ahead) < limit && Needed(protocol, held.pending, ahead) <= |ahead|
    ensures SpeaksFirst(seat, held.messages, held.released, held.pending + Meaning(protocol, ahead), n,
                        Poll(protocol, seat, held, ahead, limit).decision)
    decreases limit
  {
    hide Poll, Meaning, SpeaksFirst, Prose;
    PollOnce(protocol, seat, held, ahead, limit);
    if !IsSilent(held.pending) {
      n := FirstSaid(held.pending);
      QueueSpeaksFirst(seat, held, Meaning(protocol, ahead));
    } else {
      var rest := Drained(seat, held).1;
      var more := rest.(pending := rest.pending + protocol.interpret(ahead[0]));
      assert more.pending == protocol.interpret(ahead[0]);
      n := PollSaysAsTheStepDoes(protocol, seat, more, ahead[1..], limit - 1);
      MeaningOfFirst(protocol, ahead);
      ProseThenSpeech(seat, held, Meaning(protocol, ahead), n, Poll(protocol, seat, more, ahead[1..], limit - 1).decision);
      n := |held.pending| + n;
    }
  }

  lemma QueueSpeaksFirst(seat: Seat, held: Held, meaning: seq<Step>)
    requires !IsSilent(held.pending)
    ensures Drained(seat, held).0.Some?
    ensures SpeaksFirst(seat, held.messages, held.released, held.pending + meaning, FirstSaid(held.pending),
                        Drained(seat, held).0.value)
  {
    hide Decide, Prose, SaysAsItDoes;
    var n := FirstSaid(held.pending);
    assert (held.pending + meaning)[..n] == held.pending[..n];
    DecisionSaysAsItDoes(seat, held.messages + Prose(held.pending[..n]), held.released, held.pending[n]);
  }

  lemma ProseThenSpeech(seat: Seat, held: Held, meaning: seq<Step>, n: nat, decision: Decision)
    requires IsSilent(held.pending)
    requires SpeaksFirst(seat, Drained(seat, held).1.messages, held.released, meaning, n, decision)
    ensures SpeaksFirst(seat, held.messages, held.released, held.pending + meaning, |held.pending| + n, decision)
  {
    hide Prose, SaysAsItDoes, Drained;
    TakenMore(held.pending, meaning, n);
    DrainedProse(seat, held);
    assert held.messages + Prose(held.pending) + Prose(meaning[..n])
      == held.messages + (Prose(held.pending) + Prose(meaning[..n]));
  }

  /**
   * A call of `next` decides as its first step that is not prose says -- its output, its error, its
   * call, word for word -- whenever few enough frames of nothing but prose lead up to that step.
   */
  lemma NextSaysAsTheStepDoes(setting: Setting, turn: Turn, input: Input) returns (n: nat)
    requires IsTurn(setting, turn)
    requires
      var ahead := Ahead(setting, turn, input);
      Needed(setting.protocol, turn.held.pending, ahead) <= setting.maxIgnoredFrames
      && Needed(setting.protocol, turn.held.pending, ahead) <= |ahead|
    ensures SpeaksFirst(setting.seat, turn.held.messages, turn.held.released, Outstanding(setting, turn, input), n,
                        NextTurn(setting, turn, input).0)
  {
    hide Poll, Meaning, SpeaksFirst, Needed;
    n := PollSaysAsTheStepDoes(
      setting.protocol, setting.seat, turn.held, Ahead(setting, turn, input), setting.maxIgnoredFrames + 1);
  }

  /**
   * A call reads as far as it must and no farther than one frame past those it may ignore: it decides
   * iff no more than the ignorable frames lead up to a step that is not prose.
   */
  lemma NextReadsNoFartherThanItMay(setting: Setting, turn: Turn, input: Input)
    requires IsTurn(setting, turn)
    ensures
      var (ahead, (decision, after)) := (Ahead(setting, turn, input), NextTurn(setting, turn, input));
      var needed := Needed(setting.protocol, turn.held.pending, ahead);
      && after.results == turn.results + (if input.Answered? then 1 else 0)
      && (if needed <= setting.maxIgnoredFrames && needed <= |ahead| then after.position == turn.position + needed
          else if |ahead| <= setting.maxIgnoredFrames then
            decision == Fail(HarnessEndedWithoutOutcome) && after.position == turn.position + |ahead|
          else
            decision == Fail(HarnessFrameLimitExceeded) && after.position == turn.position + setting.maxIgnoredFrames + 1)
  {
    hide Poll, Needed;
    PollDecidesIffWithinTheLimit(
      setting.protocol, setting.seat, turn.held, Ahead(setting, turn, input), setting.maxIgnoredFrames + 1);
  }
}
