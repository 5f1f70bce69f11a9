// The tool loop of a chat answer (chat/agent.py).
module ChatLoop {
  import opened Lists

  const MAX_ITERATIONS := 8
  const MAX_REPEATED_CALLS := 2
  const MAX_TOOL_CONTEXT_CHARS := 48000
  // MAX_TOOL_CONTEXT_CHARS * 0.85
  const STOP_CHARS := 40800

  datatype Citation = Citation(repoId: string, path: string, line: Option<nat>, symbolId: Option<string>,
      symbolName: Option<string>)

  // args is the JSON text of the arguments with sorted keys.
  datatype Call = Call(id: string, name: string, args: string)

  datatype Outcome =
    | Result(text: string, size: nat, itemCount: nat, truncated: bool, note: Option<string>, citations: seq<Citation>)
    | Failure(error: string, reason: string)

  datatype Reply = Reply(content: string, calls: seq<Call>)

  // The model and the tools may answer anything at any time: the n-th completion
  // and the n-th tool call are arbitrary functions of what they are given. None
  // is an error of the model client.
  datatype World = World(model: (nat, seq<Message>) -> Option<Reply>, tools: (nat, Call) -> Outcome)

  datatype Payload = ToolText(text: string) | Error(error: string) | Identical | Omitted | Spent

  datatype Message =
    | Plain(role: string, content: string)
    | Assistant(content: string, calls: seq<Call>)
    | Tool(callId: string, payload: Payload)

  datatype Record = Record(iteration: nat, name: string, args: string, itemCount: nat, truncated: bool,
      note: Option<string>)

  datatype Event =
    | ToolCall(iteration: nat, name: string, args: string)
    | ToolResult(iteration: nat, name: string, itemCount: nat, truncated: bool, note: Option<string>)

  // How a call was answered: by running the tool when so many characters were in
  // use, because it had been made before, or because the loop had stopped.
  datatype Decision =
    | Run(call: Call, outcome: Outcome, charsBefore: nat)
    | Repeat(call: Call, count: nat)
    | Skip(call: Call)

  datatype Talk = Talk(messages: seq<Message>, counts: map<string, nat>, chars: nat, citations: seq<Citation>,
                       records: seq<Record>, events: seq<Event>, decisions: seq<Decision>, completions: nat)

  datatype Ending = Answered(talk: Talk, content: string, truncated: bool) | Failed(talk: Talk)

  function Signature(call: Call): string {
    call.name + ":" + call.args
  }

  function GetCount(counts: map<string, nat>, signature: string): nat {
    if signature in counts then counts[signature] else 0
  }

  // ---- What follows from a decision -------------------------------------------------------

  predicate Accepted(d: Decision) {
    d.Run? && d.outcome.Result? && d.charsBefore + d.outcome.size <= MAX_TOOL_CONTEXT_CHARS
  }

  // stop_after becomes true
  predicate Stops(d: Decision) {
    match d
    case Run(_, outcome, chars) => outcome.Result? && !Accepted(d) && chars >= STOP_CHARS
    case Repeat(_, count) => count > MAX_REPEATED_CALLS
    case Skip(_) => false
  }

  function PayloadOf(d: Decision): Payload {
    match d
    case Run(_, Failure(error, _), _) => Error(error)
    case Run(_, Result(text, _, _, _, _, _), _) => if Accepted(d) then ToolText(text) else Omitted
    case Repeat(_, _) => Identical
    case Skip(_) => Spent
  }

  function NoteOf(p: Payload): Option<string> {
    match p
    case Identical => Some("identical call already run in this message")
    case Omitted => Some("result left out: context budget of the tools reached")
    case Spent => Some("context budget of the tools reached")
    case _ => None
  }

  function RecordOf(iteration: nat, d: Decision): Record {
    match d
    case Run(call, Failure(_, note), _) => Record(iteration, call.name, call.args, 0, false, Some(note))
    case Run(call, Result(_, _, itemCount, truncated, note, _), _) =>
      if Accepted(d) then Record(iteration, call.name, call.args, itemCount, truncated, note)
      else Record(iteration, call.name, call.args, 0, true, NoteOf(Omitted))
    case Repeat(call, _) => Record(iteration, call.name, call.args, 0, false, NoteOf(Identical))
    case Skip(call) => Record(iteration, call.name, call.args, 0, true, NoteOf(Spent))
  }

  function EventsOf(r: Record): seq<Event> {
    [ToolCall(r.iteration, r.name, r.args), ToolResult(r.iteration, r.name, r.itemCount, r.truncated, r.note)]
  }

  function SizeOf(d: Decision): nat {
    if Accepted(d) then d.outcome.size else 0
  }

  function CitationsOf(d: Decision): seq<Citation> {
    if Accepted(d) then d.outcome.citations else []
  }

  // ---- What the answers to a decision are ---------------------------------------------------

  // The result fits in what was left of the 48,000 characters.
  predicate Fits(d: Decision) {
    d.Run? && d.outcome.Result? && d.charsBefore + d.outcome.size <= 48000
  }

  // A result that does not fit when 40,800 characters are in use, and a call made for the
  // third time, are the last the loop goes into.
  predicate Halts(d: Decision) {
    || (d.Run? && d.outcome.Result? && !Fits(d) && d.charsBefore >= 40800)
    || (d.Repeat? && d.count >= 3)
  }

  // The message gives the tool's own text if it fits, its error if it failed, and else a
  // notice of its own for results left out, repetitions and calls after the end.
  predicate AnswersIt(m: Message, d: Decision) {
    && m.Tool? && m.callId == d.call.id
    && (Fits(d) ==> m.payload == ToolText(d.outcome.text))
    && (d.Run? && d.outcome.Failure? ==> m.payload == Error(d.outcome.error))
    && (d.Run? && d.outcome.Result? && !Fits(d) ==> m.payload == Omitted)
    && (d.Repeat? ==> m.payload == Identical)
    && (d.Skip? ==> m.payload == Spent)
  }

  // The record gives the tool's own figures if the result fits, and else no items and the
  // reason.
  predicate RecordsIt(r: Record, iteration: nat, d: Decision) {
    && r.iteration == iteration && r.name == d.call.name && r.args == d.call.args
    && (Fits(d) ==>
          r.itemCount == d.outcome.itemCount && r.truncated == d.outcome.truncated && r.note == d.outcome.note)
    && (!Fits(d) ==> r.itemCount == 0 && (r.truncated <==> d.Skip? || (d.Run? && d.outcome.Result?)))
    && (d.Run? && d.outcome.Failure? ==> r.note == Some(d.outcome.reason))
    && (d.Run? && d.outcome.Result? && !Fits(d) ==>
          r.note == Some("result left out: context budget of the tools reached"))
    && (d.Repeat? ==> r.note == Some("identical call already run in this message"))
    && (d.Skip? ==> r.note == Some("context budget of the tools reached"))
  }

  // Only a result that fits is cited and takes up characters.
  function CitedBy(d: Decision): seq<Citation> {
    if Fits(d) then d.outcome.citations else []
  }

  function TakenBy(d: Decision): nat {
    if Fits(d) then d.outcome.size else 0
  }

  // One event says what is called, the next one what the record says.
  predicate ReportsIt(called: Event, result: Event, r: Record) {
    && called == ToolCall(r.iteration, r.name, r.args)
    && result == ToolResult(r.iteration, r.name, r.itemCount, r.truncated, r.note)
  }

  // The call has been answered as decided, and everything before it is as it was.
  ghost predicate AnsweredAs(before: Talk, talk: Talk, iteration: nat, d: Decision) {
    && talk.decisions == before.decisions + [d] && talk.completions == before.completions
    && (exists m :: talk.messages == before.messages + [m] && AnswersIt(m, d))
    && (exists r, called, result ::
          && talk.records == before.records + [r] && RecordsIt(r, iteration, d)
          && talk.events == before.events + [called, result] && ReportsIt(called, result, r))
    && talk.citations == before.citations + CitedBy(d) && talk.chars == before.chars + TakenBy(d)
  }

  // The call is answered, and stops the loop where the decision does.
  ghost predicate IsAnswered(before: Talk, stopBefore: bool, talk: Talk, stopAfter: bool, iteration: nat, d: Decision) {
    AnsweredAs(before, talk, iteration, d) && stopAfter == (stopBefore || Halts(d))
  }

  lemma NotedAnswers(before: Talk, iteration: nat, d: Decision)
    ensures AnsweredAs(before, Noted(before, iteration, d), iteration, d) && (Stops(d) <==> Halts(d))
  {
    var m, r := Tool(d.call.id, PayloadOf(d)), RecordOf(iteration, d);
    AnswerSaysWhy(iteration, d);
    var called, result := EventsOf(r)[0], EventsOf(r)[1];
    assert EventsOf(r) == [called, result] && ReportsIt(called, result, r);
    assert Noted(before, iteration, d).messages == before.messages + [m];
  }

  lemma AnswerSaysWhy(iteration: nat, d: Decision)
    ensures AnswersIt(Tool(d.call.id, PayloadOf(d)), d) && RecordsIt(RecordOf(iteration, d), iteration, d)
    ensures CitationsOf(d) == CitedBy(d) && SizeOf(d) == TakenBy(d) && (Stops(d) <==> Halts(d))
  {
  }

  // ---- One call, one reply, the whole loop ---------------------------------------------------

  function Answer(talk: Talk, stopAfter: bool, call: Call, tools: (nat, Call) -> Outcome): Decision {
    var count := GetCount(talk.counts, Signature(call)) + 1;
    if stopAfter then Skip(call)
    else if count > 1 then Repeat(call, count)
    else Run(call, tools(|talk.decisions|, call), talk.chars)
  }

  function Noted(talk: Talk, iteration: nat, d: Decision): Talk {
    var signature, record := Signature(d.call), RecordOf(iteration, d);
    talk.(messages := talk.messages + [Tool(d.call.id, PayloadOf(d))],
          counts := talk.counts[signature := GetCount(talk.counts, signature) + 1],
          chars := talk.chars + SizeOf(d),
          citations := talk.citations + CitationsOf(d),
          records := talk.records + [record],
          events := talk.events + EventsOf(record),
          decisions := talk.decisions + [d])
  }

  // The loop over the calls of one reply, calls[..n] of them.
  function AnswerAll(talk: Talk, iteration: nat, calls: seq<Call>, tools: (nat, Call) -> Outcome): (Talk, bool)
    decreases |calls|
  {
    if calls == [] then (talk, false)
    else
      var (before, stopAfter) := AnswerAll(talk, iteration, calls[..|calls| - 1], tools);
      var d := Answer(before, stopAfter, calls[|calls| - 1], tools);
      (Noted(before, iteration, d), stopAfter || Stops(d))
  }

  function Asked(talk: Talk): Talk {
    talk.(completions := talk.completions + 1)
  }

  function Told(talk: Talk, reply: Reply): Talk {
    talk.(messages := talk.messages + [Assistant(reply.content, reply.calls)])
  }

  const BUDGET_SPENT := Plain("user", "the tool budget of this message is spent; answer with what you have")

  // The completion without tools after the loop.
  function LastAnswer(talk: Talk, world: World): Ending {
    match world.model(talk.completions, talk.messages + [BUDGET_SPENT])
    case Some(reply) => Answered(Asked(talk), reply.content, true)
    case None => Failed(Asked(talk))
  }

  datatype Progress = Done(ending: Ending) | More(talk: Talk)

  // One iteration of the loop.
  function Iteration(talk: Talk, iteration: nat, world: World): Progress {
    match world.model(talk.completions, talk.messages)
    case None => Done(Failed(Asked(talk)))
    case Some(reply) =>
      if reply.calls == [] then Done(Answered(Asked(talk), reply.content, false))
      else
        var (next, stopAfter) := AnswerAll(Told(Asked(talk), reply), iteration, reply.calls, world.tools);
        if stopAfter then Done(LastAnswer(next, world)) else More(next)
  }

  // Up to eight iterations, then what follows the loop.
  function Repeated(step: (Talk, nat) -> Progress, after: Talk -> Ending, talk: Talk, iteration: nat): Ending
    decreases MAX_ITERATIONS + 1 - iteration
  {
    if iteration > MAX_ITERATIONS then after(talk)
    else
      match step(talk, iteration)
      case Done(ending) => ending
      case More(next) => Repeated(step, after, next, iteration + 1)
  }

  function StepIn(world: World): (Talk, nat) -> Progress {
    (talk: Talk, iteration: nat) => Iteration(talk, iteration, world)
  }

  function AfterIn(world: World): Talk -> Ending {
    (talk: Talk) => LastAnswer(talk, world)
  }

  function Iterations(talk: Talk, iteration: nat, world: World): Ending {
    Repeated(StepIn(world), AfterIn(world), talk, iteration)
  }

  function Start(messages: seq<Message>): Talk {
    Talk(messages, map[], 0, [], [], [], [], 0)
  }

  // ---- The methods ---------------------------------------------------------------------------

  // The body of the loop over calls.
  method AnswerCall(before: Talk, stopBefore: bool, iteration: nat, call: Call, tools: (nat, Call) -> Outcome)
    returns (talk: Talk, stopAfter: bool)
    ensures var d := Answer(before, stopBefore, call, tools);
        && talk == Noted(before, iteration, d) && stopAfter == (stopBefore || Stops(d))
        && IsAnswered(before, stopBefore, talk, stopAfter, iteration, d)
  {
    stopAfter := stopBefore;
    var count := GetCount(before.counts, Signature(call)) + 1;
    var payload, size, cited, decision := Spent, 0, [], Skip(call);
    var record := Record(iteration, call.name, call.args, 0, false, None);
    if stopAfter {
      record := record.(truncated := true, note := NoteOf(Spent));
    } else if count > 1 {
      decision, payload := Repeat(call, count), Identical;
      record := record.(note := NoteOf(Identical));
      if count > MAX_REPEATED_CALLS {
        stopAfter := true;
      }
    } else {
      var outcome := tools(|before.decisions|, call);
      decision := Run(call, outcome, before.chars);
      match outcome {
        case Failure(error, reason) =>
          payload, record := Error(error), record.(note := Some(reason));
        case Result(text, candidateSize, itemCount, truncated, note, citations) =>
          if before.chars + candidateSize > MAX_TOOL_CONTEXT_CHARS {
            payload, record := Omitted, record.(truncated := true, note := NoteOf(Omitted));
            stopAfter := before.chars >= STOP_CHARS;
          } else {
            payload, record := ToolText(text), record.(itemCount := itemCount, truncated := truncated, note := note);
            size, cited := candidateSize, citations;
          }
      }
    }
    talk := before.(messages := before.messages + [Tool(call.id, payload)],
                    counts := before.counts[Signature(call) := count],
                    chars := before.chars + size,
                    citations := before.citations + cited,
                    records := before.records + [record],
                    events := before.events + EventsOf(record),
                    decisions := before.decisions + [decision]);
    assert decision == Answer(before, stopBefore, call, tools);
    assert talk == Noted(before, iteration, decision);
    NotedAnswers(before, iteration, decision);
  }

  lemma AnswerNext(before: Talk, iteration: nat, calls: seq<Call>, tools: (nat, Call) -> Outcome, i: nat)
    requires i < |calls|
    ensures (var (talk, stopAfter) := AnswerAll(before, iteration, calls[..i], tools);
             var d := Answer(talk, stopAfter, calls[i], tools);
             AnswerAll(before, iteration, calls[..i + 1], tools) == (Noted(talk, iteration, d), stopAfter || Stops(d)))
  {
    assert calls[..i + 1][..i] == calls[..i];
  }

  method AnswerCalls(before: Talk, iteration: nat, calls: seq<Call>, tools: (nat, Call) -> Outcome)
    returns (talk: Talk, stopAfter: bool)
    ensures (talk, stopAfter) == AnswerAll(before, iteration, calls, tools)
  {
    talk, stopAfter := before, false;
    for i := 0 to |calls|
      invariant (talk, stopAfter) == AnswerAll(before, iteration, calls[..i], tools)
    {
      AnswerNext(before, iteration, calls, tools, i);
      talk, stopAfter := AnswerCall(talk, stopAfter, iteration, calls[i], tools);
    }
    assert calls[..|calls|] == calls;
  }

  method LastCompletion(talk: Talk, world: World) returns (ending: Ending)
    ensures ending == LastAnswer(talk, world)
  {
    var final := world.model(talk.completions, talk.messages + [BUDGET_SPENT]);
    ending := if final.None? then Failed(Asked(talk)) else Answered(Asked(talk), final.value.content, true);
  }

  // The body of the loop over iterations.
  method Iterate(talk: Talk, iteration: nat, world: World) returns (progress: Progress)
    ensures progress == Iteration(talk, iteration, world)
  {
    var result := world.model(talk.completions, talk.messages);
    if result.None? {
      return Done(Failed(Asked(talk)));
    }
    if result.value.calls == [] {
      return Done(Answered(Asked(talk), result.value.content, false));
    }
    var next, stopAfter := AnswerCalls(Told(Asked(talk), result.value), iteration, result.value.calls, world.tools);
    if stopAfter {
      var ending := LastCompletion(next, world);
      return Done(ending);
    }
    progress := More(next);
  }

  // _converse without the events that carry tokens.
  method Converse(messages: seq<Message>, world: World) returns (ending: Ending)
    ensures ending == Iterations(Start(messages), 1, world)
  {
    ending := IterateFrom(Start(messages), 1, world);
  }

  // The loop over iterations and what follows it.
  method IterateFrom(start: Talk, first: nat, world: World) returns (ending: Ending)
    requires first <= MAX_ITERATIONS
    ensures ending == Iterations(start, first, world)
  {
    var talk := start;
    for iteration := first to MAX_ITERATIONS + 1
      invariant Iterations(talk, iteration, world) == Iterations(start, first, world)
    {
      var progress := Iterate(talk, iteration, world);
      if progress.Done? {
        return progress.ending;
      }
      talk := progress.talk;
    }
    ending := LastCompletion(talk, world);
  }
}
