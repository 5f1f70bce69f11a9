// What the tool loop keeps, whatever the model and the tools answer (chat/agent.py).
module ChatLaws {
  import opened Lists
  import opened ChatLoop

  // ---- The answers to the calls, said from their history alone --------------------------

  function Occurrences(ds: seq<Decision>, signature: string): nat {
    if ds == [] then 0
    else Occurrences(ds[..|ds| - 1], signature) + if Signature(ds[|ds| - 1].call) == signature then 1 else 0
  }

  // Characters of the accepted results.
  function UsedBy(ds: seq<Decision>): nat {
    if ds == [] then 0 else UsedBy(ds[..|ds| - 1]) + TakenBy(ds[|ds| - 1])
  }

  predicate Stopped(ds: seq<Decision>) {
    exists d | d in ds :: Halts(d)
  }

  // After a decision that stops the loop a call is skipped; a call made before is
  // not run again; any other call is run.
  function Decide(ds: seq<Decision>, call: Call, tools: (nat, Call) -> Outcome): Decision {
    if Stopped(ds) then Skip(call)
    else if Occurrences(ds, Signature(call)) > 0 then Repeat(call, Occurrences(ds, Signature(call)) + 1)
    else Run(call, tools(|ds|, call), UsedBy(ds))
  }

  ghost predicate Explained(ds: seq<Decision>, tools: (nat, Call) -> Outcome) {
    forall j | 0 <= j < |ds| :: ds[j] == Decide(ds[..j], ds[j].call, tools)
  }

  lemma ExplainedSnoc(ds: seq<Decision>, call: Call, tools: (nat, Call) -> Outcome)
    requires Explained(ds, tools)
    ensures Explained(ds + [Decide(ds, call, tools)], tools)
  {
    var all := ds + [Decide(ds, call, tools)];
    forall j | 0 <= j < |all| ensures all[j] == Decide(all[..j], all[j].call, tools) {
      if j < |ds| {
        assert all[..j] == ds[..j];
      } else {
        assert all[..j] == ds;
      }
    }
  }

  lemma {:induction false} MadeBefore(ds: seq<Decision>, i: nat)
    requires i < |ds|
    ensures Occurrences(ds, Signature(ds[i].call)) > 0
  {
    if i < |ds| - 1 {
      MadeBefore(ds[..|ds| - 1], i);
    }
  }

  // No tool runs twice with the same arguments.
  lemma RunsAtMostOnce(ds: seq<Decision>, tools: (nat, Call) -> Outcome, i: nat, j: nat)
    requires Explained(ds, tools) && i < j < |ds| && ds[i].Run? && ds[j].Run?
    ensures ds[i].call.name != ds[j].call.name || ds[i].call.args != ds[j].call.args
  {
    MadeBefore(ds[..j], i);
  }

  // Calls of tools whose names have no colon count as the same exactly when name and
  // arguments are.
  lemma SignatureExact(a: Call, b: Call)
    requires ':' !in a.name && ':' !in b.name
    ensures Signature(a) == Signature(b) <==> a.name == b.name && a.args == b.args
  {
    if Signature(a) == Signature(b) {
      ColonAt(a, b);
      ColonAt(b, a);
      assert a.name == Signature(a)[..|a.name|] == b.name;
      assert a.args == Signature(a)[|a.name| + 1..] == b.args;
    }
  }

  lemma ColonAt(a: Call, b: Call)
    requires ':' !in a.name && Signature(a) == Signature(b)
    ensures |a.name| <= |b.name|
  {
    assert Signature(b)[|b.name|] == ':';
    assert forall k | 0 <= k < |a.name| :: Signature(a)[k] == a.name[k] && a.name[k] in a.name;
  }

  // Once the loop has stopped every call is skipped, and only then.
  lemma SkippedExactly(ds: seq<Decision>, tools: (nat, Call) -> Outcome, j: nat)
    requires Explained(ds, tools) && j < |ds|
    ensures ds[j].Skip? <==> exists i :: 0 <= i < j && Halts(ds[i])
  {
    if Stopped(ds[..j]) {
      var d :| d in ds[..j] && Halts(d);
      var i :| 0 <= i < j && ds[i] == d;
    } else {
      assert forall i | 0 <= i < j :: ds[i] in ds[..j];
    }
  }

  // The accepted results never take more than the budget.
  lemma {:induction false} WithinBudget(ds: seq<Decision>, tools: (nat, Call) -> Outcome)
    requires Explained(ds, tools)
    ensures UsedBy(ds) <= 48000
    decreases |ds|
  {
    if ds != [] {
      var init := ds[..|ds| - 1];
      forall j | 0 <= j < |init| ensures init[j] == Decide(init[..j], init[j].call, tools) {
        assert init[..j] == ds[..j];
      }
      WithinBudget(init, tools);
    }
  }

  // ---- The transcript ------------------------------------------------------------------------

  // The tool messages of one reply.
  function Answers(ds: seq<Decision>): seq<Message> {
    seq(|ds|, i requires 0 <= i < |ds| => Tool(ds[i].call.id, PayloadOf(ds[i])))
  }

  function CallsOf(ds: seq<Decision>): seq<Call> {
    seq(|ds|, i requires 0 <= i < |ds| => ds[i].call)
  }

  lemma AnswersSnoc(ds: seq<Decision>, d: Decision)
    ensures Answers(ds + [d]) == Answers(ds) + [Tool(d.call.id, PayloadOf(d))]
    ensures CallsOf(ds + [d]) == CallsOf(ds) + [d.call]
  {
  }

  // ms begins with a reply and the messages that answer its calls.
  ghost predicate Block(ms: seq<Message>, ds: seq<Decision>) {
    && ms != [] && ms[0].Assistant?
    && 0 < |ms[0].calls| < |ms| && |ms[0].calls| <= |ds|
    && CallsOf(ds[..|ms[0].calls|]) == ms[0].calls
    && forall i | 0 <= i < |ms[0].calls| :: AnswersIt(ms[i + 1], ds[i])
  }

  // Every reply with calls is followed by one tool message for each of them, in order.
  ghost predicate Transcript(ms: seq<Message>, ds: seq<Decision>)
    decreases |ms|
  {
    if ms == [] then ds == []
    else Block(ms, ds) && Transcript(ms[|ms[0].calls| + 1..], ds[|ms[0].calls|..])
  }

  lemma BlockAppend(ms: seq<Message>, ds: seq<Decision>, moreMs: seq<Message>, moreDs: seq<Decision>)
    requires Block(ms, ds)
    ensures Block(ms + moreMs, ds + moreDs)
  {
    var n := |ms[0].calls|;
    assert (ds + moreDs)[..n] == ds[..n];
    assert forall i | 0 <= i < n :: (ms + moreMs)[i + 1] == ms[i + 1] && (ds + moreDs)[i] == ds[i];
  }

  lemma {:induction false} TranscriptAppend(ms: seq<Message>, ds: seq<Decision>, moreMs: seq<Message>,
                                            moreDs: seq<Decision>)
    requires Transcript(ms, ds) && Transcript(moreMs, moreDs)
    ensures Transcript(ms + moreMs, ds + moreDs)
    decreases |ms|
  {
    if ms == [] {
      assert ms + moreMs == moreMs && ds + moreDs == moreDs;
    } else {
      var n := |ms[0].calls|;
      TranscriptAppend(ms[n + 1..], ds[n..], moreMs, moreDs);
      TranscriptJoin(ms, ds, moreMs, moreDs);
    }
  }

  lemma {:induction false} TranscriptJoin(ms: seq<Message>, ds: seq<Decision>, moreMs: seq<Message>,
                                          moreDs: seq<Decision>)
    requires Block(ms, ds)
    requires Transcript(ms[|ms[0].calls| + 1..] + moreMs, ds[|ms[0].calls|..] + moreDs)
    ensures Transcript(ms + moreMs, ds + moreDs)
  {
    var n := |ms[0].calls|;
    BlockAppend(ms, ds, moreMs, moreDs);
    assert (ms + moreMs)[n + 1..] == ms[n + 1..] + moreMs;
    assert (ds + moreDs)[n..] == ds[n..] + moreDs;
  }

  lemma AnswerIsRight(d: Decision)
    ensures AnswersIt(Tool(d.call.id, PayloadOf(d)), d)
  {
  }

  lemma OneBlock(reply: Message, made: seq<Decision>)
    requires reply.Assistant? && made != [] && reply.calls == CallsOf(made)
    ensures Transcript([reply] + Answers(made), made)
  {
    var ms := [reply] + Answers(made);
    assert made[..|made|] == made && made[|made|..] == [];
    forall i | 0 <= i < |made| ensures AnswersIt(ms[i + 1], made[i]) {
      assert ms[i + 1] == Tool(made[i].call.id, PayloadOf(made[i]));
      AnswerIsRight(made[i]);
    }
    assert Block(ms, made);
    assert ms[|made| + 1..] == [];
  }

  // ---- The iterations of the records --------------------------------------------------------

  ghost predicate DatedBlock(ms: seq<Message>, records: seq<Record>, iteration: nat) {
    && ms != [] && ms[0].Assistant? && |ms[0].calls| < |ms| && |ms[0].calls| <= |records|
    && forall i | 0 <= i < |ms[0].calls| :: records[i].iteration == iteration
  }

  // The records of the calls of a reply carry its number; replies count from `first`.
  ghost predicate Dated(ms: seq<Message>, records: seq<Record>, first: nat)
    decreases |ms|
  {
    if ms == [] then records == []
    else DatedBlock(ms, records, first) && Dated(ms[|ms[0].calls| + 1..], records[|ms[0].calls|..], first + 1)
  }

  // The number of replies with their answers.
  function Replies(ms: seq<Message>): nat {
    if ms == [] || !ms[0].Assistant? || |ms[0].calls| >= |ms| then 0 else 1 + Replies(ms[|ms[0].calls| + 1..])
  }

  lemma {:induction false} DatedAppend(ms: seq<Message>, rs: seq<Record>, first: nat, moreMs: seq<Message>,
                                       moreRs: seq<Record>)
    requires Dated(ms, rs, first) && Dated(moreMs, moreRs, first + Replies(ms))
    ensures Dated(ms + moreMs, rs + moreRs, first) && Replies(ms + moreMs) == Replies(ms) + Replies(moreMs)
    decreases |ms|
  {
    if ms == [] {
      assert ms + moreMs == moreMs && rs + moreRs == moreRs;
    } else {
      var n := |ms[0].calls|;
      DatedAppend(ms[n + 1..], rs[n..], first + 1, moreMs, moreRs);
      DatedJoin(ms, rs, first, moreMs, moreRs);
    }
  }

  lemma {:induction false} DatedJoin(ms: seq<Message>, rs: seq<Record>, first: nat, moreMs: seq<Message>,
                                     moreRs: seq<Record>)
    requires DatedBlock(ms, rs, first)
    requires Dated(ms[|ms[0].calls| + 1..] + moreMs, rs[|ms[0].calls|..] + moreRs, first + 1)
    ensures Dated(ms + moreMs, rs + moreRs, first)
    ensures Replies(ms + moreMs) == 1 + Replies(ms[|ms[0].calls| + 1..] + moreMs)
  {
    var n := |ms[0].calls|;
    assert (ms + moreMs)[n + 1..] == ms[n + 1..] + moreMs;
    assert (rs + moreRs)[n..] == rs[n..] + moreRs;
  }

  function RecordsOf(iteration: nat, ds: seq<Decision>): seq<Record> {
    seq(|ds|, i requires 0 <= i < |ds| => RecordOf(iteration, ds[i]))
  }

  lemma OneDated(reply: Message, made: seq<Decision>, iteration: nat)
    requires reply.Assistant? && reply.calls == CallsOf(made)
    ensures Dated([reply] + Answers(made), RecordsOf(iteration, made), iteration)
    ensures Replies([reply] + Answers(made)) == 1
  {
    var ms, rs := [reply] + Answers(made), RecordsOf(iteration, made);
    assert ms[|made| + 1..] == [] && rs[|made|..] == [];
    assert DatedBlock(ms, rs, iteration);
  }

  // ---- What holds of the loop's variables ------------------------------------------------------

  ghost predicate Counted(talk: Talk) {
    forall signature: string :: GetCount(talk.counts, signature) == Occurrences(talk.decisions, signature)
  }

  ghost predicate Recorded(talk: Talk) {
    && |talk.records| == |talk.decisions| && |talk.events| == 2 * |talk.records|
    && (forall i | 0 <= i < |talk.records| ::
          RecordsIt(talk.records[i], talk.records[i].iteration, talk.decisions[i]))
    && (forall i | 0 <= i < |talk.records| ::
          ReportsIt(talk.events[2 * i], talk.events[2 * i + 1], talk.records[i]))
    && talk.citations == FlatMap(talk.decisions, CitedBy)
  }

  ghost predicate Kept(talk: Talk, tools: (nat, Call) -> Outcome) {
    Counted(talk) && talk.chars == UsedBy(talk.decisions) && Explained(talk.decisions, tools) && Recorded(talk)
  }

  lemma CountedSnoc(talk: Talk, iteration: nat, d: Decision)
    requires Counted(talk)
    ensures Counted(Noted(talk, iteration, d))
    ensures Noted(talk, iteration, d).decisions[..|talk.decisions|] == talk.decisions
  {
    assert (talk.decisions + [d])[..|talk.decisions|] == talk.decisions;
    forall signature: string
      ensures GetCount(Noted(talk, iteration, d).counts, signature) == Occurrences(talk.decisions + [d], signature)
    {
    }
  }

  lemma RecordedSnoc(talk: Talk, iteration: nat, d: Decision)
    requires Recorded(talk)
    ensures Recorded(Noted(talk, iteration, d))
  {
    var next := Noted(talk, iteration, d);
    NotedAnswers(talk, iteration, d);
    FlatMapSnoc(talk.decisions, CitedBy, d);
    RecordsGrow(talk, next, iteration, d);
  }

  lemma RecordsGrow(talk: Talk, next: Talk, iteration: nat, d: Decision)
    requires Recorded(talk) && AnsweredAs(talk, next, iteration, d)
    requires next.citations == FlatMap(next.decisions, CitedBy)
    ensures Recorded(next)
  {
    var n := |talk.records|;
    assert RecordsIt(next.records[n], next.records[n].iteration, next.decisions[n]);
    assert next.events[..2 * n] == talk.events;
    forall i | 0 <= i < n + 1 ensures ReportsIt(next.events[2 * i], next.events[2 * i + 1], next.records[i]) {
      if i < n {
        assert next.events[2 * i] == talk.events[2 * i] && next.events[2 * i + 1] == talk.events[2 * i + 1];
      }
    }
  }

  lemma StoppedSnoc(ds: seq<Decision>, d: Decision)
    ensures Stopped(ds + [d]) <==> Stopped(ds) || Halts(d)
  {
    assert forall x :: x in ds + [d] <==> x in ds || x == d;
  }

  // The counters decide like the history.
  lemma AnswerKeeps(talk: Talk, iteration: nat, call: Call, tools: (nat, Call) -> Outcome)
    requires Kept(talk, tools)
    ensures (var d := Answer(talk, Stopped(talk.decisions), call, tools);
             && d == Decide(talk.decisions, call, tools)
             && Kept(Noted(talk, iteration, d), tools)
             && (Stopped(Noted(talk, iteration, d).decisions) <==> Stopped(talk.decisions) || Halts(d)))
  {
    var d := Answer(talk, Stopped(talk.decisions), call, tools);
    AnswerIsDecided(talk, call, tools);
    NotedKeeps(talk, iteration, d, call, tools);
    StoppedSnoc(talk.decisions, d);
  }

  lemma AnswerIsDecided(talk: Talk, call: Call, tools: (nat, Call) -> Outcome)
    requires Kept(talk, tools)
    ensures Answer(talk, Stopped(talk.decisions), call, tools) == Decide(talk.decisions, call, tools)
  {
    assert GetCount(talk.counts, Signature(call)) == Occurrences(talk.decisions, Signature(call));
  }

  lemma NotedKeeps(talk: Talk, iteration: nat, d: Decision, call: Call, tools: (nat, Call) -> Outcome)
    requires Kept(talk, tools) && d == Decide(talk.decisions, call, tools)
    ensures Kept(Noted(talk, iteration, d), tools)
  {
    CountedSnoc(talk, iteration, d);
    RecordedSnoc(talk, iteration, d);
    ExplainedSnoc(talk.decisions, call, tools);
    UsedSnoc(talk, iteration, d);
  }

  lemma UsedSnoc(talk: Talk, iteration: nat, d: Decision)
    requires talk.chars == UsedBy(talk.decisions)
    ensures Noted(talk, iteration, d).chars == UsedBy(talk.decisions + [d])
  {
    assert (talk.decisions + [d])[..|talk.decisions|] == talk.decisions;
  }

  lemma {:induction false} AnswerAllKeeps(talk: Talk, iteration: nat, calls: seq<Call>, tools: (nat, Call) -> Outcome)
    requires Kept(talk, tools) && !Stopped(talk.decisions)
    ensures (var (next, stopAfter) := AnswerAll(talk, iteration, calls, tools);
             Kept(next, tools) && stopAfter == Stopped(next.decisions))
    decreases |calls|
  {
    if calls != [] {
      AnswerAllKeeps(talk, iteration, calls[..|calls| - 1], tools);
      var (before, stopAfter) := AnswerAll(talk, iteration, calls[..|calls| - 1], tools);
      AnswerKeeps(before, iteration, calls[|calls| - 1], tools);
      NotedAnswers(before, iteration, Answer(before, stopAfter, calls[|calls| - 1], tools));
    }
  }

  // The calls of a reply are answered once each, in their order.
  ghost predicate AnsweredBy(talk: Talk, next: Talk, iteration: nat, calls: seq<Call>, made: seq<Decision>) {
    && next.decisions == talk.decisions + made
    && next.messages == talk.messages + Answers(made)
    && next.records == talk.records + RecordsOf(iteration, made)
    && next.completions == talk.completions
    && CallsOf(made) == calls
  }

  lemma AnsweredNext(talk: Talk, before: Talk, iteration: nat, calls: seq<Call>, made: seq<Decision>, d: Decision)
    requires AnsweredBy(talk, before, iteration, calls, made)
    ensures AnsweredBy(talk, Noted(before, iteration, d), iteration, calls + [d.call], made + [d])
  {
    AnswersSnoc(made, d);
    assert RecordsOf(iteration, made + [d]) == RecordsOf(iteration, made) + [RecordOf(iteration, d)];
  }

  lemma {:induction false} AnswersInOrder(talk: Talk, iteration: nat, calls: seq<Call>, tools: (nat, Call) -> Outcome)
    returns (made: seq<Decision>)
    ensures AnsweredBy(talk, AnswerAll(talk, iteration, calls, tools).0, iteration, calls, made)
    decreases |calls|
  {
    if calls == [] {
      made := [];
      assert talk.messages + Answers([]) == talk.messages && talk.decisions + [] == talk.decisions;
      assert talk.records + RecordsOf(iteration, []) == talk.records;
    } else {
      var init := calls[..|calls| - 1];
      made := AnswersInOrder(talk, iteration, init, tools);
      var (before, stopAfter) := AnswerAll(talk, iteration, init, tools);
      var d := Answer(before, stopAfter, calls[|calls| - 1], tools);
      AnsweredNext(talk, before, iteration, init, made, d);
      InitLast(calls);
      made := made + [d];
    }
  }

  // ---- The whole loop ----------------------------------------------------------------------------

  // What has been said since the messages the loop started with.
  function Since(initial: seq<Message>, messages: seq<Message>): seq<Message> {
    if |initial| <= |messages| then messages[|initial|..] else []
  }

  // The messages of a talk follow `initial`: replies with calls, each followed by the
  // answers to them; the records carry the number of the reply they belong to.
  ghost predicate Followed(initial: seq<Message>, messages: seq<Message>, ds: seq<Decision>, records: seq<Record>) {
    initial <= messages && Transcript(Since(initial, messages), ds) && Dated(Since(initial, messages), records, 1)
  }

  ghost predicate Conversation(talk: Talk, initial: seq<Message>, tools: (nat, Call) -> Outcome) {
    Kept(talk, tools) && Followed(initial, talk.messages, talk.decisions, talk.records)
  }

  lemma SinceGrows(initial: seq<Message>, messages: seq<Message>, more: seq<Message>)
    requires initial <= messages
    ensures initial <= messages + more && Since(initial, messages + more) == Since(initial, messages) + more
  {
  }

  lemma {:induction false} BlockGrows(said: seq<Message>, ds: seq<Decision>, records: seq<Record>, reply: Message,
                                      made: seq<Decision>)
    requires Transcript(said, ds) && Dated(said, records, 1)
    requires reply.Assistant? && made != [] && reply.calls == CallsOf(made)
    ensures Transcript(said + ([reply] + Answers(made)), ds + made)
    ensures Dated(said + ([reply] + Answers(made)), records + RecordsOf(Replies(said) + 1, made), 1)
    ensures Replies(said + ([reply] + Answers(made))) == Replies(said) + 1
  {
    var block := [reply] + Answers(made);
    OneBlock(reply, made);
    TranscriptAppend(said, ds, block, made);
    OneDated(reply, made, Replies(said) + 1);
    DatedAppend(said, records, 1, block, RecordsOf(Replies(said) + 1, made));
  }

  lemma {:induction false} FollowedGrows(initial: seq<Message>, messages: seq<Message>, ds: seq<Decision>,
                                         records: seq<Record>, reply: Message, made: seq<Decision>)
    requires Followed(initial, messages, ds, records)
    requires reply.Assistant? && made != [] && reply.calls == CallsOf(made)
    ensures (var next, iteration := messages + ([reply] + Answers(made)), Replies(Since(initial, messages)) + 1;
             && Followed(initial, next, ds + made, records + RecordsOf(iteration, made))
             && Replies(Since(initial, next)) == iteration)
  {
    BlockGrows(Since(initial, messages), ds, records, reply, made);
    SinceGrows(initial, messages, [reply] + Answers(made));
  }

  lemma ToldKeeps(talk: Talk, reply: Reply, tools: (nat, Call) -> Outcome)
    requires Kept(talk, tools)
    ensures Kept(Told(Asked(talk), reply), tools)
  {
  }

  lemma ReplyKeeps(talk: Talk, initial: seq<Message>, iteration: nat, reply: Reply, tools: (nat, Call) -> Outcome)
    requires Conversation(talk, initial, tools) && !Stopped(talk.decisions) && reply.calls != []
    requires Replies(Since(initial, talk.messages)) == iteration - 1
    ensures (var (next, stopAfter) := AnswerAll(Told(Asked(talk), reply), iteration, reply.calls, tools);
             && Conversation(next, initial, tools) && stopAfter == Stopped(next.decisions)
             && Replies(Since(initial, next.messages)) == iteration && next.completions == talk.completions + 1)
  {
    var told := Told(Asked(talk), reply);
    ToldKeeps(talk, reply, tools);
    AnswerAllKeeps(told, iteration, reply.calls, tools);
    var made := AnswersInOrder(told, iteration, reply.calls, tools);
    ReplyFollowed(talk, AnswerAll(told, iteration, reply.calls, tools).0, initial, iteration, reply, made);
  }

  lemma {:induction false} ReplyFollowed(talk: Talk, next: Talk, initial: seq<Message>, iteration: nat, reply: Reply,
                                         made: seq<Decision>)
    requires Followed(initial, talk.messages, talk.decisions, talk.records) && reply.calls != []
    requires Replies(Since(initial, talk.messages)) == iteration - 1
    requires AnsweredBy(Told(Asked(talk), reply), next, iteration, reply.calls, made)
    ensures Followed(initial, next.messages, next.decisions, next.records)
    ensures Replies(Since(initial, next.messages)) == iteration && next.completions == talk.completions + 1
  {
    var asking := Assistant(reply.content, reply.calls);
    FollowedGrows(initial, talk.messages, talk.decisions, talk.records, asking, made);
    ToldThenAnswered(talk, next, iteration, reply, made);
  }

  lemma ToldThenAnswered(talk: Talk, next: Talk, iteration: nat, reply: Reply, made: seq<Decision>)
    requires AnsweredBy(Told(Asked(talk), reply), next, iteration, reply.calls, made)
    ensures next.messages == talk.messages + ([Assistant(reply.content, reply.calls)] + Answers(made))
    ensures next.decisions == talk.decisions + made && next.records == talk.records + RecordsOf(iteration, made)
    ensures next.completions == talk.completions + 1
  {
    var asking := Assistant(reply.content, reply.calls);
    assert talk.messages + [asking] + Answers(made) == talk.messages + ([asking] + Answers(made));
  }

  // Each reply among the messages is what the model said when it was given all the
  // messages before it.
  ghost predicate Prompted(prefix: seq<Message>, ms: seq<Message>, world: World, n: nat)
    decreases |ms|
  {
    if ms == [] then true
    else
      && PromptedReply(prefix, ms, world, n)
      && Prompted(prefix + ms[..|ms[0].calls| + 1], ms[|ms[0].calls| + 1..], world, n + 1)
  }

  ghost predicate PromptedReply(prefix: seq<Message>, ms: seq<Message>, world: World, n: nat) {
    && ms != [] && ms[0].Assistant? && |ms[0].calls| < |ms|
    && world.model(n, prefix) == Some(Reply(ms[0].content, ms[0].calls))
  }

  lemma {:induction false} PromptedAppend(prefix: seq<Message>, ms: seq<Message>, world: World, n: nat,
                                          more: seq<Message>)
    requires Prompted(prefix, ms, world, n) && Prompted(prefix + ms, more, world, n + Replies(ms))
    ensures Prompted(prefix, ms + more, world, n)
    decreases |ms|
  {
    if ms == [] {
      assert ms + more == more && prefix + ms == prefix;
    } else {
      var k := |ms[0].calls| + 1;
      assert prefix + ms[..k] + ms[k..] == prefix + ms;
      PromptedAppend(prefix + ms[..k], ms[k..], world, n + 1, more);
      PromptedJoin(prefix, ms, world, n, more);
    }
  }

  lemma PromptedJoin(prefix: seq<Message>, ms: seq<Message>, world: World, n: nat, more: seq<Message>)
    requires PromptedReply(prefix, ms, world, n)
    requires (var k := |ms[0].calls| + 1; Prompted(prefix + ms[..k], ms[k..] + more, world, n + 1))
    ensures Prompted(prefix, ms + more, world, n)
  {
    var k := |ms[0].calls| + 1;
    assert (ms + more)[..k] == ms[..k] && (ms + more)[k..] == ms[k..] + more;
    assert PromptedReply(prefix, ms + more, world, n);
  }

  lemma OnePrompted(prefix: seq<Message>, reply: Message, answers: seq<Message>, world: World, n: nat)
    requires reply.Assistant? && |answers| == |reply.calls|
    requires world.model(n, prefix) == Some(Reply(reply.content, reply.calls))
    ensures Prompted(prefix, [reply] + answers, world, n)
  {
    var ms := [reply] + answers;
    assert PromptedReply(prefix, ms, world, n);
    assert ms[|reply.calls| + 1..] == [];
  }

  // What the model is given for the completion that ends the answer: after a stop, and
  // for the ninth one, the messages and the notice that the budget is spent.
  function LastPrompt(talk: Talk, world: World): seq<Message> {
    if Stopped(talk.decisions) || talk.completions == 9 then talk.messages + [BUDGET_SPENT] else talk.messages
  }

  // The answer is the content of that completion, which makes no calls unless the budget is
  // spent; without it there is none.
  ghost predicate EndsWith(ending: Ending, world: World)
    requires ending.talk.completions >= 1
  {
    match world.model(ending.talk.completions - 1, LastPrompt(ending.talk, world))
    case None => ending.Failed?
    case Some(reply) =>
      && ending.Answered? && ending.content == reply.content
      && (ending.truncated <==> Stopped(ending.talk.decisions) || ending.talk.completions == 9)
      && (!ending.truncated ==> reply.calls == [])
  }

  // Every completion but the last asked for tools.
  ghost predicate Ends(ending: Ending, initial: seq<Message>, world: World) {
    && Conversation(ending.talk, initial, world.tools)
    && 1 <= ending.talk.completions <= 9
    && Replies(Since(initial, ending.talk.messages)) == ending.talk.completions - 1
    && Prompted(initial, Since(initial, ending.talk.messages), world, 0)
    && EndsWith(ending, world)
  }

  // The loop goes on: each completion so far was a reply with calls.
  ghost predicate GoesOn(talk: Talk, initial: seq<Message>, world: World) {
    && Conversation(talk, initial, world.tools) && !Stopped(talk.decisions)
    && Replies(Since(initial, talk.messages)) == talk.completions
    && Prompted(initial, Since(initial, talk.messages), world, 0)
  }

  lemma AskedKeeps(talk: Talk, initial: seq<Message>, tools: (nat, Call) -> Outcome)
    requires Conversation(talk, initial, tools)
    ensures Conversation(Asked(talk), initial, tools)
  {
  }

  // What has been said is what had been said before the model was asked once more.
  lemma AskedSays(talk: Talk, ending: Ending, initial: seq<Message>, world: World)
    requires Conversation(talk, initial, world.tools) && ending.talk == Asked(talk)
    requires Replies(Since(initial, talk.messages)) == talk.completions <= MAX_ITERATIONS
    requires Prompted(initial, Since(initial, talk.messages), world, 0)
    requires EndsWith(ending, world)
    ensures Ends(ending, initial, world)
  {
    AskedKeeps(talk, initial, world.tools);
  }

  lemma LastEndsWith(talk: Talk, world: World)
    requires Stopped(talk.decisions) || talk.completions == MAX_ITERATIONS
    ensures LastAnswer(talk, world).talk == Asked(talk) && EndsWith(LastAnswer(talk, world), world)
  {
  }

  lemma LastAnswerEnds(talk: Talk, initial: seq<Message>, world: World)
    requires Conversation(talk, initial, world.tools) && talk.completions <= MAX_ITERATIONS
    requires Replies(Since(initial, talk.messages)) == talk.completions
    requires Prompted(initial, Since(initial, talk.messages), world, 0)
    requires Stopped(talk.decisions) || talk.completions == MAX_ITERATIONS
    ensures Ends(LastAnswer(talk, world), initial, world)
  {
    LastEndsWith(talk, world);
    AskedSays(talk, LastAnswer(talk, world), initial, world);
  }

  ghost predicate Progresses(progress: Progress, initial: seq<Message>, iteration: nat, world: World) {
    match progress
    case Done(ending) => Ends(ending, initial, world)
    case More(next) => GoesOn(next, initial, world) && next.completions == iteration
  }

  // The reply and its answers were said to what had been said before.
  lemma ReplyPrompted(talk: Talk, next: Talk, initial: seq<Message>, iteration: nat, reply: Reply, world: World,
                      made: seq<Decision>)
    requires initial <= talk.messages && Prompted(initial, Since(initial, talk.messages), world, 0)
    requires world.model(talk.completions, talk.messages) == Some(reply)
    requires Replies(Since(initial, talk.messages)) == talk.completions
    requires AnsweredBy(Told(Asked(talk), reply), next, iteration, reply.calls, made)
    ensures Prompted(initial, Since(initial, next.messages), world, 0)
  {
    var asking, said := Assistant(reply.content, reply.calls), Since(initial, talk.messages);
    ToldThenAnswered(talk, next, iteration, reply, made);
    assert initial + said == talk.messages;
    OnePrompted(talk.messages, asking, Answers(made), world, talk.completions);
    PromptedAppend(initial, said, world, 0, [asking] + Answers(made));
    SinceGrows(initial, talk.messages, [asking] + Answers(made));
  }

  lemma CallsProgress(talk: Talk, initial: seq<Message>, iteration: nat, reply: Reply, world: World)
    requires GoesOn(talk, initial, world) && reply.calls != []
    requires world.model(talk.completions, talk.messages) == Some(reply)
    requires 1 <= iteration <= MAX_ITERATIONS && talk.completions == iteration - 1
    ensures (var (next, stopAfter) := AnswerAll(Told(Asked(talk), reply), iteration, reply.calls, world.tools);
             Progresses(if stopAfter then Done(LastAnswer(next, world)) else More(next), initial, iteration, world))
  {
    ReplyKeeps(talk, initial, iteration, reply, world.tools);
    var (next, stopAfter) := AnswerAll(Told(Asked(talk), reply), iteration, reply.calls, world.tools);
    var made := AnswersInOrder(Told(Asked(talk), reply), iteration, reply.calls, world.tools);
    ReplyPrompted(talk, next, initial, iteration, reply, world, made);
    if stopAfter {
      LastAnswerEnds(next, initial, world);
    }
  }

  // A reply without calls, or none, is the end.
  lemma PlainEndsWith(talk: Talk, iteration: nat, world: World)
    requires !Stopped(talk.decisions) && talk.completions < MAX_ITERATIONS
    requires (var result := world.model(talk.completions, talk.messages); result.None? || result.value.calls == [])
    ensures (var progress := Iteration(talk, iteration, world);
             progress.Done? && progress.ending.talk == Asked(talk) && EndsWith(progress.ending, world))
  {
  }

  lemma IterationKeeps(talk: Talk, initial: seq<Message>, iteration: nat, world: World)
    requires GoesOn(talk, initial, world)
    requires 1 <= iteration <= MAX_ITERATIONS && talk.completions == iteration - 1
    ensures Progresses(Iteration(talk, iteration, world), initial, iteration, world)
  {
    var result := world.model(talk.completions, talk.messages);
    if result.Some? && result.value.calls != [] {
      CallsProgress(talk, initial, iteration, result.value, world);
    } else {
      PlainEndsWith(talk, iteration, world);
      AskedSays(talk, Iteration(talk, iteration, world).ending, initial, world);
    }
  }

  ghost predicate StepKeeps(step: (Talk, nat) -> Progress, going: Talk -> bool, ends: Ending -> bool, talk: Talk,
                            iteration: nat)
  {
    going(talk) && talk.completions == iteration - 1 ==>
      match step(talk, iteration)
      case Done(ending) => ends(ending)
      case More(next) => going(next) && next.completions == iteration
  }

  // Induction over the iterations of the loop.
  lemma {:induction false} RepeatedKeeps(step: (Talk, nat) -> Progress, after: Talk -> Ending, going: Talk -> bool,
                                         ends: Ending -> bool, talk: Talk, iteration: nat)
    requires 1 <= iteration <= MAX_ITERATIONS + 1 && going(talk) && talk.completions == iteration - 1
    requires forall t, i: nat | 1 <= i <= MAX_ITERATIONS :: StepKeeps(step, going, ends, t, i)
    requires forall t: Talk | going(t) && t.completions == MAX_ITERATIONS :: ends(after(t))
    ensures ends(Repeated(step, after, talk, iteration))
    decreases MAX_ITERATIONS + 1 - iteration
  {
    if iteration <= MAX_ITERATIONS {
      assert StepKeeps(step, going, ends, talk, iteration);
      match step(talk, iteration)
      case Done(_) =>
      case More(next) => RepeatedKeeps(step, after, going, ends, next, iteration + 1);
    }
  }

  ghost function Going(initial: seq<Message>, world: World): Talk -> bool {
    (talk: Talk) => GoesOn(talk, initial, world)
  }

  ghost function EndsOf(initial: seq<Message>, world: World): Ending -> bool {
    (ending: Ending) => Ends(ending, initial, world)
  }

  // For every behaviour of the model and the tools: one to nine completions, each
  // call of each reply answered by one message and one record in order, the record
  // numbered like the reply, and each answer decided by the calls before it.
  lemma LoopIsSound(messages: seq<Message>, world: World)
    ensures Ends(Iterations(Start(messages), 1, world), messages, world)
  {
    var start, going, ends := Start(messages), Going(messages, world), EndsOf(messages, world);
    assert Since(messages, start.messages) == [];
    assert going(start);
    forall t, i: nat | 1 <= i <= MAX_ITERATIONS ensures StepKeeps(StepIn(world), going, ends, t, i) {
      if going(t) && t.completions == i - 1 { IterationKeeps(t, messages, i, world); }
    }
    forall t: Talk | going(t) && t.completions == MAX_ITERATIONS ensures ends(AfterIn(world)(t)) {
      LastAnswerEnds(t, messages, world);
    }
    RepeatedKeeps(StepIn(world), AfterIn(world), going, ends, start, 1);
    assert ends(Iterations(start, 1, world));
  }
}
