// The message history of one agent: what is added to it, what interruptions leave behind, and
// what `roll_back` repairs.

module AgentTranscript {
  import opened Options

  /** `name` is missing when the model's tool call names no function. */
  datatype ToolCall = ToolCall(id: string, name: Option<string>)

  datatype Message =
    | System(content: string)
    | User(content: string)
    | Assistant(content: string, reasoning: Option<string>, call: Option<ToolCall>)
    | Tool(callId: string, functionName: string, content: string)

  type Transcript = seq<Message>

  const ASK_USER := "message_ask_user"
  const REMOVED := "(removed)"
  const GO_ON := "ai无响应内容，请继续"

  // ---- what a model provider demands of a history ----

  ghost predicate IsCall(m: Message) {
    m.Assistant? && m.call.Some?
  }

  ghost predicate Answers(answer: Message, m: Message) {
    IsCall(m) && answer.Tool? && answer.callId == m.call.value.id
  }

  /** A call is followed by its answer and by nothing else; an answer follows its call. */
  ghost predicate FitTogether(first: Message, second: Message) {
    if IsCall(first) || second.Tool? then Answers(second, first) else true
  }

  ghost predicate WellFormed(t: Transcript) {
    && (t != [] ==> !t[0].Tool?)
    && forall i :: 0 <= i < |t| - 1 ==> FitTogether(t[i], t[i + 1])
  }

  ghost predicate Pending(t: Transcript) {
    t != [] && IsCall(t[|t| - 1])
  }

  /** Well formed with every call answered: fit to be sent to the model. */
  ghost predicate Complete(t: Transcript) {
    WellFormed(t) && !Pending(t)
  }

  lemma PrefixWellFormed(t: Transcript, n: nat)
    requires WellFormed(t) && n <= |t|
    ensures WellFormed(t[..n])
  {
  }

  lemma IllFormedForGood(t: Transcript, n: nat)
    requires n <= |t| && !WellFormed(t[..n])
    ensures !WellFormed(t)
  {
  }

  /** Adding one message keeps a history well formed exactly when it fits the last one. */
  lemma AppendWellFormedIff(t: Transcript, m: Message)
    ensures WellFormed(t + [m]) <==>
            WellFormed(t) && if t == [] then !m.Tool? else FitTogether(t[|t| - 1], m)
  {
    var all := t + [m];
    assert all[..|t|] == t;
    if WellFormed(all) {
      PrefixWellFormed(all, |t|);
      if t != [] {
        assert FitTogether(all[|t| - 1], all[|t| - 1 + 1]);
      }
    }
  }

  // ---- the memory object ----

  function CompactMessage(m: Message): Message {
    match m
    case Tool(id, name, _) => if name == "browser_view" || name == "browser_navigate" then Tool(id, name, REMOVED) else m
    case Assistant(content, _, call) => Assistant(content, None, call)
    case _ => m
  }

  function Compacted(t: Transcript): (c: Transcript)
    ensures |c| == |t|
    ensures forall i :: 0 <= i < |t| ==> c[i] == CompactMessage(t[i])
  {
    seq(|t|, i requires 0 <= i < |t| => CompactMessage(t[i]))
  }

  /** Compacting a history keeps exactly its well-formed and complete ones, and changes nothing
      when repeated. */
  lemma CompactingKeepsForm(t: Transcript)
    ensures WellFormed(Compacted(t)) <==> WellFormed(t)
    ensures Complete(Compacted(t)) <==> Complete(t)
    ensures Compacted(Compacted(t)) == Compacted(t)
  {
  }

  /** The history after `roll_back`: a pending question to the user is answered by the message,
      any other pending call is dropped. */
  function RolledBack(t: Transcript, answer: string): Transcript {
    if t == [] || !t[|t| - 1].Assistant? || t[|t| - 1].call.None? then t
    else
      var call := t[|t| - 1].call.value;
      if call.name == Some(ASK_USER) then t + [Tool(call.id, ASK_USER, answer)] else t[..|t| - 1]
  }

  /** Rolling back completes every well-formed history, and only touches a pending call. */
  lemma RollBackCompletes(t: Transcript, answer: string)
    requires WellFormed(t)
    ensures Complete(RolledBack(t, answer))
    ensures !Pending(t) ==> RolledBack(t, answer) == t
    ensures Pending(t) ==> t[..|t| - 1] <= RolledBack(t, answer)
    ensures RolledBack(RolledBack(t, answer), answer) == RolledBack(t, answer)
  {
    if Pending(t) {
      var call := t[|t| - 1].call.value;
      AppendWellFormedIff(t, Tool(call.id, ASK_USER, answer));
      PrefixWellFormed(t, |t| - 1);
      assert |t| >= 2 ==> FitTogether(t[|t| - 2], t[|t| - 1]);
    }
  }

  /** What a roll-back does to a pending call: a question to the user is kept and answered by a tool
      message with its id and exactly the text that came in; any other call is dropped. */
  lemma RollBackAnswersQuestion(t: Transcript, call: ToolCall, answer: string)
    requires Pending(t) && t[|t| - 1].call == Some(call)
    ensures if call.name == Some("message_ask_user") then RolledBack(t, answer) == t + [Tool(call.id, "message_ask_user", answer)]
            else RolledBack(t, answer) == t[..|t| - 1]
  {
  }

  /** What compacting removes: the results of looking at web pages, and all reasoning; nothing else. */
  lemma CompactingRemoves(t: Transcript, i: nat)
    requires i < |t|
    ensures var c := Compacted(t)[i];
            match t[i]
            case Tool(id, name, content) =>
              c == Tool(id, name, if name in {"browser_view", "browser_navigate"} then "(removed)" else content)
            case Assistant(content, _, call) => c == Assistant(content, None, call)
            case _ => c == t[i]
  {
  }

  class Memory {
    var messages: Transcript

    constructor (messages: Transcript)
      ensures this.messages == messages
    {
      this.messages := messages;
    }

    method AddMessages(more: Transcript)
      modifies this
      ensures messages == old(messages) + more
    {
      messages := messages + more;
    }

    /** Drops the last message, if any. */
    method RollBack()
      modifies this
      ensures messages == if old(messages) == [] then [] else old(messages)[..|old(messages)| - 1]
    {
      if messages != [] {
        messages := messages[..|messages| - 1];
      }
    }

    function LastMessage(): Option<Message>
      reads this
    {
      if messages == [] then None else Some(messages[|messages| - 1])
    }

    /** Edits message after message in place. */
    method Compact()
      modifies this
      ensures messages == Compacted(old(messages))
    {
      for i := 0 to |messages|
        invariant |messages| == |old(messages)|
        invariant forall k :: 0 <= k < i ==> messages[k] == CompactMessage(old(messages)[k])
        invariant forall k :: i <= k < |messages| ==> messages[k] == old(messages)[k]
      {
        var m := messages[i];
        if m.Tool? && (m.functionName == "browser_view" || m.functionName == "browser_navigate") {
          m := Tool(m.callId, m.functionName, REMOVED);
        }
        if m.Assistant? {
          m := Assistant(m.content, None, m.call);
        }
        messages := messages[i := m];
      }
    }
  }

  // ---- runs of an agent ----

  /** One attempt to get an answer from the model. Of several tool calls only the first is kept. */
  datatype Reply =
    | Failed
    | Empty
    | Text(content: string, reasoning: Option<string>)
    | Calls(content: string, reasoning: Option<string>, calls: seq<ToolCall>)

  datatype Phase =
    | Idle
    | Asking(attempts: nat, rounds: nat)        // waiting for the model
    | Calling(call: ToolCall, rounds: nat)      // a tool call is announced, running or just done

  /** How the last invocation ended. */
  datatype Ending = Settled | GaveUp | Exhausted | Abandoned

  datatype Config = Config(systemPrompt: string, maxRetries: nat, maxIterations: nat)

  /** `asked` lists the histories that were sent to the model. */
  datatype Agent = Agent(transcript: Transcript, phase: Phase, ending: Ending, asked: seq<Transcript>)

  /** An attempt that does not save fails after its reply was added to the memory. */
  datatype Event =
    | Invoke(query: string)
    | Attempt(reply: Reply, saves: bool)
    | ToolResult(result: string, freshId: string)
    | Abandon
    | RollBack(answer: string)
    | Compact

  /** An agent with a saved history. A call that is pending there calls for a roll-back first. */
  ghost function Start(saved: Transcript): Agent {
    Agent(saved, Idle, if Pending(saved) then Abandoned else Settled, [])
  }

  /** Messages enter an empty history behind the system prompt. */
  function Added(cfg: Config, t: Transcript, more: Transcript): Transcript {
    (if t == [] then [System(cfg.systemPrompt)] else t) + more
  }

  /** The next attempt, or the end of them. */
  function Retry(cfg: Config, s: Agent, attempts: nat, rounds: nat): Agent {
    if attempts + 1 < cfg.maxRetries then s.(phase := Asking(attempts + 1, rounds))
    else s.(phase := Idle, ending := GaveUp)
  }

  /** What an attempt adds to the memory. */
  function Recorded(reply: Reply): Transcript {
    match reply
    case Failed => []
    case Empty => [Assistant("", None, None), User(GO_ON)]
    case Text(content, reasoning) => [Assistant(content, reasoning, None)]
    case Calls(content, reasoning, calls) => [Assistant(content, reasoning, if calls == [] then None else Some(calls[0]))]
  }

  /** One attempt. A reply that cannot be saved stays in the memory, and counts as a failure. */
  function DoAttempt(cfg: Config, s: Agent, reply: Reply, saves: bool, attempts: nat, rounds: nat): Agent {
    var sent := s.(asked := s.asked + [s.transcript]);
    if reply.Failed? then Retry(cfg, sent, attempts, rounds)
    else
      var next := sent.(transcript := Added(cfg, s.transcript, Recorded(reply)));
      if reply.Empty? || !saves then Retry(cfg, next, attempts, rounds)
      else if reply.Text? || reply.calls == [] then next.(phase := Idle, ending := Settled)
      else if rounds < cfg.maxIterations then next.(phase := Calling(reply.calls[0], rounds))
      else next.(phase := Idle, ending := Exhausted)
  }

  /** The tool message of a finished call; a call without a function gets none. */
  function ToolMessages(call: ToolCall, result: string, freshId: string): Transcript {
    match call.name
    case Some(name) => [Tool(if call.id != "" then call.id else freshId, name, result)]
    case None => []
  }

  function Step(cfg: Config, s: Agent, e: Event): Option<Agent> {
    match e
    case Invoke(query) =>
      if s.phase.Idle? then Some(s.(transcript := Added(cfg, s.transcript, [User(query)]), phase := Asking(0, 0))) else None
    case Attempt(reply, saves) =>
      if s.phase.Asking? && s.phase.attempts < cfg.maxRetries
      then Some(DoAttempt(cfg, s, reply, saves, s.phase.attempts, s.phase.rounds)) else None
    case ToolResult(result, freshId) =>
      if s.phase.Calling?
      then Some(s.(transcript := Added(cfg, s.transcript, ToolMessages(s.phase.call, result, freshId)), phase := Asking(0, s.phase.rounds + 1)))
      else None
    case Abandon =>
      if s.phase.Idle? then None else Some(s.(phase := Idle, ending := Abandoned))
    case RollBack(answer) =>
      if s.phase.Idle? then Some(s.(transcript := RolledBack(s.transcript, answer), ending := Settled)) else None
    case Compact =>
      if s.phase.Idle? then Some(s.(transcript := Compacted(s.transcript))) else None
  }

  function Run(cfg: Config, s: Agent, events: seq<Event>): Option<Agent>
    decreases events
  {
    if events == [] then Some(s)
    else
      match Step(cfg, s, events[0])
      case None => None
      case Some(next) => Run(cfg, next, events[1..])
  }

  /** An idle agent is invoked, rolled back or compacted; one that asks tries again while there are
      attempts left, one that calls waits for the tool, and both can be abandoned. */
  lemma WhatCanHappen(cfg: Config, s: Agent, e: Event)
    ensures Step(cfg, s, e).Some? <==>
            match e
            case Attempt(_, _) => s.phase.Asking? && s.phase.attempts < cfg.maxRetries
            case ToolResult(_, _) => s.phase.Calling?
            case Abandon => !s.phase.Idle?
            case _ => s.phase.Idle?
  {
  }

  lemma {:induction false} NoRunFurther(cfg: Config, s: Agent, events: seq<Event>, more: seq<Event>)
    requires Run(cfg, s, events).None?
    ensures Run(cfg, s, events + more).None?
    decreases events
  {
    assert (events + more)[0] == events[0] && (events + more)[1..] == events[1..] + more;
    if Step(cfg, s, events[0]).Some? {
      NoRunFurther(cfg, Step(cfg, s, events[0]).value, events[1..], more);
    }
  }

  lemma {:induction false} RunSnoc(cfg: Config, s: Agent, events: seq<Event>, e: Event)
    requires Run(cfg, s, events).Some?
    ensures Run(cfg, s, events + [e]) == Step(cfg, Run(cfg, s, events).value, e)
    decreases events
  {
    if events == [] {
      assert [] + [e] == [e] && [e][1..] == [];
    } else {
      assert (events + [e])[1..] == events[1..] + [e];
      RunSnoc(cfg, Step(cfg, s, events[0]).value, events[1..], e);
    }
  }

  /** Attempts that fail: there can be exactly as many as the configuration allows, and the last one
      ends the invocation without an answer; the history stays as it was. */
  lemma {:induction false} FailedAttempts(cfg: Config, s: Agent, n: nat, rounds: nat)
    requires s.phase == Asking(0, rounds)
    ensures var end := Run(cfg, s, seq(n, i => Attempt(Failed, true)));
            && (end.Some? <==> n <= cfg.maxRetries)
            && (end.Some? ==> end.value.transcript == s.transcript && |end.value.asked| == |s.asked| + n)
            && (0 < n == cfg.maxRetries ==> end.value.phase.Idle? && end.value.ending == GaveUp)
            && (n < cfg.maxRetries ==> end.value.phase == Asking(n, rounds))
  {
    if n == 0 {
      assert seq(n, i => Attempt(Failed, true)) == [];
    } else {
      FailedAttempts(cfg, s, n - 1, rounds);
      var before := seq(n - 1, i => Attempt(Failed, true));
      assert seq(n, i => Attempt(Failed, true)) == before + [Attempt(Failed, true)];
      if n - 1 <= cfg.maxRetries {
        RunSnoc(cfg, s, before, Attempt(Failed, true));
      } else {
        NoRunFurther(cfg, s, before, [Attempt(Failed, true)]);
      }
    }
  }

  /** What an attempt leaves in the history, behind the system prompt if that was empty: a text as it is;
      of a reply with calls only the first call; a blank answer and a nudge if nothing came; nothing if
      it failed. */
  lemma AttemptIsRecorded(cfg: Config, s: Agent, reply: Reply, saves: bool)
    requires s.phase.Asking? && s.phase.attempts < cfg.maxRetries
    ensures var next := Step(cfg, s, Attempt(reply, saves)).value;
            var before := if s.transcript == [] then [System(cfg.systemPrompt)] else s.transcript;
            && next.asked == s.asked + [s.transcript]
            && match reply
               case Failed => next.transcript == s.transcript
               case Empty => next.transcript == before + [Assistant("", None, None), User("ai无响应内容，请继续")]
               case Text(content, reasoning) => next.transcript == before + [Assistant(content, reasoning, None)]
               case Calls(content, reasoning, calls) =>
                 |next.transcript| == |before| + 1 && before <= next.transcript
                 && var m := next.transcript[|before|];
                    m.Assistant? && m.content == content && m.reasoning == reasoning
                    && (calls == [] ==> m.call.None?) && (calls != [] ==> m.call == Some(calls[0]))
  {
  }

  /** Where an attempt leads: on to the call, to the end with an answer or out of iterations, or to the
      next attempt until there is none left. */
  lemma AttemptLeads(cfg: Config, s: Agent, reply: Reply, saves: bool)
    requires s.phase.Asking? && s.phase.attempts < cfg.maxRetries
    ensures var next := Step(cfg, s, Attempt(reply, saves)).value;
            if saves && (reply.Text? || (reply.Calls? && reply.calls == [])) then next.phase.Idle? && next.ending.Settled?
            else if saves && reply.Calls? then
              if s.phase.rounds < cfg.maxIterations then next.phase == Calling(reply.calls[0], s.phase.rounds)
              else next.phase.Idle? && next.ending.Exhausted?
            else if s.phase.attempts + 1 < cfg.maxRetries then next.phase == Asking(s.phase.attempts + 1, s.phase.rounds)
            else next.phase.Idle? && next.ending.GaveUp?
  {
  }

  /** A finished call is answered by its result, under its id or a new one if it had none. */
  lemma ResultIsRecorded(cfg: Config, s: Agent, result: string, freshId: string)
    requires s.phase.Calling? && s.transcript != [] && s.phase.call.name.Some?
    ensures var next := Step(cfg, s, ToolResult(result, freshId)).value;
            && next.transcript == s.transcript + [Tool(if s.phase.call.id == "" then freshId else s.phase.call.id, s.phase.call.name.value, result)]
            && next.phase == Asking(0, s.phase.rounds + 1)
  {
  }

  // ---- the hypotheses on a run ----

  /** The model's tool calls carry an id and a function. */
  ghost predicate ProperReply(e: Event) {
    e.Attempt? && e.reply.Calls? && e.reply.calls != [] ==> e.reply.calls[0].id != "" && e.reply.calls[0].name.Some?
  }

  /** A new invocation follows one that settled, or gave up with no call pending, or a roll-back. */
  ghost predicate Disciplined(s: Agent, e: Event) {
    e.Invoke? ==> s.ending.Settled? || (s.ending.GaveUp? && !Pending(s.transcript))
  }

  ghost predicate GoodRun(cfg: Config, s: Agent, events: seq<Event>)
    requires Run(cfg, s, events).Some?
    decreases events
  {
    events == [] ||
    (ProperReply(events[0]) && Disciplined(s, events[0]) && GoodRun(cfg, Step(cfg, s, events[0]).value, events[1..]))
  }

  // ---- what every good run keeps ----

  ghost predicate Invariant(s: Agent) {
    && WellFormed(s.transcript)
    && (s.phase.Asking? ==> !Pending(s.transcript))
    && (s.phase.Calling? ==>
          && Pending(s.transcript) && s.transcript[|s.transcript| - 1].call == Some(s.phase.call)
          && s.phase.call.id != "" && s.phase.call.name.Some?)
    && (s.phase.Idle? && (s.ending.Settled? || s.ending.GaveUp?) ==> !Pending(s.transcript))
    && (forall t :: t in s.asked ==> Complete(t))
  }

  lemma AddedPlain(cfg: Config, t: Transcript, m: Message)
    requires Complete(t)
    requires !m.Tool?
    ensures WellFormed(Added(cfg, t, [m]))
    ensures Pending(Added(cfg, t, [m])) <==> IsCall(m)
  {
    var base := if t == [] then [System(cfg.systemPrompt)] else t;
    AppendWellFormedIff(base, m);
  }

  lemma AddedNudge(cfg: Config, t: Transcript)
    requires Complete(t)
    ensures Complete(Added(cfg, t, [Assistant("", None, None), User(GO_ON)]))
  {
    var first := Added(cfg, t, [Assistant("", None, None)]);
    AddedPlain(cfg, t, Assistant("", None, None));
    AddedPlain(cfg, first, User(GO_ON));
    assert Added(cfg, t, [Assistant("", None, None), User(GO_ON)]) == first + [User(GO_ON)];
  }

  /** A tool call whose save fails. */
  predicate UnsavedCall(e: Event) {
    e.Attempt? && !e.saves && e.reply.Calls? && e.reply.calls != []
  }

  /** After an unsaved call: the call is pending, yet the model is asked on, or the run is over. */
  ghost predicate Stuck(s: Agent) {
    && WellFormed(s.transcript) && Pending(s.transcript) && !s.phase.Calling?
    && (s.phase.Idle? ==> !s.ending.Settled?)
  }

  lemma RecordedKeeps(cfg: Config, t: Transcript, reply: Reply)
    requires Complete(t) && !reply.Failed?
    ensures WellFormed(Added(cfg, t, Recorded(reply)))
    ensures Pending(Added(cfg, t, Recorded(reply))) <==> reply.Calls? && reply.calls != []
  {
    hide WellFormed;
    match reply
    case Empty => AddedNudge(cfg, t);
    case Text(content, reasoning) => AddedPlain(cfg, t, Assistant(content, reasoning, None));
    case Calls(content, reasoning, calls) =>
      AddedPlain(cfg, t, Assistant(content, reasoning, if calls == [] then None else Some(calls[0])));
  }

  lemma AttemptKeepsInvariant(cfg: Config, s: Agent, reply: Reply, saves: bool)
    requires Invariant(s) && s.phase.Asking?
    requires ProperReply(Attempt(reply, saves))
    ensures var next := DoAttempt(cfg, s, reply, saves, s.phase.attempts, s.phase.rounds);
            if UnsavedCall(Attempt(reply, saves)) then Stuck(next) && next.asked == s.asked + [s.transcript] else Invariant(next)
  {
    if !reply.Failed? {
      RecordedKeeps(cfg, s.transcript, reply);
    }
    hide WellFormed;
  }

  lemma StepKeepsInvariant(cfg: Config, s: Agent, e: Event)
    requires Invariant(s)
    requires Step(cfg, s, e).Some?
    requires ProperReply(e) && Disciplined(s, e)
    ensures var next := Step(cfg, s, e).value;
            if UnsavedCall(e) then Stuck(next) && forall t :: t in next.asked ==> Complete(t) else Invariant(next)
  {
    hide WellFormed;
    match e
    case Invoke(query) => AddedPlain(cfg, s.transcript, User(query));
    case Attempt(reply, saves) => AttemptKeepsInvariant(cfg, s, reply, saves);
    case ToolResult(result, freshId) =>
      var answer := Tool(s.phase.call.id, s.phase.call.name.value, result);
      AppendWellFormedIff(s.transcript, answer);
      assert Added(cfg, s.transcript, [answer]) == s.transcript + [answer];
    case Abandon =>
    case RollBack(answer) => RollBackCompletes(s.transcript, answer);
    case Compact => CompactingKeepsForm(s.transcript);
  }

  /** While a call is stuck, only a roll-back helps: a reply that is recorded spoils the history, and
      whatever is asked is asked with the call pending. */
  lemma StuckStep(cfg: Config, s: Agent, e: Event)
    requires Stuck(s)
    requires Step(cfg, s, e).Some? && Disciplined(s, e)
    ensures var next := Step(cfg, s, e).value;
            match e
            case RollBack(_) => Complete(next.transcript) && next.phase.Idle? && next.ending.Settled? && next.asked == s.asked
            case Attempt(reply, _) =>
              && next.asked == s.asked + [s.transcript] && !Complete(s.transcript)
              && if reply.Failed? then Stuck(next) else !WellFormed(next.transcript)
            case _ => Stuck(next) && next.asked == s.asked
  {
    hide WellFormed;
    match e
    case Attempt(reply, _) =>
      if !reply.Failed? {
        var first := Recorded(reply)[0];
        AppendWellFormedIff(s.transcript, first);
        var next := Added(cfg, s.transcript, Recorded(reply));
        assert next[..|s.transcript| + 1] == s.transcript + [first];
        IllFormedForGood(next, |s.transcript| + 1);
      }
    case RollBack(answer) => RollBackCompletes(s.transcript, answer);
    case Compact => CompactingKeepsForm(s.transcript);
    case _ =>
  }

  /** After an unsaved call nothing is recorded before a roll-back. */
  ghost predicate Recovers(stuck: bool, events: seq<Event>)
    decreases events
  {
    events == [] ||
    var e, rest := events[0], events[1..];
    if e.Attempt? && stuck then e.reply.Failed? && Recovers(true, rest)
    else Recovers(if e.RollBack? then false else stuck || UnsavedCall(e), rest)
  }

  /** After an unsaved call the model is not asked again before a roll-back. */
  ghost predicate StopsAsking(stuck: bool, events: seq<Event>)
    decreases events
  {
    events == [] ||
    var e, rest := events[0], events[1..];
    !(e.Attempt? && stuck) && StopsAsking(if e.RollBack? then false else stuck || UnsavedCall(e), rest)
  }

  ghost predicate AskedComplete(s: Agent) {
    forall t :: t in s.asked ==> Complete(t)
  }

  /** `stuck` says which of the two states the agent is in. */
  ghost predicate Known(s: Agent, stuck: bool) {
    if stuck then Stuck(s) else Invariant(s.(asked := []))
  }

  lemma AskedDoesNotMatter(cfg: Config, s: Agent, e: Event)
    ensures Step(cfg, s, e).Some? <==> Step(cfg, s.(asked := []), e).Some?
    ensures Step(cfg, s, e).Some? ==> Step(cfg, s, e).value.(asked := []) == Step(cfg, s.(asked := []), e).value.(asked := [])
  {
    hide Added, Recorded;
  }

  lemma KnownStep(cfg: Config, s: Agent, e: Event, stuck: bool)
    requires Known(s, stuck) && Step(cfg, s, e).Some? && ProperReply(e) && Disciplined(s, e)
    ensures var next := Step(cfg, s, e).value;
            if stuck && e.Attempt? && !e.reply.Failed? then !WellFormed(next.transcript)
            else Known(next, if e.RollBack? then false else stuck || UnsavedCall(e))
    ensures Step(cfg, s, e).value.asked == if e.Attempt? then s.asked + [s.transcript] else s.asked
    ensures e.Attempt? ==> (Complete(s.transcript) <==> !stuck)
  {
    if stuck {
      StuckStep(cfg, s, e);
      hide WellFormed, Added;
    } else {
      var t := s.(asked := []);
      StepKeepsInvariant(cfg, t, e);
      AskedDoesNotMatter(cfg, s, e);
      hide WellFormed, Added;
    }
  }

  /** The history was well formed at every moment of the run. */
  ghost predicate FormedThroughout(cfg: Config, s: Agent, events: seq<Event>)
    requires Run(cfg, s, events).Some?
    decreases events
  {
    WellFormed(s.transcript) && (events == [] || FormedThroughout(cfg, Step(cfg, s, events[0]).value, events[1..]))
  }

  lemma KnownIsFormed(s: Agent, stuck: bool)
    requires Known(s, stuck)
    ensures WellFormed(s.transcript)
  {
  }

  lemma {:induction false} FormedIff(cfg: Config, s: Agent, events: seq<Event>, stuck: bool)
    requires Known(s, stuck) && Run(cfg, s, events).Some? && GoodRun(cfg, s, events)
    ensures FormedThroughout(cfg, s, events) <==> Recovers(stuck, events)
    decreases events
  {
    KnownIsFormed(s, stuck);
    if events != [] {
      var e, next := events[0], Step(cfg, s, events[0]).value;
      KnownStep(cfg, s, e, stuck);
      hide Known, Step, WellFormed, UnsavedCall;
      if !(stuck && e.Attempt? && !e.reply.Failed?) {
        FormedIff(cfg, next, events[1..], if e.RollBack? then false else stuck || UnsavedCall(e));
      }
    }
  }

  lemma AskedGrowsByStep(cfg: Config, s: Agent, e: Event)
    requires Step(cfg, s, e).Some?
    ensures s.asked <= Step(cfg, s, e).value.asked
  {
    hide Added, Recorded;
  }

  lemma {:induction false} AskedGrows(cfg: Config, s: Agent, events: seq<Event>)
    requires Run(cfg, s, events).Some?
    ensures s.asked <= Run(cfg, s, events).value.asked
    decreases events
  {
    if events != [] {
      AskedGrowsByStep(cfg, s, events[0]);
      hide Step;
      AskedGrows(cfg, Step(cfg, s, events[0]).value, events[1..]);
    }
  }

  lemma {:induction false} AskedIff(cfg: Config, s: Agent, events: seq<Event>, stuck: bool)
    requires Known(s, stuck) && AskedComplete(s) && Run(cfg, s, events).Some? && GoodRun(cfg, s, events)
    ensures AskedComplete(Run(cfg, s, events).value) <==> StopsAsking(stuck, events)
    decreases events
  {
    if events != [] {
      var e, next := events[0], Step(cfg, s, events[0]).value;
      KnownStep(cfg, s, e, stuck);
      hide Known, Step, Complete, UnsavedCall;
      if stuck && e.Attempt? {
        assert s.transcript in next.asked;
        AskedGrows(cfg, next, events[1..]);
      } else {
        AskedIff(cfg, next, events[1..], if e.RollBack? then false else stuck || UnsavedCall(e));
      }
    }
  }

  /** Whatever well-formed history was saved, and however often invocations are abandoned, as long as
      each pending call is followed by a roll-back before the next invocation: the history is well
      formed at every moment exactly when nothing is recorded between a call that could not be saved
      and the next roll-back; and every history that was ever sent to the model had all its calls
      answered exactly when nothing is asked in between. */
  lemma TranscriptWellFormedIff(cfg: Config, saved: Transcript, events: seq<Event>)
    requires WellFormed(saved)
    requires Run(cfg, Start(saved), events).Some? && GoodRun(cfg, Start(saved), events)
    ensures FormedThroughout(cfg, Start(saved), events) <==> Recovers(false, events)
    ensures AskedComplete(Run(cfg, Start(saved), events).value) <==> StopsAsking(false, events)
  {
    FormedIff(cfg, Start(saved), events, false);
    AskedIff(cfg, Start(saved), events, false);
  }

  lemma {:induction false} SavedCallsRecover(events: seq<Event>)
    requires forall i :: 0 <= i < |events| ==> !UnsavedCall(events[i])
    ensures Recovers(false, events) && StopsAsking(false, events)
    decreases events
  {
    if events != [] {
      SavedCallsRecover(events[1..]);
    }
  }

  lemma {:induction false} FormedAtTheEnd(cfg: Config, s: Agent, events: seq<Event>)
    requires Run(cfg, s, events).Some? && FormedThroughout(cfg, s, events)
    ensures WellFormed(Run(cfg, s, events).value.transcript)
    decreases events
  {
    if events != [] {
      FormedAtTheEnd(cfg, Step(cfg, s, events[0]).value, events[1..]);
    }
  }

  lemma {:induction false} PrefixOfGoodRun(cfg: Config, s: Agent, events: seq<Event>, n: nat)
    requires n <= |events|
    requires Run(cfg, s, events).Some? && GoodRun(cfg, s, events)
    ensures Run(cfg, s, events[..n]).Some? && GoodRun(cfg, s, events[..n])
    decreases n
  {
    if n > 0 {
      assert events[..n][0] == events[0] && events[..n][1..] == events[1..][..n - 1];
      hide Step;
      PrefixOfGoodRun(cfg, Step(cfg, s, events[0]).value, events[1..], n - 1);
    }
  }

  /** In particular, if every call can be saved: the history is well formed at every moment, and every
      history that was ever sent to the model had all its calls answered. */
  lemma TranscriptAlwaysWellFormed(cfg: Config, saved: Transcript, events: seq<Event>, n: nat)
    requires WellFormed(saved)
    requires n <= |events|
    requires Run(cfg, Start(saved), events).Some? && GoodRun(cfg, Start(saved), events)
    requires forall i :: 0 <= i < |events| ==> !UnsavedCall(events[i])
    ensures var past := Run(cfg, Start(saved), events[..n]);
            && past.Some?
            && WellFormed(past.value.transcript)
            && forall t :: t in past.value.asked ==> Complete(t)
  {
    PrefixOfGoodRun(cfg, Start(saved), events, n);
    SavedCallsRecover(events[..n]);
    TranscriptWellFormedIff(cfg, saved, events[..n]);
    FormedAtTheEnd(cfg, Start(saved), events[..n]);
  }

  // ---- where the discipline is needed ----

  /** Starting an invocation keeps the history well formed exactly when no call is pending. */
  lemma InvokeKeepsFormIff(cfg: Config, s: Agent, query: string)
    requires s.phase.Idle? && WellFormed(s.transcript)
    ensures WellFormed(Step(cfg, s, Invoke(query)).value.transcript) <==> !Pending(s.transcript)
  {
    var base := if s.transcript == [] then [System(cfg.systemPrompt)] else s.transcript;
    AppendWellFormedIff(base, User(query));
  }

  /** While an invocation runs, the history only grows. */
  lemma {:induction false} HistoryGrows(cfg: Config, s: Agent, events: seq<Event>)
    requires s.transcript != []
    requires Run(cfg, s, events).Some?
    requires forall i :: 0 <= i < |events| ==> !events[i].RollBack? && !events[i].Compact?
    ensures s.transcript <= Run(cfg, s, events).value.transcript
    decreases events
  {
    if events != [] {
      HistoryGrows(cfg, Step(cfg, s, events[0]).value, events[1..]);
    }
  }

  /** Running out of iterations with a call pending, then invoking again without a roll-back, spoils
      the history for good: nothing that later invocations add makes it well formed again. */
  lemma InvokingAfterExhaustionSpoils(cfg: Config, s: Agent, query: string, events: seq<Event>)
    requires s.phase.Idle? && Pending(s.transcript)
    requires Run(cfg, s, [Invoke(query)] + events).Some?
    requires forall i :: 0 <= i < |events| ==> !events[i].RollBack? && !events[i].Compact?
    ensures !WellFormed(Run(cfg, s, [Invoke(query)] + events).value.transcript)
  {
    var next := Step(cfg, s, Invoke(query)).value;
    assert ([Invoke(query)] + events)[1..] == events;
    HistoryGrows(cfg, next, events);
    AppendWellFormedIff(s.transcript, User(query));
    var end := Run(cfg, next, events).value.transcript;
    assert next.transcript == s.transcript + [User(query)];
    assert end[..|next.transcript|] == next.transcript;
    IllFormedForGood(end, |next.transcript|);
  }

  /** One tool round allowed and two calls made: the run ends with the second call pending. */
  lemma ExhaustionLeavesCallPending(prompt: string, query: string, call: ToolCall, result: string)
    requires call.id != "" && call.name.Some?
    ensures var cfg := Config(prompt, 2, 1);
            var reply := Attempt(Calls("", None, [call]), true);
            var end := Run(cfg, Start([]), [Invoke(query), reply, ToolResult(result, ""), reply]);
            end.Some? && end.value.ending == Exhausted && Pending(end.value.transcript)
  {
    var cfg := Config(prompt, 2, 1);
    var reply := Attempt(Calls("", None, [call]), true);
    var events := [Invoke(query), reply, ToolResult(result, ""), reply];
    var s1 := Step(cfg, Start([]), Invoke(query)).value;
    var s2 := Step(cfg, s1, reply).value;
    var s3 := Step(cfg, s2, ToolResult(result, "")).value;
    var s4 := Step(cfg, s3, reply).value;
    assert events[1..] == [reply, ToolResult(result, ""), reply];
    assert events[1..][1..] == [ToolResult(result, ""), reply];
    assert events[1..][1..][1..] == [reply];
    assert Run(cfg, s4, []) == Some(s4);
    assert Run(cfg, s3, [reply]) == Some(s4);
    assert Run(cfg, s2, [ToolResult(result, ""), reply]) == Some(s4);
  }

  /** A call that cannot be saved, and one more attempt: the model is asked with the call pending, and
      its answer spoils the history. */
  lemma UnsavedCallSpoils(prompt: string, query: string, call: ToolCall, text: string)
    requires call.id != "" && call.name.Some?
    ensures var cfg := Config(prompt, 2, 1);
            var end := Run(cfg, Start([]), [Invoke(query), Attempt(Calls("", None, [call]), false), Attempt(Text(text, None), true)]);
            && end.Some? && end.value.ending == Settled
            && !WellFormed(end.value.transcript) && !AskedComplete(end.value)
  {
    var cfg := Config(prompt, 2, 1);
    var unsaved, answer := Attempt(Calls("", None, [call]), false), Attempt(Text(text, None), true);
    var events := [Invoke(query), unsaved, answer];
    var s1 := Step(cfg, Start([]), Invoke(query)).value;
    var s2 := Step(cfg, s1, unsaved).value;
    var s3 := Step(cfg, s2, answer).value;
    assert events[1..] == [unsaved, answer] && events[1..][1..] == [answer];
    assert Run(cfg, s3, []) == Some(s3);
    assert Run(cfg, s2, [answer]) == Some(s3);
    assert Run(cfg, s1, [unsaved, answer]) == Some(s3);
    assert s2.transcript == [System(prompt), User(query), Assistant("", None, Some(call))];
    AppendWellFormedIff(s2.transcript, Assistant(text, None, None));
    assert s2.transcript in s3.asked;
  }

  // ---- the code of an agent ----

  /** What happens to an announced tool call: it returns, or the invocation is left meanwhile. */
  datatype ToolOutcome = Returned(result: string, freshId: string) | Left

  /** A reply and whether the memory can be saved with it. */
  datatype Response = Response(reply: Reply, saves: bool)

  /** The answers of one round to the model call, the attempt during which the invocation is
      cancelled (if any), and the fate of the tool call that comes of it. */
  datatype Round = Round(replies: seq<Response>, cancelAt: Option<nat>, outcome: ToolOutcome)

  /** Nothing comes of attempts or rounds that nobody answers. */
  const SILENT := Round([], None, Left)

  ghost function ResponseAt(round: Round, attempt: nat): Response {
    if attempt < |round.replies| then round.replies[attempt] else Response(Failed, true)
  }

  ghost function RoundAt(script: seq<Round>, used: nat): Round {
    if used < |script| then script[used] else SILENT
  }

  /** The reply that ends the attempts: the first from `attempt` on that says something and can be saved,
      unless the invocation is cancelled before. */
  ghost function AnswerFrom(cfg: Config, round: Round, attempt: nat): (answer: Option<Reply>)
    requires attempt <= cfg.maxRetries
    ensures answer.Some? ==> answer.value.Text? || answer.value.Calls?
    decreases cfg.maxRetries - attempt
  {
    var response := ResponseAt(round, attempt);
    if attempt == cfg.maxRetries || round.cancelAt == Some(attempt) then None
    else if response.saves && (response.reply.Text? || response.reply.Calls?) then Some(response.reply)
    else AnswerFrom(cfg, round, attempt + 1)
  }

  /** What happens up to that reply. */
  ghost function AttemptsFrom(cfg: Config, round: Round, attempt: nat): seq<Event>
    requires attempt <= cfg.maxRetries
    decreases cfg.maxRetries - attempt
  {
    var response := ResponseAt(round, attempt);
    if attempt == cfg.maxRetries then []
    else if round.cancelAt == Some(attempt) then [Abandon]
    else [Attempt(response.reply, response.saves)]
         + if response.saves && (response.reply.Text? || response.reply.Calls?) then [] else AttemptsFrom(cfg, round, attempt + 1)
  }

  lemma AttemptsGoOn(cfg: Config, round: Round, attempt: nat, trace: seq<Event>)
    requires attempt < cfg.maxRetries
    ensures var response := ResponseAt(round, attempt);
            var answers, cancelled := response.saves && (response.reply.Text? || response.reply.Calls?), round.cancelAt == Some(attempt);
            && AnswerFrom(cfg, round, attempt)
               == (if cancelled then None else if answers then Some(response.reply) else AnswerFrom(cfg, round, attempt + 1))
            && trace + AttemptsFrom(cfg, round, attempt)
               == (if cancelled then trace + [Abandon]
                   else trace + [Attempt(response.reply, response.saves)] + if answers then [] else AttemptsFrom(cfg, round, attempt + 1))
  {
  }

  lemma NoAttemptsLeft(cfg: Config, round: Round)
    ensures AttemptsFrom(cfg, round, cfg.maxRetries) == [] && AnswerFrom(cfg, round, cfg.maxRetries) == None
  {
  }

  lemma AbandonEnds(cfg: Config, s: Agent)
    requires !s.phase.Idle?
    ensures Step(cfg, s, Abandon) == Some(s.(phase := Idle, ending := Abandoned))
  {
  }

  /** What follows the answer of a round: nothing if it has no call or no round is left, otherwise the
      tool and the next round. */
  ghost function AfterAnswer(cfg: Config, script: seq<Round>, used: nat): seq<Event>
    requires used <= cfg.maxIterations
    decreases cfg.maxIterations - used
  {
    var answer := AnswerFrom(cfg, RoundAt(script, used), 0);
    if answer.None? || !answer.value.Calls? || answer.value.calls == [] || used == cfg.maxIterations then []
    else
      match RoundAt(script, used).outcome
      case Left => [Abandon]
      case Returned(result, freshId) =>
        [ToolResult(result, freshId)] + AttemptsFrom(cfg, RoundAt(script, used + 1), 0) + AfterAnswer(cfg, script, used + 1)
  }

  /** The answer of a round decides, as the message that was recorded, how the invocation goes on. */
  lemma RoundGoesOn(cfg: Config, script: seq<Round>, used: nat, answer: Option<Message>, trace: seq<Event>)
    requires used <= cfg.maxIterations
    requires match AnswerFrom(cfg, RoundAt(script, used), 0)
             case None => answer.None?
             case Some(reply) => answer.Some? && [answer.value] == Recorded(reply)
    ensures answer.Some? ==> answer.value.Assistant?
    ensures trace + AfterAnswer(cfg, script, used) ==
            if answer.None? || answer.value.call.None? || used == cfg.maxIterations then trace
            else
              match RoundAt(script, used).outcome
              case Left => trace + [Abandon]
              case Returned(result, freshId) =>
                trace + [ToolResult(result, freshId)] + AttemptsFrom(cfg, RoundAt(script, used + 1), 0) + AfterAnswer(cfg, script, used + 1)
  {
    hide AttemptsFrom, AnswerFrom, RoundAt;
  }

  lemma StepToAsking(cfg: Config, s: Agent)
    ensures forall query :: s.phase.Idle? ==>
              Step(cfg, s, Invoke(query)) == Some(s.(transcript := Added(cfg, s.transcript, [User(query)]), phase := Asking(0, 0)))
    ensures forall result, freshId :: s.phase.Calling? ==>
              Step(cfg, s, ToolResult(result, freshId))
              == Some(s.(transcript := Added(cfg, s.transcript, ToolMessages(s.phase.call, result, freshId)), phase := Asking(0, s.phase.rounds + 1)))
  {
  }

  class BaseAgent {
    const cfg: Config
    const memory: Memory
    ghost const saved: Transcript
    ghost var agent: Agent
    ghost var trace: seq<Event>

    /** The memory holds the history of the run recorded so far. */
    ghost predicate Valid()
      reads this, memory
    {
      && cfg.maxRetries > 0
      && agent.transcript == memory.messages
      && Run(cfg, Start(saved), trace) == Some(agent)
    }

    constructor (cfg: Config, memory: Memory)
      requires cfg.maxRetries > 0
      ensures Valid() && agent == Start(memory.messages)
      ensures this.cfg == cfg && this.memory == memory
    {
      this.cfg, this.memory, this.saved := cfg, memory, memory.messages;
      this.agent, this.trace := Start(memory.messages), [];
    }

    /** Records that the step `e` has just been carried out on the memory. */
    ghost method Record(e: Event)
      requires Run(cfg, Start(saved), trace) == Some(agent)
      requires Step(cfg, agent, e).Some?
      modifies this`agent, this`trace
      ensures agent == Step(cfg, old(agent), e).value && trace == old(trace) + [e]
      ensures Run(cfg, Start(saved), trace) == Some(agent)
    {
      RunSnoc(cfg, Start(saved), trace, e);
      agent, trace := Step(cfg, agent, e).value, trace + [e];
    }

    method AddToMemory(messages: Transcript)
      modifies memory
      ensures memory.messages == Added(cfg, old(memory.messages), messages)
    {
      if memory.messages == [] {
        memory.AddMessages([System(cfg.systemPrompt)]);
      }
      memory.AddMessages(messages);
    }

    /** One attempt: the reply is recorded, and answers unless it is empty or cannot be saved. */
    method AskOnce(response: Response, attempt: nat, ghost rounds: nat) returns (answer: Option<Message>)
      requires Valid() && attempt < cfg.maxRetries && agent.phase == Asking(attempt, rounds)
      modifies this`agent, this`trace, memory
      ensures Valid() && trace == old(trace) + [Attempt(response.reply, response.saves)]
      ensures answer.Some? <==> response.saves && (response.reply.Text? || response.reply.Calls?)
      ensures answer.Some? ==>
                && [answer.value] == Recorded(response.reply)
                && memory.messages != [] && memory.messages[|memory.messages| - 1] == answer.value
                && agent.phase == (if answer.value.call.Some? && rounds < cfg.maxIterations then Calling(answer.value.call.value, rounds) else Idle)
                && (agent.phase.Idle? ==> agent.ending == if answer.value.call.Some? then Exhausted else Settled)
      ensures answer.None? ==>
                if attempt + 1 < cfg.maxRetries then agent.phase == Asking(attempt + 1, rounds) else agent.phase.Idle? && agent.ending.GaveUp?
    {
      answer := None;
      var reply := response.reply;
      if !reply.Failed? {
        AddToMemory(Recorded(reply));
      }
      Record(Attempt(reply, response.saves));
      if (reply.Text? || reply.Calls?) && response.saves {
        answer := Some(Recorded(reply)[0]);
      }
    }

    /** Adds `messages` and asks the model until it answers; nothing comes back when all attempts
        failed or the invocation was cancelled. */
    method InvokeLlm(messages: Transcript, round: Round, ghost cause: Event) returns (answer: Option<Message>)
      requires Valid()
      requires Step(cfg, agent, cause).Some?
      requires var next := Step(cfg, agent, cause).value;
               next.phase.Asking? && next.phase.attempts == 0 && next.transcript == Added(cfg, memory.messages, messages)
      modifies this`agent, this`trace, memory
      ensures Valid() && trace == old(trace) + [cause] + AttemptsFrom(cfg, round, 0)
      ensures match AnswerFrom(cfg, round, 0)
              case None => answer.None? && agent.phase.Idle? && (agent.ending.GaveUp? || agent.ending.Abandoned?)
              case Some(reply) =>
                && answer.Some? && [answer.value] == Recorded(reply)
                && memory.messages != [] && memory.messages[|memory.messages| - 1] == answer.value
                && agent.phase == (if answer.value.call.Some? && Step(cfg, old(agent), cause).value.phase.rounds < cfg.maxIterations
                                   then Calling(answer.value.call.value, Step(cfg, old(agent), cause).value.phase.rounds) else Idle)
                && (agent.phase.Idle? ==> agent.ending == if answer.value.call.Some? then Exhausted else Settled)
    {
      AddToMemory(messages);
      Record(cause);
      ghost var rounds := agent.phase.rounds;
      hide Run, Step, Added, Recorded, AnswerFrom, AttemptsFrom;
      for attempt := 0 to cfg.maxRetries
        invariant Valid() && trace + AttemptsFrom(cfg, round, attempt) == old(trace) + [cause] + AttemptsFrom(cfg, round, 0)
        invariant AnswerFrom(cfg, round, attempt) == AnswerFrom(cfg, round, 0)
        invariant if attempt < cfg.maxRetries then agent.phase == Asking(attempt, rounds)
                  else agent.phase.Idle? && agent.ending.GaveUp?
      {
        AttemptsGoOn(cfg, round, attempt, trace);
        if round.cancelAt == Some(attempt) {
          AbandonEnds(cfg, agent);
          Record(Abandon);
          return None;
        }
        answer := AskOnce(if attempt < |round.replies| then round.replies[attempt] else Response(Failed, true), attempt, rounds);
        if answer.Some? {
          return;
        }
      }
      NoAttemptsLeft(cfg, round);
      return None;
    }

    /** One invocation: ask, run the tool that was called, ask again, up to the iteration limit.
        It can be left at every tool call and during every attempt; what happens is what the script says. */
    method Invoke(query: string, script: seq<Round>)
      requires Valid() && agent.phase.Idle?
      modifies this`agent, this`trace, memory
      ensures Valid() && agent.phase.Idle?
      ensures trace == old(trace) + [Event.Invoke(query)] + AttemptsFrom(cfg, RoundAt(script, 0), 0) + AfterAnswer(cfg, script, 0)
    {
      ghost var goal := trace + [Event.Invoke(query)] + AttemptsFrom(cfg, RoundAt(script, 0), 0) + AfterAnswer(cfg, script, 0);
      var round := if script != [] then script[0] else SILENT;
      StepToAsking(cfg, agent);
      hide Step, Run, Added, Recorded, ToolMessages, AnswerFrom, AttemptsFrom, AfterAnswer;
      var answer := InvokeLlm([User(query)], round, Event.Invoke(query));
      var used := 0;
      while used < cfg.maxIterations
        invariant used <= cfg.maxIterations && round == RoundAt(script, used)
        invariant Valid() && trace + AfterAnswer(cfg, script, used) == goal
        invariant match AnswerFrom(cfg, round, 0)
                  case None => answer.None? && agent.phase.Idle?
                  case Some(reply) =>
                    && answer.Some? && [answer.value] == Recorded(reply)
                    && agent.phase == if answer.value.call.Some? && used < cfg.maxIterations then Calling(answer.value.call.value, used) else Idle
      {
        RoundGoesOn(cfg, script, used, answer, trace);
        if answer.None? || answer.value.call.None? {
          return;
        }
        var call := answer.value.call.value;
        if round.outcome.Left? {
          AbandonEnds(cfg, agent);
          Record(Abandon);
          return;
        }
        StepToAsking(cfg, agent);
        var result := round.outcome;
        used := used + 1;
        round := if used < |script| then script[used] else SILENT;
        answer := InvokeLlm(ToolMessages(call, result.result, result.freshId), round, ToolResult(result.result, result.freshId));
      }
      RoundGoesOn(cfg, script, used, answer, trace);
    }

    method RollBack(answer: string)
      requires Valid() && agent.phase.Idle?
      modifies this`agent, this`trace, memory
      ensures Valid() && agent.phase.Idle? && memory.messages == RolledBack(old(memory.messages), answer)
      ensures trace == old(trace) + [Event.RollBack(answer)]
    {
      var last := memory.LastMessage();
      if last.Some? && last.value.Assistant? && last.value.call.Some? {
        var call := last.value.call.value;
        if call.name == Some(ASK_USER) {
          memory.AddMessages([Tool(call.id, ASK_USER, answer)]);
        } else {
          memory.RollBack();
        }
      }
      Record(Event.RollBack(answer));
    }

    method CompactMemory()
      requires Valid() && agent.phase.Idle?
      modifies this`agent, this`trace, memory
      ensures Valid() && agent.phase.Idle? && memory.messages == Compacted(old(memory.messages))
      ensures trace == old(trace) + [Event.Compact]
    {
      memory.Compact();
      Record(Event.Compact);
    }
  }
}
