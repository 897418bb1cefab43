// The plan-and-execute flow: what it publishes, which steps it runs, and what plan updates keep.

module PlanFlow {
  import opened Options

  datatype Status = StPending | StRunning | StCompleted | StFailed

  datatype Step = Step(description: string, status: Status, result: Option<string>, error: Option<string>,
                       success: bool, attachments: seq<string>)
  {
    predicate Done() {
      status.StCompleted? || status.StFailed?
    }
  }

  datatype Plan = Plan(title: string, message: string, steps: seq<Step>, status: Status)

  const ASK_USER := "message_ask_user"

  /** What the text of a model answer parses to. */
  datatype Content =
    | Unparsable
    | PlanContent(plan: Plan)
    | StepContent(success: bool, result: Option<string>, attachments: seq<string>)
    | ReplyContent(text: string)

  /** What an agent's own `invoke` yields. */
  datatype AgentEvent =
    | ToolCalling(name: string, text: string)
    | ToolCalled(name: string)
    | Answer(content: Content)
    | AgentError(error: string)

  /** One use of an agent: its events, and whether it then fails with an exception. */
  datatype Episode = Episode(events: seq<AgentEvent>, fails: bool)

  /** The step was carried out, with success or without. */
  ghost predicate CarriedOut(step: Step) {
    step.status == StCompleted || step.status == StFailed
  }

  datatype Kind = Created | Updated | Finished | Started | Broken

  datatype FlowEvent =
    | TitleOut(title: string)
    | MessageOut(text: string)
    | PlanOut(kind: Kind, plan: Plan)
    | StepOut(kind: Kind, step: Step)
    | ToolOut(name: string, calling: bool)
    | ErrorOut(error: string)
    | WaitOut
    | DoneOut

  // ---- plans ----

  /** The position of the first step that is not done, or the number of steps. */
  function FirstPending(steps: seq<Step>): (k: nat)
    ensures k <= |steps|
    ensures forall i :: 0 <= i < k ==> steps[i].Done()
    ensures k < |steps| ==> !steps[k].Done()
  {
    if steps == [] || !steps[0].Done() then 0 else 1 + FirstPending(steps[1..])
  }

  ghost predicate AllDone(steps: seq<Step>) {
    forall i :: 0 <= i < |steps| ==> steps[i].Done()
  }

  /** New steps replace everything from the first step that is not done. */
  function Spliced(steps: seq<Step>, newSteps: seq<Step>): seq<Step> {
    var k := FirstPending(steps);
    if k < |steps| then steps[..k] + newSteps else steps
  }

  /** A plan update keeps every finished prefix. */
  lemma SplicingKeepsFinished(steps: seq<Step>, newSteps: seq<Step>, done: seq<Step>)
    requires done <= steps && AllDone(done)
    ensures done <= Spliced(steps, newSteps)
  {
  }

  lemma FirstPendingIs(steps: seq<Step>, k: nat)
    requires k < |steps| && !steps[k].Done()
    requires forall i :: 0 <= i < k ==> steps[i].Done()
    ensures FirstPending(steps) == k
  {
  }

  /** The search of `update_plan` for the first step that is not done. */
  method FindFirstPending(steps: seq<Step>) returns (index: Option<nat>)
    ensures index == if FirstPending(steps) < |steps| then Some(FirstPending(steps)) else None
  {
    for i := 0 to |steps|
      invariant forall j :: 0 <= j < i ==> steps[j].Done()
    {
      if !steps[i].Done() {
        FirstPendingIs(steps, i);
        return Some(i);
      }
    }
    return None;
  }

  // ---- the episodes ----

  datatype Ending = Completes | Waits | Raises

  datatype Execution = Execution(step: Step, published: seq<FlowEvent>, ending: Ending)

  function Then(event: seq<FlowEvent>, rest: Execution): Execution {
    rest.(published := event + rest.published)
  }

  /** Executing a step: events in order, and at the end the step counts as completed. */
  function ExecuteEvents(step: Step, events: seq<AgentEvent>, fails: bool): Execution
    decreases events
  {
    if events == [] then
      if fails then Execution(step, [], Raises) else Execution(step.(status := StCompleted), [], Completes)
    else
      match events[0]
      case ToolCalling(name, text) =>
        Then([if name == ASK_USER then MessageOut(text) else ToolOut(name, true)], ExecuteEvents(step, events[1..], fails))
      case ToolCalled(name) =>
        if name == ASK_USER then Execution(step, [WaitOut], Waits)
        else Then([ToolOut(name, false)], ExecuteEvents(step, events[1..], fails))
      case AgentError(error) =>
        var failed := step.(status := StFailed, error := Some(error));
        Then([StepOut(Broken, failed), ErrorOut(error)], ExecuteEvents(failed, events[1..], fails))
      case Answer(content) =>
        if content.StepContent? then
          var done := step.(status := StCompleted, success := content.success, result := content.result, attachments := content.attachments);
          var tell := if content.result.Some? && content.result.value != "" then [MessageOut(content.result.value)] else [];
          Then([StepOut(Finished, done)] + tell, ExecuteEvents(done, events[1..], fails))
        else Execution(step.(status := StCompleted), [], Raises)
  }

  function ExecuteStep(step: Step, episode: Episode): Execution {
    var started := step.(status := StRunning);
    Then([StepOut(Started, started)], ExecuteEvents(started, episode.events, episode.fails))
  }

  lemma {:induction false} ExecutionEnds(step: Step, events: seq<AgentEvent>, fails: bool)
    ensures var x := ExecuteEvents(step, events, fails);
            && (x.ending.Completes? ==> x.step.status.StCompleted? && WaitOut !in x.published)
            && (x.ending.Waits? <==> WaitOut in x.published)
            && (x.ending.Waits? ==> x.published[|x.published| - 1] == WaitOut && WaitOut !in x.published[..|x.published| - 1])
            && DoneOut !in x.published
    decreases events
  {
    if events != [] {
      var rest := events[1..];
      match events[0]
      case ToolCalling(name, text) => ExecutionEnds(step, rest, fails);
      case ToolCalled(name) => ExecutionEnds(step, rest, fails);
      case AgentError(error) => ExecutionEnds(step.(status := StFailed, error := Some(error)), rest, fails);
      case Answer(content) =>
        if content.StepContent? {
          ExecutionEnds(step.(status := StCompleted, success := content.success, result := content.result,
                              attachments := content.attachments), rest, fails);
        }
    }
  }

  datatype Planning = Planning(plan: Option<Plan>, published: seq<FlowEvent>, raises: bool)

  function PassThrough(event: AgentEvent): FlowEvent
    requires !event.Answer?
  {
    match event
    case ToolCalling(name, _) => ToolOut(name, true)
    case ToolCalled(name) => ToolOut(name, false)
    case AgentError(error) => ErrorOut(error)
  }

  /** Creating a plan: an answer must parse to a plan, and replaces the current one. */
  function CreatePlan(plan: Option<Plan>, events: seq<AgentEvent>, fails: bool): Planning
    decreases events
  {
    if events == [] then Planning(plan, [], fails)
    else if events[0].Answer? then
      if events[0].content.PlanContent? then
        var created := events[0].content.plan;
        var rest := CreatePlan(Some(created), events[1..], fails);
        rest.(published := [TitleOut(created.title), MessageOut(created.message), PlanOut(Created, created)] + rest.published)
      else Planning(plan, [], true)
    else
      var rest := CreatePlan(plan, events[1..], fails);
      rest.(published := [PassThrough(events[0])] + rest.published)
  }

  /** Updating a plan: an answer's steps are spliced in. */
  function UpdatePlan(plan: Plan, events: seq<AgentEvent>, fails: bool): Planning
    decreases events
  {
    if events == [] then Planning(Some(plan), [], fails)
    else if events[0].Answer? then
      if events[0].content.PlanContent? then
        var updated := plan.(steps := Spliced(plan.steps, events[0].content.plan.steps));
        var rest := UpdatePlan(updated, events[1..], fails);
        rest.(published := [PlanOut(Updated, updated)] + rest.published)
      else Planning(Some(plan), [], true)
    else
      var rest := UpdatePlan(plan, events[1..], fails);
      rest.(published := [PassThrough(events[0])] + rest.published)
  }

  lemma {:induction false} UpdatingKeepsFinished(plan: Plan, events: seq<AgentEvent>, fails: bool, done: seq<Step>)
    requires done <= plan.steps && AllDone(done)
    ensures var u := UpdatePlan(plan, events, fails);
            && u.plan.Some? && done <= u.plan.value.steps
            && WaitOut !in u.published && DoneOut !in u.published
    decreases events
  {
    if events != [] {
      if events[0].Answer? {
        if events[0].content.PlanContent? {
          SplicingKeepsFinished(plan.steps, events[0].content.plan.steps, done);
          UpdatingKeepsFinished(plan.(steps := Spliced(plan.steps, events[0].content.plan.steps)), events[1..], fails, done);
        }
      } else {
        UpdatingKeepsFinished(plan, events[1..], fails, done);
      }
    }
  }

  lemma {:induction false} CreatingNeverWaits(plan: Option<Plan>, events: seq<AgentEvent>, fails: bool)
    ensures WaitOut !in CreatePlan(plan, events, fails).published && DoneOut !in CreatePlan(plan, events, fails).published
    decreases events
  {
    if events != [] {
      if events[0].Answer? {
        if events[0].content.PlanContent? {
          CreatingNeverWaits(Some(events[0].content.plan), events[1..], fails);
        }
      } else {
        CreatingNeverWaits(plan, events[1..], fails);
      }
    }
  }

  /** Summarising: an answer must parse to a reply. */
  function Summarize(events: seq<AgentEvent>, fails: bool): Planning
    decreases events
  {
    if events == [] then Planning(None, [], fails)
    else if events[0].Answer? && !events[0].content.ReplyContent? then Planning(None, [], true)
    else
      var rest := Summarize(events[1..], fails);
      rest.(published := [if events[0].Answer? then MessageOut(events[0].content.text) else PassThrough(events[0])] + rest.published)
  }

  lemma {:induction false} SummarizingNeverWaits(events: seq<AgentEvent>, fails: bool)
    ensures WaitOut !in Summarize(events, fails).published && DoneOut !in Summarize(events, fails).published
    decreases events
  {
    if events != [] {
      SummarizingNeverWaits(events[1..], fails);
    }
  }

  // ---- what the episodes do, in terms of what the agents say ----

  ghost predicate NoAnswers(events: seq<AgentEvent>) {
    forall i :: 0 <= i < |events| ==> !events[i].Answer?
  }

  /** Tool events and errors are passed on one by one, in order. */
  ghost predicate Relays(events: seq<AgentEvent>, out: seq<FlowEvent>) {
    && |out| == |events|
    && forall i :: 0 <= i < |events| ==>
         match events[i]
         case ToolCalling(name, _) => out[i] == ToolOut(name, true)
         case ToolCalled(name) => out[i] == ToolOut(name, false)
         case AgentError(error) => out[i] == ErrorOut(error)
         case Answer(_) => false
  }

  function Relay(events: seq<AgentEvent>): (out: seq<FlowEvent>)
    requires NoAnswers(events)
    ensures Relays(events, out)
  {
    seq(|events|, i requires 0 <= i < |events| => PassThrough(events[i]))
  }

  lemma RelayFirst(events: seq<AgentEvent>)
    requires NoAnswers(events) && events != []
    ensures NoAnswers(events[1..]) && Relay(events) == [PassThrough(events[0])] + Relay(events[1..])
  {
    assert Relay(events)[1..] == Relay(events[1..]);
  }

  ghost function After(said: seq<FlowEvent>, p: Planning): Planning {
    p.(published := said + p.published)
  }

  lemma AfterAfter(first: seq<FlowEvent>, second: seq<FlowEvent>, p: Planning)
    ensures After(first, After(second, p)) == After(first + second, p)
  {
    assert first + (second + p.published) == (first + second) + p.published;
  }

  lemma {:induction false} UpdateRelays(plan: Plan, events: seq<AgentEvent>, rest: seq<AgentEvent>, fails: bool)
    requires NoAnswers(events)
    ensures UpdatePlan(plan, events + rest, fails) == After(Relay(events), UpdatePlan(plan, rest, fails))
    decreases events
  {
    if events == [] {
      assert events + rest == rest;
    } else {
      RelayFirst(events);
      assert (events + rest)[1..] == events[1..] + rest;
      UpdateRelays(plan, events[1..], rest, fails);
      AfterAfter([PassThrough(events[0])], Relay(events[1..]), UpdatePlan(plan, rest, fails));
      hide Relay, PassThrough;
    }
  }

  lemma {:induction false} CreateRelays(plan: Option<Plan>, events: seq<AgentEvent>, rest: seq<AgentEvent>, fails: bool)
    requires NoAnswers(events)
    ensures CreatePlan(plan, events + rest, fails) == After(Relay(events), CreatePlan(plan, rest, fails))
    decreases events
  {
    if events == [] {
      assert events + rest == rest;
    } else {
      RelayFirst(events);
      assert (events + rest)[1..] == events[1..] + rest;
      CreateRelays(plan, events[1..], rest, fails);
      AfterAfter([PassThrough(events[0])], Relay(events[1..]), CreatePlan(plan, rest, fails));
      hide Relay, PassThrough;
    }
  }

  lemma {:induction false} SummarizeRelays(events: seq<AgentEvent>, rest: seq<AgentEvent>, fails: bool)
    requires NoAnswers(events)
    ensures Summarize(events + rest, fails) == After(Relay(events), Summarize(rest, fails))
    decreases events
  {
    if events == [] {
      assert events + rest == rest;
    } else {
      RelayFirst(events);
      assert (events + rest)[1..] == events[1..] + rest;
      SummarizeRelays(events[1..], rest, fails);
      AfterAfter([PassThrough(events[0])], Relay(events[1..]), Summarize(rest, fails));
      hide Relay, PassThrough;
    }
  }

  /** `k` is the position of the first step that was not carried out. */
  ghost predicate IsNext(steps: seq<Step>, k: nat) {
    k < |steps| && !CarriedOut(steps[k]) && forall i :: 0 <= i < k ==> CarriedOut(steps[i])
  }

  ghost predicate NothingLeft(steps: seq<Step>) {
    forall i :: 0 <= i < |steps| ==> CarriedOut(steps[i])
  }

  lemma FirstPendingIsNext(steps: seq<Step>)
    ensures forall k: nat :: IsNext(steps, k) <==> k == FirstPending(steps) && k < |steps|
    ensures NothingLeft(steps) <==> FirstPending(steps) == |steps|
  {
  }

  /** The steps of an answer replace those from the first that was not carried out. */
  ghost predicate Replaced(steps: seq<Step>, newSteps: seq<Step>, steps': seq<Step>) {
    && (forall k: nat :: IsNext(steps, k) ==> steps' == steps[..k] + newSteps)
    && (NothingLeft(steps) ==> steps' == steps)
  }

  lemma SplicedIsReplaced(steps: seq<Step>, newSteps: seq<Step>)
    ensures Replaced(steps, newSteps, Spliced(steps, newSteps))
  {
    FirstPendingIsNext(steps);
  }

  /** A plan update with one answer replaces the steps that were not carried out, keeps the rest of the
      plan, and publishes the new plan between what the agent did before and after. */
  lemma UpdateWithAnswer(plan: Plan, before: seq<AgentEvent>, answer: Plan, after: seq<AgentEvent>, fails: bool)
    requires NoAnswers(before) && NoAnswers(after)
    ensures var u := UpdatePlan(plan, before + [Answer(PlanContent(answer))] + after, fails);
            && u.plan.Some? && u.raises == fails
            && u.plan.value.(steps := []) == plan.(steps := [])
            && Replaced(plan.steps, answer.steps, u.plan.value.steps)
            && exists b, a :: Relays(before, b) && Relays(after, a) && u.published == b + [PlanOut(Updated, u.plan.value)] + a
  {
    var said := [Answer(PlanContent(answer))];
    var updated := plan.(steps := Spliced(plan.steps, answer.steps));
    SplicedIsReplaced(plan.steps, answer.steps);
    assert before + said + after == before + (said + after) && (said + after)[1..] == after;
    UpdateRelays(plan, before, said + after, fails);
    assert after + [] == after;
    UpdateRelays(updated, after, [], fails);
    assert UpdatePlan(plan, before + said + after, fails).published == Relay(before) + [PlanOut(Updated, updated)] + Relay(after);
  }

  /** An answer that is no plan ends the update with an exception; the plan stays. */
  lemma UpdateWithoutPlan(plan: Plan, before: seq<AgentEvent>, content: Content, after: seq<AgentEvent>, fails: bool)
    requires NoAnswers(before) && !content.PlanContent?
    ensures var u := UpdatePlan(plan, before + [Answer(content)] + after, fails);
            u.plan == Some(plan) && u.raises && Relays(before, u.published)
  {
    assert before + [Answer(content)] + after == before + ([Answer(content)] + after);
    UpdateRelays(plan, before, [Answer(content)] + after, fails);
  }

  /** A created plan is the answer, whatever was there before; its title and message go first. */
  lemma CreateWithAnswer(plan: Option<Plan>, before: seq<AgentEvent>, answer: Plan, after: seq<AgentEvent>, fails: bool)
    requires NoAnswers(before) && NoAnswers(after)
    ensures var c := CreatePlan(plan, before + [Answer(PlanContent(answer))] + after, fails);
            && c.plan == Some(answer) && c.raises == fails
            && exists b, a :: Relays(before, b) && Relays(after, a)
                              && c.published == b + [TitleOut(answer.title), MessageOut(answer.message), PlanOut(Created, answer)] + a
  {
    var said := [Answer(PlanContent(answer))];
    var shown := [TitleOut(answer.title), MessageOut(answer.message), PlanOut(Created, answer)];
    assert before + said + after == before + (said + after) && (said + after)[1..] == after;
    CreateRelays(plan, before, said + after, fails);
    assert after + [] == after;
    CreateRelays(Some(answer), after, [], fails);
    assert CreatePlan(plan, before + said + after, fails).published == Relay(before) + shown + Relay(after);
  }

  /** An answer that is no plan leaves the old plan and ends with an exception; no answer leaves it too. */
  lemma CreateWithoutPlan(plan: Option<Plan>, before: seq<AgentEvent>, content: Content, after: seq<AgentEvent>, fails: bool)
    requires NoAnswers(before) && !content.PlanContent?
    ensures var c := CreatePlan(plan, before + [Answer(content)] + after, fails);
            c.plan == plan && c.raises && Relays(before, c.published)
    ensures var c := CreatePlan(plan, before, fails);
            c.plan == plan && c.raises == fails && Relays(before, c.published)
  {
    assert before + [Answer(content)] + after == before + ([Answer(content)] + after);
    CreateRelays(plan, before, [Answer(content)] + after, fails);
    assert before + [] == before;
    CreateRelays(plan, before, [], fails);
  }

  /** A summary publishes the reply between what the agent did before and after; an answer that is no
      reply ends it with an exception. */
  lemma SummarizeWithAnswer(before: seq<AgentEvent>, content: Content, after: seq<AgentEvent>, fails: bool)
    requires NoAnswers(before) && NoAnswers(after)
    ensures var m := Summarize(before + [Answer(content)] + after, fails);
            if content.ReplyContent? then
              && m.raises == fails
              && exists b, a :: Relays(before, b) && Relays(after, a) && m.published == b + [MessageOut(content.text)] + a
            else m.raises && Relays(before, m.published)
  {
    var said := [Answer(content)];
    assert before + said + after == before + (said + after) && (said + after)[1..] == after;
    SummarizeRelays(before, said + after, fails);
    assert after + [] == after;
    SummarizeRelays(after, [], fails);
    if content.ReplyContent? {
      assert Summarize(before + said + after, fails).published == Relay(before) + [MessageOut(content.text)] + Relay(after);
    }
  }

  /** Tools other than the question to the user. */
  ghost predicate OtherTools(events: seq<AgentEvent>) {
    forall i :: 0 <= i < |events| ==> (events[i].ToolCalling? || events[i].ToolCalled?) && events[i].name != "message_ask_user"
  }

  lemma ThenThen(first: seq<FlowEvent>, second: seq<FlowEvent>, x: Execution)
    ensures Then(first, Then(second, x)) == Then(first + second, x)
  {
    assert first + (second + x.published) == (first + second) + x.published;
  }

  lemma {:induction false} ExecuteRelays(step: Step, events: seq<AgentEvent>, rest: seq<AgentEvent>, fails: bool)
    requires OtherTools(events)
    ensures NoAnswers(events) && ExecuteEvents(step, events + rest, fails) == Then(Relay(events), ExecuteEvents(step, rest, fails))
    decreases events
  {
    assert NoAnswers(events);
    if events == [] {
      assert events + rest == rest;
    } else {
      RelayFirst(events);
      assert (events + rest)[1..] == events[1..] + rest;
      ExecuteRelays(step, events[1..], rest, fails);
      ThenThen([PassThrough(events[0])], Relay(events[1..]), ExecuteEvents(step, rest, fails));
      hide Relay, Then;
    }
  }

  /** Nothing but tools is left: the step ends as it is, completed unless the agent fails. */
  lemma ExecuteToEnd(step: Step, events: seq<AgentEvent>, fails: bool)
    requires OtherTools(events)
    ensures NoAnswers(events)
    ensures ExecuteEvents(step, events, fails) == if fails then Execution(step, Relay(events), Raises)
                                                  else Execution(step.(status := StCompleted), Relay(events), Completes)
  {
    assert events + [] == events;
    ExecuteRelays(step, events, [], fails);
    assert Relay(events) + [] == Relay(events);
  }

  /** What an answer publishes: the step as it ends, and its text if there is any. */
  ghost function Told(done: Step): seq<FlowEvent> {
    [StepOut(Finished, done)] + if done.result in {None, Some("")} then [] else [MessageOut(done.result.value)]
  }

  lemma AnswerIsTold(step: Step, success: bool, result: Option<string>, attachments: seq<string>, after: seq<AgentEvent>, fails: bool)
    ensures var done := step.(status := StCompleted, success := success, result := result, attachments := attachments);
            ExecuteEvents(step, [Answer(StepContent(success, result, attachments))] + after, fails)
            == Then(Told(done), ExecuteEvents(done, after, fails))
  {
    var said := [Answer(StepContent(success, result, attachments))];
    assert (said + after)[1..] == after;
  }

  lemma ErrorIsTold(step: Step, error: string, after: seq<AgentEvent>, fails: bool)
    ensures var failed := step.(status := StFailed, error := Some(error));
            ExecuteEvents(step, [AgentError(error)] + after, fails)
            == Then([StepOut(Broken, failed), ErrorOut(error)], ExecuteEvents(failed, after, fails))
  {
    var said := [AgentError(error)];
    assert (said + after)[1..] == after;
  }

  lemma Regroup(a: seq<FlowEvent>, b: seq<FlowEvent>, c: seq<FlowEvent>, d: seq<FlowEvent>)
    ensures a + (b + (c + d)) == a + b + c + d
  {
  }

  /** Executing a step announces it, passes on the tools, and publishes the outcome with its text; the
      step ends with exactly that outcome. */
  lemma ExecuteWithAnswer(step: Step, before: seq<AgentEvent>, success: bool, result: Option<string>, attachments: seq<string>,
                          after: seq<AgentEvent>, fails: bool)
    requires OtherTools(before) && OtherTools(after)
    ensures var x := ExecuteStep(step, Episode(before + [Answer(StepContent(success, result, attachments))] + after, fails));
            && x.step == Step(step.description, StCompleted, result, step.error, success, attachments)
            && x.ending == (if fails then Raises else Completes)
            && exists b, a :: Relays(before, b) && Relays(after, a) && x.published ==
                 [StepOut(Started, step.(status := StRunning))] + b + Told(x.step) + a
  {
    var said := [Answer(StepContent(success, result, attachments))];
    var started := step.(status := StRunning);
    var done := step.(status := StCompleted, success := success, result := result, attachments := attachments);
    assert before + said + after == before + (said + after);
    ExecuteRelays(started, before, said + after, fails);
    AnswerIsTold(started, success, result, attachments, after, fails);
    ExecuteToEnd(done, after, fails);
    hide ExecuteEvents, Relay, Told, OtherTools;
    var x := ExecuteStep(step, Episode(before + said + after, fails));
    assert x.step == done && x.published == [StepOut(Started, started)] + (Relay(before) + (Told(done) + Relay(after)));
    Regroup([StepOut(Started, started)], Relay(before), Told(done), Relay(after));
    hide Relays;
  }

  /** An error of the agent is published with the failed step; the step keeps the error, and counts as
      completed if the execution then ends normally. */
  lemma ExecuteWithError(step: Step, before: seq<AgentEvent>, error: string, after: seq<AgentEvent>, fails: bool)
    requires OtherTools(before) && OtherTools(after)
    ensures var x := ExecuteStep(step, Episode(before + [AgentError(error)] + after, fails));
            && x.step == step.(error := Some(error), status := if fails then StFailed else StCompleted)
            && x.ending == (if fails then Raises else Completes)
            && exists b, a :: Relays(before, b) && Relays(after, a) && x.published ==
                 [StepOut(Started, step.(status := StRunning))] + b
                 + [StepOut(Broken, step.(status := StFailed, error := Some(error))), ErrorOut(error)] + a
  {
    var said := [AgentError(error)];
    var started := step.(status := StRunning);
    var failed := step.(status := StFailed, error := Some(error));
    var told := [StepOut(Broken, failed), ErrorOut(error)];
    assert before + said + after == before + (said + after);
    ExecuteRelays(started, before, said + after, fails);
    ErrorIsTold(started, error, after, fails);
    ExecuteToEnd(failed, after, fails);
    hide ExecuteEvents, Relay, OtherTools;
    var x := ExecuteStep(step, Episode(before + said + after, fails));
    assert x.published == [StepOut(Started, started)] + (Relay(before) + (told + Relay(after)));
    Regroup([StepOut(Started, started)], Relay(before), told, Relay(after));
    hide Relays;
  }

  /** An answer that is no outcome of a step completes the step as it was and raises. */
  lemma ExecuteWithoutOutcome(step: Step, before: seq<AgentEvent>, content: Content, after: seq<AgentEvent>, fails: bool)
    requires OtherTools(before) && !content.StepContent?
    ensures var x := ExecuteStep(step, Episode(before + [Answer(content)] + after, fails));
            && x.step == step.(status := StCompleted) && x.ending == Raises
            && exists b :: Relays(before, b) && x.published == [StepOut(Started, step.(status := StRunning))] + b
  {
    var said := [Answer(content)];
    var started := step.(status := StRunning);
    assert before + said + after == before + (said + after);
    ExecuteRelays(started, before, said + after, fails);
    assert ExecuteEvents(started, said + after, fails) == Execution(step.(status := StCompleted), [], Raises);
    hide ExecuteEvents, Relay, OtherTools;
    assert ExecuteStep(step, Episode(before + said + after, fails)).published == [StepOut(Started, started)] + Relay(before);
  }

  /** A question to the user is shown as a message; when it was asked the step is left waiting, and
      nothing that follows is published. */
  lemma ExecuteWithQuestion(step: Step, before: seq<AgentEvent>, question: string, after: seq<AgentEvent>, fails: bool)
    requires OtherTools(before)
    ensures var x := ExecuteStep(step, Episode(before + [ToolCalling("message_ask_user", question), ToolCalled("message_ask_user")] + after, fails));
            && x.step == step.(status := StRunning) && x.ending == Waits
            && exists b :: Relays(before, b)
                           && x.published == [StepOut(Started, step.(status := StRunning))] + b + [MessageOut(question), WaitOut]
  {
    var asked := [ToolCalling("message_ask_user", question), ToolCalled("message_ask_user")];
    var started := step.(status := StRunning);
    assert before + asked + after == before + (asked + after);
    assert (asked + after)[1..] == [ToolCalled("message_ask_user")] + after;
    ExecuteRelays(started, before, asked + after, fails);
    assert ExecuteStep(step, Episode(before + asked + after, fails)).published
        == [StepOut(Started, started)] + Relay(before) + [MessageOut(question), WaitOut];
  }

  // ---- the state machine ----

  datatype FlowStatus = FlowIdle | FlowPlanning | FlowExecuting | FlowUpdating | FlowSummarizing | FlowCompleted

  datatype Outcome = Running | Ended | Waiting | Raised

  /** `executed` and `frozen` record, for each step that ran to its end, its position and the steps
      up to and including it; `summarized` records the steps when summarising began. */
  datatype Flow = Flow(
    status: FlowStatus,
    plan: Option<Plan>,
    published: seq<FlowEvent>,
    outcome: Outcome,
    executed: seq<nat>,
    frozen: seq<seq<Step>>,
    summarized: seq<seq<Step>>)

  function Publish(s: Flow, events: seq<FlowEvent>): Flow {
    s.(published := s.published + events)
  }

  function PlanTurn(s: Flow, episode: Episode): Flow {
    var p := CreatePlan(s.plan, episode.events, episode.fails);
    var next := Publish(s, p.published).(plan := p.plan);
    if p.raises then next.(outcome := Raised)
    else if p.plan.None? || p.plan.value.steps == [] then next.(status := FlowCompleted)
    else next.(status := FlowExecuting)
  }

  function ExecuteTurn(s: Flow, plan: Plan, episode: Episode): Flow {
    var running := plan.(status := StRunning);
    var k := FirstPending(plan.steps);
    if k == |plan.steps| then s.(plan := Some(running), status := FlowSummarizing)
    else
      var x := ExecuteStep(plan.steps[k], episode);
      var steps := plan.steps[k := x.step];
      var next := Publish(s, x.published).(plan := Some(running.(steps := steps)));
      match x.ending
      case Completes => next.(status := FlowUpdating, executed := s.executed + [k], frozen := s.frozen + [steps[..k + 1]])
      case Waits => next.(outcome := Waiting)
      case Raises => next.(outcome := Raised)
  }

  function UpdateTurn(s: Flow, plan: Plan, episode: Episode): Flow {
    var u := UpdatePlan(plan, episode.events, episode.fails);
    var next := Publish(s, u.published).(plan := u.plan);
    if u.raises then next.(outcome := Raised) else next.(status := FlowExecuting)
  }

  function SummarizeTurn(s: Flow, episode: Episode): Flow {
    var m := Summarize(episode.events, episode.fails);
    var next := Publish(s, m.published).(summarized := s.summarized + [if s.plan.Some? then s.plan.value.steps else []]);
    if m.raises then next.(outcome := Raised) else next.(status := FlowCompleted)
  }

  function CompleteTurn(s: Flow, plan: Plan): Flow {
    var finished := plan.(status := StCompleted);
    Publish(s, [PlanOut(Finished, finished), DoneOut]).(plan := Some(finished), status := FlowIdle, outcome := Ended)
  }

  /** One pass through the loop. A state that needs a plan fails without one, and updating fails
      unless a step was executed in this run. */
  function Turn(s: Flow, episode: Episode): Flow {
    match s.status
    case FlowIdle => s.(status := FlowPlanning)
    case FlowPlanning => PlanTurn(s, episode)
    case FlowSummarizing => SummarizeTurn(s, episode)
    case _ =>
      if s.plan.None? || (s.status.FlowUpdating? && s.executed == []) then s.(outcome := Raised)
      else if s.status.FlowExecuting? then ExecuteTurn(s, s.plan.value, episode)
      else if s.status.FlowUpdating? then UpdateTurn(s, s.plan.value, episode)
      else CompleteTurn(s, s.plan.value)
  }

  /** The loop, as far as the given episodes take it. */
  function RunFlow(s: Flow, episodes: seq<Episode>): Flow
    decreases episodes
  {
    if episodes == [] || s.outcome != Running then s else RunFlow(Turn(s, episodes[0]), episodes[1..])
  }

  /** The flow when it receives a message: only its status and the latest stored plan matter. */
  function Begin(status: FlowStatus, plan: Option<Plan>): Flow {
    Flow(status, plan, [], Running, [], [], [])
  }

  /** Every summary is recorded with the steps that it found, and nothing else is recorded as one. */
  lemma SummariesRecorded(s: Flow, episode: Episode)
    ensures Turn(s, episode).summarized ==
            s.summarized + if !s.status.FlowSummarizing? then [] else if s.plan.None? then [[]] else [s.plan.value.steps]
  {
    hide ExecuteEvents;
  }

  // ---- what every run keeps ----

  /** Steps that ran stay as they are at the head of the plan, and ran in increasing positions. */
  ghost predicate Frozen(s: Flow) {
    && |s.executed| == |s.frozen|
    && (s.executed != [] ==> s.plan.Some?)
    && (forall i :: 0 <= i < |s.frozen| ==>
          && |s.frozen[i]| == s.executed[i] + 1
          && AllDone(s.frozen[i])
          && s.frozen[i] <= s.plan.value.steps)
    && (forall i, j :: 0 <= i < j < |s.executed| ==> s.executed[i] < s.executed[j])
    && (s.status.FlowIdle? || s.status.FlowPlanning? ==> s.executed == [] || s.outcome.Ended?)
  }

  /** Summarising found every step done; waiting and ending are the last things published. */
  ghost predicate Orderly(s: Flow) {
    && (s.status.FlowSummarizing? ==> s.plan.Some? && AllDone(s.plan.value.steps))
    && (forall i :: 0 <= i < |s.summarized| ==> AllDone(s.summarized[i]))
    && (s.outcome.Running? || s.outcome.Raised? ==> WaitOut !in s.published && DoneOut !in s.published)
    && (s.outcome.Waiting? ==>
          && s.published != [] && s.published[|s.published| - 1] == WaitOut
          && WaitOut !in s.published[..|s.published| - 1] && DoneOut !in s.published)
    && (s.outcome.Ended? ==>
          && s.status.FlowIdle? && |s.published| >= 2 && s.plan.Some? && s.plan.value.status.StCompleted?
          && s.published[|s.published| - 2..] == [PlanOut(Finished, s.plan.value), DoneOut]
          && WaitOut !in s.published && DoneOut !in s.published[..|s.published| - 1])
  }

  lemma FrozenBelowPending(s: Flow, i: nat)
    requires Frozen(s) && i < |s.frozen|
    ensures s.executed[i] < FirstPending(s.plan.value.steps)
  {
  }

  lemma ExecutingKeepsFrozen(s: Flow, plan: Plan, episode: Episode)
    requires Frozen(s) && s.status.FlowExecuting? && s.outcome.Running? && s.plan == Some(plan)
    ensures Frozen(ExecuteTurn(s, plan, episode))
  {
    var k := FirstPending(plan.steps);
    if k < |plan.steps| {
      var x := ExecuteStep(plan.steps[k], episode);
      var steps := plan.steps[k := x.step];
      forall i | 0 <= i < |s.frozen|
        ensures s.executed[i] < k && s.frozen[i] <= steps
      {
        FrozenBelowPending(s, i);
      }
      ExecutionEnds(plan.steps[k].(status := StRunning), episode.events, episode.fails);
      assert x.ending.Completes? ==> AllDone(steps[..k + 1]);
    }
  }

  lemma UpdatingKeepsFrozen(s: Flow, plan: Plan, episode: Episode)
    requires Frozen(s) && s.status.FlowUpdating? && s.outcome.Running? && s.plan == Some(plan)
    ensures Frozen(UpdateTurn(s, plan, episode))
  {
    var u := UpdatePlan(plan, episode.events, episode.fails);
    UpdatingKeepsFinished(plan, episode.events, episode.fails, []);
    forall i | 0 <= i < |s.frozen|
      ensures s.frozen[i] <= u.plan.value.steps
    {
      UpdatingKeepsFinished(plan, episode.events, episode.fails, s.frozen[i]);
    }
  }

  lemma TurnKeepsFrozen(s: Flow, episode: Episode)
    requires Frozen(s) && s.outcome.Running?
    ensures Frozen(Turn(s, episode))
  {
    if s.status.FlowExecuting? && s.plan.Some? {
      ExecutingKeepsFrozen(s, s.plan.value, episode);
    } else if s.status.FlowUpdating? && s.plan.Some? && s.executed != [] {
      UpdatingKeepsFrozen(s, s.plan.value, episode);
    }
  }

  /** Publishing without waiting or ending keeps the order while the run goes on. */
  lemma PlainPublishKeepsOrder(s: Flow, next: Flow, events: seq<FlowEvent>)
    requires Orderly(s) && s.outcome.Running?
    requires WaitOut !in events && DoneOut !in events
    requires next.published == s.published + events
    requires next.outcome.Running? || next.outcome.Raised?
    requires next.status.FlowSummarizing? ==> next.plan.Some? && AllDone(next.plan.value.steps)
    requires next.summarized == s.summarized
             || (s.status.FlowSummarizing? && s.plan.Some? && next.summarized == s.summarized + [s.plan.value.steps])
    ensures Orderly(next)
  {
  }

  /** Publishing a wait last keeps the order, too. */
  lemma WaitPublishKeepsOrder(s: Flow, next: Flow, events: seq<FlowEvent>)
    requires Orderly(s) && s.outcome.Running? && !s.status.FlowSummarizing?
    requires events != [] && events[|events| - 1] == WaitOut && WaitOut !in events[..|events| - 1] && DoneOut !in events
    requires next == Publish(s, events).(plan := next.plan, outcome := Waiting)
    ensures Orderly(next)
  {
  }

  lemma ExecutionOfStepEnds(step: Step, episode: Episode)
    ensures var x := ExecuteStep(step, episode);
            && (if x.ending.Waits?
                then x.published != [] && x.published[|x.published| - 1] == WaitOut && WaitOut !in x.published[..|x.published| - 1]
                else WaitOut !in x.published)
            && DoneOut !in x.published
  {
    var started := step.(status := StRunning);
    var rest := ExecuteEvents(started, episode.events, episode.fails);
    ExecutionEnds(started, episode.events, episode.fails);
    hide ExecuteEvents;
    var all := [StepOut(Started, started)] + rest.published;
    if rest.ending.Waits? {
      assert all[..|all| - 1] == [StepOut(Started, started)] + rest.published[..|rest.published| - 1];
    }
  }

  lemma ExecutingKeepsOrder(s: Flow, plan: Plan, episode: Episode)
    requires Orderly(s) && s.outcome.Running? && s.status.FlowExecuting? && s.plan == Some(plan)
    ensures Orderly(ExecuteTurn(s, plan, episode))
  {
    var k := FirstPending(plan.steps);
    if k < |plan.steps| {
      var x := ExecuteStep(plan.steps[k], episode);
      ExecutionOfStepEnds(plan.steps[k], episode);
      hide ExecuteStep, Orderly;
      if x.ending.Waits? {
        WaitPublishKeepsOrder(s, ExecuteTurn(s, plan, episode), x.published);
      } else {
        PlainPublishKeepsOrder(s, ExecuteTurn(s, plan, episode), x.published);
      }
    } else {
      PlainPublishKeepsOrder(s, ExecuteTurn(s, plan, episode), []);
    }
  }

  lemma CompletingKeepsOrder(s: Flow, plan: Plan)
    requires Orderly(s) && s.outcome.Running? && !s.status.FlowSummarizing? && s.plan == Some(plan)
    ensures Orderly(CompleteTurn(s, plan))
  {
  }

  lemma SummarizingHasPlan(s: Flow)
    requires Orderly(s) && s.status.FlowSummarizing?
    ensures s.plan.Some? && AllDone(s.plan.value.steps)
  {
  }

  lemma TurnKeepsOrder(s: Flow, episode: Episode)
    requires Orderly(s) && s.outcome.Running?
    ensures Orderly(Turn(s, episode))
  {
    hide Orderly;
    match s.status
    case FlowIdle =>
      PlainPublishKeepsOrder(s, Turn(s, episode), []);
    case FlowPlanning =>
      CreatingNeverWaits(s.plan, episode.events, episode.fails);
      PlainPublishKeepsOrder(s, Turn(s, episode), CreatePlan(s.plan, episode.events, episode.fails).published);
    case FlowSummarizing =>
      SummarizingHasPlan(s);
      SummarizingNeverWaits(episode.events, episode.fails);
      PlainPublishKeepsOrder(s, Turn(s, episode), Summarize(episode.events, episode.fails).published);
    case FlowExecuting =>
      if s.plan.Some? {
        ExecutingKeepsOrder(s, s.plan.value, episode);
      } else {
        PlainPublishKeepsOrder(s, Turn(s, episode), []);
      }
    case FlowUpdating =>
      if s.plan.Some? && s.executed != [] {
        UpdatingKeepsFinished(s.plan.value, episode.events, episode.fails, []);
        PlainPublishKeepsOrder(s, Turn(s, episode), UpdatePlan(s.plan.value, episode.events, episode.fails).published);
      } else {
        PlainPublishKeepsOrder(s, Turn(s, episode), []);
      }
    case FlowCompleted =>
      if s.plan.Some? {
        CompletingKeepsOrder(s, s.plan.value);
      } else {
        PlainPublishKeepsOrder(s, Turn(s, episode), []);
      }
  }

  lemma {:induction false} RunKeeps(s: Flow, episodes: seq<Episode>)
    requires Frozen(s) && Orderly(s)
    ensures Frozen(RunFlow(s, episodes)) && Orderly(RunFlow(s, episodes))
    decreases episodes
  {
    hide Frozen, Orderly, Turn;
    if episodes != [] && s.outcome == Running {
      TurnKeepsFrozen(s, episodes[0]);
      TurnKeepsOrder(s, episodes[0]);
      RunKeeps(Turn(s, episodes[0]), episodes[1..]);
    }
  }

  lemma {:induction false} RunAppends(s: Flow, first: seq<Episode>, rest: seq<Episode>)
    ensures RunFlow(s, first + rest) == RunFlow(RunFlow(s, first), rest)
    decreases first
  {
    if first == [] {
      assert first + rest == rest;
    } else {
      assert (first + rest)[1..] == first[1..] + rest;
      if s.outcome == Running {
        RunAppends(Turn(s, first[0]), first[1..], rest);
      }
    }
  }

  lemma TurnGrows(s: Flow, episode: Episode)
    ensures s.frozen <= Turn(s, episode).frozen && s.executed <= Turn(s, episode).executed && s.published <= Turn(s, episode).published
  {
  }

  lemma {:induction false} HistoriesGrow(s: Flow, episodes: seq<Episode>)
    ensures s.frozen <= RunFlow(s, episodes).frozen && s.executed <= RunFlow(s, episodes).executed
    ensures s.published <= RunFlow(s, episodes).published
    decreases episodes
  {
    if episodes != [] && s.outcome == Running {
      hide Turn;
      TurnGrows(s, episodes[0]);
      HistoriesGrow(Turn(s, episodes[0]), episodes[1..]);
    }
  }

  /** Whatever the agents answer: at every later moment of a run, the steps up to the one that ran
      are exactly what they were when it finished, and no position runs twice. */
  lemma FinishedStepsStay(status: FlowStatus, plan: Option<Plan>, early: seq<Episode>, later: seq<Episode>, i: nat)
    requires status.FlowSummarizing? ==> plan.Some? && AllDone(plan.value.steps)
    requires i < |RunFlow(Begin(status, plan), early).frozen|
    ensures var past, now := RunFlow(Begin(status, plan), early), RunFlow(Begin(status, plan), early + later);
            && now.plan.Some?
            && past.frozen[i] <= now.plan.value.steps
            && |past.executed| == |past.frozen|
            && AllDone(past.frozen[i]) && |past.frozen[i]| == past.executed[i] + 1
            && (forall j, k :: 0 <= j < k < |now.executed| ==> now.executed[j] < now.executed[k])
  {
    RunAppends(Begin(status, plan), early, later);
    var past := RunFlow(Begin(status, plan), early);
    RunKeeps(Begin(status, plan), early);
    RunKeeps(past, later);
    HistoriesGrow(past, later);
  }

  /** A run that ends has published the completed plan and then the end as its last two events, and
      summarised only plans whose steps were all done; one that waits published the wait last. */
  lemma RunEndsProperly(status: FlowStatus, plan: Option<Plan>, episodes: seq<Episode>)
    requires status.FlowSummarizing? ==> plan.Some? && AllDone(plan.value.steps)
    ensures Orderly(RunFlow(Begin(status, plan), episodes))
  {
    RunKeeps(Begin(status, plan), episodes);
  }

  /** The flow at the turn after an update: it goes on with the first step of the answer that was not
      carried out, at its place in the plan, or summarises. */
  ghost predicate GoesOnWith(s: Flow, next: Flow, k: nat, newSteps: seq<Step>) {
    && (NothingLeft(newSteps) ==> next.status.FlowSummarizing? && next.published == s.published)
    && forall j: nat :: IsNext(newSteps, j) ==>
         && s.published + [StepOut(Started, newSteps[j].(status := StRunning))] <= next.published
         && (next.status.FlowUpdating? ==> next.executed == s.executed + [k + j])
  }

  lemma NextInAnswer(kept: seq<Step>, newSteps: seq<Step>)
    requires NothingLeft(kept)
    ensures FirstPending(kept + newSteps) == |kept| + FirstPending(newSteps)
    ensures NothingLeft(newSteps) <==> FirstPending(newSteps) == |newSteps|
    ensures forall j: nat :: IsNext(newSteps, j) ==> j == FirstPending(newSteps) < |newSteps|
  {
    FirstPendingIsNext(newSteps);
    FirstPendingIsNext(kept + newSteps);
    var j := FirstPending(newSteps);
    if j < |newSteps| {
      assert IsNext(newSteps, j) && IsNext(kept + newSteps, |kept| + j);
    } else {
      assert NothingLeft(kept + newSteps);
    }
  }

  lemma NextTurn(s: Flow, plan: Plan, kept: seq<Step>, newSteps: seq<Step>, episode: Episode)
    requires s.status.FlowExecuting? && s.plan == Some(plan) && plan.steps == kept + newSteps && NothingLeft(kept)
    ensures GoesOnWith(s, Turn(s, episode), |kept|, newSteps)
  {
    NextInAnswer(kept, newSteps);
    hide ExecuteEvents, FirstPending, IsNext, NothingLeft;
  }

  lemma RunTwo(s: Flow, first: Episode, second: Episode)
    ensures RunFlow(s, [first]) == if s.outcome != Running then s else Turn(s, first)
    ensures var next := RunFlow(s, [first]);
            RunFlow(s, [first, second]) == if next.outcome != Running then next else Turn(next, second)
  {
    hide Turn;
    assert [first][1..] == [] && [first, second][1..] == [second] && [second][1..] == [];
    var next := Turn(s, first);
    assert RunFlow(next, []) == next;
    assert RunFlow(next, [second]) == if next.outcome != Running then next else RunFlow(Turn(next, second), []);
    assert RunFlow(Turn(next, second), []) == Turn(next, second);
  }

  /** After an update with an answer, the plan is what was carried out followed by the answer, and the
      flow goes on with the first step of the answer that was not carried out; if there is none, it
      summarises. */
  lemma NextStepIsFromAnswer(s: Flow, plan: Plan, before: seq<AgentEvent>, answer: Plan, after: seq<AgentEvent>, k: nat, following: Episode)
    requires s.status.FlowUpdating? && s.outcome.Running? && s.executed != [] && s.plan == Some(plan)
    requires NoAnswers(before) && NoAnswers(after) && IsNext(plan.steps, k)
    ensures var episode := Episode(before + [Answer(PlanContent(answer))] + after, false);
            var updated, next := RunFlow(s, [episode]), RunFlow(s, [episode, following]);
            && updated.plan == Some(plan.(steps := plan.steps[..k] + answer.steps)) && updated.status.FlowExecuting?
            && updated.executed == s.executed && GoesOnWith(updated, next, k, answer.steps)
  {
    var episode := Episode(before + [Answer(PlanContent(answer))] + after, false);
    RunTwo(s, episode, following);
    UpdateWithAnswer(plan, before, answer, after, false);
    var updated := Turn(s, episode);
    assert updated.plan.value.(steps := []) == plan.(steps := []);
    assert updated.plan == Some(plan.(steps := plan.steps[..k] + answer.steps));
    NextTurn(updated, updated.plan.value, plan.steps[..k], answer.steps, following);
    hide UpdatePlan, GoesOnWith, Relays;
  }

  // ---- the code of the flow ----

  class PlannerReActFlow {
    var status: FlowStatus
    var plan: Option<Plan>

    constructor ()
      ensures status == FlowIdle && plan == None
    {
      status, plan := FlowIdle, None;
    }

    /** Runs until it ends, waits or fails, or the episodes are used up. */
    method Invoke(latestPlan: Option<Plan>, episodes: seq<Episode>) returns (published: seq<FlowEvent>, outcome: Outcome)
      modifies this
      ensures var end := RunFlow(Begin(old(status), latestPlan), episodes);
              published == end.published && outcome == end.outcome && status == end.status && plan == end.plan
    {
      plan := latestPlan;
      published, outcome := [], Running;
      ghost var s := Begin(status, plan);
      var step: Option<Step> := None;
      var i := 0;
      while i < |episodes| && outcome == Running
        invariant 0 <= i <= |episodes|
        invariant s.status == status && s.plan == plan && s.published == published && s.outcome == outcome
        invariant outcome == Running ==> (step.Some? <==> s.executed != [])
        invariant RunFlow(s, episodes[i..]) == RunFlow(Begin(old(status), latestPlan), episodes)
      {
        var episode := episodes[i];
        assert episodes[i..][0] == episode && episodes[i..][1..] == episodes[i + 1..];
        s := Turn(s, episode);
        i := i + 1;
        match status {
          case FlowIdle =>
            status := FlowPlanning;
          case FlowPlanning =>
            var p := CreatePlan(plan, episode.events, episode.fails);
            plan, published := p.plan, published + p.published;
            if p.raises {
              outcome := Raised;
            } else {
              status := FlowExecuting;
              if plan.None? || plan.value.steps == [] {
                status := FlowCompleted;
              }
            }
          case FlowExecuting =>
            if plan.None? {
              outcome := Raised;
            } else {
              var found := FindFirstPending(plan.value.steps);
              if found.None? {
                plan := Some(plan.value.(status := StRunning));
                status := FlowSummarizing;
              } else {
                var x := ExecuteStep(plan.value.steps[found.value], episode);
                step := Some(x.step);
                plan := Some(plan.value.(status := StRunning, steps := plan.value.steps[found.value := x.step]));
                published := published + x.published;
                match x.ending {
                  case Completes => status := FlowUpdating;
                  case Waits => outcome := Waiting;
                  case Raises => outcome := Raised;
                }
              }
            }
          case FlowUpdating =>
            if plan.None? || step.None? {
              outcome := Raised;
            } else {
              var u := UpdatePlan(plan.value, episode.events, episode.fails);
              plan, published := u.plan, published + u.published;
              if u.raises {
                outcome := Raised;
              } else {
                status := FlowExecuting;
              }
            }
          case FlowSummarizing =>
            var m := Summarize(episode.events, episode.fails);
            published := published + m.published;
            if m.raises {
              outcome := Raised;
            } else {
              status := FlowCompleted;
            }
          case FlowCompleted =>
            if plan.None? {
              outcome := Raised;
            } else {
              plan := Some(plan.value.(status := StCompleted));
              status := FlowIdle;
              published := published + [PlanOut(Finished, plan.value), DoneOut];
              outcome := Ended;
            }
        }
      }
    }
  }
}
