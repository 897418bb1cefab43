// The task runner around the flow: it publishes the flow's events, drops the rest when new input
// arrives, and stops when the flow waits or the task is cancelled.

module AgentTaskRunner {
  import opened Options
  import opened PlanFlow

  datatype SessionStatus = SessionRunning | SessionWaiting | SessionCompleted

  /** One input with what the flow makes of it: its events, whether it then fails, and after which
      of its events newer input is already queued. */
  datatype Input =
    | UserMessage(text: string, events: seq<FlowEvent>, fails: bool, arrivals: seq<bool>)
    | OtherInput

  datatype Stop = Drained | Interrupted | Waited | Failed

  datatype Output = Output(published: seq<FlowEvent>, stop: Stop)

  const EMPTY_MESSAGE := ErrorOut("空消息错误")
  const RUN_FAILED := ErrorOut("AgentTaskRunner运行出错")

  function Arrived(arrivals: seq<bool>): bool {
    arrivals != [] && arrivals[0]
  }

  function Rest(arrivals: seq<bool>): seq<bool> {
    if arrivals == [] then [] else arrivals[1..]
  }

  /** Publishes events until a wait, newer input, or their end. */
  function Forward(events: seq<FlowEvent>, fails: bool, arrivals: seq<bool>): Output
    decreases events
  {
    if events == [] then Output([], if fails then Failed else Drained)
    else if events[0].WaitOut? then Output([events[0]], Waited)
    else if Arrived(arrivals) then Output([events[0]], Interrupted)
    else
      var rest := Forward(events[1..], fails, Rest(arrivals));
      rest.(published := [events[0]] + rest.published)
  }

  /** An empty message never reaches the flow. */
  function Handle(input: Input): Output {
    match input
    case OtherInput => Output([], Drained)
    case UserMessage(text, events, fails, arrivals) =>
      if text == "" then Forward([EMPTY_MESSAGE], false, arrivals) else Forward(events, fails, arrivals)
  }

  /** Newer input was queued after one of the first `n` events, at the latest. */
  ghost predicate ArrivedBy(arrivals: seq<bool>, n: nat) {
    exists i :: 0 <= i < n && i < |arrivals| && arrivals[i]
  }

  ghost predicate NoWait(events: seq<FlowEvent>) {
    forall i :: 0 <= i < |events| ==> events[i] != WaitOut
  }

  lemma ArrivedLater(arrivals: seq<bool>, n: nat)
    requires !Arrived(arrivals)
    ensures ArrivedBy(Rest(arrivals), n) <==> ArrivedBy(arrivals, n + 1)
  {
    if ArrivedBy(Rest(arrivals), n) {
      var i :| 0 <= i < n && i < |Rest(arrivals)| && Rest(arrivals)[i];
      assert arrivals[i + 1];
    }
    if ArrivedBy(arrivals, n + 1) {
      var i :| 0 <= i < n + 1 && i < |arrivals| && arrivals[i];
      assert Rest(arrivals)[i - 1];
    }
  }

  /** Newer input stops the publishing: of events without a wait, those up to the first after which
      newer input is queued are published, and nothing else. */
  lemma {:induction false} NewerInputStops(events: seq<FlowEvent>, fails: bool, arrivals: seq<bool>, k: nat)
    requires k < |events| && k < |arrivals| && arrivals[k] && !ArrivedBy(arrivals, k) && NoWait(events[..k + 1])
    ensures Forward(events, fails, arrivals) == Output(events[..k + 1], Interrupted)
    decreases k
  {
    assert events[..k + 1][0] == events[0];
    if k > 0 {
      assert !Arrived(arrivals);
      ArrivedLater(arrivals, k - 1);
      assert events[1..][..k] == events[..k + 1][1..];
      NewerInputStops(events[1..], fails, Rest(arrivals), k - 1);
      assert [events[0]] + events[1..][..k] == events[..k + 1];
    }
  }

  /** Without newer input and without a wait all events are published, and then it shows whether the
      flow failed. */
  lemma {:induction false} AllPublished(events: seq<FlowEvent>, fails: bool, arrivals: seq<bool>)
    requires !ArrivedBy(arrivals, |events|) && NoWait(events)
    ensures Forward(events, fails, arrivals) == Output(events, if fails then Failed else Drained)
    decreases events
  {
    if events != [] {
      assert !Arrived(arrivals);
      ArrivedLater(arrivals, |events| - 1);
      assert forall i :: 0 <= i < |events[1..]| ==> events[1..][i] == events[i + 1];
      AllPublished(events[1..], fails, Rest(arrivals));
    }
  }

  /** A wait ends the publishing with itself, unless newer input did before. */
  lemma {:induction false} WaitStops(events: seq<FlowEvent>, fails: bool, arrivals: seq<bool>, k: nat)
    requires k < |events| && events[k] == WaitOut && !ArrivedBy(arrivals, k) && NoWait(events[..k])
    ensures Forward(events, fails, arrivals) == Output(events[..k + 1], Waited)
    decreases k
  {
    if k > 0 {
      assert events[..k][0] == events[0];
      assert !Arrived(arrivals);
      ArrivedLater(arrivals, k - 1);
      assert events[1..][..k - 1] == events[..k][1..];
      WaitStops(events[1..], fails, Rest(arrivals), k - 1);
      assert [events[0]] + events[1..][..k] == events[..k + 1];
    }
  }

  datatype Session = Session(published: seq<FlowEvent>, status: SessionStatus)

  /** Handles inputs until one waits or fails, or none is left. */
  function RunInputs(inputs: seq<Input>): Session
    decreases inputs
  {
    if inputs == [] then Session([], SessionCompleted)
    else
      var out := Handle(inputs[0]);
      match out.stop
      case Waited => Session(out.published, SessionWaiting)
      case Failed => Session(out.published + [RUN_FAILED], SessionCompleted)
      case _ =>
        var rest := RunInputs(inputs[1..]);
        rest.(published := out.published + rest.published)
  }

  lemma {:induction false} ForwardWaitsLast(events: seq<FlowEvent>, fails: bool, arrivals: seq<bool>)
    ensures var out := Forward(events, fails, arrivals);
            if out.stop.Waited?
            then out.published != [] && out.published[|out.published| - 1] == WaitOut && WaitOut !in out.published[..|out.published| - 1]
            else WaitOut !in out.published
    decreases events
  {
    if events != [] && !events[0].WaitOut? && !Arrived(arrivals) {
      ForwardWaitsLast(events[1..], fails, Rest(arrivals));
      var rest := Forward(events[1..], fails, Rest(arrivals)).published;
      if rest != [] {
        assert ([events[0]] + rest)[..|rest|] == [events[0]] + rest[..|rest| - 1];
      }
    }
  }

  lemma HandleWaitsLast(input: Input)
    ensures var out := Handle(input);
            if out.stop.Waited?
            then out.published != [] && out.published[|out.published| - 1] == WaitOut && WaitOut !in out.published[..|out.published| - 1]
            else WaitOut !in out.published
  {
    if input.UserMessage? {
      ForwardWaitsLast(if input.text == "" then [EMPTY_MESSAGE] else input.events, if input.text == "" then false else input.fails, input.arrivals);
    }
  }

  /** Without cancellation the session waits exactly when a wait was published, and then it is the
      last event of all. */
  lemma {:induction false} NothingAfterWaitUncancelled(inputs: seq<Input>)
    ensures var s := RunInputs(inputs);
            && (s.status.SessionWaiting? <==> WaitOut in s.published)
            && !s.status.SessionRunning?
            && (s.status.SessionWaiting? ==>
                  s.published[|s.published| - 1] == WaitOut && WaitOut !in s.published[..|s.published| - 1])
    decreases inputs
  {
    if inputs != [] {
      var out := Handle(inputs[0]);
      HandleWaitsLast(inputs[0]);
      hide Handle;
      if out.stop.Drained? || out.stop.Interrupted? {
        NothingAfterWaitUncancelled(inputs[1..]);
        var rest := RunInputs(inputs[1..]).published;
        if rest != [] {
          assert (out.published + rest)[..|out.published + rest| - 1] == out.published + rest[..|rest| - 1];
        }
      }
    }
  }

  // ---- cancellation ----

  /** What is published before any failure is reported. */
  function Forwarded(inputs: seq<Input>): seq<FlowEvent>
    decreases inputs
  {
    if inputs == [] then []
    else
      var out := Handle(inputs[0]);
      if out.stop.Waited? || out.stop.Failed? then out.published else out.published + Forwarded(inputs[1..])
  }

  /** A task cancelled when `cancel` events were published, at whatever it awaits then, publishes the
      end and completes. */
  function RunWith(inputs: seq<Input>, cancel: Option<nat>): Session {
    if cancel.Some? && cancel.value <= |Forwarded(inputs)| then Session(Forwarded(inputs)[..cancel.value] + [DoneOut], SessionCompleted)
    else RunInputs(inputs)
  }

  lemma {:induction false} ForwardedOfRun(inputs: seq<Input>)
    ensures Forwarded(inputs) <= RunInputs(inputs).published
    ensures RunInputs(inputs).status.SessionWaiting? ==> Forwarded(inputs) == RunInputs(inputs).published
    decreases inputs
  {
    if inputs != [] {
      hide Handle;
      ForwardedOfRun(inputs[1..]);
    }
  }

  /** A session that waits has published the wait last, and once. After a wait something is published
      only if the task is cancelled while the waiting status is written: then the end, and the
      session completes. */
  lemma NothingAfterWait(inputs: seq<Input>, cancel: Option<nat>)
    ensures var s, plain := RunWith(inputs, cancel), RunInputs(inputs);
            && !s.status.SessionRunning?
            && (s.status.SessionWaiting? ==>
                  WaitOut in s.published && s.published[|s.published| - 1] == WaitOut && WaitOut !in s.published[..|s.published| - 1])
            && (WaitOut in s.published && !s.status.SessionWaiting?
                <==> plain.status.SessionWaiting? && cancel == Some(|plain.published|))
            && (WaitOut in s.published && !s.status.SessionWaiting? ==> s.published == plain.published + [DoneOut])
  {
    var plain := RunInputs(inputs);
    NothingAfterWaitUncancelled(inputs);
    ForwardedOfRun(inputs);
    hide RunInputs, Forwarded;
    if cancel.Some? && cancel.value <= |Forwarded(inputs)| {
      var forwarded := Forwarded(inputs)[..cancel.value];
      assert forwarded == plain.published[..cancel.value];
      if cancel.value < |plain.published| {
        assert forwarded <= plain.published[..|plain.published| - 1];
      }
    }
  }

  /** A flow that fails is reported: all its events are published, then the failure, the session is
      completed, and inputs that follow are not looked at. */
  lemma FailureIsReported(text: string, events: seq<FlowEvent>, arrivals: seq<bool>, rest: seq<Input>)
    requires text != "" && !ArrivedBy(arrivals, |events|) && NoWait(events)
    ensures RunInputs([UserMessage(text, events, true, arrivals)] + rest)
         == Session(events + [ErrorOut("AgentTaskRunner运行出错")], SessionCompleted)
  {
    AllPublished(events, true, arrivals);
    hide Forward;
  }

  /** Input that is interrupted by newer input is followed by that, after what was published. */
  lemma InterruptedGoesOn(text: string, events: seq<FlowEvent>, fails: bool, arrivals: seq<bool>, k: nat, rest: seq<Input>)
    requires text != ""
    requires k < |events| && k < |arrivals| && arrivals[k] && !ArrivedBy(arrivals, k) && NoWait(events[..k + 1])
    ensures var first := RunInputs(rest);
            RunInputs([UserMessage(text, events, fails, arrivals)] + rest) == Session(events[..k + 1] + first.published, first.status)
  {
    NewerInputStops(events, fails, arrivals, k);
    assert ([UserMessage(text, events, fails, arrivals)] + rest)[1..] == rest;
    hide Forward;
  }

  /** An empty message is answered with an error, and the flow is not run; other input is passed over. */
  lemma EmptyMessageIsRefused(events: seq<FlowEvent>, fails: bool, rest: seq<Input>)
    ensures var next := RunInputs(rest);
            && RunInputs([UserMessage("", events, fails, [])] + rest) == Session([ErrorOut("空消息错误")] + next.published, next.status)
            && RunInputs([OtherInput] + rest) == next
  {
    AllPublished([EMPTY_MESSAGE], false, []);
    assert ([UserMessage("", events, fails, [])] + rest)[1..] == rest && ([OtherInput] + rest)[1..] == rest;
    hide Forward;
  }

  /** The exception happens: a task that publishes a wait and is cancelled then publishes the end. */
  lemma CancelledAfterWait()
    ensures var inputs := [UserMessage("a", [WaitOut], false, [])];
            RunInputs(inputs) == Session([WaitOut], SessionWaiting)
            && RunWith(inputs, Some(1)) == Session([WaitOut, DoneOut], SessionCompleted)
  {
    var inputs := [UserMessage("a", [WaitOut], false, [])];
    assert Forwarded(inputs) == [WaitOut];
  }

  function Append(published: seq<FlowEvent>, rest: Output): Output {
    Output(published + rest.published, rest.stop)
  }

  /** After the event at `i`, what is left to do for an input. */
  lemma ForwardStep(events: seq<FlowEvent>, i: nat, fails: bool, arrivals: seq<bool>, published: seq<FlowEvent>)
    requires i < |events|
    ensures Append(published, Forward(events[i..], fails, arrivals)) ==
            if events[i].WaitOut? then Output(published + [events[i]], Waited)
            else if Arrived(arrivals) then Output(published + [events[i]], Interrupted)
            else Append(published + [events[i]], Forward(events[i + 1..], fails, Rest(arrivals)))
  {
    assert events[i..][0] == events[i] && events[i..][1..] == events[i + 1..];
    hide Arrived, Rest;
    assert published + ([events[i]] + Forward(events[i + 1..], fails, Rest(arrivals)).published)
        == (published + [events[i]]) + Forward(events[i + 1..], fails, Rest(arrivals)).published;
  }

  lemma ForwardEnd(events: seq<FlowEvent>, fails: bool, arrivals: seq<bool>, published: seq<FlowEvent>)
    ensures Append(published, Forward(events[|events|..], fails, arrivals)) == Output(published, if fails then Failed else Drained)
  {
    assert published + [] == published;
  }

  lemma ForwardStart(input: Input)
    requires !input.OtherInput?
    ensures var refused := input.text == "";
            var events, fails := if refused then [EMPTY_MESSAGE] else input.events, !refused && input.fails;
            Append([], Forward(events[0..], fails, input.arrivals)) == Handle(input)
  {
    assert [EMPTY_MESSAGE][0..] == [EMPTY_MESSAGE] && input.events[0..] == input.events;
    hide Forward;
    assert forall out: Output :: [] + out.published == out.published;
  }

  /** Publishing an input's events one by one, unless the task is cancelled when `cancel` of them are
      published. */
  method Publish(input: Input, cancel: Option<nat>) returns (out: Output, cancelled: bool)
    ensures cancelled <==> cancel.Some? && cancel.value <= |Handle(input).published|
    ensures if cancelled then out.published == Handle(input).published[..cancel.value] else out == Handle(input)
  {
    if cancel == Some(0) {
      return Output([], Drained), true;
    }
    if input.OtherInput? {
      return Output([], Drained), false;
    }
    var events, fails := input.events, input.fails;
    if input.text == "" {
      events, fails := [EMPTY_MESSAGE], false;
    }
    var published: seq<FlowEvent> := [];
    var arrivals := input.arrivals;
    ForwardStart(input);
    hide Forward, Handle, Arrived, Rest;
    for i := 0 to |events|
      invariant |published| == i && (cancel.Some? ==> i < cancel.value)
      invariant Append(published, Forward(events[i..], fails, arrivals)) == Handle(input)
    {
      ForwardStep(events, i, fails, arrivals, published);
      published := published + [events[i]];
      if cancel == Some(|published|) {
        return Output(published, Interrupted), true;
      }
      if events[i].WaitOut? {
        return Output(published, Waited), false;
      }
      if Arrived(arrivals) {
        return Output(published, Interrupted), false;
      }
      arrivals := Rest(arrivals);
    }
    ForwardEnd(events, fails, arrivals, published);
    return Output(published, if fails then Failed else Drained), false;
  }

  function Onward(published: seq<FlowEvent>, rest: Session): Session {
    Session(published + rest.published, rest.status)
  }

  lemma RunStep(inputs: seq<Input>, i: nat, published: seq<FlowEvent>)
    requires i < |inputs|
    ensures var out := Handle(inputs[i]);
            && published + Forwarded(inputs[i..]) ==
               (if out.stop.Waited? || out.stop.Failed? then published + out.published
                else (published + out.published) + Forwarded(inputs[i + 1..]))
            && Onward(published, RunInputs(inputs[i..])) ==
               (if out.stop.Waited? then Session(published + out.published, SessionWaiting)
                else if out.stop.Failed? then Session(published + out.published + [RUN_FAILED], SessionCompleted)
                else Onward(published + out.published, RunInputs(inputs[i + 1..])))
  {
    hide Handle;
    assert inputs[i..][0] == inputs[i] && inputs[i..][1..] == inputs[i + 1..];
  }

  method Invoke(inputs: seq<Input>, cancel: Option<nat>) returns (session: Session)
    ensures session == RunWith(inputs, cancel)
  {
    var published: seq<FlowEvent> := [];
    assert inputs[0..] == inputs;
    for i := 0 to |inputs|
      invariant cancel.Some? ==> |published| <= cancel.value
      invariant published + Forwarded(inputs[i..]) == Forwarded(inputs)
      invariant Onward(published, RunInputs(inputs[i..])) == RunInputs(inputs)
    {
      RunStep(inputs, i, published);
      hide Handle, RunInputs, Forwarded;
      var left := if cancel.Some? then Some(cancel.value - |published|) else None;
      var out, cancelled := Publish(inputs[i], left);
      published := published + out.published;
      if cancelled {
        assert published == Forwarded(inputs)[..cancel.value];
        return Session(published + [DoneOut], SessionCompleted);
      }
      if out.stop.Waited? {
        return Session(published, SessionWaiting);
      }
      if out.stop.Failed? {
        return Session(published + [RUN_FAILED], SessionCompleted);
      }
    }
    assert published == Forwarded(inputs);
    if cancel == Some(|published|) {
      return Session(published + [DoneOut], SessionCompleted);
    }
    return Session(published, SessionCompleted);
  }
}
