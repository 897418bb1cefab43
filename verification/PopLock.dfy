// The message queue over a Redis stream: `pop` under a token lock that expires, interleaved
// with other pops, with puts, and with the passing of time.

module PopLock {
  import opened MemoryValues
  import opened Options

  /** Each call of `pop` draws its own lock value, so the value also names the call. */
  type Token = nat

  datatype Message = Message(id: nat, data: string)

  /** Milliseconds. */
  const LOCK_EXPIRES: nat := 10000

  /** The countdown from 5 seconds by 0.1 is positive 51 times, because 0.1 is not exact. */
  const ACQUIRE_ATTEMPTS: nat := 51

  datatype Lock = Lock(owner: Token, expiresAt: nat)

  /** Where a call of `pop` stands. */
  datatype Call =
    | Waiting(attempts: nat)                         // failed to lock, may try again so often
    | Holding(acquiredAt: nat)                       // locked, nothing read yet
    | Chosen(acquiredAt: nat, message: Message)      // read the first message
    | Leaving(result: Option<Message>)               // about to release
    | Done(result: Option<Message>)                  // returned

  /** The server, the clock, all calls so far, and three histories: what was put, what calls of `pop`
      took out, in the order of their deletes, and what they took out but were cancelled with. */
  datatype State = State(
    now: nat,
    lock: Option<Lock>,
    stream: seq<Message>,
    calls: map<Token, Call>,
    puts: seq<Message>,
    delivered: seq<Message>,
    dropped: seq<Message>)

  datatype Event =
    | Put(data: string)
    | Tick(elapsed: nat)
    | TryLock(call: Token)
    | ReadFirst(call: Token)
    | Delete(call: Token)
    | Release(call: Token)
    | Cancel(call: Token)

  const START := State(0, None, [], map[], [], [], [])

  // ---- single commands ----

  function LockFree(s: State): bool {
    s.lock.None? || s.lock.value.expiresAt <= s.now
  }

  /** The attempts left to a call that is about to try the lock. */
  function AttemptsLeft(s: State, call: Token): Option<nat> {
    if call !in s.calls then Some(ACQUIRE_ATTEMPTS)
    else if s.calls[call].Waiting? && s.calls[call].attempts > 0 then Some(s.calls[call].attempts)
    else None
  }

  /** SET with NX and EX; a failed attempt sleeps, and gives up when its time is used up. */
  function DoTryLock(s: State, call: Token, attempts: nat): State {
    if LockFree(s) then
      s.(lock := Some(Lock(call, s.now + LOCK_EXPIRES)), calls := s.calls[call := Holding(s.now)])
    else if attempts <= 1 then s.(calls := s.calls[call := Done(None)])
    else s.(calls := s.calls[call := Waiting(attempts - 1)])
  }

  function DoReadFirst(s: State, call: Token, acquiredAt: nat): State {
    s.(calls := s.calls[call := if s.stream == [] then Leaving(None) else Chosen(acquiredAt, s.stream[0])])
  }

  function Without(stream: seq<Message>, message: Message): seq<Message> {
    if stream == [] then []
    else if stream[0] == message then stream[1..]
    else [stream[0]] + Without(stream[1..], message)
  }

  /** XDEL removes the message if it is still there; the call returns it either way. */
  function DoDelete(s: State, call: Token, message: Message): State {
    s.(stream := Without(s.stream, message), calls := s.calls[call := Leaving(Some(message))],
       delivered := s.delivered + [message])
  }

  /** The release script: delete the lock if its value is ours. */
  function DoRelease(s: State, call: Token, result: Option<Message>): State {
    s.(lock := if !LockFree(s) && s.lock.value.owner == call then None else s.lock,
       calls := s.calls[call := Done(result)])
  }

  /** The task of a call is cancelled: it returns nothing, and releases the lock if it had it. */
  function DoCancel(s: State, call: Token): State
    requires call in s.calls
  {
    match s.calls[call]
    case Waiting(_) => s.(calls := s.calls[call := Done(None)])
    case Leaving(Some(m)) => s.(calls := s.calls[call := Leaving(None)], dropped := s.dropped + [m])
    case Done(_) => s
    case _ => s.(calls := s.calls[call := Leaving(None)])
  }

  function DoPut(s: State, data: string): State {
    var message := Message(|s.puts|, data);
    s.(stream := s.stream + [message], puts := s.puts + [message])
  }

  /** One atomic step, if it can happen. */
  function Step(s: State, e: Event): Option<State> {
    match e
    case Put(data) => Some(DoPut(s, data))
    case Tick(elapsed) => Some(s.(now := s.now + elapsed))
    case TryLock(call) =>
      (match AttemptsLeft(s, call)
       case Some(attempts) => Some(DoTryLock(s, call, attempts))
       case None => None)
    case ReadFirst(call) =>
      if call in s.calls && s.calls[call].Holding? then Some(DoReadFirst(s, call, s.calls[call].acquiredAt)) else None
    case Delete(call) =>
      if call in s.calls && s.calls[call].Chosen? then Some(DoDelete(s, call, s.calls[call].message)) else None
    case Release(call) =>
      if call in s.calls && s.calls[call].Leaving? then Some(DoRelease(s, call, s.calls[call].result)) else None
    case Cancel(call) =>
      if call in s.calls && !s.calls[call].Done? then Some(DoCancel(s, call)) else None
  }

  /** All steps of a run, in order. */
  function Run(s: State, events: seq<Event>): Option<State>
    decreases events
  {
    if events == [] then Some(s)
    else
      match Step(s, events[0])
      case None => None
      case Some(next) => Run(next, events[1..])
  }

  // ---- what holds in every run ----

  /** A lock only disappears by expiry or by the release of the call that owns it. */
  lemma OnlyOwnerReleases(s: State, e: Event)
    requires Step(s, e).Some?
    requires !LockFree(s)
    requires !e.Tick?
    ensures Step(s, e).value.lock == s.lock || e == Release(s.lock.value.owner)
  {
  }

  ghost predicate InIdOrder(messages: seq<Message>) {
    forall i, j :: 0 <= i < j < |messages| ==> messages[i].id < messages[j].id
  }

  /** Ids number the puts; stream and deliveries come from the puts and cover them; a message is
      still in the stream exactly when no call has deleted it. */
  ghost predicate NothingLost(s: State) {
    && (forall i :: 0 <= i < |s.puts| ==> s.puts[i].id == i)
    && InIdOrder(s.stream)
    && (forall m :: m in s.stream ==> m in s.puts && m !in s.delivered)
    && (forall m :: m in s.puts ==> m in s.stream || m in s.delivered)
    && (forall m :: m in s.delivered ==> m in s.puts)
    && (forall c :: c in s.calls && s.calls[c].Chosen? ==> s.calls[c].message in s.puts)
  }

  /** `m` is what a call returned or is about to return. */
  ghost predicate ReturnedBy(s: State, c: Token, m: Message) {
    c in s.calls && (s.calls[c] == Leaving(Some(m)) || s.calls[c] == Done(Some(m)))
  }

  /** Every delivery is the result of a call, unless the call was cancelled with it. */
  ghost predicate DeliveriesReturned(s: State) {
    forall m :: m in s.delivered ==> m in s.dropped || exists c :: ReturnedBy(s, c, m)
  }

  lemma {:induction false} WithoutIsRemoval(stream: seq<Message>, message: Message)
    requires InIdOrder(stream)
    ensures forall m :: m in Without(stream, message) <==> m in stream && m != message
    ensures InIdOrder(Without(stream, message))
  {
    if stream != [] {
      assert forall m :: m in stream[1..] ==> m.id > stream[0].id;
      if stream[0] != message {
        WithoutIsRemoval(stream[1..], message);
        var rest := Without(stream[1..], message);
        assert forall i :: 0 <= i < |rest| ==> rest[i] in rest;
      }
    }
  }

  lemma PutLosesNothing(s: State, data: string)
    requires NothingLost(s)
    ensures NothingLost(DoPut(s, data))
  {
    var message := Message(|s.puts|, data);
    forall m | m in s.puts
      ensures m.id < |s.puts|
    {
      var i :| 0 <= i < |s.puts| && s.puts[i] == m;
    }
    assert message !in s.delivered;
  }

  lemma DeleteLosesNothing(s: State, call: Token, message: Message)
    requires NothingLost(s) && message in s.puts
    ensures NothingLost(DoDelete(s, call, message))
  {
    WithoutIsRemoval(s.stream, message);
    hide Without, InIdOrder;
  }

  lemma StepLosesNothing(s: State, e: Event)
    requires NothingLost(s)
    requires Step(s, e).Some?
    ensures NothingLost(Step(s, e).value)
  {
    match e
    case Put(data) =>
      PutLosesNothing(s, data);
    case Delete(call) =>
      DeleteLosesNothing(s, call, s.calls[call].message);
    case _ =>
      hide InIdOrder;
  }

  lemma StepReturnsDeliveries(s: State, e: Event)
    requires DeliveriesReturned(s)
    requires Step(s, e).Some?
    ensures DeliveriesReturned(Step(s, e).value)
  {
    var next := Step(s, e).value;
    forall m | m in next.delivered && m !in next.dropped
      ensures exists c :: ReturnedBy(next, c, m)
    {
      if m in s.delivered {
        assert m !in s.dropped;
        var c :| ReturnedBy(s, c, m);
        assert ReturnedBy(next, c, m);
      } else {
        assert ReturnedBy(next, e.call, m);
      }
    }
  }

  lemma {:induction false} RunLosesNothing(s: State, events: seq<Event>)
    requires NothingLost(s) && DeliveriesReturned(s)
    requires Run(s, events).Some?
    ensures NothingLost(Run(s, events).value) && DeliveriesReturned(Run(s, events).value)
    decreases events
  {
    if events != [] {
      StepLosesNothing(s, events[0]);
      StepReturnsDeliveries(s, events[0]);
      RunLosesNothing(Step(s, events[0]).value, events[1..]);
    }
  }

  /** However pops, puts, expiries and cancellations interleave, a message that left the stream is the
      result of some pop, or of one that was cancelled with it; one that did not is still there. */
  lemma NoMessageIsLost(events: seq<Event>, m: Message)
    requires Run(START, events).Some?
    ensures var s := Run(START, events).value;
            m in s.puts ==> m in s.stream || m in s.dropped || exists c :: ReturnedBy(s, c, m)
  {
    RunLosesNothing(START, events);
  }

  /** A call is cancelled between its delete and its return. */
  ghost predicate CancelledLate(s: State, e: Event) {
    e.Cancel? && e.call in s.calls && s.calls[e.call].Leaving? && s.calls[e.call].result.Some?
  }

  ghost predicate NeverCancelledLate(s: State, events: seq<Event>)
    requires Run(s, events).Some?
    decreases events
  {
    events == [] || (!CancelledLate(s, events[0]) && NeverCancelledLate(Step(s, events[0]).value, events[1..]))
  }

  lemma StepDrops(s: State, e: Event)
    requires Step(s, e).Some?
    ensures s.dropped <= Step(s, e).value.dropped
    ensures Step(s, e).value.dropped == s.dropped <==> !CancelledLate(s, e)
  {
  }

  lemma {:induction false} DropsIffCancelledLate(s: State, events: seq<Event>)
    requires Run(s, events).Some?
    ensures s.dropped <= Run(s, events).value.dropped
    ensures Run(s, events).value.dropped == s.dropped <==> NeverCancelledLate(s, events)
    decreases events
  {
    if events != [] {
      StepDrops(s, events[0]);
      hide Step, CancelledLate;
      DropsIffCancelledLate(Step(s, events[0]).value, events[1..]);
    }
  }

  /** Nothing is dropped exactly when no call is cancelled between its delete and its return. */
  lemma NothingDroppedIff(events: seq<Event>)
    requires Run(START, events).Some?
    ensures Run(START, events).value.dropped == [] <==> NeverCancelledLate(START, events)
  {
    DropsIffCancelledLate(START, events);
  }

  /** A list of states that steps link is a run. */
  lemma {:induction false} RunSteps(states: seq<State>, events: seq<Event>)
    requires |states| == |events| + 1
    requires forall i :: 0 <= i < |events| ==> Step(states[i], events[i]) == Some(states[i + 1])
    ensures Run(states[0], events) == Some(states[|events|])
  {
    if events != [] {
      RunSteps(states[1..], events[1..]);
    }
  }

  /** A pop that is cancelled after its delete: the message is neither in the stream nor returned. */
  lemma LateCancelLoses(data: string)
    ensures var events := [Put(data), TryLock(0), ReadFirst(0), Delete(0), Cancel(0), Release(0)];
            && Run(START, events).Some?
            && var s := Run(START, events).value;
               s.stream == [] && s.dropped == [Message(0, data)] && forall c :: !ReturnedBy(s, c, Message(0, data))
  {
    var m := Message(0, data);
    var s1 := DoPut(START, data);
    var s2 := DoTryLock(s1, 0, ACQUIRE_ATTEMPTS);
    var s3 := DoReadFirst(s2, 0, 0);
    var s4 := DoDelete(s3, 0, m);
    var s5 := DoCancel(s4, 0);
    var s6 := DoRelease(s5, 0, None);
    RunSteps([START, s1, s2, s3, s4, s5, s6], [Put(data), TryLock(0), ReadFirst(0), Delete(0), Cancel(0), Release(0)]);
    assert s6.calls == map[0 := Done(None)];
  }

  // ---- exactly once ----

  /** A delete that finds its message. */
  ghost predicate Effective(s: State, e: Event) {
    e.Delete? && e.call in s.calls && s.calls[e.call].Chosen? ==> s.calls[e.call].message in s.stream
  }

  ghost predicate AllEffective(s: State, events: seq<Event>)
    requires Run(s, events).Some?
    decreases events
  {
    events == [] || (Effective(s, events[0]) && AllEffective(Step(s, events[0]).value, events[1..]))
  }

  lemma {:induction false} DeliveriesGrow(s: State, events: seq<Event>)
    requires Run(s, events).Some?
    ensures s.delivered <= Run(s, events).value.delivered
    decreases events
  {
    if events != [] {
      DeliveriesGrow(Step(s, events[0]).value, events[1..]);
    }
  }

  lemma {:induction false} OnceIffEffectiveFrom(s: State, events: seq<Event>)
    requires NothingLost(s) && Distinct(s.delivered)
    requires Run(s, events).Some?
    ensures Distinct(Run(s, events).value.delivered) <==> AllEffective(s, events)
    decreases events
  {
    if events != [] {
      var e, next := events[0], Step(s, events[0]).value;
      StepLosesNothing(s, e);
      if Effective(s, e) {
        OnceIffEffectiveFrom(next, events[1..]);
      } else {
        var m := s.calls[e.call].message;
        assert m in s.delivered;
        var i :| 0 <= i < |s.delivered| && s.delivered[i] == m;
        DeliveriesGrow(next, events[1..]);
        assert next.delivered[i] == m && next.delivered[|s.delivered|] == m;
      }
    }
  }

  /** Each message is taken out at most once exactly when every delete found its message. */
  lemma OnceIffDeletesEffective(events: seq<Event>)
    requires Run(START, events).Some?
    ensures Distinct(Run(START, events).value.delivered) <==> AllEffective(START, events)
  {
    OnceIffEffectiveFrom(START, events);
  }

  // ---- first in, first out ----

  ghost predicate InTime(s: State, call: Call) {
    (call.Holding? || call.Chosen?) && s.now < call.acquiredAt + LOCK_EXPIRES
  }

  /** The step is not a delete by a call whose lock has expired. */
  ghost predicate Punctual(s: State, e: Event) {
    e.Delete? && e.call in s.calls && s.calls[e.call].Chosen? ==> InTime(s, s.calls[e.call])
  }

  ghost predicate AllPunctual(s: State, events: seq<Event>)
    requires Run(s, events).Some?
    decreases events
  {
    events == [] || (Punctual(s, events[0]) && AllPunctual(Step(s, events[0]).value, events[1..]))
  }

  /** A call that is still in time owns the lock and has read what is still the first message. */
  ghost predicate OwnersExclusive(s: State) {
    forall c :: c in s.calls && InTime(s, s.calls[c]) ==>
      && s.lock == Some(Lock(c, s.calls[c].acquiredAt + LOCK_EXPIRES))
      && (s.calls[c].Chosen? ==> s.stream != [] && s.stream[0] == s.calls[c].message)
  }

  ghost predicate Fifo(s: State) {
    s.delivered + s.stream == s.puts
  }

  lemma PunctualStepKeepsOrder(s: State, e: Event)
    requires OwnersExclusive(s) && Fifo(s)
    requires Step(s, e).Some? && Punctual(s, e)
    ensures OwnersExclusive(Step(s, e).value) && Fifo(Step(s, e).value)
    ensures Effective(s, e)
  {
  }

  lemma {:induction false} PunctualRunKeepsOrder(s: State, events: seq<Event>)
    requires OwnersExclusive(s) && Fifo(s)
    requires Run(s, events).Some? && AllPunctual(s, events)
    ensures OwnersExclusive(Run(s, events).value) && Fifo(Run(s, events).value)
    ensures AllEffective(s, events)
    decreases events
  {
    if events != [] {
      PunctualStepKeepsOrder(s, events[0]);
      PunctualRunKeepsOrder(Step(s, events[0]).value, events[1..]);
    }
  }

  /** If every delete happens before its lock expires, then what pops take out, in order, followed
      by what is left, is what was put; and no message is taken out twice. */
  lemma PunctualPopsAreFifo(events: seq<Event>)
    requires Run(START, events).Some? && AllPunctual(START, events)
    ensures var s := Run(START, events).value;
            s.delivered + s.stream == s.puts && Distinct(s.delivered)
  {
    PunctualRunKeepsOrder(START, events);
    OnceIffDeletesEffective(events);
  }

  /** At most one call that is in time is past its lock: the lock excludes. */
  lemma MutualExclusion(events: seq<Event>, c: Token, d: Token)
    requires Run(START, events).Some? && AllPunctual(START, events)
    requires var s := Run(START, events).value;
             && c in s.calls && d in s.calls && InTime(s, s.calls[c]) && InTime(s, s.calls[d])
    ensures c == d
  {
    PunctualRunKeepsOrder(START, events);
  }

  /** A reader that outlives its lock: both calls return the one message. */
  lemma LateDeleteDuplicates(data: string)
    ensures var events := [Put(data), TryLock(0), ReadFirst(0), Tick(LOCK_EXPIRES), TryLock(1), ReadFirst(1), Delete(0), Delete(1)];
            && Run(START, events).Some?
            && Run(START, events).value.delivered == [Message(0, data), Message(0, data)]
  {
    var m := Message(0, data);
    var s1 := DoPut(START, data);
    var s2 := DoTryLock(s1, 0, ACQUIRE_ATTEMPTS);
    var s3 := DoReadFirst(s2, 0, 0);
    var s4 := s3.(now := s3.now + LOCK_EXPIRES);
    var s5 := DoTryLock(s4, 1, ACQUIRE_ATTEMPTS);
    var s6 := DoReadFirst(s5, 1, LOCK_EXPIRES);
    var s7 := DoDelete(s6, 0, m);
    var s8 := DoDelete(s7, 1, m);
    assert s6.stream == [m] && s6.calls[0] == Chosen(0, m) && s6.calls[1] == Chosen(LOCK_EXPIRES, m);
    assert s8.delivered == [m, m];
    RunSteps([START, s1, s2, s3, s4, s5, s6, s7, s8],
             [Put(data), TryLock(0), ReadFirst(0), Tick(LOCK_EXPIRES), TryLock(1), ReadFirst(1), Delete(0), Delete(1)]);
  }

  // ---- undisturbed pops ----

  lemma {:induction false} RunSnoc(s: State, events: seq<Event>, e: Event)
    requires Run(s, events).Some?
    ensures Run(s, events + [e]) == Step(Run(s, events).value, e)
    decreases events
  {
    if events == [] {
      assert [] + [e] == [e] && [e][1..] == [];
    } else {
      assert (events + [e])[1..] == events[1..] + [e];
      RunSnoc(Step(s, events[0]).value, events[1..], e);
    }
  }

  /** A release by the call that owns an unexpired lock frees the lock at once. */
  lemma ReleaseFrees(s: State, call: Token)
    requires call in s.calls && s.calls[call].Leaving?
    requires s.lock.Some? && s.lock.value.owner == call && s.now < s.lock.value.expiresAt
    ensures var next := Step(s, Release(call));
            next.Some? && next.value.lock == None && LockFree(next.value) && next.value.stream == s.stream
  {
  }

  /** The lock cannot be taken before it expires: until then it names its owner. */
  lemma TakenUntilExpiry(s: State, call: Token, other: Token, elapsed: nat)
    requires LockFree(s) && AttemptsLeft(s, call).Some? && call != other && AttemptsLeft(s, other).Some?
    ensures var taken := Step(s, TryLock(call)).value;
            var later := Step(taken, Tick(elapsed)).value;
            && taken.calls[call] == Holding(s.now)
            && (Step(later, TryLock(other)).Some? ==> (Step(later, TryLock(other)).value.calls[other].Holding? <==> elapsed >= 10000))
  {
  }

  /** The steps of one pop, with time passing in between. */
  function PopSteps(s: State, call: Token, d1: nat, d2: nat, d3: nat): seq<Event> {
    [TryLock(call), Tick(d1), ReadFirst(call)] + (if s.stream == [] then [] else [Tick(d2), Delete(call)]) + [Tick(d3), Release(call)]
  }

  /** What a pop leaves that nobody disturbs. */
  ghost predicate PoppedFirst(s: State, call: Token, s': State) {
    && call in s'.calls && s'.calls[call] == Done(if s.stream == [] then None else Some(s.stream[0]))
    && s'.stream == (if s.stream == [] then [] else s.stream[1..])
    && s'.puts == s.puts && LockFree(s')
    && forall c :: c != call ==> (c in s'.calls <==> c in s.calls) && (c in s.calls ==> s'.calls[c] == s.calls[c])
  }

  lemma UndisturbedOnEmpty(s: State, call: Token, d1: nat, d3: nat)
    requires LockFree(s) && call !in s.calls && s.stream == []
    ensures var end := Run(s, [TryLock(call), Tick(d1), ReadFirst(call), Tick(d3), Release(call)]);
            end.Some? && PoppedFirst(s, call, end.value)
  {
    hide Run;
    var s1 := DoTryLock(s, call, ACQUIRE_ATTEMPTS);
    var s2 := s1.(now := s1.now + d1);
    var s3 := DoReadFirst(s2, call, s.now);
    var s4 := s3.(now := s3.now + d3);
    var s5 := DoRelease(s4, call, None);
    assert PoppedFirst(s, call, s5);
    RunSteps([s, s1, s2, s3, s4, s5], [TryLock(call), Tick(d1), ReadFirst(call), Tick(d3), Release(call)]);
  }

  /** The states of an undisturbed pop that finds a message. */
  function PopStates(s: State, call: Token, d1: nat, d2: nat, d3: nat): (states: seq<State>)
    requires s.stream != []
    ensures |states| == 8 && states[0] == s
  {
    var s1 := DoTryLock(s, call, ACQUIRE_ATTEMPTS);
    var s2 := s1.(now := s1.now + d1);
    var s3 := DoReadFirst(s2, call, s.now);
    var s4 := s3.(now := s3.now + d2);
    var s5 := DoDelete(s4, call, s.stream[0]);
    var s6 := s5.(now := s5.now + d3);
    [s, s1, s2, s3, s4, s5, s6, DoRelease(s6, call, Some(s.stream[0]))]
  }

  lemma PopStatesFollow(s: State, call: Token, d1: nat, d2: nat, d3: nat)
    requires LockFree(s) && call !in s.calls && s.stream != []
    ensures var states := PopStates(s, call, d1, d2, d3);
            var events := [TryLock(call), Tick(d1), ReadFirst(call), Tick(d2), Delete(call), Tick(d3), Release(call)];
            && (forall i :: 0 <= i < 7 ==> Step(states[i], events[i]) == Some(states[i + 1]))
            && PoppedFirst(s, call, states[7])
  {
    var states := PopStates(s, call, d1, d2, d3);
    assert states[4].calls[call] == Chosen(s.now, s.stream[0]);
    assert Without(s.stream, s.stream[0]) == s.stream[1..];
  }

  /** A pop that meets a free lock and is not disturbed returns the first message, leaves the others and
      leaves the lock free, however long it takes. */
  lemma UndisturbedPop(s: State, call: Token, d1: nat, d2: nat, d3: nat)
    requires LockFree(s) && call !in s.calls
    ensures var end := Run(s, PopSteps(s, call, d1, d2, d3)); end.Some? && PoppedFirst(s, call, end.value)
  {
    if s.stream == [] {
      UndisturbedOnEmpty(s, call, d1, d3);
      assert PopSteps(s, call, d1, d2, d3) == [TryLock(call), Tick(d1), ReadFirst(call), Tick(d3), Release(call)];
    } else {
      hide Run, Step, PoppedFirst, PopStates;
      PopStatesFollow(s, call, d1, d2, d3);
      RunSteps(PopStates(s, call, d1, d2, d3), [TryLock(call), Tick(d1), ReadFirst(call), Tick(d2), Delete(call), Tick(d3), Release(call)]);
      assert PopSteps(s, call, d1, d2, d3)
          == [TryLock(call), Tick(d1), ReadFirst(call), Tick(d2), Delete(call), Tick(d3), Release(call)];
    }
  }

  datatype Timing = Timing(call: Token, beforeRead: nat, beforeDelete: nat, beforeRelease: nat)

  /** One undisturbed pop after the other. */
  function PopsInTurn(s: State, pops: seq<Timing>): seq<Event>
    decreases pops
  {
    if pops == [] then []
    else
      var steps := PopSteps(s, pops[0].call, pops[0].beforeRead, pops[0].beforeDelete, pops[0].beforeRelease);
      match Run(s, steps)
      case None => steps
      case Some(next) => steps + PopsInTurn(next, pops[1..])
  }

  lemma {:induction false} RunConcat(s: State, first: seq<Event>, rest: seq<Event>)
    requires Run(s, first).Some?
    ensures Run(s, first + rest) == Run(Run(s, first).value, rest)
    decreases first
  {
    if first == [] {
      assert first + rest == rest;
    } else {
      assert (first + rest)[1..] == first[1..] + rest;
      RunConcat(Step(s, first[0]).value, first[1..], rest);
    }
  }

  /** Calls with tokens of their own that have not started. */
  ghost predicate Unstarted(s: State, pops: seq<Timing>) {
    && (forall i :: 0 <= i < |pops| ==> pops[i].call !in s.calls)
    && forall i, j :: 0 <= i < j < |pops| ==> pops[i].call != pops[j].call
  }

  /** The calls returned the messages of the stream in order, and nothing once it was empty. */
  ghost predicate ReturnedInOrder(s: State, pops: seq<Timing>, s': State) {
    && LockFree(s')
    && s'.stream == (if |pops| <= |s.stream| then s.stream[|pops|..] else [])
    && (forall i :: 0 <= i < |pops| ==>
          && pops[i].call in s'.calls && s'.calls[pops[i].call] == Done(if i < |s.stream| then Some(s.stream[i]) else None))
    && forall c :: c in s.calls ==> c in s'.calls && s'.calls[c] == s.calls[c]
  }

  lemma InOrderStep(s: State, next: State, end: State, pops: seq<Timing>)
    requires pops != [] && PoppedFirst(s, pops[0].call, next) && ReturnedInOrder(next, pops[1..], end) && pops[0].call !in s.calls
    ensures ReturnedInOrder(s, pops, end)
  {
    forall i | 0 <= i < |pops|
      ensures pops[i].call in end.calls && end.calls[pops[i].call] == Done(if i < |s.stream| then Some(s.stream[i]) else None)
    {
      if i > 0 {
        assert pops[i] == pops[1..][i - 1];
      }
    }
  }

  /** Pops that follow each other undisturbed return the first messages of the stream, one each. */
  lemma {:induction false} PopsReturnInOrder(s: State, pops: seq<Timing>)
    requires LockFree(s) && Unstarted(s, pops)
    ensures var end := Run(s, PopsInTurn(s, pops)); end.Some? && ReturnedInOrder(s, pops, end.value)
    decreases pops
  {
    if pops != [] {
      var pop := pops[0];
      var steps := PopSteps(s, pop.call, pop.beforeRead, pop.beforeDelete, pop.beforeRelease);
      UndisturbedPop(s, pop.call, pop.beforeRead, pop.beforeDelete, pop.beforeRelease);
      var next := Run(s, steps).value;
      PopsReturnInOrder(next, pops[1..]);
      RunConcat(s, steps, PopsInTurn(next, pops[1..]));
      InOrderStep(s, next, Run(next, PopsInTurn(next, pops[1..])).value, pops);
      hide PoppedFirst, ReturnedInOrder, PopSteps;
    }
  }

  function Puts(data: seq<string>): seq<Event> {
    seq(|data|, i requires 0 <= i < |data| => Put(data[i]))
  }

  lemma {:induction false} PutsFill(data: seq<string>)
    ensures Run(START, Puts(data)).Some?
    ensures var s := Run(START, Puts(data)).value;
            && s.stream == s.puts == seq(|data|, i requires 0 <= i < |data| => Message(i, data[i]))
            && s.lock == None && s.calls == map[]
  {
    if data != [] {
      var early := data[..|data| - 1];
      PutsFill(early);
      assert Puts(data) == Puts(early) + [Put(data[|early|])];
      RunSnoc(START, Puts(early), Put(data[|early|]));
    }
  }

  /** What was put is popped in order: the i-th of any number of undisturbed pops returns the i-th
      message that was put, and further ones nothing. */
  lemma PutThenPop(data: seq<string>, pops: seq<Timing>)
    requires forall i, j :: 0 <= i < j < |pops| ==> pops[i].call != pops[j].call
    ensures Run(START, Puts(data)).Some?
    ensures var full := Run(START, Puts(data)).value;
            var end := Run(START, Puts(data) + PopsInTurn(full, pops));
            && end.Some?
            && forall i :: 0 <= i < |pops| ==>
                 && pops[i].call in end.value.calls
                 && end.value.calls[pops[i].call] == Done(if i < |data| then Some(Message(i, data[i])) else None)
  {
    PutsFill(data);
    var full := Run(START, Puts(data)).value;
    PopsReturnInOrder(full, pops);
    RunConcat(START, Puts(data), PopsInTurn(full, pops));
  }

  /** A cancelled call returns nothing: at once while it waits for the lock, otherwise after its release,
      which frees the lock if it is still its own. Stream and other calls stay as they are. */
  lemma CancelledReturnsNothing(s: State, call: Token)
    requires call in s.calls && !s.calls[call].Done?
    ensures var end := Run(s, if s.calls[call].Waiting? then [Cancel(call)] else [Cancel(call), Release(call)]);
            && end.Some? && end.value.calls == s.calls[call := Done(None)]
            && end.value.stream == s.stream && end.value.now == s.now
            && end.value.lock == (if !s.calls[call].Waiting? && !LockFree(s) && s.lock.value.owner == call then None else s.lock)
            && end.value.dropped == s.dropped + if s.calls[call].Leaving? && s.calls[call].result.Some? then [s.calls[call].result.value] else []
  {
    assert [Cancel(call), Release(call)][1..] == [Release(call)] && [Release(call)][1..] == [] && [Cancel(call)][1..] == [];
    var s' := DoCancel(s, call);
    assert s'.calls[call := Done(None)] == s.calls[call := Done(None)];
    assert Run(s', []) == Some(s');
    if !s.calls[call].Waiting? {
      var s'' := DoRelease(s', call, None);
      assert Run(s'', []) == Some(s'') && Run(s', [Release(call)]) == Some(s'');
    }
  }

  /** A call that finds the lock held at each of `n` attempts waits on, or after the last one gives up
      with nothing. */
  lemma {:induction false} HeldLockRefuses(s: State, call: Token, n: nat)
    requires !LockFree(s) && call !in s.calls && 1 <= n <= ACQUIRE_ATTEMPTS
    ensures var end := Run(s, seq(n, i => TryLock(call)));
            end == Some(s.(calls := s.calls[call := if n == ACQUIRE_ATTEMPTS then Done(None) else Waiting(ACQUIRE_ATTEMPTS - n)]))
  {
    var events := seq(n, i => TryLock(call));
    if n == 1 {
      assert events == [TryLock(call)] && events[1..] == [];
    } else {
      HeldLockRefuses(s, call, n - 1);
      var before := seq(n - 1, i => TryLock(call));
      assert events == before + [TryLock(call)];
      RunSnoc(s, before, TryLock(call));
      var waiting := Run(s, before).value;
      var now := if n == ACQUIRE_ATTEMPTS then Done(None) else Waiting(ACQUIRE_ATTEMPTS - n);
      assert waiting.calls[call := now] == s.calls[call := now];
      assert Step(waiting, TryLock(call)) == Some(waiting.(calls := waiting.calls[call := now]));
    }
  }

  // ---- the code of one pop ----

  ghost predicate OnlyTimePassed(s: State, s': State) {
    s.now <= s'.now && s' == s.(now := s'.now)
  }

  /** A pop that takes a free lock at once, and between whose steps only time passes. */
  lemma QuietPop(s: State, call: Token, locked: State, read: State, waited: State, taken: State, left: State)
    requires LockFree(s) && call !in s.calls && OnlyTimePassed(DoTryLock(s, call, ACQUIRE_ATTEMPTS), locked)
    requires Step(locked, ReadFirst(call)) == Some(read)
    requires if call in read.calls && read.calls[call].Chosen? then OnlyTimePassed(read, waited) && Step(waited, Delete(call)) == Some(taken)
             else taken == read
    requires OnlyTimePassed(taken, left)
    ensures Step(left, Release(call)).Some? && PoppedFirst(s, call, Step(left, Release(call)).value)
  {
  }

  /** One queue, as all its clients see it. */
  class RedisStreamMessageQueue {
    var state: State
    ghost var trace: seq<Event>

    /** What happened so far is a run. */
    ghost predicate Valid()
      reads this
    {
      Run(START, trace) == Some(state)
    }

    constructor ()
      ensures Valid() && state == START
    {
      state, trace := START, [];
    }

    /** Performs one step. */
    method Perform(e: Event)
      requires Valid() && Step(state, e).Some?
      modifies this
      ensures Valid() && state == Step(old(state), e).value && old(trace) < trace
    {
      RunSnoc(START, trace, e);
      state, trace := Step(state, e).value, trace + [e];
    }

    /** Between two steps of one call, others may take any steps of theirs. */
    method Interfere(call: Token, others: seq<Event>)
      requires Valid() && call in state.calls
      modifies this
      ensures Valid() && old(trace) <= trace
      ensures call in state.calls && state.calls[call] == old(state.calls[call])
      ensures (forall e :: e in others ==> e.Tick?) ==> OnlyTimePassed(old(state), state)
      ensures |others| == 1 && others[0].Tick? ==> state.now == old(state.now) + others[0].elapsed
    {
      for i := 0 to |others|
        invariant Valid() && old(trace) <= trace
        invariant call in state.calls && state.calls[call] == old(state.calls[call])
        invariant (forall e :: e in others ==> e.Tick?) ==> OnlyTimePassed(old(state), state)
        invariant |others| == 1 && others[0].Tick? ==> state.now == old(state.now) + if i == 0 then 0 else others[0].elapsed
      {
        var e := others[i];
        if (e.Put? || e.Tick? || e.call != call) && Step(state, e).Some? {
          Perform(e);
        }
      }
    }

    method Put(data: string) returns (id: nat)
      requires Valid()
      modifies this
      ensures Valid() && state == DoPut(old(state), data)
      ensures state.stream == old(state.stream) + [Message(id, data)]
    {
      id := |state.puts|;
      Perform(Event.Put(data));
    }

    /** Tries the lock until it is taken or the time is used up. */
    method AcquireLock(call: Token, schedule: seq<seq<Event>>) returns (locked: bool, attempts: nat)
      requires Valid() && call !in state.calls
      modifies this
      ensures Valid() && call in state.calls
      ensures if locked then state.calls[call].Holding? else state.calls[call] == Done(None)
      ensures 1 <= attempts <= ACQUIRE_ATTEMPTS
      ensures !locked ==> attempts == ACQUIRE_ATTEMPTS
      ensures old(LockFree(state)) ==> locked && state == DoTryLock(old(state), call, ACQUIRE_ATTEMPTS)
      ensures schedule == [] ==> state.now == old(state.now) + 100 * (attempts - 1)
    {
      Perform(TryLock(call));
      attempts := 1;
      while state.calls[call].Waiting?
        invariant Valid() && call in state.calls
        invariant !state.calls[call].Leaving? && !state.calls[call].Chosen?
        invariant state.calls[call].Done? ==> state.calls[call].result == None && attempts == ACQUIRE_ATTEMPTS
        invariant state.calls[call].Waiting? ==>
                    state.calls[call].attempts > 0 && state.calls[call].attempts + attempts == ACQUIRE_ATTEMPTS
        invariant 1 <= attempts <= ACQUIRE_ATTEMPTS
        invariant old(LockFree(state)) ==> state == DoTryLock(old(state), call, ACQUIRE_ATTEMPTS) && state.calls[call].Holding?
        invariant schedule == [] ==> state.now == old(state.now) + 100 * (attempts - 1)
        decreases if state.calls[call].Waiting? then state.calls[call].attempts else 0
      {
        Interfere(call, if attempts < |schedule| then schedule[attempts] else [Tick(100)]);
        Perform(TryLock(call));
        attempts := attempts + 1;
      }
      locked := state.calls[call].Holding?;
    }

    /** A whole pop, with arbitrary steps of others between its own. */
    method Pop(call: Token, schedule: seq<seq<Event>>, beforeRead: seq<Event>, beforeDelete: seq<Event>, beforeRelease: seq<Event>)
      returns (result: Option<Message>)
      requires Valid() && call !in state.calls
      modifies this
      ensures Valid() && call in state.calls && state.calls[call] == Done(result)
      ensures old(LockFree(state)) && (forall e :: e in beforeRead + beforeDelete + beforeRelease ==> e.Tick?) ==>
                PoppedFirst(old(state), call, state)
    {
      ghost var free := LockFree(state) && forall e :: e in beforeRead + beforeDelete + beforeRelease ==> e.Tick?;
      ghost var before := state;
      var locked, attempts := AcquireLock(call, schedule);
      if !locked {
        return None;
      }
      hide LockFree, PoppedFirst, OnlyTimePassed, DoTryLock;
      Interfere(call, beforeRead);
      ghost var held := state;
      Perform(ReadFirst(call));
      ghost var read, waited := state, state;
      if state.calls[call].Chosen? {
        Interfere(call, beforeDelete);
        waited := state;
        Perform(Delete(call));
      }
      ghost var taken := state;
      Interfere(call, beforeRelease);
      result := state.calls[call].result;
      ghost var left := state;
      Perform(Release(call));
      if free {
        QuietPop(before, call, held, read, waited, taken, left);
      }
    }
  }
}
