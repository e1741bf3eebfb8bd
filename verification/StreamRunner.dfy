/**
 The consumer of a graph's event stream, raced against the graph's completion (`run_stream_with_config` in
 `agent/agent-core/src/runner_common.rs`). Time counts polls.
 */
module StreamRunner {
  import opened Wrappers

  datatype StreamEvent<S> = Values(state: S) | Other(text: string)

  datatype GraphError = Cancelled | ExecutionFailed(text: string)

  /** How the graph's run ended: its result, or the reason for which it could not be joined. */
  datatype Completion = Joined(result: Result<(), GraphError>) | NotJoined(reason: string)

  datatype StreamRunOutcome<S> = Finished(state: S) | WasCancelled

  datatype StreamRunError = Execution(error: GraphError) | StreamEndedWithoutState

  /**
   What the consumer meets: everything ever sent, how much of it has arrived by each poll, whether all senders are gone,
   whether the channel turns a poll away although something is buffered, and the poll at which completion is ready.
   */
  datatype Schedule<!S> = Schedule(
    events: seq<StreamEvent<S>>,
    arrived: nat -> nat,
    closed: nat -> bool,
    refuses: nat -> bool,
    doneAt: nat,
    completion: Completion)

  /** Arrivals only grow, and a closed channel has had everything. A leaked sender keeps `closed` false for ever. */
  ghost predicate IsSchedule<S(!new)>(s: Schedule<S>) {
    && (forall t: nat, u: nat | t <= u :: s.arrived(t) <= s.arrived(u))
    && (forall t: nat :: s.arrived(t) <= |s.events|)
    && (forall t: nat | s.closed(t) :: s.arrived(t) == |s.events|)
  }

  /** Number of events handed on once completion was seen: the loop polls without waiting. */
  function Drained<S>(s: Schedule<S>, t: nat, k: nat): nat
    decreases |s.events| - k
  {
    if k < |s.events| && k < s.arrived(t) && !s.refuses(t) then Drained(s, t + 1, k + 1) else k
  }

  /** The same before completion is seen: it is polled first, then the stream. */
  function Raced<S>(s: Schedule<S>, t: nat, k: nat): nat
    decreases s.doneAt - t
  {
    if t >= s.doneAt then Drained(s, t + 1, k)
    else if s.refuses(t) then Raced(s, t + 1, k)
    else if k < s.arrived(t) then Raced(s, t + 1, k + 1)
    else if s.closed(t) then k
    else Raced(s, t + 1, k)
  }

  function Delivered<S>(s: Schedule<S>): nat {
    Raced(s, 0, 0)
  }

  /** The state of the last `Values` event. */
  function LastState<S>(events: seq<StreamEvent<S>>): Option<S> {
    if events == [] then None
    else if events[|events| - 1].Values? then Some(events[|events| - 1].state)
    else LastState(events[..|events| - 1])
  }

  lemma OneEventMore<S>(events: seq<StreamEvent<S>>, k: nat)
    requires k < |events|
    ensures events[..k + 1] == events[..k] + [events[k]]
    ensures LastState(events[..k] + [events[k]]) ==
            if events[k].Values? then Some(events[k].state) else LastState(events[..k])
  {
    assert (events[..k] + [events[k]])[..k] == events[..k];
  }

  lemma MoreArrives<S(!new)>(s: Schedule<S>, t: nat)
    requires IsSchedule(s)
    ensures s.arrived(t) <= s.arrived(t + 1) <= |s.events|
  {
  }

  function Outcome<S>(completion: Completion, last: Option<S>): Result<StreamRunOutcome<S>, StreamRunError> {
    match completion
    case Joined(Ok(_)) => if last.Some? then Ok(Finished(last.value)) else Err(StreamEndedWithoutState)
    case Joined(Err(Cancelled)) => Ok(WasCancelled)
    case Joined(Err(e)) => Err(Execution(e))
    case NotJoined(reason) => Err(Execution(ExecutionFailed("graph stream task failed: " + reason)))
  }

  /** Terminates although a leaked sender may never close the channel. */
  method RunStream<S(!new)>(s: Schedule<S>)
    returns (handed: seq<StreamEvent<S>>, outcome: Result<StreamRunOutcome<S>, StreamRunError>)
    requires IsSchedule(s)
    ensures Delivered(s) <= |s.events| && handed == s.events[..Delivered(s)]
    ensures outcome == Outcome(s.completion, LastState(handed))
  {
    handed := [];
    var finalState: Option<S> := None;
    var completionResult: Option<Completion> := None;
    var completionConsumed := false;
    var t: nat := 0;
    while true
      invariant |handed| <= s.arrived(t) <= |s.events| && handed == s.events[..|handed|]
      invariant finalState == LastState(handed)
      invariant completionConsumed ==> t > s.doneAt && completionResult == Some(s.completion)
      invariant !completionConsumed ==> t <= s.doneAt && completionResult.None?
      invariant Delivered(s) == if completionConsumed then Drained(s, t, |handed|) else Raced(s, t, |handed|)
      decreases !completionConsumed, if completionConsumed then |s.events| - |handed| else s.doneAt - t
    {
      MoreArrives(s, t);
      var event: Option<StreamEvent<S>>;
      if completionConsumed {
        event := if |handed| < s.arrived(t) && !s.refuses(t) then Some(s.events[|handed|]) else None;
      } else if t >= s.doneAt {
        completionResult := Some(s.completion);
        completionConsumed := true;
        t := t + 1;
        continue;
      } else if s.refuses(t) || (|handed| == s.arrived(t) && !s.closed(t)) {
        // nothing is ready: the select waits
        t := t + 1;
        continue;
      } else {
        event := if |handed| < s.arrived(t) then Some(s.events[|handed|]) else None;
      }
      if event.None? {
        break;
      }
      if event.value.Values? {
        finalState := Some(event.value.state);
      }
      OneEventMore(s.events, |handed|);
      handed := handed + [event.value];
      t := t + 1;
    }
    var joined := completionResult.UnwrapOr(s.completion);
    outcome := Outcome(joined, finalState);
  }

  // ----- what is delivered -----

  /** Everything was sent before the run ended. */
  ghost predicate SentInTime<S>(s: Schedule<S>) {
    s.arrived(s.doneAt) == |s.events|
  }

  /** Events that have been handed on when completion is seen, or when the stream ends before. */
  function AtCompletion<S>(s: Schedule<S>, t: nat, k: nat): nat
    decreases s.doneAt - t
  {
    if t >= s.doneAt then k
    else if s.refuses(t) then AtCompletion(s, t + 1, k)
    else if k < s.arrived(t) then AtCompletion(s, t + 1, k + 1)
    else if s.closed(t) then k
    else AtCompletion(s, t + 1, k)
  }

  /** Draining gets everything exactly when no poll is turned away while something is left. */
  lemma {:induction false} DrainsAllExactly<S(!new)>(s: Schedule<S>, t: nat, k: nat)
    requires IsSchedule(s) && SentInTime(s) && t >= s.doneAt && k <= |s.events|
    ensures k <= Drained(s, t, k) <= |s.events|
    ensures Drained(s, t, k) == |s.events| <==> forall u: nat | t <= u < t + |s.events| - k :: !s.refuses(u)
    decreases |s.events| - k
  {
    assert s.arrived(t) == |s.events|;
    if k < |s.events| && !s.refuses(t) {
      DrainsAllExactly(s, t + 1, k + 1);
    }
  }

  /** The race delivers everything exactly when the final drain does; polls turned away before completion do no harm. */
  lemma {:induction false} RacesAllExactly<S(!new)>(s: Schedule<S>, t: nat, k: nat)
    requires IsSchedule(s) && SentInTime(s) && t <= s.doneAt && k <= |s.events|
    ensures k <= AtCompletion(s, t, k) <= |s.events|
    ensures Raced(s, t, k) == |s.events| <==>
              forall u: nat | s.doneAt < u <= s.doneAt + |s.events| - AtCompletion(s, t, k) :: !s.refuses(u)
    decreases s.doneAt - t
  {
    if t == s.doneAt {
      DrainsAllExactly(s, t + 1, k);
    } else if s.refuses(t) {
      RacesAllExactly(s, t + 1, k);
    } else if k < s.arrived(t) {
      RacesAllExactly(s, t + 1, k + 1);
    } else if !s.closed(t) {
      RacesAllExactly(s, t + 1, k);
    }
  }

  /** Every event is handed on exactly when no poll after completion is turned away while events are buffered. */
  lemma AllDeliveredExactly<S(!new)>(s: Schedule<S>)
    requires IsSchedule(s) && SentInTime(s)
    ensures Delivered(s) == |s.events| <==>
              forall u: nat | s.doneAt < u <= s.doneAt + |s.events| - AtCompletion(s, 0, 0) :: !s.refuses(u)
  {
    RacesAllExactly(s, 0, 0);
  }

  ghost predicate AnswersReadyPolls<S>(s: Schedule<S>) {
    forall t: nat :: !s.refuses(t)
  }

  /** Two schedules of the same run hand on the same events and end with the same outcome. */
  lemma ScheduleDoesNotMatter<S(!new)>(s: Schedule<S>, u: Schedule<S>)
    requires IsSchedule(s) && SentInTime(s) && AnswersReadyPolls(s)
    requires IsSchedule(u) && SentInTime(u) && AnswersReadyPolls(u)
    requires s.events == u.events && s.completion == u.completion
    ensures Delivered(s) == Delivered(u) == |s.events|
    ensures Outcome(s.completion, LastState(s.events[..Delivered(s)])) == Outcome(u.completion, LastState(u.events))
  {
    assert s.events[..|s.events|] == s.events;
    AllDeliveredExactly(s);
    AllDeliveredExactly(u);
  }

  /** Without that promise, what had arrived at completion is still handed on when no poll is turned away. */
  lemma {:induction false} ArrivedIsDelivered<S(!new)>(s: Schedule<S>, t: nat, k: nat)
    requires IsSchedule(s) && AnswersReadyPolls(s) && k <= |s.events|
    ensures k <= Drained(s, t, k)
    ensures t >= s.doneAt ==> Drained(s, t, k) >= s.arrived(s.doneAt)
    decreases |s.events| - k
  {
    if t >= s.doneAt {
      assert s.arrived(s.doneAt) <= s.arrived(t);
    }
    if k < |s.events| && k < s.arrived(t) {
      ArrivedIsDelivered(s, t + 1, k + 1);
    }
  }

  lemma {:induction false} ArrivedIsRaced<S(!new)>(s: Schedule<S>, t: nat, k: nat)
    requires IsSchedule(s) && AnswersReadyPolls(s) && k <= |s.events|
    ensures Raced(s, t, k) >= s.arrived(s.doneAt)
    decreases s.doneAt - t
  {
    if t >= s.doneAt {
      ArrivedIsDelivered(s, t + 1, k);
    } else if k < s.arrived(t) {
      ArrivedIsRaced(s, t + 1, k + 1);
    } else if !s.closed(t) {
      ArrivedIsRaced(s, t + 1, k);
    } else {
      assert s.arrived(t) <= s.arrived(s.doneAt);
    }
  }

  /** An event sent by a leaked sender is lost when the buffer was found empty first. */
  lemma {:induction false} LateEventsAreLost<S(!new)>(s: Schedule<S>, t: nat, k: nat)
    requires IsSchedule(s) && AnswersReadyPolls(s) && k <= s.arrived(t)
    requires forall u: nat | t <= u <= t + s.arrived(t) - k :: s.arrived(u) == s.arrived(t)
    ensures Drained(s, t, k) == s.arrived(t)
    decreases |s.events| - k
  {
    if k < s.arrived(t) {
      assert s.arrived(t + 1) == s.arrived(t);
      LateEventsAreLost(s, t + 1, k + 1);
    }
  }

  // ----- how a run ends -----

  /** `n` is the last of the events that carries a state. */
  predicate LastValues<S>(events: seq<StreamEvent<S>>, n: int) {
    0 <= n < |events| && events[n].Values? && forall m | n < m < |events| :: events[m].Other?
  }

  lemma {:induction false} LastStateIsTheLast<S>(events: seq<StreamEvent<S>>, n: int)
    ensures LastValues(events, n) ==> LastState(events) == Some(events[n].state)
    ensures LastState(events).None? <==> forall m | 0 <= m < |events| :: events[m].Other?
  {
    if events != [] {
      var k := |events| - 1;
      LastStateIsTheLast(events[..k], n);
      assert events == events[..k] + [events[k]];
      if LastValues(events, n) && n < k {
        assert LastValues(events[..k], n);
      }
    }
  }

  predicate Succeeded(completion: Completion) {
    completion.Joined? && completion.result.Ok?
  }

  /**
   How a run ends, for every schedule: finished with the state of the last `Values` event handed on, exactly if the
   graph succeeded and there was one; cancelled exactly if the graph was; and otherwise with the graph's own error, or
   the reason for which it could not be joined.
   */
  lemma EndsExactly<S(!new)>(s: Schedule<S>)
    requires IsSchedule(s) && Delivered(s) <= |s.events|
    ensures var handed := s.events[..Delivered(s)];
            var end := Outcome(s.completion, LastState(handed));
            && (end.Ok? && end.value.Finished? <==> Succeeded(s.completion) && exists m :: LastValues(handed, m))
            && (forall m | LastValues(handed, m) && Succeeded(s.completion) :: end == Ok(Finished(handed[m].state)))
            && (end == Err(StreamEndedWithoutState) <==>
                  Succeeded(s.completion) && forall m | 0 <= m < |handed| :: handed[m].Other?)
            && (end == Ok(WasCancelled) <==> s.completion == Joined(Err(Cancelled)))
    ensures var end := Outcome(s.completion, LastState(s.events[..Delivered(s)]));
            && (s.completion.Joined? && s.completion.result.Err? && s.completion.result.error.ExecutionFailed? ==>
                  end == Err(Execution(s.completion.result.error)))
            && (s.completion.NotJoined? ==>
                  end == Err(Execution(ExecutionFailed("graph stream task failed: " + s.completion.reason))))
  {
    var handed := s.events[..Delivered(s)];
    LastStateIsTheLast(handed, 0);
    if LastState(handed).Some? {
      var m := SomeLast(handed);
    }
    forall m | LastValues(handed, m) ensures LastState(handed) == Some(handed[m].state) {
      LastStateIsTheLast(handed, m);
    }
  }

  lemma {:induction false} SomeLast<S>(events: seq<StreamEvent<S>>) returns (n: nat)
    requires LastState(events).Some?
    ensures LastValues(events, n)
  {
    var k := |events| - 1;
    if events[k].Values? {
      n := k;
    } else {
      n := SomeLast(events[..k]);
    }
  }
}
