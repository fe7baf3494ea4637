/**
 * The tool-call polling loop (`process_tool_calls`, core_functions.py,
 * lines 125-170).
 *
 * The provider is replaced by the sequence of run-status snapshots that the
 * successive `runs.retrieve` calls return; the loop consumes one snapshot per
 * iteration, so the sequence also bounds the otherwise unbounded loop. What the
 * loop does to the outside world is recorded as a trace of events. Handlers,
 * JSON decoding and JSON encoding are function-valued parameters.
 */
module ToolDispatch {
  import opened Wrappers
  import ReplyCleaning

  const StatusCompleted := "completed"
  const StatusRequiresAction := "requires_action"
  const StatusFailed := "failed"

  /** One pending call of `required_action.submit_tool_outputs.tool_calls`. */
  datatype ToolCall = ToolCall(id: string, name: string, arguments: string)

  /**
   * What one `runs.retrieve` returns: the status, the pending tool calls (read
   * only when the status is "requires_action") and the text of the thread's
   * latest message (read only when the status is "completed").
   */
  datatype Snapshot = Snapshot(status: string, toolCalls: seq<ToolCall>, latestMessage: string)

  /**
   * `tool_data["function_map"]` and the JSON codec: `parse` is `json.loads`
   * (None when it raises `JSONDecodeError`), `emptyArguments` is `{}` and
   * `dumps` is `json.dumps`.
   */
  datatype Toolbox<!A, !O> = Toolbox(
    functionMap: map<string, A -> O>,
    parse: string -> Option<A>,
    emptyArguments: A,
    dumps: O -> string)

  /**
   * The loop's result: `{"response": text, "status": "completed"}`,
   * `{"response": "error", "status": "failed"}`, or, when the snapshots run out
   * first, no result yet (the request is still blocked in the loop).
   */
  datatype Outcome = Completed(response: string) | Failed | StillPolling

  /** The loop's effects on the provider, the handlers and the clock. */
  datatype Event<A> =
    | Retrieve                                      // runs.retrieve
    | ListMessages                                  // messages.list
    | Invoke(name: string, arguments: A)            // function_to_call(arguments)
    | Submit(toolCallId: string, output: string)    // runs.submit_tool_outputs, one output
    | Sleep                                         // time.sleep(4)

  datatype PollResult<A> = PollResult(outcome: Outcome, events: seq<Event<A>>)

  predicate IsTerminal(status: string) {
    status == StatusCompleted || status == StatusFailed
  }

  /** The decoded arguments, or `{}` when decoding fails. */
  function ArgumentsOf<A, O>(tb: Toolbox<A, O>, call: ToolCall): A {
    match tb.parse(call.arguments)
    case Some(a) => a
    case None => tb.emptyArguments
  }

  /** What the handler registered for `call` submits as its output. */
  function OutputOf<A, O>(tb: Toolbox<A, O>, call: ToolCall): string
    requires call.name in tb.functionMap
  {
    tb.dumps(tb.functionMap[call.name](ArgumentsOf(tb, call)))
  }

  /** The effects of one tool call of a "requires_action" round. */
  function CallEvents<A, O>(tb: Toolbox<A, O>, call: ToolCall): seq<Event<A>> {
    if call.name in tb.functionMap then
      [Invoke(call.name, ArgumentsOf(tb, call)), Submit(call.id, OutputOf(tb, call))]
    else
      []
  }

  /** The effects of a "requires_action" round over `calls`, in order. */
  function RoundEvents<A, O>(tb: Toolbox<A, O>, calls: seq<ToolCall>): seq<Event<A>>
    decreases |calls|
  {
    if calls == [] then []
    else RoundEvents(tb, calls[..|calls| - 1]) + CallEvents(tb, calls[|calls| - 1])
  }

  /**
   * The loop over the snapshots that successive status polls return, with the
   * latest message of a "completed" run as it is listed, before cleaning.
   */
  function Await<A, O>(tb: Toolbox<A, O>, snapshots: seq<Snapshot>): PollResult<A>
    decreases |snapshots|
  {
    if snapshots == [] then PollResult(StillPolling, [])
    else
      var run := snapshots[0];
      if run.status == StatusCompleted then
        PollResult(Completed(run.latestMessage), [Retrieve, ListMessages])
      else if run.status == StatusFailed then
        PollResult(Failed, [Retrieve])
      else
        var round := if run.status == StatusRequiresAction then RoundEvents(tb, run.toolCalls) else [];
        var rest := Await(tb, snapshots[1..]);
        PollResult(rest.outcome, [Retrieve] + round + [Sleep] + rest.events)
  }

  /** The loop over the snapshots, returning the cleaned message of a "completed" run. */
  function Poll<A, O>(tb: Toolbox<A, O>, snapshots: seq<Snapshot>): PollResult<A> {
    var r := Await(tb, snapshots);
    match r.outcome
    case Completed(message) => PollResult(Completed(ReplyCleaning.CleanReply(message)), r.events)
    case _ => r
  }

  /** One iteration of Poll, unfolded, for a snapshot that does not end the loop. */
  lemma PollNonTerminalStep<A, O>(tb: Toolbox<A, O>, snapshots: seq<Snapshot>)
    requires snapshots != [] && !IsTerminal(snapshots[0].status)
    ensures Poll(tb, snapshots).outcome == Poll(tb, snapshots[1..]).outcome
    ensures Poll(tb, snapshots).events ==
      [Retrieve]
      + (if snapshots[0].status == StatusRequiresAction then RoundEvents(tb, snapshots[0].toolCalls) else [])
      + [Sleep] + Poll(tb, snapshots[1..]).events
  {
  }

  /** The iteration of Poll that ends the loop, unfolded. */
  lemma PollTerminalStep<A, O>(tb: Toolbox<A, O>, snapshots: seq<Snapshot>)
    requires snapshots != [] && IsTerminal(snapshots[0].status)
    ensures Poll(tb, snapshots) ==
      if snapshots[0].status == StatusCompleted
      then PollResult(Completed(ReplyCleaning.CleanReply(snapshots[0].latestMessage)), [Retrieve, ListMessages])
      else PollResult(Failed, [Retrieve])
  {
  }

  /** The inner `for` loop of a "requires_action" round: resolve, invoke and submit, call by call. */
  method SubmitToolOutputs<A, O>(tb: Toolbox<A, O>, calls: seq<ToolCall>) returns (events: seq<Event<A>>)
    ensures events == RoundEvents(tb, calls)
  {
    events := [];
    var j := 0;
    while j < |calls|
      invariant 0 <= j <= |calls|
      invariant events == RoundEvents(tb, calls[..j])
    {
      var call := calls[j];
      var arguments := match tb.parse(call.arguments)
        case Some(a) => a
        case None => tb.emptyArguments;
      if call.name in tb.functionMap {
        var output := tb.functionMap[call.name](arguments);
        events := events + [Invoke(call.name, arguments), Submit(call.id, tb.dumps(output))];
      }
      assert calls[..j + 1][..j] == calls[..j];
      j := j + 1;
    }
    assert calls[..j] == calls;
  }

  /** `process_tool_calls`: the polling loop as the source runs it. */
  method ProcessToolCalls<A, O>(tb: Toolbox<A, O>, snapshots: seq<Snapshot>)
    returns (outcome: Outcome, events: seq<Event<A>>)
    ensures PollResult(outcome, events) == Poll(tb, snapshots)
  {
    events := [];
    var i := 0;
    while i < |snapshots|
      invariant 0 <= i <= |snapshots|
      invariant Await(tb, snapshots).outcome == Await(tb, snapshots[i..]).outcome
      invariant Await(tb, snapshots).events == events + Await(tb, snapshots[i..]).events
    {
      ghost var before := events;
      var stop, result, step := PollOnce(tb, snapshots[i]);
      events := events + step;
      if stop {
        AwaitStopsAt(tb, snapshots, i, before);
        return result, events;
      }
      AwaitPassesOver(tb, snapshots, i, before, step);
      i := i + 1;
    }
    assert snapshots[i..] == [];
    outcome := StillPolling;
  }

  /**
   * One pass of the loop body for the snapshot `run`: poll; on "completed"
   * read and clean the latest message and stop, on "failed" stop; otherwise
   * run a "requires_action" round if there is one, then wait.
   */
  method PollOnce<A, O>(tb: Toolbox<A, O>, run: Snapshot) returns (stop: bool, outcome: Outcome, step: seq<Event<A>>)
    ensures stop == IsTerminal(run.status)
    ensures stop ==> PollResult(outcome, step) == Poll(tb, [run])
    ensures !stop ==> step == [Retrieve] + RoundOf(tb, run) + [Sleep]
  {
    step := [Retrieve];
    if run.status == StatusCompleted {
      var text := run.latestMessage;
      step := step + [ListMessages];
      return true, Completed(ReplyCleaning.CleanReply(text)), step;
    } else if run.status == StatusRequiresAction {
      var submitted := SubmitToolOutputs(tb, run.toolCalls);
      step := step + submitted;
    } else if run.status == StatusFailed {
      return true, Failed, step;
    } else {
      assert step + [] == step;
    }
    step := step + [Sleep];
    stop, outcome := false, StillPolling;
  }

  /** The events of the "requires_action" round a snapshot asks for, if it asks for one. */
  function RoundOf<A, O>(tb: Toolbox<A, O>, run: Snapshot): seq<Event<A>> {
    if run.status == StatusRequiresAction then RoundEvents(tb, run.toolCalls) else []
  }

  /** The loop invariant of ProcessToolCalls is kept by a snapshot that does not end the loop. */
  lemma AwaitPassesOver<A, O>(tb: Toolbox<A, O>, snapshots: seq<Snapshot>, i: nat, before: seq<Event<A>>,
                              step: seq<Event<A>>)
    requires i < |snapshots| && !IsTerminal(snapshots[i].status)
    requires step == [Retrieve] + RoundOf(tb, snapshots[i]) + [Sleep]
    requires Await(tb, snapshots).outcome == Await(tb, snapshots[i..]).outcome
    requires Await(tb, snapshots).events == before + Await(tb, snapshots[i..]).events
    ensures Await(tb, snapshots).outcome == Await(tb, snapshots[i + 1..]).outcome
    ensures Await(tb, snapshots).events == before + step + Await(tb, snapshots[i + 1..]).events
  {
    var rest := snapshots[i..];
    assert rest[0] == snapshots[i] && rest[1..] == snapshots[i + 1..];
    var later := Await(tb, rest[1..]).events;
    assert Await(tb, rest).events == step + later;
    assert before + (step + later) == before + step + later;
  }

  /** A "completed" or "failed" snapshot ends the loop with its own result, after the events gathered so far. */
  lemma AwaitStopsAt<A, O>(tb: Toolbox<A, O>, snapshots: seq<Snapshot>, i: nat, before: seq<Event<A>>)
    requires i < |snapshots| && IsTerminal(snapshots[i].status)
    requires Await(tb, snapshots).outcome == Await(tb, snapshots[i..]).outcome
    requires Await(tb, snapshots).events == before + Await(tb, snapshots[i..]).events
    ensures var last := Poll(tb, [snapshots[i]]);
      Poll(tb, snapshots) == PollResult(last.outcome, before + last.events)
  {
    var rest := snapshots[i..];
    assert rest[0] == snapshots[i];
    assert Await(tb, rest) == Await(tb, [snapshots[i]]);
  }

  // ------------------------------------------------------------------
  // One "requires_action" round
  // ------------------------------------------------------------------

  /** A round over `c1 + c2` does the round over `c1`, then the round over `c2`. */
  lemma {:induction false} RoundEventsAppend<A, O>(tb: Toolbox<A, O>, c1: seq<ToolCall>, c2: seq<ToolCall>)
    ensures RoundEvents(tb, c1 + c2) == RoundEvents(tb, c1) + RoundEvents(tb, c2)
    decreases |c2|
  {
    if c2 == [] {
      assert c1 + c2 == c1;
    } else {
      var last := c2[|c2| - 1];
      assert (c1 + c2)[..|c1 + c2| - 1] == c1 + c2[..|c2| - 1];
      RoundEventsAppend(tb, c1, c2[..|c2| - 1]);
    }
  }

  /**
   * A call whose name has no handler invokes nothing and submits nothing, and
   * the calls after it in the same round are still processed.
   */
  lemma UnknownToolIsSkipped<A, O>(tb: Toolbox<A, O>, c1: seq<ToolCall>, call: ToolCall, c2: seq<ToolCall>)
    requires call.name !in tb.functionMap
    ensures RoundEvents(tb, c1 + [call] + c2) == RoundEvents(tb, c1) + RoundEvents(tb, c2)
  {
    assert RoundEvents(tb, [call]) == [] by {
      assert [call][..0] == [];
    }
    RoundEventsAppend(tb, c1 + [call], c2);
    RoundEventsAppend(tb, c1, [call]);
  }

  /**
   * A call whose arguments do not decode runs its handler on `{}` and still
   * submits an output; the loop goes on.
   */
  lemma MalformedArgumentsRunWithEmpty<A, O>(tb: Toolbox<A, O>, call: ToolCall)
    requires call.name in tb.functionMap && tb.parse(call.arguments).None?
    ensures CallEvents(tb, call) ==
      [Invoke(call.name, tb.emptyArguments),
       Submit(call.id, tb.dumps(tb.functionMap[call.name](tb.emptyArguments)))]
  {
  }

  /** The calls of a round that have a handler, in order. */
  function Resolvable<A, O>(tb: Toolbox<A, O>, calls: seq<ToolCall>): seq<ToolCall>
    decreases |calls|
  {
    if calls == [] then []
    else Resolvable(tb, calls[..|calls| - 1])
         + (if calls[|calls| - 1].name in tb.functionMap then [calls[|calls| - 1]] else [])
  }

  /** The `Submit` events of a trace, in order. */
  function Submissions<A>(events: seq<Event<A>>): seq<Event<A>>
    decreases |events|
  {
    if events == [] then []
    else Submissions(events[..|events| - 1])
         + (if events[|events| - 1].Submit? then [events[|events| - 1]] else [])
  }

  lemma {:induction false} SubmissionsAppend<A>(e1: seq<Event<A>>, e2: seq<Event<A>>)
    ensures Submissions(e1 + e2) == Submissions(e1) + Submissions(e2)
    decreases |e2|
  {
    if e2 == [] {
      assert e1 + e2 == e1;
    } else {
      assert (e1 + e2)[..|e1 + e2| - 1] == e1 + e2[..|e2| - 1];
      SubmissionsAppend(e1, e2[..|e2| - 1]);
    }
  }

  /**
   * A round submits exactly one output for each call that has a handler, in
   * the order of the calls, carrying that call's id and its handler's
   * serialised result.
   */
  lemma {:induction false} RoundSubmitsOncePerResolvableCall<A, O>(tb: Toolbox<A, O>, calls: seq<ToolCall>)
    ensures var subs, known := Submissions(RoundEvents(tb, calls)), Resolvable(tb, calls);
      && |subs| == |known|
      && forall k :: 0 <= k < |known| ==>
           known[k].name in tb.functionMap && subs[k] == Submit(known[k].id, OutputOf(tb, known[k]))
    decreases |calls|
  {
    if calls != [] {
      var init, last := calls[..|calls| - 1], calls[|calls| - 1];
      RoundSubmitsOncePerResolvableCall(tb, init);
      SubmissionsAppend(RoundEvents(tb, init), CallEvents(tb, last));
      if last.name in tb.functionMap {
        var pair := CallEvents(tb, last);
        assert pair[..1] == [pair[0]];
        assert Submissions(pair[..1]) == [] by {
          assert pair[..1][..0] == [];
        }
        assert Submissions(pair) == [Submit(last.id, OutputOf(tb, last))];
      }
    }
  }

  // ------------------------------------------------------------------
  // The whole loop
  // ------------------------------------------------------------------

  function CountRetrieves<A>(events: seq<Event<A>>): nat
    decreases |events|
  {
    if events == [] then 0 else (if events[0].Retrieve? then 1 else 0) + CountRetrieves(events[1..])
  }

  function CountSleeps<A>(events: seq<Event<A>>): nat
    decreases |events|
  {
    if events == [] then 0 else (if events[0].Sleep? then 1 else 0) + CountSleeps(events[1..])
  }

  lemma {:induction false} CountsAppend<A>(e1: seq<Event<A>>, e2: seq<Event<A>>)
    ensures CountRetrieves(e1 + e2) == CountRetrieves(e1) + CountRetrieves(e2)
    ensures CountSleeps(e1 + e2) == CountSleeps(e1) + CountSleeps(e2)
    decreases |e1|
  {
    if e1 == [] {
      assert e1 + e2 == e2;
    } else {
      assert (e1 + e2)[1..] == e1[1..] + e2;
      CountsAppend(e1[1..], e2);
    }
  }

  /** One call neither polls nor waits. */
  lemma CallNeitherPollsNorSleeps<A, O>(tb: Toolbox<A, O>, call: ToolCall)
    ensures CountRetrieves(CallEvents(tb, call)) == 0 && CountSleeps(CallEvents(tb, call)) == 0
  {
    var e := CallEvents(tb, call);
    if e != [] {
      assert e[0].Invoke? && e[1].Submit? && |e| == 2;
      assert e[1..][1..] == [];
      assert CountRetrieves(e[1..]) == 0 && CountSleeps(e[1..]) == 0;
    }
  }

  /** A round neither polls nor waits. */
  lemma {:induction false} RoundNeitherPollsNorSleeps<A, O>(tb: Toolbox<A, O>, calls: seq<ToolCall>)
    ensures CountRetrieves(RoundEvents(tb, calls)) == 0 && CountSleeps(RoundEvents(tb, calls)) == 0
    decreases |calls|
  {
    if calls != [] {
      var init, last := calls[..|calls| - 1], calls[|calls| - 1];
      assert RoundEvents(tb, calls) == RoundEvents(tb, init) + CallEvents(tb, last);
      RoundNeitherPollsNorSleeps(tb, init);
      CallNeitherPollsNorSleeps(tb, last);
      CountsAppend(RoundEvents(tb, init), CallEvents(tb, last));
    }
  }

  /** The events of one non-terminal iteration poll once and wait once. */
  lemma NonTerminalStepCounts<A, O>(tb: Toolbox<A, O>, run: Snapshot, rest: seq<Event<A>>)
    ensures var round := if run.status == StatusRequiresAction then RoundEvents(tb, run.toolCalls) else [];
      && CountRetrieves([Retrieve] + round + [Sleep] + rest) == 1 + CountRetrieves(rest)
      && CountSleeps([Retrieve] + round + [Sleep] + rest) == 1 + CountSleeps(rest)
  {
    var round := if run.status == StatusRequiresAction then RoundEvents(tb, run.toolCalls) else [];
    RoundNeitherPollsNorSleeps(tb, run.toolCalls);
    var poll: seq<Event<A>>, wait: seq<Event<A>> := [Retrieve], [Sleep];
    assert poll[1..] == [] && wait[1..] == [];
    assert CountRetrieves(poll) == 1 && CountSleeps(poll) == 0;
    assert CountRetrieves(wait) == 0 && CountSleeps(wait) == 1;
    CountsAppend(poll + round + wait, rest);
    CountsAppend(poll + round, wait);
    CountsAppend(poll, round);
  }

  /**
   * Only "completed" and "failed" end the loop. Given the first snapshot `t`
   * with one of those statuses, the loop ends there, whatever follows: after
   * t + 1 polls and t waits, with the cleaned latest message on "completed" and
   * the failure result on "failed".
   */
  lemma {:induction false} PollStopsAtFirstTerminal<A, O>(tb: Toolbox<A, O>, snapshots: seq<Snapshot>, t: nat)
    requires t < |snapshots| && IsTerminal(snapshots[t].status)
    requires forall i :: 0 <= i < t ==> !IsTerminal(snapshots[i].status)
    ensures Poll(tb, snapshots) == Poll(tb, snapshots[..t + 1])
    ensures Poll(tb, snapshots).outcome ==
      if snapshots[t].status == StatusCompleted
      then Completed(ReplyCleaning.CleanReply(snapshots[t].latestMessage))
      else Failed
    ensures CountRetrieves(Poll(tb, snapshots).events) == t + 1
    ensures CountSleeps(Poll(tb, snapshots).events) == t
    decreases t
  {
    var run := snapshots[0];
    var prefix := snapshots[..t + 1];
    assert prefix[0] == run;
    if t == 0 {
      PollTerminalStep(tb, snapshots);
      PollTerminalStep(tb, prefix);
      assert snapshots[t] == run;
      var e: seq<Event<A>> := [Retrieve, ListMessages];
      assert e[1..][1..] == [];
      assert CountRetrieves(e) == 1 && CountSleeps(e) == 0;
    } else {
      var tail := snapshots[1..];
      assert forall i :: 0 <= i < t - 1 ==> tail[i] == snapshots[i + 1];
      PollStopsAtFirstTerminal(tb, tail, t - 1);
      assert prefix[1..] == tail[..t];
      assert tail[t - 1] == snapshots[t];
      PollNonTerminalStep(tb, snapshots);
      PollNonTerminalStep(tb, prefix);
      assert Poll(tb, prefix[1..]) == Poll(tb, tail);
      var last := snapshots[t];
      assert Poll(tb, tail).outcome ==
        if last.status == StatusCompleted then Completed(ReplyCleaning.CleanReply(last.latestMessage)) else Failed;
      NonTerminalStepCounts(tb, run, Poll(tb, tail).events);
    }
  }

  /**
   * While no snapshot is "completed" or "failed", the loop produces no result:
   * it polls once and waits once per snapshot, whatever the statuses are.
   */
  lemma {:induction false} PollWithoutTerminalKeepsPolling<A, O>(tb: Toolbox<A, O>, snapshots: seq<Snapshot>)
    requires forall i :: 0 <= i < |snapshots| ==> !IsTerminal(snapshots[i].status)
    ensures Poll(tb, snapshots).outcome == StillPolling
    ensures CountRetrieves(Poll(tb, snapshots).events) == |snapshots|
    ensures CountSleeps(Poll(tb, snapshots).events) == |snapshots|
    decreases |snapshots|
  {
    if snapshots != [] {
      var tail := snapshots[1..];
      assert forall i :: 0 <= i < |tail| ==> tail[i] == snapshots[i + 1];
      PollWithoutTerminalKeepsPolling(tb, tail);
      NonTerminalStepCounts(tb, snapshots[0], Poll(tb, tail).events);
    }
  }

  /** A run that is in progress once and then completed: one wait, then the cleaned reply. */
  lemma InProgressThenCompleted<A, O>(tb: Toolbox<A, O>, reply: string)
    ensures Poll(tb, [Snapshot("in_progress", [], ""), Snapshot(StatusCompleted, [], reply)]) ==
      PollResult(Completed(ReplyCleaning.CleanReply(reply)), [Retrieve, Sleep, Retrieve, ListMessages])
  {
    var snapshots := [Snapshot("in_progress", [], ""), Snapshot(StatusCompleted, [], reply)];
    assert !IsTerminal(snapshots[0].status) by {
      assert snapshots[0].status[0] == 'i';
    }
    PollNonTerminalStep(tb, snapshots);
    PollTerminalStep(tb, snapshots[1..]);
  }
}
