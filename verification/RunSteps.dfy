/**
 * What the executor does to a run between two waits (examples/hosts/sqlite/src/server.ts), node by
 * node and event by event, said of the run's fields.
 */
module RunSteps {
  import opened Wrappers
  import opened Executor
  import opened ResolveRequests
  import Approval

  /** The run after more events of its own. */
  function WithEvents(run: Run, node: Option<string>, events: seq<EventType>): Run {
    run.(log := Extended(run.log, node, events))
  }

  /** The run once it has ended. */
  function EndedAs(run: Run, event: EventType, status: Status): Run {
    WithEvents(run, None, [event]).(status := status, claimed := false)
  }

  lemma {:induction false} ApplyEnding(run: Run, event: EventType, status: Status)
    ensures ApplyAll(run, Ending(event, status)) == EndedAs(run, event, status)
  {
    ApplyThree(run, Append(event, None), SetStatus(status), Release);
  }

  lemma {:induction false} EventThenEnding(run: Run, first: EventType, node: Option<string>, event: EventType, status: Status)
    ensures ApplyAll(run, [Append(first, node)] + Ending(event, status)) == EndedAs(WithEvents(run, node, [first]), event, status)
  {
    ApplyAllOfConcat(run, [Append(first, node)], Ending(event, status));
    ApplyOne(run, Append(first, node));
    ApplyEnding(Apply(run, Append(first, node)), event, status);
    assert Apply(run, Append(first, node)) == WithEvents(run, node, [first]);
  }

  lemma {:induction false} OneEvent(run: Run, node: Option<string>, e: EventType)
    ensures Apply(run, Append(e, node)) == WithEvents(run, node, [e])
  {
    assert Extended(run.log, node, [e]) == run.log + [Logged(|run.log|, e, node)];
  }

  lemma {:induction false} TwoEvents(run: Run, node: Option<string>, a: EventType, b: EventType)
    ensures ApplyAll(run, [Append(a, node), Append(b, node)]) == WithEvents(run, node, [a, b])
  {
    ApplyTwo(run, Append(a, node), Append(b, node));
  }

  /** The status a run waits in at a gate. */
  function WaitsAs(kind: Approval.Kind): Status {
    match kind
    case ApprovalGate => WaitingApproval
    case ClarificationGate => WaitingInput
    case ExternalEvent => WaitingExternal
  }

  /** The row a run waits at: the active one of that name, or a new one, which only for external events may expire. */
  function RowWaitedAt(run: Run, node: Node, expires: Option<int>): Approval.Interrupt
    requires node.kind.Gate?
  {
    if node.id in run.gates && run.gates[node.id].resolvedAt.None? then run.gates[node.id]
    else Approval.Interrupt(node.kind.kind, node.kind.config, [], None, None,
                            if node.kind.kind == Approval.ExternalEvent then expires else None)
  }

  /** The run before it fails at a node, by how the node ended. */
  function FailedAt(run: Run, node: string, result: Result): Run
    requires !result.Completes?
  {
    match result
    case Refuses(reported) => if reported then WithEvents(run, Some(node), [CapabilityInsufficient, NodeFailed]) else run
    case Fails => WithEvents(run, Some(node), [NodeStarted, NodeFailed])
    case Throws => WithEvents(run, Some(node), [NodeStarted])
  }

  /** Where the loop stops at node i: the run there, and the node it sleeps in. */
  function StoppedAt(w: Workflow, run: Run, i: nat, chance: Chance): (Run, Option<nat>) {
    if i >= |w.nodes| then
      (if run.status == Cancelling then EndedAs(run, RunCancelled, Cancelled)
       else EndedAs(WithEvents(run, None, [MemoryWritten]), RunCompleted, Completed), None)
    else if w.recursionLimit.Some? && w.recursionLimit.value < i + 1 then
      (EndedAs(WithEvents(run, Some(w.nodes[i].id), [CapBreached]), RunFailed, Failed), None)
    else if run.status == Cancelling then (EndedAs(run, RunCancelled, Cancelled), None)
    else
      match w.nodes[i].kind
      case Delay => (WithEvents(run, Some(w.nodes[i].id), [NodeStarted]), Some(i))
      case Gate(kind, _) =>
        (WithEvents(run, Some(w.nodes[i].id), [NodeStarted, NodeSuspended])
         .(gates := run.gates[w.nodes[i].id := RowWaitedAt(run, w.nodes[i], chance.expires(i))],
           status := WaitsAs(kind), cursor := i, claimed := false), None)
      case Work =>
        (if chance.result(i).Completes? then run else EndedAs(FailedAt(run, w.nodes[i].id, chance.result(i)), RunFailed, Failed), None)
  }

  /** A node of work that completes, below the limit and while nothing is being cancelled, is passed. */
  predicate Passes(w: Workflow, run: Run, i: nat, chance: Chance) {
    && i < |w.nodes| && (w.recursionLimit.Some? ==> i + 1 <= w.recursionLimit.value) && run.status != Cancelling
    && w.nodes[i].kind == Work && chance.result(i) == Completes
  }

  function Passed(w: Workflow, run: Run, i: nat): Run
    requires i < |w.nodes|
  {
    WithEvents(run, Some(w.nodes[i].id), [NodeStarted, NodeCompleted]).(cursor := i + 1)
  }

  lemma {:induction false} ApplySuspending(run: Run, node: Node, i: nat, expires: Option<int>)
    requires node.kind.Gate?
    ensures ApplyAll(run, Suspending(run, node, i, expires))
         == WithEvents(run, Some(node.id), [NodeStarted, NodeSuspended])
            .(gates := run.gates[node.id := RowWaitedAt(run, node, expires)], status := WaitsAs(node.kind.kind), cursor := i, claimed := false)
  {
    ApplyFive(run, Append(NodeStarted, Some(node.id)), Put(node.id, GateRow(run, node, expires)),
              Append(NodeSuspended, Some(node.id)), SetBoth(WaitingStatus(node.kind.kind), i), Release);
  }

  lemma {:induction false} ApplyUnfinished(run: Run, node: Node, result: Result)
    requires !result.Completes?
    ensures ApplyAll(run, Unfinished(node, result) + Ending(RunFailed, Failed)) == EndedAs(FailedAt(run, node.id, result), RunFailed, Failed)
  {
    ApplyAllOfConcat(run, Unfinished(node, result), Ending(RunFailed, Failed));
    ApplyEnding(ApplyAll(run, Unfinished(node, result)), RunFailed, Failed);
    match result {
      case Refuses(reported) => if reported { TwoEvents(run, Some(node.id), CapabilityInsufficient, NodeFailed); }
      case Fails => TwoEvents(run, Some(node.id), NodeStarted, NodeFailed);
      case Throws => ApplyOne(run, Append(NodeStarted, Some(node.id)));
    }
  }

  lemma {:induction false} ApplyStop(w: Workflow, run: Run, i: nat, chance: Chance)
    ensures (ApplyAll(run, Stop(w, run, i, chance).0), Stop(w, run, i, chance).1) == StoppedAt(w, run, i, chance)
  {
    if i >= |w.nodes| {
      ApplyEnding(run, RunCancelled, Cancelled);
      EventThenEnding(run, MemoryWritten, None, RunCompleted, Completed);
    } else if OverLimit(w, i) {
      EventThenEnding(run, CapBreached, Some(w.nodes[i].id), RunFailed, Failed);
    } else if run.status.Cancelling? {
      ApplyEnding(run, RunCancelled, Cancelled);
    } else {
      match w.nodes[i].kind {
        case Delay =>
          ApplyOne(run, Append(NodeStarted, Some(w.nodes[i].id)));
          OneEvent(run, Some(w.nodes[i].id), NodeStarted);
        case Gate(_, _) => ApplySuspending(run, w.nodes[i], i, chance.expires(i));
        case Work => if !chance.result(i).Completes? { ApplyUnfinished(run, w.nodes[i], chance.result(i)); }
      }
    }
  }

  /** The loop from node i passes every node it can and stops at the first it cannot. */
  lemma {:induction false} LoopByFields(w: Workflow, run: Run, i: nat, chance: Chance)
    ensures var after := Slice(w, run, i, chance);
            (ApplyAll(run, after.0), after.1)
            == if Passes(w, run, i, chance) then
                 (ApplyAll(Passed(w, run, i), Slice(w, Passed(w, run, i), i + 1, chance).0), Slice(w, Passed(w, run, i), i + 1, chance).1)
               else StoppedAt(w, run, i, chance)
  {
    if GoesOn(w, run, i, chance) {
      var here := Completing(w.nodes[i], i);
      ApplyThree(run, Append(NodeStarted, Some(w.nodes[i].id)), Append(NodeCompleted, Some(w.nodes[i].id)), SetCursor(i + 1));
      assert ApplyAll(run, here) == Passed(w, run, i);
      ApplyAllOfConcat(run, here, Slice(w, Passed(w, run, i), i + 1, chance).0);
    } else {
      ApplyStop(w, run, i, chance);
    }
  }

  /** A launch starts the loop at the cursor, with run.started if the log has none yet and run.resumed if it has. */
  lemma {:induction false} LaunchByFields(w: Workflow, m: Host, expired: bool, chance: Chance)
    ensures var after := Step(w, m, Launch(expired, chance));
            var free := m.asleep == None && (!m.run.claimed || expired)
                        && (m.run.status == Pending || m.run.status == Running || m.run.status == Cancelling);
            var again := exists k :: 0 <= k < |m.run.log| && m.run.log[k].event == RunStarted;
            var begun := WithEvents(m.run, None, [if again then RunResumed else RunStarted]).(status := Running, claimed := true);
            (after.run, after.asleep)
            == if free then (ApplyAll(begun, Slice(w, begun, m.run.cursor, chance).0), Slice(w, begun, m.run.cursor, chance).1)
               else (m.run, m.asleep)
  {
    StartedIffLogged(m.run.log);
    if m.asleep.None? && Orphaned(m.run, expired) {
      var claimed := Apply(m.run, Claim);
      var begun := ApplyAll(claimed, Announcing(claimed));
      ApplyTwo(claimed, Announcing(claimed)[0], Announcing(claimed)[1]);
      OneEvent(claimed.(status := Running), None, if Started(m.run.log) then RunResumed else RunStarted);
      var rest := Executing(w, claimed, chance);
      ApplyAllOfConcat(m.run, [Claim], rest.0);
      ApplyOne(m.run, Claim);
      ApplyAllOfConcat(claimed, Announcing(claimed), Slice(w, begun, claimed.cursor, chance).0);
    }
  }

  lemma {:induction false} StartedIffLogged(log: seq<Logged>)
    ensures Started(log) <==> exists k :: 0 <= k < |log| && log[k].event == RunStarted
  {
    if log != [] {
      StartedIffLogged(log[1..]);
      if k :| 0 <= k < |log| && log[k].event == RunStarted {
        if k > 0 { assert log[1..][k - 1] == log[k]; }
      }
      if Started(log) && !log[0].event.RunStarted? {
        var k :| 0 <= k < |log[1..]| && log[1..][k].event == RunStarted;
        assert log[k + 1].event == RunStarted;
      }
    }
  }

  predicate Sleeps(w: Workflow, m: Host) { m.asleep.Some? && m.asleep.value < |w.nodes| }

  /** A delay that is over completes its node and the loop goes on with the next. */
  lemma {:induction false} WakeByFields(w: Workflow, m: Host, chance: Chance)
    ensures var after := Step(w, m, Wake(chance));
            if Sleeps(w, m) then
              var i := m.asleep.value;
              var woken := WithEvents(m.run, Some(w.nodes[i].id), [NodeCompleted]).(cursor := i + 1);
              (after.run, after.asleep) == (ApplyAll(woken, Slice(w, woken, i + 1, chance).0), Slice(w, woken, i + 1, chance).1)
            else after.run == m.run && after.asleep == m.asleep
  {
    if Sleeps(w, m) {
      var i := m.asleep.value;
      var here := [Append(NodeCompleted, Some(w.nodes[i].id)), SetCursor(i + 1)];
      ApplyTwo(m.run, here[0], here[1]);
      OneEvent(m.run, Some(w.nodes[i].id), NodeCompleted);
      ApplyAllOfConcat(m.run, here, Slice(w, ApplyAll(m.run, here), i + 1, chance).0);
    }
  }

  /** A deadline cancels the node the executor sleeps in and fails the run. */
  lemma {:induction false} DeadlineByFields(w: Workflow, m: Host)
    ensures var after := Step(w, m, Deadline);
            if Sleeps(w, m) then
              && after.run == EndedAs(WithEvents(WithEvents(m.run, Some(w.nodes[m.asleep.value].id), [NodeCancelled]), None, [CapBreached]),
                                      RunFailed, Failed)
              && after.asleep == None
            else after.run == m.run && after.asleep == m.asleep
  {
    if Sleeps(w, m) {
      var node := Some(w.nodes[m.asleep.value].id);
      var here := [Append(NodeCancelled, node), Append(CapBreached, None)];
      ApplyAllOfConcat(m.run, here, Ending(RunFailed, Failed));
      ApplyTwo(m.run, here[0], here[1]);
      ApplyEnding(ApplyAll(m.run, here), RunFailed, Failed);
    }
  }

  /**
   * A cancel leaves an ended run, ends a waiting one and closes its gates with the reason, ends one
   * that sleeps in a delay, and asks any other to end.
   */
  lemma {:induction false} CancelByFields(w: Workflow, m: Host, reason: string, now: int)
    ensures var after := Step(w, m, Cancel(reason, now));
            var ended := m.run.status == Completed || m.run.status == Failed || m.run.status == Cancelled;
            var waits := m.run.status == WaitingApproval || m.run.status == WaitingInput || m.run.status == WaitingExternal;
            if ended then after.run == m.run && after.asleep == m.asleep
            else if waits then
              && after.run == EndedAs(m.run.(gates := after.run.gates), RunCancelled, Cancelled) && after.asleep == m.asleep
              && after.run.gates.Keys == m.run.gates.Keys
              && forall n | n in m.run.gates ::
                   after.run.gates[n] == if m.run.gates[n].resolvedAt.Some? then m.run.gates[n]
                                         else m.run.gates[n].(resolvedAt := Some(now), outcome := Some("invalidated:" + reason))
            else if Sleeps(w, m) then
              && after.run == EndedAs(WithEvents(m.run, Some(w.nodes[m.asleep.value].id), [NodeCancelled]), RunCancelled, Cancelled)
              && after.asleep == None
            else after.run == m.run.(status := Cancelling) && after.asleep == m.asleep
  {
    if !Terminal(m.run.status) {
      if IsWaiting(m.run.status) {
        ApplyAllOfConcat(m.run, [InvalidateAll(reason, now)], Ending(RunCancelled, Cancelled));
        ApplyOne(m.run, InvalidateAll(reason, now));
        ApplyEnding(Apply(m.run, InvalidateAll(reason, now)), RunCancelled, Cancelled);
      } else if Sleeps(w, m) {
        var here := [RequestCancel, Append(NodeCancelled, Some(w.nodes[m.asleep.value].id))];
        ApplyAllOfConcat(m.run, here, Ending(RunCancelled, Cancelled));
        ApplyTwo(m.run, here[0], here[1]);
        ApplyEnding(ApplyAll(m.run, here), RunCancelled, Cancelled);
      } else {
        ApplyOne(m.run, RequestCancel);
      }
    }
  }

  // ----------------------------------------------------------- what a crash leaves of a step

  /** As many of the events as the first n statements hold, if the first of them is statement `from`. */
  function Reached(events: seq<EventType>, from: nat, n: nat): seq<EventType> {
    if n <= from then [] else if n - from >= |events| then events else events[..n - from]
  }

  /** The first n statements of an ending: the event, then the status, then the claim. */
  lemma {:induction false} EndingCut(run: Run, event: EventType, status: Status, n: nat)
    requires n <= 3
    ensures |Ending(event, status)| == 3
    ensures ApplyAll(run, Ending(event, status)[..n])
         == run.(log := Extended(run.log, None, Reached([event], 0, n)),
                 status := if n >= 2 then status else run.status, claimed := run.claimed && n < 3)
  {
    var a, b, c := Append(event, None), SetStatus(status), Release;
    var cut := Ending(event, status)[..n];
    if n == 0 { assert cut == []; }
    if n == 1 { assert cut == [a]; ApplyOne(run, a); }
    if n == 2 { assert cut == [a, b]; ApplyTwo(run, a, b); }
    if n == 3 { assert cut == [a, b, c]; ApplyThree(run, a, b, c); }
  }

  /** Of a node that completes: its two events, then the cursor. */
  lemma {:induction false} CompletingCut(run: Run, node: Node, i: nat, n: nat)
    requires n <= 3
    ensures |Completing(node, i)| == 3
    ensures ApplyAll(run, Completing(node, i)[..n])
         == run.(log := Extended(run.log, Some(node.id), Reached([NodeStarted, NodeCompleted], 0, n)),
                 cursor := if n >= 3 then i + 1 else run.cursor)
  {
    var a, b, c := Append(NodeStarted, Some(node.id)), Append(NodeCompleted, Some(node.id)), SetCursor(i + 1);
    var cut := Completing(node, i)[..n];
    if n == 0 { assert cut == []; }
    if n == 1 { assert cut == [a]; ApplyOne(run, a); }
    if n == 2 { assert cut == [a, b]; ApplyTwo(run, a, b); }
    if n == 3 { assert cut == [a, b, c]; ApplyThree(run, a, b, c); }
  }

  /** Of a suspension: the first event, the row, the second event, status and cursor, the claim. */
  lemma {:induction false} SuspendingCut(run: Run, node: Node, i: nat, expires: Option<int>, n: nat)
    requires node.kind.Gate? && n <= 5
    ensures |Suspending(run, node, i, expires)| == 5
    ensures ApplyAll(run, Suspending(run, node, i, expires)[..n])
         == run.(log := Extended(run.log, Some(node.id), if n >= 3 then [NodeStarted, NodeSuspended] else Reached([NodeStarted], 0, n)),
                 gates := if n >= 2 then run.gates[node.id := RowWaitedAt(run, node, expires)] else run.gates,
                 status := if n >= 4 then WaitsAs(node.kind.kind) else run.status,
                 cursor := if n >= 4 then i else run.cursor,
                 claimed := run.claimed && n < 5)
  {
    var a, b, c := Append(NodeStarted, Some(node.id)), Put(node.id, GateRow(run, node, expires)), Append(NodeSuspended, Some(node.id));
    var d, e := SetBoth(WaitingStatus(node.kind.kind), i), Release;
    var cut := Suspending(run, node, i, expires)[..n];
    if n == 0 { assert cut == []; }
    if n == 1 { assert cut == [a]; ApplyOne(run, a); }
    if n == 2 { assert cut == [a, b]; ApplyTwo(run, a, b); }
    if n == 3 { assert cut == [a, b, c]; ApplyThree(run, a, b, c); }
    if n == 4 { assert cut == [a, b, c, d]; ApplyFour(run, a, b, c, d); }
    if n == 5 { assert cut == [a, b, c, d, e]; ApplyFive(run, a, b, c, d, e); }
  }

  /** Of a request that releases its gate: the row, the events, then status and cursor. */
  lemma {:induction false} ReleasingCut(run: Run, h: Handler, answer: Approval.ResolveOutcome, row: Approval.Interrupt, n: nat)
    requires answer.Resumed? && n <= if h.byToken then 4 else 5
    ensures var events := if h.byToken then [NodeResumed, NodeCompleted] else [InterruptResolved, NodeResumed, NodeCompleted];
            && |Settling(run, h, answer, row)| == 2 + |events|
            && ApplyAll(run, Settling(run, h, answer, row)[..n])
            == run.(gates := if n >= 1 then run.gates[h.node := row] else run.gates,
                    log := Extended(run.log, Some(h.node), Reached(events, 1, n)),
                    status := if n >= 2 + |events| then Running else run.status,
                    cursor := if n >= 2 + |events| then (if h.byToken then run.cursor else h.cursor) + 1 else run.cursor)
  {
    if h.byToken { TokenCut(run, h, answer, row, n); } else { NodeCut(run, h, answer, row, n); }
  }

  /** What the first n statements leave, for the events between the row and the last of them. */
  function Released(run: Run, h: Handler, row: Approval.Interrupt, events: seq<EventType>, cursor: nat, n: nat): Run {
    run.(gates := if n >= 1 then run.gates[h.node := row] else run.gates,
         log := Extended(run.log, Some(h.node), Reached(events, 1, n)),
         status := if n >= 2 + |events| then Running else run.status,
         cursor := if n >= 2 + |events| then cursor + 1 else run.cursor)
  }

  lemma {:induction false} TokenCut(run: Run, h: Handler, answer: Approval.ResolveOutcome, row: Approval.Interrupt, n: nat)
    requires answer.Resumed? && h.byToken && n <= 4
    ensures |Settling(run, h, answer, row)| == 4
    ensures ApplyAll(run, Settling(run, h, answer, row)[..n]) == Released(run, h, row, [NodeResumed, NodeCompleted], run.cursor, n)
  {
    var node, a := Some(h.node), Put(h.node, row);
    var b, c, d := Append(NodeResumed, node), Append(NodeCompleted, node), SetBoth(Running, run.cursor + 1);
    var cut := Settling(run, h, answer, row)[..n];
    if n == 0 { assert cut == []; }
    if n == 1 { assert cut == [a]; ApplyOne(run, a); }
    if n == 2 { assert cut == [a, b]; ApplyTwo(run, a, b); }
    if n == 3 { assert cut == [a, b, c]; ApplyThree(run, a, b, c); }
    if n == 4 { assert cut == [a, b, c, d]; ApplyFour(run, a, b, c, d); }
  }

  lemma {:induction false} NodeCut(run: Run, h: Handler, answer: Approval.ResolveOutcome, row: Approval.Interrupt, n: nat)
    requires answer.Resumed? && !h.byToken && n <= 5
    ensures |Settling(run, h, answer, row)| == 5
    ensures ApplyAll(run, Settling(run, h, answer, row)[..n])
         == Released(run, h, row, [InterruptResolved, NodeResumed, NodeCompleted], h.cursor, n)
  {
    var node, a := Some(h.node), Put(h.node, row);
    var b, c, d := Append(InterruptResolved, node), Append(NodeResumed, node), Append(NodeCompleted, node);
    var e := SetBoth(Running, h.cursor + 1);
    var cut := Settling(run, h, answer, row)[..n];
    if n == 0 { assert cut == []; }
    if n == 1 { assert cut == [a]; ApplyOne(run, a); }
    if n == 2 { assert cut == [a, b]; ApplyTwo(run, a, b); }
    if n == 3 { assert cut == [a, b, c]; ApplyThree(run, a, b, c); }
    if n == 4 { assert cut == [a, b, c, d]; ApplyFour(run, a, b, c, d); }
    if n == 5 { assert cut == [a, b, c, d, e]; ApplyFive(run, a, b, c, d, e); }
  }

  /** Of a request that ends in a rejection, or leaves the gate open or for another round: the row first. */
  lemma {:induction false} OtherwiseSettlingCut(run: Run, h: Handler, answer: Approval.ResolveOutcome, row: Approval.Interrupt)
    requires answer.Rejected? || answer.Pending? || answer.Refined? || answer.Expired?
    ensures var writes := Settling(run, h, answer, row);
            && |writes| == (if answer.Rejected? then 6 else if answer.Refined? then 3 else if answer.Pending? then 2 else 1)
            && ApplyAll(run, writes[..1]) == run.(gates := run.gates[h.node := row])
            && (answer.Rejected? || answer.Refined? ==>
                  ApplyAll(run, writes[..2]) == run.(gates := run.gates[h.node := row], log := Extended(run.log, Some(h.node), [InterruptResolved])))
            && (answer.Rejected? ==>
                  && ApplyAll(run, writes[..3])
                     == run.(gates := run.gates[h.node := row], log := Extended(run.log, Some(h.node), [InterruptResolved, NodeCompleted]))
                  && writes[3..] == Ending(RunFailed, Failed))
  {
    var node, put := Some(h.node), Put(h.node, row);
    var writes, i, c := Settling(run, h, answer, row), Append(InterruptResolved, node), Append(NodeCompleted, node);
    assert writes[..1] == [put];
    ApplyOne(run, put);
    if answer.Rejected? || answer.Refined? { assert writes[..2] == [put, i]; ApplyTwo(run, put, i); }
    if answer.Rejected? { assert writes[..3] == [put, i, c]; ApplyThree(run, put, i, c); }
  }
}
