/**
 * What every run of a host that does not crash keeps (examples/hosts/sqlite/src/server.ts):
 * how a run ends, what an open gate says about it, and that each node completes once.
 */
module ExecutorRuns {
  import opened Wrappers
  import opened Executor
  import Approval

  /** No event that ends the run. */
  ghost predicate Open(log: seq<Logged>) {
    forall e | e in log :: !EndsRun(e.event)
  }

  /** One event that ends the run, and it is the last. */
  ghost predicate EndsOnce(log: seq<Logged>) {
    log != [] && EndsRun(log[|log| - 1].event) && Open(log[..|log| - 1])
  }

  function StatusOf(e: EventType): Status
    requires EndsRun(e)
  {
    match e
    case RunCompleted => Completed
    case RunFailed => Failed
    case RunCancelled => Cancelled
  }

  /** No interrupt is active. */
  ghost predicate Quiet(run: Run) {
    forall n | n in run.gates :: !run.gates[n].Active()
  }

  ghost predicate Ended(run: Run) {
    EndsOnce(run.log) && run.status == StatusOf(run.log[|run.log| - 1].event) && Quiet(run)
  }

  ghost predicate Sleeping(w: Workflow, run: Run, i: nat) {
    && run.status.Running? && run.cursor == i < |w.nodes| && w.nodes[i].kind.Delay?
    && Open(run.log) && Quiet(run)
  }

  /** The cursor is on a gate, and no interrupt is active but that gate's. */
  ghost predicate Suspended(w: Workflow, run: Run) {
    && run.cursor < |w.nodes| && w.nodes[run.cursor].kind.Gate?
    && run.status == WaitingStatus(w.nodes[run.cursor].kind.kind)
    && !run.claimed && Open(run.log)
    && (forall n | n in run.gates && run.gates[n].Active() ::
          n == w.nodes[run.cursor].id && run.gates[n].kind == w.nodes[run.cursor].kind.kind)
  }

  ghost predicate Invariant(w: Workflow, run: Run, asleep: Option<nat>) {
    if asleep.Some? then Sleeping(w, run, asleep.value) else Ended(run) || Suspended(w, run)
  }

  /** Where the executor may go on from node i. */
  ghost predicate Going(run: Run, i: nat) {
    run.status.Running? && run.cursor == i && Open(run.log) && Quiet(run)
  }

  lemma {:induction false} EndingEnds(run: Run, event: EventType)
    requires Open(run.log) && Quiet(run) && EndsRun(event)
    ensures Ended(ApplyAll(run, Ending(event, StatusOf(event))))
  {
    ApplyThree(run, Append(event, None), SetStatus(StatusOf(event)), Release);
    var log := run.log + [Logged(|run.log|, event, None)];
    assert log[..|log| - 1] == run.log;
  }

  /** One more event, then the end. */
  lemma {:induction false} EndingAfterOne(run: Run, first: Write, event: EventType)
    requires Open(run.log) && Quiet(run) && EndsRun(event) && first.Append? && !EndsRun(first.event)
    ensures Ended(ApplyAll(run, [first] + Ending(event, StatusOf(event))))
  {
    ApplyOne(run, first);
    ApplyAllOfConcat(run, [first], Ending(event, StatusOf(event)));
    EndingEnds(Apply(run, first), event);
  }

  lemma {:induction false} EndingAfterTwo(run: Run, first: Write, second: Write, event: EventType)
    requires Open(run.log) && Quiet(run) && EndsRun(event)
    requires first.Append? && !EndsRun(first.event) && second.Append? && !EndsRun(second.event)
    ensures Ended(ApplyAll(run, [first, second] + Ending(event, StatusOf(event))))
  {
    ApplyTwo(run, first, second);
    ApplyAllOfConcat(run, [first, second], Ending(event, StatusOf(event)));
    EndingEnds(Apply(Apply(run, first), second), event);
  }

  lemma {:induction false} UnfinishedEnds(run: Run, node: Node, result: Result)
    requires Open(run.log) && Quiet(run) && !result.Completes?
    ensures Ended(ApplyAll(run, Unfinished(node, result) + Ending(RunFailed, Failed)))
  {
    match result
    case Refuses(false) =>
      assert Unfinished(node, result) + Ending(RunFailed, Failed) == Ending(RunFailed, Failed);
      EndingEnds(run, RunFailed);
    case Refuses(true) =>
      EndingAfterTwo(run, Append(CapabilityInsufficient, Some(node.id)), Append(NodeFailed, Some(node.id)), RunFailed);
    case Fails =>
      EndingAfterTwo(run, Append(NodeStarted, Some(node.id)), Append(NodeFailed, Some(node.id)), RunFailed);
    case Throws =>
      EndingAfterOne(run, Append(NodeStarted, Some(node.id)), RunFailed);
  }

  lemma {:induction false} SuspendingSuspends(w: Workflow, run: Run, i: nat, expires: Option<int>)
    requires i < |w.nodes| && w.nodes[i].kind.Gate? && Open(run.log) && Quiet(run)
    ensures Suspended(w, ApplyAll(run, Suspending(run, w.nodes[i], i, expires)))
  {
    var node := w.nodes[i];
    ApplyFive(run, Append(NodeStarted, Some(node.id)), Put(node.id, GateRow(run, node, expires)),
              Append(NodeSuspended, Some(node.id)), SetBoth(WaitingStatus(node.kind.kind), i), Release);
  }

  lemma {:induction false} StopKeeps(w: Workflow, run: Run, i: nat, chance: Chance)
    requires Going(run, i) && !GoesOn(w, run, i, chance)
    ensures var r := Stop(w, run, i, chance); Invariant(w, ApplyAll(run, r.0), r.1)
  {
    if i >= |w.nodes| {
      EndingAfterOne(run, Append(MemoryWritten, None), RunCompleted);
    } else if OverLimit(w, i) {
      EndingAfterOne(run, Append(CapBreached, Some(w.nodes[i].id)), RunFailed);
    } else {
      match w.nodes[i].kind
      case Delay => ApplyOne(run, Append(NodeStarted, Some(w.nodes[i].id)));
      case Gate(_, _) => SuspendingSuspends(w, run, i, chance.expires(i));
      case Work => UnfinishedEnds(run, w.nodes[i], chance.result(i));
    }
  }

  lemma {:induction false} SliceKeeps(w: Workflow, run: Run, i: nat, chance: Chance)
    requires Going(run, i)
    ensures var r := Slice(w, run, i, chance); Invariant(w, ApplyAll(run, r.0), r.1)
    decreases |w.nodes| - i
  {
    if GoesOn(w, run, i, chance) {
      var node, here := w.nodes[i], Completing(w.nodes[i], i);
      ApplyThree(run, Append(NodeStarted, Some(node.id)), Append(NodeCompleted, Some(node.id)), SetCursor(i + 1));
      ApplyAllOfConcat(run, here, Slice(w, ApplyAll(run, here), i + 1, chance).0);
      SliceKeeps(w, ApplyAll(run, here), i + 1, chance);
    } else {
      StopKeeps(w, run, i, chance);
    }
  }

  lemma {:induction false} ExecutingKeeps(w: Workflow, run: Run, chance: Chance)
    requires Open(run.log) && Quiet(run)
    ensures var r := Executing(w, run, chance); Invariant(w, ApplyAll(run, r.0), r.1)
  {
    ApplyTwo(run, Announcing(run)[0], Announcing(run)[1]);
    var announced := ApplyAll(run, Announcing(run));
    ApplyAllOfConcat(run, Announcing(run), Slice(w, announced, run.cursor, chance).0);
    SliceKeeps(w, announced, run.cursor, chance);
  }

  lemma {:induction false} ClaimedExecutes(w: Workflow, run: Run, chance: Chance)
    requires Open(run.log) && Quiet(run)
    ensures var r := Executing(w, Apply(run, Claim), chance); Invariant(w, ApplyAll(run, [Claim] + r.0), r.1)
  {
    ApplyOne(run, Claim);
    ApplyAllOfConcat(run, [Claim], Executing(w, Apply(run, Claim), chance).0);
    ExecutingKeeps(w, Apply(run, Claim), chance);
  }

  // --------------------------------------------------------------------- resolving

  /** A pending outcome leaves the interrupt active and of its kind; every other written one closes it. */
  lemma {:induction false} ResolutionCloses(run: Run, h: Handler, reply: Reply)
    requires ActiveRow(run, h.node).Some?
    ensures var (outcome, row) := Resolution(run, h, reply);
            && (outcome.Pending? ==> row.Active() && row.kind == run.gates[h.node].kind)
            && (outcome.Expired? || outcome.Resumed? || outcome.Refined? || outcome.Rejected? ==> !row.Active())
  {}

  lemma {:induction false} PutCloses(w: Workflow, run: Run, node: string, row: Approval.Interrupt)
    requires Suspended(w, run) && node in run.gates && run.gates[node].Active() && !row.Active()
    ensures Quiet(Apply(run, Put(node, row)))
  {}

  lemma {:induction false} RejectedEnds(run: Run, put: Write, node: Option<string>)
    requires Open(run.log) && put.Put? && Quiet(Apply(run, put))
    ensures Ended(ApplyAll(run, [put, Append(InterruptResolved, node), Append(NodeCompleted, node)] + Ending(RunFailed, Failed)))
  {
    var resolved, completed := Append(InterruptResolved, node), Append(NodeCompleted, node);
    var rest := [resolved, completed] + Ending(RunFailed, Failed);
    assert [put, resolved, completed] + Ending(RunFailed, Failed) == [put] + rest;
    ApplyOne(run, put);
    ApplyAllOfConcat(run, [put], rest);
    EndingAfterTwo(Apply(run, put), resolved, completed, RunFailed);
  }

  lemma {:induction false} PendingKeeps(w: Workflow, run: Run, node: string, row: Approval.Interrupt)
    requires Suspended(w, run) && node in run.gates && run.gates[node].Active()
    requires row.Active() ==> row.kind == run.gates[node].kind
    ensures Suspended(w, Apply(run, Put(node, row)))
    ensures Suspended(w, ApplyAll(run, [Put(node, row), Append(InterruptVote, Some(node))]))
  {
    ApplyTwo(run, Put(node, row), Append(InterruptVote, Some(node)));
  }

  lemma {:induction false} ReleasingQuiets(run: Run, h: Handler, outcome: Approval.ResolveOutcome, row: Approval.Interrupt)
    requires Open(run.log) && Quiet(Apply(run, Put(h.node, row))) && (outcome.Refined? || outcome.Resumed?)
    ensures var after := ApplyAll(run, Settling(run, h, outcome, row));
            Open(after.log) && Quiet(after) && after.claimed == run.claimed
  {
    var put, node := Put(h.node, row), Some(h.node);
    if outcome.Refined? {
      ApplyThree(run, put, Append(InterruptResolved, node), SetStatus(Running));
    } else if h.byToken {
      ApplyFour(run, put, Append(NodeResumed, node), Append(NodeCompleted, node), SetBoth(Running, run.cursor + 1));
    } else {
      ApplyFive(run, put, Append(InterruptResolved, node), Append(NodeResumed, node), Append(NodeCompleted, node),
                SetBoth(Running, h.cursor + 1));
    }
  }

  lemma {:induction false} SettlingKeeps(w: Workflow, run: Run, h: Handler, outcome: Approval.ResolveOutcome, row: Approval.Interrupt)
    requires Suspended(w, run) && h.node in run.gates && run.gates[h.node].Active()
    requires outcome.Pending? ==> row.Active() && row.kind == run.gates[h.node].kind
    requires outcome.Expired? || outcome.Resumed? || outcome.Refined? || outcome.Rejected? ==> !row.Active()
    ensures var after := ApplyAll(run, Settling(run, h, outcome, row));
            if outcome.Rejected? then Ended(after)
            else if outcome.Refined? || outcome.Resumed? then Open(after.log) && Quiet(after) && after.claimed == run.claimed
            else Suspended(w, after)
  {
    if !row.Active() { PutCloses(w, run, h.node, row); }
    match outcome
    case Unknown =>
    case Invalid =>
    case Expired =>
      ApplyOne(run, Put(h.node, row));
      PendingKeeps(w, run, h.node, row);
    case Pending(_) => PendingKeeps(w, run, h.node, row);
    case Rejected(_) => RejectedEnds(run, Put(h.node, row), Some(h.node));
    case _ => ReleasingQuiets(run, h, outcome, row);
  }

  lemma {:induction false} BodyKeeps(w: Workflow, m: Host, h: Handler, reply: Reply, chance: Chance)
    requires Invariant(w, m.run, m.asleep)
    ensures var r := BodyArrives(w, m, h, reply, chance); Invariant(w, ApplyAll(m.run, r.0), r.1)
  {
    if ActiveRow(m.run, h.node).Some? {
      var (outcome, row) := Resolution(m.run, h, reply);
      var before := Settling(m.run, h, outcome, row);
      ResolutionCloses(m.run, h, reply);
      SettlingKeeps(w, m.run, h, outcome, row);
      if outcome.Resumed? || outcome.Refined? {
        var settled := ApplyAll(m.run, before);
        ApplyAllOfConcat(m.run, before, [Claim] + Executing(w, Apply(settled, Claim), chance).0);
        ClaimedExecutes(w, settled, chance);
      }
    }
  }

  // ---------------------------------------------------------------- the other steps

  lemma {:induction false} WokenGoes(w: Workflow, run: Run, i: nat)
    requires Sleeping(w, run, i)
    ensures Going(ApplyAll(run, [Append(NodeCompleted, Some(w.nodes[i].id)), SetCursor(i + 1)]), i + 1)
  {
    ApplyTwo(run, Append(NodeCompleted, Some(w.nodes[i].id)), SetCursor(i + 1));
  }

  lemma {:induction false} WokenKeeps(w: Workflow, run: Run, i: nat, chance: Chance)
    requires Sleeping(w, run, i)
    ensures var here := [Append(NodeCompleted, Some(w.nodes[i].id)), SetCursor(i + 1)];
            var rest := Slice(w, ApplyAll(run, here), i + 1, chance);
            Invariant(w, ApplyAll(run, here + rest.0), rest.1)
  {
    var here := [Append(NodeCompleted, Some(w.nodes[i].id)), SetCursor(i + 1)];
    var next := ApplyAll(run, here);
    WokenGoes(w, run, i);
    SliceKeeps(w, next, i + 1, chance);
    ApplyAllOfConcat(run, here, Slice(w, next, i + 1, chance).0);
  }

  lemma {:induction false} WakeKeeps(w: Workflow, m: Host, chance: Chance)
    requires Invariant(w, m.run, m.asleep) && m.asleep.Some?
    ensures var r := Plan(w, m, Wake(chance)); Invariant(w, ApplyAll(m.run, r.0), r.1)
  {
    WokenKeeps(w, m.run, m.asleep.value, chance);
  }

  lemma {:induction false} InvalidatingQuiets(run: Run, reason: string, now: int)
    ensures Quiet(Apply(run, InvalidateAll(reason, now)))
  {}

  lemma {:induction false} CancelKeeps(w: Workflow, m: Host, reason: string, now: int)
    requires Invariant(w, m.run, m.asleep)
    ensures var r := CancelArrives(w, m, reason, now); Invariant(w, ApplyAll(m.run, r.0), r.1)
  {
    if Terminal(m.run.status) {
    } else if IsWaiting(m.run.status) {
      ApplyOne(m.run, InvalidateAll(reason, now));
      ApplyAllOfConcat(m.run, [InvalidateAll(reason, now)], Ending(RunCancelled, Cancelled));
      InvalidatingQuiets(m.run, reason, now);
      EndingEnds(Apply(m.run, InvalidateAll(reason, now)), RunCancelled);
    } else {
      var stopped := Append(NodeCancelled, Some(w.nodes[m.asleep.value].id));
      ApplyTwo(m.run, RequestCancel, stopped);
      ApplyAllOfConcat(m.run, [RequestCancel, stopped], Ending(RunCancelled, Cancelled));
      EndingEnds(Apply(Apply(m.run, RequestCancel), stopped), RunCancelled);
    }
  }

  lemma {:induction false} StepKeepsInvariant(w: Workflow, m: Host, e: Event)
    requires Invariant(w, m.run, m.asleep)
    ensures Invariant(w, Step(w, m, e).run, Step(w, m, e).asleep)
  {
    match e
    case Launch(_, _) =>
    case Wake(chance) => if m.asleep.Some? { WakeKeeps(w, m, chance); }
    case Deadline =>
      if m.asleep.Some? {
        EndingAfterTwo(m.run, Append(NodeCancelled, Some(w.nodes[m.asleep.value].id)), Append(CapBreached, None), RunFailed);
      }
    case Cancel(reason, now) => CancelKeeps(w, m, reason, now);
    case Read(_, _) =>
    case Body(k, reply, chance) => if k < |m.handlers| { BodyKeeps(w, m, m.handlers[k], reply, chance); }
  }

  /** Every state a host reaches from a run's creation without crashing. */
  lemma {:induction false} EveryRunKeepsInvariant(w: Workflow, chance: Chance, events: seq<Event>)
    ensures var m := Play(w, Created(w, chance), events); Invariant(w, m.run, m.asleep)
    decreases |events|
  {
    if events == [] {
      ClaimedExecutes(w, FRESH, chance);
    } else {
      var n := |events| - 1;
      EveryRunKeepsInvariant(w, chance, events[..n]);
      StepKeepsInvariant(w, Play(w, Created(w, chance), events[..n]), events[n]);
    }
  }

  /** At most one event ends the run, nothing follows it, and the status is the one it names. */
  lemma {:induction false} RunEndsOnce(w: Workflow, chance: Chance, events: seq<Event>, k: nat)
    requires k < |Play(w, Created(w, chance), events).run.log|
    ensures var run := Play(w, Created(w, chance), events).run;
            && (EndsRun(run.log[k].event) ==> k == |run.log| - 1 && run.status == StatusOf(run.log[k].event))
            && (Terminal(run.status) ==> EndsRun(run.log[|run.log| - 1].event))
  {
    EveryRunKeepsInvariant(w, chance, events);
    var run := Play(w, Created(w, chance), events).run;
    if k < |run.log| - 1 { assert run.log[k] in run.log[..|run.log| - 1]; }
    assert run.log[k] in run.log;
  }

  lemma {:induction false} EndedStays(w: Workflow, m: Host, e: Event)
    requires Ended(m.run) && m.asleep.None?
    ensures Step(w, m, e).run == m.run && Step(w, m, e).asleep.None?
  {}

  /** A terminal run is left alone, row, log and interrupts, by everything that can still happen. */
  lemma {:induction false} TerminalIsFinal(w: Workflow, chance: Chance, events: seq<Event>, later: seq<Event>)
    requires Terminal(Play(w, Created(w, chance), events).run.status)
    ensures var m := Play(w, Created(w, chance), events);
            Play(w, m, later).run == m.run && Play(w, m, later).asleep.None?
    decreases |later|
  {
    EveryRunKeepsInvariant(w, chance, events);
    if later != [] {
      var n := |later| - 1;
      TerminalIsFinal(w, chance, events, later[..n]);
      EndedStays(w, Play(w, Play(w, Created(w, chance), events), later[..n]), later[n]);
    }
  }

  /** An active interrupt means a run that waits, in the way its kind says, with the cursor on its node. */
  lemma {:induction false} ActiveMeansWaiting(w: Workflow, chance: Chance, events: seq<Event>, node: string)
    requires ActiveRow(Play(w, Created(w, chance), events).run, node).Some?
    ensures var m := Play(w, Created(w, chance), events);
            && m.run.status == WaitingStatus(m.run.gates[node].kind) && m.asleep.None? && !m.run.claimed
            && m.run.cursor < |w.nodes| && w.nodes[m.run.cursor].id == node
  {
    EveryRunKeepsInvariant(w, chance, events);
  }

  // ------------------------------------------------------------- each node once

  function Ids(w: Workflow): (ids: seq<string>)
    ensures |ids| == |w.nodes|
    ensures forall i {:trigger ids[i]} | 0 <= i < |ids| :: ids[i] == w.nodes[i].id
  {
    seq(|w.nodes|, i requires 0 <= i < |w.nodes| => w.nodes[i].id)
  }

  /** A bearer request that read the run at a gate of kind `a` can release one of kind `b` under the same id. */
  predicate Answers(a: Approval.Kind, b: Approval.Kind) {
    if a.ApprovalGate? then b.ApprovalGate? else b.ClarificationGate?
  }

  /** No request that read the run at one gate can release a later one. */
  ghost predicate GatesApart(w: Workflow) {
    forall i, j | 0 <= i < j < |w.nodes| && w.nodes[i].kind.Gate? && w.nodes[j].kind.Gate?
                  && Answers(w.nodes[i].kind.kind, w.nodes[j].kind.kind) ::
      w.nodes[i].id != w.nodes[j].id
  }

  /** The nodes of the node.completed events, in log order. */
  function CompletedNodes(log: seq<Logged>): seq<string> {
    if log == [] then []
    else
      var n := |log| - 1;
      var before := CompletedNodes(log[..n]);
      if log[n].event.NodeCompleted? && log[n].node.Some? then before + [log[n].node.value] else before
  }

  lemma {:induction false} CompletedOneMore(log: seq<Logged>, e: Logged)
    ensures CompletedNodes(log + [e])
         == CompletedNodes(log) + if e.event.NodeCompleted? && e.node.Some? then [e.node.value] else []
  {
    assert (log + [e])[..|log|] == log;
    if !(e.event.NodeCompleted? && e.node.Some?) { assert CompletedNodes(log) + [] == CompletedNodes(log); }
  }

  function Done(run: Run): seq<string> { CompletedNodes(run.log) }

  predicate CompletesNone(ws: seq<Write>) {
    forall x | x in ws :: x.Append? ==> !x.event.NodeCompleted?
  }

  lemma {:induction false} DoneAfterWrite(run: Run, x: Write)
    ensures Done(Apply(run, x))
         == if x.Append? && x.event.NodeCompleted? && x.node.Some? then Done(run) + [x.node.value] else Done(run)
  {
    if x.Append? { CompletedOneMore(run.log, Logged(|run.log|, x.event, x.node)); }
    assert Done(run) + [] == Done(run);
  }

  lemma {:induction false} DoneUnchanged(run: Run, ws: seq<Write>)
    requires CompletesNone(ws)
    ensures Done(ApplyAll(run, ws)) == Done(run)
    decreases |ws|
  {
    if ws != [] {
      DoneAfterWrite(run, ws[0]);
      DoneUnchanged(Apply(run, ws[0]), ws[1..]);
    }
  }

  lemma {:induction false} DoneGrows(run: Run, ws: seq<Write>)
    ensures |Done(run)| <= |Done(ApplyAll(run, ws))|
    decreases |ws|
  {
    if ws != [] {
      DoneAfterWrite(run, ws[0]);
      DoneGrows(Apply(run, ws[0]), ws[1..]);
    }
  }

  lemma {:induction false} AppendsKeepRow(run: Run, ws: seq<Write>)
    requires forall x | x in ws :: x.Append?
    ensures var after := ApplyAll(run, ws);
            after.(log := run.log) == run && |after.log| == |run.log| + |ws|
    decreases |ws|
  {
    if ws != [] {
      assert ws[0] in ws;
      AppendsKeepRow(Apply(run, ws[0]), ws[1..]);
    }
  }

  /** The completed nodes are the first of the workflow, each once; all of them when the run has completed. */
  ghost predicate InOrder(w: Workflow, run: Run) {
    && |Done(run)| <= |w.nodes| && Done(run) == Ids(w)[..|Done(run)|]
    && (!Terminal(run.status) ==> |Done(run)| == run.cursor)
    && (run.status.Completed? ==> |Done(run)| == |w.nodes|)
  }

  ghost predicate Reached(w: Workflow, run: Run, i: nat) {
    i <= |w.nodes| && run.cursor == i && run.status.Running?
  }

  /** Execution from node i completes the nodes it passes, in order, and leaves the cursor past them. */
  ghost predicate Passed(w: Workflow, run: Run, i: nat, after: Run) {
    && i <= after.cursor <= |w.nodes| && Done(after) == Done(run) + Ids(w)[i..after.cursor]
    && (after.status.Completed? ==> after.cursor == |w.nodes|)
    && !after.status.Cancelled?
  }

  /** Ending a run that has come to node i, with events before that complete no node. */
  lemma {:induction false} EndingPasses(w: Workflow, run: Run, i: nat, before: seq<Write>, event: EventType)
    requires Reached(w, run, i) && CompletesNone(before) && forall x | x in before :: x.Append?
    requires event.RunFailed? || (event.RunCompleted? && i == |w.nodes|)
    ensures Passed(w, run, i, ApplyAll(run, before + Ending(event, StatusOf(event))))
  {
    DoneUnchanged(run, before);
    AppendsKeepRow(run, before);
    ApplyAllOfConcat(run, before, Ending(event, StatusOf(event)));
    var mid := ApplyAll(run, before);
    DoneUnchanged(mid, Ending(event, StatusOf(event)));
    ApplyThree(mid, Append(event, None), SetStatus(StatusOf(event)), Release);
  }

  lemma {:induction false} StopPasses(w: Workflow, run: Run, i: nat, chance: Chance)
    requires Reached(w, run, i) && !GoesOn(w, run, i, chance)
    ensures Passed(w, run, i, ApplyAll(run, Stop(w, run, i, chance).0))
  {
    if i == |w.nodes| {
      EndingPasses(w, run, i, [Append(MemoryWritten, None)], RunCompleted);
    } else if OverLimit(w, i) {
      EndingPasses(w, run, i, [Append(CapBreached, Some(w.nodes[i].id))], RunFailed);
    } else if w.nodes[i].kind.Work? {
      EndingPasses(w, run, i, Unfinished(w.nodes[i], chance.result(i)), RunFailed);
    } else if w.nodes[i].kind.Delay? {
      ApplyOne(run, Append(NodeStarted, Some(w.nodes[i].id)));
      DoneAfterWrite(run, Append(NodeStarted, Some(w.nodes[i].id)));
    } else {
      var ws := Suspending(run, w.nodes[i], i, chance.expires(i));
      DoneUnchanged(run, ws);
      ApplyFive(run, ws[0], ws[1], ws[2], ws[3], ws[4]);
    }
  }

  /** node.completed for a node, and a move of the cursor. */
  lemma {:induction false} CompletedMoves(run: Run, node: string, next: Write)
    requires next.SetCursor? || next.SetBoth?
    ensures var completed := Append(NodeCompleted, Some(node));
            && ApplyAll(run, [completed, next]) == Apply(Apply(run, completed), next)
            && Done(ApplyAll(run, [completed, next])) == Done(run) + [node]
  {
    var completed := Append(NodeCompleted, Some(node));
    ApplyTwo(run, completed, next);
    DoneAfterWrite(run, completed);
    DoneAfterWrite(Apply(run, completed), next);
  }

  lemma {:induction false} CompletingReaches(w: Workflow, run: Run, i: nat)
    requires Reached(w, run, i) && i < |w.nodes|
    ensures var after := ApplyAll(run, Completing(w.nodes[i], i));
            Reached(w, after, i + 1) && Done(after) == Done(run) + [w.nodes[i].id]
  {
    var node := w.nodes[i];
    var started := Append(NodeStarted, Some(node.id));
    assert Completing(node, i) == [started] + [Append(NodeCompleted, Some(node.id)), SetCursor(i + 1)];
    ApplyOne(run, started);
    ApplyAllOfConcat(run, [started], [Append(NodeCompleted, Some(node.id)), SetCursor(i + 1)]);
    DoneAfterWrite(run, started);
    CompletedMoves(Apply(run, started), node.id, SetCursor(i + 1));
  }

  lemma {:induction false} PassedOneMore(w: Workflow, run: Run, i: nat, next: Run, after: Run)
    requires i < |w.nodes| && Done(next) == Done(run) + [w.nodes[i].id] && Passed(w, next, i + 1, after)
    ensures Passed(w, run, i, after)
  {
    assert Ids(w)[i..after.cursor] == [Ids(w)[i]] + Ids(w)[i + 1..after.cursor];
  }

  lemma {:induction false} SlicePasses(w: Workflow, run: Run, i: nat, chance: Chance)
    requires Reached(w, run, i)
    ensures Passed(w, run, i, ApplyAll(run, Slice(w, run, i, chance).0))
    decreases |w.nodes| - i
  {
    if GoesOn(w, run, i, chance) {
      var here := Completing(w.nodes[i], i);
      var next := ApplyAll(run, here);
      CompletingReaches(w, run, i);
      SlicePasses(w, next, i + 1, chance);
      ApplyAllOfConcat(run, here, Slice(w, next, i + 1, chance).0);
      PassedOneMore(w, run, i, next, ApplyAll(run, Slice(w, run, i, chance).0));
    } else {
      StopPasses(w, run, i, chance);
    }
  }

  lemma {:induction false} AnnouncedRow(run: Run)
    ensures var announced := ApplyAll(run, Announcing(run));
            announced == run.(status := Running, log := announced.log) && Done(announced) == Done(run)
  {
    ApplyTwo(run, Announcing(run)[0], Announcing(run)[1]);
    DoneUnchanged(run, Announcing(run));
  }

  lemma {:induction false} ClaimedPasses(w: Workflow, run: Run, chance: Chance)
    requires run.cursor <= |w.nodes|
    ensures Passed(w, run, run.cursor, ApplyAll(run, [Claim] + Executing(w, Apply(run, Claim), chance).0))
  {
    var claimed := Apply(run, Claim);
    var announced := ApplyAll(claimed, Announcing(claimed));
    ApplyOne(run, Claim);
    ApplyAllOfConcat(run, [Claim], Executing(w, claimed, chance).0);
    ApplyAllOfConcat(claimed, Announcing(claimed), Slice(w, announced, run.cursor, chance).0);
    AnnouncedRow(claimed);
    SlicePasses(w, announced, run.cursor, chance);
  }

  lemma {:induction false} PassedInOrder(w: Workflow, run: Run, i: nat, after: Run)
    requires i <= |w.nodes| && Done(run) == Ids(w)[..i] && Passed(w, run, i, after)
    ensures InOrder(w, after)
  {
    assert Ids(w)[..i] + Ids(w)[i..after.cursor] == Ids(w)[..after.cursor];
  }

  /** What a request remembers: a cursor that was on the gate it names. */
  ghost predicate Remembers(w: Workflow, h: Handler) {
    && h.cursor < |w.nodes| && w.nodes[h.cursor].id == h.node
    && w.nodes[h.cursor].kind.Gate? && w.nodes[h.cursor].kind.kind == h.kind
  }

  ghost predicate Orderly(w: Workflow, m: Host) {
    && Invariant(w, m.run, m.asleep) && InOrder(w, m.run)
    && forall h | h in m.handlers :: Remembers(w, h) && h.cursor <= |Done(m.run)|
  }

  /** A row put, some events told, the node completed and the cursor moved. */
  lemma {:induction false} PutToldAndMoved(run: Run, node: string, row: Approval.Interrupt, told: seq<Write>, next: Write)
    requires next.SetBoth? && CompletesNone(told) && forall x | x in told :: x.Append?
    ensures var after := ApplyAll(run, [Put(node, row)] + (told + [Append(NodeCompleted, Some(node)), next]));
            && after.claimed == run.claimed && after.gates == run.gates[node := row]
            && after.cursor == next.cursor && Done(after) == Done(run) + [node]
  {
    var put := Apply(run, Put(node, row));
    ApplyOne(run, Put(node, row));
    ApplyAllOfConcat(run, [Put(node, row)], told + [Append(NodeCompleted, Some(node)), next]);
    ApplyAllOfConcat(put, told, [Append(NodeCompleted, Some(node)), next]);
    AppendsKeepRow(put, told);
    DoneUnchanged(put, told);
    CompletedMoves(ApplyAll(put, told), node, next);
  }

  /** Where a released gate leaves the run. */
  lemma {:induction false} ReleasedRow(run: Run, h: Handler, outcome: Approval.ResolveOutcome, row: Approval.Interrupt)
    requires outcome.Resumed? || outcome.Refined?
    ensures var after := ApplyAll(run, Settling(run, h, outcome, row));
            && after.claimed == run.claimed && after.gates == run.gates[h.node := row]
            && after.cursor == (if outcome.Refined? then run.cursor else if h.byToken then run.cursor + 1 else h.cursor + 1)
            && Done(after) == Done(run) + if outcome.Resumed? then [h.node] else []
  {
    var ws, node := Settling(run, h, outcome, row), Some(h.node);
    if outcome.Refined? {
      DoneUnchanged(run, ws);
      ApplyThree(run, ws[0], ws[1], ws[2]);
      assert Done(run) + [] == Done(run);
    } else if h.byToken {
      var told, next := [Append(NodeResumed, node)], SetBoth(Running, run.cursor + 1);
      PutToldAndMoved(run, h.node, row, told, next);
      assert ws == [Put(h.node, row)] + (told + [Append(NodeCompleted, node), next]);
    } else {
      var told, next := [Append(InterruptResolved, node), Append(NodeResumed, node)], SetBoth(Running, h.cursor + 1);
      PutToldAndMoved(run, h.node, row, told, next);
      assert ws == [Put(h.node, row)] + (told + [Append(NodeCompleted, node), next]);
    }
  }

  /** Releasing the gate the cursor is on completes exactly that node and moves past it. */
  lemma {:induction false} ReleasingInOrder(w: Workflow, run: Run, h: Handler, outcome: Approval.ResolveOutcome, row: Approval.Interrupt)
    requires run.cursor < |w.nodes| && w.nodes[run.cursor].id == h.node
    requires outcome.Refined? || (outcome.Resumed? && (h.byToken || h.cursor == run.cursor))
    requires Done(run) == Ids(w)[..run.cursor]
    ensures var after := ApplyAll(run, Settling(run, h, outcome, row));
            && after.cursor == run.cursor + (if outcome.Resumed? then 1 else 0)
            && Done(after) == Ids(w)[..after.cursor]
  {
    ReleasedRow(run, h, outcome, row);
    assert Ids(w)[..run.cursor + 1] == Ids(w)[..run.cursor] + [Ids(w)[run.cursor]];
  }

  /** A bearer request releases only gates of a kind that answers to the one it read. */
  lemma {:induction false} ReleasesItsKind(run: Run, h: Handler, reply: Reply)
    requires ActiveRow(run, h.node).Some? && !h.byToken && Resolution(run, h, reply).0.Resumed?
    ensures Answers(h.kind, run.gates[h.node].kind)
  {}

  lemma {:induction false} CompletedThenFailed(w: Workflow, run: Run, i: nat)
    requires i < |w.nodes| && Done(run) == Ids(w)[..i]
    ensures InOrder(w, ApplyAll(run, [Append(NodeCompleted, Some(w.nodes[i].id))] + Ending(RunFailed, Failed)))
  {
    var c := Append(NodeCompleted, Some(w.nodes[i].id));
    var completed := Apply(run, c);
    ApplyOne(run, c);
    DoneAfterWrite(run, c);
    ApplyAllOfConcat(run, [c], Ending(RunFailed, Failed));
    DoneUnchanged(completed, Ending(RunFailed, Failed));
    ApplyThree(completed, Append(RunFailed, None), SetStatus(Failed), Release);
    assert Ids(w)[..i + 1] == Ids(w)[..i] + [Ids(w)[i]];
  }

  lemma {:induction false} RejectingInOrder(w: Workflow, run: Run, node: string, row: Approval.Interrupt)
    requires run.cursor < |w.nodes| && w.nodes[run.cursor].id == node && Done(run) == Ids(w)[..run.cursor]
    ensures InOrder(w, ApplyAll(run, [Put(node, row), Append(InterruptResolved, Some(node)), Append(NodeCompleted, Some(node))]
                                     + Ending(RunFailed, Failed)))
  {
    var told := [Put(node, row), Append(InterruptResolved, Some(node))];
    var rest := [Append(NodeCompleted, Some(node))] + Ending(RunFailed, Failed);
    assert [Put(node, row), Append(InterruptResolved, Some(node)), Append(NodeCompleted, Some(node))] + Ending(RunFailed, Failed)
        == told + rest;
    ApplyAllOfConcat(run, told, rest);
    DoneUnchanged(run, told);
    CompletedThenFailed(w, ApplyAll(run, told), run.cursor);
  }

  /** A bearer request that releases the gate read the run at that gate. */
  ghost predicate Current(w: Workflow, run: Run, h: Handler, reply: Reply) {
    ActiveRow(run, h.node).Some? && !h.byToken && Resolution(run, h, reply).0.Resumed? ==> h.cursor == run.cursor
  }

  lemma {:induction false} ApartIsCurrent(w: Workflow, m: Host, h: Handler, reply: Reply)
    requires GatesApart(w) && Orderly(w, m) && Remembers(w, h) && h.cursor <= |Done(m.run)|
    ensures Current(w, m.run, h, reply)
  {
    if ActiveRow(m.run, h.node).Some? && !h.byToken && Resolution(m.run, h, reply).0.Resumed? {
      ReleasesItsKind(m.run, h, reply);
    }
  }

  lemma {:induction false} BodyInOrder(w: Workflow, m: Host, h: Handler, reply: Reply, chance: Chance)
    requires Orderly(w, m) && Remembers(w, h) && h.cursor <= |Done(m.run)| && Current(w, m.run, h, reply)
    ensures InOrder(w, ApplyAll(m.run, BodyArrives(w, m, h, reply, chance).0))
  {
    if ActiveRow(m.run, h.node).Some? {
      var (outcome, row) := Resolution(m.run, h, reply);
      var before := Settling(m.run, h, outcome, row);
      if outcome.Resumed? || outcome.Refined? {
        ReleasingInOrder(w, m.run, h, outcome, row);
        var settled := ApplyAll(m.run, before);
        ResolutionCloses(m.run, h, reply);
        SettlingKeeps(w, m.run, h, outcome, row);
        ApplyAllOfConcat(m.run, before, [Claim] + Executing(w, Apply(settled, Claim), chance).0);
        ClaimedPasses(w, settled, chance);
        PassedInOrder(w, settled, settled.cursor, ApplyAll(m.run, BodyArrives(w, m, h, reply, chance).0));
      } else if outcome.Rejected? {
        RejectingInOrder(w, m.run, h.node, row);
      } else {
        DoneUnchanged(m.run, before);
        if outcome.Expired? { ApplyOne(m.run, before[0]); }
        if outcome.Pending? { ApplyTwo(m.run, before[0], before[1]); }
      }
    }
  }

  lemma {:induction false} WakeInOrder(w: Workflow, m: Host, chance: Chance)
    requires Orderly(w, m) && m.asleep.Some?
    ensures InOrder(w, Step(w, m, Wake(chance)).run)
  {
    var i := m.asleep.value;
    var here := [Append(NodeCompleted, Some(w.nodes[i].id)), SetCursor(i + 1)];
    var next := ApplyAll(m.run, here);
    CompletedMoves(m.run, w.nodes[i].id, SetCursor(i + 1));
    ApplyAllOfConcat(m.run, here, Slice(w, next, i + 1, chance).0);
    SlicePasses(w, next, i + 1, chance);
    assert Ids(w)[..i + 1] == Ids(w)[..i] + [Ids(w)[i]];
    PassedInOrder(w, next, i + 1, Step(w, m, Wake(chance)).run);
  }

  /** A step that ends the run short of completion, or only marks it, completes no node. */
  lemma {:induction false} EndingInOrder(w: Workflow, run: Run, before: seq<Write>, event: EventType, status: Status)
    requires InOrder(w, run) && CompletesNone(before) && !event.NodeCompleted? && (status.Failed? || status.Cancelled?)
    ensures InOrder(w, ApplyAll(run, before + Ending(event, status)))
  {
    DoneUnchanged(run, before);
    ApplyAllOfConcat(run, before, Ending(event, status));
    var mid := ApplyAll(run, before);
    DoneUnchanged(mid, Ending(event, status));
    ApplyThree(mid, Append(event, None), SetStatus(status), Release);
  }

  lemma {:induction false} StepInOrder(w: Workflow, m: Host, e: Event)
    requires GatesApart(w) && Orderly(w, m)
    ensures InOrder(w, Step(w, m, e).run)
  {
    match e
    case Launch(_, _) =>
    case Wake(chance) => if m.asleep.Some? { WakeInOrder(w, m, chance); }
    case Deadline =>
      if m.asleep.Some? {
        EndingInOrder(w, m.run, [Append(NodeCancelled, Some(w.nodes[m.asleep.value].id)), Append(CapBreached, None)], RunFailed, Failed);
      }
    case Cancel(reason, now) =>
      if IsWaiting(m.run.status) {
        EndingInOrder(w, m.run, [InvalidateAll(reason, now)], RunCancelled, Cancelled);
      } else if m.asleep.Some? {
        EndingInOrder(w, m.run, [RequestCancel, Append(NodeCancelled, Some(w.nodes[m.asleep.value].id))], RunCancelled, Cancelled);
      }
    case Read(_, _) =>
    case Body(k, reply, chance) =>
      if k < |m.handlers| {
        ApartIsCurrent(w, m, m.handlers[k], reply);
        BodyInOrder(w, m, m.handlers[k], reply, chance);
      }
  }

  lemma {:induction false} StepOrderly(w: Workflow, m: Host, e: Event)
    requires GatesApart(w) && Orderly(w, m)
    ensures Orderly(w, Step(w, m, e))
  {
    StepKeepsInvariant(w, m, e);
    StepInOrder(w, m, e);
    DoneGrows(m.run, Plan(w, m, e).0);
  }

  /**
   * Without crashes, and where no two gates share an id so that a request for one answers the
   * other, the node.completed events are the first nodes of the workflow in order, each once; all
   * of them once the run has completed.
   */
  lemma {:induction false} EachNodeOnce(w: Workflow, chance: Chance, events: seq<Event>)
    requires GatesApart(w)
    ensures Orderly(w, Play(w, Created(w, chance), events))
    decreases |events|
  {
    if events == [] {
      EveryRunKeepsInvariant(w, chance, []);
      assert Ids(w)[..0] == [];
      ClaimedPasses(w, FRESH, chance);
      PassedInOrder(w, FRESH, 0, Created(w, chance).run);
    } else {
      var n := |events| - 1;
      EachNodeOnce(w, chance, events[..n]);
      StepOrderly(w, Play(w, Created(w, chance), events[..n]), events[n]);
    }
  }

  // ------------------------------------------------- where gates do share an id

  /**
   * Whatever the ids, a bearer request that releases a gate sends the run on from the node it read:
   * the nodes from there to the gate are run again. Unless the run fails in that step, order is kept
   * exactly if the request read the run at this very gate.
   */
  lemma {:induction false} ReleaseKeepsOrderIff(w: Workflow, m: Host, h: Handler, reply: Reply, chance: Chance)
    requires Orderly(w, m) && Remembers(w, h) && h.cursor <= m.run.cursor && !h.byToken
    requires ActiveRow(m.run, h.node).Some? && Resolution(m.run, h, reply).0.Resumed?
    ensures var after := ApplyAll(m.run, BodyArrives(w, m, h, reply, chance).0);
            && m.run.cursor < |w.nodes| && h.cursor + 1 <= after.cursor <= |w.nodes|
            && Done(after) == Ids(w)[..m.run.cursor + 1] + Ids(w)[h.cursor + 1..after.cursor]
            && (!after.status.Failed? ==> (InOrder(w, after) <==> h.cursor == m.run.cursor))
  {
    var (outcome, row) := Resolution(m.run, h, reply);
    var before := Settling(m.run, h, outcome, row);
    var settled := ApplyAll(m.run, before);
    ReleasedRow(m.run, h, outcome, row);
    ApplyAllOfConcat(m.run, before, [Claim] + Executing(w, Apply(settled, Claim), chance).0);
    ClaimedPasses(w, settled, chance);
    assert Ids(w)[..m.run.cursor + 1] == Ids(w)[..m.run.cursor] + [Ids(w)[m.run.cursor]];
    if h.cursor == m.run.cursor { BodyInOrder(w, m, h, reply, chance); }
  }

  /** Two gates that share their id, each released by one accept. */
  function TwinGates(): Workflow {
    var gate := Node("g", Gate(Approval.ApprovalGate, Approval.Config(["accept"], None, false)));
    Workflow([gate, gate], None)
  }

  function Accepting(): Reply { Reply(Approval.Fields(Some("accept"), None, false, false), false, 0) }

  /** Waiting afresh at gate i, with `done` nodes completed. */
  ghost predicate WaitsAt(run: Run, i: nat, done: seq<string>) {
    && run.cursor == i && run.status.WaitingApproval? && !run.claimed && Done(run) == done
    && "g" in run.gates && run.gates["g"] == Approval.Interrupt(Approval.ApprovalGate, TwinGates().nodes[0].kind.config, [], None, None, None)
  }

  lemma {:induction false} AcceptResumes(row: Approval.Interrupt)
    requires row.Active() && row.kind.ApprovalGate? && row.expiresAt.None? && row.votes == []
    requires row.config == Approval.Config(["accept"], None, false)
    ensures var r := Approval.Resolve(row, Accepting().request, 0); r.0.Resumed? && !r.1.Active()
  {
    var vote := Approval.Vote("accept", None, 0);
    assert Approval.Cast([], vote) == [vote] && Approval.Accepts([vote]) == 1;
  }

  lemma {:induction false} TwinSuspendsAnnounced(run: Run, chance: Chance)
    requires run.cursor < 2 && run.status.Running? && ("g" in run.gates ==> !run.gates["g"].Active())
    ensures var r := Slice(TwinGates(), run, run.cursor, chance); WaitsAt(ApplyAll(run, r.0), run.cursor, Done(run)) && r.1.None?
  {
    var w := TwinGates();
    var ws := Suspending(run, w.nodes[run.cursor], run.cursor, chance.expires(run.cursor));
    ApplyFive(run, ws[0], ws[1], ws[2], ws[3], ws[4]);
    DoneUnchanged(run, ws);
  }

  lemma {:induction false} TwinSuspends(run: Run, chance: Chance)
    requires run.cursor < 2 && ("g" in run.gates ==> !run.gates["g"].Active())
    ensures var r := Executing(TwinGates(), Apply(run, Claim), chance);
            WaitsAt(ApplyAll(run, [Claim] + r.0), run.cursor, Done(run)) && r.1.None?
  {
    var w, claimed := TwinGates(), Apply(run, Claim);
    var announced := ApplyAll(claimed, Announcing(claimed));
    ApplyOne(run, Claim);
    AnnouncedRow(claimed);
    ApplyAllOfConcat(run, [Claim], Executing(w, claimed, chance).0);
    ApplyAllOfConcat(claimed, Announcing(claimed), Slice(w, announced, run.cursor, chance).0);
    TwinSuspendsAnnounced(announced, chance);
  }

  /** Either gate is released by a request that read the run at the first one, and the second is entered. */
  lemma {:induction false} TwinReleased(m: Host, h: Handler, chance: Chance)
    requires h == Handler("g", 0, Approval.ApprovalGate, false) && WaitsAt(m.run, m.run.cursor, Done(m.run))
    ensures var r := BodyArrives(TwinGates(), m, h, Accepting(), chance);
            WaitsAt(ApplyAll(m.run, r.0), 1, Done(m.run) + ["g"]) && r.1.None?
  {
    AcceptResumes(m.run.gates["g"]);
    var (outcome, row) := Resolution(m.run, h, Accepting());
    var before := Settling(m.run, h, outcome, row);
    ReleasedRow(m.run, h, outcome, row);
    var settled := ApplyAll(m.run, before);
    TwinSuspends(settled, chance);
    ApplyAllOfConcat(m.run, before, [Claim] + Executing(TwinGates(), Apply(settled, Claim), chance).0);
  }

  lemma {:induction false} PlayOneMore(w: Workflow, m: Host, events: seq<Event>, e: Event)
    ensures Play(w, m, events + [e]) == Step(w, Play(w, m, events), e)
  {
    assert (events + [e])[..|events|] == events;
  }

  /**
   * With a repeated id the theorem fails: of two requests that both read the run at the first
   * gate, the second releases the second gate and then sends the run back to it.
   */
  lemma {:induction false} RepeatedIdRepeatsNode(chance: Chance)
    ensures var read, body := Read("g", false), Body(0, Accepting(), chance);
            var run := Play(TwinGates(), Created(TwinGates(), chance), [] + [read] + [read] + [body] + [body]).run;
            run.cursor == 1 && Done(run) == ["g"] + ["g"] && !InOrder(TwinGates(), run)
  {
    var w, h := TwinGates(), Handler("g", 0, Approval.ApprovalGate, false);
    var read, body := Read("g", false), Body(0, Accepting(), chance);
    var m0 := Created(w, chance);
    TwinSuspends(FRESH, chance);
    PlayOneMore(w, m0, [], read);
    var m1 := Step(w, m0, read);
    PlayOneMore(w, m0, [] + [read], read);
    var m2 := Step(w, m1, read);
    assert m2.run == m0.run && m2.handlers == [h, h];
    TwinReleased(m2, h, chance);
    PlayOneMore(w, m0, [] + [read] + [read], body);
    var m3 := Step(w, m2, body);
    assert m3.handlers == [h];
    TwinReleased(m3, h, chance);
    PlayOneMore(w, m0, [] + [read] + [read] + [body], body);
  }
}
