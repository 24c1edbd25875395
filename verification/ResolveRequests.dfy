/**
 * What a resolve request does to a run (examples/hosts/sqlite/src/server.ts and interrupts.ts), said
 * of its body, its gate and the clock, for every host and every request in flight.
 */
module ResolveRequests {
  import opened Wrappers
  import opened Executor
  import Approval

  /** The log with more events of one node, numbered on. */
  function Extended(log: seq<Logged>, node: Option<string>, events: seq<EventType>): seq<Logged> {
    log + seq(|events|, i requires 0 <= i < |events| => Logged(|log| + i, events[i], node))
  }

  /** The executor goes on from here, unless some process holds the run already. */
  function GoesOnFrom(w: Workflow, run: Run, asleep: Option<nat>, chance: Chance): (Run, Option<nat>) {
    if run.claimed then (run, asleep)
    else
      var claimed := run.(claimed := true);
      (ApplyAll(claimed, Executing(w, claimed, chance).0), Executing(w, claimed, chance).1)
  }

  /** Request k of the host comes to an active row. */
  predicate Finds(m: Host, k: nat, row: Approval.Interrupt) {
    k < |m.handlers| && m.handlers[k].node in m.run.gates && m.run.gates[m.handlers[k].node] == row && row.resolvedAt.None?
  }

  /** The row is of a kind the request's handler resolves, and not an approval. */
  predicate RightKind(h: Handler, row: Approval.Interrupt) {
    if h.byToken then row.kind.ExternalEvent? else !h.kind.ApprovalGate? && row.kind.ClarificationGate?
  }

  predicate Late(row: Approval.Interrupt, now: int) {
    row.kind.ExternalEvent? && row.expiresAt.Some? && row.expiresAt.value <= now
  }

  function Closed(run: Run, node: string, row: Approval.Interrupt, outcome: string, votes: seq<Approval.Vote>, now: int): Run {
    run.(gates := run.gates[node := row.(votes := votes, outcome := Some(outcome), resolvedAt := Some(now))])
  }

  /** What a matching reply leaves before the executor goes on. */
  function Answered(run: Run, h: Handler, row: Approval.Interrupt, now: int): Run {
    var action := if h.byToken then "external-event" else "resolve";
    Closed(run, h.node, row, "resolved", [Approval.Vote(action, None, now)], now)
    .(log := Extended(run.log, Some(h.node),
                      if h.byToken then [NodeResumed, NodeCompleted] else [InterruptResolved, NodeResumed, NodeCompleted]),
      status := Running,
      cursor := (if h.byToken then run.cursor else h.cursor) + 1)
  }

  /** A reply that matches, in time: the gate is closed with one vote and the run goes on past it. */
  lemma {:induction false} MatchingReplyResumes(w: Workflow, m: Host, k: nat, reply: Reply, chance: Chance, row: Approval.Interrupt)
    requires Finds(m, k, row) && RightKind(m.handlers[k], row) && reply.matches && !Late(row, reply.now)
    ensures var after := Step(w, m, Body(k, reply, chance));
            (after.run, after.asleep) == GoesOnFrom(w, Answered(m.run, m.handlers[k], row, reply.now), m.asleep, chance)
  {
    var h := m.handlers[k];
    var (outcome, closed) := Resolution(m.run, h, reply);
    var before := Settling(m.run, h, outcome, closed);
    ApplySettling(m.run, h, outcome, closed);
    assert ApplyAll(m.run, before) == Answered(m.run, h, row, reply.now);
    ResumingGoesOn(w, m.run, before, m.asleep, chance);
  }

  /** One that does not match changes nothing, whenever it comes in time. */
  lemma {:induction false} OtherReplyRefused(w: Workflow, m: Host, k: nat, reply: Reply, chance: Chance, row: Approval.Interrupt)
    requires Finds(m, k, row) && RightKind(m.handlers[k], row) && !reply.matches && !Late(row, reply.now)
    ensures var after := Step(w, m, Body(k, reply, chance)); after.run == m.run && after.asleep == m.asleep
  {}

  /** A late event closes the gate as expired and logs nothing, whatever it says. */
  lemma {:induction false} LateReplyExpires(w: Workflow, m: Host, k: nat, reply: Reply, chance: Chance, row: Approval.Interrupt)
    requires Finds(m, k, row) && RightKind(m.handlers[k], row) && Late(row, reply.now)
    ensures var after := Step(w, m, Body(k, reply, chance));
            after.run == Closed(m.run, m.handlers[k].node, row, "expired", row.votes, reply.now) && after.asleep == m.asleep
  {
    ApplyOne(m.run, Put(m.handlers[k].node, row.(resolvedAt := Some(reply.now), outcome := Some("expired"))));
  }

  /** A request of another kind than the row, or one that finds no active row, changes nothing. */
  lemma {:induction false} OtherKindChangesNothing(w: Workflow, m: Host, k: nat, reply: Reply, chance: Chance)
    requires k < |m.handlers| && (m.handlers[k].byToken || !m.handlers[k].kind.ApprovalGate?)
    requires forall row :: Finds(m, k, row) ==> !RightKind(m.handlers[k], row)
    ensures var after := Step(w, m, Body(k, reply, chance)); after.run == m.run && after.asleep == m.asleep
  {
    var node := m.handlers[k].node;
    if node in m.run.gates && m.run.gates[node].Active() { assert Finds(m, k, m.run.gates[node]); }
  }

  /** What each answer to a vote leaves, before the executor goes on after a release or a refine. */
  function Voted(run: Run, h: Handler, answer: Approval.ResolveOutcome, row: Approval.Interrupt): Run {
    var put := run.(gates := run.gates[h.node := row]);
    match answer
    case Unknown => run
    case Invalid => run
    case Expired => put
    case Pending(_) => put.(log := Extended(run.log, Some(h.node), [InterruptVote]))
    case Refined(_) => put.(log := Extended(run.log, Some(h.node), [InterruptResolved]), status := Running)
    case Rejected(_) =>
      put.(log := Extended(Extended(run.log, Some(h.node), [InterruptResolved, NodeCompleted]), None, [RunFailed]),
           status := Failed, claimed := false)
    case Resumed(_, _) =>
      put.(log := Extended(run.log, Some(h.node), [InterruptResolved, NodeResumed, NodeCompleted]),
           status := Running, cursor := h.cursor + 1)
  }

  /** A vote at an approval gate: the row is what the ledger makes of it, and the run follows the answer. */
  lemma {:induction false} VoteFollowed(w: Workflow, m: Host, k: nat, reply: Reply, chance: Chance, row: Approval.Interrupt)
    requires Finds(m, k, row) && !m.handlers[k].byToken && m.handlers[k].kind.ApprovalGate?
    ensures var after := Step(w, m, Body(k, reply, chance));
            var (answer, next) := Approval.Resolve(row, reply.request, reply.now);
            var settled := Voted(m.run, m.handlers[k], answer, next);
            (after.run, after.asleep)
            == if answer.Resumed? || answer.Refined? then GoesOnFrom(w, settled, m.asleep, chance) else (settled, m.asleep)
  {
    var h := m.handlers[k];
    var (answer, next) := Approval.Resolve(row, reply.request, reply.now);
    ApplySettling(m.run, h, answer, next);
    if answer.Resumed? || answer.Refined? { ResumingGoesOn(w, m.run, Settling(m.run, h, answer, next), m.asleep, chance); }
  }

  lemma {:induction false} ResumingGoesOn(w: Workflow, run: Run, before: seq<Write>, asleep: Option<nat>, chance: Chance)
    ensures var plan := Resuming(w, ApplyAll(run, before), before, asleep, chance);
            (ApplyAll(run, plan.0), plan.1) == GoesOnFrom(w, ApplyAll(run, before), asleep, chance)
  {
    var settled := ApplyAll(run, before);
    if !settled.claimed {
      var rest := Executing(w, Apply(settled, Claim), chance);
      ApplyAllOfConcat(run, before, [Claim] + rest.0);
      ApplyAllOfConcat(settled, [Claim], rest.0);
      ApplyOne(settled, Claim);
    }
  }

  lemma {:induction false} ApplySettling(run: Run, h: Handler, answer: Approval.ResolveOutcome, row: Approval.Interrupt)
    ensures var after := ApplyAll(run, Settling(run, h, answer, row));
            after == if answer.Resumed? && h.byToken then
                       run.(gates := run.gates[h.node := row], log := Extended(run.log, Some(h.node), [NodeResumed, NodeCompleted]),
                            status := Running, cursor := run.cursor + 1)
                     else Voted(run, h, answer, row)
  {
    var node, put := Some(h.node), Put(h.node, row);
    match answer {
      case Expired => ApplyOne(run, put);
      case Pending(_) => ApplyTwo(run, put, Append(InterruptVote, node));
      case Refined(_) => ApplyThree(run, put, Append(InterruptResolved, node), SetStatus(Running));
      case Rejected(_) => ApplyRejecting(run, h, row);
      case Resumed(_, _) => ApplyReleasing(run, h, row);
      case _ =>
    }
  }

  lemma {:induction false} ApplyRejecting(run: Run, h: Handler, row: Approval.Interrupt)
    ensures ApplyAll(run, [Put(h.node, row), Append(InterruptResolved, Some(h.node)), Append(NodeCompleted, Some(h.node))]
                          + Ending(RunFailed, Failed))
         == run.(gates := run.gates[h.node := row],
                 log := Extended(Extended(run.log, Some(h.node), [InterruptResolved, NodeCompleted]), None, [RunFailed]),
                 status := Failed, claimed := false)
  {
    var node, put := Some(h.node), Put(h.node, row);
    var first := [put, Append(InterruptResolved, node), Append(NodeCompleted, node)];
    ApplyAllOfConcat(run, first, Ending(RunFailed, Failed));
    ApplyThree(run, put, Append(InterruptResolved, node), Append(NodeCompleted, node));
    ApplyThree(ApplyAll(run, first), Append(RunFailed, None), SetStatus(Failed), Release);
  }

  lemma {:induction false} ApplyReleasing(run: Run, h: Handler, row: Approval.Interrupt)
    ensures ApplyAll(run, [Put(h.node, row), Append(NodeResumed, Some(h.node)), Append(NodeCompleted, Some(h.node)),
                           SetBoth(Running, run.cursor + 1)])
         == run.(gates := run.gates[h.node := row], log := Extended(run.log, Some(h.node), [NodeResumed, NodeCompleted]),
                 status := Running, cursor := run.cursor + 1)
    ensures ApplyAll(run, [Put(h.node, row), Append(InterruptResolved, Some(h.node)), Append(NodeResumed, Some(h.node)),
                           Append(NodeCompleted, Some(h.node)), SetBoth(Running, h.cursor + 1)])
         == run.(gates := run.gates[h.node := row],
                 log := Extended(run.log, Some(h.node), [InterruptResolved, NodeResumed, NodeCompleted]),
                 status := Running, cursor := h.cursor + 1)
  {
    var node, put := Some(h.node), Put(h.node, row);
    ApplyFour(run, put, Append(NodeResumed, node), Append(NodeCompleted, node), SetBoth(Running, run.cursor + 1));
    ApplyFive(run, put, Append(InterruptResolved, node), Append(NodeResumed, node), Append(NodeCompleted, node),
              SetBoth(Running, h.cursor + 1));
  }
}
