/**
 * The durable run executor of the SQLite host (examples/hosts/sqlite/src/server.ts):
 * one run, its row, event log and interrupts, and what the single-threaded host does
 * between two real waits. What such a step does is the list of its SQL writes in order,
 * so that a crash is a list cut short.
 */
module Executor {
  import opened Wrappers
  import Approval

  datatype Status =
    | Pending | Running | Cancelling
    | WaitingApproval | WaitingInput | WaitingExternal
    | Completed | Failed | Cancelled

  predicate Terminal(s: Status) { s.Completed? || s.Failed? || s.Cancelled? }

  predicate IsWaiting(s: Status) { s.WaitingApproval? || s.WaitingInput? || s.WaitingExternal? }

  datatype EventType =
    | RunStarted | RunResumed | RunCompleted | RunFailed | RunCancelled
    | NodeStarted | NodeCompleted | NodeFailed | NodeCancelled | NodeSuspended | NodeResumed
    | InterruptVote | InterruptResolved | CapBreached | MemoryWritten | CapabilityInsufficient

  datatype Logged = Logged(sequence: int, event: EventType, node: Option<string>)

  predicate EndsRun(e: EventType) { e.RunCompleted? || e.RunFailed? || e.RunCancelled? }

  /**
   * Work is every node type that finishes without a real wait; how it ends is for its
   * surroundings to say. core.subWorkflow and core.dispatch are not among them.
   */
  datatype NodeKind = Work | Delay | Gate(kind: Approval.Kind, config: Approval.Config)

  datatype Node = Node(id: string, kind: NodeKind)

  datatype Workflow = Workflow(nodes: seq<Node>, recursionLimit: Option<int>)

  /** How a Work node ends: refused before it starts, failed after, or thrown out of. */
  datatype Result = Completes | Refuses(reported: bool) | Fails | Throws

  /** What the surroundings decide during one step, node by node. */
  datatype Chance = Chance(result: nat -> Result, expires: nat -> Option<int>)

  /** The run's row, its events and its interrupts. */
  datatype Run = Run(
    status: Status,
    cursor: nat,
    claimed: bool,
    log: seq<Logged>,
    gates: map<string, Approval.Interrupt>)

  const FRESH: Run := Run(Pending, 0, false, [], map[])

  /** One SQL statement. */
  datatype Write =
    | Append(event: EventType, node: Option<string>)
    | SetStatus(status: Status)
    | SetCursor(cursor: nat)
    | SetBoth(status: Status, cursor: nat)
    | RequestCancel
    | Claim
    | Release
    | Put(gate: string, row: Approval.Interrupt)
    | InvalidateAll(reason: string, now: int)

  function Apply(run: Run, write: Write): Run {
    match write
    case Append(event, node) => run.(log := run.log + [Logged(|run.log|, event, node)])
    case SetStatus(status) => run.(status := status)
    case SetCursor(cursor) => run.(cursor := cursor)
    case SetBoth(status, cursor) => run.(status := status, cursor := cursor)
    case RequestCancel => if Terminal(run.status) then run else run.(status := Cancelling)
    case Claim => run.(claimed := true)
    case Release => run.(claimed := false)
    case Put(node, row) => run.(gates := run.gates[node := row])
    case InvalidateAll(reason, now) =>
      run.(gates := map n | n in run.gates :: Approval.Invalidated(run.gates[n], reason, now))
  }

  function ApplyAll(run: Run, writes: seq<Write>): Run
    decreases |writes|
  {
    if writes == [] then run else ApplyAll(Apply(run, writes[0]), writes[1..])
  }

  lemma {:induction false} ApplyAllOfConcat(run: Run, a: seq<Write>, b: seq<Write>)
    ensures ApplyAll(run, a + b) == ApplyAll(ApplyAll(run, a), b)
    decreases |a|
  {
    if a == [] {
      assert a + b == b;
    } else {
      assert (a + b)[1..] == a[1..] + b;
      ApplyAllOfConcat(Apply(run, a[0]), a[1..], b);
    }
  }

  lemma {:induction false} ApplyOne(run: Run, a: Write)
    ensures ApplyAll(run, [a]) == Apply(run, a)
  {
    assert [a][1..] == [];
  }

  lemma {:induction false} ApplyTwo(run: Run, a: Write, b: Write)
    ensures ApplyAll(run, [a, b]) == Apply(Apply(run, a), b)
  {
    assert [a, b][1..] == [b];
    ApplyOne(Apply(run, a), b);
  }

  lemma {:induction false} ApplyThree(run: Run, a: Write, b: Write, c: Write)
    ensures ApplyAll(run, [a, b, c]) == Apply(Apply(Apply(run, a), b), c)
  {
    assert [a, b, c][1..] == [b, c];
    ApplyTwo(Apply(run, a), b, c);
  }

  lemma {:induction false} ApplyFour(run: Run, a: Write, b: Write, c: Write, d: Write)
    ensures ApplyAll(run, [a, b, c, d]) == Apply(Apply(Apply(Apply(run, a), b), c), d)
  {
    assert [a, b, c, d][1..] == [b, c, d];
    ApplyThree(Apply(run, a), b, c, d);
  }

  lemma {:induction false} ApplyFive(run: Run, a: Write, b: Write, c: Write, d: Write, e: Write)
    ensures ApplyAll(run, [a, b, c, d, e]) == Apply(Apply(Apply(Apply(Apply(run, a), b), c), d), e)
  {
    assert [a, b, c, d, e][1..] == [b, c, d, e];
    ApplyFour(Apply(run, a), b, c, d, e);
  }

  // ---------------------------------------------------------------- the executor

  function WaitingStatus(kind: Approval.Kind): Status {
    match kind
    case ApprovalGate => WaitingApproval
    case ClarificationGate => WaitingInput
    case ExternalEvent => WaitingExternal
  }

  /** setRunTerminal after the event that ends the run. */
  function Ending(event: EventType, status: Status): seq<Write> {
    [Append(event, None), SetStatus(status), Release]
  }

  predicate OverLimit(w: Workflow, i: nat) {
    w.recursionLimit.Some? && i + 1 > w.recursionLimit.value
  }

  function GateRow(run: Run, node: Node, expires: Option<int>): Approval.Interrupt
    requires node.kind.Gate?
  {
    Approval.Suspended(if node.id in run.gates then Some(run.gates[node.id]) else None,
                       node.kind.kind, node.kind.config, if node.kind.kind.ExternalEvent? then expires else None)
  }

  function Suspending(run: Run, node: Node, i: nat, expires: Option<int>): seq<Write>
    requires node.kind.Gate?
  {
    [Append(NodeStarted, Some(node.id)), Put(node.id, GateRow(run, node, expires)), Append(NodeSuspended, Some(node.id)),
     SetBoth(WaitingStatus(node.kind.kind), i), Release]
  }

  function Completing(node: Node, i: nat): seq<Write> {
    [Append(NodeStarted, Some(node.id)), Append(NodeCompleted, Some(node.id)), SetCursor(i + 1)]
  }

  function Unfinished(node: Node, result: Result): seq<Write>
    requires !result.Completes?
  {
    match result
    case Refuses(false) => []
    case Refuses(true) => [Append(CapabilityInsufficient, Some(node.id)), Append(NodeFailed, Some(node.id))]
    case Fails => [Append(NodeStarted, Some(node.id)), Append(NodeFailed, Some(node.id))]
    case Throws => [Append(NodeStarted, Some(node.id))]
  }

  /** What one pass of the loop writes when it does not go on to the next node, and whether it now sleeps. */
  function Stop(w: Workflow, run: Run, i: nat, chance: Chance): (seq<Write>, Option<nat>) {
    if i >= |w.nodes| then
      (if run.status.Cancelling? then Ending(RunCancelled, Cancelled)
       else [Append(MemoryWritten, None)] + Ending(RunCompleted, Completed), None)
    else if OverLimit(w, i) then
      ([Append(CapBreached, Some(w.nodes[i].id))] + Ending(RunFailed, Failed), None)
    else if run.status.Cancelling? then (Ending(RunCancelled, Cancelled), None)
    else
      match w.nodes[i].kind
      case Delay => ([Append(NodeStarted, Some(w.nodes[i].id))], Some(i))
      case Gate(_, _) => (Suspending(run, w.nodes[i], i, chance.expires(i)), None)
      case Work =>
        (if chance.result(i).Completes? then [] else Unfinished(w.nodes[i], chance.result(i)) + Ending(RunFailed, Failed), None)
  }

  predicate GoesOn(w: Workflow, run: Run, i: nat, chance: Chance) {
    i < |w.nodes| && !OverLimit(w, i) && !run.status.Cancelling?
    && w.nodes[i].kind.Work? && chance.result(i).Completes?
  }

  /** The loop of runWorkflow from node i to the next real wait or the end. */
  function Slice(w: Workflow, run: Run, i: nat, chance: Chance): (seq<Write>, Option<nat>)
    decreases |w.nodes| - i
  {
    if GoesOn(w, run, i, chance) then
      var here := Completing(w.nodes[i], i);
      var rest := Slice(w, ApplyAll(run, here), i + 1, chance);
      (here + rest.0, rest.1)
    else Stop(w, run, i, chance)
  }

  predicate Started(log: seq<Logged>) {
    log != [] && (log[0].event.RunStarted? || Started(log[1..]))
  }

  function Announcing(run: Run): seq<Write> {
    [SetStatus(Running), Append(if Started(run.log) then RunResumed else RunStarted, None)]
  }

  /** runWorkflow on a run this process has just claimed. */
  function Executing(w: Workflow, run: Run, chance: Chance): (seq<Write>, Option<nat>) {
    var rest := Slice(w, ApplyAll(run, Announcing(run)), run.cursor, chance);
    (Announcing(run) + rest.0, rest.1)
  }

  // ------------------------------------------------------------ the rest of the host

  /** A resolve request between its look-ups and its body: what it remembers. */
  datatype Handler = Handler(node: string, cursor: nat, kind: Approval.Kind, byToken: bool)

  /** What the body of a request turns out to be, as each kind of gate reads it. */
  datatype Reply = Reply(request: Approval.Request, matches: bool, now: int)

  /** The run, the node the executor sleeps in if one is alive, and the requests in flight. */
  datatype Host = Host(run: Run, asleep: Option<nat>, handlers: seq<Handler>)

  datatype Event =
    | Launch(expired: bool, chance: Chance)
    | Wake(chance: Chance)
    | Deadline
    | Cancel(reason: string, now: int)
    | Read(node: string, byToken: bool)
    | Body(handler: nat, reply: Reply, chance: Chance)

  function ActiveRow(run: Run, node: string): Option<Approval.Interrupt> {
    if node in run.gates && run.gates[node].Active() then Some(run.gates[node]) else None
  }

  /** resolveClarification and resolveExternalEvent on the row at hand. */
  function ResolveOther(row: Approval.Interrupt, kind: Approval.Kind, reply: Reply): (Approval.ResolveOutcome, Approval.Interrupt) {
    if row.kind != kind then (Approval.Unknown, row)
    else if kind.ExternalEvent? && row.Expired(reply.now) then
      (Approval.Expired, row.(resolvedAt := Some(reply.now), outcome := Some("expired")))
    else if !reply.matches then (Approval.Invalid, row)
    else
      var action := if kind.ExternalEvent? then "external-event" else "resolve";
      var votes := [Approval.Vote(action, None, reply.now)];
      (Approval.Resumed(votes, action), Approval.Settled(row, "resolved", votes, reply.now))
  }

  function Resolution(run: Run, h: Handler, reply: Reply): (Approval.ResolveOutcome, Approval.Interrupt)
    requires ActiveRow(run, h.node).Some?
  {
    var row := ActiveRow(run, h.node).value;
    if h.byToken then ResolveOther(row, Approval.ExternalEvent, reply)
    else if h.kind.ApprovalGate? then Approval.Resolve(row, reply.request, reply.now)
    else ResolveOther(row, Approval.ClarificationGate, reply)
  }

  /** tryClaim and, if it wins, runWorkflow; `before` has been written to reach `run`. */
  function Resuming(w: Workflow, run: Run, before: seq<Write>, asleep: Option<nat>, chance: Chance): (seq<Write>, Option<nat>) {
    if run.claimed then (before, asleep)
    else
      var rest := Executing(w, Apply(run, Claim), chance);
      (before + ([Claim] + rest.0), rest.1)
  }

  /** What a resolve handler writes before it resumes the executor, if it does. */
  function Settling(run: Run, h: Handler, outcome: Approval.ResolveOutcome, row: Approval.Interrupt): seq<Write> {
    var node := Some(h.node);
    match outcome
    case Unknown => []
    case Invalid => []
    case Expired => [Put(h.node, row)]
    case Pending(_) => [Put(h.node, row), Append(InterruptVote, node)]
    case Refined(_) => [Put(h.node, row), Append(InterruptResolved, node), SetStatus(Running)]
    case Rejected(_) =>
      [Put(h.node, row), Append(InterruptResolved, node), Append(NodeCompleted, node)] + Ending(RunFailed, Failed)
    case Resumed(_, _) =>
      if h.byToken then
        [Put(h.node, row), Append(NodeResumed, node), Append(NodeCompleted, node), SetBoth(Running, run.cursor + 1)]
      else
        [Put(h.node, row), Append(InterruptResolved, node), Append(NodeResumed, node), Append(NodeCompleted, node),
         SetBoth(Running, h.cursor + 1)]
  }

  function BodyArrives(w: Workflow, m: Host, h: Handler, reply: Reply, chance: Chance): (seq<Write>, Option<nat>) {
    if ActiveRow(m.run, h.node).None? then ([], m.asleep)
    else
      var (outcome, row) := Resolution(m.run, h, reply);
      var before := Settling(m.run, h, outcome, row);
      if outcome.Resumed? || outcome.Refined? then Resuming(w, ApplyAll(m.run, before), before, m.asleep, chance)
      else (before, m.asleep)
  }

  predicate Orphaned(run: Run, expired: bool) {
    (run.status.Pending? || run.status.Running? || run.status.Cancelling?) && (!run.claimed || expired)
  }

  /** handleCancelRun; a cancel that finds the executor asleep wakes it with the abort. */
  function CancelArrives(w: Workflow, m: Host, reason: string, now: int): (seq<Write>, Option<nat>) {
    if Terminal(m.run.status) then ([], m.asleep)
    else if IsWaiting(m.run.status) then ([InvalidateAll(reason, now)] + Ending(RunCancelled, Cancelled), m.asleep)
    else if m.asleep.Some? && m.asleep.value < |w.nodes| then
      ([RequestCancel, Append(NodeCancelled, Some(w.nodes[m.asleep.value].id))] + Ending(RunCancelled, Cancelled), None)
    else ([RequestCancel], m.asleep)
  }

  /** The writes of a step, and where it leaves the executor. */
  function Plan(w: Workflow, m: Host, e: Event): (seq<Write>, Option<nat>) {
    match e
    case Launch(expired, chance) =>
      if m.asleep.None? && Orphaned(m.run, expired) then
        var rest := Executing(w, Apply(m.run, Claim), chance); ([Claim] + rest.0, rest.1)
      else ([], m.asleep)
    case Wake(chance) =>
      if m.asleep.Some? && m.asleep.value < |w.nodes| then
        var i := m.asleep.value;
        var here := [Append(NodeCompleted, Some(w.nodes[i].id)), SetCursor(i + 1)];
        var rest := Slice(w, ApplyAll(m.run, here), i + 1, chance);
        (here + rest.0, rest.1)
      else ([], m.asleep)
    case Deadline =>
      if m.asleep.Some? && m.asleep.value < |w.nodes| then
        ([Append(NodeCancelled, Some(w.nodes[m.asleep.value].id)), Append(CapBreached, None)] + Ending(RunFailed, Failed), None)
      else ([], m.asleep)
    case Cancel(reason, now) => CancelArrives(w, m, reason, now)
    case Read(_, _) => ([], m.asleep)
    case Body(k, reply, chance) =>
      if k < |m.handlers| then BodyArrives(w, m, m.handlers[k], reply, chance) else ([], m.asleep)
  }

  function HandlersAfter(m: Host, e: Event): seq<Handler> {
    match e
    case Read(node, byToken) =>
      var row := ActiveRow(m.run, node);
      if row.Some? && (byToken ==> row.value.kind.ExternalEvent?) then
        m.handlers + [Handler(node, m.run.cursor, row.value.kind, byToken)]
      else m.handlers
    case Body(k, _, _) => if k < |m.handlers| then m.handlers[..k] + m.handlers[k + 1..] else m.handlers
    case _ => m.handlers
  }

  /** One step of a host that does not crash. */
  function Step(w: Workflow, m: Host, e: Event): Host {
    var plan := Plan(w, m, e);
    Host(ApplyAll(m.run, plan.0), plan.1, HandlersAfter(m, e))
  }

  function Play(w: Workflow, m: Host, events: seq<Event>): Host {
    if events == [] then m
    else Step(w, Play(w, m, events[..|events| - 1]), events[|events| - 1])
  }

  /** POST /v1/runs: the row is inserted, claimed and executed in one step. */
  function Created(w: Workflow, chance: Chance): Host {
    Step(w, Host(FRESH, None, []), Launch(false, chance))
  }

  // --------------------------------------------------- the same, as the source has it

  /** The database of one run and the process that works on it. */
  class Process {
    var run: Run
    var asleep: Option<nat>

    constructor ()
      ensures run == FRESH && asleep == None
    {
      run, asleep := FRESH, None;
    }

    method AppendEvent(event: EventType, node: Option<string>)
      modifies this`run
      ensures run == Apply(old(run), Append(event, node))
    {
      var count := |run.log|;
      run := run.(log := run.log + [Logged(count, event, node)]);
    }

    method SetRunTerminal(status: Status)
      modifies this`run
      ensures run == old(run).(status := status, claimed := false)
    {
      run := run.(status := status);
      run := run.(claimed := false);
    }

    method End(event: EventType, status: Status)
      modifies this`run
      ensures run == ApplyAll(old(run), Ending(event, status))
    {
      ApplyThree(run, Append(event, None), SetStatus(status), Release);
      AppendEvent(event, None);
      SetRunTerminal(status);
    }

    method CreateInterrupt(node: Node, expires: Option<int>)
      requires node.kind.Gate?
      modifies this`run
      ensures run == Apply(old(run), Put(node.id, GateRow(old(run), node, expires)))
    {
      var expiresAt := if node.kind.kind.ExternalEvent? then expires else None;
      if node.id !in run.gates || !run.gates[node.id].Active() {
        run := run.(gates := run.gates[node.id := Approval.Interrupt(node.kind.kind, node.kind.config, [], None, None, expiresAt)]);
      } else {
        run := run.(gates := run.gates[node.id := run.gates[node.id]]);
      }
    }

    /** The run fails at node i without the node having completed. */
    method FailAt(node: Node, result: Result)
      requires !result.Completes?
      modifies this`run
      ensures run == ApplyAll(old(run), Unfinished(node, result) + Ending(RunFailed, Failed))
    {
      ghost var before := run;
      match result {
        case Refuses(reported) =>
          if reported {
            ApplyTwo(run, Append(CapabilityInsufficient, Some(node.id)), Append(NodeFailed, Some(node.id)));
            AppendEvent(CapabilityInsufficient, Some(node.id));
            AppendEvent(NodeFailed, Some(node.id));
          }
        case Fails =>
          ApplyTwo(run, Append(NodeStarted, Some(node.id)), Append(NodeFailed, Some(node.id)));
          AppendEvent(NodeStarted, Some(node.id));
          AppendEvent(NodeFailed, Some(node.id));
        case Throws =>
          ApplyOne(run, Append(NodeStarted, Some(node.id)));
          AppendEvent(NodeStarted, Some(node.id));
      }
      assert run == ApplyAll(before, Unfinished(node, result));
      ApplyAllOfConcat(before, Unfinished(node, result), Ending(RunFailed, Failed));
      End(RunFailed, Failed);
    }

    method Suspend(node: Node, i: nat, expires: Option<int>)
      requires node.kind.Gate?
      modifies this`run
      ensures run == ApplyAll(old(run), Suspending(old(run), node, i, expires))
    {
      ApplyFive(run, Append(NodeStarted, Some(node.id)), Put(node.id, GateRow(run, node, expires)),
                Append(NodeSuspended, Some(node.id)), SetBoth(WaitingStatus(node.kind.kind), i), Release);
      AppendEvent(NodeStarted, Some(node.id));
      CreateInterrupt(node, expires);
      AppendEvent(NodeSuspended, Some(node.id));
      run := run.(status := WaitingStatus(node.kind.kind), cursor := i);
      run := run.(claimed := false);
    }

    /** The loop over the nodes; returns the node it sleeps in, if it reaches a delay. */
    method RunFrom(w: Workflow, start: nat, chance: Chance) returns (asleep: Option<nat>)
      modifies this`run
      ensures run == ApplyAll(old(run), Slice(w, old(run), start, chance).0)
      ensures asleep == Slice(w, old(run), start, chance).1
    {
      var i := start;
      while i < |w.nodes|
        invariant ApplyAll(old(run), Slice(w, old(run), start, chance).0) == ApplyAll(run, Slice(w, run, i, chance).0)
        invariant Slice(w, old(run), start, chance).1 == Slice(w, run, i, chance).1
      {
        var node := w.nodes[i];
        if w.recursionLimit.Some? && i + 1 > w.recursionLimit.value {
          ApplyAllOfConcat(run, [Append(CapBreached, Some(node.id))], Ending(RunFailed, Failed));
          ApplyOne(run, Append(CapBreached, Some(node.id)));
          AppendEvent(CapBreached, Some(node.id));
          End(RunFailed, Failed);
          return None;
        }
        if run.status.Cancelling? {
          End(RunCancelled, Cancelled);
          return None;
        }
        match node.kind {
          case Delay =>
            ApplyOne(run, Append(NodeStarted, Some(node.id)));
            AppendEvent(NodeStarted, Some(node.id));
            return Some(i);
          case Gate(_, _) =>
            Suspend(node, i, chance.expires(i));
            return None;
          case Work =>
            if !chance.result(i).Completes? {
              FailAt(node, chance.result(i));
              return None;
            }
            ghost var before := run;
            ApplyThree(run, Append(NodeStarted, Some(node.id)), Append(NodeCompleted, Some(node.id)), SetCursor(i + 1));
            ApplyAllOfConcat(run, Completing(node, i), Slice(w, ApplyAll(run, Completing(node, i)), i + 1, chance).0);
            AppendEvent(NodeStarted, Some(node.id));
            AppendEvent(NodeCompleted, Some(node.id));
            run := run.(cursor := i + 1);
            assert run == ApplyAll(before, Completing(node, i));
        }
        i := i + 1;
      }
      if run.status.Cancelling? {
        End(RunCancelled, Cancelled);
      } else {
        ApplyAllOfConcat(run, [Append(MemoryWritten, None)], Ending(RunCompleted, Completed));
        ApplyOne(run, Append(MemoryWritten, None));
        AppendEvent(MemoryWritten, None);
        End(RunCompleted, Completed);
      }
      return None;
    }

    /** runWorkflow up to its first real wait. */
    method RunWorkflow(w: Workflow, chance: Chance)
      modifies this
      ensures run == ApplyAll(old(run), Executing(w, old(run), chance).0)
      ensures asleep == Executing(w, old(run), chance).1
    {
      var startIndex := run.cursor;
      var alreadyStarted := Started(run.log);
      ghost var announced := ApplyAll(run, Announcing(run));
      ApplyTwo(run, Announcing(run)[0], Announcing(run)[1]);
      ApplyAllOfConcat(run, Announcing(run), Slice(w, announced, run.cursor, chance).0);
      run := run.(status := Running);
      AppendEvent(if alreadyStarted then RunResumed else RunStarted, None);
      assert run == announced;
      asleep := RunFrom(w, startIndex, chance);
    }

    /** What a resolve handler writes once the outcome is known, short of resuming. */
    method Settle(h: Handler, outcome: Approval.ResolveOutcome, row: Approval.Interrupt)
      modifies this`run
      ensures run == ApplyAll(old(run), Settling(old(run), h, outcome, row))
    {
      if outcome.Unknown? || outcome.Invalid? { return; }
      ghost var was, node := run, Some(h.node);
      var cursor := if h.byToken then run.cursor else h.cursor;
      run := run.(gates := run.gates[h.node := row]);
      if outcome.Expired? {
        ApplyOne(was, Put(h.node, row));
        return;
      }
      if outcome.Pending? {
        ApplyTwo(was, Put(h.node, row), Append(InterruptVote, node));
        AppendEvent(InterruptVote, Some(h.node));
        return;
      }
      if !(outcome.Resumed? && h.byToken) { AppendEvent(InterruptResolved, Some(h.node)); }
      if outcome.Rejected? {
        ApplyThree(was, Put(h.node, row), Append(InterruptResolved, node), Append(NodeCompleted, node));
        ApplyAllOfConcat(was, [Put(h.node, row), Append(InterruptResolved, node), Append(NodeCompleted, node)],
                         Ending(RunFailed, Failed));
        AppendEvent(NodeCompleted, Some(h.node));
        End(RunFailed, Failed);
      } else if outcome.Refined? {
        ApplyThree(was, Put(h.node, row), Append(InterruptResolved, node), SetStatus(Running));
        run := run.(status := Running);
      } else {
        if h.byToken {
          ApplyFour(was, Put(h.node, row), Append(NodeResumed, node), Append(NodeCompleted, node), SetBoth(Running, cursor + 1));
        } else {
          ApplyFive(was, Put(h.node, row), Append(InterruptResolved, node), Append(NodeResumed, node),
                    Append(NodeCompleted, node), SetBoth(Running, cursor + 1));
        }
        AppendEvent(NodeResumed, Some(h.node));
        AppendEvent(NodeCompleted, Some(h.node));
        run := run.(status := Running, cursor := cursor + 1);
      }
    }

    /** The body of a resolve request has arrived. */
    method ResolveInterrupt(w: Workflow, h: Handler, reply: Reply, chance: Chance)
      modifies this
      ensures var plan := BodyArrives(w, Host(old(run), old(asleep), []), h, reply, chance);
              run == ApplyAll(old(run), plan.0) && asleep == plan.1
    {
      if h.node !in run.gates || !run.gates[h.node].Active() { return; }
      var (outcome, row) := Resolution(run, h, reply);
      ghost var was := run;
      ghost var before := Settling(run, h, outcome, row);
      Settle(h, outcome, row);
      if (outcome.Resumed? || outcome.Refined?) && !run.claimed {
        ghost var rest := Executing(w, Apply(run, Claim), chance);
        ApplyAllOfConcat(was, before, [Claim] + rest.0);
        ApplyAllOfConcat(run, [Claim], rest.0);
        ApplyOne(run, Claim);
        run := run.(claimed := true);
        RunWorkflow(w, chance);
      }
    }
  }
}
