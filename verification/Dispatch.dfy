/**
 * The supervisor/dispatch loop of the SQLite host's executor
 * (examples/hosts/sqlite/src/server.ts): the only node that moves the cursor back is
 * core.dispatch, and the decisions recorded in the log bound how often it can.
 */
module Dispatch {
  import opened Wrappers

  /** A decision in the log; Other is any kind but the two a supervisor makes. */
  datatype Decision = NextWorker(workers: nat) | Terminate | Other

  /** An entry of mockDispatchPlan. */
  datatype PlanEntry = PlanNextWorker(workers: nat) | PlanTerminate | Malformed

  datatype Node = Plain | Supervisor(plan: seq<PlanEntry>) | DispatchNode

  /** recursionLimit counts positions, not executions. */
  datatype Workflow = Workflow(nodes: seq<Node>, recursionLimit: Option<int>)

  /** The longest plan, at least 1: a supervisor without one asks for a worker once. */
  function LongestPlan(nodes: seq<Node>): (p: nat)
    ensures p >= 1
    ensures forall i | 0 <= i < |nodes| && nodes[i].Supervisor? :: |nodes[i].plan| <= p
  {
    if nodes == [] then 1
    else
      var rest := LongestPlan(nodes[1..]);
      if nodes[0].Supervisor? && |nodes[0].plan| > rest then |nodes[0].plan| else rest
  }

  /** What a supervisor decides after `prior` decisions. */
  function Decide(plan: seq<PlanEntry>, prior: nat): Decision {
    if plan == [] then (if prior == 0 then NextWorker(1) else Terminate)
    else if prior < |plan| && plan[prior].PlanNextWorker? then NextWorker(plan[prior].workers)
    else Terminate
  }

  /** findIndex of the first supervisor. */
  function FirstSupervisor(nodes: seq<Node>): (r: Option<nat>)
    ensures r.Some? ==> r.value < |nodes| && nodes[r.value].Supervisor?
    ensures r.None? ==> forall i | 0 <= i < |nodes| :: !nodes[i].Supervisor?
  {
    if nodes == [] then None
    else if nodes[0].Supervisor? then Some(0)
    else
      var rest := FirstSupervisor(nodes[1..]);
      if rest.None? then None else Some(rest.value + 1)
  }

  datatype Next = Stops | Goes(to: nat)

  function Latest(decisions: seq<Decision>): Decision
    requires decisions != []
  {
    decisions[|decisions| - 1]
  }

  /** core.dispatch at node i; `wellEnded` says its workers all completed. */
  function Dispatched(w: Workflow, i: nat, decisions: seq<Decision>, wellEnded: bool): Next {
    if decisions == [] then Stops
    else
      match Latest(decisions)
      case Terminate => Goes(i + 1)
      case NextWorker(n) =>
        if n == 0 || !wellEnded then Stops
        else if FirstSupervisor(w.nodes).Some? then Goes(FirstSupervisor(w.nodes).value)
        else Goes(i + 1)
      case Other => Stops
  }

  function DecidedAt(w: Workflow, i: nat, decisions: seq<Decision>): seq<Decision>
    requires i < |w.nodes|
  {
    if w.nodes[i].Supervisor? then decisions + [Decide(w.nodes[i].plan, |decisions|)] else decisions
  }

  function NextAt(w: Workflow, i: nat, decisions: seq<Decision>, wellEnded: bool): Next
    requires i < |w.nodes|
  {
    match w.nodes[i]
    case Plain => if wellEnded then Goes(i + 1) else Stops
    case Supervisor(_) => Goes(i + 1)
    case DispatchNode => Dispatched(w, i, decisions, wellEnded)
  }

  predicate Runs(w: Workflow, i: nat) {
    i < |w.nodes| && (w.recursionLimit.Some? ==> i + 1 <= w.recursionLimit.value)
  }

  /** The first position that does not run: the length of the workflow, or the limit if it is less. */
  function Top(w: Workflow): (top: nat)
    ensures forall i: nat {:trigger Runs(w, i)} :: Runs(w, i) <==> i < top
    ensures top <= |w.nodes|
  {
    if w.recursionLimit.None? || w.recursionLimit.value > |w.nodes| then |w.nodes|
    else if w.recursionLimit.value < 0 then 0
    else w.recursionLimit.value
  }

  /** No decision past the longest plan asks for a worker: what the supervisors of w can have written. */
  ghost predicate FromPlans(w: Workflow, decisions: seq<Decision>) {
    forall k | 0 <= k < |decisions| :: decisions[k].NextWorker? ==> k < LongestPlan(w.nodes)
  }

  lemma {:induction false} DecidedFromPlans(w: Workflow, i: nat, decisions: seq<Decision>)
    requires i < |w.nodes| && FromPlans(w, decisions)
    ensures FromPlans(w, DecidedAt(w, i, decisions))
  {}

  /**
   * How many more times dispatch can send the cursor to the first supervisor. At or before it
   * one more decision is certain to come before that, so it counts as made.
   */
  function LoopsLeft(w: Workflow, i: nat, decisions: seq<Decision>): nat {
    var first := FirstSupervisor(w.nodes);
    var made := |decisions| + if first.Some? && i <= first.value then 1 else 0;
    var p := LongestPlan(w.nodes);
    if made > p then 0 else if made == 0 then p else p + 1 - made
  }

  /** Every step uses up a loop or moves the cursor on. */
  lemma {:induction false} StepDescends(w: Workflow, i: nat, decisions: seq<Decision>, wellEnded: bool)
    requires i < |w.nodes| && FromPlans(w, decisions)
    ensures var next := NextAt(w, i, decisions, wellEnded);
            var after := DecidedAt(w, i, decisions);
            next.Goes? ==>
              || LoopsLeft(w, next.to, after) < LoopsLeft(w, i, decisions)
              || (LoopsLeft(w, next.to, after) == LoopsLeft(w, i, decisions) && next.to > i)
  {
    var first := FirstSupervisor(w.nodes);
    if w.nodes[i].DispatchNode? && decisions != [] && Latest(decisions).NextWorker? {
      assert |decisions| - 1 < LongestPlan(w.nodes);
    }
  }

  predicate IsFirstSupervisor(w: Workflow, j: nat) {
    j < |w.nodes| && w.nodes[j].Supervisor? && forall k | 0 <= k < j :: !w.nodes[k].Supervisor?
  }

  lemma {:induction false} NoneBeforeFirst(nodes: seq<Node>)
    ensures var first := FirstSupervisor(nodes);
            first.Some? ==> forall k | 0 <= k < first.value :: !nodes[k].Supervisor?
  {
    if nodes != [] { NoneBeforeFirst(nodes[1..]); }
  }

  /** What a supervisor adds to the log: the next entry of its plan, one worker the first time if it has none, and else an end. */
  lemma {:induction false} DecisionByFields(w: Workflow, i: nat, decisions: seq<Decision>, plan: seq<PlanEntry>)
    requires i < |w.nodes| && w.nodes[i] == Supervisor(plan)
    ensures var after, n := DecidedAt(w, i, decisions), |decisions|;
            && |after| == n + 1 && after[..n] == decisions && (after[n].NextWorker? || after[n] == Terminate)
            && forall workers: nat :: after[n] == NextWorker(workers) <==>
                 (plan == [] && n == 0 && workers == 1) || (n < |plan| && plan[n] == PlanNextWorker(workers))
  {}

  /** Where the loop goes from each kind of node, by how it ended and the last decision in the log. */
  lemma {:induction false} NextByFields(w: Workflow, i: nat, decisions: seq<Decision>, wellEnded: bool)
    requires i < |w.nodes|
    ensures !w.nodes[i].Supervisor? ==> DecidedAt(w, i, decisions) == decisions
    ensures var next := NextAt(w, i, decisions, wellEnded);
            match w.nodes[i]
            case Plain => next == if wellEnded then Goes(i + 1) else Stops
            case Supervisor(_) => next == Goes(i + 1)
            case DispatchNode =>
              var n := |decisions| - 1;
              && (next == Stops <==> n < 0 || decisions[n] == Other || decisions[n] == NextWorker(0)
                                     || (decisions[n].NextWorker? && !wellEnded))
              && (next.Goes? && decisions[n] == Terminate ==> next.to == i + 1)
              && (next.Goes? && decisions[n].NextWorker? ==>
                    IsFirstSupervisor(w, next.to) || (next.to == i + 1 && forall k | 0 <= k < |w.nodes| :: !w.nodes[k].Supervisor?))
  {
    NoneBeforeFirst(w.nodes);
  }

  /** One invocation from node i: the nodes it runs and the decisions in the log at its end. */
  function Walk(w: Workflow, i: nat, decisions: seq<Decision>, wellEnded: nat -> bool, step: nat): (seq<nat>, seq<Decision>)
    requires FromPlans(w, decisions)
    decreases LoopsLeft(w, i, decisions), |w.nodes| - i
  {
    if !Runs(w, i) then ([], decisions)
    else
      var after := DecidedAt(w, i, decisions);
      var next := NextAt(w, i, decisions, wellEnded(step));
      if next.Stops? then ([i], after)
      else
        StepDescends(w, i, decisions, wellEnded(step));
        DecidedFromPlans(w, i, decisions);
        var rest := Walk(w, next.to, after, wellEnded, step + 1);
        ([i] + rest.0, rest.1)
  }

  /** One turn of the loop, seen from what was run before it. */
  lemma {:induction false} WalkTurn(w: Workflow, i: nat, decisions: seq<Decision>, wellEnded: nat -> bool, ran: seq<nat>)
    requires FromPlans(w, decisions) && Runs(w, i)
    ensures var next, after := NextAt(w, i, decisions, wellEnded(|ran|)), DecidedAt(w, i, decisions);
            var here := Walk(w, i, decisions, wellEnded, |ran|);
            && FromPlans(w, after)
            && (next.Stops? ==> (ran + here.0, here.1) == (ran + [i], after))
            && (next.Goes? ==> var rest := Walk(w, next.to, after, wellEnded, |ran| + 1);
                  (ran + here.0, here.1) == ((ran + [i]) + rest.0, rest.1))
  {
    var next, after := NextAt(w, i, decisions, wellEnded(|ran|)), DecidedAt(w, i, decisions);
    DecidedFromPlans(w, i, decisions);
    if next.Goes? {
      StepDescends(w, i, decisions, wellEnded(|ran|));
      var rest := Walk(w, next.to, after, wellEnded, |ran| + 1);
      assert ran + ([i] + rest.0) == (ran + [i]) + rest.0;
    }
  }

  /** Of two nodes one invocation runs in turn the second is the next, or the first supervisor after a dispatch. */
  lemma {:induction false} WalkFollows(w: Workflow, i: nat, decisions: seq<Decision>, wellEnded: nat -> bool, step: nat, k: nat)
    requires FromPlans(w, decisions) && k < |Walk(w, i, decisions, wellEnded, step).0|
    ensures var ran := Walk(w, i, decisions, wellEnded, step).0;
            && ran[0] == i && ran[k] < |w.nodes|
            && (k + 1 < |ran| ==>
                  ran[k + 1] == ran[k] + 1 || (w.nodes[ran[k]].DispatchNode? && IsFirstSupervisor(w, ran[k + 1])))
    decreases LoopsLeft(w, i, decisions), |w.nodes| - i
  {
    var after, next := DecidedAt(w, i, decisions), NextAt(w, i, decisions, wellEnded(step));
    if next.Goes? {
      StepDescends(w, i, decisions, wellEnded(step));
      DecidedFromPlans(w, i, decisions);
      NextByFields(w, i, decisions, wellEnded(step));
      var rest := Walk(w, next.to, after, wellEnded, step + 1).0;
      if rest != [] { WalkFollows(w, next.to, after, wellEnded, step + 1, if k == 0 then 0 else k - 1); }
    }
  }

  /** The loop of runWorkflow; `wellEnded` answers for the nodes in the order they are run. */
  method RunNodes(w: Workflow, start: nat, logged: seq<Decision>, wellEnded: nat -> bool) returns (ran: seq<nat>, decisions: seq<Decision>)
    requires FromPlans(w, logged)
    ensures (ran, decisions) == Walk(w, start, logged, wellEnded, 0)
    ensures FromPlans(w, decisions)
    ensures |ran| <= (LongestPlan(w.nodes) + 1) * Top(w)
  {
    LoopTerminatesWithin(w, start, logged, wellEnded);
    ran, decisions := [], logged;
    var i := start;
    ghost var whole := Walk(w, start, logged, wellEnded, 0);
    assert [] + whole.0 == whole.0;
    while Runs(w, i)
      invariant FromPlans(w, decisions)
      invariant var rest := Walk(w, i, decisions, wellEnded, |ran|);
                whole == (ran + rest.0, rest.1)
      decreases LoopsLeft(w, i, decisions), |w.nodes| - i
    {
      var next := NextAt(w, i, decisions, wellEnded(|ran|));
      StepDescends(w, i, decisions, wellEnded(|ran|));
      WalkTurn(w, i, decisions, wellEnded, ran);
      decisions := DecidedAt(w, i, decisions);
      ran := ran + [i];
      if next.Stops? { return; }
      i := next.to;
    }
    assert ran + [] == ran;
  }

  lemma {:induction false} WalkBounded(w: Workflow, i: nat, decisions: seq<Decision>, wellEnded: nat -> bool, step: nat)
    requires FromPlans(w, decisions) && i <= Top(w)
    ensures |Walk(w, i, decisions, wellEnded, step).0| <= (Top(w) - i) + LoopsLeft(w, i, decisions) * Top(w)
    decreases LoopsLeft(w, i, decisions), |w.nodes| - i
  {
    if Runs(w, i) {
      var after := DecidedAt(w, i, decisions);
      var next := NextAt(w, i, decisions, wellEnded(step));
      if next.Goes? {
        StepDescends(w, i, decisions, wellEnded(step));
        DecidedFromPlans(w, i, decisions);
        var l, l' := LoopsLeft(w, i, decisions), LoopsLeft(w, next.to, after);
        if l' < l { FewerLoops(l', l, Top(w)); }
        if next.to <= Top(w) { WalkBounded(w, next.to, after, wellEnded, step + 1); }
      }
    }
  }

  lemma {:induction false} FewerLoops(fewer: nat, loops: nat, n: nat)
    requires fewer < loops
    ensures fewer * n + n <= loops * n
  {
    assert loops * n == (fewer + 1) * n + (loops - fewer - 1) * n;
  }

  /**
   * One invocation runs at most (P + 1) times as many nodes as there are positions within the
   * workflow and the recursion limit, P the longest plan.
   */
  lemma {:induction false} LoopTerminatesWithin(w: Workflow, start: nat, decisions: seq<Decision>, wellEnded: nat -> bool)
    requires FromPlans(w, decisions)
    ensures |Walk(w, start, decisions, wellEnded, 0).0| <= (LongestPlan(w.nodes) + 1) * Top(w)
  {
    if start <= Top(w) { WalkBounded(w, start, decisions, wellEnded, 0); }
    var l, p := LoopsLeft(w, start, decisions), LongestPlan(w.nodes);
    assert l <= p;
    FewerLoops(l, p + 1, Top(w));
  }

  // ------------------------------------------------------------- the bound is met

  function Asking(p: nat): (plan: seq<PlanEntry>)
    ensures |plan| == p && forall k {:trigger plan[k]} | 0 <= k < p :: plan[k] == PlanNextWorker(1)
  {
    if p == 0 then [] else Asking(p - 1) + [PlanNextWorker(1)]
  }

  function SupervisorThenDispatch(p: nat, limit: Option<int>): Workflow {
    Workflow([Supervisor(Asking(p)), DispatchNode], limit)
  }

  lemma {:induction false} LongestIsPlan(p: nat, limit: Option<int>)
    requires p >= 1
    ensures LongestPlan(SupervisorThenDispatch(p, limit).nodes) == p
  {
    var nodes := SupervisorThenDispatch(p, limit).nodes;
    assert nodes[1..] == [DispatchNode] && [DispatchNode][1..] == [];
  }

  lemma {:induction false} RoundsLeft(p: nat, limit: Option<int>, decisions: seq<Decision>, step: nat)
    requires p >= 1 && |decisions| <= p && (limit.Some? ==> limit.value >= 2)
    requires FromPlans(SupervisorThenDispatch(p, limit), decisions)
    ensures |Walk(SupervisorThenDispatch(p, limit), 0, decisions, n => true, step).0| == 2 * (p + 1 - |decisions|)
    decreases p - |decisions|
  {
    var w := SupervisorThenDispatch(p, limit);
    LongestIsPlan(p, limit);
    var after := DecidedAt(w, 0, decisions);
    DecidedFromPlans(w, 0, decisions);
    assert Latest(after) == Decide(Asking(p), |decisions|);
    var one := Walk(w, 1, after, n => true, step + 1);
    assert |Walk(w, 0, decisions, n => true, step).0| == 1 + |one.0|;
    if |decisions| < p {
      RoundsLeft(p, limit, after, step + 2);
      assert |one.0| == 1 + |Walk(w, 0, after, n => true, step + 2).0|;
    } else {
      assert Walk(w, 2, after, n => true, step + 2).0 == [];
    }
  }

  /**
   * A supervisor with a plan of p workers and a dispatch node run exactly (p + 1) * 2 nodes, and
   * so they do under a recursion limit of 2, which is meant to cap the executions at 2.
   */
  lemma {:induction false} BoundIsMet(p: nat)
    requires p >= 1
    ensures |Walk(SupervisorThenDispatch(p, None), 0, [], n => true, 0).0| == (p + 1) * 2
    ensures |Walk(SupervisorThenDispatch(p, Some(2)), 0, [], n => true, 0).0| == (p + 1) * 2 > 2
  {
    RoundsLeft(p, None, [], 0);
    RoundsLeft(p, Some(2), [], 0);
  }

  /** A supervisor without a plan asks for one worker, once, and then stops the loop. */
  lemma {:induction false} WithoutPlanOneRound(wellEnded: nat -> bool)
    requires wellEnded(1)
    ensures Walk(Workflow([Supervisor([]), DispatchNode], None), 0, [], wellEnded, 0) == ([0, 1, 0, 1], [NextWorker(1), Terminate])
  {
    var w := Workflow([Supervisor([]), DispatchNode], None);
    var one, two := [NextWorker(1)], [NextWorker(1), Terminate];
    assert w.nodes[1..] == [DispatchNode] && [DispatchNode][1..] == [];
    assert DecidedAt(w, 0, []) == one && DecidedAt(w, 0, one) == two;
    assert Latest(one) == NextWorker(1) && Latest(two) == Terminate;
    DecidedFromPlans(w, 0, []);
    DecidedFromPlans(w, 0, one);
    assert NextAt(w, 1, one, true) == Goes(0) && NextAt(w, 1, two, true) == Goes(2);
    var none: seq<nat> := [];
    assert [1] + none == [1] && [0] + [1] == [0, 1] && [1] + [0, 1] == [1, 0, 1] && [0] + [1, 0, 1] == [0, 1, 0, 1];
    assert Walk(w, 2, two, wellEnded, 4) == (none, two);
    assert Walk(w, 1, two, wellEnded, 3) == ([1], two);
    assert Walk(w, 0, one, wellEnded, 2) == ([0, 1], two);
    assert Walk(w, 1, one, wellEnded, 1) == ([1, 0, 1], two);
  }

  // ------------------------------------------------- when the limit caps executions

  /**
   * Whether a pass straight through from i, with everything ending well, comes to a dispatch
   * node that jumps. It follows from the nodes and their plans alone.
   */
  predicate Jumps(w: Workflow, i: nat, decisions: seq<Decision>)
    decreases |w.nodes| - i
  {
    Runs(w, i) &&
      if w.nodes[i].DispatchNode? && decisions != [] && Latest(decisions).NextWorker? then Latest(decisions).workers > 0
      else NextAt(w, i, decisions, true).Goes? && Jumps(w, i + 1, DecidedAt(w, i, decisions))
  }

  /** Decisions have been made only by supervisors before i. */
  ghost predicate MadeBefore(w: Workflow, i: nat, decisions: seq<Decision>) {
    decisions != [] ==> exists s :: 0 <= s < i && s < |w.nodes| && w.nodes[s].Supervisor?
  }

  lemma {:induction false} MadeBeforeNext(w: Workflow, i: nat, decisions: seq<Decision>)
    requires i < |w.nodes| && MadeBefore(w, i, decisions)
    ensures MadeBefore(w, i + 1, DecidedAt(w, i, decisions))
  {
    if decisions != [] {
      var s :| 0 <= s < i && s < |w.nodes| && w.nodes[s].Supervisor?;
      assert 0 <= s < i + 1 && s < |w.nodes| && w.nodes[s].Supervisor?;
    } else if w.nodes[i].Supervisor? {
      assert 0 <= i < i + 1 && i < |w.nodes| && w.nodes[i].Supervisor?;
    }
  }

  lemma {:induction false} FirstIsFirst(nodes: seq<Node>, s: nat)
    requires s < |nodes| && nodes[s].Supervisor?
    ensures FirstSupervisor(nodes).Some? && FirstSupervisor(nodes).value <= s
  {
    if s > 0 && !nodes[0].Supervisor? { FirstIsFirst(nodes[1..], s - 1); }
  }

  /** A pass that never jumps runs each position at most once. */
  lemma {:induction false} StraightWalk(w: Workflow, i: nat, decisions: seq<Decision>, wellEnded: nat -> bool, step: nat)
    requires FromPlans(w, decisions) && MadeBefore(w, i, decisions) && i <= Top(w) && !Jumps(w, i, decisions)
    ensures |Walk(w, i, decisions, wellEnded, step).0| <= Top(w) - i
    decreases |w.nodes| - i
  {
    if Runs(w, i) {
      var after := DecidedAt(w, i, decisions);
      var next := NextAt(w, i, decisions, wellEnded(step));
      MadeBeforeNext(w, i, decisions);
      DecidedFromPlans(w, i, decisions);
      if decisions != [] {
        var s :| 0 <= s < i && s < |w.nodes| && w.nodes[s].Supervisor?;
        FirstIsFirst(w.nodes, s);
      }
      if next.Goes? { StraightWalk(w, i + 1, after, wellEnded, step + 1); }
    }
  }

  /** No supervisor's plan has an entry that asks for no worker at all. */
  ghost predicate NoEmptyEntry(w: Workflow) {
    forall i, k | 0 <= i < |w.nodes| && w.nodes[i].Supervisor? && 0 <= k < |w.nodes[i].plan| ::
      w.nodes[i].plan[k].PlanNextWorker? ==> w.nodes[i].plan[k].workers > 0
  }

  ghost predicate Working(decisions: seq<Decision>) {
    forall d | d in decisions :: d.Terminate? || (d.NextWorker? && d.workers > 0)
  }

  lemma {:induction false} DecidedWorking(w: Workflow, i: nat, decisions: seq<Decision>)
    requires i < |w.nodes| && NoEmptyEntry(w) && Working(decisions)
    ensures Working(DecidedAt(w, i, decisions))
  {}

  /** From the first supervisor on, with everything ending well, a walk gets to the top. */
  lemma {:induction false} WalkReachesTop(w: Workflow, i: nat, decisions: seq<Decision>, step: nat)
    requires FromPlans(w, decisions) && NoEmptyEntry(w) && Working(decisions) && i <= Top(w)
    requires decisions != [] || (i < |w.nodes| && w.nodes[i].Supervisor?)
    requires FirstSupervisor(w.nodes).Some? && FirstSupervisor(w.nodes).value <= i
    ensures |Walk(w, i, decisions, n => true, step).0| >= Top(w) - i
    decreases LoopsLeft(w, i, decisions), |w.nodes| - i
  {
    if Runs(w, i) {
      var after := DecidedAt(w, i, decisions);
      var next := NextAt(w, i, decisions, true);
      StepDescends(w, i, decisions, true);
      DecidedFromPlans(w, i, decisions);
      DecidedWorking(w, i, decisions);
      assert decisions != [] ==> Latest(decisions) in decisions;
      assert next.Goes? && next.to <= i + 1;
      WalkReachesTop(w, next.to, after, step + 1);
    }
  }

  /** A pass that comes to a jump runs more nodes than there are positions left. */
  lemma {:induction false} JumpExceeds(w: Workflow, i: nat, decisions: seq<Decision>, step: nat)
    requires FromPlans(w, decisions) && NoEmptyEntry(w) && Working(decisions) && MadeBefore(w, i, decisions)
    requires Jumps(w, i, decisions)
    ensures |Walk(w, i, decisions, n => true, step).0| > Top(w) - i
    decreases |w.nodes| - i
  {
    if w.nodes[i].DispatchNode? && decisions != [] && Latest(decisions).NextWorker? {
      JumpHereExceeds(w, i, decisions, step);
    } else {
      var after := DecidedAt(w, i, decisions);
      StepDescends(w, i, decisions, true);
      DecidedFromPlans(w, i, decisions);
      MadeBeforeNext(w, i, decisions);
      DecidedWorking(w, i, decisions);
      assert NextAt(w, i, decisions, true) == Goes(i + 1);
      JumpExceeds(w, i + 1, after, step + 1);
    }
  }

  lemma {:induction false} JumpHereExceeds(w: Workflow, i: nat, decisions: seq<Decision>, step: nat)
    requires FromPlans(w, decisions) && NoEmptyEntry(w) && Working(decisions) && MadeBefore(w, i, decisions)
    requires Jumps(w, i, decisions) && w.nodes[i].DispatchNode? && decisions != [] && Latest(decisions).NextWorker?
    ensures |Walk(w, i, decisions, n => true, step).0| > Top(w) - i
  {
    var next := NextAt(w, i, decisions, true);
    StepDescends(w, i, decisions, true);
    var s :| 0 <= s < i && s < |w.nodes| && w.nodes[s].Supervisor?;
    FirstIsFirst(w.nodes, s);
    WalkReachesTop(w, next.to, decisions, step + 1);
  }

  /**
   * Whether a recursion limit within the workflow caps the executions of a fresh run, for every
   * way its nodes can end, is read off the nodes and their plans: it does exactly if a straight
   * pass below the limit comes to no jump.
   */
  lemma {:induction false} LimitCapsExactlyWithoutJump(w: Workflow)
    requires w.recursionLimit.Some? && 0 <= w.recursionLimit.value <= |w.nodes| && NoEmptyEntry(w)
    ensures !Jumps(w, 0, [])
       <==> forall wellEnded: nat -> bool :: |Walk(w, 0, [], wellEnded, 0).0| <= w.recursionLimit.value
  {
    if Jumps(w, 0, []) {
      JumpExceeds(w, 0, [], 0);
      assert |Walk(w, 0, [], n => true, 0).0| > w.recursionLimit.value;
    } else {
      forall wellEnded: nat -> bool ensures |Walk(w, 0, [], wellEnded, 0).0| <= w.recursionLimit.value {
        StraightWalk(w, 0, [], wellEnded, 0);
      }
    }
  }

  /** No way for the nodes to end runs more of them than all ending well. */
  lemma {:induction false} EndingWellRunsMost(w: Workflow, i: nat, decisions: seq<Decision>, wellEnded: nat -> bool, step: nat)
    requires FromPlans(w, decisions)
    ensures |Walk(w, i, decisions, wellEnded, step).0| <= |Walk(w, i, decisions, n => true, step).0|
    decreases LoopsLeft(w, i, decisions), |w.nodes| - i
  {
    if Runs(w, i) {
      var after := DecidedAt(w, i, decisions);
      var next := NextAt(w, i, decisions, wellEnded(step));
      StepDescends(w, i, decisions, true);
      DecidedFromPlans(w, i, decisions);
      if next.Goes? {
        assert next == NextAt(w, i, decisions, true);
        EndingWellRunsMost(w, next.to, after, wellEnded, step + 1);
      }
    }
  }

  /** For any plans and any limit: it caps every way a fresh run can go exactly if it caps the one in which all ends well. */
  lemma {:induction false} LimitCapsExactlyBestRun(w: Workflow)
    requires w.recursionLimit.Some?
    ensures |Walk(w, 0, [], n => true, 0).0| <= w.recursionLimit.value
       <==> forall wellEnded: nat -> bool :: |Walk(w, 0, [], wellEnded, 0).0| <= w.recursionLimit.value
  {
    forall wellEnded: nat -> bool
      ensures |Walk(w, 0, [], wellEnded, 0).0| <= |Walk(w, 0, [], n => true, 0).0|
    {
      EndingWellRunsMost(w, 0, [], wellEnded, 0);
    }
  }

  /** An entry that asks for no worker: the run comes to a jump and is capped all the same. */
  lemma {:induction false} EmptyEntryJumpsYetCapped(wellEnded: nat -> bool)
    ensures var w := Workflow([Supervisor([PlanNextWorker(1), PlanNextWorker(0)]), DispatchNode, Plain, Plain], Some(4));
            Jumps(w, 0, []) && !NoEmptyEntry(w) && |Walk(w, 0, [], wellEnded, 0).0| <= 4
  {
    var plan := [PlanNextWorker(1), PlanNextWorker(0)];
    var w := Workflow([Supervisor(plan), DispatchNode, Plain, Plain], Some(4));
    assert w.nodes[0].plan[1] == PlanNextWorker(0);
    var one, two := [NextWorker(1)], [NextWorker(1), NextWorker(0)];
    assert DecidedAt(w, 0, []) == one && DecidedAt(w, 0, one) == two;
    DecidedFromPlans(w, 0, []);
    DecidedFromPlans(w, 0, one);
    EndingWellRunsMost(w, 0, [], wellEnded, 0);
    assert Walk(w, 1, two, n => true, 3).0 == [1];
    assert |Walk(w, 0, one, n => true, 2).0| == 2;
    assert |Walk(w, 1, one, n => true, 1).0| == 3;
  }

  /** Without a jump any limit, and any plans, cap the executions. */
  lemma {:induction false} LimitCapsWithoutJump(w: Workflow, wellEnded: nat -> bool)
    requires w.recursionLimit.Some? && w.recursionLimit.value >= 0 && !Jumps(w, 0, [])
    ensures |Walk(w, 0, [], wellEnded, 0).0| <= w.recursionLimit.value
  {
    StraightWalk(w, 0, [], wellEnded, 0);
  }

  /** A jump takes a dispatch node behind a supervisor, both below the limit. */
  lemma {:induction false} JumpTakesDispatchBehindSupervisor(w: Workflow, i: nat, decisions: seq<Decision>)
    requires MadeBefore(w, i, decisions) && Jumps(w, i, decisions)
    ensures exists s, d :: 0 <= s < d < Top(w) && w.nodes[s].Supervisor? && w.nodes[d].DispatchNode?
    decreases |w.nodes| - i
  {
    if w.nodes[i].DispatchNode? && decisions != [] && Latest(decisions).NextWorker? {
      var s :| 0 <= s < i && s < |w.nodes| && w.nodes[s].Supervisor?;
      assert 0 <= s < i < Top(w) && w.nodes[s].Supervisor? && w.nodes[i].DispatchNode?;
    } else {
      MadeBeforeNext(w, i, decisions);
      JumpTakesDispatchBehindSupervisor(w, i + 1, DecidedAt(w, i, decisions));
    }
  }
}
