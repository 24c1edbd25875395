/**
 * How often a run logs its end when the host crashes (examples/hosts/sqlite/src/server.ts):
 * one event more than there are crashes between such an event and the status it calls for.
 */
module CrashEndings {
  import opened Wrappers
  import opened Executor
  import opened ExecutorRuns
  import opened Recovery
  import Approval

  /** How many events of the log end the run. */
  function Endings(log: seq<Logged>): nat {
    if log == [] then 0
    else
      var n := |log| - 1;
      Endings(log[..n]) + if EndsRun(log[n].event) then 1 else 0
  }

  lemma {:induction false} EndingsOneMore(log: seq<Logged>, e: Logged)
    ensures Endings(log + [e]) == Endings(log) + if EndsRun(e.event) then 1 else 0
  {
    assert (log + [e])[..|log|] == log;
  }

  lemma {:induction false} NoEndings(log: seq<Logged>, k: nat)
    requires Endings(log) == 0 && k < |log|
    ensures !EndsRun(log[k].event)
  {
    if k < |log| - 1 { NoEndings(log[..|log| - 1], k); }
  }

  predicate LogsEnding(x: Write) { x.Append? && EndsRun(x.event) }

  /** The crash falls between an event that ends the run and the status that event calls for. */
  predicate CutsEnding(w: Workflow, m: Host, h: Happening) {
    var n := Reaching(w, m, h);
    h.Crash? && 0 < n && LogsEnding(Plan(w, m, h.event).0[n - 1])
  }

  function Cuts(w: Workflow, happenings: seq<Happening>): nat {
    if happenings == [] then 0
    else
      var n := |happenings| - 1;
      Cuts(w, happenings[..n]) + if CutsEnding(w, Survived(w, happenings[..n]), happenings[n]) then 1 else 0
  }

  /** k endings were cut off from their status; a terminal run has logged one more, and that last. */
  ghost predicate Tidy(w: Workflow, run: Run, k: nat) {
    && GatesFit(w, run)
    && if Terminal(run.status) then Quiet(run) && Endings(run.log) == k + 1 && NamesEnd(run) else Endings(run.log) == k
  }

  /** The last event ends the run with its status. */
  predicate NamesEnd(run: Run) {
    run.log != [] && EndsRun(run.log[|run.log| - 1].event) && run.status == StatusOf(run.log[|run.log| - 1].event)
  }

  ghost predicate TidyHost(w: Workflow, m: Host, k: nat) { Tidy(w, m.run, k) && SleepsWell(w, m.run, m.asleep) }

  // ------------------------------------------------------------------ statements

  /** Statements, other than an ending event, that keep a tidy run tidy. */
  ghost predicate Tidies(w: Workflow, run: Run, x: Write) {
    match x
    case Append(event, _) => !Terminal(run.status) && !EndsRun(event)
    case SetStatus(status) => !Terminal(run.status) && !Terminal(status)
    case SetCursor(c) => Quiet(run)
    case SetBoth(status, c) => !Terminal(run.status) && !Terminal(status) && (c == run.cursor || Quiet(run))
    case Put(n, row) => row.Active() ==> !Terminal(run.status) && OnGate(w, run.cursor, n, row.kind)
    case _ => true
  }

  lemma {:induction false} WriteTidies(w: Workflow, run: Run, x: Write, k: nat)
    requires Tidy(w, run, k) && Tidies(w, run, x)
    ensures Tidy(w, Apply(run, x), k)
  {
    if x.Append? { EndingsOneMore(run.log, Logged(|run.log|, x.event, x.node)); }
  }

  /** Each statement tidy where it comes, each ending event on a quiet run and followed by its status. */
  ghost predicate AllTidy(w: Workflow, run: Run, ws: seq<Write>)
    decreases |ws|
  {
    ws == [] ||
      if LogsEnding(ws[0]) then
        && !Terminal(run.status) && Quiet(run) && |ws| > 1 && ws[1] == SetStatus(StatusOf(ws[0].event))
        && AllTidy(w, Apply(Apply(run, ws[0]), ws[1]), ws[2..])
      else Tidies(w, run, ws[0]) && AllTidy(w, Apply(run, ws[0]), ws[1..])
  }

  lemma {:induction false} EndingLogged(w: Workflow, run: Run, event: EventType, node: Option<string>, k: nat)
    requires Tidy(w, run, k) && !Terminal(run.status) && Quiet(run) && EndsRun(event)
    ensures var logged := Apply(run, Append(event, node));
            Tidy(w, logged, k + 1) && !Terminal(logged.status) && Tidy(w, Apply(logged, SetStatus(StatusOf(event))), k)
  {
    EndingsOneMore(run.log, Logged(|run.log|, event, node));
  }

  lemma {:induction false} CutFirst(run: Run, ws: seq<Write>, n: nat)
    requires 0 < n <= |ws|
    ensures ApplyAll(run, ws[..n]) == ApplyAll(Apply(run, ws[0]), ws[1..][..n - 1])
    ensures n > 1 ==> ws[1..][0] == ws[1] && ws[1..][1..] == ws[2..]
  {
    assert ws[..n][0] == ws[0] && ws[..n][1..] == ws[1..][..n - 1];
  }

  /** A tidy plan cut anywhere: one ending more is owed exactly if the cut comes right after one. */
  lemma {:induction false} CutTidy(w: Workflow, run: Run, ws: seq<Write>, n: nat, k: nat)
    requires Tidy(w, run, k) && AllTidy(w, run, ws) && n <= |ws|
    ensures var after := ApplyAll(run, ws[..n]);
            if n > 0 && LogsEnding(ws[n - 1]) then Tidy(w, after, k + 1) && !Terminal(after.status) && n < |ws|
            else Tidy(w, after, k)
    decreases |ws|
  {
    if n > 0 {
      CutFirst(run, ws, n);
      if LogsEnding(ws[0]) {
        EndingLogged(w, run, ws[0].event, ws[0].node, k);
        if n > 1 {
          CutFirst(Apply(run, ws[0]), ws[1..], n - 1);
          CutTidy(w, Apply(Apply(run, ws[0]), ws[1]), ws[2..], n - 2, k);
        }
      } else {
        WriteTidies(w, run, ws[0], k);
        CutTidy(w, Apply(run, ws[0]), ws[1..], n - 1, k);
      }
    }
  }

  lemma {:induction false} AllTidyOfConcat(w: Workflow, run: Run, a: seq<Write>, b: seq<Write>)
    requires AllTidy(w, run, a) && AllTidy(w, ApplyAll(run, a), b)
    ensures AllTidy(w, run, a + b)
    decreases |a|
  {
    if a == [] {
      assert a + b == b;
    } else if LogsEnding(a[0]) {
      assert (a + b)[2..] == a[2..] + b && a[1..][1..] == a[2..];
      assert ApplyAll(Apply(run, a[0]), a[1..]) == ApplyAll(Apply(Apply(run, a[0]), a[1]), a[2..]);
      AllTidyOfConcat(w, Apply(Apply(run, a[0]), a[1]), a[2..], b);
    } else {
      assert (a + b)[1..] == a[1..] + b;
      AllTidyOfConcat(w, Apply(run, a[0]), a[1..], b);
    }
  }

  lemma {:induction false} TidyFirst(w: Workflow, run: Run, x: Write, rest: seq<Write>)
    requires !LogsEnding(x) && Tidies(w, run, x) && AllTidy(w, Apply(run, x), rest)
    ensures AllTidy(w, run, [x] + rest)
  {
    assert ([x] + rest)[1..] == rest;
  }

  lemma {:induction false} EndingTidy(w: Workflow, run: Run, event: EventType)
    requires !Terminal(run.status) && Quiet(run) && EndsRun(event)
    ensures AllTidy(w, run, Ending(event, StatusOf(event)))
  {
    var ws := Ending(event, StatusOf(event));
    assert ws[2..] == [Release] && [Release][1..] == [];
  }

  /** Events that do not end the run leave its row as it was. */
  predicate Telling(ws: seq<Write>) {
    forall x | x in ws :: x.Append? && !EndsRun(x.event)
  }

  lemma {:induction false} TellingTidy(w: Workflow, run: Run, ws: seq<Write>)
    requires !Terminal(run.status) && Telling(ws)
    ensures AllTidy(w, run, ws) && ApplyAll(run, ws).(log := run.log) == run
    decreases |ws|
  {
    if ws != [] {
      assert ws[0] in ws;
      TellingTidy(w, Apply(run, ws[0]), ws[1..]);
    }
  }

  lemma {:induction false} TellingThenTidy(w: Workflow, run: Run, telling: seq<Write>, rest: seq<Write>)
    requires !Terminal(run.status) && Telling(telling) && AllTidy(w, ApplyAll(run, telling), rest)
    ensures AllTidy(w, run, telling + rest)
  {
    TellingTidy(w, run, telling);
    AllTidyOfConcat(w, run, telling, rest);
  }

  lemma {:induction false} TellingThenEnding(w: Workflow, run: Run, telling: seq<Write>, event: EventType)
    requires !Terminal(run.status) && Quiet(run) && Telling(telling) && EndsRun(event)
    ensures AllTidy(w, run, telling + Ending(event, StatusOf(event)))
  {
    TellingTidy(w, run, telling);
    EndingTidy(w, ApplyAll(run, telling), event);
    TellingThenTidy(w, run, telling, Ending(event, StatusOf(event)));
  }

  // ---------------------------------------------------------------- the executor

  lemma {:induction false} QuietOffGates(w: Workflow, run: Run)
    requires GatesFit(w, run)
    requires run.cursor >= |w.nodes| || OverLimit(w, run.cursor) || !w.nodes[run.cursor].kind.Gate?
    ensures Quiet(run)
  {}

  lemma {:induction false} SuspendingTidy(w: Workflow, run: Run, expires: Option<int>)
    requires run.status.Running? && GatesFit(w, run) && run.cursor < |w.nodes|
    requires w.nodes[run.cursor].kind.Gate? && !OverLimit(w, run.cursor)
    ensures AllTidy(w, run, Suspending(run, w.nodes[run.cursor], run.cursor, expires))
  {
    var node, i := w.nodes[run.cursor], run.cursor;
    var a, b, c := Append(NodeStarted, Some(node.id)), Put(node.id, GateRow(run, node, expires)), Append(NodeSuspended, Some(node.id));
    var d := SetBoth(WaitingStatus(node.kind.kind), i);
    var one := Apply(run, a);
    var two := Apply(one, b);
    var three := Apply(two, c);
    assert [Release][1..] == [];
    TidyFirst(w, three, d, [Release]);
    TidyFirst(w, two, c, [d] + [Release]);
    TidyFirst(w, one, b, [c] + ([d] + [Release]));
    TidyFirst(w, run, a, [b] + ([c] + ([d] + [Release])));
    assert Suspending(run, node, i, expires) == [a] + ([b] + ([c] + ([d] + [Release])));
  }

  lemma {:induction false} StopTidy(w: Workflow, run: Run, chance: Chance)
    requires run.status.Running? && GatesFit(w, run) && !GoesOn(w, run, run.cursor, chance)
    ensures AllTidy(w, run, Stop(w, run, run.cursor, chance).0)
  {
    var i := run.cursor;
    if i < |w.nodes| && !OverLimit(w, i) && w.nodes[i].kind.Gate? {
      SuspendingTidy(w, run, chance.expires(i));
    } else {
      QuietOffGates(w, run);
      if i >= |w.nodes| {
        TellingThenEnding(w, run, [Append(MemoryWritten, None)], RunCompleted);
      } else if OverLimit(w, i) {
        TellingThenEnding(w, run, [Append(CapBreached, Some(w.nodes[i].id))], RunFailed);
      } else if w.nodes[i].kind.Delay? {
        TellingTidy(w, run, [Append(NodeStarted, Some(w.nodes[i].id))]);
      } else {
        TellingThenEnding(w, run, Unfinished(w.nodes[i], chance.result(i)), RunFailed);
      }
    }
  }

  /** node.completed, the cursor moved, and what follows. */
  lemma {:induction false} MovingOnTidy(w: Workflow, run: Run, node: string, next: Write, rest: seq<Write>)
    requires !Terminal(run.status) && Quiet(run) && (next.SetCursor? || (next.SetBoth? && !Terminal(next.status)))
    requires AllTidy(w, ApplyAll(run, [Append(NodeCompleted, Some(node)), next]), rest)
    ensures AllTidy(w, run, [Append(NodeCompleted, Some(node)), next] + rest)
  {
    var completed := Append(NodeCompleted, Some(node));
    ApplyTwo(run, completed, next);
    TidyFirst(w, Apply(run, completed), next, rest);
    TidyFirst(w, run, completed, [next] + rest);
    assert [completed, next] + rest == [completed] + ([next] + rest);
  }

  lemma {:induction false} SliceTidy(w: Workflow, run: Run, chance: Chance)
    requires run.status.Running? && GatesFit(w, run)
    ensures AllTidy(w, run, Slice(w, run, run.cursor, chance).0)
    decreases |w.nodes| - run.cursor
  {
    var i := run.cursor;
    if GoesOn(w, run, i, chance) {
      var node := w.nodes[i].id;
      var started, moving := Append(NodeStarted, Some(node)), [Append(NodeCompleted, Some(node)), SetCursor(i + 1)];
      var one := Apply(run, started);
      var next := ApplyAll(one, moving);
      var rest := Slice(w, next, i + 1, chance).0;
      QuietOffGates(w, run);
      ApplyTwo(one, moving[0], moving[1]);
      SliceTidy(w, next, chance);
      MovingOnTidy(w, one, node, SetCursor(i + 1), rest);
      TidyFirst(w, run, started, moving + rest);
      ApplyThree(run, started, moving[0], moving[1]);
      assert Completing(w.nodes[i], i) + rest == [started] + (moving + rest);
    } else {
      StopTidy(w, run, chance);
    }
  }

  lemma {:induction false} ClaimedTidy(w: Workflow, run: Run, chance: Chance)
    requires !Terminal(run.status) && GatesFit(w, run)
    ensures AllTidy(w, run, [Claim] + Executing(w, Apply(run, Claim), chance).0)
  {
    var claimed := Apply(run, Claim);
    var announced := ApplyAll(claimed, Announcing(claimed));
    var rest := Slice(w, announced, run.cursor, chance).0;
    AnnouncingTidy(w, claimed);
    SliceTidy(w, announced, chance);
    AllTidyOfConcat(w, claimed, Announcing(claimed), rest);
    TidyFirst(w, run, Claim, Announcing(claimed) + rest);
  }

  lemma {:induction false} AnnouncingTidy(w: Workflow, run: Run)
    requires !Terminal(run.status) && GatesFit(w, run)
    ensures var announced := ApplyAll(run, Announcing(run));
            && AllTidy(w, run, Announcing(run)) && GatesFit(w, announced)
            && announced.status.Running? && announced.cursor == run.cursor
  {
    var a, b := Announcing(run)[0], Announcing(run)[1];
    ApplyTwo(run, a, b);
    TellingTidy(w, Apply(run, a), [b]);
    TidyFirst(w, run, a, [b]);
    assert [a] + [b] == [a, b];
  }

  // ------------------------------------------------------------------- resolving

  lemma {:induction false} ClosingLeavesQuiet(w: Workflow, run: Run, n: string, row: Approval.Interrupt)
    requires GatesFit(w, run) && n in run.gates && run.gates[n].Active() && !row.Active()
    ensures Quiet(Apply(run, Put(n, row)))
  {}

  lemma {:induction false} ClosedThenTidy(w: Workflow, run: Run, n: string, row: Approval.Interrupt, rest: seq<Write>)
    requires !row.Active() && AllTidy(w, Apply(run, Put(n, row)), rest)
    ensures AllTidy(w, run, [Put(n, row)] + rest)
  {
    TidyFirst(w, run, Put(n, row), rest);
  }

  lemma {:induction false} ResumedTidy(w: Workflow, run: Run, n: string, row: Approval.Interrupt, telling: seq<Write>, c: nat)
    requires !Terminal(run.status) && GatesFit(w, run) && n in run.gates && run.gates[n].Active() && !row.Active() && Telling(telling)
    ensures AllTidy(w, run, [Put(n, row)] + (telling + [Append(NodeCompleted, Some(n)), SetBoth(Running, c)]))
  {
    var put := Apply(run, Put(n, row));
    var moving := [Append(NodeCompleted, Some(n)), SetBoth(Running, c)];
    ClosingLeavesQuiet(w, run, n, row);
    TellingTidy(w, put, telling);
    MovingOnTidy(w, ApplyAll(put, telling), n, SetBoth(Running, c), []);
    assert moving + [] == moving;
    TellingThenTidy(w, put, telling, moving);
    ClosedThenTidy(w, run, n, row, telling + moving);
  }

  lemma {:induction false} SettlingTidy(w: Workflow, run: Run, h: Handler, outcome: Approval.ResolveOutcome, row: Approval.Interrupt)
    requires !Terminal(run.status) && GatesFit(w, run) && ActiveRow(run, h.node).Some?
    requires outcome.Pending? ==> row.Active() && row.kind == run.gates[h.node].kind
    requires outcome.Expired? || outcome.Resumed? || outcome.Refined? || outcome.Rejected? ==> !row.Active()
    ensures AllTidy(w, run, Settling(run, h, outcome, row))
  {
    var put, node := Put(h.node, row), Some(h.node);
    var after := Apply(run, put);
    match outcome
    case Unknown =>
    case Invalid =>
    case Expired => TidyFirst(w, run, put, []); assert [put] + [] == [put];
    case Pending(_) =>
      TellingTidy(w, after, [Append(InterruptVote, node)]);
      TidyFirst(w, run, put, [Append(InterruptVote, node)]);
      assert [put] + [Append(InterruptVote, node)] == Settling(run, h, outcome, row);
    case Refined(_) =>
      var told := [Append(InterruptResolved, node)];
      TellingTidy(w, after, told);
      TidyFirst(w, ApplyAll(after, told), SetStatus(Running), []);
      TellingThenTidy(w, after, told, [SetStatus(Running)] + []);
      ClosedThenTidy(w, run, h.node, row, told + ([SetStatus(Running)] + []));
      assert Settling(run, h, outcome, row) == [put] + (told + ([SetStatus(Running)] + []));
    case Rejected(_) =>
      var told := [Append(InterruptResolved, node), Append(NodeCompleted, node)];
      ClosingLeavesQuiet(w, run, h.node, row);
      TellingThenEnding(w, after, told, RunFailed);
      ClosedThenTidy(w, run, h.node, row, told + Ending(RunFailed, Failed));
      assert Settling(run, h, outcome, row) == [put] + (told + Ending(RunFailed, Failed));
    case Resumed(_, _) =>
      var told := if h.byToken then [Append(NodeResumed, node)] else [Append(InterruptResolved, node), Append(NodeResumed, node)];
      var c := if h.byToken then run.cursor + 1 else h.cursor + 1;
      ResumedTidy(w, run, h.node, row, told, c);
      assert Settling(run, h, outcome, row) == [put] + (told + [Append(NodeCompleted, node), SetBoth(Running, c)]);
  }

  lemma {:induction false} BodyTidy(w: Workflow, m: Host, h: Handler, reply: Reply, chance: Chance, k: nat)
    requires TidyHost(w, m, k)
    ensures AllTidy(w, m.run, BodyArrives(w, m, h, reply, chance).0)
  {
    if ActiveRow(m.run, h.node).Some? {
      var (outcome, row) := Resolution(m.run, h, reply);
      var before := Settling(m.run, h, outcome, row);
      ResolutionCloses(m.run, h, reply);
      SettlingTidy(w, m.run, h, outcome, row);
      if outcome.Resumed? || outcome.Refined? {
        var settled := ApplyAll(m.run, before);
        ReleasedRow(m.run, h, outcome, row);
        ReleasedRuns(m.run, h, outcome, row);
        ClosingLeavesQuiet(w, m.run, h.node, row);
        assert Quiet(settled);
        ClaimedTidy(w, settled, chance);
        AllTidyOfConcat(w, m.run, before, [Claim] + Executing(w, Apply(settled, Claim), chance).0);
      }
    }
  }

  lemma {:induction false} LastStatus(run: Run, ws: seq<Write>, x: Write)
    requires x.SetStatus? || x.SetBoth?
    ensures ApplyAll(run, ws + [x]).status == x.status
  {
    ApplyAllOfConcat(run, ws, [x]);
    ApplyOne(ApplyAll(run, ws), x);
  }

  lemma {:induction false} ReleasedRuns(run: Run, h: Handler, outcome: Approval.ResolveOutcome, row: Approval.Interrupt)
    requires outcome.Resumed? || outcome.Refined?
    ensures ApplyAll(run, Settling(run, h, outcome, row)).status.Running?
  {
    var ws := Settling(run, h, outcome, row);
    LastStatus(run, ws[..|ws| - 1], ws[|ws| - 1]);
    assert ws == ws[..|ws| - 1] + [ws[|ws| - 1]];
  }

  // ------------------------------------------------------------------- all steps

  lemma {:induction false} WakeTidy(w: Workflow, m: Host, chance: Chance, k: nat)
    requires TidyHost(w, m, k) && m.asleep.Some?
    ensures AllTidy(w, m.run, Plan(w, m, Wake(chance)).0)
  {
    var i := m.asleep.value;
    var here := [Append(NodeCompleted, Some(w.nodes[i].id)), SetCursor(i + 1)];
    var next := ApplyAll(m.run, here);
    QuietOffGates(w, m.run);
    ApplyTwo(m.run, here[0], here[1]);
    SliceTidy(w, next, chance);
    MovingOnTidy(w, m.run, w.nodes[i].id, SetCursor(i + 1), Slice(w, next, i + 1, chance).0);
  }

  lemma {:induction false} CancelTidy(w: Workflow, m: Host, reason: string, now: int, k: nat)
    requires TidyHost(w, m, k)
    ensures AllTidy(w, m.run, CancelArrives(w, m, reason, now).0)
  {
    if Terminal(m.run.status) {
    } else if IsWaiting(m.run.status) {
      var invalidate := InvalidateAll(reason, now);
      InvalidatingQuiets(m.run, reason, now);
      EndingTidy(w, Apply(m.run, invalidate), RunCancelled);
      TidyFirst(w, m.run, invalidate, Ending(RunCancelled, Cancelled));
    } else if m.asleep.Some? {
      var told := [Append(NodeCancelled, Some(w.nodes[m.asleep.value].id))];
      QuietOffGates(w, m.run);
      TellingThenEnding(w, Apply(m.run, RequestCancel), told, RunCancelled);
      TidyFirst(w, m.run, RequestCancel, told + Ending(RunCancelled, Cancelled));
      assert CancelArrives(w, m, reason, now).0 == [RequestCancel] + (told + Ending(RunCancelled, Cancelled));
    } else {
      TidyFirst(w, m.run, RequestCancel, []);
      assert [RequestCancel] + [] == [RequestCancel];
    }
  }

  lemma {:induction false} PlanTidy(w: Workflow, m: Host, e: Event, k: nat)
    requires TidyHost(w, m, k)
    ensures AllTidy(w, m.run, Plan(w, m, e).0)
  {
    match e
    case Launch(expired, chance) =>
      if m.asleep.None? && Orphaned(m.run, expired) { ClaimedTidy(w, m.run, chance); }
    case Wake(chance) => if m.asleep.Some? { WakeTidy(w, m, chance, k); }
    case Deadline =>
      if m.asleep.Some? {
        QuietOffGates(w, m.run);
        TellingThenEnding(w, m.run, [Append(NodeCancelled, Some(w.nodes[m.asleep.value].id)), Append(CapBreached, None)], RunFailed);
      }
    case Cancel(reason, now) => CancelTidy(w, m, reason, now, k);
    case Read(_, _) =>
    case Body(i, reply, chance) => if i < |m.handlers| { BodyTidy(w, m, m.handlers[i], reply, chance, k); }
  }

  lemma {:induction false} AfterTidy(w: Workflow, m: Host, h: Happening, k: nat)
    requires TidyHost(w, m, k)
    ensures TidyHost(w, After(w, m, h), if CutsEnding(w, m, h) then k + 1 else k)
    ensures CutsEnding(w, m, h) ==> !Terminal(After(w, m, h).run.status)
  {
    PlanTidy(w, m, h.event, k);
    AfterIsCut(w, m, h);
    CutTidy(w, m.run, Plan(w, m, h.event).0, Reaching(w, m, h), k);
    if h.Whole? { PlanSleeps(w, m, h.event); }
  }

  lemma {:induction false} SurvivedTidy(w: Workflow, happenings: seq<Happening>)
    ensures TidyHost(w, Survived(w, happenings), Cuts(w, happenings))
    decreases |happenings|
  {
    if happenings != [] {
      var n := |happenings| - 1;
      SurvivedTidy(w, happenings[..n]);
      AfterTidy(w, Survived(w, happenings[..n]), happenings[n], Cuts(w, happenings[..n]));
    }
  }

  /**
   * Whatever the workflow and however often the host crashes: the log holds one ending event for
   * each crash right after one, and one more, the last event, exactly when the run is terminal.
   */
  lemma {:induction false} EndingsCounted(w: Workflow, happenings: seq<Happening>)
    ensures var run := Survived(w, happenings).run;
            && Endings(run.log) == Cuts(w, happenings) + (if Terminal(run.status) then 1 else 0)
            && (Terminal(run.status) ==> NamesEnd(run))
  {
    SurvivedTidy(w, happenings);
  }

  /** So if no crash comes right after an ending event, at most one is ever logged, and it is last. */
  lemma {:induction false} EndsOnceUnlessCut(w: Workflow, happenings: seq<Happening>, k: nat)
    requires Cuts(w, happenings) == 0 && k < |Survived(w, happenings).run.log|
    ensures var run := Survived(w, happenings).run;
            EndsRun(run.log[k].event) ==> k == |run.log| - 1 && run.status == StatusOf(run.log[k].event)
  {
    EndingsCounted(w, happenings);
    var log := Survived(w, happenings).run.log;
    if EndsRun(log[k].event) {
      if Endings(log) == 0 { NoEndings(log, k); }
      if k < |log| - 1 { NoEndings(log[..|log| - 1], k); }
    }
  }

  lemma {:induction false} LogGrows(run: Run, ws: seq<Write>)
    ensures run.log <= ApplyAll(run, ws).log
    decreases |ws|
  {
    if ws != [] { LogGrows(Apply(run, ws[0]), ws[1..]); }
  }

  /**
   * And after such a crash the log always goes past the ending: with the next launch where the run
   * is an orphan, which logs its resumption, and otherwise, where it still waits, with a cancel.
   */
  lemma {:induction false} CutLogsPastEnding(w: Workflow, happenings: seq<Happening>, h: Happening, chance: Chance, reason: string, now: int)
    requires CutsEnding(w, Survived(w, happenings), h)
    ensures var cut := After(w, Survived(w, happenings), h);
            var next := if Orphaned(cut.run, true) then Launch(true, chance) else Cancel(reason, now);
            && cut.run.log != [] && EndsRun(cut.run.log[|cut.run.log| - 1].event)
            && cut.run.log < Step(w, cut, next).run.log
            && (next.Cancel? ==> IsWaiting(cut.run.status) && Step(w, cut, next).run.status.Cancelled?)
  {
    var m := Survived(w, happenings);
    var cut := After(w, m, h);
    SurvivedTidy(w, happenings);
    AfterTidy(w, m, h, Cuts(w, happenings));
    LastIsEnding(w, m, h);
    if Orphaned(cut.run, true) { LaunchLogs(w, cut, chance); } else { CancelLogs(w, cut, reason, now); }
  }

  lemma {:induction false} LastIsEnding(w: Workflow, m: Host, h: Happening)
    requires CutsEnding(w, m, h)
    ensures var log := After(w, m, h).run.log; log != [] && EndsRun(log[|log| - 1].event)
  {
    AfterIsCut(w, m, h);
    var ws, n := Plan(w, m, h.event).0, Reaching(w, m, h);
    assert ws[..n] == ws[..n - 1] + [ws[n - 1]];
    ApplyAllOfConcat(m.run, ws[..n - 1], [ws[n - 1]]);
    ApplyOne(ApplyAll(m.run, ws[..n - 1]), ws[n - 1]);
  }

  lemma {:induction false} LaunchLogs(w: Workflow, m: Host, chance: Chance)
    requires m.asleep.None? && Orphaned(m.run, true)
    ensures m.run.log < Step(w, m, Launch(true, chance)).run.log
  {
    var claimed := Apply(m.run, Claim);
    var announced := ApplyAll(claimed, Announcing(claimed));
    ApplyOne(m.run, Claim);
    ApplyAllOfConcat(m.run, [Claim], Executing(w, claimed, chance).0);
    ApplyTwo(claimed, Announcing(claimed)[0], Announcing(claimed)[1]);
    ApplyAllOfConcat(claimed, Announcing(claimed), Slice(w, announced, claimed.cursor, chance).0);
    LogGrows(announced, Slice(w, announced, claimed.cursor, chance).0);
  }

  lemma {:induction false} CancelLogs(w: Workflow, m: Host, reason: string, now: int)
    requires IsWaiting(m.run.status)
    ensures var after := Step(w, m, Cancel(reason, now)).run; m.run.log < after.log && after.status.Cancelled?
  {
    var invalidated := Apply(m.run, InvalidateAll(reason, now));
    ApplyOne(m.run, InvalidateAll(reason, now));
    ApplyAllOfConcat(m.run, [InvalidateAll(reason, now)], Ending(RunCancelled, Cancelled));
    ApplyThree(invalidated, Append(RunCancelled, None), SetStatus(Cancelled), Release);
  }

  // ------------------------------------------------------------------ an instance

  /** All that a launch of a workflow without nodes writes. */
  lemma {:induction false} EmptyWorkflowWrites(run: Run, chance: Chance)
    requires run.cursor == 0
    ensures [Claim] + Executing(Workflow([], None), Apply(run, Claim), chance).0
         == [Claim, SetStatus(Running), Append(if Started(run.log) then RunResumed else RunStarted, None)]
            + [Append(MemoryWritten, None), Append(RunCompleted, None), SetStatus(Completed), Release]
  {
    var claimed := Apply(run, Claim);
    ApplyTwo(claimed, Announcing(claimed)[0], Announcing(claimed)[1]);
  }

  lemma {:induction false} EmptyWorkflowCut(chance: Chance)
    ensures var m := After(Workflow([], None), Host(FRESH, None, []), Crash(Launch(false, chance), 5));
            && m.asleep.None? && m.run.status.Running? && m.run.cursor == 0
            && |m.run.log| == 3 && m.run.log[0].event.RunStarted? && m.run.log[2].event.RunCompleted?
  {
    var cut := [Claim, SetStatus(Running), Append(RunStarted, None), Append(MemoryWritten, None), Append(RunCompleted, None)];
    EmptyWorkflowWrites(FRESH, chance);
    assert Plan(Workflow([], None), Host(FRESH, None, []), Launch(false, chance)).0[..5] == cut;
    ApplyFive(FRESH, cut[0], cut[1], cut[2], cut[3], cut[4]);
  }

  lemma {:induction false} EmptyWorkflowAgain(m: Host, chance: Chance)
    requires m.asleep.None? && m.run.status.Running? && m.run.cursor == 0 && Started(m.run.log)
    ensures var log := Step(Workflow([], None), m, Launch(true, chance)).run.log;
            |log| == |m.run.log| + 3 && m.run.log < log && log[|log| - 1].event.RunCompleted?
  {
    var a, b := [Claim, SetStatus(Running), Append(RunResumed, None)], [Append(MemoryWritten, None), Append(RunCompleted, None), SetStatus(Completed), Release];
    EmptyWorkflowWrites(m.run, chance);
    ApplyAllOfConcat(m.run, a, b);
    ApplyThree(m.run, a[0], a[1], a[2]);
    ApplyFour(ApplyAll(m.run, a), b[0], b[1], b[2], b[3]);
  }

  /** The shortest run that ends twice: cut after run.completed, and the restarted run logs it again. */
  lemma {:induction false} CrashEndsTwice(chance: Chance)
    ensures var log := Survived(Workflow([], None), [Crash(Launch(false, chance), 5), Whole(Launch(true, chance))]).run.log;
            |log| == 6 && log[2].event.RunCompleted? && log[5].event.RunCompleted?
  {
    var first, second := Crash(Launch(false, chance), 5), Whole(Launch(true, chance));
    var cut := After(Workflow([], None), Host(FRESH, None, []), first);
    assert [first][..0] == [] && Survived(Workflow([], None), [first]) == cut;
    assert [first, second][..1] == [first];
    EmptyWorkflowCut(chance);
    EmptyWorkflowAgain(cut, chance);
  }
}
