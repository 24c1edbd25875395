/**
 * Crashes between any two SQL statements and restarts that claim the orphaned run
 * (examples/hosts/sqlite/src/server.ts): what the log says however often that happens.
 */
module Recovery {
  import opened Wrappers
  import opened Executor
  import opened ExecutorRuns
  import Approval

  /** A whole step, or a step of which only the first `written` statements reach the database. */
  datatype Happening =
    | Whole(event: Event)
    | Crash(event: Event, written: nat)

  /** After a crash the executor and the requests in flight are gone. */
  function After(w: Workflow, m: Host, h: Happening): Host {
    match h
    case Whole(e) => Step(w, m, e)
    case Crash(e, n) =>
      var writes := Plan(w, m, e).0;
      Host(ApplyAll(m.run, if n <= |writes| then writes[..n] else writes), None, [])
  }

  function Survived(w: Workflow, happenings: seq<Happening>): Host {
    if happenings == [] then Host(FRESH, None, [])
    else After(w, Survived(w, happenings[..|happenings| - 1]), happenings[|happenings| - 1])
  }

  /** Adjacent repeats removed. */
  function Dedup(s: seq<string>): seq<string> {
    if s == [] then []
    else
      var n := |s| - 1;
      var before := Dedup(s[..n]);
      if n > 0 && s[n - 1] == s[n] then before else before + [s[n]]
  }

  lemma {:induction false} DedupLast(s: seq<string>)
    requires s != []
    ensures Dedup(s) != [] && Dedup(s)[|Dedup(s)| - 1] == s[|s| - 1]
  {
    if |s| > 1 { DedupLast(s[..|s| - 1]); }
  }

  lemma {:induction false} DedupOneMore(s: seq<string>, x: string)
    ensures Dedup(s + [x]) == if Dedup(s) != [] && Dedup(s)[|Dedup(s)| - 1] == x then Dedup(s) else Dedup(s) + [x]
  {
    assert (s + [x])[..|s|] == s;
    if s != [] { DedupLast(s); }
  }

  function Progress(run: Run): seq<string> { Dedup(Done(run)) }

  /** run.started is the first event and the only one of its type. */
  ghost predicate StartsOnce(log: seq<Logged>) {
    log != [] ==> log[0].event.RunStarted? && forall k | 1 <= k < |log| :: !log[k].event.RunStarted?
  }

  ghost predicate Numbered(log: seq<Logged>) {
    forall k | 0 <= k < |log| :: log[k].sequence == k
  }

  /** The node under the cursor has completed, but the cursor has not moved. */
  ghost predicate PastCursor(w: Workflow, run: Run) {
    run.cursor < |w.nodes| && Progress(run) == Dedup(Ids(w)[..run.cursor + 1])
  }

  /** The database after any statement: completed nodes up to the cursor or one past it. */
  ghost predicate Sound(w: Workflow, run: Run) {
    && run.cursor <= |w.nodes| && (Progress(run) == Dedup(Ids(w)[..run.cursor]) || PastCursor(w, run))
    && StartsOnce(run.log) && Numbered(run.log)
    && (forall e | e in run.log :: e.event.RunCompleted? ==> run.cursor == |w.nodes|)
    && (run.log == [] ==> run.gates == map[] && !IsWaiting(run.status))
    && GatesFit(w, run)
  }

  /** Node c is a gate of this id and kind that the recursion limit lets the loop enter. */
  predicate OnGate(w: Workflow, c: nat, n: string, kind: Approval.Kind) {
    c < |w.nodes| && !OverLimit(w, c) && w.nodes[c].id == n && w.nodes[c].kind.Gate? && w.nodes[c].kind.kind == kind
  }

  /** An active interrupt is that of the gate under the cursor. */
  ghost predicate GatesFit(w: Workflow, run: Run) {
    forall n | n in run.gates && run.gates[n].Active() :: OnGate(w, run.cursor, n, run.gates[n].kind)
  }

  /** Statements that keep a sound database sound. */
  ghost predicate Allowed(w: Workflow, run: Run, x: Write) {
    match x
    case Append(event, node) =>
      && (event.RunStarted? <==> run.log == [])
      && (event.RunCompleted? ==> run.cursor == |w.nodes|)
      && (event.NodeCompleted? ==> run.cursor < |w.nodes| && node == Some(w.nodes[run.cursor].id))
    case SetStatus(status) => run.log != [] || !IsWaiting(status)
    case SetCursor(c) => run.log != [] && MayMove(w, run, c)
    case SetBoth(_, c) => run.log != [] && MayMove(w, run, c)
    case Put(n, row) => run.log != [] && (row.Active() ==> OnGate(w, run.cursor, n, row.kind))
    case _ => true
  }

  /** The cursor stays, or moves past a node that has completed and left no interrupt active. */
  ghost predicate MayMove(w: Workflow, run: Run, c: nat) {
    c == run.cursor || (c == run.cursor + 1 && PastCursor(w, run) && Quiet(run))
  }

  lemma {:induction false} DedupReaches(s: seq<string>, ids: seq<string>, c: nat)
    requires c < |ids| && (Dedup(s) == Dedup(ids[..c]) || Dedup(s) == Dedup(ids[..c + 1]))
    ensures Dedup(s + [ids[c]]) == Dedup(ids[..c + 1])
  {
    assert ids[..c + 1] == ids[..c] + [ids[c]];
    DedupOneMore(s, ids[c]);
    DedupOneMore(ids[..c], ids[c]);
    DedupLast(ids[..c + 1]);
  }

  /** Completing the node under the cursor takes the progress one past the cursor, again or for the first time. */
  lemma {:induction false} ProgressAfterAppend(w: Workflow, run: Run, x: Write)
    requires Sound(w, run) && Allowed(w, run, x) && x.Append?
    ensures if x.event.NodeCompleted? then PastCursor(w, Apply(run, x)) else Progress(Apply(run, x)) == Progress(run)
  {
    DoneAfterWrite(run, x);
    if x.event.NodeCompleted? {
      assert Ids(w)[run.cursor] == w.nodes[run.cursor].id;
      DedupReaches(Done(run), Ids(w), run.cursor);
    }
  }

  lemma {:induction false} LogAfterAppend(run: Run, x: Write)
    requires StartsOnce(run.log) && Numbered(run.log) && x.Append? && (x.event.RunStarted? <==> run.log == [])
    ensures StartsOnce(Apply(run, x).log) && Numbered(Apply(run, x).log)
  {}

  lemma {:induction false} AppendKeepsSound(w: Workflow, run: Run, x: Write)
    requires Sound(w, run) && Allowed(w, run, x) && x.Append?
    ensures Sound(w, Apply(run, x))
  {
    var run' := Apply(run, x);
    ProgressAfterAppend(w, run, x);
    LogAfterAppend(run, x);
    forall e | e in run'.log && e.event.RunCompleted? ensures run'.cursor == |w.nodes| {
      if e !in run.log { assert x.event.RunCompleted?; }
    }
  }

  lemma {:induction false} WriteKeepsSound(w: Workflow, run: Run, x: Write)
    requires Sound(w, run) && Allowed(w, run, x)
    ensures Sound(w, Apply(run, x))
  {
    if x.Append? {
      AppendKeepsSound(w, run, x);
    } else {
      DoneAfterWrite(run, x);
    }
  }

  /** Each statement allowed where it comes. */
  ghost predicate AllAllowed(w: Workflow, run: Run, writes: seq<Write>)
    decreases |writes|
  {
    writes == [] || (Allowed(w, run, writes[0]) && AllAllowed(w, Apply(run, writes[0]), writes[1..]))
  }

  lemma {:induction false} CutAnywhereSound(w: Workflow, run: Run, writes: seq<Write>, n: nat)
    requires Sound(w, run) && AllAllowed(w, run, writes) && n <= |writes|
    ensures Sound(w, ApplyAll(run, writes[..n]))
    decreases |writes|
  {
    if n > 0 {
      WriteKeepsSound(w, run, writes[0]);
      CutAnywhereSound(w, Apply(run, writes[0]), writes[1..], n - 1);
      assert writes[..n][1..] == writes[1..][..n - 1];
    }
  }

  lemma {:induction false} CursorGrows(w: Workflow, run: Run, writes: seq<Write>, n: nat)
    requires AllAllowed(w, run, writes) && n <= |writes|
    ensures run.cursor <= ApplyAll(run, writes[..n]).cursor
    decreases |writes|
  {
    if n > 0 {
      CursorGrows(w, Apply(run, writes[0]), writes[1..], n - 1);
      assert writes[..n][1..] == writes[1..][..n - 1];
    }
  }

  lemma {:induction false} AllAllowedOfConcat(w: Workflow, run: Run, a: seq<Write>, b: seq<Write>)
    requires AllAllowed(w, run, a) && AllAllowed(w, ApplyAll(run, a), b)
    ensures AllAllowed(w, run, a + b)
    decreases |a|
  {
    if a == [] {
      assert a + b == b;
    } else {
      assert (a + b)[1..] == a[1..] + b;
      AllAllowedOfConcat(w, Apply(run, a[0]), a[1..], b);
    }
  }

  lemma {:induction false} AllowedFirst(w: Workflow, run: Run, x: Write, rest: seq<Write>)
    requires Allowed(w, run, x) && AllAllowed(w, Apply(run, x), rest)
    ensures AllAllowed(w, run, [x] + rest)
  {
    assert ([x] + rest)[1..] == rest;
  }

  lemma {:induction false} TwoAllowed(w: Workflow, run: Run, a: Write, b: Write)
    requires Allowed(w, run, a) && Allowed(w, Apply(run, a), b)
    ensures AllAllowed(w, run, [a, b]) && ApplyAll(run, [a, b]) == Apply(Apply(run, a), b)
  {
    assert [a, b][1..] == [b] && [b][1..] == [];
    ApplyTwo(run, a, b);
  }

  /** Events other than those that start or complete something, and statements that only mark the run. */
  predicate Harmless(x: Write) {
    match x
    case Append(event, _) => !event.RunStarted? && !event.RunCompleted? && !event.NodeCompleted?
    case SetStatus(_) => true
    case RequestCancel => true
    case Claim => true
    case Release => true
    case InvalidateAll(_, _) => true
    case _ => false
  }

  lemma {:induction false} HarmlessAllowed(w: Workflow, run: Run, writes: seq<Write>)
    requires run.log != [] && forall x | x in writes :: Harmless(x)
    ensures AllAllowed(w, run, writes)
    decreases |writes|
  {
    if writes != [] {
      assert writes[0] in writes && Harmless(writes[0]);
      HarmlessAllowed(w, Apply(run, writes[0]), writes[1..]);
    }
  }

  // ------------------------------------------------------------------ the executor

  /** Where the executor goes on from the node under the cursor. */
  ghost predicate Resumable(w: Workflow, run: Run) { Sound(w, run) && run.log != [] }

  lemma {:induction false} WorkIsQuiet(w: Workflow, run: Run)
    requires Sound(w, run) && (run.cursor < |w.nodes| ==> !w.nodes[run.cursor].kind.Gate?)
    ensures Quiet(run)
  {}

  /** node.completed for the node under the cursor, then the cursor past it. */
  lemma {:induction false} MovingOnAllowed(w: Workflow, run: Run, next: Write)
    requires Resumable(w, run) && run.cursor < |w.nodes| && Quiet(run)
    requires (next.SetCursor? || next.SetBoth?) && next.cursor == run.cursor + 1
    ensures var here := [Append(NodeCompleted, Some(w.nodes[run.cursor].id)), next];
            AllAllowed(w, run, here) && Resumable(w, ApplyAll(run, here)) && ApplyAll(run, here).cursor == run.cursor + 1
  {
    var completed := Append(NodeCompleted, Some(w.nodes[run.cursor].id));
    WriteKeepsSound(w, run, completed);
    var mid := Apply(run, completed);
    ProgressAfterAppend(w, run, completed);
    WriteKeepsSound(w, mid, next);
    TwoAllowed(w, run, completed, next);
  }

  lemma {:induction false} SuspendingAllowed(w: Workflow, run: Run, expires: Option<int>)
    requires Resumable(w, run) && run.cursor < |w.nodes| && w.nodes[run.cursor].kind.Gate? && !OverLimit(w, run.cursor)
    ensures AllAllowed(w, run, Suspending(run, w.nodes[run.cursor], run.cursor, expires))
  {
    var node, i := w.nodes[run.cursor], run.cursor;
    var a, b, c := Append(NodeStarted, Some(node.id)), Put(node.id, GateRow(run, node, expires)), Append(NodeSuspended, Some(node.id));
    var d := SetBoth(WaitingStatus(node.kind.kind), i);
    var one := Apply(run, a);
    var two := Apply(one, b);
    var three := Apply(two, c);
    var four := Apply(three, d);
    HarmlessAllowed(w, four, [Release]);
    AllowedFirst(w, three, d, [Release]);
    AllowedFirst(w, two, c, [d] + [Release]);
    AllowedFirst(w, one, b, [c] + ([d] + [Release]));
    AllowedFirst(w, run, a, [b] + ([c] + ([d] + [Release])));
    assert Suspending(run, node, i, expires) == [a] + ([b] + ([c] + ([d] + [Release])));
  }

  lemma {:induction false} StopAllowed(w: Workflow, run: Run, chance: Chance)
    requires Resumable(w, run) && !GoesOn(w, run, run.cursor, chance)
    ensures AllAllowed(w, run, Stop(w, run, run.cursor, chance).0)
  {
    var i := run.cursor;
    var ws := Stop(w, run, i, chance).0;
    if i >= |w.nodes| && !run.status.Cancelling? {
      var completed, rest := Append(RunCompleted, None), [SetStatus(Completed), Release];
      var written := Append(MemoryWritten, None);
      DoneAfterWrite(run, written);
      HarmlessAllowed(w, Apply(Apply(run, written), completed), rest);
      AllowedFirst(w, Apply(run, written), completed, rest);
      AllowedFirst(w, run, written, [completed] + rest);
      assert ws == [written] + ([completed] + rest);
    } else if i < |w.nodes| && !OverLimit(w, i) && !run.status.Cancelling? && w.nodes[i].kind.Gate? {
      SuspendingAllowed(w, run, chance.expires(i));
    } else {
      HarmlessAllowed(w, run, ws);
    }
  }

  lemma {:induction false} SliceAllowed(w: Workflow, run: Run, chance: Chance)
    requires Resumable(w, run)
    ensures AllAllowed(w, run, Slice(w, run, run.cursor, chance).0)
    decreases |w.nodes| - run.cursor
  {
    var i := run.cursor;
    if GoesOn(w, run, i, chance) {
      var started := Append(NodeStarted, Some(w.nodes[i].id));
      var moving := [Append(NodeCompleted, Some(w.nodes[i].id)), SetCursor(i + 1)];
      var one := Apply(run, started);
      WriteKeepsSound(w, run, started);
      WorkIsQuiet(w, one);
      MovingOnAllowed(w, one, SetCursor(i + 1));
      AllowedFirst(w, run, started, moving);
      assert Completing(w.nodes[i], i) == [started] + moving;
      ApplyOne(run, started);
      ApplyAllOfConcat(run, [started], moving);
      SliceAllowed(w, ApplyAll(one, moving), chance);
      AllAllowedOfConcat(w, run, Completing(w.nodes[i], i), Slice(w, ApplyAll(one, moving), i + 1, chance).0);
    } else {
      StopAllowed(w, run, chance);
    }
  }

  lemma {:induction false} StartedIffSome(log: seq<Logged>)
    requires StartsOnce(log)
    ensures Started(log) <==> log != []
  {}

  /** runWorkflow announces run.started exactly on an empty log. */
  lemma {:induction false} AnnouncementFits(w: Workflow, run: Run)
    requires StartsOnce(run.log)
    ensures Allowed(w, run, Announcing(run)[0]) && Allowed(w, Apply(run, Announcing(run)[0]), Announcing(run)[1])
  {
    StartedIffSome(run.log);
  }

  lemma {:induction false} AnnouncingAllowed(w: Workflow, run: Run)
    requires Sound(w, run)
    ensures AllAllowed(w, run, Announcing(run)) && Resumable(w, ApplyAll(run, Announcing(run)))
    ensures ApplyAll(run, Announcing(run)).cursor == run.cursor
  {
    var a, b := Announcing(run)[0], Announcing(run)[1];
    AnnouncementFits(w, run);
    TwoAllowed(w, run, a, b);
    WriteKeepsSound(w, run, a);
    WriteKeepsSound(w, Apply(run, a), b);
  }

  lemma {:induction false} ExecutingAllowed(w: Workflow, run: Run, chance: Chance)
    requires Sound(w, run)
    ensures AllAllowed(w, run, Executing(w, run, chance).0)
  {
    var announced := ApplyAll(run, Announcing(run));
    AnnouncingAllowed(w, run);
    SliceAllowed(w, announced, chance);
    AllAllowedOfConcat(w, run, Announcing(run), Slice(w, announced, run.cursor, chance).0);
  }

  lemma {:induction false} ClaimedAllowed(w: Workflow, run: Run, chance: Chance)
    requires Sound(w, run)
    ensures AllAllowed(w, run, [Claim] + Executing(w, Apply(run, Claim), chance).0)
  {
    WriteKeepsSound(w, run, Claim);
    ExecutingAllowed(w, Apply(run, Claim), chance);
    AllowedFirst(w, run, Claim, Executing(w, Apply(run, Claim), chance).0);
  }

  // ------------------------------------------------------------------- resolving

  /** A few more events, node.completed for the node under the cursor, and the cursor past it. */
  lemma {:induction false} TellingAndMovingOnAllowed(w: Workflow, run: Run, telling: seq<Write>)
    requires Resumable(w, run) && run.cursor < |w.nodes| && Quiet(run)
    requires forall x | x in telling :: x.Append? && Harmless(x)
    ensures AllAllowed(w, run, telling + [Append(NodeCompleted, Some(w.nodes[run.cursor].id)), SetBoth(Running, run.cursor + 1)])
  {
    HarmlessAllowed(w, run, telling);
    CutAnywhereSound(w, run, telling, |telling|);
    assert telling[..|telling|] == telling;
    AppendsKeepRow(run, telling);
    MovingOnAllowed(w, ApplyAll(run, telling), SetBoth(Running, run.cursor + 1));
    AllAllowedOfConcat(w, run, telling, [Append(NodeCompleted, Some(w.nodes[run.cursor].id)), SetBoth(Running, run.cursor + 1)]);
  }

  /** Closing the one interrupt that can be active leaves none. */
  lemma {:induction false} ClosingQuiets(w: Workflow, run: Run, node: string, row: Approval.Interrupt)
    requires Resumable(w, run) && node in run.gates && OnGate(w, run.cursor, node, run.gates[node].kind) && !row.Active()
    ensures Resumable(w, Apply(run, Put(node, row))) && Quiet(Apply(run, Put(node, row))) && Allowed(w, run, Put(node, row))
  {
    WriteKeepsSound(w, run, Put(node, row));
  }

  lemma {:induction false} ReleasingAfter(w: Workflow, run: Run, node: string, row: Approval.Interrupt, telling: seq<Write>)
    requires Resumable(w, run) && node in run.gates && OnGate(w, run.cursor, node, run.gates[node].kind) && !row.Active()
    requires forall x | x in telling :: x.Append? && Harmless(x)
    ensures AllAllowed(w, run, [Put(node, row)] + (telling + [Append(NodeCompleted, Some(node)), SetBoth(Running, run.cursor + 1)]))
  {
    ClosingQuiets(w, run, node, row);
    TellingAndMovingOnAllowed(w, Apply(run, Put(node, row)), telling);
    AllowedFirst(w, run, Put(node, row), telling + [Append(NodeCompleted, Some(node)), SetBoth(Running, run.cursor + 1)]);
  }

  lemma {:induction false} ReleasingAllowed(w: Workflow, run: Run, h: Handler, outcome: Approval.ResolveOutcome, row: Approval.Interrupt)
    requires Resumable(w, run) && h.node in run.gates && OnGate(w, run.cursor, h.node, run.gates[h.node].kind)
    requires !row.Active() && outcome.Resumed? && (h.byToken || h.cursor == run.cursor)
    ensures AllAllowed(w, run, Settling(run, h, outcome, row))
  {
    var put, node := Put(h.node, row), Some(h.node);
    var moving := [Append(NodeCompleted, node), SetBoth(Running, run.cursor + 1)];
    if h.byToken {
      ReleasingAfter(w, run, h.node, row, [Append(NodeResumed, node)]);
      assert Settling(run, h, outcome, row) == [put] + ([Append(NodeResumed, node)] + moving);
    } else {
      ReleasingAfter(w, run, h.node, row, [Append(InterruptResolved, node), Append(NodeResumed, node)]);
      assert Settling(run, h, outcome, row) == [put] + ([Append(InterruptResolved, node), Append(NodeResumed, node)] + moving);
    }
  }

  lemma {:induction false} SettlingAllowed(w: Workflow, run: Run, h: Handler, outcome: Approval.ResolveOutcome, row: Approval.Interrupt)
    requires Resumable(w, run) && h.node in run.gates && OnGate(w, run.cursor, h.node, run.gates[h.node].kind)
    requires outcome.Resumed? ==> !row.Active() && (h.byToken || h.cursor == run.cursor)
    requires row.Active() ==> row.kind == run.gates[h.node].kind
    ensures AllAllowed(w, run, Settling(run, h, outcome, row))
  {
    var put, node := Put(h.node, row), Some(h.node);
    if outcome.Resumed? {
      ReleasingAllowed(w, run, h, outcome, row);
    } else if outcome.Rejected? {
      var one := Apply(Apply(run, put), Append(InterruptResolved, node));
      HarmlessAllowed(w, Apply(one, Append(NodeCompleted, node)), Ending(RunFailed, Failed));
      AllowedFirst(w, one, Append(NodeCompleted, node), Ending(RunFailed, Failed));
      AllowedFirst(w, Apply(run, put), Append(InterruptResolved, node), [Append(NodeCompleted, node)] + Ending(RunFailed, Failed));
      AllowedFirst(w, run, put, [Append(InterruptResolved, node)] + ([Append(NodeCompleted, node)] + Ending(RunFailed, Failed)));
      assert Settling(run, h, outcome, row)
          == [put] + ([Append(InterruptResolved, node)] + ([Append(NodeCompleted, node)] + Ending(RunFailed, Failed)));
    } else if !outcome.Unknown? && !outcome.Invalid? {
      var rest := Settling(run, h, outcome, row)[1..];
      HarmlessAllowed(w, Apply(run, put), rest);
      AllowedFirst(w, run, put, rest);
      assert Settling(run, h, outcome, row) == [put] + rest;
    }
  }

  /** Between statements nothing is known of the process; between steps it sleeps on the node under the cursor. */
  ghost predicate Recoverable(w: Workflow, m: Host) {
    && Sound(w, m.run)
    && SleepsWell(w, m.run, m.asleep)
    && (forall h | h in m.handlers :: Remembers(w, h) && h.cursor <= m.run.cursor)
  }

  lemma {:induction false} BodyAllowed(w: Workflow, m: Host, h: Handler, reply: Reply, chance: Chance)
    requires GatesApart(w) && Recoverable(w, m) && Remembers(w, h) && h.cursor <= m.run.cursor
    ensures AllAllowed(w, m.run, BodyArrives(w, m, h, reply, chance).0)
  {
    if ActiveRow(m.run, h.node).Some? {
      assert OnGate(w, m.run.cursor, h.node, m.run.gates[h.node].kind);
      var (outcome, row) := Resolution(m.run, h, reply);
      var before := Settling(m.run, h, outcome, row);
      ResolutionCloses(m.run, h, reply);
      if outcome.Resumed? && !h.byToken { ReleasesItsKind(m.run, h, reply); }
      SettlingAllowed(w, m.run, h, outcome, row);
      if outcome.Resumed? || outcome.Refined? {
        CutAnywhereSound(w, m.run, before, |before|);
        assert before[..|before|] == before;
        ClaimedAllowed(w, ApplyAll(m.run, before), chance);
        AllAllowedOfConcat(w, m.run, before, [Claim] + Executing(w, Apply(ApplyAll(m.run, before), Claim), chance).0);
      }
    }
  }

  lemma {:induction false} WakeAllowed(w: Workflow, m: Host, chance: Chance)
    requires Recoverable(w, m) && m.asleep.Some?
    ensures AllAllowed(w, m.run, Plan(w, m, Wake(chance)).0)
  {
    var i := m.asleep.value;
    WorkIsQuiet(w, m.run);
    MovingOnAllowed(w, m.run, SetCursor(i + 1));
    var here := [Append(NodeCompleted, Some(w.nodes[i].id)), SetCursor(i + 1)];
    SliceAllowed(w, ApplyAll(m.run, here), chance);
    AllAllowedOfConcat(w, m.run, here, Slice(w, ApplyAll(m.run, here), i + 1, chance).0);
  }

  lemma {:induction false} PlanAllowed(w: Workflow, m: Host, e: Event)
    requires GatesApart(w) && Recoverable(w, m)
    ensures AllAllowed(w, m.run, Plan(w, m, e).0)
  {
    match e
    case Launch(expired, chance) =>
      if m.asleep.None? && Orphaned(m.run, expired) { ClaimedAllowed(w, m.run, chance); }
    case Wake(chance) => if m.asleep.Some? { WakeAllowed(w, m, chance); }
    case Deadline => if m.asleep.Some? { HarmlessAllowed(w, m.run, Plan(w, m, e).0); }
    case Cancel(reason, now) =>
      var ws := Plan(w, m, e).0;
      if m.run.log != [] {
        HarmlessAllowed(w, m.run, ws);
      } else if ws != [] {
        AllowedFirst(w, m.run, RequestCancel, []);
        assert [RequestCancel] + [] == [RequestCancel];
      }
    case Read(_, _) =>
    case Body(k, reply, chance) => if k < |m.handlers| { BodyAllowed(w, m, m.handlers[k], reply, chance); }
  }

  ghost predicate SleepsWell(w: Workflow, run: Run, asleep: Option<nat>) {
    asleep.Some? ==> && run.log != [] && asleep.value == run.cursor < |w.nodes| && w.nodes[run.cursor].kind.Delay?
                     && run.status.Running?
  }

  lemma {:induction false} SliceSleeps(w: Workflow, run: Run, chance: Chance)
    requires run.log != [] && run.status.Running?
    ensures var r := Slice(w, run, run.cursor, chance); SleepsWell(w, ApplyAll(run, r.0), r.1)
    decreases |w.nodes| - run.cursor
  {
    var i := run.cursor;
    if GoesOn(w, run, i, chance) {
      var node, here := w.nodes[i], Completing(w.nodes[i], i);
      ApplyThree(run, Append(NodeStarted, Some(node.id)), Append(NodeCompleted, Some(node.id)), SetCursor(i + 1));
      SliceSleeps(w, ApplyAll(run, here), chance);
      ApplyAllOfConcat(run, here, Slice(w, ApplyAll(run, here), i + 1, chance).0);
    } else if i < |w.nodes| && w.nodes[i].kind.Delay? {
      ApplyOne(run, Append(NodeStarted, Some(w.nodes[i].id)));
    }
  }

  lemma {:induction false} ClaimedSleeps(w: Workflow, run: Run, chance: Chance)
    ensures var r := Executing(w, Apply(run, Claim), chance); SleepsWell(w, ApplyAll(run, [Claim] + r.0), r.1)
  {
    var claimed := Apply(run, Claim);
    var announced := ApplyAll(claimed, Announcing(claimed));
    ApplyOne(run, Claim);
    ApplyAllOfConcat(run, [Claim], Executing(w, claimed, chance).0);
    ApplyTwo(claimed, Announcing(claimed)[0], Announcing(claimed)[1]);
    ApplyAllOfConcat(claimed, Announcing(claimed), Slice(w, announced, run.cursor, chance).0);
    SliceSleeps(w, announced, chance);
  }

  lemma {:induction false} CancelSleeps(w: Workflow, m: Host, reason: string, now: int)
    requires SleepsWell(w, m.run, m.asleep)
    ensures var r := CancelArrives(w, m, reason, now); SleepsWell(w, ApplyAll(m.run, r.0), r.1)
  {
    if IsWaiting(m.run.status) {
      ApplyOne(m.run, InvalidateAll(reason, now));
      ApplyAllOfConcat(m.run, [InvalidateAll(reason, now)], Ending(RunCancelled, Cancelled));
      ApplyThree(Apply(m.run, InvalidateAll(reason, now)), Append(RunCancelled, None), SetStatus(Cancelled), Release);
    } else if !Terminal(m.run.status) && m.asleep.None? {
      ApplyOne(m.run, RequestCancel);
    }
  }

  lemma {:induction false} PlanSleeps(w: Workflow, m: Host, e: Event)
    requires GatesFit(w, m.run) && SleepsWell(w, m.run, m.asleep)
    ensures var r := Plan(w, m, e); SleepsWell(w, ApplyAll(m.run, r.0), r.1)
  {
    match e
    case Launch(_, chance) => ClaimedSleeps(w, m.run, chance);
    case Wake(chance) =>
      if m.asleep.Some? {
        var i := m.asleep.value;
        var here := [Append(NodeCompleted, Some(w.nodes[i].id)), SetCursor(i + 1)];
        ApplyTwo(m.run, here[0], here[1]);
        SliceSleeps(w, ApplyAll(m.run, here), chance);
        ApplyAllOfConcat(m.run, here, Slice(w, ApplyAll(m.run, here), i + 1, chance).0);
      }
    case Deadline =>
    case Cancel(reason, now) => CancelSleeps(w, m, reason, now);
    case Read(_, _) =>
    case Body(k, reply, chance) =>
      if k < |m.handlers| && ActiveRow(m.run, m.handlers[k].node).Some? {
        var h := m.handlers[k];
        assert m.asleep.None?;
        var (outcome, row) := Resolution(m.run, h, reply);
        var before := Settling(m.run, h, outcome, row);
        var settled := ApplyAll(m.run, before);
        ApplyAllOfConcat(m.run, before, [Claim] + Executing(w, Apply(settled, Claim), chance).0);
        ClaimedSleeps(w, settled, chance);
      }
  }

  /** How many statements of the plan reach the database. */
  function Reaching(w: Workflow, m: Host, h: Happening): nat {
    var n := |Plan(w, m, h.event).0|; if h.Crash? && h.written <= n then h.written else n
  }

  lemma {:induction false} AfterIsCut(w: Workflow, m: Host, h: Happening)
    ensures Reaching(w, m, h) <= |Plan(w, m, h.event).0|
    ensures After(w, m, h).run == ApplyAll(m.run, Plan(w, m, h.event).0[..Reaching(w, m, h)])
  {
    var writes := Plan(w, m, h.event).0;
    assert writes[..|writes|] == writes;
  }

  lemma {:induction false} AfterRecoverable(w: Workflow, m: Host, h: Happening)
    requires GatesApart(w) && Recoverable(w, m)
    ensures Recoverable(w, After(w, m, h))
  {
    var writes, n := Plan(w, m, h.event).0, Reaching(w, m, h);
    PlanAllowed(w, m, h.event);
    AfterIsCut(w, m, h);
    CutAnywhereSound(w, m.run, writes, n);
    CursorGrows(w, m.run, writes, n);
    if h.Whole? { PlanSleeps(w, m, h.event); }
  }

  lemma {:induction false} SurvivedRecoverable(w: Workflow, happenings: seq<Happening>)
    requires GatesApart(w)
    ensures Recoverable(w, Survived(w, happenings))
    decreases |happenings|
  {
    if happenings == [] {
      assert Done(FRESH) == [] && Progress(FRESH) == [] && Ids(w)[..0] == [];
    } else {
      var n := |happenings| - 1;
      SurvivedRecoverable(w, happenings[..n]);
      AfterRecoverable(w, Survived(w, happenings[..n]), happenings[n]);
    }
  }

  /** No two neighbours alike. */
  ghost predicate NoRepeats(s: seq<string>) {
    forall i | 0 < i < |s| :: s[i - 1] != s[i]
  }

  lemma {:induction false} DedupOfDistinct(s: seq<string>, n: nat)
    requires NoRepeats(s) && n <= |s|
    ensures Dedup(s[..n]) == s[..n]
  {
    if n > 0 {
      DedupOfDistinct(s, n - 1);
      assert s[..n] == s[..n - 1] + [s[n - 1]] && s[..n][..n - 1] == s[..n - 1];
    }
  }

  /**
   * However often the host crashes, and between whichever statements, the completed nodes are, but
   * for adjacent repeats, the nodes before the cursor or one more, and all of them once
   * run.completed is logged; event sequences are 0, 1, 2, ...; run.started is first and only once.
   */
  lemma {:induction false} RecoversInOrder(w: Workflow, happenings: seq<Happening>)
    requires GatesApart(w)
    ensures var run := Survived(w, happenings).run;
            var done, c, ids := Dedup(CompletedNodes(run.log)), run.cursor, Ids(w);
            && c <= |w.nodes| && (done == Dedup(ids[..c]) || (c < |w.nodes| && done == Dedup(ids[..c + 1])))
            && (NoRepeats(ids) ==> done == ids[..c] || (c < |w.nodes| && done == ids[..c + 1]))
            && ((exists e :: e in run.log && e.event.RunCompleted?) ==> done == Dedup(ids))
            && (forall k | 0 <= k < |run.log| :: run.log[k].sequence == k && (run.log[k].event.RunStarted? <==> k == 0))
  {
    SurvivedRecoverable(w, happenings);
    SoundMeans(w, Survived(w, happenings).run);
  }

  lemma {:induction false} SoundMeans(w: Workflow, run: Run)
    requires Sound(w, run)
    ensures var done, c, ids := Progress(run), run.cursor, Ids(w);
            && (NoRepeats(ids) ==> done == ids[..c] || (c < |w.nodes| && done == ids[..c + 1]))
            && ((exists e :: e in run.log && e.event.RunCompleted?) ==> done == Dedup(ids))
    ensures forall k | 0 <= k < |run.log| :: run.log[k].event.RunStarted? <==> k == 0
  {
    assert Ids(w)[..|Ids(w)|] == Ids(w);
    if NoRepeats(Ids(w)) {
      DedupOfDistinct(Ids(w), run.cursor);
      if run.cursor < |w.nodes| { DedupOfDistinct(Ids(w), run.cursor + 1); }
    }
    assert run.log != [] ==> run.log[0].event.RunStarted?;
  }
}
