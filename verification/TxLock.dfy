/**
 * withTransaction of the Postgres host (examples/hosts/postgres/src/db.ts): a
 * promise-chain ticket lock around BEGIN, a caller's statements and COMMIT or
 * ROLLBACK on one shared connection, as a machine whose steps are what happens
 * between two awaits. S is what the tables hold, L a body's own variables.
 */
module TxLock {
  import opened Wrappers

  /**
   * What one statement of a body comes to: the tables and variables after it, an error of the
   * database, which aborts the transaction, or a throw of the body's own, which does not.
   */
  datatype StatementResult<S, L> = Ran(db: S, locals: L) | SqlError | Thrown

  type Statement<!S, !L> = (S, L) -> StatementResult<S, L>

  datatype Body<!S, !L> = Body(statements: seq<Statement<S, L>>, start: L)

  /**
   * Where a caller stands: waiting for the ticket before its own; in its transaction with
   * `done` statements run; about to roll back; about to release its ticket; released.
   * `took` says the database applied its COMMIT, `threw` that its promise rejects.
   */
  datatype Phase<L> =
    | Waiting
    | Running(done: nat, locals: L)
    | Failing(took: bool)
    | Settling(took: bool, threw: bool)
    | Released(took: bool, threw: bool)

  datatype Caller<!S, !L> = Caller(body: Body<S, L>, waitsFor: Option<nat>, phase: Phase<L>)

  /** Committed tables, the open transaction and whether it is aborted, the callers by ticket, txTail. */
  datatype World<!S, !L> =
    World(db: S, session: Option<S>, aborted: bool, callers: seq<Caller<S, L>>, tail: Option<nat>)

  /** How a COMMIT that rejects can leave the connection. */
  datatype CommitError = Applied | Dropped | StillOpen

  datatype Event<!S, !L> =
    | Call(body: Body<S, L>)
    | Begin(ticket: nat)
    | BeginFails(ticket: nat)
    | Step(ticket: nat)
    | StepFails(ticket: nat, inSql: bool)
    | Commit(ticket: nat)
    | CommitFails(ticket: nat, how: CommitError)
    | Rollback(ticket: nat)
    | RollbackFails(ticket: nat)
    | Release(ticket: nat)

  function Initial<S, L>(db: S): World<S, L> { World(db, None, false, [], None) }

  predicate TicketReleased<S, L>(w: World<S, L>, ticket: Option<nat>) {
    ticket.None? || (ticket.value < |w.callers| && w.callers[ticket.value].phase.Released?)
  }

  predicate Enabled<S, L>(w: World<S, L>, e: Event<S, L>) {
    e.Call? || (e.ticket < |w.callers| &&
      var c := w.callers[e.ticket];
      match e
      case Begin(_) => c.phase.Waiting? && TicketReleased(w, c.waitsFor)
      case BeginFails(_) => c.phase.Waiting? && TicketReleased(w, c.waitsFor)
      case Step(_) => c.phase.Running? && c.phase.done < |c.body.statements|
      case StepFails(_, _) => c.phase.Running?
      case Commit(_) => c.phase.Running? && c.phase.done == |c.body.statements|
      case CommitFails(_, _) => c.phase.Running? && c.phase.done == |c.body.statements|
      case Rollback(_) => c.phase.Failing?
      case RollbackFails(_) => c.phase.Failing?
      case Release(_) => c.phase.Settling?)
  }

  /** The tables a statement sees: those of the open transaction, if one is open. */
  function Seen<S, L>(w: World<S, L>): S {
    if w.session.Some? then w.session.value else w.db
  }

  /** The world with caller k moved on. */
  function Moved<S, L>(w: World<S, L>, k: nat, phase: Phase<L>): World<S, L>
    requires k < |w.callers|
  {
    w.(callers := w.callers[k := w.callers[k].(phase := phase)])
  }

  /** No transaction is open. */
  function Closed<S, L>(w: World<S, L>): World<S, L> { w.(session := None, aborted := false) }

  /**
   * A step; an event that cannot happen changes nothing. Inside a transaction BEGIN only warns;
   * inside an aborted one every statement but ROLLBACK is an error, and COMMIT rolls back.
   */
  function Next<S, L>(w: World<S, L>, e: Event<S, L>): World<S, L> {
    if !Enabled(w, e) then w
    else match e
      case Call(body) => w.(callers := w.callers + [Caller(body, w.tail, Waiting)], tail := Some(|w.callers|))
      case Begin(k) =>
        if w.aborted then Moved(w, k, Settling(false, true))
        else Moved(w, k, Running(0, w.callers[k].body.start)).(session := Some(Seen(w)))
      case BeginFails(k) => Moved(w, k, Settling(false, true))
      case Step(k) =>
        var c := w.callers[k];
        if w.aborted then Moved(w, k, Failing(false))
        else
          (match c.body.statements[c.phase.done](Seen(w), c.phase.locals)
           case Ran(db, locals) => Moved(w, k, Running(c.phase.done + 1, locals)).(session := Some(db))
           case SqlError => Moved(w, k, Failing(false)).(aborted := true)
           case Thrown => Moved(w, k, Failing(false)))
      case StepFails(k, inSql) => Moved(w, k, Failing(false)).(aborted := w.aborted || inSql)
      case Commit(k) =>
        if w.aborted then Closed(Moved(w, k, Settling(false, false)))
        else Closed(Moved(w, k, Settling(true, false)).(db := Seen(w)))
      case CommitFails(k, how) =>
        (match how
         case Applied =>
           if w.aborted then Closed(Moved(w, k, Failing(false)))
           else Closed(Moved(w, k, Failing(true)).(db := Seen(w)))
         case Dropped => Closed(Moved(w, k, Failing(false)))
         case StillOpen => Moved(w, k, Failing(false)))
      case Rollback(k) => Closed(Moved(w, k, Settling(w.callers[k].phase.took, true)))
      case RollbackFails(k) => Moved(w, k, Settling(w.callers[k].phase.took, true))
      case Release(k) => Moved(w, k, Released(w.callers[k].phase.took, w.callers[k].phase.threw))
  }

  function Play<S, L>(db: S, events: seq<Event<S, L>>): World<S, L> {
    if events == [] then Initial(db)
    else Next(Play(db, events[..|events| - 1]), events[|events| - 1])
  }

  // --------------------------------------------------- the same, as the source has it

  /** The shared connection and the module-level tail of the lock. */
  class Connection<!S, !L> {
    var db: S
    var session: Option<S>
    var aborted: bool
    var callers: seq<Caller<S, L>>
    var txTail: Option<nat>

    function State(): World<S, L>
      reads this
    {
      World(db, session, aborted, callers, txTail)
    }

    constructor (db: S)
      ensures State() == Initial(db)
    {
      this.db, session, aborted, callers, txTail := db, None, false, [], None;
    }

    /** The part of withTransaction before its first await. */
    method TakeTicket(body: Body<S, L>) returns (ticket: nat)
      modifies this
      ensures ticket == |old(callers)| && State() == Next(old(State()), Call(body))
    {
      ticket := |callers|;
      var wait := txTail;
      txTail := Some(ticket);
      callers := callers + [Caller(body, wait, Waiting)];
    }

    /** BEGIN once the wait is over; a failure skips the rollback. */
    method BeginTransaction(ticket: nat, reaches: bool)
      requires Enabled(State(), Begin(ticket))
      modifies this
      ensures State() == Next(old(State()), if reaches then Begin(ticket) else BeginFails(ticket))
    {
      var c := callers[ticket];
      if reaches && !aborted {
        if session.None? { session := Some(db); }
        callers := callers[ticket := c.(phase := Running(0, c.body.start))];
      } else {
        callers := callers[ticket := c.(phase := Settling(false, true))];
      }
    }

    method RunStatement(ticket: nat)
      requires Enabled(State(), Step(ticket))
      modifies this
      ensures State() == Next(old(State()), Step(ticket))
    {
      var c := callers[ticket];
      if aborted {
        callers := callers[ticket := c.(phase := Failing(false))];
        return;
      }
      var result := c.body.statements[c.phase.done](if session.Some? then session.value else db, c.phase.locals);
      match result {
        case Ran(tables, locals) =>
          session := Some(tables);
          callers := callers[ticket := c.(phase := Running(c.phase.done + 1, locals))];
        case SqlError =>
          aborted := true;
          callers := callers[ticket := c.(phase := Failing(false))];
        case Thrown =>
          callers := callers[ticket := c.(phase := Failing(false))];
      }
    }

    /** A statement that fails for reasons outside the tables, or a throw before, between or after them. */
    method FailStatement(ticket: nat, inSql: bool)
      requires Enabled(State(), StepFails(ticket, inSql))
      modifies this
      ensures State() == Next(old(State()), StepFails(ticket, inSql))
    {
      if inSql { aborted := true; }
      callers := callers[ticket := callers[ticket].(phase := Failing(false))];
    }

    method CommitTransaction(ticket: nat, error: Option<CommitError>)
      requires Enabled(State(), Commit(ticket))
      modifies this
      ensures State() == Next(old(State()), if error.None? then Commit(ticket) else CommitFails(ticket, error.value))
    {
      var c := callers[ticket];
      var took := !aborted && (error.None? || error.value.Applied?);
      if took && session.Some? { db := session.value; }
      if error.None? || !error.value.StillOpen? { session, aborted := None, false; }
      callers := callers[ticket := c.(phase := if error.None? then Settling(took, false) else Failing(took))];
    }

    /** A ROLLBACK that fails is swallowed; either way the body's error is thrown on. */
    method RollbackTransaction(ticket: nat, succeeds: bool)
      requires Enabled(State(), Rollback(ticket))
      modifies this
      ensures State() == Next(old(State()), if succeeds then Rollback(ticket) else RollbackFails(ticket))
    {
      var c := callers[ticket];
      if succeeds { session, aborted := None, false; }
      callers := callers[ticket := c.(phase := Settling(c.phase.took, true))];
    }

    method ReleaseTicket(ticket: nat)
      requires Enabled(State(), Release(ticket))
      modifies this
      ensures State() == Next(old(State()), Release(ticket))
    {
      var c := callers[ticket];
      callers := callers[ticket := c.(phase := Released(c.phase.took, c.phase.threw))];
    }
  }

  // ------------------------------------------------------------- turns, in every run

  /** Each caller waits for the one called just before it, and tickets are settled in order up to `turn`. */
  ghost predicate InTurn<S, L>(w: World<S, L>, turn: nat) {
    && turn <= |w.callers|
    && w.tail == (if w.callers == [] then None else Some(|w.callers| - 1))
    && (forall k | 0 <= k < |w.callers| :: w.callers[k].waitsFor == Before(k))
    && (forall k | 0 <= k < turn :: w.callers[k].phase.Released?)
    && (forall k | turn < k < |w.callers| :: w.callers[k].phase.Waiting?)
    && (turn < |w.callers| ==> !w.callers[turn].phase.Released?)
  }

  function Before(k: nat): Option<nat> { if k == 0 then None else Some(k - 1) }

  function TurnAfter<S, L>(w: World<S, L>, e: Event<S, L>, turn: nat): nat {
    if e.Release? && Enabled(w, e) then turn + 1 else turn
  }

  lemma {:induction false} OnlyTheTurnMoves<S, L>(w: World<S, L>, e: Event<S, L>, turn: nat)
    requires InTurn(w, turn) && Enabled(w, e) && !e.Call?
    ensures e.ticket == turn
  {}

  lemma {:induction false} StepKeepsTurns<S, L>(w: World<S, L>, e: Event<S, L>, turn: nat)
    requires InTurn(w, turn)
    ensures InTurn(Next(w, e), TurnAfter(w, e, turn))
  {
    if Enabled(w, e) && !e.Call? {
      OnlyTheTurnMoves(w, e, turn);
    }
  }

  ghost function Turn<S, L>(db: S, events: seq<Event<S, L>>): nat {
    if events == [] then 0
    else
      var before := events[..|events| - 1];
      TurnAfter(Play(db, before), events[|events| - 1], Turn(db, before))
  }

  lemma {:induction false} EveryRunInTurn<S, L>(db: S, events: seq<Event<S, L>>)
    ensures InTurn(Play(db, events), Turn(db, events))
    decreases |events|
  {
    if events != [] {
      var n := |events| - 1;
      EveryRunInTurn(db, events[..n]);
      StepKeepsTurns(Play(db, events[..n]), events[n], Turn(db, events[..n]));
    }
  }

  /** Past its wait and not yet released: the caller may issue statements. */
  predicate Inside<L>(p: Phase<L>) { !p.Waiting? && !p.Released? }

  /** In every run, whatever fails: one caller inside at a time, and entry in call order. */
  lemma {:induction false} MutualExclusionInCallOrder<S, L>(db: S, events: seq<Event<S, L>>, i: nat, j: nat)
    requires i < j < |Play(db, events).callers|
    ensures var w := Play(db, events);
            && !(Inside(w.callers[i].phase) && Inside(w.callers[j].phase))
            && (!w.callers[j].phase.Waiting? ==> w.callers[i].phase.Released?)
  {
    EveryRunInTurn(db, events);
  }

  // ----------------------------------------------------------------- progress

  function Left<S, L>(c: Caller<S, L>): nat {
    match c.phase
    case Waiting => |c.body.statements| + 4
    case Running(done, _) => if done <= |c.body.statements| then |c.body.statements| - done + 3 else 3
    case Failing(_) => 2
    case Settling(_, _) => 1
    case Released(_, _) => 0
  }

  function AllLeft<S, L>(callers: seq<Caller<S, L>>): nat {
    if callers == [] then 0 else Left(callers[0]) + AllLeft(callers[1..])
  }

  lemma {:induction false} AllLeftUpdate<S, L>(callers: seq<Caller<S, L>>, k: nat, c: Caller<S, L>)
    requires k < |callers|
    ensures AllLeft(callers[k := c]) == AllLeft(callers) - Left(callers[k]) + Left(c)
  {
    if k == 0 {
      assert callers[0 := c][1..] == callers[1..];
    } else {
      assert callers[k := c][1..] == callers[1..][k - 1 := c];
      AllLeftUpdate(callers[1..], k - 1, c);
    }
  }

  /** The step the caller at k is up to. */
  function NextStep<S, L>(c: Caller<S, L>, k: nat): Event<S, L> {
    match c.phase
    case Waiting => Begin(k)
    case Running(done, _) => if done < |c.body.statements| then Step(k) else Commit(k)
    case Failing(_) => Rollback(k)
    case _ => Release(k)
  }

  ghost predicate PhasesFit<S, L>(w: World<S, L>) {
    forall k | 0 <= k < |w.callers| && w.callers[k].phase.Running? ::
      w.callers[k].phase.done <= |w.callers[k].body.statements|
  }

  lemma {:induction false} EveryRunFits<S, L>(db: S, events: seq<Event<S, L>>)
    ensures PhasesFit(Play(db, events))
    decreases |events|
  {
    if events != [] {
      var n := |events| - 1;
      EveryRunFits(db, events[..n]);
      StepFits(Play(db, events[..n]), events[n]);
    }
  }

  lemma {:induction false} StepFits<S, L>(w: World<S, L>, e: Event<S, L>)
    requires PhasesFit(w)
    ensures PhasesFit(Next(w, e))
  {
    if Enabled(w, e) && !e.Call? {
      assert Next(w, e).callers == w.callers[e.ticket := Next(w, e).callers[e.ticket]];
    }
  }

  lemma {:induction false} AllLeftOfSame<S, L>(a: seq<Caller<S, L>>, b: seq<Caller<S, L>>, k: nat, n: nat)
    requires k < n <= |a| == |b| && b == a[k := b[k]]
    ensures AllLeft(b[..n]) == AllLeft(a[..n]) - Left(a[k]) + Left(b[k])
  {
    assert b[..n] == a[..n][k := b[k]];
    AllLeftUpdate(a[..n], k, b[k]);
  }

  /**
   * No caller waits for ever, however many call after it: until ticket k is released only callers
   * up to it can step, every such step leaves less to do up to it, and a new call leaves as much.
   */
  lemma {:induction false} WaitsEnd<S, L>(db: S, events: seq<Event<S, L>>, k: nat, e: Event<S, L>)
    requires k < |Play(db, events).callers| && !Play(db, events).callers[k].phase.Released?
    requires Enabled(Play(db, events), e)
    ensures var w := Play(db, events); var w' := Next(w, e);
            && |w'.callers| >= |w.callers|
            && (e.Call? ==> AllLeft(w'.callers[..k + 1]) == AllLeft(w.callers[..k + 1]))
            && (!e.Call? ==> e.ticket <= k && AllLeft(w'.callers[..k + 1]) < AllLeft(w.callers[..k + 1]))
  {
    var w := Play(db, events);
    var w' := Next(w, e);
    EveryRunInTurn(db, events);
    EveryRunFits(db, events);
    if e.Call? {
      assert w'.callers[..k + 1] == w.callers[..k + 1];
    } else {
      OnlyTheTurnMoves(w, e, Turn(db, events));
      LessLeft(w, e);
      AllLeftOfSame(w.callers, w'.callers, e.ticket, k + 1);
    }
  }

  lemma {:induction false} LessLeft<S, L>(w: World<S, L>, e: Event<S, L>)
    requires PhasesFit(w) && Enabled(w, e) && !e.Call?
    ensures var w' := Next(w, e);
            |w'.callers| == |w.callers| && w'.callers == w.callers[e.ticket := w'.callers[e.ticket]]
            && Left(w'.callers[e.ticket]) < Left(w.callers[e.ticket])
  {}

  /** No deadlock: in every run either every caller has been released or one of them can move. */
  lemma {:induction false} SomeoneCanMove<S, L>(db: S, events: seq<Event<S, L>>)
    ensures var w := Play(db, events); var k := Turn(db, events);
            && (k < |w.callers| ==> Enabled(w, NextStep(w.callers[k], k)))
            && (k >= |w.callers| ==> forall i | 0 <= i < |w.callers| :: w.callers[i].phase.Released?)
  {
    EveryRunInTurn(db, events);
    EveryRunFits(db, events);
  }

  // ----------------------------------------------------------------- serial meaning

  /** A body run alone from s. */
  function Run<S, L>(statements: seq<Statement<S, L>>, s: S, l: L): Option<(S, L)> {
    if statements == [] then Some((s, l))
    else
      var n := |statements| - 1;
      var before := Run(statements[..n], s, l);
      if before.None? then None else OptionOf(statements[n](before.value.0, before.value.1))
  }

  function OptionOf<S, L>(r: StatementResult<S, L>): Option<(S, L)> {
    if r.Ran? then Some((r.db, r.locals)) else None
  }

  function Alone<S, L>(body: Body<S, L>, s: S): Option<(S, L)> { Run(body.statements, s, body.start) }

  predicate Took<L>(p: Phase<L>) {
    match p
    case Failing(took) => took
    case Settling(took, _) => took
    case Released(took, _) => took
    case _ => false
  }

  /** The bodies whose COMMIT was applied, in call order. */
  function Committed<S, L>(callers: seq<Caller<S, L>>): seq<Body<S, L>> {
    if callers == [] then []
    else
      var n := |callers| - 1;
      Committed(callers[..n]) + if Took(callers[n].phase) then [callers[n].body] else []
  }

  /** Bodies run one after the other, each alone; None where one throws. */
  function Serial<S, L>(db: S, bodies: seq<Body<S, L>>): Option<S> {
    if bodies == [] then Some(db)
    else
      var n := |bodies| - 1;
      var before := Serial(db, bodies[..n]);
      if before.None? || Alone(bodies[n], before.value).None? then None
      else Some(Alone(bodies[n], before.value).value.0)
  }

  lemma {:induction false} CommittedUntouched<S, L>(a: seq<Caller<S, L>>, b: seq<Caller<S, L>>)
    requires |a| <= |b|
    requires forall k | 0 <= k < |a| :: b[k].body == a[k].body && Took(b[k].phase) == Took(a[k].phase)
    requires forall k | |a| <= k < |b| :: !Took(b[k].phase)
    ensures Committed(b) == Committed(a)
    decreases |b|
  {
    if b != [] {
      var n := |b| - 1;
      CommittedUntouched(if |a| == |b| then a[..n] else a, b[..n]);
    }
  }

  lemma {:induction false} CommittedOneMore<S, L>(a: seq<Caller<S, L>>, b: seq<Caller<S, L>>, turn: nat)
    requires turn < |a| == |b| && b == a[turn := b[turn]] && b[turn].body == a[turn].body
    requires !Took(a[turn].phase) && Took(b[turn].phase)
    requires forall k | turn < k < |a| :: !Took(a[k].phase)
    ensures Committed(b) == Committed(a) + [a[turn].body]
  {
    CommittedUntouched(a[..turn], a);
    CommittedUntouched(b[..turn + 1], b);
    assert b[..turn + 1][..turn] == a[..turn];
    assert Committed(b[..turn + 1]) == Committed(a[..turn]) + [b[turn].body];
  }

  lemma {:induction false} SerialOneMore<S, L>(db: S, bodies: seq<Body<S, L>>, body: Body<S, L>)
    requires Serial(db, bodies).Some?
    ensures Serial(db, bodies + [body])
         == var last := Alone(body, Serial(db, bodies).value);
            if last.None? then None else Some(last.value.0)
  {
    assert (bodies + [body])[..|bodies|] == bodies;
  }

  // ----------------------------------------------------------- what a step commits

  /** A ROLLBACK fails while its transaction is open and not aborted. */
  predicate LeavesOpen<S, L>(w: World<S, L>, e: Event<S, L>) {
    e.RollbackFails? && Enabled(w, e) && w.session.Some? && !w.aborted
  }

  /** No ROLLBACK in the run leaves behind a transaction that could still be committed. */
  predicate Closes<S, L>(db: S, events: seq<Event<S, L>>) {
    events == [] ||
      var n := |events| - 1;
      Closes(db, events[..n]) && !LeavesOpen(Play(db, events[..n]), events[n])
  }

  lemma {:induction false} RunOneMore<S, L>(statements: seq<Statement<S, L>>, done: nat, s: S, l: L)
    requires done < |statements|
    ensures Run(statements[..done + 1], s, l)
         == var before := Run(statements[..done], s, l);
            if before.None? then None else OptionOf(statements[done](before.value.0, before.value.1))
  {
    assert statements[..done + 1][..done] == statements[..done];
  }

  lemma {:induction false} OthersTakeNothing<S, L>(w: World<S, L>, e: Event<S, L>)
    requires Enabled(w, e) && !e.Call? && !e.Commit? && !(e.CommitFails? && e.how.Applied?)
    ensures var next := Next(w, e);
            && next.db == w.db && |next.callers| == |w.callers|
            && next.callers == w.callers[e.ticket := next.callers[e.ticket]]
            && next.callers[e.ticket].body == w.callers[e.ticket].body
            && Took(next.callers[e.ticket].phase) == Took(w.callers[e.ticket].phase)
  {}

  /** Every other step leaves the committed tables and the committed bodies as they were. */
  lemma {:induction false} OthersCommitNothing<S, L>(w: World<S, L>, e: Event<S, L>)
    requires Enabled(w, e) && !e.Commit? && !(e.CommitFails? && e.how.Applied?)
    ensures Committed(Next(w, e).callers) == Committed(w.callers) && Next(w, e).db == w.db
  {
    if !e.Call? { OthersTakeNothing(w, e); }
    CommittedUntouched(w.callers, Next(w, e).callers);
  }

  /** An aborted transaction is open, and its caller, if it is still inside, has thrown. */
  ghost predicate AbortedFits<S, L>(w: World<S, L>) {
    w.aborted ==> w.session.Some? && forall k | 0 <= k < |w.callers| :: !w.callers[k].phase.Running?
  }

  lemma {:induction false} EveryRunAbortedFits<S, L>(db: S, events: seq<Event<S, L>>)
    ensures AbortedFits(Play(db, events))
    ensures forall k | 0 <= k < |Play(db, events).callers| && Play(db, events).callers[k].phase.Running? :: Play(db, events).session.Some?
    decreases |events|
  {
    if events != [] {
      var n := |events| - 1;
      EveryRunAbortedFits(db, events[..n]);
      EveryRunInTurn(db, events[..n]);
      StepAbortedFits(Play(db, events[..n]), events[n], Turn(db, events[..n]));
    }
  }

  lemma {:induction false} StepAbortedFits<S, L>(w: World<S, L>, e: Event<S, L>, turn: nat)
    requires AbortedFits(w) && InTurn(w, turn)
    requires forall k | 0 <= k < |w.callers| && w.callers[k].phase.Running? :: w.session.Some?
    ensures AbortedFits(Next(w, e))
    ensures forall k | 0 <= k < |Next(w, e).callers| && Next(w, e).callers[k].phase.Running? :: Next(w, e).session.Some?
  {
    if Enabled(w, e) && !e.Call? { OnlyTheTurnMoves(w, e, turn); }
  }

  /** A promise that resolves stands for an applied COMMIT. */
  lemma {:induction false} ResolvedMeansCommitted<S, L>(db: S, events: seq<Event<S, L>>, k: nat)
    requires k < |Play(db, events).callers|
    ensures var p := Play(db, events).callers[k].phase;
            (p.Settling? || p.Released?) && !p.threw ==> p.took
    decreases |events|
  {
    if events != [] {
      var n := |events| - 1;
      var w := Play(db, events[..n]);
      EveryRunAbortedFits(db, events[..n]);
      if k < |w.callers| { ResolvedMeansCommitted(db, events[..n], k); }
    }
  }

  /** The statement the caller inside is up to, run on what it sees. */
  function Outcome<S, L>(w: World<S, L>, k: nat): StatementResult<S, L>
    requires k < |w.callers| && w.callers[k].phase.Running? && w.callers[k].phase.done < |w.callers[k].body.statements|
  {
    w.callers[k].body.statements[w.callers[k].phase.done](Seen(w), w.callers[k].phase.locals)
  }

  /** Something of caller k goes wrong: its BEGIN, a statement, a throw of its own or its COMMIT. */
  predicate GoesWrong<S, L>(w: World<S, L>, e: Event<S, L>, k: nat) {
    && Enabled(w, e) && !e.Call? && e.ticket == k
    && (|| e.BeginFails? || e.StepFails? || e.CommitFails?
        || (e.Begin? && w.aborted)
        || (e.Step? && (w.aborted || !Outcome(w, k).Ran?)))
  }

  predicate WentWrong<S, L>(db: S, events: seq<Event<S, L>>, k: nat) {
    events != [] &&
      var n := |events| - 1;
      WentWrong(db, events[..n], k) || GoesWrong(Play(db, events[..n]), events[n], k)
  }

  /** The database applies the COMMIT of caller k, whether or not the answer comes back. */
  predicate WasTaken<S, L>(db: S, events: seq<Event<S, L>>, k: nat) {
    events != [] &&
      var n := |events| - 1;
      var w, e := Play(db, events[..n]), events[n];
      WasTaken(db, events[..n], k) || (Enabled(w, e) && (e == Commit(k) || e == CommitFails(k, Applied)))
  }

  lemma {:induction false} NotCalledNothing<S, L>(db: S, events: seq<Event<S, L>>, k: nat)
    requires k >= |Play(db, events).callers|
    ensures !WentWrong(db, events, k) && !WasTaken(db, events, k)
    decreases |events|
  {
    if events != [] { NotCalledNothing(db, events[..|events| - 1], k); }
  }

  /** What has become of a caller, by whether anything of it went wrong and whether its COMMIT was applied. */
  ghost predicate EndsBy<L>(p: Phase<L>, wrong: bool, taken: bool) {
    match p
    case Waiting => !wrong && !taken
    case Running(_, _) => !wrong && !taken
    case Failing(took) => wrong && took == taken
    case Settling(took, threw) => threw == wrong && took == taken && (wrong || taken)
    case Released(took, threw) => threw == wrong && took == taken && (wrong || taken)
  }

  lemma {:induction false} StepEndsBy<S, L>(w: World<S, L>, e: Event<S, L>, k: nat, wrong: bool, taken: bool)
    requires AbortedFits(w) && k < |w.callers| && EndsBy(w.callers[k].phase, wrong, taken)
    ensures k < |Next(w, e).callers|
    ensures EndsBy(Next(w, e).callers[k].phase, wrong || GoesWrong(w, e, k),
                   taken || (Enabled(w, e) && (e == Commit(k) || e == CommitFails(k, Applied))))
  {}

  /**
   * In every run a promise rejects exactly if something of its own call went wrong, and its work
   * was taken exactly if its COMMIT was applied; one that comes to its end did at least one of the two.
   */
  lemma {:induction false} RejectsExactly<S, L>(db: S, events: seq<Event<S, L>>, k: nat)
    requires k < |Play(db, events).callers|
    ensures EndsBy(Play(db, events).callers[k].phase, WentWrong(db, events, k), WasTaken(db, events, k))
    decreases |events|
  {
    if events != [] {
      var n := |events| - 1;
      var w := Play(db, events[..n]);
      EveryRunAbortedFits(db, events[..n]);
      if k < |w.callers| {
        RejectsExactly(db, events[..n], k);
        StepEndsBy(w, events[n], k, WentWrong(db, events[..n], k), WasTaken(db, events[..n], k));
      } else {
        NotCalledNothing(db, events[..n], k);
      }
    }
  }

  /**
   * The connection after a step of a caller: COMMIT alone changes the tables, and only if nothing
   * aborted; BEGIN, a statement, COMMIT and ROLLBACK alone open, change and close the transaction.
   */
  lemma {:induction false} ConnectionByFields<S, L>(w: World<S, L>, e: Event<S, L>)
    requires Enabled(w, e) && !e.Call?
    ensures var after, k := Next(w, e), e.ticket;
            var closes := e.Commit? || e.Rollback? || (e.CommitFails? && e.how != StillOpen);
            && after.tail == w.tail
            && after.db == (if (e.Commit? || (e.CommitFails? && e.how == Applied)) && !w.aborted then Seen(w) else w.db)
            && after.session == (if closes then None
                                 else if w.aborted then w.session
                                 else if e.Begin? then Some(Seen(w))
                                 else if e.Step? && Outcome(w, k).Ran? then Some(Outcome(w, k).db)
                                 else w.session)
            && after.aborted == (!closes && (w.aborted || (e.StepFails? && e.inSql) || (e.Step? && Outcome(w, k).SqlError?)))
  {}

  /** Where a step leaves its caller: a failed BEGIN rolls nothing back, any later failure does. */
  lemma {:induction false} CallerByFields<S, L>(w: World<S, L>, e: Event<S, L>)
    requires Enabled(w, e) && !e.Call?
    ensures var after, k := Next(w, e), e.ticket;
            && |after.callers| == |w.callers| && (forall j | 0 <= j < |w.callers| && j != k :: after.callers[j] == w.callers[j])
            && after.callers[k].body == w.callers[k].body && after.callers[k].waitsFor == w.callers[k].waitsFor
            && (after.callers[k].phase.Running? <==> !GoesWrong(w, e, k) && (e.Begin? || e.Step?))
            && (after.callers[k].phase.Failing? <==> GoesWrong(w, e, k) && (e.Step? || e.StepFails? || e.CommitFails?))
            && (after.callers[k].phase.Settling? <==> e.Commit? || e.Rollback? || e.RollbackFails? || e.BeginFails? || (e.Begin? && w.aborted))
            && (e.Begin? && !w.aborted ==> after.callers[k].phase == Running(0, w.callers[k].body.start))
            && (e.Step? && !GoesWrong(w, e, k) ==> after.callers[k].phase == Running(w.callers[k].phase.done + 1, Outcome(w, k).locals))
  {}

  /** What each body keeps when run alone, every reachable state of the tables has. */
  ghost predicate Keeps<S(!new), L>(holds: S -> bool, body: Body<S, L>) {
    forall s | holds(s) && Alone(body, s).Some? :: holds(Alone(body, s).value.0)
  }

  lemma {:induction false} SerialKeeps<S(!new), L>(db: S, bodies: seq<Body<S, L>>, holds: S -> bool)
    requires holds(db) && (forall b | b in bodies :: Keeps(holds, b)) && Serial(db, bodies).Some?
    ensures holds(Serial(db, bodies).value)
    decreases |bodies|
  {
    if bodies != [] {
      var n := |bodies| - 1;
      SerialKeeps(db, bodies[..n], holds);
      assert bodies[n] in bodies;
    }
  }

  // ------------------------------------------------------- a rollback that fails

  /** The caller at `k` begins and runs the first `n` of its statements. */
  function Stepped<S, L>(w: World<S, L>, k: nat, n: nat): World<S, L> {
    if n == 0 then Next(w, Begin(k)) else Next(Stepped(w, k, n - 1), Step(k))
  }

  /** Inside an open transaction they act on what that transaction holds. */
  lemma {:induction false} SteppedActsOnOpen<S, L>(w: World<S, L>, k: nat, n: nat)
    requires k < |w.callers| && Enabled(w, Begin(k)) && w.session.Some? && !w.aborted && n <= |w.callers[k].body.statements|
    requires Run(w.callers[k].body.statements[..n], w.session.value, w.callers[k].body.start).Some?
    ensures var r := Run(w.callers[k].body.statements[..n], w.session.value, w.callers[k].body.start).value;
            Stepped(w, k, n) == Moved(w, k, Running(n, r.1)).(session := Some(r.0))
  {
    var b := w.callers[k].body;
    if n == 0 {
      assert b.statements[..0] == [];
    } else {
      RunOneMore(b.statements, n - 1, w.session.value, b.start);
      SteppedActsOnOpen(w, k, n - 1);
      var before := Stepped(w, k, n - 1);
      assert before.callers[k].body == b && Seen(before) == before.session.value;
    }
  }

  /** The world in which the caller after `turn` has called, as it may have before. */
  function NextCalled<S, L>(w: World<S, L>, turn: nat, body: Body<S, L>): World<S, L> {
    if turn + 1 < |w.callers| then w else Next(w, Call(body))
  }

  /**
   * Where a ROLLBACK fails on a transaction that is open and not aborted, as after a throw of the
   * body's own, the next caller, queued already or not, acts on what was to be undone and commits
   * it: serial meaning survives exactly if its body makes the same of the committed tables.
   */
  lemma {:induction false} FailedRollbackLeaks<S, L>(db: S, w: World<S, L>, e: Event<S, L>, turn: nat, body: Body<S, L>)
    requires InTurn(w, turn) && Serial(db, Committed(w.callers)) == Some(w.db)
    requires LeavesOpen(w, e) && Alone(body, w.session.value).Some?
    requires turn + 1 < |w.callers| ==> body == w.callers[turn + 1].body
    ensures var called := NextCalled(Next(Next(w, e), Release(turn)), turn, body);
            var next := Next(Stepped(called, turn + 1, |body.statements|), Commit(turn + 1));
            && next.db == Alone(body, w.session.value).value.0
            && (Serial(db, Committed(next.callers)) == Some(next.db)
                <==> Alone(body, w.db).Some? && Alone(body, w.db).value.0 == next.db)
  {
    var called := NextCalled(Next(Next(w, e), Release(turn)), turn, body);
    var begun := Stepped(called, turn + 1, |body.statements|);
    LeftOpen(w, e, turn, body);
    assert body.statements[..|body.statements|] == body.statements;
    SteppedActsOnOpen(called, turn + 1, |body.statements|);
    LeftOpenCommitted(w, begun, Next(begun, Commit(turn + 1)), turn, body);
    SerialOneMore(db, Committed(w.callers), body);
  }

  /** What was to be undone is still open when the next caller's turn comes. */
  lemma {:induction false} LeftOpen<S, L>(w: World<S, L>, e: Event<S, L>, turn: nat, body: Body<S, L>)
    requires InTurn(w, turn) && LeavesOpen(w, e) && (turn + 1 < |w.callers| ==> body == w.callers[turn + 1].body)
    ensures var called := NextCalled(Next(Next(w, e), Release(turn)), turn, body);
            && called.session == w.session && !called.aborted && called.db == w.db
            && turn < |w.callers| <= |called.callers| && turn + 1 < |called.callers| && Enabled(called, Begin(turn + 1))
            && called.callers[turn + 1].body == body
            && (forall k | 0 <= k < |w.callers| ::
                  called.callers[k].body == w.callers[k].body && Took(called.callers[k].phase) == Took(w.callers[k].phase))
            && (forall k | turn < k < |called.callers| :: called.callers[k].phase.Waiting?)
  {
    OnlyTheTurnMoves(w, e, turn);
  }

  lemma {:induction false} LeftOpenCommitted<S, L>(w: World<S, L>, begun: World<S, L>, next: World<S, L>, turn: nat, body: Body<S, L>)
    requires |w.callers| <= |begun.callers| && turn + 1 < |begun.callers| && next == Next(begun, Commit(turn + 1))
    requires Enabled(begun, Commit(turn + 1)) && !begun.aborted && begun.callers[turn + 1].body == body
    requires forall k | 0 <= k < |w.callers| ::
               begun.callers[k].body == w.callers[k].body && Took(begun.callers[k].phase) == Took(w.callers[k].phase)
    requires forall k | turn < k < |begun.callers| :: !Took(begun.callers[k].phase)
    requires turn < |w.callers|
    ensures Committed(next.callers) == Committed(w.callers) + [body]
  {
    CommittedUntouched(w.callers, begun.callers);
    CommittedOneMore(begun.callers, next.callers, turn + 1);
  }

  function PlayFrom<S, L>(w: World<S, L>, events: seq<Event<S, L>>): World<S, L> {
    if events == [] then w
    else Next(PlayFrom(w, events[..|events| - 1]), events[|events| - 1])
  }

  /** An aborted transaction that no one inside is left to roll back. */
  ghost predicate Stuck<S, L>(w: World<S, L>) {
    w.aborted && w.session.Some? && forall k | 0 <= k < |w.callers| :: !w.callers[k].phase.Running? && !w.callers[k].phase.Failing?
  }

  lemma {:induction false} StuckStays<S, L>(w: World<S, L>, e: Event<S, L>)
    requires Stuck(w)
    ensures Stuck(Next(w, e)) && Next(w, e).db == w.db && Committed(Next(w, e).callers) == Committed(w.callers)
  {
    CommittedUntouched(w.callers, Next(w, e).callers);
  }

  /**
   * Where it fails on an aborted transaction nothing leaks: every later BEGIN is refused, so the
   * committed tables stay as they are, and no later call commits, for ever.
   */
  lemma {:induction false} AbortedStaysShut<S, L>(w: World<S, L>, events: seq<Event<S, L>>)
    requires Stuck(w)
    ensures var later := PlayFrom(w, events);
            Stuck(later) && later.db == w.db && Committed(later.callers) == Committed(w.callers)
    decreases |events|
  {
    if events != [] {
      var n := |events| - 1;
      AbortedStaysShut(w, events[..n]);
      StuckStays(PlayFrom(w, events[..n]), events[n]);
    }
  }

  /** That is what such a failure comes to. */
  lemma {:induction false} FailedRollbackOnAborted<S, L>(w: World<S, L>, turn: nat, e: Event<S, L>)
    requires InTurn(w, turn) && AbortedFits(w) && w.aborted && e.RollbackFails? && Enabled(w, e)
    ensures Stuck(Next(w, e))
  {
    OnlyTheTurnMoves(w, e, turn);
  }
}
