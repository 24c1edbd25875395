/**
 * What the committed tables are in every run of the lock, rollbacks that fail included: a ledger
 * of the pieces of work each applied COMMIT took, proved to be what the tables hold.
 */
module TxLedger {
  import opened Wrappers
  import opened TxLock

  /** The first `done` statements of the caller at `ticket`. */
  datatype Piece = Piece(ticket: nat, done: nat)

  /** What has been committed, and what the open transaction holds, in the order it was run. */
  datatype Ledger = Ledger(applied: seq<Piece>, open: seq<Piece>)

  ghost predicate Fits<S, L>(callers: seq<Caller<S, L>>, pieces: seq<Piece>) {
    forall i {:trigger pieces[i]} | 0 <= i < |pieces| ::
      pieces[i].ticket < |callers| && pieces[i].done <= |callers[pieces[i].ticket].body.statements|
  }

  function PieceBody<S, L>(callers: seq<Caller<S, L>>, p: Piece): Body<S, L>
    requires p.ticket < |callers| && p.done <= |callers[p.ticket].body.statements|
  {
    Body(callers[p.ticket].body.statements[..p.done], callers[p.ticket].body.start)
  }

  ghost function BodiesOf<S, L>(callers: seq<Caller<S, L>>, pieces: seq<Piece>): (bodies: seq<Body<S, L>>)
    requires Fits(callers, pieces)
    ensures |bodies| == |pieces|
    ensures forall i {:trigger bodies[i]} | 0 <= i < |pieces| :: bodies[i] == PieceBody(callers, pieces[i])
  {
    seq(|pieces|, i requires 0 <= i < |pieces| => PieceBody(callers, pieces[i]))
  }

  /** The pieces of callers whose COMMIT was applied. */
  ghost function Wholes<S, L>(callers: seq<Caller<S, L>>, pieces: seq<Piece>): seq<Body<S, L>>
    requires Fits(callers, pieces)
  {
    if pieces == [] then []
    else
      var n := |pieces| - 1;
      Wholes(callers, pieces[..n]) + if Took(callers[pieces[n].ticket].phase) then [PieceBody(callers, pieces[n])] else []
  }

  predicate Commits<S, L>(w: World<S, L>, e: Event<S, L>) {
    Enabled(w, e) && !w.aborted && (e.Commit? || (e.CommitFails? && e.how.Applied?))
  }

  function OpenAfter<S, L>(open: seq<Piece>, w: World<S, L>, e: Event<S, L>): seq<Piece> {
    if !Enabled(w, e) then open
    else if e.Begin? && !w.aborted then open + [Piece(e.ticket, 0)]
    else if e.Step? && Next(w, e).callers[e.ticket].phase.Running? && open != [] then
      open[..|open| - 1] + [Piece(e.ticket, w.callers[e.ticket].phase.done + 1)]
    else open
  }

  /** A commit takes all the open transaction holds; what is closed or aborted is lost. */
  function Booked<S, L>(b: Ledger, w: World<S, L>, e: Event<S, L>): Ledger {
    if Commits(w, e) then Ledger(b.applied + b.open, [])
    else if Next(w, e).session.None? || Next(w, e).aborted then Ledger(b.applied, [])
    else Ledger(b.applied, OpenAfter(b.open, w, e))
  }

  ghost function Books<S, L>(db: S, events: seq<Event<S, L>>): Ledger {
    if events == [] then Ledger([], [])
    else
      var before := events[..|events| - 1];
      Booked(Books(db, before), Play(db, before), events[|events| - 1])
  }

  /** Their callers have run all they will run. */
  ghost predicate Past<S, L>(callers: seq<Caller<S, L>>, pieces: seq<Piece>) {
    forall i {:trigger pieces[i]} | 0 <= i < |pieces| ::
      pieces[i].ticket < |callers| && !callers[pieces[i].ticket].phase.Waiting? && !callers[pieces[i].ticket].phase.Running?
  }

  /** The caller inside works on what the pieces before its own left in the transaction. */
  ghost predicate RunningFits<S, L>(w: World<S, L>, turn: nat, open: seq<Piece>) {
    turn < |w.callers| && w.callers[turn].phase.Running? ==>
      var c, n := w.callers[turn], |open| - 1;
      && w.session.Some? && !w.aborted && n >= 0 && Fits(w.callers, open) && Past(w.callers, open[..n])
      && open[n] == Piece(turn, c.phase.done)
      && var s := Serial(w.db, BodiesOf(w.callers, open[..n]));
         s.Some? && Run(c.body.statements[..c.phase.done], s.value, c.body.start) == Some((w.session.value, c.phase.locals))
  }

  /** Their callers have begun, and no COMMIT of theirs was applied. */
  ghost predicate Unsettled<S, L>(callers: seq<Caller<S, L>>, pieces: seq<Piece>) {
    forall i {:trigger pieces[i]} | 0 <= i < |pieces| ::
      && pieces[i].ticket < |callers|
      && !Took(callers[pieces[i].ticket].phase) && !callers[pieces[i].ticket].phase.Waiting?
  }

  ghost predicate OpenFits<S, L>(w: World<S, L>, open: seq<Piece>) {
    && Fits(w.callers, open) && Unsettled(w.callers, open)
    && if w.session.None? || w.aborted then open == [] && (w.aborted ==> w.session.Some?)
       else Serial(w.db, BodiesOf(w.callers, open)) == Some(w.session.value)
  }

  ghost predicate AppliedFits<S, L>(db: S, w: World<S, L>, applied: seq<Piece>) {
    && Fits(w.callers, applied) && Past(w.callers, applied)
    && Serial(db, BodiesOf(w.callers, applied)) == Some(w.db)
    && Wholes(w.callers, applied) == Committed(w.callers)
  }

  ghost predicate Accounted<S, L>(db: S, w: World<S, L>, turn: nat, b: Ledger) {
    InTurn(w, turn) && AppliedFits(db, w, b.applied) && OpenFits(w, b.open) && RunningFits(w, turn, b.open)
  }

  lemma {:induction false} SerialOfConcat<S, L>(db: S, a: seq<Body<S, L>>, b: seq<Body<S, L>>)
    requires Serial(db, a).Some?
    ensures Serial(db, a + b) == Serial(Serial(db, a).value, b)
    decreases |b|
  {
    if b == [] {
      assert a + b == a;
    } else {
      var n := |b| - 1;
      assert (a + b)[..|a + b| - 1] == a + b[..n];
      SerialOfConcat(db, a, b[..n]);
    }
  }

  lemma {:induction false} BodiesOfConcat<S, L>(callers: seq<Caller<S, L>>, a: seq<Piece>, b: seq<Piece>)
    requires Fits(callers, a) && Fits(callers, b)
    ensures Fits(callers, a + b) && BodiesOf(callers, a + b) == BodiesOf(callers, a) + BodiesOf(callers, b)
  {
    forall i {:trigger (a + b)[i]} | 0 <= i < |a + b|
      ensures (a + b)[i].ticket < |callers| && (a + b)[i].done <= |callers[(a + b)[i].ticket].body.statements|
    {
      assert (a + b)[i] == if i < |a| then a[i] else b[i - |a|];
    }
  }

  /** Callers keep their bodies. */
  ghost predicate SameBodies<S, L>(before: seq<Caller<S, L>>, after: seq<Caller<S, L>>) {
    |before| <= |after| && forall k {:trigger after[k]} | 0 <= k < |before| :: after[k].body == before[k].body
  }

  lemma {:induction false} NextSameBodies<S, L>(w: World<S, L>, e: Event<S, L>)
    ensures SameBodies(w.callers, Next(w, e).callers)
  {}

  lemma {:induction false} BodiesStay<S, L>(before: seq<Caller<S, L>>, after: seq<Caller<S, L>>, pieces: seq<Piece>)
    requires SameBodies(before, after) && Fits(before, pieces)
    ensures Fits(after, pieces) && BodiesOf(after, pieces) == BodiesOf(before, pieces)
  {
    forall i {:trigger pieces[i]} | 0 <= i < |pieces|
      ensures pieces[i].ticket < |after| && pieces[i].done <= |after[pieces[i].ticket].body.statements|
      ensures PieceBody(after, pieces[i]) == PieceBody(before, pieces[i])
    {
      assert after[pieces[i].ticket].body == before[pieces[i].ticket].body;
    }
  }

  lemma {:induction false} WholesStay<S, L>(before: seq<Caller<S, L>>, after: seq<Caller<S, L>>, pieces: seq<Piece>)
    requires SameBodies(before, after) && Fits(before, pieces) && Fits(after, pieces)
    requires forall i | 0 <= i < |pieces| :: Took(after[pieces[i].ticket].phase) == Took(before[pieces[i].ticket].phase)
    ensures Wholes(after, pieces) == Wholes(before, pieces)
    decreases |pieces|
  {
    if pieces != [] {
      var n := |pieces| - 1;
      WholesStay(before, after, pieces[..n]);
      assert after[pieces[n].ticket].body == before[pieces[n].ticket].body;
    }
  }

  lemma {:induction false} WholesWithNone<S, L>(callers: seq<Caller<S, L>>, a: seq<Piece>, b: seq<Piece>)
    requires Fits(callers, a) && Fits(callers, b) && Fits(callers, a + b)
    requires forall i | 0 <= i < |b| :: !Took(callers[b[i].ticket].phase)
    ensures Wholes(callers, a + b) == Wholes(callers, a)
    decreases |b|
  {
    if b == [] {
      assert a + b == a;
    } else {
      var n := |b| - 1;
      assert (a + b)[..|a + b| - 1] == a + b[..n];
      BodiesOfConcat(callers, a, b[..n]);
      WholesWithNone(callers, a, b[..n]);
    }
  }

  /** A commit applies every piece of the open transaction, the last of them whole. */
  lemma {:induction false} CommitBooked<S, L>(db: S, w: World<S, L>, e: Event<S, L>, turn: nat, b: Ledger)
    requires Accounted(db, w, turn, b) && Commits(w, e)
    ensures AppliedFits(db, Next(w, e), b.applied + b.open)
  {
    OnlyTheTurnMoves(w, e, turn);
    BodiesOfConcat(w.callers, b.applied, b.open);
    SerialOfConcat(db, BodiesOf(w.callers, b.applied), BodiesOf(w.callers, b.open));
    NextSameBodies(w, e);
    BodiesStay(w.callers, Next(w, e).callers, b.applied + b.open);
    CommitWholes(w, e, turn, b);
    CommitIsPast(w, e, turn, b);
  }

  lemma {:induction false} CommitIsPast<S, L>(w: World<S, L>, e: Event<S, L>, turn: nat, b: Ledger)
    requires InTurn(w, turn) && Commits(w, e) && OpenFits(w, b.open) && RunningFits(w, turn, b.open)
    requires Fits(w.callers, b.applied) && Past(w.callers, b.applied)
    ensures Past(Next(w, e).callers, b.applied + b.open)
  {
    OnlyTheTurnMoves(w, e, turn);
    var all, after := b.applied + b.open, Next(w, e).callers;
    forall i {:trigger all[i]} | 0 <= i < |all|
      ensures all[i].ticket < |after| && !after[all[i].ticket].phase.Waiting? && !after[all[i].ticket].phase.Running?
    {
      assert all[i] == if i < |b.applied| then b.applied[i] else b.open[i - |b.applied|];
    }
  }

  lemma {:induction false} CommitWholes<S, L>(w: World<S, L>, e: Event<S, L>, turn: nat, b: Ledger)
    requires InTurn(w, turn) && Commits(w, e) && OpenFits(w, b.open) && RunningFits(w, turn, b.open)
    requires Fits(w.callers, b.applied) && Past(w.callers, b.applied) && Wholes(w.callers, b.applied) == Committed(w.callers)
    ensures Fits(Next(w, e).callers, b.applied + b.open)
    ensures Wholes(Next(w, e).callers, b.applied + b.open) == Committed(Next(w, e).callers)
  {
    CommitAdds(w, e, turn);
    var after, n := Next(w, e).callers, |b.open| - 1;
    var front, last := b.applied + b.open[..n], b.open[n];
    assert b.applied + b.open == front + [last];
    FrontWholes(w, e, turn, b.applied, b.open[..n]);
    OneMorePiece(after, front, last);
    LastWhole(after, front, last);
  }

  lemma {:induction false} LastWhole<S, L>(callers: seq<Caller<S, L>>, front: seq<Piece>, last: Piece)
    requires Fits(callers, front + [last]) && Fits(callers, front)
    requires last.ticket < |callers| && Took(callers[last.ticket].phase) && last.done == |callers[last.ticket].body.statements|
    ensures Wholes(callers, front + [last]) == Wholes(callers, front) + [callers[last.ticket].body]
  {
    var body := callers[last.ticket].body;
    assert body.statements[..last.done] == body.statements;
    assert (front + [last])[..|front|] == front;
  }

  lemma {:induction false} CommitAdds<S, L>(w: World<S, L>, e: Event<S, L>, turn: nat)
    requires InTurn(w, turn) && Commits(w, e)
    ensures var after := Next(w, e).callers;
            && turn < |w.callers| == |after| && w.callers[turn].phase.Running?
            && w.callers[turn].phase.done == |w.callers[turn].body.statements|
            && after[turn].body == w.callers[turn].body && Took(after[turn].phase)
            && Committed(after) == Committed(w.callers) + [after[turn].body]
  {
    OnlyTheTurnMoves(w, e, turn);
    CommittedOneMore(w.callers, Next(w, e).callers, turn);
  }

  /** What comes before the piece that commits was whole, or left over, before as it is after. */
  lemma {:induction false} FrontWholes<S, L>(w: World<S, L>, e: Event<S, L>, turn: nat, applied: seq<Piece>, left: seq<Piece>)
    requires InTurn(w, turn) && Commits(w, e)
    requires Fits(w.callers, applied) && Past(w.callers, applied) && Fits(w.callers, left) && Past(w.callers, left)
    requires forall i {:trigger left[i]} | 0 <= i < |left| :: !Took(w.callers[left[i].ticket].phase)
    ensures Fits(Next(w, e).callers, applied + left)
    ensures Wholes(Next(w, e).callers, applied + left) == Wholes(w.callers, applied)
  {
    OnlyTheTurnMoves(w, e, turn);
    var front := applied + left;
    BodiesOfConcat(w.callers, applied, left);
    NextSameBodies(w, e);
    BodiesStay(w.callers, Next(w, e).callers, front);
    forall i | 0 <= i < |front| ensures Took(Next(w, e).callers[front[i].ticket].phase) == Took(w.callers[front[i].ticket].phase) {
      assert front[i] == if i < |applied| then applied[i] else left[i - |applied|];
      assert front[i].ticket != turn;
    }
    WholesStay(w.callers, Next(w, e).callers, front);
    WholesWithNone(w.callers, applied, left);
  }

  /** Every other step leaves what has been applied. */
  lemma {:induction false} OthersKeepApplied<S, L>(db: S, w: World<S, L>, e: Event<S, L>, turn: nat, applied: seq<Piece>)
    requires InTurn(w, turn) && AppliedFits(db, w, applied) && AbortedFits(w) && Enabled(w, e) && !Commits(w, e)
    ensures AppliedFits(db, Next(w, e), applied)
  {
    OthersCommitNothing(w, e);
    NextSameBodies(w, e);
    BodiesStay(w.callers, Next(w, e).callers, applied);
    OthersKeepPast(w, e, turn, applied);
    WholesStay(w.callers, Next(w, e).callers, applied);
  }

  lemma {:induction false} OthersKeepPast<S, L>(w: World<S, L>, e: Event<S, L>, turn: nat, pieces: seq<Piece>)
    requires InTurn(w, turn) && Past(w.callers, pieces) && Enabled(w, e) && !e.Commit? && !(e.CommitFails? && e.how.Applied?)
    ensures Past(Next(w, e).callers, pieces)
    ensures forall i | 0 <= i < |pieces| ::
              Took(Next(w, e).callers[pieces[i].ticket].phase) == Took(w.callers[pieces[i].ticket].phase)
  {
    if !e.Call? {
      OnlyTheTurnMoves(w, e, turn);
      OthersTakeNothing(w, e);
    }
  }

  lemma {:induction false} BeginBooked<S, L>(w: World<S, L>, e: Event<S, L>, turn: nat, open: seq<Piece>, all: seq<Piece>)
    requires InTurn(w, turn) && OpenFits(w, open) && Enabled(w, e) && e.Begin? && !w.aborted && all == open + [Piece(turn, 0)]
    ensures OpenFits(Next(w, e), all) && RunningFits(Next(w, e), turn, all)
  {
    OnlyTheTurnMoves(w, e, turn);
    var after, first := Next(w, e).callers, Piece(turn, 0);
    assert w.callers[turn].body.statements[..0] == [];
    NextSameBodies(w, e);
    BodiesStay(w.callers, after, open);
    BeginPieces(w, e, turn, open);
    OneMorePiece(after, open, first);
    SerialOneMore(w.db, BodiesOf(after, open), PieceBody(after, first));
    assert all[..|open|] == open;
  }

  lemma {:induction false} BeginPieces<S, L>(w: World<S, L>, e: Event<S, L>, turn: nat, open: seq<Piece>)
    requires InTurn(w, turn) && Unsettled(w.callers, open) && Enabled(w, e) && e.Begin? && !w.aborted
    ensures Past(Next(w, e).callers, open) && Unsettled(Next(w, e).callers, open + [Piece(turn, 0)])
  {
    OnlyTheTurnMoves(w, e, turn);
    var after, all := Next(w, e).callers, open + [Piece(turn, 0)];
    forall i {:trigger all[i]} | 0 <= i < |all|
      ensures all[i].ticket < |after| && !Took(after[all[i].ticket].phase) && !after[all[i].ticket].phase.Waiting?
    {
      if i < |open| { assert all[i] == open[i]; }
    }
  }

  lemma {:induction false} OneMorePiece<S, L>(callers: seq<Caller<S, L>>, pieces: seq<Piece>, p: Piece)
    requires Fits(callers, pieces) && p.ticket < |callers| && p.done <= |callers[p.ticket].body.statements|
    ensures Fits(callers, pieces + [p])
    ensures BodiesOf(callers, pieces + [p]) == BodiesOf(callers, pieces) + [PieceBody(callers, p)]
  {
    assert Fits(callers, [p]);
    BodiesOfConcat(callers, pieces, [p]);
    assert BodiesOf(callers, [p]) == [PieceBody(callers, p)];
  }

  /** A statement that runs makes the last piece longer. */
  lemma {:induction false} StepBooked<S, L>(w: World<S, L>, e: Event<S, L>, turn: nat, open: seq<Piece>)
    requires InTurn(w, turn) && OpenFits(w, open) && RunningFits(w, turn, open) && Enabled(w, e) && e.Step?
    requires Next(w, e).callers[e.ticket].phase.Running?
    ensures OpenFits(Next(w, e), OpenAfter(open, w, e)) && RunningFits(Next(w, e), turn, OpenAfter(open, w, e))
  {
    OnlyTheTurnMoves(w, e, turn);
    var w', n := Next(w, e), |open| - 1;
    var c := w.callers[turn];
    var front, p := open[..n], Piece(turn, c.phase.done + 1);
    NextSameBodies(w, e);
    BodiesStay(w.callers, w'.callers, front);
    RunOneMore(c.body.statements, c.phase.done, Serial(w.db, BodiesOf(w.callers, front)).value, c.body.start);
    OneMorePiece(w'.callers, front, p);
    SerialOneMore(w.db, BodiesOf(w'.callers, front), PieceBody(w'.callers, p));
    assert (front + [p])[..n] == front;
  }

  /** and keeps the open transaction what its pieces make of the committed tables. */
  lemma {:induction false} OthersKeepOpen<S, L>(w: World<S, L>, e: Event<S, L>, turn: nat, b: Ledger)
    requires InTurn(w, turn) && OpenFits(w, b.open) && RunningFits(w, turn, b.open) && Enabled(w, e) && !Commits(w, e)
    ensures var w', open := Next(w, e), Booked(b, w, e).open;
            OpenFits(w', open) && RunningFits(w', TurnAfter(w, e, turn), open)
  {
    if Next(w, e).session.None? || Next(w, e).aborted {
      OpenLost(w, e, turn, b.open);
    } else {
      OpenGoesOn(w, e, turn, b.open);
    }
  }

  ghost predicate GoesOn<S, L>(w: World<S, L>, e: Event<S, L>, turn: nat, open: seq<Piece>) {
    OpenFits(Next(w, e), OpenAfter(open, w, e)) && RunningFits(Next(w, e), TurnAfter(w, e, turn), OpenAfter(open, w, e))
  }

  lemma {:induction false} OpenGoesOn<S, L>(w: World<S, L>, e: Event<S, L>, turn: nat, open: seq<Piece>)
    requires InTurn(w, turn) && OpenFits(w, open) && RunningFits(w, turn, open) && Enabled(w, e) && !Commits(w, e)
    requires Next(w, e).session.Some? && !Next(w, e).aborted
    ensures GoesOn(w, e, turn, open)
  {
    if e.Call? {
      CallKeepsOpen(w, e, turn, open);
    } else if e.Begin? {
      BeginGoesOn(w, e, turn, open);
    } else if e.Step? && Next(w, e).callers[e.ticket].phase.Running? {
      StepGoesOn(w, e, turn, open);
    } else {
      StillOpen(w, e, turn, open);
    }
  }

  lemma {:induction false} BeginGoesOn<S, L>(w: World<S, L>, e: Event<S, L>, turn: nat, open: seq<Piece>)
    requires InTurn(w, turn) && OpenFits(w, open) && Enabled(w, e) && e.Begin? && !Next(w, e).aborted
    ensures GoesOn(w, e, turn, open)
  {
    BeginOpens(w, e, turn, open);
    BeginBooked(w, e, turn, open, OpenAfter(open, w, e));
  }

  lemma {:induction false} BeginOpens<S, L>(w: World<S, L>, e: Event<S, L>, turn: nat, open: seq<Piece>)
    requires InTurn(w, turn) && Enabled(w, e) && e.Begin? && !Next(w, e).aborted
    ensures !w.aborted && OpenAfter(open, w, e) == open + [Piece(turn, 0)] && TurnAfter(w, e, turn) == turn
  {
    OnlyTheTurnMoves(w, e, turn);
  }

  lemma {:induction false} StepGoesOn<S, L>(w: World<S, L>, e: Event<S, L>, turn: nat, open: seq<Piece>)
    requires InTurn(w, turn) && OpenFits(w, open) && RunningFits(w, turn, open) && Enabled(w, e) && e.Step?
    requires Next(w, e).callers[e.ticket].phase.Running?
    ensures GoesOn(w, e, turn, open)
  {
    StepBooked(w, e, turn, open);
  }

  lemma {:induction false} OpenLost<S, L>(w: World<S, L>, e: Event<S, L>, turn: nat, open: seq<Piece>)
    requires InTurn(w, turn) && OpenFits(w, open) && RunningFits(w, turn, open) && Enabled(w, e) && !Commits(w, e)
    requires Next(w, e).session.None? || Next(w, e).aborted
    ensures OpenFits(Next(w, e), []) && RunningFits(Next(w, e), TurnAfter(w, e, turn), [])
  {
    if !e.Call? { OnlyTheTurnMoves(w, e, turn); }
  }

  lemma {:induction false} CallKeepsOpen<S, L>(w: World<S, L>, e: Event<S, L>, turn: nat, open: seq<Piece>)
    requires InTurn(w, turn) && OpenFits(w, open) && RunningFits(w, turn, open) && e.Call?
    requires Next(w, e).session.Some? && !Next(w, e).aborted
    ensures GoesOn(w, e, turn, open)
  {
    NextSameBodies(w, e);
    BodiesStay(w.callers, Next(w, e).callers, open);
    CallSame(w, e, turn, open);
    if turn < |w.callers| && w.callers[turn].phase.Running? {
      BodiesStay(w.callers, Next(w, e).callers, open[..|open| - 1]);
    }
  }

  lemma {:induction false} CallSame<S, L>(w: World<S, L>, e: Event<S, L>, turn: nat, open: seq<Piece>)
    requires InTurn(w, turn) && Unsettled(w.callers, open) && e.Call?
    ensures var w' := Next(w, e);
            && Unsettled(w'.callers, open) && w'.session == w.session && w'.aborted == w.aborted && w'.db == w.db
            && OpenAfter(open, w, e) == open && TurnAfter(w, e, turn) == turn
            && (turn < |w.callers| ==> w'.callers[turn] == w.callers[turn])
            && (turn == |w.callers| ==> w'.callers[turn].phase.Waiting?)
  {}

  /** Any other step that leaves the transaction open leaves it as it is, with no one running in it. */
  lemma {:induction false} StillOpen<S, L>(w: World<S, L>, e: Event<S, L>, turn: nat, open: seq<Piece>)
    requires InTurn(w, turn) && OpenFits(w, open) && Enabled(w, e) && !Commits(w, e) && !e.Call? && !e.Begin?
    requires e.Step? ==> !Next(w, e).callers[e.ticket].phase.Running?
    requires Next(w, e).session.Some? && !Next(w, e).aborted
    ensures GoesOn(w, e, turn, open)
  {
    NextSameBodies(w, e);
    BodiesStay(w.callers, Next(w, e).callers, open);
    StillUnsettled(w, e, turn, open);
    assert OpenAfter(open, w, e) == open;
  }

  lemma {:induction false} StillUnsettled<S, L>(w: World<S, L>, e: Event<S, L>, turn: nat, open: seq<Piece>)
    requires InTurn(w, turn) && Unsettled(w.callers, open) && Enabled(w, e) && !Commits(w, e) && !e.Call? && !e.Begin?
    requires e.Step? ==> !Next(w, e).callers[e.ticket].phase.Running?
    requires Next(w, e).session.Some? && !Next(w, e).aborted
    ensures Unsettled(Next(w, e).callers, open) && Next(w, e).session == w.session && !w.aborted && Next(w, e).db == w.db
    ensures TurnAfter(w, e, turn) < |Next(w, e).callers| ==> !Next(w, e).callers[TurnAfter(w, e, turn)].phase.Running?
  {
    OnlyTheTurnMoves(w, e, turn);
  }

  lemma {:induction false} EveryRunAccounted<S, L>(db: S, events: seq<Event<S, L>>)
    ensures Accounted(db, Play(db, events), Turn(db, events), Books(db, events))
    decreases |events|
  {
    if events == [] {
      assert Committed<S, L>([]) == [];
    } else {
      var n := |events| - 1;
      EveryRunAccounted(db, events[..n]);
      EveryRunAbortedFits(db, events[..n]);
      StepAccounted(db, Play(db, events[..n]), events[n], Turn(db, events[..n]), Books(db, events[..n]));
    }
  }

  lemma {:induction false} StepAccounted<S, L>(db: S, w: World<S, L>, e: Event<S, L>, turn: nat, b: Ledger)
    requires Accounted(db, w, turn, b) && AbortedFits(w)
    ensures Accounted(db, Next(w, e), TurnAfter(w, e, turn), Booked(b, w, e))
  {
    StepKeepsTurns(w, e, turn);
    if Commits(w, e) {
      OnlyTheTurnMoves(w, e, turn);
      CommitBooked(db, w, e, turn, b);
    } else if Enabled(w, e) {
      OthersKeepApplied(db, w, e, turn, b.applied);
      OthersKeepOpen(w, e, turn, b);
    }
  }

  // ------------------------------------------------------------- what is left over

  /** At some event of the run the ROLLBACK of caller k failed on a transaction that could still be committed. */
  predicate LeftOpenBy<S, L>(db: S, events: seq<Event<S, L>>, k: nat) {
    events != [] &&
      var before, e := events[..|events| - 1], events[|events| - 1];
      LeftOpenBy(db, before, k) || (LeavesOpen(Play(db, before), e) && e.ticket == k)
  }

  /** Caller k is inside, and its COMMIT or ROLLBACK is still to come. */
  predicate Undecided<S, L>(w: World<S, L>, turn: nat, k: nat) {
    k == turn < |w.callers| && (w.callers[turn].phase.Running? || w.callers[turn].phase.Failing?)
  }

  /** The open transaction holds work of no other. */
  ghost predicate Explained<S, L>(db: S, events: seq<Event<S, L>>, k: nat) {
    LeftOpenBy(db, events, k) || Undecided(Play(db, events), Turn(db, events), k)
  }

  lemma {:induction false} OpenExplained<S, L>(db: S, events: seq<Event<S, L>>, p: Piece)
    requires p in Books(db, events).open
    ensures Explained(db, events, p.ticket)
    decreases |events|
  {
    var n := |events| - 1;
    var w, turn, b := Play(db, events[..n]), Turn(db, events[..n]), Books(db, events[..n]);
    EveryRunInTurn(db, events[..n]);
    if q :| q in b.open && q.ticket == p.ticket {
      OpenExplained(db, events[..n], q);
      OpenStays(w, events[n], turn, b, p);
      if Undecided(w, turn, p.ticket) { StepExplains(w, events[n], turn, p.ticket); }
    } else {
      NewlyOpen(w, events[n], turn, b, p);
    }
  }

  lemma {:induction false} OpenStays<S, L>(w: World<S, L>, e: Event<S, L>, turn: nat, b: Ledger, p: Piece)
    requires p in Booked(b, w, e).open
    ensures Next(w, e).session.Some? && !Next(w, e).aborted && !Commits(w, e) && p in OpenAfter(b.open, w, e)
  {}

  /** A piece of no one who had any is that of the caller that runs. */
  lemma {:induction false} NewlyOpen<S, L>(w: World<S, L>, e: Event<S, L>, turn: nat, b: Ledger, p: Piece)
    requires InTurn(w, turn) && p in Booked(b, w, e).open && forall q | q in b.open :: q.ticket != p.ticket
    ensures Undecided(Next(w, e), TurnAfter(w, e, turn), p.ticket)
  {
    OpenStays(w, e, turn, b, p);
    assert p !in b.open;
    assert Enabled(w, e) && !e.Call?;
    OnlyTheTurnMoves(w, e, turn);
    if e.Begin? {
      assert p in b.open + [Piece(turn, 0)];
    } else {
      assert p in b.open[..|b.open| - 1] + [Piece(turn, w.callers[turn].phase.done + 1)];
      assert b.open == b.open[..|b.open| - 1] + [b.open[|b.open| - 1]];
    }
  }

  /** A caller undecided stays so, unless its ROLLBACK fails and leaves the transaction open. */
  lemma {:induction false} StepExplains<S, L>(w: World<S, L>, e: Event<S, L>, turn: nat, k: nat)
    requires InTurn(w, turn) && Next(w, e).session.Some? && !Next(w, e).aborted && !Commits(w, e) && Undecided(w, turn, k)
    ensures (LeavesOpen(w, e) && e.ticket == k) || Undecided(Next(w, e), TurnAfter(w, e, turn), k)
  {
    if Enabled(w, e) && !e.Call? { OnlyTheTurnMoves(w, e, turn); }
  }

  /**
   * What the committed tables are in every run, whatever fails: the work of pieces of bodies, one
   * after the other. The whole ones among them are the bodies whose COMMIT was applied, in call
   * order; every other is the first statements of a caller whose ROLLBACK failed while its
   * transaction could still be committed.
   */
  lemma {:induction false} CommittedInEveryRun<S, L>(db: S, events: seq<Event<S, L>>)
    ensures var w, applied := Play(db, events), Books(db, events).applied;
            && Fits(w.callers, applied)
            && Serial(db, BodiesOf(w.callers, applied)) == Some(w.db)
            && Wholes(w.callers, applied) == Committed(w.callers)
            && forall p | p in applied :: Took(w.callers[p.ticket].phase) || LeftOpenBy(db, events, p.ticket)
  {
    EveryRunAccounted(db, events);
    forall p | p in Books(db, events).applied
      ensures Took(Play(db, events).callers[p.ticket].phase) || LeftOpenBy(db, events, p.ticket)
    {
      AppliedExplained(db, events, p);
    }
  }

  lemma {:induction false} AppliedExplained<S, L>(db: S, events: seq<Event<S, L>>, p: Piece)
    requires p in Books(db, events).applied && p.ticket < |Play(db, events).callers|
    ensures Took(Play(db, events).callers[p.ticket].phase) || LeftOpenBy(db, events, p.ticket)
    decreases |events|
  {
    var n := |events| - 1;
    var w, turn, b := Play(db, events[..n]), Turn(db, events[..n]), Books(db, events[..n]);
    EveryRunAccounted(db, events[..n]);
    if p in b.applied {
      var i :| 0 <= i < |b.applied| && b.applied[i] == p;
      AppliedExplained(db, events[..n], p);
      TookStays(w, events[n], p.ticket);
    } else {
      NewlyApplied(w, events[n], turn, b, p);
      OpenExplained(db, events[..n], p);
    }
  }

  lemma {:induction false} NewlyApplied<S, L>(w: World<S, L>, e: Event<S, L>, turn: nat, b: Ledger, p: Piece)
    requires InTurn(w, turn) && p in Booked(b, w, e).applied && p !in b.applied
    ensures p in b.open && turn < |Next(w, e).callers| && Took(Next(w, e).callers[turn].phase)
  {
    OnlyTheTurnMoves(w, e, turn);
  }

  lemma {:induction false} TookStays<S, L>(w: World<S, L>, e: Event<S, L>, k: nat)
    requires k < |w.callers|
    ensures k < |Next(w, e).callers| && (Took(w.callers[k].phase) ==> Took(Next(w, e).callers[k].phase))
  {}

  /** Where no ROLLBACK so fails, those are the committed bodies and nothing else. */
  lemma {:induction false} NothingLeftOver<S, L>(db: S, events: seq<Event<S, L>>)
    requires Closes(db, events)
    ensures var w, applied := Play(db, events), Books(db, events).applied;
            Fits(w.callers, applied) && BodiesOf(w.callers, applied) == Committed(w.callers)
  {
    CommittedInEveryRun(db, events);
    NoneLeftOpen(db, events);
    AllWholes(Play(db, events).callers, Books(db, events).applied);
  }

  /**
   * In every interleaving whose rollbacks close their transactions, the committed tables are
   * those the committed bodies make, each run whole and alone, in call order.
   */
  lemma {:induction false} CommittedSerially<S, L>(db: S, events: seq<Event<S, L>>)
    requires Closes(db, events)
    ensures Serial(db, Committed(Play(db, events).callers)) == Some(Play(db, events).db)
  {
    CommittedInEveryRun(db, events);
    NothingLeftOver(db, events);
  }

  lemma {:induction false} NoneLeftOpen<S, L>(db: S, events: seq<Event<S, L>>)
    requires Closes(db, events)
    ensures forall k :: !LeftOpenBy(db, events, k)
    decreases |events|
  {
    if events != [] { NoneLeftOpen(db, events[..|events| - 1]); }
  }

  lemma {:induction false} AllWholes<S, L>(callers: seq<Caller<S, L>>, pieces: seq<Piece>)
    requires Fits(callers, pieces) && forall p | p in pieces :: Took(callers[p.ticket].phase)
    ensures Wholes(callers, pieces) == BodiesOf(callers, pieces)
    decreases |pieces|
  {
    if pieces != [] {
      var n := |pieces| - 1;
      AllWholes(callers, pieces[..n]);
      OneMorePiece(callers, pieces[..n], pieces[n]);
      assert pieces[..n] + [pieces[n]] == pieces;
    }
  }
}
