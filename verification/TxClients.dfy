/**
 * Two clients of the transaction lock, statement by statement: logAudit
 * (examples/hosts/postgres/src/audit.ts) and resolveApproval
 * (examples/hosts/postgres/src/interrupts.ts), among transactions of any other kind.
 */
module TxClients {
  import opened Wrappers
  import opened Ordering
  import opened Json
  import opened JsonRoundTrip
  import opened JsonHoles
  import opened Merkle
  import opened AuditEntry
  import opened AuditLog
  import opened TxLedger
  import opened TxLock
  import Approval

  datatype Entry = Entry(sequence: int, occurredAt: Text, input: Input, prevHash: Option<Text>, entryHash: Text)

  type Key = (string, string)

  /** audit_seq (None where the sentinel row is missing), audit_log in insertion order, interrupts. */
  datatype Tables = Tables(nextSeq: Option<int>, log: seq<Entry>, gates: map<Key, Approval.Interrupt>)

  /** A transaction: one of the two clients, or any other, whose statements leave these tables alone. */
  datatype Op =
    | LogAudit(input: Input, occurredAt: Text)
    | CastVote(key: Key, action: string, voter: Option<string>, now: int)
    | Other(statements: nat)

  /** What a body's variables hold from one await to the next. */
  datatype Locals = Locals(op: Op, sequence: int, prior: Option<Text>, loaded: Option<Approval.Interrupt>)

  const MAX_INT4: int := 0x7FFF_FFFF

  // -------------------------------------------------------------- statements

  type Result = StatementResult<Tables, Locals>

  /** UPDATE audit_seq ... RETURNING next_seq - 1; an overflow is an error, a missing sentinel row throws. */
  function Allocate(t: Tables, l: Locals): Result {
    if t.nextSeq.None? then Thrown
    else if t.nextSeq.value >= MAX_INT4 then SqlError
    else Ran(t.(nextSeq := Some(t.nextSeq.value + 1)), l.(sequence := t.nextSeq.value))
  }

  /** The entry with the greatest sequence: ORDER BY seq DESC LIMIT 1. */
  function Latest(log: seq<Entry>): Option<Entry> {
    if log == [] then None
    else
      var before, last := Latest(log[..|log| - 1]), log[|log| - 1];
      if before.Some? && before.value.sequence > last.sequence then before else Some(last)
  }

  function ReadPrior(t: Tables, l: Locals): Result {
    var latest := Latest(t.log);
    Ran(t, l.(prior := if latest.None? then None else Some(latest.value.entryHash)))
  }

  /** entryHash of the fields a row stores. */
  function HashOf(hash: Hash, e: Entry): Text {
    hash(EntryText(Row(e.sequence, e.occurredAt, e.input.actor, e.input.action, e.input.target, [], e.prevHash, []),
                   e.input.details))
  }

  /** The primary key on seq or the unique index on entry_hash refuses the row. */
  predicate Refused(log: seq<Entry>, e: Entry) {
    log != [] && (log[0].sequence == e.sequence || log[0].entryHash == e.entryHash || Refused(log[1..], e))
  }

  function NewEntry(hash: Hash, op: Op, sequence: int, prior: Option<Text>): Entry
    requires op.LogAudit?
  {
    var e := Entry(sequence, op.occurredAt, op.input, prior, []);
    e.(entryHash := HashOf(hash, e))
  }

  function Insert(hash: Hash, t: Tables, l: Locals): Result {
    if !l.op.LogAudit? then Thrown
    else
      var e := NewEntry(hash, l.op, l.sequence, l.prior);
      if Refused(t.log, e) then SqlError else Ran(t.(log := t.log + [e]), l)
  }

  /** getInterrupt: only an active row is read. */
  function LoadGate(t: Tables, l: Locals): Result {
    if !l.op.CastVote? then Thrown
    else
      Ran(t, l.(loaded := if l.op.key in t.gates && t.gates[l.op.key].Active() then Some(t.gates[l.op.key]) else None))
  }

  /** What the decision writes, from the row that was read; None for no write. */
  function Decision(row: Approval.Interrupt, op: Op): Option<Approval.Interrupt>
    requires op.CastVote?
  {
    if row.kind != Approval.ApprovalGate then None
    else if row.Expired(op.now) then Some(row.(resolvedAt := Some(op.now), outcome := Some("expired")))
    else if op.action !in row.config.actions then None
    else
      var votes := Approval.Cast(row.votes, Ballot(op));
      if Accepts(votes) >= row.config.Required() then Some(Approval.Settled(row, "accepted", votes, op.now))
      else if Approval.Rejects(votes) >= row.config.RejectThreshold() then Some(Approval.Settled(row, "rejected", votes, op.now))
      else Some(row.(votes := votes))
  }

  /** The UPDATE that follows: votes are written whatever the row holds by then. */
  function WriteGate(t: Tables, l: Locals): Result {
    if !l.op.CastVote? then Thrown
    else if l.loaded.None? || Decision(l.loaded.value, l.op).None? || l.op.key !in t.gates then Ran(t, l)
    else
      var now, next := t.gates[l.op.key], Decision(l.loaded.value, l.op).value;
      var written :=
        if next.outcome == Some("expired") && l.loaded.value.Expired(l.op.now) then
          (if now.Active() then now.(resolvedAt := next.resolvedAt, outcome := next.outcome) else now)
        else if next.Active() then now.(votes := next.votes)
        else now.(votes := next.votes, resolvedAt := next.resolvedAt, outcome := next.outcome);
      Ran(t.(gates := t.gates[l.op.key := written]), l)
  }

  function Unseen(t: Tables, l: Locals): Result { Ran(t, l) }

  /** This host counts only plain accepts. */
  function Accepts(votes: seq<Approval.Vote>): nat {
    if votes == [] then 0 else (if votes[0].action == "accept" then 1 else 0) + Accepts(votes[1..])
  }

  function Ballot(op: Op): Approval.Vote
    requires op.CastVote?
  {
    Approval.Vote(op.action, op.voter, op.now)
  }

  function Unseens(n: nat): seq<Statement<Tables, Locals>> {
    if n == 0 then [] else Unseens(n - 1) + [Unseen]
  }

  function StatementsOf(hash: Hash, op: Op): seq<Statement<Tables, Locals>> {
    match op
    case LogAudit(_, _) => [Allocate, ReadPrior, (t: Tables, l: Locals) => Insert(hash, t, l)]
    case CastVote(_, _, _, _) => [LoadGate, WriteGate]
    case Other(n) => Unseens(n)
  }

  function Client(hash: Hash, op: Op): Body<Tables, Locals> {
    Body(StatementsOf(hash, op), Locals(op, 0, None, None))
  }

  // --------------------------------------------------------------- as one step

  /** What a transaction does to the tables; None where it throws. */
  function Applied(hash: Hash, t: Tables, op: Op): Option<Tables> {
    match op
    case LogAudit(_, _) =>
      if t.nextSeq.None? || t.nextSeq.value >= MAX_INT4 then None
      else
        var latest := Latest(t.log);
        var e := NewEntry(hash, op, t.nextSeq.value, if latest.None? then None else Some(latest.value.entryHash));
        if Refused(t.log, e) then None
        else Some(t.(nextSeq := Some(t.nextSeq.value + 1), log := t.log + [e]))
    case CastVote(key, _, _, _) =>
      if key !in t.gates || !t.gates[key].Active() || Decision(t.gates[key], op).None? then Some(t)
      else Some(t.(gates := t.gates[key := Decision(t.gates[key], op).value]))
    case Other(_) => Some(t)
  }

  lemma {:induction false} RunTwo<S, L>(a: Statement<S, L>, b: Statement<S, L>, s: S, l: L)
    ensures Run([a, b], s, l) == if a(s, l).Ran? then OptionOf(b(a(s, l).db, a(s, l).locals)) else None
  {
    assert [a, b][..1] == [a] && [a][..0] == [];
    assert Run([a], s, l) == OptionOf(a(s, l));
  }

  lemma {:induction false} RunThree<S, L>(a: Statement<S, L>, b: Statement<S, L>, c: Statement<S, L>, s: S, l: L)
    ensures Run([a, b, c], s, l)
         == var two := Run([a, b], s, l); if two.None? then None else OptionOf(c(two.value.0, two.value.1))
  {
    assert [a, b, c][..2] == [a, b];
  }

  lemma {:induction false} UnseensChangeNothing(n: nat, t: Tables, l: Locals)
    ensures Run(Unseens(n), t, l) == Some((t, l))
  {
    if n > 0 {
      UnseensChangeNothing(n - 1, t, l);
      assert Unseens(n)[..|Unseens(n)| - 1] == Unseens(n - 1);
    }
  }

  /** Statement by statement, and alone, a client does exactly the one step. */
  lemma {:induction false} AloneIsApplied(hash: Hash, t: Tables, op: Op)
    ensures var r := Alone(Client(hash, op), t);
            if Applied(hash, t, op).None? then r.None? else r.Some? && r.value.0 == Applied(hash, t, op).value
  {
    var l := Locals(op, 0, None, None);
    match op
    case LogAudit(_, _) =>
      var insert := (t: Tables, l: Locals) => Insert(hash, t, l);
      RunTwo(Allocate, ReadPrior, t, l);
      RunThree(Allocate, ReadPrior, insert, t, l);
    case CastVote(_, _, _, _) =>
      RunTwo(LoadGate, WriteGate, t, l);
    case Other(n) =>
      UnseensChangeNothing(n, t, l);
  }

  function ApplyAll(hash: Hash, t: Tables, ops: seq<Op>): Option<Tables> {
    if ops == [] then Some(t)
    else
      var n := |ops| - 1;
      var before := ApplyAll(hash, t, ops[..n]);
      if before.None? then None else Applied(hash, before.value, ops[n])
  }

  function OpsOf(bodies: seq<Body<Tables, Locals>>): (ops: seq<Op>)
    ensures |ops| == |bodies|
  {
    if bodies == [] then [] else OpsOf(bodies[..|bodies| - 1]) + [bodies[|bodies| - 1].start.op]
  }

  /** Every call in the run is one of the clients. */
  ghost predicate OnlyClients(hash: Hash, events: seq<Event<Tables, Locals>>) {
    events == [] ||
      var e := events[|events| - 1];
      OnlyClients(hash, events[..|events| - 1]) && (e.Call? ==> e.body == Client(hash, e.body.start.op))
  }

  /** A step brings no body but that of its call. */
  lemma {:induction false} StepKeepsBodies(w: World<Tables, Locals>, e: Event<Tables, Locals>)
    ensures forall c | c in Next(w, e).callers :: (exists k :: 0 <= k < |w.callers| && w.callers[k].body == c.body) || (e.Call? && c.body == e.body)
  {
    var w' := Next(w, e);
    forall c | c in w'.callers
      ensures (exists k :: 0 <= k < |w.callers| && w.callers[k].body == c.body) || (e.Call? && c.body == e.body)
    {
      var k :| 0 <= k < |w'.callers| && w'.callers[k] == c;
      if k < |w.callers| { assert w.callers[k].body == c.body; }
    }
  }

  lemma {:induction false} CallersAreClients(hash: Hash, db: Tables, events: seq<Event<Tables, Locals>>)
    requires OnlyClients(hash, events)
    ensures forall c | c in Play(db, events).callers :: c.body == Client(hash, c.body.start.op)
    decreases |events|
  {
    if events != [] {
      var n := |events| - 1;
      CallersAreClients(hash, db, events[..n]);
      StepKeepsBodies(Play(db, events[..n]), events[n]);
    }
  }

  lemma {:induction false} CommittedAreClients(hash: Hash, callers: seq<Caller<Tables, Locals>>)
    requires forall c | c in callers :: c.body == Client(hash, c.body.start.op)
    ensures forall b | b in Committed(callers) :: b == Client(hash, b.start.op)
  {
    if callers != [] { CommittedAreClients(hash, callers[..|callers| - 1]); }
  }

  lemma {:induction false} SerialIsApplyAll(hash: Hash, t: Tables, bodies: seq<Body<Tables, Locals>>)
    requires forall b | b in bodies :: b == Client(hash, b.start.op)
    ensures Serial(t, bodies) == ApplyAll(hash, t, OpsOf(bodies))
  {
    if bodies != [] {
      var n := |bodies| - 1;
      SerialIsApplyAll(hash, t, bodies[..n]);
      assert OpsOf(bodies)[..n] == OpsOf(bodies[..n]);
      assert bodies[n] in bodies;
      if Serial(t, bodies[..n]).Some? {
        AloneIsApplied(hash, Serial(t, bodies[..n]).value, bodies[n].start.op);
      }
    }
  }

  /** The operations whose transactions were committed, in call order. */
  function CommittedOps(t: Tables, events: seq<Event<Tables, Locals>>): seq<Op> {
    OpsOf(Committed(Play(t, events).callers))
  }

  /** In every interleaving the committed tables are those of the committed operations, one whole step each. */
  lemma {:induction false} InterleavedAsOneStepEach(hash: Hash, t: Tables, events: seq<Event<Tables, Locals>>)
    requires OnlyClients(hash, events) && Closes(t, events)
    ensures ApplyAll(hash, t, CommittedOps(t, events)) == Some(Play(t, events).db)
  {
    CommittedSerially(t, events);
    CallersAreClients(hash, t, events);
    CommittedAreClients(hash, Play(t, events).callers);
    SerialIsApplyAll(hash, t, Committed(Play(t, events).callers));
  }

  // ------------------------------------------------------------- the audit chain

  ghost predicate LinkedAt(hash: Hash, log: seq<Entry>, i: nat)
    requires i < |log|
  {
    && log[i].sequence == i + 1
    && log[i].prevHash == (if i == 0 then None else Some(log[i - 1].entryHash))
    && log[i].entryHash == HashOf(hash, log[i])
  }

  /** A gapless linked chain from 1, with the next sequence one past its last. */
  ghost predicate Linked(hash: Hash, t: Tables) {
    t.nextSeq == Some(|t.log| + 1) && forall i {:trigger LinkedAt(hash, t.log, i)} | 0 <= i < |t.log| :: LinkedAt(hash, t.log, i)
  }

  lemma {:induction false} LatestIsLast(hash: Hash, log: seq<Entry>)
    requires log != [] && forall i {:trigger LinkedAt(hash, log, i)} | 0 <= i < |log| :: LinkedAt(hash, log, i)
    ensures Latest(log) == Some(log[|log| - 1])
  {
    var n := |log| - 1;
    assert LinkedAt(hash, log, n);
    if n > 0 {
      var before := log[..n];
      forall i {:trigger LinkedAt(hash, before, i)} | 0 <= i < n ensures LinkedAt(hash, before, i) {
        assert LinkedAt(hash, log, i);
      }
      LatestIsLast(hash, before);
      assert LinkedAt(hash, before, n - 1);
    }
  }

  lemma {:induction false} AppliedKeepsLinked(hash: Hash, t: Tables, op: Op)
    requires Linked(hash, t) && Applied(hash, t, op).Some?
    ensures Linked(hash, Applied(hash, t, op).value)
  {
    var t' := Applied(hash, t, op).value;
    if op.LogAudit? {
      if t.log != [] { LatestIsLast(hash, t.log); }
      forall i {:trigger LinkedAt(hash, t'.log, i)} | 0 <= i < |t'.log| ensures LinkedAt(hash, t'.log, i) {
        if i < |t.log| { assert LinkedAt(hash, t.log, i); }
      }
    } else {
      assert t'.log == t.log;
    }
  }

  lemma {:induction false} RefusedIff(log: seq<Entry>, e: Entry)
    ensures Refused(log, e) <==> exists i :: 0 <= i < |log| && (log[i].sequence == e.sequence || log[i].entryHash == e.entryHash)
  {
    if log != [] {
      RefusedIff(log[1..], e);
      if i :| 0 <= i < |log| && (log[i].sequence == e.sequence || log[i].entryHash == e.entryHash) {
        if i > 0 { assert log[1..][i - 1] == log[i]; }
      }
      if i :| 0 <= i < |log[1..]| && (log[1..][i].sequence == e.sequence || log[1..][i].entryHash == e.entryHash) {
        assert log[i + 1] == log[1..][i];
      }
    }
  }

  lemma {:induction false} LatestIsGreatest(log: seq<Entry>)
    requires log != []
    ensures Latest(log).Some? && Latest(log).value in log
    ensures forall i | 0 <= i < |log| :: log[i].sequence <= Latest(log).value.sequence
  {
    var n := |log| - 1;
    if n > 0 {
      LatestIsGreatest(log[..n]);
      forall i | 0 <= i < n ensures log[i].sequence <= Latest(log[..n]).value.sequence { assert log[..n][i] == log[i]; }
    }
  }

  /** The entry carries the call's columns, the hash before it and the hash of its own text. */
  ghost predicate Carries(hash: Hash, e: Entry, log: seq<Entry>, op: Op)
    requires op.LogAudit?
  {
    && e.input == op.input && e.occurredAt == op.occurredAt
    && e.entryHash == HashOf(hash, e)
    && (log == [] ==> e.prevHash == None)
    && (log != [] ==> exists i :: 0 <= i < |log| && e.prevHash == Some(log[i].entryHash)
                                   && forall j | 0 <= j < |log| :: log[j].sequence <= log[i].sequence)
  }

  /**
   * On any tables, linked or not, logAudit throws exactly if the counter is missing or used up or
   * another row has its number or its hash; else it adds one entry under the counter's number,
   * chained to the row with the greatest one.
   */
  lemma {:induction false} LogByFields(hash: Hash, t: Tables, op: Op)
    requires op.LogAudit?
    ensures var after := Applied(hash, t, op);
            && (t.nextSeq == None || t.nextSeq.value >= 2147483647 ==> after == None)
            && (t.nextSeq.Some? && t.nextSeq.value < 2147483647 ==>
                  exists e: Entry ::
                    && e.sequence == t.nextSeq.value && Carries(hash, e, t.log, op)
                    && var taken := exists i :: 0 <= i < |t.log| && (t.log[i].sequence == e.sequence || t.log[i].entryHash == e.entryHash);
                       after == if taken then None else Some(Tables(Some(t.nextSeq.value + 1), t.log + [e], t.gates)))
  {
    if t.nextSeq.Some? && t.nextSeq.value < 2147483647 {
      var latest := Latest(t.log);
      var e := NewEntry(hash, op, t.nextSeq.value, if latest.None? then None else Some(latest.value.entryHash));
      if t.log != [] { LatestIsGreatest(t.log); }
      RefusedIff(t.log, e);
      assert Carries(hash, e, t.log, op);
      assert e.sequence == t.nextSeq.value;
    }
  }

  function LoggedInputs(ops: seq<Op>): seq<(Input, Text)> {
    if ops == [] then []
    else
      var n := |ops| - 1;
      LoggedInputs(ops[..n]) + if ops[n].LogAudit? then [(ops[n].input, ops[n].occurredAt)] else []
  }

  function StoredInputs(log: seq<Entry>): seq<(Input, Text)> {
    if log == [] then []
    else StoredInputs(log[..|log| - 1]) + [(log[|log| - 1].input, log[|log| - 1].occurredAt)]
  }

  lemma {:induction false} AppliedStores(hash: Hash, t: Tables, op: Op)
    requires Applied(hash, t, op).Some?
    ensures StoredInputs(Applied(hash, t, op).value.log)
         == StoredInputs(t.log) + if op.LogAudit? then [(op.input, op.occurredAt)] else []
  {
    if op.LogAudit? {
      var log := Applied(hash, t, op).value.log;
      assert log[..|log| - 1] == t.log;
    }
  }

  lemma {:induction false} ApplyAllKeepsLinked(hash: Hash, t: Tables, ops: seq<Op>)
    requires Linked(hash, t) && t.log == [] && ApplyAll(hash, t, ops).Some?
    ensures var t' := ApplyAll(hash, t, ops).value;
            Linked(hash, t') && StoredInputs(t'.log) == LoggedInputs(ops)
    decreases |ops|
  {
    if ops != [] {
      var n := |ops| - 1;
      ApplyAllKeepsLinked(hash, t, ops[..n]);
      AppliedKeepsLinked(hash, ApplyAll(hash, t, ops[..n]).value, ops[n]);
      AppliedStores(hash, ApplyAll(hash, t, ops[..n]).value, ops[n]);
    }
  }

  /**
   * In every interleaving, with bodies that throw and commits that fail, the committed log is a
   * gapless linked chain, next_seq is one past it, and it holds the committed calls in call order.
   */
  lemma {:induction false} CommittedLogIsChain(hash: Hash, t: Tables, events: seq<Event<Tables, Locals>>)
    requires t.nextSeq == Some(1) && t.log == []
    requires OnlyClients(hash, events) && Closes(t, events)
    ensures var t' := Play(t, events).db;
            Linked(hash, t') && StoredInputs(t'.log) == LoggedInputs(CommittedOps(t, events))
  {
    InterleavedAsOneStepEach(hash, t, events);
    ApplyAllKeepsLinked(hash, t, CommittedOps(t, events));
  }

  /** The row an entry stands for. */
  function RowOf(e: Entry): Row {
    Row(e.sequence, e.occurredAt, e.input.actor, e.input.action, e.input.target, Canonicalize(e.input.details), e.prevHash, e.entryHash)
  }

  /** In every interleaving each hash in the log is that of a text which reads as its own row. */
  lemma {:induction false} CommittedHashesRead(
      hash: Hash, t: Tables, events: seq<Event<Tables, Locals>>, i: nat, round: Number -> Number)
    requires t.nextSeq == Some(1) && t.log == []
    requires OnlyClients(hash, events) && Closes(t, events) && i < |Play(t, events).db.log|
    requires var e := Play(t, events).db.log[i];
             Passable(e.input.details, round) && Whole(e.input.details) && Held(Num(IntNumber(e.sequence)), round)
    ensures var row := RowOf(Play(t, events).db.log[i]);
            exists text :: row.entryHash == hash(text) && ReadsAs(text, row, Play(t, events).db.log[i].input.details, round)
  {
    CommittedLogIsChain(hash, t, events);
    var log := Play(t, events).db.log;
    assert LinkedAt(hash, log, i);
    EntryTextReads(RowOf(log[i]), log[i].input.details, round);
    SameColumnsSameText(log[i]);
  }

  lemma {:induction false} SameColumnsSameText(e: Entry)
    ensures EntryText(RowOf(e), e.input.details)
         == EntryText(Row(e.sequence, e.occurredAt, e.input.actor, e.input.action, e.input.target, [], e.prevHash, []), e.input.details)
  {
    assert EntryValues(RowOf(e), e.input.details)
        == EntryValues(Row(e.sequence, e.occurredAt, e.input.actor, e.input.action, e.input.target, [], e.prevHash, []), e.input.details);
  }

  // ------------------------------------------------------------------- the votes

  /** The votes for a gate that its configuration admits, in call order. */
  function Ballots(key: Key, config: Approval.Config, ops: seq<Op>): seq<Approval.Vote> {
    if ops == [] then []
    else
      var n := |ops| - 1;
      var op := ops[n];
      var before := Ballots(key, config, ops[..n]);
      if op.CastVote? && op.key == key && op.action in config.actions then before + [Ballot(op)] else before
  }

  /** What a gate that was active and empty at first has become. */
  ghost predicate GateTells(gate: Approval.Interrupt, key: Key, config: Approval.Config, ops: seq<Op>) {
    && gate.kind == Approval.ApprovalGate && gate.config == config
    && (gate.Active() ==>
          && gate.votes == Approval.Standing(Ballots(key, config, ops))
          && Accepts(gate.votes) < config.Required() && Approval.Rejects(gate.votes) < config.RejectThreshold())
  }

  lemma {:induction false} GatesStay(hash: Hash, t: Tables, ops: seq<Op>, key: Key)
    requires ApplyAll(hash, t, ops).Some? && key in t.gates
    ensures key in ApplyAll(hash, t, ops).value.gates
    decreases |ops|
  {
    if ops != [] { GatesStay(hash, t, ops[..|ops| - 1], key); }
  }

  ghost predicate FreshGate(t: Tables, key: Key, config: Approval.Config) {
    && key in t.gates && t.gates[key].kind == Approval.ApprovalGate && t.gates[key].Active()
    && t.gates[key].votes == [] && t.gates[key].config == config && config.Required() >= 1
  }

  lemma {:induction false} VoteTells(gate: Approval.Interrupt, key: Key, config: Approval.Config, ops: seq<Op>, op: Op)
    requires GateTells(gate, key, config, ops) && gate.Active() && op.CastVote? && op.key == key
    ensures GateTells(if Decision(gate, op).None? then gate else Decision(gate, op).value, key, config, ops + [op])
  {
    assert (ops + [op])[..|ops|] == ops;
    if op.action in config.actions {
      Approval.CastKeepsStanding(Ballots(key, config, ops), Ballot(op));
    }
  }

  lemma {:induction false} OthersTell(gate: Approval.Interrupt, key: Key, config: Approval.Config, ops: seq<Op>, op: Op)
    requires GateTells(gate, key, config, ops) && (!gate.Active() || !op.CastVote? || op.key != key)
    ensures GateTells(gate, key, config, ops + [op])
  {
    assert (ops + [op])[..|ops|] == ops;
  }

  lemma {:induction false} EveryGateTells(hash: Hash, t: Tables, ops: seq<Op>, key: Key, config: Approval.Config)
    requires FreshGate(t, key, config) && ApplyAll(hash, t, ops).Some?
    ensures key in ApplyAll(hash, t, ops).value.gates
    ensures GateTells(ApplyAll(hash, t, ops).value.gates[key], key, config, ops)
    decreases |ops|
  {
    GatesStay(hash, t, ops, key);
    if ops == [] {
      assert Ballots(key, config, []) == [];
    } else {
      var n := |ops| - 1;
      EveryGateTells(hash, t, ops[..n], key, config);
      var gate, op := ApplyAll(hash, t, ops[..n]).value.gates[key], ops[n];
      assert ops == ops[..n] + [op];
      if gate.Active() && op.CastVote? && op.key == key {
        VoteTells(gate, key, config, ops[..n], op);
      } else {
        OthersTell(gate, key, config, ops[..n], op);
      }
    }
  }

  /**
   * No vote is lost: while a gate is open, in every interleaving its ledger is exactly the
   * standing votes among all those committed for it, and neither threshold is met.
   */
  lemma {:induction false} NoVoteLost(hash: Hash, t: Tables, events: seq<Event<Tables, Locals>>, key: Key, config: Approval.Config)
    requires FreshGate(t, key, config)
    requires OnlyClients(hash, events) && Closes(t, events)
    ensures key in Play(t, events).db.gates
    ensures GateTells(Play(t, events).db.gates[key], key, config, CommittedOps(t, events))
  {
    InterleavedAsOneStepEach(hash, t, events);
    EveryGateTells(hash, t, CommittedOps(t, events), key, config);
  }

  /** The vote that closes a gate is counted with every one before it and meets its threshold exactly. */
  lemma {:induction false} ClosedByExactCount(hash: Hash, t: Tables, ops: seq<Op>, op: Op, key: Key, config: Approval.Config)
    requires FreshGate(t, key, config) && ApplyAll(hash, t, ops + [op]).Some?
    requires ApplyAll(hash, t, ops).Some? && key in ApplyAll(hash, t, ops).value.gates
    requires ApplyAll(hash, t, ops).value.gates[key].Active()
    ensures key in ApplyAll(hash, t, ops + [op]).value.gates
    ensures var gate := ApplyAll(hash, t, ops + [op]).value.gates[key];
            var votes := Approval.Standing(Ballots(key, config, ops + [op]));
            && (gate.outcome == Some("accepted") && !gate.Active() ==>
                  gate.votes == votes && Accepts(votes) == config.Required()
                  && Approval.Rejects(votes) < config.RejectThreshold())
            && (gate.outcome == Some("rejected") && !gate.Active() ==>
                  gate.votes == votes && Approval.Rejects(votes) == config.RejectThreshold()
                  && Accepts(votes) < config.Required())
  {
    EveryGateTells(hash, t, ops, key, config);
    GatesStay(hash, t, ops + [op], key);
    assert (ops + [op])[..|ops|] == ops;
    var before := ApplyAll(hash, t, ops).value.gates[key];
    if op.CastVote? && op.key == key && op.action in config.actions {
      Approval.CastKeepsStanding(Ballots(key, config, ops), Ballot(op));
      CastCounts(before.votes, Ballot(op));
    }
  }

  lemma {:induction false} AcceptsOfConcat(a: seq<Approval.Vote>, b: seq<Approval.Vote>)
    ensures Accepts(a + b) == Accepts(a) + Accepts(b)
  {
    if a == [] {
      assert a + b == b;
    } else {
      AcceptsOfConcat(a[1..], b);
      assert (a + b)[1..] == a[1..] + b;
    }
  }

  lemma {:induction false} DroppingAcceptsLess(votes: seq<Approval.Vote>, voter: Option<string>)
    ensures Accepts(Approval.DropVoter(votes, voter)) <= Accepts(votes)
  {
    if votes != [] {
      DroppingAcceptsLess(votes[1..], voter);
      AcceptsOfConcat([votes[0]], Approval.DropVoter(votes[1..], voter));
    }
  }

  lemma {:induction false} CastCounts(votes: seq<Approval.Vote>, v: Approval.Vote)
    ensures Accepts(Approval.Cast(votes, v)) <= Accepts(votes) + if v.action == "accept" then 1 else 0
    ensures Approval.Rejects(Approval.Cast(votes, v)) <= Approval.Rejects(votes) + if Approval.IsReject(v) then 1 else 0
  {
    DroppingAcceptsLess(votes, v.voter);
    AcceptsOfConcat(if Approval.Named(v) then Approval.DropVoter(votes, v.voter) else votes, [v]);
    Approval.CastCounts(votes, v);
  }

  lemma {:induction false} AcceptTally(cast: seq<Approval.Vote>, k: nat)
    requires k <= |cast|
    ensures Accepts(Approval.StandingFrom(cast, k)) == |Approval.TallyFrom(cast, {"accept"}, k)|
    decreases |cast| - k
  {
    if k < |cast| {
      AcceptTally(cast, k + 1);
      AcceptsOfConcat(if Approval.Stands(cast, k) then [cast[k]] else [], Approval.StandingFrom(cast, k + 1));
      Approval.TallyFirst(cast, {"accept"}, k);
    } else {
      assert Approval.TallyFrom(cast, {"accept"}, k) == {};
    }
  }

  lemma {:induction false} CountsAreTallies(cast: seq<Approval.Vote>)
    ensures Accepts(Approval.Standing(cast)) == Approval.Tally(cast, {"accept"})
    ensures Approval.Rejects(Approval.Standing(cast)) == Approval.Tally(cast, {"reject"})
  {
    AcceptTally(cast, 0);
    assert Approval.TallyFrom(cast, {"accept"}, 0) == set i | 0 <= i < |cast| && Approval.NotReplaced(cast, i) && cast[i].action in {"accept"};
    Approval.CountsAreTallies(cast);
  }

  /**
   * What a vote in time does to an open gate, by its action, the number of approvals asked for and
   * the votes that stand among all committed: plain acceptances only are counted here.
   */
  lemma {:induction false} ClosedByFields(hash: Hash, t: Tables, ops: seq<Op>, op: Op, key: Key, config: Approval.Config, n: int)
    requires FreshGate(t, key, config) && ApplyAll(hash, t, ops).Some? && ApplyAll(hash, t, ops + [op]).Some?
    requires key in ApplyAll(hash, t, ops).value.gates && ApplyAll(hash, t, ops).value.gates[key].Active()
    requires op.CastVote? && op.key == key && op.action in config.actions && Approval.Asks(config, n)
    requires !ApplyAll(hash, t, ops).value.gates[key].Expired(op.now)
    ensures key in ApplyAll(hash, t, ops + [op]).value.gates
    ensures var gate := ApplyAll(hash, t, ops + [op]).value.gates[key];
            var cast := Ballots(key, config, ops) + [Approval.Vote(op.action, op.voter, op.now)];
            var accepts, rejects := Approval.Tally(cast, {"accept"}), Approval.Tally(cast, {"reject"});
            && gate.votes == Approval.Standing(cast)
            && (gate.Active() || gate.resolvedAt == Some(op.now))
            && (!gate.Active() ==> gate.outcome == Some("accepted") || gate.outcome == Some("rejected"))
            && (!gate.Active() && gate.outcome == Some("accepted") <==> op.action == "accept" && accepts == n)
            && (!gate.Active() && gate.outcome == Some("rejected")
                <==> op.action == "reject" && (config.majority ==> 2 * rejects > n))
  {
    ClosedByExactCount(hash, t, ops, op, key, config);
    EveryGateTells(hash, t, ops, key, config);
    assert (ops + [op])[..|ops|] == ops;
    var before, v := ApplyAll(hash, t, ops).value.gates[key], Ballot(op);
    var cast := Ballots(key, config, ops) + [v];
    Approval.CastKeepsStanding(Ballots(key, config, ops), v);
    CountsAreTallies(cast);
    CastCounts(before.votes, v);
    Approval.OwnVoteCounts(Ballots(key, config, ops), v);
  }

  /**
   * What the UPDATE of a vote writes, whatever the row holds by then: a late vote closes it only if
   * it is still open, an open decision writes the votes alone, and nothing else of any row changes.
   */
  lemma {:induction false} UpdateByFields(t: Tables, l: Locals, row: Approval.Interrupt)
    requires l.op.CastVote? && l.loaded == Some(row) && row.Active() && row.kind == Approval.ApprovalGate && l.op.key in t.gates
    ensures var now, held, after := l.op.now, t.gates[l.op.key], WriteGate(t, l);
            var late := row.expiresAt.Some? && row.expiresAt.value <= now;
            var votes := Approval.Cast(row.votes, Approval.Vote(l.op.action, l.op.voter, now));
            && after.Ran? && after.locals == l
            && (late ==> after.db == t.(gates := t.gates[l.op.key :=
                  if held.resolvedAt.None? then held.(resolvedAt := Some(now), outcome := Some("expired")) else held]))
            && (!late && l.op.action !in row.config.actions ==> after.db == t)
            && (!late && l.op.action in row.config.actions ==>
                  after.db.gates.Keys == t.gates.Keys
                  && var left := after.db.gates[l.op.key];
                     && after.db == t.(gates := t.gates[l.op.key := left])
                     && (left == held.(votes := votes)
                         || left == held.(votes := votes, resolvedAt := Some(now), outcome := Some("accepted"))
                         || left == held.(votes := votes, resolvedAt := Some(now), outcome := Some("rejected"))))
  {
    assert t.gates[l.op.key := t.gates[l.op.key]] == t.gates;
  }

  /** A vote for a row that is closed, missing or no approval, or with an action it does not offer, changes nothing; a late one expires it. */
  lemma {:induction false} OtherVotes(hash: Hash, t: Tables, op: Op)
    requires op.CastVote?
    ensures var open := op.key in t.gates && t.gates[op.key].resolvedAt.None? && t.gates[op.key].kind == Approval.ApprovalGate;
            var late := open && t.gates[op.key].expiresAt.Some? && t.gates[op.key].expiresAt.value <= op.now;
            && (!open || (!late && op.action !in t.gates[op.key].config.actions) ==> Applied(hash, t, op) == Some(t))
            && (late ==> Applied(hash, t, op) == Some(t.(gates :=
                  t.gates[op.key := t.gates[op.key].(resolvedAt := Some(op.now), outcome := Some("expired"))])))
  {}

  /** Once closed, a gate is left as it is by every later operation. */
  lemma {:induction false} ClosedStaysClosed(hash: Hash, t: Tables, op: Op, key: Key)
    requires key in t.gates && !t.gates[key].Active() && Applied(hash, t, op).Some?
    ensures key in Applied(hash, t, op).value.gates && Applied(hash, t, op).value.gates[key] == t.gates[key]
  {}

  /**
   * What the lock is for: two voters whose statements interleave without it both read the
   * same ledger, and the first vote is gone.
   */
  lemma {:induction false} WithoutTheLockAVoteIsLost(t: Tables, key: Key, config: Approval.Config, now: int)
    requires FreshGate(t, key, config) && config.Required() >= 3 && "accept" in config.actions
    requires t.gates[key].expiresAt.None?
    ensures var a := Locals(CastVote(key, "accept", Some("ann"), now), 0, None, None);
            var b := Locals(CastVote(key, "accept", Some("bob"), now), 0, None, None);
            var readA := LoadGate(t, a);
            var readB := LoadGate(readA.db, b);
            var wroteA := WriteGate(readB.db, readA.locals);
            var wroteB := WriteGate(wroteA.db, readB.locals);
            wroteB.db.gates[key].Active() && wroteB.db.gates[key].votes == [Approval.Vote("accept", Some("bob"), now)]
  {
    var va, vb := Approval.Vote("accept", Some("ann"), now), Approval.Vote("accept", Some("bob"), now);
    assert Approval.Cast([], va) == [va] && Approval.Cast([], vb) == [vb];
    assert Accepts([va]) == 1 && Accepts([vb]) == 1;
    assert Approval.Rejects([va]) == 0 && Approval.Rejects([vb]) == 0;
  }
}
