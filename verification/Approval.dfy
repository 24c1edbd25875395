/**
 * Approval gates (examples/hosts/sqlite/src/interrupts.ts): a ledger of votes in
 * which a named voter's latest vote stands, two thresholds, and refine, which
 * closes the ledger and lets the gate be suspended afresh.
 */
module Approval {
  import opened Wrappers

  datatype Kind = ApprovalGate | ClarificationGate | ExternalEvent

  datatype Vote = Vote(action: string, voter: Option<string>, timestamp: int)

  /** ApprovalConfig with the defaults of resolveApproval filled in. */
  datatype Config = Config(actions: seq<string>, requiredApprovals: Option<int>, majority: bool)
  {
    function Required(): int {
      if requiredApprovals.Some? then requiredApprovals.value else 1
    }

    function RejectThreshold(): int {
      if majority then Required() / 2 + 1 else 1
    }
  }

  /** A row of table interrupts. */
  datatype Interrupt = Interrupt(
    kind: Kind,
    config: Config,
    votes: seq<Vote>,
    resolvedAt: Option<int>,
    outcome: Option<string>,
    expiresAt: Option<int>)
  {
    predicate Active() { resolvedAt.None? }
    predicate Expired(now: int) { expiresAt.Some? && expiresAt.value <= now }
  }

  /** What a resolve request carries; a field of the wrong type counts as absent. */
  datatype Request =
    | NotAnObject
    | Fields(action: Option<string>, voter: Option<string>, feedbackOk: bool, hasEdit: bool)

  datatype ResolveOutcome =
    | Unknown
    | Expired
    | Invalid
    | Pending(votes: seq<Vote>)
    | Resumed(votes: seq<Vote>, finalAction: string)
    | Rejected(votes: seq<Vote>)
    | Refined(votes: seq<Vote>)

  // ------------------------------------------------------------------ the ledger

  /** A voter id counts as one unless it is missing or empty. */
  predicate Named(v: Vote) { v.voter.Some? && v.voter.value != "" }

  function DropVoter(votes: seq<Vote>, voter: Option<string>): seq<Vote> {
    if votes == [] then []
    else if votes[0].voter == voter then DropVoter(votes[1..], voter)
    else [votes[0]] + DropVoter(votes[1..], voter)
  }

  /** The ledger after one more vote: a named voter's earlier vote is replaced. */
  function Cast(votes: seq<Vote>, v: Vote): seq<Vote> {
    (if Named(v) then DropVoter(votes, v.voter) else votes) + [v]
  }

  predicate IsAccept(v: Vote) { v.action == "accept" || v.action == "edit-accept" }
  predicate IsReject(v: Vote) { v.action == "reject" }

  function Accepts(votes: seq<Vote>): nat {
    if votes == [] then 0 else (if IsAccept(votes[0]) then 1 else 0) + Accepts(votes[1..])
  }

  function Rejects(votes: seq<Vote>): nat {
    if votes == [] then 0 else (if IsReject(votes[0]) then 1 else 0) + Rejects(votes[1..])
  }

  /** The payload checks of resolveApproval, in its order. */
  predicate Acceptable(config: Config, request: Request) {
    && request.Fields?
    && request.action.Some? && request.action.value in config.actions
    && (request.action.value == "refine" ==> request.feedbackOk)
    && (request.action.value == "edit-accept" ==> request.hasEdit)
  }

  function NewVote(request: Request, now: int): Vote
    requires request.Fields? && request.action.Some?
  {
    Vote(request.action.value, request.voter, now)
  }

  /** What an acceptable vote does to an active ledger. */
  function Decide(config: Config, votes: seq<Vote>, v: Vote): ResolveOutcome {
    var updated := Cast(votes, v);
    if v.action == "refine" then Refined(updated)
    else if Accepts(updated) >= config.Required() then
      Resumed(updated, if v.action == "edit-accept" then v.action else "accept")
    else if Rejects(updated) >= config.RejectThreshold() then Rejected(updated)
    else Pending(updated)
  }

  function Settled(row: Interrupt, outcome: string, votes: seq<Vote>, now: int): Interrupt {
    row.(votes := votes, resolvedAt := Some(now), outcome := Some(outcome))
  }

  /** resolveApproval on the row at hand: the answer and the row it leaves. */
  function Resolve(row: Interrupt, request: Request, now: int): (ResolveOutcome, Interrupt) {
    if !row.Active() || row.kind != ApprovalGate then (Unknown, row)
    else if row.Expired(now) then (Expired, row.(resolvedAt := Some(now), outcome := Some("expired")))
    else if !Acceptable(row.config, request) then (Invalid, row)
    else
      var o := Decide(row.config, row.votes, NewVote(request, now));
      match o
      case Refined(votes) => (o, Settled(row, "refined", votes, now))
      case Resumed(votes, _) => (o, Settled(row, "accepted", votes, now))
      case Rejected(votes) => (o, Settled(row, "rejected", votes, now))
      case Pending(votes) => (o, row.(votes := votes))
      case _ => (o, row)
  }

  /** createInterrupt: a resolved row is replaced, an active one is left alone. */
  function Suspended(row: Option<Interrupt>, kind: Kind, config: Config, expiresAt: Option<int>): Interrupt {
    if row.Some? && row.value.Active() then row.value
    else Interrupt(kind, config, [], None, None, expiresAt)
  }

  function Invalidated(row: Interrupt, reason: string, now: int): Interrupt {
    if row.Active() then row.(resolvedAt := Some(now), outcome := Some("invalidated:" + reason)) else row
  }

  /** The interrupts table, keyed by run and node. */
  class Interrupts {
    var table: map<(string, string), Interrupt>

    constructor ()
      ensures table == map[]
    {
      table := map[];
    }

    function Row(key: (string, string)): Option<Interrupt>
      reads this
    {
      if key in table then Some(table[key]) else None
    }

    /** timeoutMs is honoured for external events only. */
    method CreateInterrupt(key: (string, string), kind: Kind, config: Config, timeoutMs: Option<int>, now: int)
      modifies this
      ensures table == old(table)[key := Suspended(old(Row(key)), kind, config,
                if kind == ExternalEvent && timeoutMs.Some? && timeoutMs.value > 0 then Some(now + timeoutMs.value) else None)]
    {
      var expiresAt := None;
      if kind == ExternalEvent && timeoutMs.Some? && timeoutMs.value > 0 {
        expiresAt := Some(now + timeoutMs.value);
      }
      if key !in table || !table[key].Active() {
        table := table[key := Interrupt(kind, config, [], None, None, expiresAt)];
      } else {
        assert table == table[key := table[key]];
      }
    }

    method MarkResolved(key: (string, string), outcome: string, votes: seq<Vote>, now: int)
      modifies this
      ensures table == if key in old(table) then old(table)[key := Settled(old(table[key]), outcome, votes, now)] else old(table)
    {
      if key in table {
        table := table[key := table[key].(resolvedAt := Some(now), outcome := Some(outcome), votes := votes)];
      }
    }

    method UpdateVotes(key: (string, string), votes: seq<Vote>)
      modifies this
      ensures table == if key in old(table) then old(table)[key := old(table[key]).(votes := votes)] else old(table)
    {
      if key in table { table := table[key := table[key].(votes := votes)]; }
    }

    method ResolveApproval(key: (string, string), request: Request, now: int) returns (r: ResolveOutcome)
      modifies this
      ensures key !in old(table) ==> r == Unknown && table == old(table)
      ensures key in old(table) ==> r == Resolve(old(table[key]), request, now).0
      ensures key in old(table) ==> table == old(table)[key := Resolve(old(table[key]), request, now).1]
    {
      if key !in table || !table[key].Active() || table[key].kind != ApprovalGate { return Unknown; }
      var row := table[key];
      if row.Expired(now) {
        table := table[key := row.(resolvedAt := Some(now), outcome := Some("expired"))];
        return Expired;
      }
      if request.NotAnObject? { return Invalid; }
      if request.action.None? || request.action.value !in row.config.actions { return Invalid; }
      var action := request.action.value;
      if action == "refine" && !request.feedbackOk { return Invalid; }
      if action == "edit-accept" && !request.hasEdit { return Invalid; }
      var vote := Vote(action, request.voter, now);
      var updated := if Named(vote) then DropVoter(row.votes, vote.voter) + [vote] else row.votes + [vote];
      if action == "refine" {
        MarkResolved(key, "refined", updated, now);
        return Refined(updated);
      }
      var required := row.config.Required();
      if Accepts(updated) >= required {
        MarkResolved(key, "accepted", updated, now);
        return if action == "edit-accept" then Resumed(updated, action) else Resumed(updated, "accept");
      }
      if Rejects(updated) >= row.config.RejectThreshold() {
        MarkResolved(key, "rejected", updated, now);
        return Rejected(updated);
      }
      UpdateVotes(key, updated);
      r := Pending(updated);
    }

    method InvalidateInterrupts(run: string, reason: string, now: int)
      modifies this
      ensures table == map k | k in old(table) ::
                if k.0 == run then Invalidated(old(table[k]), reason, now) else old(table[k])
    {
      table := map k | k in table :: if k.0 == run then Invalidated(table[k], reason, now) else table[k];
    }
  }

  // --------------------------------------------- the ledger, from all votes cast

  /** No later vote by the same named voter. */
  predicate Stands(cast: seq<Vote>, i: nat)
    requires i < |cast|
  {
    Named(cast[i]) ==> forall j | i < j < |cast| :: cast[j].voter != cast[i].voter
  }

  /** Every vote that stands, in the order cast: the ledger with no bookkeeping. */
  ghost function Standing(cast: seq<Vote>): seq<Vote> {
    StandingFrom(cast, 0)
  }

  ghost function StandingFrom(cast: seq<Vote>, i: nat): seq<Vote>
    requires i <= |cast|
    decreases |cast| - i
  {
    if i == |cast| then []
    else (if Stands(cast, i) then [cast[i]] else []) + StandingFrom(cast, i + 1)
  }

  lemma {:induction false} Assoc(a: seq<Vote>, b: seq<Vote>, c: seq<Vote>)
    ensures a + (b + c) == (a + b) + c
  {}

  lemma {:induction false} DropVoterOfCons(v: Vote, rest: seq<Vote>, voter: Option<string>)
    ensures DropVoter([v] + rest, voter) == if v.voter == voter then DropVoter(rest, voter) else [v] + DropVoter(rest, voter)
  {
    assert ([v] + rest)[1..] == rest;
  }

  lemma {:induction false} DropVoterOfConcat(a: seq<Vote>, b: seq<Vote>, voter: Option<string>)
    ensures DropVoter(a + b, voter) == DropVoter(a, voter) + DropVoter(b, voter)
  {
    if a == [] {
      assert a + b == b;
    } else {
      var rest := a[1..];
      DropVoterOfConcat(rest, b, voter);
      assert a + b == [a[0]] + (rest + b) by { assert a == [a[0]] + rest; }
      DropVoterOfCons(a[0], rest + b, voter);
      Assoc([a[0]], DropVoter(rest, voter), DropVoter(b, voter));
    }
  }

  lemma {:induction false} StandsAfterOneMore(cast: seq<Vote>, v: Vote, i: nat)
    requires i < |cast|
    ensures Stands(cast + [v], i) <==> Stands(cast, i) && !(Named(v) && cast[i].voter == v.voter)
  {
    var all := cast + [v];
    if Stands(all, i) && Named(cast[i]) {
      assert all[|cast|] == v;
      forall j | i < j < |cast| ensures cast[j].voter != cast[i].voter { assert all[j] == cast[j]; }
    }
  }

  /** Casting one vote at a time keeps exactly the votes that stand. */
  lemma {:induction false} CastKeepsStanding(cast: seq<Vote>, v: Vote)
    ensures Standing(cast + [v]) == Cast(Standing(cast), v)
  {
    StandingOneMore(cast, v, 0);
  }

  lemma {:induction false} StandingOneMore(cast: seq<Vote>, v: Vote, i: nat)
    requires i <= |cast|
    ensures StandingFrom(cast + [v], i) == Cast(StandingFrom(cast, i), v)
    decreases |cast| - i
  {
    var all := cast + [v];
    if i == |cast| {
      assert StandingFrom(all, i + 1) == [];
    } else {
      StandingOneMore(cast, v, i + 1);
      StandsAfterOneMore(cast, v, i);
      var here := if Stands(cast, i) then [cast[i]] else [];
      if Named(v) {
        DropVoterOfConcat(here, StandingFrom(cast, i + 1), v.voter);
        assert DropVoter([cast[i]], v.voter) == if cast[i].voter == v.voter then [] else [cast[i]];
      }
    }
  }

  /** A vote of the ledger, and where it was cast: no named voter's later vote came after it. */
  ghost predicate LatestOf(cast: seq<Vote>, k: nat, v: Vote) {
    k < |cast| && cast[k] == v && Stands(cast, k)
  }

  /** No two entries share a named voter. */
  ghost predicate OneEach(votes: seq<Vote>) {
    forall i, j | 0 <= i < j < |votes| && Named(votes[i]) :: votes[i].voter != votes[j].voter
  }

  /** The standing votes from i on: no named voter twice, and each its voter's latest. */
  lemma {:induction false} StandingFromOneEach(cast: seq<Vote>, i: nat)
    requires i <= |cast|
    ensures OneEach(StandingFrom(cast, i))
    ensures forall v | v in StandingFrom(cast, i) :: exists k :: i <= k && LatestOf(cast, k, v)
    decreases |cast| - i
  {
    if i < |cast| {
      StandingFromOneEach(cast, i + 1);
      var rest := StandingFrom(cast, i + 1);
      if Stands(cast, i) {
        assert LatestOf(cast, i, cast[i]);
        if Named(cast[i]) {
          forall v | v in rest ensures v.voter != cast[i].voter {
            var k :| i + 1 <= k && LatestOf(cast, k, v);
          }
        }
      }
    }
  }

  lemma {:induction false} CountsOfConcat(a: seq<Vote>, b: seq<Vote>)
    ensures Accepts(a + b) == Accepts(a) + Accepts(b) && Rejects(a + b) == Rejects(a) + Rejects(b)
  {
    if a == [] {
      assert a + b == b;
    } else {
      CountsOfConcat(a[1..], b);
      assert (a + b)[1..] == a[1..] + b;
    }
  }

  lemma {:induction false} DropVoterCountsLess(votes: seq<Vote>, voter: Option<string>)
    ensures Accepts(DropVoter(votes, voter)) <= Accepts(votes) && Rejects(DropVoter(votes, voter)) <= Rejects(votes)
  {
    if votes != [] {
      DropVoterCountsLess(votes[1..], voter);
      CountsOfConcat([votes[0]], DropVoter(votes[1..], voter));
    }
  }

  /** One vote raises at most one of the two counts, and only the one it belongs to. */
  lemma {:induction false} CastCounts(votes: seq<Vote>, v: Vote)
    ensures Accepts(Cast(votes, v)) <= Accepts(votes) + if IsAccept(v) then 1 else 0
    ensures Rejects(Cast(votes, v)) <= Rejects(votes) + if IsReject(v) then 1 else 0
  {
    var kept := if Named(v) then DropVoter(votes, v.voter) else votes;
    DropVoterCountsLess(votes, v.voter);
    CountsOfConcat(kept, [v]);
  }

  // ------------------------------------------------------------------- histories

  /** What can happen to one gate: it is reached, someone resolves, the run is cancelled. */
  datatype Event =
    | Reached(config: Config)
    | Requested(request: Request, now: int)
    | Cancelled(reason: string, now: int)

  /** The gate's row, and the votes counted since it was last suspended afresh. */
  datatype Gate = Gate(row: Option<Interrupt>, cast: seq<Vote>)

  predicate Counts(row: Option<Interrupt>, request: Request, now: int) {
    && row.Some? && row.value.Active() && row.value.kind == ApprovalGate
    && !row.value.Expired(now) && Acceptable(row.value.config, request)
  }

  function After(g: Gate, e: Event): Gate {
    match e
    case Reached(config) =>
      Gate(Some(Suspended(g.row, ApprovalGate, config, None)), if g.row.Some? && g.row.value.Active() then g.cast else [])
    case Requested(request, now) =>
      if g.row.None? then g
      else Gate(Some(Resolve(g.row.value, request, now).1),
                if Counts(g.row, request, now) then g.cast + [NewVote(request, now)] else g.cast)
    case Cancelled(reason, now) =>
      if g.row.None? then g else g.(row := Some(Invalidated(g.row.value, reason, now)))
  }

  function Replay(history: seq<Event>): Gate {
    if history == [] then Gate(None, [])
    else After(Replay(history[..|history| - 1]), history[|history| - 1])
  }

  function Answer(g: Gate, request: Request, now: int): ResolveOutcome {
    if g.row.None? then Unknown else Resolve(g.row.value, request, now).0
  }

  /** Neither threshold is met by the votes that stand. */
  ghost predicate Undecided(config: Config, cast: seq<Vote>) {
    Accepts(Standing(cast)) < config.Required() && Rejects(Standing(cast)) < config.RejectThreshold()
  }

  /** At no point of the counting so far was a threshold met. */
  ghost predicate NeverDecided(config: Config, cast: seq<Vote>) {
    forall n {:trigger cast[..n]} | 0 <= n <= |cast| :: Undecided(config, cast[..n])
  }

  ghost predicate GateInvariant(g: Gate) {
    g.row.Some? ==>
      && g.row.value.kind == ApprovalGate && g.row.value.expiresAt.None?
      && g.row.value.config.Required() >= 1
      && (g.row.value.Active() ==> g.row.value.votes == Standing(g.cast) && NeverDecided(g.row.value.config, g.cast))
  }

  lemma {:induction false} NothingCastUndecided(config: Config)
    requires config.Required() >= 1
    ensures NeverDecided(config, []) && Standing([]) == []
  {
    var none: seq<Vote> := [];
    assert Standing(none) == [];
    forall n {:trigger none[..n]} | 0 <= n <= |none| ensures Undecided(config, none[..n]) {
      assert none[..n] == none;
    }
  }

  lemma {:induction false} NeverDecidedOneMore(config: Config, cast: seq<Vote>, v: Vote)
    requires NeverDecided(config, cast) && Undecided(config, cast + [v])
    ensures NeverDecided(config, cast + [v])
  {
    var all := cast + [v];
    forall n | 0 <= n <= |all| ensures Undecided(config, all[..n]) {
      if n <= |cast| { assert all[..n] == cast[..n]; } else { assert all[..n] == all; }
    }
  }

  lemma {:induction false} RequestKeepsInvariant(g: Gate, request: Request, now: int)
    requires GateInvariant(g)
    ensures GateInvariant(After(g, Requested(request, now)))
  {
    if Counts(g.row, request, now) {
      var v := NewVote(request, now);
      CastKeepsStanding(g.cast, v);
      if Answer(g, request, now).Pending? {
        NeverDecidedOneMore(g.row.value.config, g.cast, v);
      }
    }
  }

  lemma {:induction false} AfterKeepsInvariant(g: Gate, e: Event)
    requires GateInvariant(g) && (e.Reached? ==> e.config.Required() >= 1)
    ensures GateInvariant(After(g, e))
  {
    match e {
      case Reached(config) => NothingCastUndecided(config);
      case Requested(request, now) => RequestKeepsInvariant(g, request, now);
      case Cancelled(_, _) =>
    }
  }

  /** The invariant holds along every history of gates that require at least one approval. */
  lemma {:induction false} HistoryKeepsInvariant(history: seq<Event>)
    requires forall e | e in history && e.Reached? :: e.config.Required() >= 1
    ensures GateInvariant(Replay(history))
    decreases |history|
  {
    if history != [] {
      var n := |history| - 1;
      HistoryKeepsInvariant(history[..n]);
      AfterKeepsInvariant(Replay(history[..n]), history[n]);
    }
  }

  /**
   * The quorum theorem. After any history, the answer to a counted request is fixed by the
   * votes that stand: the gate is released with exactly the required approvals, terminated
   * with exactly the threshold of rejections, and the deciding vote is of the kind reported.
   */
  lemma {:induction false} QuorumOverAllHistories(history: seq<Event>, request: Request, now: int)
    requires forall e | e in history && e.Reached? :: e.config.Required() >= 1
    requires Counts(Replay(history).row, request, now)
    ensures var g := Replay(history);
            var config := g.row.value.config;
            var v := NewVote(request, now);
            var votes := Standing(g.cast + [v]);
            && NeverDecided(config, g.cast)
            && (v.action == "refine" ==> Answer(g, request, now) == Refined(votes))
            && (v.action != "refine" ==>
                  && (Answer(g, request, now).Resumed? <==> Accepts(votes) >= config.Required())
                  && (Answer(g, request, now).Rejected? <==> Rejects(votes) >= config.RejectThreshold())
                  && (Answer(g, request, now).Pending? <==> Undecided(config, g.cast + [v])))
            && (Answer(g, request, now).Resumed? ==>
                  && Answer(g, request, now) == Resumed(votes, v.action) && IsAccept(v)
                  && Accepts(votes) == config.Required() && Rejects(votes) < config.RejectThreshold())
            && (Answer(g, request, now).Rejected? ==>
                  && Answer(g, request, now) == Rejected(votes) && IsReject(v)
                  && Rejects(votes) == config.RejectThreshold() && Accepts(votes) < config.Required())
  {
    HistoryKeepsInvariant(history);
    var g := Replay(history);
    var config, v := g.row.value.config, NewVote(request, now);
    CastKeepsStanding(g.cast, v);
    CastCounts(Standing(g.cast), v);
    assert g.cast[..|g.cast|] == g.cast;
    assert Undecided(config, g.cast);
  }

  // ------------------------------------------- the same, in the fields of a request

  /** No voter is given, or an empty one, or the same voter casts none later. */
  predicate NotReplaced(cast: seq<Vote>, i: nat)
    requires i < |cast|
  {
    cast[i].voter == None || cast[i].voter == Some("") || forall j | i < j < |cast| :: cast[j].voter != cast[i].voter
  }

  /** How many of the votes cast are not replaced and carry one of the actions. */
  ghost function Tally(cast: seq<Vote>, actions: set<string>): nat {
    |set i | 0 <= i < |cast| && NotReplaced(cast, i) && cast[i].action in actions|
  }

  ghost function TallyFrom(cast: seq<Vote>, actions: set<string>, k: nat): set<int> {
    set i | k <= i < |cast| && NotReplaced(cast, i) && cast[i].action in actions
  }

  lemma {:induction false} AcceptTally(cast: seq<Vote>, k: nat)
    requires k <= |cast|
    ensures Accepts(StandingFrom(cast, k)) == |TallyFrom(cast, {"accept", "edit-accept"}, k)|
    decreases |cast| - k
  {
    if k < |cast| {
      AcceptTally(cast, k + 1);
      CountsOfConcat(if Stands(cast, k) then [cast[k]] else [], StandingFrom(cast, k + 1));
      TallyFirst(cast, {"accept", "edit-accept"}, k);
    } else {
      assert TallyFrom(cast, {"accept", "edit-accept"}, k) == {};
    }
  }

  lemma {:induction false} RejectTally(cast: seq<Vote>, k: nat)
    requires k <= |cast|
    ensures Rejects(StandingFrom(cast, k)) == |TallyFrom(cast, {"reject"}, k)|
    decreases |cast| - k
  {
    if k < |cast| {
      RejectTally(cast, k + 1);
      CountsOfConcat(if Stands(cast, k) then [cast[k]] else [], StandingFrom(cast, k + 1));
      TallyFirst(cast, {"reject"}, k);
    } else {
      assert TallyFrom(cast, {"reject"}, k) == {};
    }
  }

  lemma {:induction false} TallyFirst(cast: seq<Vote>, actions: set<string>, k: nat)
    requires k < |cast|
    ensures |TallyFrom(cast, actions, k)|
         == |TallyFrom(cast, actions, k + 1)| + if NotReplaced(cast, k) && cast[k].action in actions then 1 else 0
  {
    var here := if NotReplaced(cast, k) && cast[k].action in actions then {k} else {};
    assert TallyFrom(cast, actions, k) == TallyFrom(cast, actions, k + 1) + here;
  }

  lemma {:induction false} CountsAreTallies(cast: seq<Vote>)
    ensures Accepts(Standing(cast)) == Tally(cast, {"accept", "edit-accept"})
    ensures Rejects(Standing(cast)) == Tally(cast, {"reject"})
  {
    AcceptTally(cast, 0);
    RejectTally(cast, 0);
    assert TallyFrom(cast, {"accept", "edit-accept"}, 0) == set i | 0 <= i < |cast| && NotReplaced(cast, i) && cast[i].action in {"accept", "edit-accept"};
    assert TallyFrom(cast, {"reject"}, 0) == set i | 0 <= i < |cast| && NotReplaced(cast, i) && cast[i].action in {"reject"};
  }

  /** How many approvals are asked for: what is configured, or one. */
  predicate Asks(config: Config, n: int) {
    match config.requiredApprovals
    case Some(configured) => n == configured
    case None => n == 1
  }

  /**
   * The answer to a counted vote after any history, by its action, the number of approvals asked
   * for, and the votes that stand. It resumes exactly if it accepts and is the last acceptance asked
   * for. Where the first rejection decides, it rejects exactly if it is one; where a majority does,
   * exactly if it is one and twice the standing rejections exceeds the number asked for.
   */
  lemma {:induction false} DecidedByFields(history: seq<Event>, request: Request, now: int, n: int)
    requires forall e | e in history && e.Reached? :: e.config.requiredApprovals.Some? ==> e.config.requiredApprovals.value >= 1
    requires Counts(Replay(history).row, request, now) && Asks(Replay(history).row.value.config, n)
    ensures var g, action := Replay(history), request.action.value;
            var cast := g.cast + [Vote(action, request.voter, now)];
            var accepts, rejects := Tally(cast, {"accept", "edit-accept"}), Tally(cast, {"reject"});
            var answer := Answer(g, request, now);
            && (answer.Refined? <==> action == "refine")
            && (answer.Resumed? <==> (action == "accept" || action == "edit-accept") && accepts == n)
            && (n == 1 && (action == "accept" || action == "edit-accept") ==> answer.Resumed?)
            && (!g.row.value.config.majority ==> (answer.Rejected? <==> action == "reject"))
            && (g.row.value.config.majority ==> (answer.Rejected? <==> action == "reject" && 2 * rejects > n))
            && (answer.Pending? <==> action != "refine" && accepts < n
                                     && (action == "reject" ==> g.row.value.config.majority && 2 * rejects <= n))
  {
    forall e | e in history && e.Reached? ensures e.config.Required() >= 1 {}
    var g := Replay(history);
    QuorumOverAllHistories(history, request, now);
    HistoryKeepsInvariant(history);
    var v := NewVote(request, now);
    CountsAreTallies(g.cast + [v]);
    CountsAreTallies(g.cast);
    CastKeepsStanding(g.cast, v);
    CastCounts(Standing(g.cast), v);
    OwnVoteCounts(g.cast, v);
    assert g.cast[..|g.cast|] == g.cast;
    assert Undecided(g.row.value.config, g.cast);
  }

  /** A vote just cast stands. */
  lemma {:induction false} OwnVoteCounts(cast: seq<Vote>, v: Vote)
    ensures IsAccept(v) ==> Accepts(Standing(cast + [v])) >= 1
    ensures IsReject(v) ==> Rejects(Standing(cast + [v])) >= 1
  {
    CastKeepsStanding(cast, v);
    var kept := if Named(v) then DropVoter(Standing(cast), v.voter) else Standing(cast);
    CountsOfConcat(kept, [v]);
    assert [v][1..] == [];
  }

  /** Which requests are not counted at an active gate in time, by their fields; they leave it as it is. */
  lemma {:induction false} InvalidByFields(g: Gate, request: Request, now: int)
    requires g.row.Some? && g.row.value.Active() && g.row.value.kind == ApprovalGate
    requires g.row.value.expiresAt.None? || now < g.row.value.expiresAt.value
    ensures Answer(g, request, now).Invalid?
       <==> match request
            case NotAnObject => true
            case Fields(action, _, feedbackOk, hasEdit) =>
              action.None? || action.value !in g.row.value.config.actions
              || (action.value == "refine" && !feedbackOk) || (action.value == "edit-accept" && !hasEdit)
    ensures Answer(g, request, now).Invalid? <==> !Counts(g.row, request, now)
    ensures Answer(g, request, now).Invalid? ==> After(g, Requested(request, now)) == g
  {}

  /** Which requests find nothing to resolve, and which come too late. */
  lemma {:induction false} UnknownOrLate(g: Gate, request: Request, now: int)
    ensures var open := g.row.Some? && g.row.value.resolvedAt.None? && g.row.value.kind == ApprovalGate;
            && (Answer(g, request, now) == Unknown <==> !open)
            && (Answer(g, request, now) == Expired <==> open && g.row.value.expiresAt.Some? && g.row.value.expiresAt.value <= now)
  {}

  /** What each answer leaves in the row. */
  lemma {:induction false} RowByAnswer(g: Gate, request: Request, now: int)
    requires g.row.Some?
    ensures var before, after := g.row.value, After(g, Requested(request, now)).row.value;
            match Answer(g, request, now)
            case Expired => after == before.(resolvedAt := Some(now), outcome := Some("expired"))
                            && before.Active() && before.expiresAt.Some? && before.expiresAt.value <= now
            case Pending(votes) => after == before.(votes := votes)
            case Resumed(votes, _) => after == before.(votes := votes, resolvedAt := Some(now), outcome := Some("accepted"))
            case Rejected(votes) => after == before.(votes := votes, resolvedAt := Some(now), outcome := Some("rejected"))
            case Refined(votes) => after == before.(votes := votes, resolvedAt := Some(now), outcome := Some("refined"))
            case _ => after == before
    ensures Counts(g.row, request, now) ==>
              After(g, Requested(request, now)).row.value.votes == Cast(g.row.value.votes, Vote(request.action.value, request.voter, now))
  {}

  /** A cancelled run closes its active gate with the reason, and leaves a settled one. */
  lemma {:induction false} RowByCancel(g: Gate, reason: string, now: int)
    requires g.row.Some?
    ensures var before, after := g.row.value, After(g, Cancelled(reason, now)).row.value;
            after == if before.resolvedAt.Some? then before
                     else before.(resolvedAt := Some(now), outcome := Some("invalidated:" + reason))
  {}

  /** Where no approval is asked for every counted vote but a refine resumes. */
  lemma {:induction false} NoneAskedResumes(g: Gate, request: Request, now: int)
    requires Counts(g.row, request, now) && request.action.value != "refine"
    requires g.row.value.config.requiredApprovals.Some? && g.row.value.config.requiredApprovals.value <= 0
    ensures Answer(g, request, now).Resumed?
  {}

  /** A pending ledger holds fewer than both thresholds together. */
  lemma {:induction false} PendingLedgerBounded(history: seq<Event>)
    requires forall e | e in history && e.Reached? :: e.config.Required() >= 1
    requires Replay(history).row.Some? && Replay(history).row.value.Active()
    ensures var row := Replay(history).row.value;
            Accepts(row.votes) + Rejects(row.votes) <= (row.config.Required() - 1) + (row.config.RejectThreshold() - 1)
  {
    HistoryKeepsInvariant(history);
    var g := Replay(history);
    assert g.cast[..|g.cast|] == g.cast;
  }

  /** A settled gate answers unknown and stays as it is until it is reached again. */
  lemma {:induction false} SettledStaysSettled(g: Gate, e: Event)
    requires g.row.Some? && !g.row.value.Active() && !e.Reached?
    ensures After(g, e).row == g.row
    ensures e.Requested? ==> Answer(g, e.request, e.now) == Unknown
  {}

  /** The ledger is the votes that stand among those cast. */
  ghost predicate LedgerStands(g: Gate) {
    g.row.Some? ==> g.row.value.votes == Standing(g.cast)
  }

  lemma {:induction false} RequestKeepsLedger(g: Gate, request: Request, now: int)
    requires LedgerStands(g)
    ensures LedgerStands(After(g, Requested(request, now)))
  {
    if Counts(g.row, request, now) { CastKeepsStanding(g.cast, NewVote(request, now)); }
  }

  lemma {:induction false} AfterKeepsLedger(g: Gate, e: Event)
    requires LedgerStands(g)
    ensures LedgerStands(After(g, e))
  {
    if e.Requested? {
      RequestKeepsLedger(g, e.request, e.now);
    } else {
      var none: seq<Vote> := [];
      assert Standing(none) == [];
    }
  }

  /** Whatever is required, the ledger of a gate is the votes that stand among those cast. */
  lemma {:induction false} LedgerIsStanding(history: seq<Event>)
    ensures LedgerStands(Replay(history))
    decreases |history|
  {
    if history != [] {
      var n := |history| - 1;
      LedgerIsStanding(history[..n]);
      AfterKeepsLedger(Replay(history[..n]), history[n]);
    }
  }

  /**
   * After every history, with any configuration: no two votes of the ledger share a named voter,
   * and each is the latest that its voter cast since the gate was last suspended afresh.
   */
  lemma {:induction false} OneVotePerVoter(history: seq<Event>)
    requires Replay(history).row.Some?
    ensures var g := Replay(history);
            && OneEach(g.row.value.votes)
            && (forall v | v in g.row.value.votes :: exists k :: LatestOf(g.cast, k, v))
  {
    LedgerIsStanding(history);
    StandingFromOneEach(Replay(history).cast, 0);
  }

  function AfterAll(g: Gate, events: seq<Event>): Gate {
    if events == [] then g
    else After(AfterAll(g, events[..|events| - 1]), events[|events| - 1])
  }

  lemma {:induction false} ReplayIsAfterAll(before: seq<Event>, events: seq<Event>)
    ensures Replay(before + events) == AfterAll(Replay(before), events)
    decreases |events|
  {
    if events == [] {
      assert before + events == before;
    } else {
      var n := |events| - 1;
      assert (before + events)[..|before| + n] == before + events[..n];
      ReplayIsAfterAll(before, events[..n]);
    }
  }

  lemma {:induction false} SettledThroughout(g: Gate, idle: seq<Event>)
    requires g.row.Some? && !g.row.value.Active() && forall e | e in idle :: !e.Reached?
    ensures AfterAll(g, idle).row == g.row
    decreases |idle|
  {
    if idle != [] {
      var n := |idle| - 1;
      SettledThroughout(g, idle[..n]);
      SettledStaysSettled(AfterAll(g, idle[..n]), idle[n]);
    }
  }

  /**
   * Votes cast before a refine never count later. From the time the gate is reached again, its
   * row, its ledger and so every answer are those of a gate reached for the first time, whatever
   * happened before the refine, between it and then, and afterwards.
   */
  lemma {:induction false} RefineForgetsVotes(before: seq<Event>, request: Request, now: int, idle: seq<Event>, config: Config, later: seq<Event>)
    requires Answer(Replay(before), request, now).Refined? && forall e | e in idle :: !e.Reached?
    ensures Replay(before + [Requested(request, now)] + idle + [Reached(config)] + later) == Replay([Reached(config)] + later)
  {
    var refined := before + [Requested(request, now)];
    var again := refined + idle + [Reached(config)];
    assert refined[..|before|] == before;
    ReplayIsAfterAll(refined, idle);
    SettledThroughout(Replay(refined), idle);
    assert again[..|refined + idle|] == refined + idle;
    assert [Reached(config)][..0] == [];
    assert Replay(again) == Replay([Reached(config)]);
    ReplayIsAfterAll(again, later);
    ReplayIsAfterAll([Reached(config)], later);
  }

  /** Without a positive quorum the theorem fails: a lone rejection releases the gate as accepted. */
  lemma {:induction false} NoQuorumReleasesOnReject(required: int, now: int)
    ensures var config := Config(["accept", "reject"], Some(required), false);
            var g := Replay([Reached(config)]);
            var request := Fields(Some("reject"), None, false, false);
            Answer(g, request, now).Resumed? <==> required <= 0
  {
    var config := Config(["accept", "reject"], Some(required), false);
    var history := [Reached(config)];
    assert history[..0] == [];
    var v := Vote("reject", None, now);
    assert Cast([], v) == [v];
    assert Accepts([v]) == 0;
  }
}
