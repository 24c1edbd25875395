/**
 * Claims on a run (examples/hosts/sqlite/src/server.ts): acquired where free or expired,
 * renewed by a heartbeat, released at the end, by any number of processes on one database.
 */
module Lease {
  import opened Wrappers

  type Pid = nat

  /** The claim columns and whether the status is terminal. */
  datatype Row = Row(holder: Option<Pid>, expires: int, terminal: bool)

  /** An executor of the run: its process, and when it last claimed or renewed. */
  datatype Executor = Executor(pid: Pid, renewedAt: int)

  /** The row, the executors alive anywhere, and the common clock. */
  datatype System = System(row: Row, executors: seq<Executor>, now: int)

  datatype Event =
    | Elapse(ms: nat)
    | TryClaim(pid: Pid)
    | Heartbeat(executor: nat)
    | Suspend(executor: nat)
    | Finish(executor: nat)
    | EndFromOutside(pid: Pid)
    | Die(pid: Pid)

  predicate Claimable(row: Row, now: int) {
    (row.holder.None? || row.expires < now) && !row.terminal
  }

  /** acquireClaim: the row and whether it changed. */
  function Acquired(row: Row, pid: Pid, now: int, ttl: nat): (Row, bool) {
    if Claimable(row, now) then (row.(holder := Some(pid), expires := now + ttl), true) else (row, false)
  }

  function Renewed(row: Row, pid: Pid, now: int, ttl: nat): Row {
    if row.holder == Some(pid) then row.(expires := now + ttl) else row
  }

  function Released(row: Row, pid: Pid): Row {
    if row.holder == Some(pid) then row.(holder := None) else row
  }

  function Without(es: seq<Executor>, k: nat): seq<Executor>
    requires k < |es|
  {
    es[..k] + es[k + 1..]
  }

  function WithoutProcess(es: seq<Executor>, pid: Pid): seq<Executor> {
    if es == [] then []
    else if es[0].pid == pid then WithoutProcess(es[1..], pid)
    else [es[0]] + WithoutProcess(es[1..], pid)
  }

  function Step(s: System, e: Event, ttl: nat): System {
    match e
    case Elapse(ms) => s.(now := s.now + ms)
    case TryClaim(pid) =>
      var (row, won) := Acquired(s.row, pid, s.now, ttl);
      s.(row := row, executors := if won then s.executors + [Executor(pid, s.now)] else s.executors)
    case Heartbeat(k) =>
      if k >= |s.executors| then s
      else
        var pid := s.executors[k].pid;
        s.(row := Renewed(s.row, pid, s.now, ttl), executors := s.executors[k := Executor(pid, s.now)])
    case Suspend(k) =>
      if k >= |s.executors| then s
      else s.(row := Released(s.row, s.executors[k].pid), executors := Without(s.executors, k))
    case Finish(k) =>
      if k >= |s.executors| then s
      else s.(row := Released(s.row.(terminal := true), s.executors[k].pid), executors := Without(s.executors, k))
    case EndFromOutside(pid) => s.(row := Released(s.row.(terminal := true), pid))
    case Die(pid) => s.(executors := WithoutProcess(s.executors, pid))
  }

  function Play(start: System, events: seq<Event>, ttl: nat): System {
    if events == [] then start
    else Step(Play(start, events[..|events| - 1], ttl), events[|events| - 1], ttl)
  }

  /** The claim columns as three statements change them; TryClaim returns result.changes === 1. */
  class RunRow {
    var holder: Option<Pid>
    var expires: int
    var terminal: bool

    function Contents(): Row
      reads this
    {
      Row(holder, expires, terminal)
    }

    constructor ()
      ensures Contents() == Row(None, 0, false)
    {
      holder, expires, terminal := None, 0, false;
    }

    method AcquireClaim(pid: Pid, now: int, ttl: nat) returns (changed: bool)
      modifies this
      ensures (Contents(), changed) == Acquired(old(Contents()), pid, now, ttl)
    {
      changed := false;
      if (holder.None? || expires < now) && !terminal {
        holder, expires := Some(pid), now + ttl;
        changed := true;
      }
    }

    method RenewClaim(pid: Pid, now: int, ttl: nat)
      modifies this
      ensures Contents() == Renewed(old(Contents()), pid, now, ttl)
    {
      if holder == Some(pid) { expires := now + ttl; }
    }

    method ReleaseClaim(pid: Pid)
      modifies this
      ensures Contents() == Released(old(Contents()), pid)
    {
      if holder == Some(pid) { holder := None; }
    }
  }

  // ------------------------------------------------------------------ mutual exclusion

  /** Every executor has claimed or renewed within the lease. */
  predicate Timely(s: System, ttl: nat) {
    forall k | 0 <= k < |s.executors| :: s.now - s.executors[k].renewedAt <= ttl
  }

  /** Timely whenever an event happens. */
  predicate AlwaysTimely(start: System, events: seq<Event>, ttl: nat) {
    events == [] ||
      var n := |events| - 1;
      AlwaysTimely(start, events[..n], ttl) && Timely(Play(start, events[..n], ttl), ttl)
  }

  /** At most one executor; it holds the claim, which expires one lease after its last renewal. */
  ghost predicate OneHolder(s: System, ttl: nat) {
    s.executors == [] ||
      (|s.executors| == 1 && s.row.holder == Some(s.executors[0].pid) && s.row.expires == s.executors[0].renewedAt + ttl)
  }

  /** The run has ended, or its one executor holds the claim. */
  ghost predicate Guarded(s: System, ttl: nat) {
    |s.executors| <= 1 && (s.row.terminal || OneHolder(s, ttl))
  }

  lemma {:induction false} WithoutProcessKeepsOrDrops(s: System, pid: Pid)
    requires |s.executors| == 1
    ensures WithoutProcess(s.executors, pid) == if s.executors[0].pid == pid then [] else s.executors
  {
    assert WithoutProcess(s.executors[1..], pid) == [];
    assert [s.executors[0]] + [] == s.executors;
  }

  lemma {:induction false} StepKeepsGuarded(s: System, e: Event, ttl: nat)
    requires Guarded(s, ttl) && Timely(s, ttl)
    ensures Guarded(Step(s, e, ttl), ttl)
  {
    if |s.executors| == 1 {
      if e.TryClaim? {
        assert s.now - s.executors[0].renewedAt <= ttl;
        assert !Claimable(s.row, s.now);
      } else if e.Die? {
        WithoutProcessKeepsOrDrops(s, e.pid);
      }
    }
  }

  /**
   * While every executor renews within the lease, no two ever execute the run, in any
   * interleaving; until the run has ended the one executor holds the claim.
   */
  lemma {:induction false} AtMostOneExecutor(start: System, events: seq<Event>, ttl: nat)
    requires start.executors == [] && AlwaysTimely(start, events, ttl)
    ensures var s := Play(start, events, ttl); |s.executors| <= 1 && (s.row.terminal || OneHolder(s, ttl))
    decreases |events|
  {
    if events != [] {
      var n := |events| - 1;
      AtMostOneExecutor(start, events[..n], ttl);
      StepKeepsGuarded(Play(start, events[..n], ttl), events[n], ttl);
    }
  }

  /** The condition is exact: a second process is let in if and only if the first is late. */
  lemma {:induction false} LateIsExactlyWhenDoubled(s: System, pid: Pid, ttl: nat)
    requires OneHolder(s, ttl) && |s.executors| == 1 && !s.row.terminal
    ensures |Step(s, TryClaim(pid), ttl).executors| == 2 <==> !Timely(s, ttl)
  {
    if s.now - s.executors[0].renewedAt > ttl { assert !Timely(s, ttl); }
  }

  // --------------------------------------------------------- a claim that was taken

  /** Events by which process q itself, or time, could end q's claim. */
  predicate ByOthers(s: System, e: Event, q: Pid) {
    match e
    case Elapse(ms) => s.now + ms <= s.row.expires
    case TryClaim(_) => true
    case Heartbeat(k) => k < |s.executors| ==> s.executors[k].pid != q
    case Suspend(k) => k < |s.executors| ==> s.executors[k].pid != q
    case Finish(k) => k < |s.executors| ==> s.executors[k].pid != q
    case EndFromOutside(pid) => pid != q
    case Die(_) => true
  }

  predicate AllByOthers(start: System, events: seq<Event>, q: Pid, ttl: nat) {
    events == [] ||
      var n := |events| - 1;
      AllByOthers(start, events[..n], q, ttl) && ByOthers(Play(start, events[..n], ttl), events[n], q)
  }

  /**
   * Once q holds a claim, no run of events by others, stale holders with their heartbeats and
   * releases included, renews, shortens or removes it before it expires.
   */
  lemma {:induction false} StaleHolderIsPowerless(start: System, events: seq<Event>, q: Pid, ttl: nat)
    requires start.row.holder == Some(q) && start.now <= start.row.expires
    requires AllByOthers(start, events, q, ttl)
    ensures var s := Play(start, events, ttl);
            s.row.holder == Some(q) && s.row.expires == start.row.expires && s.now <= s.row.expires
    decreases |events|
  {
    if events != [] { StaleHolderIsPowerless(start, events[..|events| - 1], q, ttl); }
  }

  /** No claim is ever granted on a terminal run: no executor is added and the holder can only go. */
  lemma {:induction false} NoClaimOnTerminal(start: System, events: seq<Event>, ttl: nat)
    requires start.row.terminal
    ensures var s := Play(start, events, ttl);
            && s.row.terminal && |s.executors| <= |start.executors|
            && (s.row.holder == start.row.holder || s.row.holder.None?)
    decreases |events|
  {
    if events != [] {
      var n := |events| - 1;
      NoClaimOnTerminal(start, events[..n], ttl);
      var s, e := Play(start, events[..n], ttl), events[n];
      if e.Die? { WithoutProcessShrinks(s.executors, e.pid); }
    }
  }

  lemma {:induction false} WithoutProcessShrinks(es: seq<Executor>, pid: Pid)
    ensures |WithoutProcess(es, pid)| <= |es|
  {
    if es != [] { WithoutProcessShrinks(es[1..], pid); }
  }
}
