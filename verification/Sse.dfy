/**
 * The event stream of one run to one client (examples/hosts/sqlite/src/server.ts): the
 * backlog, then live events, one frame each or batched on a timer, until the run ends.
 */
module Sse {
  import opened Wrappers

  /** An event of the log; `ends` marks the three types that end a run. */
  datatype Event = Event(sequence: int, ends: bool, data: string)

  /** What is written to the response: an event with its id, or a batch, which carries none. */
  datatype Frame = Single(event: Event) | Batch(events: seq<Event>)

  /** The response so far; `live` while the handler listens for new events. */
  datatype Stream = Stream(batched: bool, frames: seq<Frame>, buffer: seq<Event>, live: bool)

  function Flushed(s: Stream): Stream {
    if s.buffer == [] then s else s.(frames := s.frames + [Batch(s.buffer)], buffer := [])
  }

  function WriteEvent(s: Stream, e: Event): Stream {
    if !s.batched then s.(frames := s.frames + [Single(e)])
    else
      var pushed := s.(buffer := s.buffer + [e]);
      if e.ends then Flushed(pushed) else pushed
  }

  function WriteAll(s: Stream, es: seq<Event>): Stream {
    if es == [] then s else WriteEvent(WriteAll(s, es[..|es| - 1]), es[|es| - 1])
  }

  function Closed(s: Stream): Stream { Flushed(s).(live := false) }

  /** SELECT ... WHERE seq > ? ORDER BY seq. */
  function Backlog(log: seq<Event>, after: int): seq<Event> {
    if log == [] then []
    else
      var n := |log| - 1;
      if log[n].sequence > after then Backlog(log[..n], after) + [log[n]] else Backlog(log[..n], after)
  }

  /** What the handler does when the request arrives. */
  function Connected(log: seq<Event>, after: int, batched: bool, ended: bool): Stream {
    var s := WriteAll(Stream(batched, [], [], true), Backlog(log, after));
    if ended then Closed(s) else s
  }

  /** An event this process appends, an event another process appends, the timer, the client going away. */
  datatype Step = Here(ends: bool, data: string) | Elsewhere(ends: bool, data: string) | Timer | Gone

  function OnEvent(s: Stream, e: Event): Stream {
    if !s.live then s
    else
      var written := WriteEvent(s, e);
      if e.ends then Closed(written) else written
  }

  function StreamAfter(s: Stream, log: seq<Event>, step: Step): Stream {
    match step
    case Here(ends, data) => OnEvent(s, Event(|log|, ends, data))
    case Elsewhere(_, _) => s
    case Timer => if s.live then Flushed(s) else s
    case Gone => s.(live := false)
  }

  function LogAfter(log: seq<Event>, step: Step): seq<Event> {
    match step
    case Here(ends, data) => log + [Event(|log|, ends, data)]
    case Elsewhere(ends, data) => log + [Event(|log|, ends, data)]
    case _ => log
  }

  function LogOver(log: seq<Event>, steps: seq<Step>): seq<Event> {
    if steps == [] then log else LogAfter(LogOver(log, steps[..|steps| - 1]), steps[|steps| - 1])
  }

  function StreamOver(s: Stream, log: seq<Event>, steps: seq<Step>): Stream {
    if steps == [] then s
    else
      var n := |steps| - 1;
      StreamAfter(StreamOver(s, log, steps[..n]), LogOver(log, steps[..n]), steps[n])
  }

  // ------------------------------------------------- the same, as the source has it

  class Response {
    const batched: bool
    var frames: seq<Frame>
    var batchBuffer: seq<Event>
    var live: bool

    function State(): Stream
      reads this
    {
      Stream(batched, frames, batchBuffer, live)
    }

    /** Headers sent, nothing written. */
    constructor (batched: bool)
      ensures State() == Stream(batched, [], [], true)
    {
      this.batched, frames, batchBuffer, live := batched, [], [], true;
    }

    method FlushBatch()
      modifies this
      ensures State() == Flushed(old(State()))
    {
      if batchBuffer == [] { return; }
      frames := frames + [Batch(batchBuffer)];
      batchBuffer := [];
    }

    method Write(e: Event)
      modifies this
      ensures State() == WriteEvent(old(State()), e)
    {
      if batched {
        batchBuffer := batchBuffer + [e];
        if e.ends { FlushBatch(); }
      } else {
        frames := frames + [Single(e)];
      }
    }

    method CloseStream()
      modifies this
      ensures State() == Closed(old(State()))
    {
      FlushBatch();
      live := false;
    }

    /** The rest of the handler, on a response just opened. */
    method Connect(log: seq<Event>, after: int, ended: bool)
      requires State() == Stream(batched, [], [], true)
      modifies this
      ensures State() == Connected(log, after, batched, ended)
    {
      var backlog := Backlog(log, after);
      for i := 0 to |backlog|
        invariant State() == WriteAll(Stream(batched, [], [], true), backlog[..i])
      {
        assert backlog[..i + 1][..i] == backlog[..i];
        Write(backlog[i]);
      }
      assert backlog[..|backlog|] == backlog;
      if ended { CloseStream(); }
    }

    method Receive(e: Event)
      modifies this
      ensures State() == OnEvent(old(State()), e)
    {
      if !live { return; }
      Write(e);
      if e.ends { CloseStream(); }
    }
  }

  // ------------------------------------------------------------ what was delivered

  function EventsOf(f: Frame): seq<Event> {
    match f
    case Single(e) => [e]
    case Batch(es) => es
  }

  function Delivered(frames: seq<Frame>): seq<Event> {
    if frames == [] then [] else Delivered(frames[..|frames| - 1]) + EventsOf(frames[|frames| - 1])
  }

  /** Written, or waiting in the batch buffer. */
  function OnItsWay(s: Stream): seq<Event> { Delivered(s.frames) + s.buffer }

  ghost predicate Numbered(log: seq<Event>) {
    forall i | 0 <= i < |log| :: log[i].sequence == i
  }

  lemma {:induction false} DeliveredOneMore(frames: seq<Frame>, f: Frame)
    ensures Delivered(frames + [f]) == Delivered(frames) + EventsOf(f)
  {
    assert (frames + [f])[..|frames|] == frames;
  }

  lemma {:induction false} FlushKeeps(s: Stream)
    ensures OnItsWay(Flushed(s)) == OnItsWay(s) && Flushed(s).buffer == []
  {
    if s.buffer != [] { DeliveredOneMore(s.frames, Batch(s.buffer)); }
  }

  lemma {:induction false} WriteAdds(s: Stream, e: Event)
    requires !s.batched ==> s.buffer == []
    ensures OnItsWay(WriteEvent(s, e)) == OnItsWay(s) + [e]
    ensures WriteEvent(s, e).batched == s.batched && (!s.batched ==> WriteEvent(s, e).buffer == [])
  {
    if s.batched {
      FlushKeeps(s.(buffer := s.buffer + [e]));
      assert Delivered(s.frames) + (s.buffer + [e]) == OnItsWay(s) + [e];
    } else {
      DeliveredOneMore(s.frames, Single(e));
    }
  }

  lemma {:induction false} WriteAllAdds(s: Stream, es: seq<Event>)
    requires !s.batched ==> s.buffer == []
    ensures OnItsWay(WriteAll(s, es)) == OnItsWay(s) + es
    ensures WriteAll(s, es).batched == s.batched && (!s.batched ==> WriteAll(s, es).buffer == [])
    ensures WriteAll(s, es).live == s.live
  {
    if es != [] {
      var n := |es| - 1;
      WriteAllAdds(s, es[..n]);
      WriteAdds(WriteAll(s, es[..n]), es[n]);
      assert OnItsWay(s) + es[..n] + [es[n]] == OnItsWay(s) + es;
    } else {
      assert OnItsWay(s) + [] == OnItsWay(s);
    }
  }

  /** Position of the first event after `after`. */
  function From(log: seq<Event>, after: int): nat {
    if after + 1 < 0 then 0 else if after + 1 > |log| then |log| else after + 1
  }

  lemma {:induction false} BacklogIsSlice(log: seq<Event>, after: int)
    requires Numbered(log)
    ensures Backlog(log, after) == log[From(log, after)..]
  {
    if log != [] {
      var n := |log| - 1;
      BacklogIsSlice(log[..n], after);
      if log[n].sequence > after { SliceGrows(log, From(log, after), n); }
    }
  }

  lemma {:induction false} SliceGrows(log: seq<Event>, from: nat, n: nat)
    requires from <= n && n + 1 == |log|
    ensures log[from..] == log[..n][from..] + [log[n]]
  {}

  lemma {:induction false} ConnectedDelivers(log: seq<Event>, after: int, batched: bool, ended: bool)
    requires Numbered(log)
    ensures var s := Connected(log, after, batched, ended);
            && OnItsWay(s) == log[From(log, after)..] && s.batched == batched && s.live == !ended
            && (ended || !batched ==> s.buffer == [])
  {
    var start := Stream(batched, [], [], true);
    BacklogIsSlice(log, after);
    WriteAllAdds(start, Backlog(log, after));
    assert OnItsWay(start) == [];
    FlushKeeps(WriteAll(start, Backlog(log, after)));
  }

  lemma {:induction false} LogGrows(log: seq<Event>, steps: seq<Step>)
    requires Numbered(log)
    ensures Numbered(LogOver(log, steps)) && log <= LogOver(log, steps)
  {
    if steps != [] { LogGrows(log, steps[..|steps| - 1]); }
  }

  /** The listener is there until the run ends or the client goes. */
  predicate Listening(steps: seq<Step>) {
    steps == [] ||
      var n := |steps| - 1;
      Listening(steps[..n]) && !steps[n].Gone? && !(steps[n].Here? && steps[n].ends)
  }

  predicate HasElsewhere(steps: seq<Step>) {
    steps != [] && (steps[|steps| - 1].Elsewhere? || HasElsewhere(steps[..|steps| - 1]))
  }

  /** The events this process appends while it listens. */
  function Heard(log: seq<Event>, steps: seq<Step>): seq<Event> {
    if steps == [] then []
    else
      var n := |steps| - 1;
      var before := Heard(log, steps[..n]);
      if steps[n].Here? && Listening(steps[..n]) then
        before + [Event(|LogOver(log, steps[..n])|, steps[n].ends, steps[n].data)]
      else before
  }

  /** Where the log stood after the newest event heard, or at the start. */
  function Newest(log: seq<Event>, steps: seq<Step>): nat {
    if steps == [] then |log|
    else
      var n := |steps| - 1;
      if steps[n].Here? && Listening(steps[..n]) then |LogOver(log, steps[..n])| + 1 else Newest(log, steps[..n])
  }

  /** No event of another process comes before one that is heard. */
  predicate NoGap(steps: seq<Step>) {
    steps == [] ||
      var n := |steps| - 1;
      NoGap(steps[..n]) && !(steps[n].Here? && Listening(steps[..n]) && HasElsewhere(steps[..n]))
  }

  lemma {:induction false} OneStepDelivers(s: Stream, log: seq<Event>, step: Step)
    requires !s.batched ==> s.buffer == []
    ensures var t := StreamAfter(s, log, step);
            && OnItsWay(t) == OnItsWay(s) + (if step.Here? && s.live then [Event(|log|, step.ends, step.data)] else [])
            && t.live == (s.live && !step.Gone? && !(step.Here? && step.ends))
            && t.batched == s.batched && (!t.batched ==> t.buffer == [])
            && (s.live && step.Here? && step.ends ==> t.buffer == [])
  {
    assert OnItsWay(s) + [] == OnItsWay(s);
    FlushKeeps(s);
    if step.Here? && s.live {
      var e := Event(|log|, step.ends, step.data);
      WriteAdds(s, e);
      FlushKeeps(WriteEvent(s, e));
    }
  }

  /** What is written or buffered: the backlog, then every event heard, in any interleaving with the timer. */
  lemma {:induction false} DeliversBacklogAndHeard(log: seq<Event>, after: int, batched: bool, steps: seq<Step>)
    requires Numbered(log)
    ensures var s := StreamOver(Connected(log, after, batched, false), log, steps);
            && OnItsWay(s) == log[From(log, after)..] + Heard(log, steps)
            && s.live == Listening(steps) && (!s.batched ==> s.buffer == []) && s.batched == batched
    decreases |steps|
  {
    ConnectedDelivers(log, after, batched, false);
    var backlog := log[From(log, after)..];
    if steps == [] {
      assert backlog + [] == backlog;
    } else {
      var n := |steps| - 1;
      DeliversBacklogAndHeard(log, after, batched, steps[..n]);
      OneStepDelivers(StreamOver(Connected(log, after, batched, false), log, steps[..n]), LogOver(log, steps[..n]), steps[n]);
      assert backlog + Heard(log, steps[..n]) + [] == backlog + Heard(log, steps[..n]);
    }
  }

  lemma {:induction false} HeardCounts(log: seq<Event>, steps: seq<Step>)
    ensures |log| + |Heard(log, steps)| <= |LogOver(log, steps)|
    ensures HasElsewhere(steps) ==> |log| + |Heard(log, steps)| < |LogOver(log, steps)|
  {
    if steps != [] { HeardCounts(log, steps[..|steps| - 1]); }
  }

  lemma {:induction false} NewestIsEnd(log: seq<Event>, steps: seq<Step>)
    requires Listening(steps) && !HasElsewhere(steps)
    ensures Newest(log, steps) == |LogOver(log, steps)|
  {
    if steps != [] { NewestIsEnd(log, steps[..|steps| - 1]); }
  }

  /** Without a gap the events heard continue the log from where the connection found it. */
  lemma {:induction false} HeardContinues(log: seq<Event>, steps: seq<Step>)
    requires Numbered(log) && NoGap(steps)
    ensures |log| <= Newest(log, steps) <= |LogOver(log, steps)|
    ensures log + Heard(log, steps) == LogOver(log, steps)[..Newest(log, steps)]
  {
    if steps == [] {
      assert log + [] == log && log[..|log|] == log;
    } else {
      var n := |steps| - 1;
      HeardContinues(log, steps[..n]);
      var before, all := LogOver(log, steps[..n]), LogOver(log, steps);
      if steps[n].Here? && Listening(steps[..n]) {
        NewestIsEnd(log, steps[..n]);
        assert before[..|before|] == before && all[..|all|] == all;
        assert log + (Heard(log, steps[..n]) + [all[|before|]]) == (log + Heard(log, steps[..n])) + [all[|before|]];
      } else {
        assert before <= all;
        assert before[..Newest(log, steps[..n])] == all[..Newest(log, steps[..n])];
      }
    }
  }

  /** With a gap what is delivered is not how the log goes on. */
  lemma {:induction false} GapShows(log: seq<Event>, steps: seq<Step>)
    requires Numbered(log) && !NoGap(steps)
    ensures !(log + Heard(log, steps) <= LogOver(log, steps))
  {
    var n := |steps| - 1;
    var before, all := LogOver(log, steps[..n]), LogOver(log, steps);
    var d, sent := log + Heard(log, steps[..n]), log + Heard(log, steps);
    LogGrows(log, steps[..n]);
    LogGrows(log, steps);
    HeardCounts(log, steps[..n]);
    assert d <= sent && before <= all;
    assert sent <= all ==> d <= before;
    if NoGap(steps[..n]) {
      assert |d| < |before| && sent[|d|].sequence == |before| && all[|d|].sequence == |d|;
    } else {
      GapShows(log, steps[..n]);
    }
  }

  lemma {:induction false} SliceOfPrefix(log: seq<Event>, heard: seq<Event>, all: seq<Event>, from: nat, newest: nat)
    requires from <= |log| <= newest <= |all| && log <= all
    ensures log + heard == all[..newest] <==> log[from..] + heard == all[from..newest]
    ensures log[from..] + heard == all[from..newest] ==> log + heard <= all
  {
    assert log + heard == log[..from] + (log[from..] + heard);
    assert all[..newest] == all[..from] + all[from..newest];
    if log + heard == all[..newest] {
      assert log[from..] + heard == (log + heard)[from..];
    }
  }

  lemma {:induction false} NewestWithin(log: seq<Event>, steps: seq<Step>)
    ensures |log| <= Newest(log, steps) <= |LogOver(log, steps)|
  {
    if steps != [] { NewestWithin(log, steps[..|steps| - 1]); }
  }

  /**
   * For every interleaving of appends, of this process and others, of the timer and of the client
   * going: what was written and what waits in the buffer is the backlog and the events heard, and
   * that is the log from the first event after Last-Event-ID up to the newest event heard exactly
   * if no event of another process came before one that was heard.
   */
  lemma {:induction false} OpenStreamIsLogSlice(log: seq<Event>, after: int, batched: bool, steps: seq<Step>)
    requires Numbered(log)
    ensures var sent := OnItsWay(StreamOver(Connected(log, after, batched, false), log, steps));
            var from, newest := From(log, after), Newest(log, steps);
            && from <= newest <= |LogOver(log, steps)|
            && sent == log[from..] + Heard(log, steps)
            && (NoGap(steps) <==> sent == LogOver(log, steps)[from..newest])
            && (Listening(steps) && !HasElsewhere(steps) ==> newest == |LogOver(log, steps)|)
  {
    var all, from, newest := LogOver(log, steps), From(log, after), Newest(log, steps);
    DeliversBacklogAndHeard(log, after, batched, steps);
    LogGrows(log, steps);
    NewestWithin(log, steps);
    SliceOfPrefix(log, Heard(log, steps), all, from, newest);
    if NoGap(steps) {
      HeardContinues(log, steps);
    } else {
      GapShows(log, steps);
    }
    if Listening(steps) && !HasElsewhere(steps) { NewestIsEnd(log, steps); }
  }

  lemma {:induction false} EndCloses(log: seq<Event>, after: int, batched: bool, steps: seq<Step>, data: string)
    requires Numbered(log) && Listening(steps)
    ensures var s := StreamOver(Connected(log, after, batched, false), log, steps + [Here(true, data)]);
            !s.live && s.buffer == []
  {
    assert (steps + [Here(true, data)])[..|steps|] == steps;
    DeliversBacklogAndHeard(log, after, batched, steps);
    OneStepDelivers(StreamOver(Connected(log, after, batched, false), log, steps), LogOver(log, steps), Here(true, data));
  }

  lemma {:induction false} EndIsHeard(log: seq<Event>, steps: seq<Step>, data: string)
    requires Numbered(log) && Listening(steps)
    ensures var with := steps + [Here(true, data)];
            var all := LogOver(log, with);
            && |all| > |log| && all[|all| - 1] == Event(|all| - 1, true, data)
            && Heard(log, with) == Heard(log, steps) + [all[|all| - 1]] && Newest(log, with) == |all|
  {
    assert (steps + [Here(true, data)])[..|steps|] == steps;
    LogGrows(log, steps);
  }

  /**
   * The event that ends the run is delivered in any interleaving, nothing is left in the buffer,
   * and the stream closes; without a gap all of the log after Last-Event-ID was written.
   */
  lemma {:induction false} EndForcesFlush(log: seq<Event>, after: int, batched: bool, steps: seq<Step>, data: string)
    requires Numbered(log) && Listening(steps)
    ensures var with := steps + [Here(true, data)];
            var s := StreamOver(Connected(log, after, batched, false), log, with);
            var all := LogOver(log, with);
            && !s.live && s.buffer == [] && From(log, after) < |all| && all[|all| - 1] == Event(|all| - 1, true, data)
            && Delivered(s.frames) == log[From(log, after)..] + Heard(log, with)
            && Heard(log, with) == Heard(log, steps) + [all[|all| - 1]]
            && (NoGap(with) <==> Delivered(s.frames) == all[From(log, after)..])
  {
    var with := steps + [Here(true, data)];
    EndCloses(log, after, batched, steps, data);
    EndIsHeard(log, steps, data);
    OpenStreamIsLogSlice(log, after, batched, with);
    var s, all := StreamOver(Connected(log, after, batched, false), log, with), LogOver(log, with);
    assert Delivered(s.frames) + [] == Delivered(s.frames);
    assert all[From(log, after)..|all|] == all[From(log, after)..];
  }

  /** A Last-Event-ID past the log skips nothing that comes later, though its number is lower. */
  lemma {:induction false} IdPastTheLogIsIgnored(log: seq<Event>, after: int, steps: seq<Step>)
    requires Numbered(log) && after >= |log|
    ensures var s := StreamOver(Connected(log, after, false, false), log, steps); Delivered(s.frames) == Heard(log, steps)
  {
    DeliversBacklogAndHeard(log, after, false, steps);
    var s := StreamOver(Connected(log, after, false, false), log, steps);
    assert Delivered(s.frames) + [] == Delivered(s.frames);
    assert [] + Heard(log, steps) == Heard(log, steps);
  }

  // ------------------------------------------------------------------- reconnecting

  /** The last id the client has seen: batches carry none. */
  function LastId(frames: seq<Frame>, before: int): int {
    if frames == [] then before
    else
      var n := |frames| - 1;
      if frames[n].Single? then frames[n].event.sequence else LastId(frames[..n], before)
  }

  /** One connection: the log it finds, what happens meanwhile, and how many frames get through. */
  datatype Connection = Connection(log: seq<Event>, steps: seq<Step>, ended: bool, received: nat)

  function Sent(c: Connection, after: int, batched: bool): seq<Frame> {
    StreamOver(Connected(c.log, after, batched, c.ended), c.log, c.steps).frames
  }

  function AtMost(n: nat, m: nat): (r: nat)
    ensures r <= m
  {
    if n <= m then n else m
  }

  function Received(c: Connection, after: int, batched: bool): seq<Frame> {
    var sent := Sent(c, after, batched);
    sent[..AtMost(c.received, |sent|)]
  }

  /** The steps before the first event of another process. */
  function BeforeElsewhere(steps: seq<Step>): seq<Step> {
    if HasElsewhere(steps) then BeforeElsewhere(steps[..|steps| - 1]) else steps
  }

  /** How many events of a connection continue the log: the backlog and what is heard before another process appends. */
  function Unbroken(c: Connection, after: int): nat {
    |c.log| - From(c.log, after) + if c.ended then 0 else |Heard(c.log, BeforeElsewhere(c.steps))|
  }

  /** No event gets through behind one of another process that was not sent. */
  predicate Whole(c: Connection, after: int) {
    AtMost(c.received, |Sent(c, after, false)|) <= Unbroken(c, after)
  }

  /** The id a chain of connections ends at, and all the events it got. */
  function ChainId(cs: seq<Connection>, batched: bool): int {
    if cs == [] then -1
    else
      var n := |cs| - 1;
      LastId(Received(cs[n], ChainId(cs[..n], batched), batched), ChainId(cs[..n], batched))
  }

  function ChainGot(cs: seq<Connection>, batched: bool): seq<Event> {
    if cs == [] then []
    else
      var n := |cs| - 1;
      ChainGot(cs[..n], batched) + Delivered(Received(cs[n], ChainId(cs[..n], batched), batched))
  }

  /** Each connection finds a numbered log that continues the one the last left. */
  ghost predicate Chained(cs: seq<Connection>) {
    cs == [] ||
      var n := |cs| - 1;
      && Chained(cs[..n]) && Numbered(cs[n].log)
      && (n > 0 ==> LogOver(cs[n - 1].log, cs[n - 1].steps) <= cs[n].log)
  }

  predicate AllWhole(cs: seq<Connection>) {
    cs == [] ||
      var n := |cs| - 1;
      AllWhole(cs[..n]) && Whole(cs[n], ChainId(cs[..n], false))
  }

  ghost predicate AllSingle(frames: seq<Frame>) {
    forall f | f in frames :: f.Single?
  }

  lemma {:induction false} SinglesOnly(s: Stream, log: seq<Event>, steps: seq<Step>)
    requires !s.batched && AllSingle(s.frames) && s.buffer == []
    ensures var t := StreamOver(s, log, steps); !t.batched && AllSingle(t.frames) && t.buffer == []
  {
    if steps != [] { SinglesOnly(s, log, steps[..|steps| - 1]); }
  }

  lemma {:induction false} BacklogSingles(s: Stream, es: seq<Event>)
    requires !s.batched && AllSingle(s.frames) && s.buffer == []
    ensures var t := WriteAll(s, es); !t.batched && AllSingle(t.frames) && t.buffer == []
  {
    if es != [] { BacklogSingles(s, es[..|es| - 1]); }
  }

  lemma {:induction false} ClosedStays(s: Stream, log: seq<Event>, steps: seq<Step>)
    requires !s.live
    ensures StreamOver(s, log, steps) == s
  {
    if steps != [] { ClosedStays(s, log, steps[..|steps| - 1]); }
  }

  lemma {:induction false} NoElsewhereNoGap(steps: seq<Step>)
    requires !HasElsewhere(steps)
    ensures NoGap(steps)
  {
    if steps != [] { NoElsewhereNoGap(steps[..|steps| - 1]); }
  }

  /** What is heard behind an event of another process has a number too high. */
  lemma {:induction false} HeardBeforeElsewhere(log: seq<Event>, steps: seq<Step>)
    requires Numbered(log)
    ensures var b := BeforeElsewhere(steps);
            && NoGap(b) && Heard(log, b) <= Heard(log, steps) && LogOver(log, b) <= LogOver(log, steps)
            && (|Heard(log, b)| < |Heard(log, steps)| ==> Heard(log, steps)[|Heard(log, b)|].sequence > |log| + |Heard(log, b)|)
  {
    if HasElsewhere(steps) {
      var n := |steps| - 1;
      HeardBeforeElsewhere(log, steps[..n]);
      HeardCounts(log, steps[..n]);
    } else {
      NoElsewhereNoGap(steps);
    }
  }

  lemma {:induction false} SentIsBacklogAndHeard(c: Connection, after: int)
    requires Numbered(c.log)
    ensures AllSingle(Sent(c, after, false))
    ensures Delivered(Sent(c, after, false)) == c.log[From(c.log, after)..] + if c.ended then [] else Heard(c.log, c.steps)
  {
    var connected := Connected(c.log, after, false, c.ended);
    BacklogSingles(Stream(false, [], [], true), Backlog(c.log, after));
    SinglesOnly(connected, c.log, c.steps);
    ConnectedDelivers(c.log, after, false, c.ended);
    var s := StreamOver(connected, c.log, c.steps);
    assert Delivered(s.frames) + [] == Delivered(s.frames);
    if c.ended {
      ClosedStays(connected, c.log, c.steps);
      assert c.log[From(c.log, after)..] + [] == c.log[From(c.log, after)..];
    } else {
      DeliversBacklogAndHeard(c.log, after, false, c.steps);
    }
  }

  /**
   * Whatever happens during the connection, its end included: up to a gap what is sent is how the
   * log goes on, and the first event past it has a number too high.
   */
  lemma {:induction false} SentContinues(c: Connection, after: int) returns (from: nat, k: nat, to: nat)
    requires Numbered(c.log)
    ensures AllSingle(Sent(c, after, false))
    ensures from == From(c.log, after) && k == Unbroken(c, after) && to == from + k
    ensures Continues(Delivered(Sent(c, after, false)), LogOver(c.log, c.steps), from, k, to)
  {
    var all := LogOver(c.log, c.steps);
    from, k := From(c.log, after), Unbroken(c, after);
    to := from + k;
    SentIsBacklogAndHeard(c, after);
    LogGrows(c.log, c.steps);
    if c.ended {
      assert c.log + [] == c.log[..|c.log|];
      UnbrokenSlice(c.log, [], [], c.log, all, from, k, to);
    } else {
      var b := BeforeElsewhere(c.steps);
      HeardBeforeElsewhere(c.log, c.steps);
      HeardContinues(c.log, b);
      UnbrokenSlice(c.log, Heard(c.log, b), Heard(c.log, c.steps), LogOver(c.log, b), all, from, k, to);
    }
  }

  /** The first k events sent are all[from..to], and what is sent past them is not. */
  ghost predicate Continues(sent: seq<Event>, all: seq<Event>, from: nat, k: nat, to: nat) {
    && k <= |sent| && from <= to <= |all| && sent[..k] == all[from..to]
    && (k < |sent| ==> sent[k].sequence > to)
  }

  lemma {:induction false} UnbrokenSlice(
      log: seq<Event>, first: seq<Event>, heard: seq<Event>, part: seq<Event>, all: seq<Event>, from: nat, k: nat, to: nat)
    requires from <= |log| && first <= heard && part <= all && to == |log| + |first| == from + k <= |part| && log + first == part[..to]
    requires |first| < |heard| ==> heard[|first|].sequence > to
    ensures Continues(log[from..] + heard, all, from, k, to)
  {
    assert part[..to] == all[..to];
    assert (log[from..] + heard)[..k] == log[from..] + first == (log + first)[from..];
    assert all[..to][from..] == all[from..to];
  }

  lemma {:induction false} NoGapHearsFirst(log: seq<Event>, steps: seq<Step>)
    requires Numbered(log) && NoGap(steps)
    ensures |Heard(log, BeforeElsewhere(steps))| == |Heard(log, steps)|
  {
    var heard := Heard(log, steps);
    HeardContinues(log, steps);
    LogGrows(log, steps);
    forall j | 0 <= j < |heard| ensures heard[j].sequence == |log| + j {
      assert heard[j] == (log + heard)[|log| + j] == LogOver(log, steps)[|log| + j];
    }
    HeardBeforeElsewhere(log, steps);
  }

  /** Without a gap every connection is whole, wherever it is cut. */
  lemma {:induction false} NoGapIsWhole(c: Connection, after: int)
    requires Numbered(c.log) && (c.ended || NoGap(c.steps))
    ensures Whole(c, after)
  {
    SentIsBacklogAndHeard(c, after);
    SinglesDeliver(Sent(c, after, false));
    if !c.ended { NoGapHearsFirst(c.log, c.steps); }
  }

  lemma {:induction false} SinglesDeliver(frames: seq<Frame>)
    requires AllSingle(frames)
    ensures |Delivered(frames)| == |frames|
    ensures forall k {:trigger frames[k]} | 0 <= k < |frames| :: Delivered(frames)[k] == frames[k].event
  {
    if frames != [] {
      var m := |frames| - 1;
      assert frames[m] in frames;
      SinglesDeliver(frames[..m]);
      forall k {:trigger frames[k]} | 0 <= k < |frames| ensures Delivered(frames)[k] == frames[k].event {
        if k < m { assert frames[..m][k] == frames[k]; }
      }
    }
  }

  /** Of single frames any first part delivers the first events, and the last id is the last of them. */
  lemma {:induction false} PrefixDelivers(frames: seq<Frame>, n: nat, before: int)
    requires AllSingle(frames) && n <= |frames|
    ensures |Delivered(frames)| == |frames| && Delivered(frames[..n]) == Delivered(frames)[..n]
    ensures LastId(frames[..n], before) == if n == 0 then before else Delivered(frames)[n - 1].sequence
  {
    SinglesDeliver(frames);
    SinglesDeliver(frames[..n]);
    forall k | 0 <= k < n ensures Delivered(frames[..n])[k] == Delivered(frames)[k] {
      assert frames[..n][k] == frames[k];
    }
    if n > 0 { assert frames[..n][n - 1] == frames[n - 1]; }
  }

  /** The first n frames of those that deliver how a log goes on after `after`. */
  lemma {:induction false} FirstFrames(sent: seq<Frame>, all: seq<Event>, after: int, from: nat, n: nat, to: nat)
    requires AllSingle(sent) && Numbered(all) && from == after + 1 && to == from + n <= |all|
    requires n <= |Delivered(sent)| == |sent| && Delivered(sent)[..n] == all[from..to]
    ensures LastId(sent[..n], after) == to - 1 && Delivered(sent[..n]) == all[from..to]
  {
    PrefixDelivers(sent, n, after);
    if n > 0 {
      assert Delivered(sent)[n - 1] == Delivered(sent)[..n][n - 1] == all[to - 1];
    }
  }

  lemma {:induction false} ShorterPrefix(a: seq<Event>, all: seq<Event>, from: nat, k: nat, to: nat, n: nat, upTo: nat)
    requires n <= k <= |a| && from <= to <= |all| && to == from + k && upTo == from + n && a[..k] == all[from..to]
    ensures a[..n] == all[from..upTo]
  {
    assert a[..k][..n] == a[..n] && all[from..to][..n] == all[from..upTo];
  }

  /** What a client that has seen `after` gets of one connection. */
  lemma {:induction false} OneConnection(c: Connection, after: int) returns (from: nat, to: nat)
    requires Numbered(c.log) && (-1 <= after < |c.log| || after == -1)
    ensures from == after + 1 <= to
    ensures var got, last := Delivered(Received(c, after, false)), LastId(Received(c, after, false), after);
            if Whole(c, after) then to == last + 1 <= |LogOver(c.log, c.steps)| && got == LogOver(c.log, c.steps)[from..to]
            else var k := Unbroken(c, after); k < |got| && got[k].sequence > to == from + k
  {
    var sent, all := Sent(c, after, false), LogOver(c.log, c.steps);
    var n := AtMost(c.received, |sent|);
    var k, end;
    from, k, end := SentContinues(c, after);
    LogGrows(c.log, c.steps);
    PrefixDelivers(sent, n, after);
    if Whole(c, after) {
      to := from + n;
      ShorterPrefix(Delivered(sent), all, from, k, end, n, to);
      FirstFrames(sent, all, after, from, n, to);
    } else {
      to := end;
      assert Delivered(sent)[..n][k] == Delivered(sent)[k];
    }
  }

  /** All events up to id, each once and in order. */
  predicate GotAll(got: seq<Event>, id: int, log: seq<Event>) { -1 <= id < |log| && got == log[..id + 1] }

  lemma {:induction false} GotMore(got: seq<Event>, id: int, log: seq<Event>, more: seq<Event>, all: seq<Event>, from: nat, to: nat)
    requires GotAll(got, id, log) && log <= all && from == id + 1 <= to <= |all| && more == all[from..to]
    ensures GotAll(got + more, to - 1, all)
  {
    assert log[..from] == all[..from];
    assert all[..from] + all[from..to] == all[..to];
  }

  lemma {:induction false} NextConnection(got: seq<Event>, id: int, log: seq<Event>, c: Connection)
    requires GotAll(got, id, log) && log <= c.log && Numbered(c.log) && Whole(c, id)
    ensures GotAll(got + Delivered(Received(c, id, false)), LastId(Received(c, id, false), id), LogOver(c.log, c.steps))
  {
    var from, to := OneConnection(c, id);
    LogGrows(c.log, c.steps);
    GotMore(got, id, log, Delivered(Received(c, id, false)), LogOver(c.log, c.steps), from, to);
  }

  lemma {:induction false} WholeChainGetsAll(cs: seq<Connection>)
    requires Chained(cs) && cs != [] && AllWhole(cs)
    ensures var c := cs[|cs| - 1];
            GotAll(ChainGot(cs, false), ChainId(cs, false), LogOver(c.log, c.steps))
    decreases |cs|
  {
    var n := |cs| - 1;
    var c, before := cs[n], cs[..n];
    var id := ChainId(before, false);
    if n == 0 {
      var from, to := OneConnection(c, -1);
      assert ChainGot(cs, false) == Delivered(Received(c, -1, false));
    } else {
      WholeChainGetsAll(before);
      NextConnection(ChainGot(before, false), id, LogOver(cs[n - 1].log, cs[n - 1].steps), c);
    }
  }

  lemma {:induction false} Misplaced(front: seq<Event>, got: seq<Event>, k: nat, to: nat) returns (j: nat)
    requires k < |got| && got[k].sequence > to == |front| + k
    ensures j < |front + got| && (front + got)[j].sequence != j
  {
    j := to;
    assert (front + got)[j] == got[k];
  }

  /** Once an event has got through out of its place, it stays so. */
  lemma {:induction false} BrokenChainMisplaces(cs: seq<Connection>) returns (j: nat)
    requires Chained(cs) && !AllWhole(cs)
    ensures j < |ChainGot(cs, false)| && ChainGot(cs, false)[j].sequence != j
    decreases |cs|
  {
    var n := |cs| - 1;
    var c, before := cs[n], cs[..n];
    var id := ChainId(before, false);
    if !AllWhole(before) {
      j := BrokenChainMisplaces(before);
    } else {
      if n > 0 { WholeChainGetsAll(before); }
      var from, to := OneConnection(c, id);
      j := Misplaced(ChainGot(before, false), Delivered(Received(c, id, false)), Unbroken(c, id), to);
    }
  }

  lemma {:induction false} ChainedLogNumbered(cs: seq<Connection>)
    requires Chained(cs) && cs != []
    ensures var c := cs[|cs| - 1]; Numbered(LogOver(c.log, c.steps))
  {
    LogGrows(cs[|cs| - 1].log, cs[|cs| - 1].steps);
  }

  /**
   * A chain of unbuffered reconnections, however cut and whether or not the run ends in one of
   * them, delivers each event exactly once and in order, up to the last id seen, exactly if in no
   * connection an event got through behind one of another process.
   */
  lemma {:induction false} ReconnectsDeliverOnce(cs: seq<Connection>)
    requires Chained(cs) && cs != []
    ensures var c := cs[|cs| - 1];
            AllWhole(cs) <==> GotAll(ChainGot(cs, false), ChainId(cs, false), LogOver(c.log, c.steps))
  {
    if AllWhole(cs) {
      WholeChainGetsAll(cs);
    } else {
      var j := BrokenChainMisplaces(cs);
      ChainedLogNumbered(cs);
    }
  }

  /** Batches carry no id: a client of the buffered stream reconnects from where it began. */
  lemma {:induction false} BatchesLeaveNoId(frames: seq<Frame>, before: int)
    requires forall f | f in frames :: f.Batch?
    ensures LastId(frames, before) == before
  {
    if frames != [] {
      assert frames[|frames| - 1] in frames;
      BatchesLeaveNoId(frames[..|frames| - 1], before);
    }
  }

  // ------------------------------------------------------------ when batches are written

  /** A batched stream writes only when the timer fires or an event ends the run, and then all it holds as one batch. */
  lemma {:induction false} BatchesWhenDue(s: Stream, log: seq<Event>, step: Step)
    requires s.batched && s.live
    ensures var after := StreamAfter(s, log, step);
            var heard := if step.Here? then [Event(|log|, step.ends, step.data)] else [];
            var due := step.Timer? || (step.Here? && step.ends);
            && (due ==> after.buffer == [] && after.frames == if s.buffer + heard == [] then s.frames else s.frames + [Batch(s.buffer + heard)])
            && (!due ==> after.frames == s.frames && after.buffer == s.buffer + heard)
  {
    assert s.buffer + [] == s.buffer;
  }

  /** Nor does it write the backlog before that. */
  lemma {:induction false} BacklogIsBuffered(s: Stream, es: seq<Event>)
    requires s.batched && forall e | e in es :: !e.ends
    ensures WriteAll(s, es) == s.(buffer := s.buffer + es)
    decreases |es|
  {
    if es == [] {
      assert s.buffer + [] == s.buffer;
    } else {
      var n := |es| - 1;
      BacklogIsBuffered(s, es[..n]);
      assert es[n] in es && es[..n] + [es[n]] == es;
      assert s.buffer + es[..n] + [es[n]] == s.buffer + es;
    }
  }
}
