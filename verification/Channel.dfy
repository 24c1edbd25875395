/**
 * core.channelWrite of the SQLite host (examples/hosts/sqlite/src/server.ts): a channel
 * pruned by age and by size at every write, against what it would be from scratch.
 */
module Channel {
  import opened Wrappers

  /** An entry as stored: bare, or wrapped with the time of its write. */
  datatype Entry<V> = Bare(value: V) | Wrapped(value: V, ts: int)

  /** The configured bounds; the source takes those that are not positive for absent. */
  datatype Bounds = Bounds(ttlMs: Option<int>, maxSize: Option<int>)

  predicate Proper(b: Bounds) {
    (b.ttlMs.Some? ==> b.ttlMs.value > 0) && (b.maxSize.Some? ==> b.maxSize.value > 0)
  }

  predicate Fresh<V>(e: Entry<V>, horizon: int) { e.Wrapped? ==> e.ts >= horizon }

  function Kept<V>(es: seq<Entry<V>>, horizon: int): seq<Entry<V>> {
    if es == [] then []
    else
      var n := |es| - 1;
      if Fresh(es[n], horizon) then Kept(es[..n], horizon) + [es[n]] else Kept(es[..n], horizon)
  }

  function Pruned<V>(es: seq<Entry<V>>, b: Bounds, now: int): seq<Entry<V>> {
    if b.ttlMs.None? then es else Kept(es, now - b.ttlMs.value)
  }

  function Last<V>(es: seq<Entry<V>>, size: nat): seq<Entry<V>> {
    if |es| > size then es[|es| - size..] else es
  }

  function Bounded<V>(es: seq<Entry<V>>, b: Bounds): seq<Entry<V>>
    requires Proper(b)
  {
    if b.maxSize.None? then es else Last(es, b.maxSize.value)
  }

  function NewEntry<V>(value: V, b: Bounds, now: int): Entry<V> {
    if b.ttlMs.None? then Bare(value) else Wrapped(value, now)
  }

  /** The stored array after one write. */
  function Written<V>(es: seq<Entry<V>>, b: Bounds, value: V, now: int): seq<Entry<V>>
    requires Proper(b)
  {
    Bounded(Pruned(es, b, now) + [NewEntry(value, b, now)], b)
  }

  /** What a run's variable map holds under a name. */
  datatype Stored<V> = Entries(entries: seq<Entry<V>>) | NotAnArray

  function Existing<V>(variables: map<string, Stored<V>>, name: string): seq<Entry<V>> {
    if name in variables && variables[name].Entries? then variables[name].entries else []
  }

  class Run<V> {
    var variables: map<string, Stored<V>>

    constructor (variables: map<string, Stored<V>>)
      ensures this.variables == variables
    {
      this.variables := variables;
    }

    method ChannelWrite(name: string, ttl: int, max: int, value: V, now: int)
      modifies this
      ensures var b := Bounds(if ttl > 0 then Some(ttl) else None, if max > 0 then Some(max) else None);
              variables == old(variables)[name := Entries(Written(Existing(old(variables), name), b, value, now))]
    {
      var ttlMs := if ttl > 0 then Some(ttl) else None;
      var maxSize := if max > 0 then Some(max) else None;
      var existing: seq<Entry<V>> := [];
      if name in variables && variables[name].Entries? { existing := variables[name].entries; }
      var kept := existing;
      if ttlMs.Some? { kept := Filter(existing, now - ttlMs.value); }
      var newEntry := if ttlMs.None? then Bare(value) else Wrapped(value, now);
      var next := kept + [newEntry];
      var bounded := next;
      if maxSize.Some? && |next| > maxSize.value { bounded := next[|next| - maxSize.value..]; }
      variables := variables[name := Entries(bounded)];
    }

    static method Filter(es: seq<Entry<V>>, horizon: int) returns (kept: seq<Entry<V>>)
      ensures kept == Kept(es, horizon)
    {
      kept := [];
      for i := 0 to |es|
        invariant kept == Kept(es[..i], horizon)
      {
        assert es[..i + 1][..i] == es[..i];
        if Fresh(es[i], horizon) { kept := kept + [es[i]]; }
      }
      assert es[..|es|] == es;
    }
  }

  // --------------------------------------------------------------- from scratch

  datatype Write<V> = Write(value: V, now: int)

  function Replay<V>(start: seq<Entry<V>>, b: Bounds, writes: seq<Write<V>>): seq<Entry<V>>
    requires Proper(b)
  {
    if writes == [] then start
    else
      var n := |writes| - 1;
      Written(Replay(start, b, writes[..n]), b, writes[n].value, writes[n].now)
  }

  /** Everything ever put in the channel. */
  function Everything<V>(start: seq<Entry<V>>, b: Bounds, writes: seq<Write<V>>): seq<Entry<V>> {
    if writes == [] then start
    else
      var n := |writes| - 1;
      Everything(start, b, writes[..n]) + [NewEntry(writes[n].value, b, writes[n].now)]
  }

  /** The last maxSize of what is still fresh at the last write. */
  function FromScratch<V>(start: seq<Entry<V>>, b: Bounds, writes: seq<Write<V>>): seq<Entry<V>>
    requires Proper(b) && writes != []
  {
    Bounded(Pruned(Everything(start, b, writes), b, writes[|writes| - 1].now), b)
  }

  lemma {:induction false} KeptOneMore<V>(es: seq<Entry<V>>, e: Entry<V>, horizon: int)
    ensures Kept(es + [e], horizon) == if Fresh(e, horizon) then Kept(es, horizon) + [e] else Kept(es, horizon)
  {
    assert (es + [e])[..|es|] == es;
  }

  // ------------------------------------------------ pruned entries by their places

  /** The entries that are flagged. */
  function Pick<V>(es: seq<Entry<V>>, flags: seq<bool>): seq<Entry<V>>
    requires |es| == |flags|
  {
    if es == [] then []
    else
      var n := |es| - 1;
      if flags[n] then Pick(es[..n], flags[..n]) + [es[n]] else Pick(es[..n], flags[..n])
  }

  function Count(flags: seq<bool>): nat {
    if flags == [] then 0
    else
      var n := |flags| - 1;
      Count(flags[..n]) + if flags[n] then 1 else 0
  }

  /** How many places after i are flagged. */
  function Behind(flags: seq<bool>, i: nat): nat
    requires i < |flags|
  {
    Count(flags[i + 1..])
  }

  predicate FreshAt<V>(e: Entry<V>, b: Bounds, now: int) { b.ttlMs.Some? ==> Fresh(e, now - b.ttlMs.value) }

  predicate Room(b: Bounds, behind: nat) { b.maxSize.Some? ==> behind < b.maxSize.value }

  /** The i-th entry ever put in the channel, those it started with first. */
  function EntryAt<V>(start: seq<Entry<V>>, b: Bounds, writes: seq<Write<V>>, i: nat): Entry<V>
    requires i < |start| + |writes|
  {
    if i < |start| then start[i] else NewEntry(writes[i - |start|].value, b, writes[i - |start|].now)
  }

  /** The first write that can drop entry i. */
  function Birth<V>(start: seq<Entry<V>>, i: nat): nat { if i < |start| then 0 else i - |start| }

  /** Entry i was fresh at every write from its own to write j. */
  ghost predicate FreshSince<V>(start: seq<Entry<V>>, b: Bounds, writes: seq<Write<V>>, i: nat, j: nat)
    requires i < |start| + |writes| && j < |writes|
  {
    forall h {:trigger writes[h]} | Birth(start, i) <= h <= j :: FreshAt(EntryAt(start, b, writes, i), b, writes[h].now)
  }

  ghost function FreshFlags<V>(start: seq<Entry<V>>, b: Bounds, writes: seq<Write<V>>, j: nat): (flags: seq<bool>)
    requires j < |writes|
    ensures |flags| == |start| + j + 1
    ensures forall i {:trigger flags[i]} | 0 <= i < |flags| :: flags[i] == FreshSince(start, b, writes, i, j)
  {
    seq(|start| + j + 1, i requires 0 <= i < |start| + j + 1 => FreshSince(start, b, writes, i, j))
  }

  /** At no write up to j were maxSize entries behind entry i that had stayed fresh. */
  ghost predicate NeverCrowded<V>(start: seq<Entry<V>>, b: Bounds, writes: seq<Write<V>>, i: nat, j: nat)
    requires i < |start| + |writes| && j < |writes|
  {
    forall h {:trigger FreshFlags(start, b, writes, h)} | Birth(start, i) <= h <= j ::
      Room(b, Behind(FreshFlags(start, b, writes, h), i))
  }

  /** Write j and those before it leave entry i in the channel. */
  ghost predicate Stays<V>(start: seq<Entry<V>>, b: Bounds, writes: seq<Write<V>>, i: nat, j: nat)
    requires i < |start| + |writes| && j < |writes|
  {
    FreshSince(start, b, writes, i, j) && NeverCrowded(start, b, writes, i, j)
  }

  ghost function StayFlags<V>(start: seq<Entry<V>>, b: Bounds, writes: seq<Write<V>>, j: nat): (flags: seq<bool>)
    requires j < |writes|
    ensures |flags| == |start| + j + 1
    ensures forall i {:trigger flags[i]} | 0 <= i < |flags| :: flags[i] == Stays(start, b, writes, i, j)
  {
    seq(|start| + j + 1, i requires 0 <= i < |start| + j + 1 => Stays(start, b, writes, i, j))
  }

  lemma {:induction false} EverythingAt<V>(start: seq<Entry<V>>, b: Bounds, writes: seq<Write<V>>, m: nat)
    requires m <= |writes|
    ensures var all := Everything(start, b, writes[..m]);
            |all| == |start| + m && forall i {:trigger all[i]} | 0 <= i < |all| :: all[i] == EntryAt(start, b, writes, i)
  {
    if m > 0 {
      assert writes[..m][..m - 1] == writes[..m - 1];
      EverythingAt(start, b, writes, m - 1);
    }
  }

  // ------------------------------------------------------------ flags and what they pick

  lemma {:induction false} BehindFront(flags: seq<bool>, i: nat, n: nat)
    requires i < n && n + 1 == |flags|
    ensures Behind(flags, i) == Behind(flags[..n], i) + if flags[n] then 1 else 0
  {
    assert flags[i + 1..][..n - i - 1] == flags[..n][i + 1..];
  }

  lemma {:induction false} CountLess(few: seq<bool>, many: seq<bool>)
    requires |few| == |many| && forall i | 0 <= i < |few| :: few[i] ==> many[i]
    ensures Count(few) <= Count(many)
  {
    if few != [] { CountLess(few[..|few| - 1], many[..|few| - 1]); }
  }

  lemma {:induction false} CountOfConcat(a: seq<bool>, b: seq<bool>)
    ensures Count(a + b) == Count(a) + Count(b)
  {
    if b == [] {
      assert a + b == a;
    } else {
      assert (a + b)[..|a + b| - 1] == a + b[..|b| - 1];
      CountOfConcat(a, b[..|b| - 1]);
    }
  }

  lemma {:induction false} BehindFalls(flags: seq<bool>, i: nat, k: nat)
    requires i <= k < |flags|
    ensures Behind(flags, k) <= Behind(flags, i)
    ensures i < k && flags[k] ==> Behind(flags, k) < Behind(flags, i)
  {
    if i < k {
      assert flags[i + 1..] == flags[i + 1..k] + ([flags[k]] + flags[k + 1..]);
      CountOfConcat(flags[i + 1..k], [flags[k]] + flags[k + 1..]);
      CountOfConcat([flags[k]], flags[k + 1..]);
      assert Count([flags[k]]) == if flags[k] then 1 else 0;
    }
  }

  lemma {:induction false} BehindLess(few: seq<bool>, many: seq<bool>, i: nat)
    requires i < |few| == |many| && forall k | i < k < |few| :: few[k] ==> many[k]
    ensures Behind(few, i) <= Behind(many, i)
  {
    CountLess(few[i + 1..], many[i + 1..]);
  }

  /** Of the flagged places, those with fewer than size flagged behind them. */
  ghost predicate CutTo(flags: seq<bool>, cut: seq<bool>, size: nat) {
    |cut| == |flags| && forall i {:trigger cut[i]} | 0 <= i < |flags| :: cut[i] == (flags[i] && Behind(flags, i) < size)
  }

  lemma {:induction false} CutFront(flags: seq<bool>, cut: seq<bool>, size: nat, n: nat)
    requires CutTo(flags, cut, size) && n + 1 == |flags|
    ensures cut[n] == (flags[n] && size > 0)
    ensures if flags[n] && size > 0 then CutTo(flags[..n], cut[..n], size - 1) else CutTo(flags[..n], cut[..n], if flags[n] then 0 else size)
  {
    assert flags[n + 1..] == [];
    forall i | 0 <= i < n ensures Behind(flags, i) == Behind(flags[..n], i) + if flags[n] then 1 else 0 {
      BehindFront(flags, i, n);
    }
  }

  /** As many are left as there were, or size. */
  lemma {:induction false} CutCounts(flags: seq<bool>, cut: seq<bool>, size: nat)
    requires CutTo(flags, cut, size)
    ensures Count(cut) == if Count(flags) < size then Count(flags) else size
    decreases |flags|
  {
    if flags != [] {
      var n := |flags| - 1;
      CutFront(flags, cut, size, n);
      CutCounts(flags[..n], cut[..n], if !flags[n] then size else if size > 0 then size - 1 else 0);
    }
  }

  lemma {:induction false} LastOfOneMore<V>(es: seq<Entry<V>>, e: Entry<V>, size: nat)
    requires size > 0
    ensures Last(es + [e], size) == Last(es, size - 1) + [e]
  {}

  lemma {:induction false} LastOfPick<V>(es: seq<Entry<V>>, flags: seq<bool>, cut: seq<bool>, size: nat)
    requires |es| == |flags| && CutTo(flags, cut, size)
    ensures Last(Pick(es, flags), size) == Pick(es, cut)
    decreases |es|
  {
    if es != [] {
      var n := |es| - 1;
      CutFront(flags, cut, size, n);
      LastOfPick(es[..n], flags[..n], cut[..n], if !flags[n] then size else if size > 0 then size - 1 else 0);
      if flags[n] && size > 0 { LastOfOneMore(Pick(es[..n], flags[..n]), es[n], size); }
      if size == 0 { LastNone(Pick(es, flags)); LastNone(Pick(es[..n], flags[..n])); }
    }
  }

  lemma {:induction false} LastNone<V>(es: seq<Entry<V>>)
    ensures Last(es, 0) == []
  {}

  lemma {:induction false} KeptOfPick<V>(es: seq<Entry<V>>, flags: seq<bool>, both: seq<bool>, horizon: int)
    requires |es| == |flags| == |both| && forall i | 0 <= i < |es| :: both[i] == (flags[i] && Fresh(es[i], horizon))
    ensures Kept(Pick(es, flags), horizon) == Pick(es, both)
  {
    if es != [] {
      var n := |es| - 1;
      KeptOfPick(es[..n], flags[..n], both[..n], horizon);
      if flags[n] { KeptOneMore(Pick(es[..n], flags[..n]), es[n], horizon); }
    }
  }

  lemma {:induction false} SamePick<V>(es: seq<Entry<V>>, a: seq<bool>, b: seq<bool>)
    requires |es| == |a| == |b| && forall i | 0 <= i < |a| :: a[i] == b[i]
    ensures Pick(es, a) == Pick(es, b)
  {
    assert a == b;
  }

  lemma {:induction false} PickAll<V>(es: seq<Entry<V>>, flags: seq<bool>)
    requires |es| == |flags| && forall i | 0 <= i < |es| :: flags[i]
    ensures Pick(es, flags) == es
  {
    if es != [] { PickAll(es[..|es| - 1], flags[..|es| - 1]); }
  }

  lemma {:induction false} PickOfConcat<V>(es: seq<Entry<V>>, flags: seq<bool>, m: nat)
    requires |es| == |flags| && m <= |es|
    ensures Pick(es, flags) == Pick(es[..m], flags[..m]) + Pick(es[m..], flags[m..])
    decreases |es|
  {
    if m == |es| {
      assert es[..m] == es && flags[..m] == flags && es[m..] == [];
    } else {
      var n := |es| - 1;
      PickOfConcat(es[..n], flags[..n], m);
      assert es[..n][..m] == es[..m] && flags[..n][..m] == flags[..m];
      assert es[m..][..n - m] == es[..n][m..] && flags[m..][..n - m] == flags[..n][m..];
    }
  }

  lemma {:induction false} LastPicked<V>(es: seq<Entry<V>>, flags: seq<bool>) returns (r: nat)
    requires |es| == |flags| && Pick(es, flags) != []
    ensures r < |es| && flags[r] && es[r] == Pick(es, flags)[|Pick(es, flags)| - 1]
  {
    var n := |es| - 1;
    if flags[n] { r := n; } else { r := LastPicked(es[..n], flags[..n]); }
  }

  // ------------------------------------------------------------- what a replay leaves

  /** Pruning, appending and cutting what is flagged. */
  lemma {:induction false} WrittenPicks<V>(es: seq<Entry<V>>, flags: seq<bool>, b: Bounds, value: V, now: int, kept: seq<bool>, cut: seq<bool>)
    requires Proper(b) && |es| == |flags| && |kept| == |es| + 1 == |cut| && kept[|es|]
    requires forall i | 0 <= i < |es| :: kept[i] == (flags[i] && FreshAt(es[i], b, now))
    requires forall i {:trigger cut[i]} | 0 <= i < |cut| :: cut[i] == (kept[i] && Room(b, Behind(kept, i)))
    ensures Written(Pick(es, flags), b, value, now) == Pick(es + [NewEntry(value, b, now)], cut)
  {
    var all := es + [NewEntry(value, b, now)];
    if b.ttlMs.Some? {
      KeptOfPick(es, flags, kept[..|es|], now - b.ttlMs.value);
    } else {
      SamePick(es, flags, kept[..|es|]);
    }
    assert all[..|es|] == es;
    assert Pick(all, kept) == Pruned(Pick(es, flags), b, now) + [NewEntry(value, b, now)];
    if b.maxSize.Some? { LastOfPick(all, kept, cut, b.maxSize.value); } else { SamePick(all, kept, cut); }
  }

  /** Entry i is in the channel when write j comes. */
  ghost predicate Before<V>(start: seq<Entry<V>>, b: Bounds, writes: seq<Write<V>>, i: nat, j: nat)
    requires i < |start| + j && j < |writes|
  {
    j > 0 ==> Stays(start, b, writes, i, j - 1)
  }

  /** What write j keeps, its own entry included. */
  ghost predicate KeptBy<V>(start: seq<Entry<V>>, b: Bounds, writes: seq<Write<V>>, i: nat, j: nat)
    requires i < |start| + j + 1 && j < |writes|
  {
    i < |start| + j ==> Before(start, b, writes, i, j) && FreshAt(EntryAt(start, b, writes, i), b, writes[j].now)
  }

  lemma {:induction false} KeptIsFresh<V>(start: seq<Entry<V>>, b: Bounds, writes: seq<Write<V>>, i: nat, j: nat)
    requires Proper(b) && i < |start| + j + 1 && j < |writes| && KeptBy(start, b, writes, i, j)
    ensures FreshSince(start, b, writes, i, j)
  {
    forall h {:trigger writes[h]} | Birth(start, i) <= h <= j ensures FreshAt(EntryAt(start, b, writes, i), b, writes[h].now) {}
  }

  /** Behind an entry that is kept every entry that has stayed fresh is kept as well. */
  lemma {:induction false} FreshBehindKept<V>(start: seq<Entry<V>>, b: Bounds, writes: seq<Write<V>>, i: nat, k: nat, j: nat)
    requires i < k < |start| + j + 1 && j < |writes|
    requires KeptBy(start, b, writes, i, j) && FreshSince(start, b, writes, k, j)
    ensures KeptBy(start, b, writes, k, j)
  {
    assert FreshAt(EntryAt(start, b, writes, k), b, writes[j].now);
    if j > 0 && k < |start| + j {
      forall h {:trigger FreshFlags(start, b, writes, h)} | Birth(start, k) <= h <= j - 1
        ensures Room(b, Behind(FreshFlags(start, b, writes, h), k))
      {
        BehindFalls(FreshFlags(start, b, writes, h), i, k);
        assert Room(b, Behind(FreshFlags(start, b, writes, h), i));
      }
    }
  }

  lemma {:induction false} BehindKept<V>(start: seq<Entry<V>>, b: Bounds, writes: seq<Write<V>>, kept: seq<bool>, i: nat, j: nat)
    requires Proper(b) && j < |writes| && i < |kept| == |start| + j + 1 && kept[i]
    requires forall k {:trigger kept[k]} | 0 <= k < |kept| :: kept[k] == KeptBy(start, b, writes, k, j)
    ensures Behind(kept, i) == Behind(FreshFlags(start, b, writes, j), i)
  {
    var young := FreshFlags(start, b, writes, j);
    forall k | i < k < |kept| ensures kept[k] == young[k] {
      if kept[k] { KeptIsFresh(start, b, writes, k, j); }
      if young[k] { FreshBehindKept(start, b, writes, i, k, j); }
    }
    assert kept[i + 1..] == young[i + 1..];
  }

  lemma {:induction false} StaysOneMore<V>(start: seq<Entry<V>>, b: Bounds, writes: seq<Write<V>>, i: nat, j: nat)
    requires Proper(b) && j < |writes| && i < |start| + j + 1
    ensures Stays(start, b, writes, i, j)
       <==> KeptBy(start, b, writes, i, j) && Room(b, Behind(FreshFlags(start, b, writes, j), i))
  {
    if KeptBy(start, b, writes, i, j) { KeptIsFresh(start, b, writes, i, j); }
    if Stays(start, b, writes, i, j) { assert FreshAt(EntryAt(start, b, writes, i), b, writes[j].now); }
  }

  lemma {:induction false} StaysCuts<V>(start: seq<Entry<V>>, b: Bounds, writes: seq<Write<V>>, kept: seq<bool>, j: nat)
    requires Proper(b) && j < |writes| && |kept| == |start| + j + 1
    requires forall k {:trigger kept[k]} | 0 <= k < |kept| :: kept[k] == KeptBy(start, b, writes, k, j)
    ensures var cut := StayFlags(start, b, writes, j);
            forall i {:trigger cut[i]} | 0 <= i < |cut| :: cut[i] == (kept[i] && Room(b, Behind(kept, i)))
  {
    var cut := StayFlags(start, b, writes, j);
    forall i {:trigger cut[i]} | 0 <= i < |cut| ensures cut[i] == (kept[i] && Room(b, Behind(kept, i))) {
      StaysOneMore(start, b, writes, i, j);
      if kept[i] { BehindKept(start, b, writes, kept, i, j); }
    }
  }

  /** What the channel holds when write j comes. */
  lemma {:induction false} HeldBefore<V>(start: seq<Entry<V>>, b: Bounds, writes: seq<Write<V>>, j: nat) returns (flags: seq<bool>)
    requires Proper(b) && j < |writes|
    ensures |Everything(start, b, writes[..j])| == |start| + j == |flags|
    ensures forall i {:trigger flags[i]} | 0 <= i < |flags| :: flags[i] == Before(start, b, writes, i, j)
    ensures Replay(start, b, writes[..j]) == Pick(Everything(start, b, writes[..j]), flags)
    decreases j, 0
  {
    EverythingAt(start, b, writes, j);
    flags := seq(|start| + j, i requires 0 <= i < |start| + j => Before(start, b, writes, i, j));
    if j > 0 {
      ReplayLeaves(start, b, writes, j - 1, j);
      SamePick(Everything(start, b, writes[..j]), StayFlags(start, b, writes, j - 1), flags);
    } else {
      PickAll(Everything(start, b, writes[..j]), flags);
    }
  }

  /** After write j the channel holds exactly the entries that stay, in order. */
  lemma {:induction false} ReplayLeaves<V>(start: seq<Entry<V>>, b: Bounds, writes: seq<Write<V>>, j: nat, m: nat)
    requires Proper(b) && j + 1 == m <= |writes|
    ensures |Everything(start, b, writes[..m])| == |start| + m
    ensures Replay(start, b, writes[..m]) == Pick(Everything(start, b, writes[..m]), StayFlags(start, b, writes, j))
    decreases j, 1
  {
    EverythingAt(start, b, writes, m);
    assert writes[..m][..j] == writes[..j];
    var flags := HeldBefore(start, b, writes, j);
    var kept := seq(|start| + m, i requires 0 <= i < |start| + m => KeptBy(start, b, writes, i, j));
    StaysCuts(start, b, writes, kept, j);
    EverythingAt(start, b, writes, j);
    WrittenPicks(Everything(start, b, writes[..j]), flags, b, writes[j].value, writes[j].now, kept, StayFlags(start, b, writes, j));
  }

  // --------------------------------------------------------------- what is wanted

  ghost function FreshAtEnd<V>(start: seq<Entry<V>>, b: Bounds, writes: seq<Write<V>>): (flags: seq<bool>)
    requires writes != []
    ensures |flags| == |start| + |writes|
    ensures forall i {:trigger flags[i]} | 0 <= i < |flags| ::
              flags[i] == FreshAt(EntryAt(start, b, writes, i), b, writes[|writes| - 1].now)
  {
    seq(|start| + |writes|, i requires 0 <= i < |start| + |writes| =>
      FreshAt(EntryAt(start, b, writes, i), b, writes[|writes| - 1].now))
  }

  /** Entry i is among the last maxSize of those fresh at the last write. */
  ghost predicate Wanted<V>(start: seq<Entry<V>>, b: Bounds, writes: seq<Write<V>>, i: nat)
    requires writes != [] && i < |start| + |writes|
  {
    var young := FreshAtEnd(start, b, writes);
    young[i] && Room(b, Behind(young, i))
  }

  ghost function WantedFlags<V>(start: seq<Entry<V>>, b: Bounds, writes: seq<Write<V>>): (flags: seq<bool>)
    requires writes != []
    ensures |flags| == |start| + |writes|
    ensures forall i {:trigger flags[i]} | 0 <= i < |flags| :: flags[i] == Wanted(start, b, writes, i)
  {
    seq(|start| + |writes|, i requires 0 <= i < |start| + |writes| => Wanted(start, b, writes, i))
  }

  lemma {:induction false} FromScratchPicks<V>(start: seq<Entry<V>>, b: Bounds, writes: seq<Write<V>>)
    requires Proper(b) && writes != []
    ensures |Everything(start, b, writes)| == |start| + |writes|
    ensures FromScratch(start, b, writes) == Pick(Everything(start, b, writes), WantedFlags(start, b, writes))
  {
    var all, young, wanted := Everything(start, b, writes), FreshAtEnd(start, b, writes), WantedFlags(start, b, writes);
    assert writes[..|writes|] == writes;
    EverythingAt(start, b, writes, |writes|);
    var ones := seq(|all|, i => true);
    PickAll(all, ones);
    if b.ttlMs.Some? { KeptOfPick(all, ones, young, writes[|writes| - 1].now - b.ttlMs.value); } else { SamePick(all, ones, young); }
    if b.maxSize.Some? { LastOfPick(all, young, wanted, b.maxSize.value); } else { SamePick(all, young, wanted); }
  }

  lemma {:induction false} StaysIsFreshAtEnd<V>(start: seq<Entry<V>>, b: Bounds, writes: seq<Write<V>>, i: nat)
    requires writes != [] && i < |start| + |writes| && FreshSince(start, b, writes, i, |writes| - 1)
    ensures FreshAtEnd(start, b, writes)[i]
  {
    assert FreshAt(EntryAt(start, b, writes, i), b, writes[|writes| - 1].now);
  }

  /** If all that is wanted stays, what stays is wanted. */
  lemma {:induction false} NothingElseStays<V>(start: seq<Entry<V>>, b: Bounds, writes: seq<Write<V>>, i: nat)
    requires Proper(b) && writes != [] && i < |start| + |writes| && Stays(start, b, writes, i, |writes| - 1)
    requires forall k | 0 <= k < |start| + |writes| && Wanted(start, b, writes, k) :: Stays(start, b, writes, k, |writes| - 1)
    ensures Wanted(start, b, writes, i)
  {
    var last := |writes| - 1;
    var young, wanted, since := FreshAtEnd(start, b, writes), WantedFlags(start, b, writes), FreshFlags(start, b, writes, last);
    StaysIsFreshAtEnd(start, b, writes, i);
    assert Room(b, Behind(since, i));
    BehindLess(wanted, since, i);
    if b.maxSize.Some? {
      CutBehind(young, wanted, b.maxSize.value, i);
      CutCounts(young[i + 1..], wanted[i + 1..], b.maxSize.value);
    }
  }

  lemma {:induction false} CutBehind(flags: seq<bool>, cut: seq<bool>, size: nat, i: nat)
    requires CutTo(flags, cut, size) && i < |flags|
    ensures CutTo(flags[i + 1..], cut[i + 1..], size)
  {
    var f, c := flags[i + 1..], cut[i + 1..];
    forall k {:trigger c[k]} | 0 <= k < |f| ensures c[k] == (f[k] && Behind(f, k) < size) {
      assert f[k + 1..] == flags[i + 1 + k + 1..];
      assert c[k] == cut[i + 1 + k];
    }
  }

  /** An earlier entry like one that goes is gone as well. */
  lemma {:induction false} LikeEntriesGo<V>(start: seq<Entry<V>>, b: Bounds, writes: seq<Write<V>>, r: nat, i: nat, j: nat)
    requires r < i < |start| + j + 1 && j < |writes|
    requires EntryAt(start, b, writes, r) == EntryAt(start, b, writes, i) && Stays(start, b, writes, r, j)
    ensures Stays(start, b, writes, i, j)
  {
    forall h {:trigger FreshFlags(start, b, writes, h)} | Birth(start, i) <= h <= j
      ensures Room(b, Behind(FreshFlags(start, b, writes, h), i))
    {
      BehindFalls(FreshFlags(start, b, writes, h), r, i);
      assert Room(b, Behind(FreshFlags(start, b, writes, h), r));
    }
  }

  /** The last place at which the one flag is up and the other is not. */
  lemma {:induction false} LastMissing(wanted: seq<bool>, stays: seq<bool>, m: nat) returns (i: nat)
    requires |wanted| == |stays| && m < |wanted| && wanted[m] && !stays[m]
    ensures i < |wanted| && wanted[i] && !stays[i]
    ensures forall k | i < k < |wanted| :: wanted[k] ==> stays[k]
  {
    i := |wanted| - 1;
    while !wanted[i] || stays[i]
      invariant m <= i < |wanted|
      invariant forall k | i < k < |wanted| :: wanted[k] ==> stays[k]
      decreases i
    {
      i := i - 1;
    }
  }

  /** Lists picked from one differ if at the last place they disagree the one has an entry the other has nowhere before. */
  lemma {:induction false} PicksDiffer<V>(es: seq<Entry<V>>, wanted: seq<bool>, stays: seq<bool>, i: nat, m: nat)
    requires |es| == |wanted| == |stays| && i + 1 == m <= |es| && wanted[i] && !stays[i] && stays[m..] == wanted[m..]
    requires forall r | 0 <= r < i && es[r] == es[i] :: !stays[r]
    ensures Pick(es, stays) != Pick(es, wanted)
  {
    PickOfConcat(es, stays, m);
    PickOfConcat(es, wanted, m);
    var mine, theirs := Pick(es[..m], stays[..m]), Pick(es[..m], wanted[..m]);
    assert theirs != [] && theirs[|theirs| - 1] == es[i];
    if mine != [] { var r := LastPicked(es[..m], stays[..m]); }
    assert mine != theirs;
    SameFronts(mine, theirs, Pick(es[m..], wanted[m..]));
  }

  lemma {:induction false} SameFronts<V>(a: seq<Entry<V>>, b: seq<Entry<V>>, tail: seq<Entry<V>>)
    ensures a + tail == b + tail <==> a == b
  {
    if a + tail == b + tail {
      assert |a| == |b|;
      assert a == (a + tail)[..|a|] == (b + tail)[..|b|] == b;
    }
  }

  /** Where a wanted entry is gone, what is left is not what is wanted. */
  lemma {:induction false} MissingShows<V>(start: seq<Entry<V>>, b: Bounds, writes: seq<Write<V>>, m: nat, last: nat)
    requires Proper(b) && last + 1 == |writes| && m < |start| + |writes|
    requires Wanted(start, b, writes, m) && !Stays(start, b, writes, m, last)
    ensures |Everything(start, b, writes)| == |start| + |writes|
    ensures Pick(Everything(start, b, writes), StayFlags(start, b, writes, last))
         != Pick(Everything(start, b, writes), WantedFlags(start, b, writes))
  {
    var all, wanted, stays := Everything(start, b, writes), WantedFlags(start, b, writes), StayFlags(start, b, writes, last);
    EverythingAt(start, b, writes, |writes|);
    assert writes[..|writes|] == writes;
    var i := LastMissing(wanted, stays, m);
    forall k | i < k < |all| ensures stays[k] == wanted[k] {
      if stays[k] {
        StaysIsFreshAtEnd(start, b, writes, k);
        BehindFalls(FreshAtEnd(start, b, writes), i, k);
      }
    }
    forall r | 0 <= r < i && all[r] == all[i] ensures !stays[r] {
      if stays[r] { LikeEntriesGo(start, b, writes, r, i, last); }
    }
    assert stays[i + 1..] == wanted[i + 1..];
    PicksDiffer(all, wanted, stays, i, i + 1);
  }

  /**
   * For all bounds, starts and clocks: pruning at every write leaves what pruning once, from
   * scratch, leaves of everything ever written, exactly if every entry wanted at the end, one of
   * the last maxSize of those still fresh, was fresh at each write since its own and never had
   * maxSize entries behind it that had stayed fresh.
   */
  lemma {:induction false} PruningRefinesExactly<V>(start: seq<Entry<V>>, b: Bounds, writes: seq<Write<V>>)
    requires Proper(b) && writes != []
    ensures Replay(start, b, writes) == FromScratch(start, b, writes)
       <==> forall i | 0 <= i < |start| + |writes| && Wanted(start, b, writes, i) :: Stays(start, b, writes, i, |writes| - 1)
  {
    var last := |writes| - 1;
    assert writes[..|writes|] == writes;
    ReplayLeaves(start, b, writes, last, |writes|);
    FromScratchPicks(start, b, writes);
    if forall i | 0 <= i < |start| + |writes| && Wanted(start, b, writes, i) :: Stays(start, b, writes, i, last) {
      forall i | 0 <= i < |start| + |writes| ensures StayFlags(start, b, writes, last)[i] == WantedFlags(start, b, writes)[i] {
        if Stays(start, b, writes, i, last) { NothingElseStays(start, b, writes, i); }
      }
      SamePick(Everything(start, b, writes), StayFlags(start, b, writes, last), WantedFlags(start, b, writes));
    } else {
      var m :| 0 <= m < |start| + |writes| && Wanted(start, b, writes, m) && !Stays(start, b, writes, m, last);
      MissingShows(start, b, writes, m, last);
    }
  }

  // ------------------------------------------------------------------ its cases

  /** Entry i is not stale at write j if it is fresh at the last. */
  predicate NotLostAt<V>(start: seq<Entry<V>>, b: Bounds, writes: seq<Write<V>>, i: nat, j: nat)
    requires i < |start| + |writes| && j < |writes|
  {
    var e := EntryAt(start, b, writes, i);
    FreshAt(e, b, writes[|writes| - 1].now) ==> FreshAt(e, b, writes[j].now)
  }

  /** Without a size bound: exactly if no entry fresh at the last write was stale at one between. */
  lemma {:induction false} WithoutSizeBound<V>(start: seq<Entry<V>>, b: Bounds, writes: seq<Write<V>>)
    requires Proper(b) && writes != [] && b.maxSize.None?
    ensures Replay(start, b, writes) == FromScratch(start, b, writes)
       <==> forall i, j | 0 <= i < |start| + |writes| && Birth(start, i) <= j < |writes| :: NotLostAt(start, b, writes, i, j)
  {
    PruningRefinesExactly(start, b, writes);
    forall i | 0 <= i < |start| + |writes|
      ensures Wanted(start, b, writes, i) ==> Stays(start, b, writes, i, |writes| - 1)
         <==> forall j | Birth(start, i) <= j < |writes| :: NotLostAt(start, b, writes, i, j)
    {
      WithoutSizeBoundAt(start, b, writes, i, |writes| - 1);
    }
  }

  lemma {:induction false} WithoutSizeBoundAt<V>(start: seq<Entry<V>>, b: Bounds, writes: seq<Write<V>>, i: nat, last: nat)
    requires b.maxSize.None? && i < |start| + |writes| && last + 1 == |writes|
    ensures (Wanted(start, b, writes, i) ==> Stays(start, b, writes, i, last))
       <==> forall j | Birth(start, i) <= j < |writes| :: NotLostAt(start, b, writes, i, j)
  {
    if Wanted(start, b, writes, i) && (forall j | Birth(start, i) <= j < |writes| :: NotLostAt(start, b, writes, i, j)) {
      forall h {:trigger writes[h]} | Birth(start, i) <= h <= last ensures FreshAt(EntryAt(start, b, writes, i), b, writes[h].now) {
        assert NotLostAt(start, b, writes, i, h);
      }
    }
  }

  /**
   * For an empty channel with a ttl alone: exactly if no write still fresh at the last one was
   * stale at one between, which a clock that went back far enough makes it.
   */
  lemma {:induction false} TtlAlone<V>(b: Bounds, writes: seq<Write<V>>)
    requires Proper(b) && writes != [] && b.ttlMs.Some? && b.maxSize.None?
    ensures Replay([], b, writes) == FromScratch([], b, writes)
       <==> forall i, j | 0 <= i <= j < |writes| && writes[|writes| - 1].now - b.ttlMs.value <= writes[i].now ::
              writes[j].now - b.ttlMs.value <= writes[i].now
  {
    var none: seq<Entry<V>> := [];
    WithoutSizeBound(none, b, writes);
    var lossless := forall i, j | 0 <= i < |none| + |writes| && Birth(none, i) <= j < |writes| :: NotLostAt(none, b, writes, i, j);
    if lossless {
      forall i, j | 0 <= i <= j < |writes| && writes[|writes| - 1].now - b.ttlMs.value <= writes[i].now
        ensures writes[j].now - b.ttlMs.value <= writes[i].now
      {
        assert NotLostAt(none, b, writes, i, j);
      }
    }
  }

  predicate ClockForward<V>(writes: seq<Write<V>>) {
    forall i, j | 0 <= i < j < |writes| :: writes[i].now <= writes[j].now
  }

  /** Wrapped, oldest first. */
  ghost predicate Aged<V>(es: seq<Entry<V>>) {
    (forall i | 0 <= i < |es| :: es[i].Wrapped?) && forall i, j | 0 <= i < j < |es| :: es[i].ts <= es[j].ts
  }

  /** Where the clock never goes back an entry fresh at the end was fresh all along. */
  lemma {:induction false} ForwardKeepsFresh<V>(start: seq<Entry<V>>, b: Bounds, writes: seq<Write<V>>, i: nat)
    requires writes != [] && ClockForward(writes) && i < |start| + |writes| && FreshAtEnd(start, b, writes)[i]
    ensures FreshSince(start, b, writes, i, |writes| - 1)
  {
    forall h {:trigger writes[h]} | Birth(start, i) <= h < |writes|
      ensures FreshAt(EntryAt(start, b, writes, i), b, writes[h].now)
    {
      assert h == |writes| - 1 || writes[h].now <= writes[|writes| - 1].now;
    }
  }

  /** Behind an entry fresh at the end all are fresh at the end, if entries come in age order, as written ones do. */
  lemma {:induction false} AgedBehind<V>(start: seq<Entry<V>>, b: Bounds, writes: seq<Write<V>>, i: nat, k: nat)
    requires writes != [] && ClockForward(writes) && i < k < |start| + |writes| && FreshAtEnd(start, b, writes)[i]
    requires i < |start| && b.ttlMs.Some? ==> Aged(start) && forall m | 0 <= m < |start| :: start[m].ts <= writes[0].now
    ensures FreshAtEnd(start, b, writes)[k]
  {
    if b.ttlMs.Some? && |start| <= k {
      assert k - |start| == 0 || writes[0].now <= writes[k - |start|].now;
    }
  }

  lemma {:induction false} ForwardNeverCrowds<V>(start: seq<Entry<V>>, b: Bounds, writes: seq<Write<V>>, i: nat, h: nat)
    requires writes != [] && ClockForward(writes) && i < |start| + h + 1 && h < |writes| && Wanted(start, b, writes, i)
    requires i < |start| && b.ttlMs.Some? && b.maxSize.Some? ==>
               Aged(start) && forall m | 0 <= m < |start| :: start[m].ts <= writes[0].now
    ensures Room(b, Behind(FreshFlags(start, b, writes, h), i))
  {
    if b.maxSize.Some? {
      var young, since := FreshAtEnd(start, b, writes), FreshFlags(start, b, writes, h);
      var part := young[..|since|];
      forall k | i < k < |since| ensures part[k] { AgedBehind(start, b, writes, i, k); }
      BehindLess(since, part, i);
      assert young[i + 1..] == part[i + 1..] + young[|since|..];
      CountOfConcat(part[i + 1..], young[|since|..]);
    }
  }

  /**
   * Under a clock that never goes back only what the channel starts with can be lost, bare entries
   * included: exactly if at some write an entry of the start that is wanted at the end has maxSize
   * entries behind it that have stayed fresh so far.
   */
  lemma {:induction false} ForwardClockExactly<V>(start: seq<Entry<V>>, b: Bounds, writes: seq<Write<V>>)
    requires Proper(b) && writes != [] && ClockForward(writes)
    ensures Replay(start, b, writes) == FromScratch(start, b, writes)
       <==> forall i, h | 0 <= i < |start| && 0 <= h < |writes| && Wanted(start, b, writes, i) ::
              Room(b, Behind(FreshFlags(start, b, writes, h), i))
  {
    var last := |writes| - 1;
    PruningRefinesExactly(start, b, writes);
    forall i | 0 <= i < |start| + |writes| && Wanted(start, b, writes, i)
      ensures Stays(start, b, writes, i, last)
         <==> (i < |start| ==> forall h | 0 <= h < |writes| :: Room(b, Behind(FreshFlags(start, b, writes, h), i)))
    {
      ForwardStays(start, b, writes, i, last);
    }
  }

  lemma {:induction false} ForwardStays<V>(start: seq<Entry<V>>, b: Bounds, writes: seq<Write<V>>, i: nat, last: nat)
    requires ClockForward(writes) && last + 1 == |writes| && i < |start| + |writes| && Wanted(start, b, writes, i)
    ensures Stays(start, b, writes, i, last)
       <==> (i < |start| ==> forall h | 0 <= h < |writes| :: Room(b, Behind(FreshFlags(start, b, writes, h), i)))
  {
    ForwardKeepsFresh(start, b, writes, i);
    if i >= |start| {
      forall h {:trigger FreshFlags(start, b, writes, h)} | Birth(start, i) <= h <= last
        ensures Room(b, Behind(FreshFlags(start, b, writes, h), i))
      {
        ForwardNeverCrowds(start, b, writes, i, h);
      }
    }
  }

  /**
   * Under such a clock, and bounds that stay the same, pruning at every write leaves what pruning
   * once, from scratch, leaves of everything ever written, if what is there at first is in age order.
   */
  lemma {:induction false} PruningRefinesFromScratch<V>(start: seq<Entry<V>>, b: Bounds, writes: seq<Write<V>>)
    requires Proper(b) && writes != [] && ClockForward(writes)
    requires b.ttlMs.Some? && b.maxSize.Some? ==> Aged(start) && forall i | 0 <= i < |start| :: start[i].ts <= writes[0].now
    ensures Replay(start, b, writes) == FromScratch(start, b, writes)
  {
    ForwardClockExactly(start, b, writes);
    forall i, h | 0 <= i < |start| && 0 <= h < |writes| && Wanted(start, b, writes, i)
      ensures Room(b, Behind(FreshFlags(start, b, writes, h), i))
    {
      ForwardNeverCrowds(start, b, writes, i, h);
    }
  }

  /** For a channel that starts empty there is nothing more to ask. */
  lemma {:induction false} EmptyChannelRefines<V>(b: Bounds, writes: seq<Write<V>>)
    requires Proper(b) && writes != [] && ClockForward(writes)
    ensures Replay([], b, writes) == FromScratch([], b, writes)
  {
    PruningRefinesFromScratch([], b, writes);
  }

  // ------------------------------------------------------ what the conditions are for

  lemma {:induction false} ThreeWrites<V>(start: seq<Entry<V>>, b: Bounds, x: Write<V>, y: Write<V>, z: Write<V>)
    requires Proper(b)
    ensures Replay(start, b, [x, y, z])
         == Written(Written(Written(start, b, x.value, x.now), b, y.value, y.now), b, z.value, z.now)
    ensures Everything(start, b, [x, y, z])
         == start + [NewEntry(x.value, b, x.now)] + [NewEntry(y.value, b, y.now)] + [NewEntry(z.value, b, z.now)]
  {
    assert [x, y, z][..2] == [x, y] && [x, y][..1] == [x] && [x][..0] == [];
    assert Replay(start, b, [x]) == Written(start, b, x.value, x.now);
    assert Everything(start, b, [x]) == start + [NewEntry(x.value, b, x.now)];
    assert Replay(start, b, [x, y]) == Written(Replay(start, b, [x]), b, y.value, y.now);
    assert Everything(start, b, [x, y]) == Everything(start, b, [x]) + [NewEntry(y.value, b, y.now)];
  }

  lemma {:induction false} KeptThree<V>(x: Entry<V>, y: Entry<V>, z: Entry<V>, horizon: int)
    ensures Kept([x], horizon) == if Fresh(x, horizon) then [x] else []
    ensures Kept([x, y], horizon) == Kept([x], horizon) + if Fresh(y, horizon) then [y] else []
    ensures Kept([x, y, z], horizon) == Kept([x, y], horizon) + if Fresh(z, horizon) then [z] else []
  {
    assert [x, y, z][..2] == [x, y] && [x, y][..1] == [x] && [x][..0] == [];
  }

  /** With a clock that goes back, what was pruned too early is missed. */
  lemma {:induction false} ClockBackLosesEntries<V>(v: V)
    ensures var b := Bounds(Some(5), None);
            var writes := [Write(v, 0), Write(v, 10), Write(v, 3)];
            |Replay([], b, writes)| == 2 && |FromScratch([], b, writes)| == 3
  {
    var b := Bounds(Some(5), None);
    var x, y, z := Wrapped(v, 0), Wrapped(v, 10), Wrapped(v, 3);
    ThreeWrites([], b, Write(v, 0), Write(v, 10), Write(v, 3));
    assert Written([], b, v, 0) == [x];
    assert Written([x], b, v, 10) == [y] by { KeptThree(x, y, z, 5); }
    assert Written([y], b, v, 3) == [y, z] by { KeptThree(y, z, x, -2); }
    assert Kept([x, y, z], -2) == [x, y, z] by { KeptThree(x, y, z, -2); }
    assert [] + [x] + [y] + [z] == [x, y, z];
  }

  lemma {:induction false} BareReplayed<V>(v: V)
    ensures Replay([Bare(v)], Bounds(Some(5), Some(2)), [Write(v, 0), Write(v, 1), Write(v, 100)]) == [Wrapped(v, 100)]
  {
    var b := Bounds(Some(5), Some(2));
    var o, x, y, z := Bare(v), Wrapped(v, 0), Wrapped(v, 1), Wrapped(v, 100);
    ThreeWrites([o], b, Write(v, 0), Write(v, 1), Write(v, 100));
    assert Written([o], b, v, 0) == [o, x] by { KeptThree(o, x, y, -5); }
    assert Written([o, x], b, v, 1) == [x, y] by { KeptThree(o, x, y, -4); }
    assert Written([x, y], b, v, 100) == [z] by { KeptThree(x, y, z, 95); }
  }

  lemma {:induction false} BareKept<V>(v: V)
    ensures Kept([Bare(v), Wrapped(v, 0), Wrapped(v, 1)] + [Wrapped(v, 100)], 95) == [Bare(v), Wrapped(v, 100)]
  {
    KeptThree(Bare(v), Wrapped(v, 0), Wrapped(v, 1), 95);
    KeptOneMore([Bare(v), Wrapped(v, 0), Wrapped(v, 1)], Wrapped(v, 100), 95);
  }

  lemma {:induction false} BareFromScratch<V>(v: V)
    ensures FromScratch([Bare(v)], Bounds(Some(5), Some(2)), [Write(v, 0), Write(v, 1), Write(v, 100)])
         == [Bare(v), Wrapped(v, 100)]
  {
    var o, x, y, z := Bare(v), Wrapped(v, 0), Wrapped(v, 1), Wrapped(v, 100);
    ThreeWrites([o], Bounds(Some(5), Some(2)), Write(v, 0), Write(v, 1), Write(v, 100));
    BareKept(v);
    assert [o] + [x] + [y] + [z] == [o, x, y] + [z];
  }

  /** A bare entry from before the ttl was set never expires, but the size bound may drop it first. */
  lemma {:induction false} BareEntriesAreLost<V>(v: V)
    ensures var b := Bounds(Some(5), Some(2));
            var writes := [Write(v, 0), Write(v, 1), Write(v, 100)];
            |Replay([Bare(v)], b, writes)| == 1 && |FromScratch([Bare(v)], b, writes)| == 2
  {
    BareReplayed(v);
    BareFromScratch(v);
  }
}
