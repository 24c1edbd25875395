/**
 * Two folds that several engines or regions compute apart and must agree on: the append
 * projection of an event log (examples/hosts/postgres/src/cross-engine-append.ts) and the
 * survivor of conflicting claims (examples/hosts/postgres/src/multi-region.ts).
 */
module Convergence {
  import opened Wrappers
  import opened Ordering

  function Filter<E>(s: seq<E>, p: E -> bool): seq<E> {
    if s == [] then []
    else
      var n := |s| - 1;
      if p(s[n]) then Filter(s[..n], p) + [s[n]] else Filter(s[..n], p)
  }

  lemma {:induction false} FilterCounts<E>(s: seq<E>, p: E -> bool, x: E)
    ensures multiset(Filter(s, p))[x] == if p(x) then multiset(s)[x] else 0
  {
    if s != [] {
      FilterCounts(s[..|s| - 1], p, x);
      assert s == s[..|s| - 1] + [s[|s| - 1]];
    }
  }

  lemma {:induction false} FilterIncluded<E>(a: seq<E>, b: seq<E>, p: E -> bool)
    requires multiset(a) == multiset(b)
    ensures multiset(Filter(a, p)) <= multiset(Filter(b, p))
  {
    forall x | x in multiset(Filter(a, p)) ensures multiset(Filter(a, p))[x] <= multiset(Filter(b, p))[x] {
      FilterCounts(a, p, x);
      FilterCounts(b, p, x);
    }
  }

  lemma {:induction false} FilterOfPermutation<E>(a: seq<E>, b: seq<E>, p: E -> bool)
    requires multiset(a) == multiset(b)
    ensures multiset(Filter(a, p)) == multiset(Filter(b, p))
    ensures |Filter(a, p)| == |Filter(b, p)|
  {
    var fa, fb := Filter(a, p), Filter(b, p);
    FilterIncluded(a, b, p);
    FilterIncluded(b, a, p);
    assert multiset(fa) == multiset(fb);
    SameSize(fa, fb);
  }

  lemma {:induction false} FilterMember<E>(s: seq<E>, p: E -> bool, x: E)
    ensures x in Filter(s, p) <==> x in s && p(x)
  {
    FilterCounts(s, p, x);
    assert x in Filter(s, p) <==> x in multiset(Filter(s, p));
    assert x in s <==> x in multiset(s);
  }

  lemma {:induction false} FilterSame<E>(s: seq<E>, p: E -> bool, q: E -> bool)
    requires forall x | x in s :: p(x) == q(x)
    ensures Filter(s, p) == Filter(s, q)
  {
    if s != [] {
      assert s[|s| - 1] in s;
      FilterSame(s[..|s| - 1], p, q);
    }
  }

  function Map<E, F>(s: seq<E>, f: E -> F): (r: seq<F>)
    ensures |r| == |s|
  {
    if s == [] then [] else Map(s[..|s| - 1], f) + [f(s[|s| - 1])]
  }

  // ---------------------------------------------------------------- the append channel

  datatype ChannelEvent<V> = ChannelEvent(eventId: Text, channel: Text, sequence: int, value: V)

  predicate EventLe<V>(a: ChannelEvent<V>, b: ChannelEvent<V>) {
    a.sequence < b.sequence || (a.sequence == b.sequence && TextLe(a.eventId, b.eventId))
  }

  function OnChannel<V>(channel: Text): ChannelEvent<V> -> bool { (e: ChannelEvent<V>) => e.channel == channel }

  function ValueOf<V>(): ChannelEvent<V> -> V { (e: ChannelEvent<V>) => e.value }

  function ProjectAppendChannel<V>(events: seq<ChannelEvent<V>>, channel: Text): seq<V> {
    Map(Sort(Filter(events, OnChannel(channel)), EventLe), ValueOf())
  }

  /** No two different events of the channel share both sequence and event id. */
  ghost predicate NoTies<V>(events: seq<ChannelEvent<V>>, channel: Text) {
    forall x, y | x in events && y in events && x.channel == channel && y.channel == channel
                  && x.sequence == y.sequence && x.eventId == y.eventId :: x == y
  }

  lemma {:induction false} EventLeTotal<V(!new)>()
    ensures TotalPreorder<ChannelEvent<V>>(EventLe)
  {
    TextLeIsTotal();
    forall x: ChannelEvent<V>, y: ChannelEvent<V> ensures EventLe(x, y) || EventLe(y, x) {
      assert TextLe(x.eventId, y.eventId) || TextLe(y.eventId, x.eventId);
    }
    forall x: ChannelEvent<V>, y: ChannelEvent<V>, z: ChannelEvent<V> | EventLe(x, y) && EventLe(y, z) ensures EventLe(x, z) {
      if x.sequence == y.sequence == z.sequence { assert TextLe(x.eventId, z.eventId); }
    }
  }

  lemma {:induction false} NoTiesDistinguish<V(!new)>(events: seq<ChannelEvent<V>>, channel: Text)
    requires NoTies(events, channel)
    ensures Distinguishes(EventLe, Filter(events, OnChannel(channel)))
  {
    var filtered := Filter(events, OnChannel(channel));
    forall x | x in filtered ensures x in events && x.channel == channel { FilterMember(events, OnChannel(channel), x); }
    forall x, y | x in filtered && y in filtered && EventLe(x, y) && EventLe(y, x) ensures x == y {
      TextTrichotomy(x.eventId, y.eventId);
    }
  }

  lemma {:induction false} WithoutTiesOrderIsForgotten<V(!new)>(a: seq<ChannelEvent<V>>, b: seq<ChannelEvent<V>>, channel: Text)
    requires NoTies(a, channel) && multiset(a) == multiset(b)
    ensures ProjectAppendChannel(a, channel) == ProjectAppendChannel(b, channel)
  {
    FilterOfPermutation(a, b, OnChannel<V>(channel));
    NoTiesDistinguish(a, channel);
    EventLeTotal<V>();
    SortOfPermutation(Filter(a, OnChannel(channel)), Filter(b, OnChannel(channel)), EventLe<V>);
  }

  lemma {:induction false} FilterOfTwoMore<E>(s: seq<E>, p: E -> bool, x: E, y: E)
    requires p(x) && p(y)
    ensures Filter(s + [x, y], p) == Filter(s, p) + [x, y]
  {
    assert (s + [x, y])[..|s| + 1] == s + [x] && (s + [x])[..|s|] == s;
    assert Filter(s + [x], p) == Filter(s, p) + [x];
  }

  lemma {:induction false} MapAt<E, F>(s: seq<E>, f: E -> F, i: nat)
    requires i < |s|
    ensures Map(s, f)[i] == f(s[i])
  {
    if i < |s| - 1 { MapAt(s[..|s| - 1], f, i); }
  }

  /** Two tied events exchanged in the log are exchanged in the projection. */
  lemma {:induction false} TiesShowLogOrder<V(!new)>(rest: seq<ChannelEvent<V>>, x: ChannelEvent<V>, y: ChannelEvent<V>) returns (i: nat)
    requires x.sequence == y.sequence && x.eventId == y.eventId && x.channel == y.channel
    ensures var xy, yx := ProjectAppendChannel(rest + [x, y], x.channel), ProjectAppendChannel(rest + [y, x], x.channel);
            i < |xy| && i < |yx| && xy[i] == x.value && yx[i] == y.value
  {
    var p := OnChannel<V>(x.channel);
    FilterOfTwoMore(rest, p, x, y);
    FilterOfTwoMore(rest, p, y, x);
    EventLeTotal<V>();
    i := TiesShow(Filter(rest, p), x, y, EventLe<V>);
    MapAt(Sort(Filter(rest, p) + [x, y], EventLe<V>), ValueOf(), i);
    MapAt(Sort(Filter(rest, p) + [y, x], EventLe<V>), ValueOf(), i);
  }

  /**
   * The projection is the same in whatever order the log is read exactly if no two different
   * events of the channel share both sequence and event id.
   */
  lemma {:induction false} ProjectionIgnoresOrder<V(!new)>(events: seq<ChannelEvent<V>>, channel: Text)
    ensures NoTies(events, channel)
       <==> forall other: seq<ChannelEvent<V>> | multiset(other) == multiset(events) ::
              ProjectAppendChannel(other, channel) == ProjectAppendChannel(events, channel)
  {
    if NoTies(events, channel) {
      forall other: seq<ChannelEvent<V>> | multiset(other) == multiset(events)
        ensures ProjectAppendChannel(other, channel) == ProjectAppendChannel(events, channel)
      {
        WithoutTiesOrderIsForgotten(events, other, channel);
      }
    } else {
      var x, y :| x in events && y in events && x.channel == channel && y.channel == channel
                  && x.sequence == y.sequence && x.eventId == y.eventId && x != y;
      var rest := TwoTakenOut(events, x, y);
      var i := TiesShowLogOrder(rest, x, y);
      var xy, yx := rest + [x, y], rest + [y, x];
      assert ProjectAppendChannel(xy, channel) != ProjectAppendChannel(yx, channel);
    }
  }

  /** checkOwnerSequenceMonotonic: the first pair out of order, by its second index. */
  method CheckOwnerSequenceMonotonic<V>(events: seq<ChannelEvent<V>>) returns (violation: Option<nat>)
    ensures violation.None? <==> Monotonic(events)
    ensures violation.Some? ==>
      && 0 < violation.value < |events| && events[violation.value].sequence <= events[violation.value - 1].sequence
      && Monotonic(events[..violation.value])
  {
    var i := 1;
    while i < |events|
      invariant 1 <= i && (i <= |events| || |events| == 0)
      invariant i <= |events| ==> Monotonic(events[..i])
    {
      if events[i].sequence <= events[i - 1].sequence {
        return Some(i);
      }
      MonotonicOneMore(events[..i], events[i]);
      assert events[..i] + [events[i]] == events[..i + 1];
      i := i + 1;
    }
    if events != [] { assert events[..|events|] == events; }
    violation := None;
  }

  ghost predicate Monotonic<V>(events: seq<ChannelEvent<V>>) {
    forall i, j | 0 <= i < j < |events| :: events[i].sequence < events[j].sequence
  }

  lemma {:induction false} MonotonicOneMore<V>(events: seq<ChannelEvent<V>>, e: ChannelEvent<V>)
    requires Monotonic(events) && (events != [] ==> events[|events| - 1].sequence < e.sequence)
    ensures Monotonic(events + [e])
  {
    if events != [] {
      forall i | 0 <= i < |events| ensures events[i].sequence < e.sequence {
        assert i == |events| - 1 || events[i].sequence < events[|events| - 1].sequence;
      }
    }
  }

  lemma {:induction false} FilterMonotonic<V>(events: seq<ChannelEvent<V>>, p: ChannelEvent<V> -> bool)
    requires Monotonic(events)
    ensures Monotonic(Filter(events, p))
  {
    if events != [] {
      var n := |events| - 1;
      FilterMonotonic(events[..n], p);
      var front := Filter(events[..n], p);
      if p(events[n]) {
        if front != [] {
          var last := front[|front| - 1];
          FilterMember(events[..n], p, last);
          var i :| 0 <= i < n && events[..n][i] == last;
          assert events[i].sequence < events[n].sequence;
        }
        MonotonicOneMore(front, events[n]);
      }
    }
  }

  // -------------------------------------------------------------------- collisions

  function WithSequence<V>(k: int): ChannelEvent<V> -> bool { (e: ChannelEvent<V>) => e.sequence == k }

  function CountOf<V>(events: seq<ChannelEvent<V>>, k: int): nat { |Filter(events, WithSequence(k))| }

  function Shares<V>(all: seq<ChannelEvent<V>>): ChannelEvent<V> -> bool { (e: ChannelEvent<V>) => CountOf(all, e.sequence) > 1 }

  /** How many events share their sequence with another. */
  function Collisions<V>(events: seq<ChannelEvent<V>>): nat { |Filter(events, Shares(events))| }

  /** An event counts exactly if another one has its sequence. */
  lemma {:induction false} CountsIffShared<V>(events: seq<ChannelEvent<V>>, i: nat)
    requires i < |events|
    ensures Shares(events)(events[i]) <==> exists j :: 0 <= j < |events| && j != i && events[j].sequence == events[i].sequence
  {
    CountAtLeast(events, events[i].sequence, i);
  }

  lemma {:induction false} CountAtLeast<V>(events: seq<ChannelEvent<V>>, k: int, i: nat)
    requires i < |events| && events[i].sequence == k
    ensures CountOf(events, k) >= 1
    ensures CountOf(events, k) > 1 <==> exists j :: 0 <= j < |events| && j != i && events[j].sequence == k
    decreases |events|
  {
    var n := |events| - 1;
    var front := events[..n];
    if i == n {
      NoneCounted(front, k);
      if j :| 0 <= j < n && front[j].sequence == k { assert events[j] == front[j]; }
      if CountOf(events, k) > 1 {
        var j :| 0 <= j < n && front[j].sequence == k;
        assert events[j] == front[j];
      }
    } else {
      CountAtLeast(front, k, i);
      if events[n].sequence == k { assert events[n].sequence == k; }
      if CountOf(front, k) > 1 {
        var j :| 0 <= j < n && j != i && front[j].sequence == k;
        assert events[j] == front[j];
      }
      if j :| 0 <= j < |events| && j != i && events[j].sequence == k {
        if j < n { assert front[j] == events[j]; }
      }
    }
  }

  lemma {:induction false} NoneCounted<V>(events: seq<ChannelEvent<V>>, k: int)
    ensures CountOf(events, k) > 0 <==> exists j :: 0 <= j < |events| && events[j].sequence == k
  {
    var p := WithSequence<V>(k);
    if CountOf(events, k) > 0 {
      var x := Filter(events, p)[0];
      FilterMember(events, p, x);
      var j :| 0 <= j < |events| && events[j] == x;
    }
    if j :| 0 <= j < |events| && events[j].sequence == k { FilterMember(events, p, events[j]); }
  }

  function SharesAmong<V>(all: seq<ChannelEvent<V>>, keys: seq<int>): ChannelEvent<V> -> bool {
    (e: ChannelEvent<V>) => e.sequence in keys && CountOf(all, e.sequence) > 1
  }

  lemma {:induction false} OneMoreKey<V>(events: seq<ChannelEvent<V>>, all: seq<ChannelEvent<V>>, keys: seq<int>, k: int)
    requires k !in keys
    ensures |Filter(events, SharesAmong(all, keys + [k]))|
         == |Filter(events, SharesAmong(all, keys))| + if CountOf(all, k) > 1 then CountOf(events, k) else 0
  {
    if events != [] { OneMoreKey(events[..|events| - 1], all, keys, k); }
  }

  lemma {:induction false} CountOneMore<V>(events: seq<ChannelEvent<V>>, i: nat, k: int)
    requires i < |events|
    ensures CountOf(events[..i + 1], k) == CountOf(events[..i], k) + if events[i].sequence == k then 1 else 0
  {
    assert events[..i + 1][..i] == events[..i];
  }

  ghost predicate Counted<V>(events: seq<ChannelEvent<V>>, counts: map<int, nat>) {
    && (forall k | k in counts :: counts[k] == CountOf(events, k))
    && (forall k {:trigger k in counts} | k !in counts :: CountOf(events, k) == 0)
  }

  lemma {:induction false} CountedOneMore<V>(events: seq<ChannelEvent<V>>, i: nat, counts: map<int, nat>)
    requires i < |events| && Counted(events[..i], counts)
    ensures var k := events[i].sequence;
            Counted(events[..i + 1], counts[k := (if k in counts then counts[k] else 0) + 1])
  {
    var k := events[i].sequence;
    var counts' := counts[k := (if k in counts then counts[k] else 0) + 1];
    forall j | j in counts' ensures counts'[j] == CountOf(events[..i + 1], j) { CountOneMore(events, i, j); }
    forall j {:trigger j in counts'} | j !in counts' ensures CountOf(events[..i + 1], j) == 0 { CountOneMore(events, i, j); }
  }

  /** How many events have each sequence, and the sequences in the order first met. */
  method CountSequences<V>(events: seq<ChannelEvent<V>>) returns (counts: map<int, nat>, keys: seq<int>)
    ensures Counted(events, counts) && Distinct(keys)
    ensures forall k :: k in counts <==> k in keys
  {
    counts, keys := map[], [];
    for i := 0 to |events|
      invariant Counted(events[..i], counts) && Distinct(keys)
      invariant forall k :: k in counts <==> k in keys
    {
      var k := events[i].sequence;
      CountedOneMore(events, i, counts);
      if k !in counts { keys := keys + [k]; }
      counts := counts[k := (if k in counts then counts[k] else 0) + 1];
    }
    assert events[..|events|] == events;
  }

  /** The counts above one, added up. */
  method SumAboveOne<V>(ghost events: seq<ChannelEvent<V>>, counts: map<int, nat>, keys: seq<int>) returns (sum: nat)
    requires Counted(events, counts) && Distinct(keys)
    requires forall k | k in keys :: k in counts
    ensures sum == |Filter(events, SharesAmong(events, keys))|
  {
    sum := 0;
    NoKeys(events, events);
    for n := 0 to |keys|
      invariant sum == |Filter(events, SharesAmong(events, keys[..n]))|
    {
      ghost var before := keys[..n];
      assert keys[..n + 1] == before + [keys[n]];
      assert keys[n] !in before;
      OneMoreKey(events, events, before, keys[n]);
      if counts[keys[n]] > 1 { sum := sum + counts[keys[n]]; }
    }
    assert keys[..|keys|] == keys;
  }

  /** projectAppendChannelWithTieBreak. */
  method ProjectWithTieBreak<V>(events: seq<ChannelEvent<V>>, channel: Text) returns (values: seq<V>, collisions: nat)
    ensures values == ProjectAppendChannel(events, channel)
    ensures collisions == Collisions(Filter(events, OnChannel(channel)))
  {
    var filtered := Filter(events, OnChannel(channel));
    var counts, keys := CountSequences(filtered);
    collisions := SumAboveOne(filtered, counts, keys);
    AllKeys(filtered, counts, keys);
    FilterTwice(events, channel);
    values := ProjectAppendChannel(filtered, channel);
  }

  lemma {:induction false} AllKeys<V>(events: seq<ChannelEvent<V>>, counts: map<int, nat>, keys: seq<int>)
    requires Counted(events, counts) && forall k :: k in counts <==> k in keys
    ensures Filter(events, SharesAmong(events, keys)) == Filter(events, Shares(events))
  {
    forall e | e in events ensures SharesAmong(events, keys)(e) == Shares(events)(e) {
      assert e.sequence in counts <==> e.sequence in keys;
    }
    FilterSame(events, SharesAmong(events, keys), Shares(events));
  }

  lemma {:induction false} NoKeys<V>(events: seq<ChannelEvent<V>>, all: seq<ChannelEvent<V>>)
    ensures Filter(events, SharesAmong(all, [])) == []
  {
    if events != [] { NoKeys(events[..|events| - 1], all); }
  }

  lemma {:induction false} FilterTwice<V>(events: seq<ChannelEvent<V>>, channel: Text)
    ensures Filter(Filter(events, OnChannel(channel)), OnChannel(channel)) == Filter(events, OnChannel(channel))
  {
    if events != [] {
      var n := |events| - 1;
      FilterTwice(events[..n], channel);
      if events[n].channel == channel {
        var front := Filter(events[..n], OnChannel(channel));
        assert (front + [events[n]])[..|front|] == front;
      }
    }
  }

  /** The number of collisions does not depend on the order of the log. */
  lemma {:induction false} CollisionsIgnoreOrder<V>(a: seq<ChannelEvent<V>>, b: seq<ChannelEvent<V>>)
    requires multiset(a) == multiset(b)
    ensures Collisions(a) == Collisions(b)
  {
    forall e: ChannelEvent<V> ensures Shares(a)(e) == Shares(b)(e) {
      FilterOfPermutation(a, b, WithSequence(e.sequence));
    }
    FilterSame(a, Shares(a), Shares(b));
    FilterOfPermutation(a, b, Shares(b));
  }

  /** A log that passes the monotonicity check projects to its values in log order, with no collision. */
  lemma {:induction false} MonotonicProjectsInOrder<V(!new)>(events: seq<ChannelEvent<V>>, channel: Text)
    requires Monotonic(events)
    ensures var filtered := Filter(events, OnChannel(channel));
            ProjectAppendChannel(events, channel) == Map(filtered, ValueOf()) && Collisions(filtered) == 0
  {
    var filtered := Filter(events, OnChannel(channel));
    FilterMonotonic(events, OnChannel(channel));
    SortOfSorted(filtered, EventLe<V>);
    if Collisions(filtered) > 0 {
      var x := Filter(filtered, Shares(filtered))[0];
      FilterMember(filtered, Shares(filtered), x);
      var i :| 0 <= i < |filtered| && filtered[i] == x;
      CountsIffShared(filtered, i);
    }
  }

  // ------------------------------------------------------------- conflicting claims

  datatype Claim = Claim(runId: Text, region: Text, tenantId: Text, endpoint: Text, key: Text)

  datatype Redirect = Redirect(region: Text, cacheKey: Text, redirectToRunId: Text)

  datatype Convergence = Convergence(winner: Claim, losers: seq<Claim>, cacheRedirects: seq<Redirect>)

  predicate ClaimLe(a: Claim, b: Claim) { TextLe(a.runId, b.runId) }

  predicate SameTuple(a: Claim, b: Claim) {
    a.tenantId == b.tenantId && a.endpoint == b.endpoint && a.key == b.key
  }

  /** All later claims share the tuple of the first. */
  predicate AllShare(head: Claim, claims: seq<Claim>) {
    forall c | c in claims :: SameTuple(c, head)
  }

  function RedirectTo(cacheKey: Text, runId: Text): Claim -> Redirect {
    (c: Claim) => Redirect(c.region, cacheKey, runId)
  }

  /** resolveCrossRegionConflict; None where it throws. */
  function Resolve(claims: seq<Claim>): Option<Convergence> {
    if |claims| < 2 || !AllShare(claims[0], claims[1..]) then None
    else
      SameLength(claims);
      var sorted := Sort(claims, ClaimLe);
      var cacheKey := claims[0].endpoint + [0x3A] + claims[0].key;
      Some(Convergence(sorted[0], sorted[1..], Map(sorted, RedirectTo(cacheKey, sorted[0].runId))))
  }

  lemma {:induction false} SameLength(claims: seq<Claim>)
    ensures |Sort(claims, ClaimLe)| == |claims|
  {
    ClaimLeTotal();
    SortSorts(claims, ClaimLe);
  }

  function Joined(texts: seq<Text>): Text {
    if texts == [] then [] else if |texts| == 1 then texts[0]
    else Joined(texts[..|texts| - 1]) + [0x7C] + texts[|texts| - 1]
  }

  function RegionOf(): Claim -> Text { (c: Claim) => c.region }

  /** crossRegionConflictLabels: tenant, route, and the regions in order. */
  function Labels(r: Convergence): (Text, Text, Text) {
    (r.winner.tenantId, r.winner.endpoint, Joined(Sort([r.winner.region] + Map(r.losers, RegionOf()), TextLe)))
  }

  lemma {:induction false} ClaimLeTotal()
    ensures TotalPreorder(ClaimLe)
  {
    TextLeIsTotal();
    forall x: Claim, y: Claim ensures ClaimLe(x, y) || ClaimLe(y, x) {
      assert TextLe(x.runId, y.runId) || TextLe(y.runId, x.runId);
    }
    forall x: Claim, y: Claim, z: Claim | ClaimLe(x, y) && ClaimLe(y, z) ensures ClaimLe(x, z) {
      assert TextLe(x.runId, z.runId);
    }
  }

  ghost predicate DistinctRuns(claims: seq<Claim>) {
    forall x, y | x in claims && y in claims && x.runId == y.runId :: x == y
  }

  lemma {:induction false} RunsDistinguish(claims: seq<Claim>)
    requires DistinctRuns(claims)
    ensures Distinguishes(ClaimLe, claims)
  {
    forall x, y | x in claims && y in claims && ClaimLe(x, y) && ClaimLe(y, x) ensures x == y {
      TextTrichotomy(x.runId, y.runId);
    }
  }

  /** Any claim can stand for the tuple they all share. */
  lemma {:induction false} SharedByAll(claims: seq<Claim>)
    requires claims != []
    ensures AllShare(claims[0], claims[1..]) <==> forall x, y | x in claims && y in claims :: SameTuple(x, y)
  {
    if AllShare(claims[0], claims[1..]) {
      forall x | x in claims ensures SameTuple(x, claims[0]) {
        assert x == claims[0] || x in claims[1..];
      }
    } else {
      var c :| c in claims[1..] && !SameTuple(c, claims[0]);
      assert c in claims && claims[0] in claims;
    }
  }

  lemma {:induction false} ShareIgnoresOrder(a: seq<Claim>, b: seq<Claim>)
    requires multiset(a) == multiset(b) && a != [] && b != []
    ensures AllShare(a[0], a[1..]) == AllShare(b[0], b[1..])
    ensures AllShare(a[0], a[1..]) ==> SameTuple(a[0], b[0])
  {
    SharedByAll(a);
    SharedByAll(b);
    forall x ensures x in a <==> x in b {
      assert x in a <==> x in multiset(a);
      assert x in b <==> x in multiset(b);
    }
    assert a[0] in a && b[0] in b;
  }

  lemma {:induction false} DistinctRunsForgetOrder(a: seq<Claim>, b: seq<Claim>)
    requires multiset(a) == multiset(b) && DistinctRuns(a)
    ensures Resolve(a) == Resolve(b)
  {
    SameSize(a, b);
    if |a| >= 2 {
      ShareIgnoresOrder(a, b);
      RunsDistinguish(a);
      ClaimLeTotal();
      SortOfPermutation(a, b, ClaimLe);
    }
  }

  /** Results that are alike have the claims in one sorted order. */
  lemma {:induction false} SameResultSameOrder(a: seq<Claim>, b: seq<Claim>)
    requires Resolve(a).Some? && Resolve(a) == Resolve(b)
    ensures Sort(a, ClaimLe) == Sort(b, ClaimLe)
  {
    SameLength(a);
    SameLength(b);
    var x, y := Sort(a, ClaimLe), Sort(b, ClaimLe);
    assert x == [x[0]] + x[1..] && y == [y[0]] + y[1..];
  }

  /** Of two claims with one run id the one given first comes first, so the order shows. */
  lemma {:induction false} RepeatedRunShowsOrder(claims: seq<Claim>, rest: seq<Claim>, x: Claim, y: Claim)
    requires Resolve(claims).Some? && x != y && x.runId == y.runId
    requires multiset(rest + [x, y]) == multiset(claims) && multiset(rest + [y, x]) == multiset(claims)
    ensures Resolve(rest + [x, y]).Some? && Resolve(rest + [y, x]).Some?
    ensures Resolve(rest + [x, y]) != Resolve(rest + [y, x])
  {
    ShareIgnoresOrder(claims, rest + [x, y]);
    ShareIgnoresOrder(claims, rest + [y, x]);
    SameSize(claims, rest + [x, y]);
    ClaimLeTotal();
    var i := TiesShow(rest, x, y, ClaimLe);
    if Resolve(rest + [x, y]) == Resolve(rest + [y, x]) { SameResultSameOrder(rest + [x, y], rest + [y, x]); }
  }

  lemma {:induction false} TwoOrdersDiffer(claims: seq<Claim>) returns (a: seq<Claim>, b: seq<Claim>)
    requires Resolve(claims).Some? && !DistinctRuns(claims)
    ensures multiset(a) == multiset(claims) && multiset(b) == multiset(claims) && Resolve(a) != Resolve(b)
  {
    var x, y :| x in claims && y in claims && x.runId == y.runId && x != y;
    var rest := TwoTakenOut(claims, x, y);
    RepeatedRunShowsOrder(claims, rest, x, y);
    a, b := rest + [x, y], rest + [y, x];
  }

  /**
   * Where the claims can be resolved, every region arrives at the same survivor, losers and
   * redirects, in whatever order it has them, exactly if no two different claims share a run id.
   */
  lemma {:induction false} ResolveIgnoresOrder(claims: seq<Claim>)
    requires Resolve(claims).Some?
    ensures DistinctRuns(claims)
       <==> forall other: seq<Claim> | multiset(other) == multiset(claims) :: Resolve(other) == Resolve(claims)
  {
    if DistinctRuns(claims) {
      forall other: seq<Claim> | multiset(other) == multiset(claims) ensures Resolve(other) == Resolve(claims) {
        DistinctRunsForgetOrder(claims, other);
      }
    } else {
      var a, b := TwoOrdersDiffer(claims);
      assert Resolve(a) != Resolve(claims) || Resolve(b) != Resolve(claims);
    }
  }

  /** The winner has the least run id, and the winner and the losers are the claims. */
  lemma {:induction false} WinnerIsLeast(claims: seq<Claim>)
    requires Resolve(claims).Some?
    ensures var r := Resolve(claims).value;
            && r.winner in claims && (forall c | c in claims :: TextLe(r.winner.runId, c.runId))
            && multiset([r.winner] + r.losers) == multiset(claims)
  {
    ClaimLeTotal();
    SortSorts(claims, ClaimLe);
    var sorted := Sort(claims, ClaimLe);
    assert [sorted[0]] + sorted[1..] == sorted;
    assert sorted[0] in sorted;
    forall c | c in claims ensures TextLe(sorted[0].runId, c.runId) {
      assert c in sorted;
      var i :| 0 <= i < |sorted| && sorted[i] == c;
    }
  }

  /** The survivor of each group; a group of one needs no resolving. */
  function Survivor(group: seq<Claim>): Option<Claim> {
    if |group| == 1 then Some(group[0])
    else if Resolve(group).None? then None else Some(Resolve(group).value.winner)
  }

  lemma {:induction false} SurvivorIsLeast(group: seq<Claim>)
    requires Survivor(group).Some?
    ensures var s := Survivor(group).value; s in group && forall c | c in group :: TextLe(s.runId, c.runId)
  {
    if |group| != 1 { WinnerIsLeast(group); }
  }

  function Flat(groups: seq<seq<Claim>>): seq<Claim> {
    if groups == [] then [] else Flat(groups[..|groups| - 1]) + groups[|groups| - 1]
  }

  lemma {:induction false} InFlat(groups: seq<seq<Claim>>, c: Claim)
    ensures c in Flat(groups) <==> exists i :: 0 <= i < |groups| && c in groups[i]
  {
    if groups != [] {
      var n := |groups| - 1;
      InFlat(groups[..n], c);
      if c in Flat(groups[..n]) {
        var i :| 0 <= i < n && c in groups[..n][i];
        assert c in groups[i];
      }
      if i :| 0 <= i < |groups| && c in groups[i] {
        if i < n { assert c in groups[..n][i]; }
      }
    }
  }

  /**
   * Resolving the survivors of subgroups gives the surviving run of them all, and the very claim
   * where only one claim has that run.
   */
  lemma {:induction false} SubgroupsConverge(groups: seq<seq<Claim>>, survivors: seq<Claim>)
    requires |survivors| == |groups|
    requires forall i | 0 <= i < |groups| :: Survivor(groups[i]) == Some(survivors[i])
    requires Survivor(survivors).Some? && Survivor(Flat(groups)).Some?
    ensures var s, t := Survivor(survivors).value, Survivor(Flat(groups)).value;
            && s.runId == t.runId && s in Flat(groups)
            && ((forall c | c in Flat(groups) && c.runId == t.runId :: c == t) ==> s == t)
  {
    var all, s, t := Flat(groups), Survivor(survivors).value, Survivor(Flat(groups)).value;
    SurvivorIsLeast(survivors);
    SurvivorIsLeast(all);
    var i :| 0 <= i < |survivors| && survivors[i] == s;
    SurvivorIsLeast(groups[i]);
    InFlat(groups, s);
    InFlat(groups, t);
    var j :| 0 <= j < |groups| && t in groups[j];
    SurvivorIsLeast(groups[j]);
    assert survivors[j] in survivors;
    TextLeTransitive(s.runId, survivors[j].runId, t.runId);
    TextTrichotomy(s.runId, t.runId);
  }

  lemma {:induction false} TextLeTransitive(a: Text, b: Text, c: Text)
    requires TextLe(a, b) && TextLe(b, c)
    ensures TextLe(a, c)
  {
    if a != b && b != c { TextLessTransitive(a, b, c); }
  }

  function InRegion(region: Text): Claim -> bool { (c: Claim) => c.region == region }

  lemma {:induction false} RegionCount(claims: seq<Claim>, region: Text)
    ensures multiset(Map(claims, RegionOf()))[region] == |Filter(claims, InRegion(region))|
  {
    if claims != [] { RegionCount(claims[..|claims| - 1], region); }
  }

  lemma {:induction false} MapCounts(a: seq<Claim>, b: seq<Claim>)
    requires multiset(a) == multiset(b)
    ensures multiset(Map(a, RegionOf())) == multiset(Map(b, RegionOf()))
  {
    forall region ensures multiset(Map(a, RegionOf()))[region] == multiset(Map(b, RegionOf()))[region] {
      RegionCount(a, region);
      RegionCount(b, region);
      FilterOfPermutation(a, b, InRegion(region));
    }
  }

  lemma {:induction false} MapOfConcat(a: seq<Claim>, b: seq<Claim>)
    ensures Map(a + b, RegionOf()) == Map(a, RegionOf()) + Map(b, RegionOf())
  {
    if b == [] {
      assert a + b == a;
    } else {
      assert (a + b)[..|a + b| - 1] == a + b[..|b| - 1];
      MapOfConcat(a, b[..|b| - 1]);
    }
  }

  /** The metric label is the same for every order of the claims, even if a run id repeats. */
  lemma {:induction false} LabelsIgnoreOrder(a: seq<Claim>, b: seq<Claim>)
    requires multiset(a) == multiset(b) && Resolve(a).Some?
    ensures Resolve(b).Some? && Labels(Resolve(a).value) == Labels(Resolve(b).value)
  {
    SameSize(a, b);
    ShareIgnoresOrder(a, b);
    WinnerIsLeast(a);
    WinnerIsLeast(b);
    var r, q := Resolve(a).value, Resolve(b).value;
    SharedByAll(a);
    assert q.winner in multiset(b) && q.winner in a;
    assert SameTuple(r.winner, q.winner);
    MapCounts([r.winner] + r.losers, [q.winner] + q.losers);
    HeadRegion(r);
    HeadRegion(q);
    TextLeIsTotal();
    TextLeDistinguishes([r.winner.region] + Map(r.losers, RegionOf()));
    SortOfPermutation([r.winner.region] + Map(r.losers, RegionOf()), [q.winner.region] + Map(q.losers, RegionOf()), TextLe);
  }

  lemma {:induction false} HeadRegion(r: Convergence)
    ensures Map([r.winner] + r.losers, RegionOf()) == [r.winner.region] + Map(r.losers, RegionOf())
  {
    MapOfConcat([r.winner], r.losers);
    assert Map([r.winner], RegionOf()) == [r.winner.region];
  }

  /** It answers exactly for two claims or more that all agree in tenant, endpoint and key. */
  lemma {:induction false} ResolvesExactly(claims: seq<Claim>)
    ensures Resolve(claims).Some?
       <==> && |claims| >= 2
            && forall x, y | x in claims && y in claims :: x.tenantId == y.tenantId && x.endpoint == y.endpoint && x.key == y.key
  {
    if |claims| >= 2 {
      SharedByAll(claims);
      if forall x, y | x in claims && y in claims :: x.tenantId == y.tenantId && x.endpoint == y.endpoint && x.key == y.key {
        forall x, y | x in claims && y in claims ensures SameTuple(x, y) {}
      }
      if forall x, y | x in claims && y in claims :: SameTuple(x, y) {
        forall x, y | x in claims && y in claims ensures x.tenantId == y.tenantId && x.endpoint == y.endpoint && x.key == y.key {
          assert SameTuple(x, y);
        }
      }
    }
  }

  /**
   * Every region is redirected to the winner's run under the key the claims share: the winner's first,
   * then those of the losers, which come by rising run id.
   */
  lemma {:induction false} RedirectsToWinner(claims: seq<Claim>)
    requires Resolve(claims).Some?
    ensures var r := Resolve(claims).value;
            var all := [r.winner] + r.losers;
            && |r.cacheRedirects| == |all| == |claims|
            && (forall i | 0 <= i < |all| ::
                  r.cacheRedirects[i] == Redirect(all[i].region, claims[0].endpoint + T(":") + claims[0].key, r.winner.runId))
            && forall i, j | 0 <= i < j < |all| :: !TextLess(all[j].runId, all[i].runId)
  {
    var r := Resolve(claims).value;
    var sorted := Sort(claims, ClaimLe);
    ClaimLeTotal();
    SortSorts(claims, ClaimLe);
    SameLength(claims);
    assert [r.winner] + r.losers == sorted;
    assert T(":") == [0x3A];
    var cacheKey := claims[0].endpoint + [0x3A] + claims[0].key;
    forall i | 0 <= i < |sorted| ensures Map(sorted, RedirectTo(cacheKey, sorted[0].runId))[i] == Redirect(sorted[i].region, cacheKey, sorted[0].runId) {
      MapAt(sorted, RedirectTo(cacheKey, sorted[0].runId), i);
    }
    forall i, j | 0 <= i < j < |sorted| ensures !TextLess(sorted[j].runId, sorted[i].runId) {
      assert ClaimLe(sorted[i], sorted[j]);
      TextTrichotomy(sorted[i].runId, sorted[j].runId);
    }
  }

  /** Texts with a bar between each two. */
  function Barred(texts: seq<Text>): Text {
    if texts == [] then [] else if |texts| == 1 then texts[0] else texts[0] + T("|") + Barred(texts[1..])
  }

  lemma {:induction false} BarredLast(front: seq<Text>, last: Text)
    requires front != []
    ensures Barred(front + [last]) == Barred(front) + T("|") + last
  {
    var all := front + [last];
    assert all[1..] == front[1..] + [last];
    if |front| > 1 {
      BarredLast(front[1..], last);
      assert front[0] + T("|") + (Barred(front[1..]) + T("|") + last) == front[0] + T("|") + Barred(front[1..]) + T("|") + last;
    } else {
      assert [last][1..] == [];
    }
  }

  lemma {:induction false} JoinedIsBarred(texts: seq<Text>)
    ensures Joined(texts) == Barred(texts)
    decreases |texts|
  {
    if |texts| > 1 {
      var n := |texts| - 1;
      JoinedIsBarred(texts[..n]);
      BarredLast(texts[..n], texts[n]);
      assert texts[..n] + [texts[n]] == texts && T("|") == [0x7C];
    }
  }

  /** The metric label: tenant and endpoint of the claims, and their regions in code-unit order with bars between. */
  lemma {:induction false} LabelSpelled(claims: seq<Claim>) returns (regions: seq<Text>)
    requires Resolve(claims).Some?
    ensures Labels(Resolve(claims).value) == (claims[0].tenantId, claims[0].endpoint, Barred(regions))
    ensures multiset(regions) == multiset(Map(claims, RegionOf()))
    ensures forall i, j | 0 <= i < j < |regions| :: !TextLess(regions[j], regions[i])
  {
    var r := Resolve(claims).value;
    WinnerIsLeast(claims);
    SharedByAll(claims);
    assert r.winner in multiset(claims) && claims[0] in claims;
    assert SameTuple(r.winner, claims[0]);
    HeadRegion(r);
    MapCounts([r.winner] + r.losers, claims);
    var all := [r.winner.region] + Map(r.losers, RegionOf());
    regions := Sort(all, TextLe);
    TextLeIsTotal();
    SortSorts(all, TextLe);
    JoinedIsBarred(regions);
    forall i, j | 0 <= i < j < |regions| ensures !TextLess(regions[j], regions[i]) {
      assert TextLe(regions[i], regions[j]);
      TextTrichotomy(regions[i], regions[j]);
    }
  }
}
