/**
 * What the verifier does not report, and exactly what its acceptance proves where
 * the checkpoint rows are the host's.
 */
module AuditUnseen {
  import opened Wrappers
  import opened Ordering
  import opened Json
  import opened JsonText
  import opened JsonRoundTrip
  import opened Merkle
  import opened AuditEntry
  import opened AuditLog
  import opened AuditVerdict
  import opened AuditHistory
  import opened AuditTamper

  // ------------------------------------------------------ cut off the end

  /** Cutting rows off the end is never reported, even when checkpoints past the cut remain. */
  lemma {:induction false} TruncationUnseen(host: Host, written: Table, m: nat, fromSeq: int, toSeq: int, withKey: bool)
    requires WellBehaved(host) && Honest(host, written) && m < |written.rows|
    ensures var t := Table(written.rows[..m], written.checkpoints);
            Accepts(host, t, fromSeq, toSeq, withKey) && !SamePrefix(host, written, t, |written.rows|)
  {
    TruncatedAccepted(host, written, m, fromSeq, toSeq, withKey);
    var rows := written.rows[..m];
    PrefixHonest(host, written.rows, m);
    HonestRowsAreFormed(host, rows);
    FormedTip(rows);
    if m > 0 { FormedBetween(rows, 0, m); }
  }

  /** Rows that differ in nothing the verifier looks at. */
  ghost predicate LookAlike(host: Host, x: Row, y: Row) {
    x.(detailsJson := []) == y.(detailsJson := []) && StoredText(x, host.round) == StoredText(y, host.round)
  }

  ghost predicate AllLookAlike(host: Host, a: seq<Row>, b: seq<Row>) {
    |a| == |b| && forall i | 0 <= i < |a| :: LookAlike(host, a[i], b[i])
  }

  lemma {:induction false} SameEyesSameVerdict(host: Host, t: Table, rows: seq<Row>, fromSeq: int, toSeq: int, withKey: bool)
    requires AllLookAlike(host, t.rows, rows)
    ensures Verify(host, t.(rows := rows), fromSeq, toSeq, withKey) == Verify(host, t, fromSeq, toSeq, withKey)
  {
    assert t.rows != [] ==> LookAlike(host, t.rows[|rows| - 1], rows[|rows| - 1]);
    assert Tip(rows) == Tip(t.rows);
    SameEyesInRange(host, t, rows, Max(1, fromSeq), Min(toSeq, Tip(t.rows)));
    SameFindingsSameVerdict(host, t, rows, fromSeq, toSeq, withKey);
  }

  lemma {:induction false} SameFindingsSameVerdict(host: Host, t: Table, rows: seq<Row>, fromSeq: int, toSeq: int, withKey: bool)
    requires Tip(rows) == Tip(t.rows)
    requires var lo, hi := Max(1, fromSeq), Min(toSeq, Tip(t.rows));
             var cps := CheckpointsBetween(t.checkpoints, lo, hi);
             && WalkRows(host, Between(rows, lo, hi), lo, SeedHash(rows, lo))
             == WalkRows(host, Between(t.rows, lo, hi), lo, SeedHash(t.rows, lo))
             && Findings(host, rows, cps, SeedPrior(t, cps)) == Findings(host, t.rows, cps, SeedPrior(t, cps))
    ensures Verify(host, t.(rows := rows), fromSeq, toSeq, withKey) == Verify(host, t, fromSeq, toSeq, withKey)
  {}

  lemma {:induction false} SameEyesInRange(host: Host, t: Table, rows: seq<Row>, lo: int, hi: int)
    requires AllLookAlike(host, t.rows, rows)
    ensures SeedHash(rows, lo) == SeedHash(t.rows, lo)
    ensures WalkRows(host, Between(rows, lo, hi), lo, SeedHash(t.rows, lo))
         == WalkRows(host, Between(t.rows, lo, hi), lo, SeedHash(t.rows, lo))
    ensures var cps := CheckpointsBetween(t.checkpoints, lo, hi);
            Findings(host, rows, cps, SeedPrior(t, cps)) == Findings(host, t.rows, cps, SeedPrior(t, cps))
  {
    LookAlikeBetween(host, t.rows, rows, lo, hi);
    LookAlikeSeed(host, t.rows, rows, lo - 1);
    LookAlikeWalk(host, Between(t.rows, lo, hi), Between(rows, lo, hi), lo, SeedHash(t.rows, lo));
    var cps := CheckpointsBetween(t.checkpoints, lo, hi);
    LookAlikeFindings(host, t.rows, rows, cps, SeedPrior(t, cps));
  }

  lemma {:induction false} LookAlikeTail(host: Host, a: seq<Row>, b: seq<Row>)
    requires AllLookAlike(host, a, b) && a != []
    ensures LookAlike(host, a[0], b[0]) && AllLookAlike(host, a[1..], b[1..])
  {
    forall i | 0 <= i < |a[1..]| ensures LookAlike(host, a[1..][i], b[1..][i]) {
      assert LookAlike(host, a[i + 1], b[i + 1]);
    }
  }

  lemma {:induction false} LookAlikeBetween(host: Host, a: seq<Row>, b: seq<Row>, lo: int, hi: int)
    requires AllLookAlike(host, a, b)
    ensures AllLookAlike(host, Between(a, lo, hi), Between(b, lo, hi))
  {
    if a != [] {
      LookAlikeTail(host, a, b);
      LookAlikeBetween(host, a[1..], b[1..], lo, hi);
    }
  }

  lemma {:induction false} LookAlikeSeed(host: Host, a: seq<Row>, b: seq<Row>, at: int)
    requires AllLookAlike(host, a, b)
    ensures HashAt(a, at) == HashAt(b, at)
  {
    if a != [] {
      LookAlikeTail(host, a, b);
      LookAlikeSeed(host, a[1..], b[1..], at);
    }
  }

  lemma {:induction false} LookAlikeWalk(host: Host, a: seq<Row>, b: seq<Row>, expected: int, prev: Option<Text>)
    requires AllLookAlike(host, a, b)
    ensures WalkRows(host, a, expected, prev) == WalkRows(host, b, expected, prev)
    decreases |a|
  {
    if a != [] {
      LookAlikeTail(host, a, b);
      if Rehashed(host, a[0]).Done? {
        LookAlikeWalk(host, a[1..], b[1..], a[0].sequence + 1, Some(Rehashed(host, a[0]).value));
      }
    }
  }

  lemma {:induction false} LookAlikeRehashed(host: Host, a: seq<Row>, b: seq<Row>)
    requires AllLookAlike(host, a, b)
    ensures RehashedAll(host, a) == RehashedAll(host, b)
  {
    if a != [] {
      LookAlikeTail(host, a, b);
      LookAlikeRehashed(host, a[1..], b[1..]);
    }
  }

  lemma {:induction false} LookAlikeFindings(host: Host, a: seq<Row>, b: seq<Row>, cps: seq<Checkpoint>, prior: int)
    requires AllLookAlike(host, a, b)
    ensures Findings(host, a, cps, prior) == Findings(host, b, cps, prior)
    decreases |cps|
  {
    if cps != [] {
      LookAlikeBetween(host, a, b, prior + 1, cps[0].atSequence);
      LookAlikeRehashed(host, Between(a, prior + 1, cps[0].atSequence), Between(b, prior + 1, cps[0].atSequence));
      LookAlikeFindings(host, a, b, cps[1..], cps[0].atSequence);
    }
  }

  // ------------------------------------------------------ rewriting the details

  function WithDetails(t: Table, j: nat, spelling: Text): Table
    requires j < |t.rows|
  {
    t.(rows := t.rows[j := t.rows[j].(detailsJson := spelling)])
  }

  /** Two texts JSON.parse reads as values with one normal form. */
  ghost predicate Respells(a: Text, b: Text, round: Number -> Number) {
    && Parse(a, round).Some? && Parse(b, round).Some?
    && Norm(Parse(a, round).value) == Norm(Parse(b, round).value)
  }

  lemma {:induction false} RespelledText(row: Row, spelling: Text, round: Number -> Number)
    requires Parse(row.detailsJson, round).Some?
    ensures StoredText(row.(detailsJson := spelling), round) == StoredText(row, round)
       <==> Respells(row.detailsJson, spelling, round)
  {
    if Parse(spelling, round).Some? {
      ParsedIsStorable(row.detailsJson, round);
      ParsedIsStorable(spelling, round);
      EntryTextBinds(row.(detailsJson := spelling), Parse(spelling, round).value, row, Parse(row.detailsJson, round).value);
    }
  }

  /** Stored details in any other spelling of the same value change no answer, on any table. */
  lemma {:induction false} RespellingUnseen(host: Host, t: Table, j: nat, spelling: Text, fromSeq: int, toSeq: int, withKey: bool)
    requires j < |t.rows| && Respells(t.rows[j].detailsJson, spelling, host.round)
    ensures Verify(host, WithDetails(t, j, spelling), fromSeq, toSeq, withKey) == Verify(host, t, fromSeq, toSeq, withKey)
  {
    RespelledText(t.rows[j], spelling, host.round);
    SameEyesSameVerdict(host, t, WithDetails(t, j, spelling).rows, fromSeq, toSeq, withKey);
  }

  /**
   * And nothing else does: with the details of a row in an accepted range rewritten, the range is
   * accepted exactly when the new text spells the old value.
   */
  lemma {:induction false} OnlyRespellingsPass(host: Host, t: Table, j: nat, spelling: Text, fromSeq: int, toSeq: int, withKey: bool)
    requires InOrder(t) && Accepts(host, t, fromSeq, toSeq, withKey)
    requires j < |t.rows| && Max(1, fromSeq) <= t.rows[j].sequence <= Min(toSeq, Tip(t.rows))
    requires var x, y := t.rows[j].(detailsJson := spelling), t.rows[j];
             Rehashed(host, x).Done? && Rehashed(host, x) == Rehashed(host, y) ==> StoredText(x, host.round) == StoredText(y, host.round)
    ensures Accepts(host, WithDetails(t, j, spelling), fromSeq, toSeq, withKey)
       <==> Respells(t.rows[j].detailsJson, spelling, host.round)
  {
    AcceptedRowRehashes(host, t, j, fromSeq, toSeq, withKey);
    RespelledText(t.rows[j], spelling, host.round);
    if Respells(t.rows[j].detailsJson, spelling, host.round) {
      RespellingUnseen(host, t, j, spelling, fromSeq, toSeq, withKey);
    }
    if Accepts(host, WithDetails(t, j, spelling), fromSeq, toSeq, withKey) {
      AcceptedRowRehashes(host, WithDetails(t, j, spelling), j, fromSeq, toSeq, withKey);
    }
  }

  lemma {:induction false} AcceptedRowRehashes(host: Host, t: Table, j: nat, fromSeq: int, toSeq: int, withKey: bool)
    requires InOrder(t) && Accepts(host, t, fromSeq, toSeq, withKey)
    requires j < |t.rows| && Max(1, fromSeq) <= t.rows[j].sequence <= Min(toSeq, Tip(t.rows))
    ensures Rehashed(host, t.rows[j]) == Done(t.rows[j].entryHash)
  {
    AcceptsMeans(host, t, fromSeq, toSeq, withKey);
    assert RowHolds(host, t.rows, Max(1, fromSeq), j);
  }

  // ------------------------------------------------------------ what is not read

  /** Rows numbered below 1, whatever they hold, change no answer about the rows they stand before. */
  lemma {:induction false} RowsBelowOneUnseen(host: Host, t: Table, below: seq<Row>, fromSeq: int, toSeq: int, withKey: bool)
    requires t.rows != [] && forall i | 0 <= i < |below| :: below[i].sequence < 1
    requires forall i | 0 <= i < |t.checkpoints| :: 0 <= t.checkpoints[i].atSequence
    ensures Verify(host, t.(rows := below + t.rows), fromSeq, toSeq, withKey) == Verify(host, t, fromSeq, toSeq, withKey)
  {
    BelowInRange(host, t, below, Max(1, fromSeq), Min(toSeq, Tip(t.rows)));
    SameFindingsSameVerdict(host, t, below + t.rows, fromSeq, toSeq, withKey);
  }

  lemma {:induction false} BelowInRange(host: Host, t: Table, below: seq<Row>, lo: int, hi: int)
    requires 1 <= lo && forall i | 0 <= i < |below| :: below[i].sequence < 1
    requires forall i | 0 <= i < |t.checkpoints| :: 0 <= t.checkpoints[i].atSequence
    ensures SeedHash(below + t.rows, lo) == SeedHash(t.rows, lo)
    ensures Between(below + t.rows, lo, hi) == Between(t.rows, lo, hi)
    ensures var cps := CheckpointsBetween(t.checkpoints, lo, hi);
            Findings(host, below + t.rows, cps, SeedPrior(t, cps)) == Findings(host, t.rows, cps, SeedPrior(t, cps))
  {
    var cps := CheckpointsBetween(t.checkpoints, lo, hi);
    BelowNotBetween(below, t.rows, lo, hi);
    BelowNotAt(below, t.rows, lo - 1);
    SelectedAreNatural(t.checkpoints, lo, hi);
    PriorIsNatural(t.checkpoints, if cps == [] then 0 else cps[0].atSequence);
    BelowNotFound(host, below, t.rows, cps, SeedPrior(t, cps));
  }

  lemma {:induction false} SelectedAreNatural(cps: seq<Checkpoint>, lo: int, hi: int)
    requires 1 <= lo
    ensures forall i | 0 <= i < |CheckpointsBetween(cps, lo, hi)| :: 0 <= CheckpointsBetween(cps, lo, hi)[i].atSequence
  {
    if cps != [] { SelectedAreNatural(cps[1..], lo, hi); }
  }

  lemma {:induction false} BelowNotBetween(below: seq<Row>, rows: seq<Row>, lo: int, hi: int)
    requires 1 <= lo && forall i | 0 <= i < |below| :: below[i].sequence < 1
    ensures Between(below + rows, lo, hi) == Between(rows, lo, hi)
  {
    if below == [] {
      assert below + rows == rows;
    } else {
      assert (below + rows)[1..] == below[1..] + rows;
      BelowNotBetween(below[1..], rows, lo, hi);
    }
  }

  lemma {:induction false} BelowNotAt(below: seq<Row>, rows: seq<Row>, at: int)
    requires forall i | 0 <= i < |below| :: below[i].sequence < 1
    ensures 1 <= at ==> HashAt(below + rows, at) == HashAt(rows, at)
  {
    if below == [] {
      assert below + rows == rows;
    } else {
      assert (below + rows)[1..] == below[1..] + rows;
      BelowNotAt(below[1..], rows, at);
    }
  }

  lemma {:induction false} PriorIsNatural(cps: seq<Checkpoint>, at: int)
    requires forall i | 0 <= i < |cps| :: 0 <= cps[i].atSequence
    ensures 0 <= PriorSequence(cps, at)
    decreases |cps|
  {
    if cps != [] { PriorIsNatural(cps[..|cps| - 1], at); }
  }

  lemma {:induction false} BelowNotFound(host: Host, below: seq<Row>, rows: seq<Row>, cps: seq<Checkpoint>, prior: int)
    requires 0 <= prior && forall i | 0 <= i < |below| :: below[i].sequence < 1
    requires forall i | 0 <= i < |cps| :: 0 <= cps[i].atSequence
    ensures Findings(host, below + rows, cps, prior) == Findings(host, rows, cps, prior)
    decreases |cps|
  {
    if cps != [] {
      BelowNotBetween(below, rows, prior + 1, cps[0].atSequence);
      BelowNotFound(host, below, rows, cps[1..], cps[0].atSequence);
    }
  }

  /** Checkpoints that anchor the same places with the same roots, and under the key the same signatures. */
  ghost predicate SameAnchors(a: seq<Checkpoint>, b: seq<Checkpoint>, withKey: bool) {
    |a| == |b| && forall i {:trigger a[i]} {:trigger b[i]} | 0 <= i < |a| ::
      && a[i].atSequence == b[i].atSequence && a[i].merkleRoot == b[i].merkleRoot
      && (withKey ==> a[i].signature == b[i].signature)
  }

  /** The id and the time of a checkpoint, and without the key its signature, decide no verdict. */
  lemma {:induction false} CheckpointColumnsUnseen(
      host: Host, t: Table, cps: seq<Checkpoint>, fromSeq: int, toSeq: int, withKey: bool)
    requires InOrder(t) && SameAnchors(cps, t.checkpoints, withKey)
    ensures Accepts(host, t.(checkpoints := cps), fromSeq, toSeq, withKey) <==> Accepts(host, t, fromSeq, toSeq, withKey)
  {
    var other := t.(checkpoints := cps);
    AcceptsMeans(host, t, fromSeq, toSeq, withKey);
    AcceptsMeans(host, other, fromSeq, toSeq, withKey);
    forall i | 0 <= i < |cps| ensures AnchorHolds(host, other, i, withKey) <==> AnchorHolds(host, t, i, withKey) {
      SameAnchorHolds(host, t, cps, i, withKey);
    }
  }

  lemma {:induction false} SameAnchorHolds(host: Host, t: Table, cps: seq<Checkpoint>, i: nat, withKey: bool)
    requires SameAnchors(cps, t.checkpoints, withKey) && i < |cps|
    ensures AnchorHolds(host, t.(checkpoints := cps), i, withKey) <==> AnchorHolds(host, t, i, withKey)
  {
    assert PriorTo(cps, i) == PriorTo(t.checkpoints, i);
    AnchorMeans(host, t, i, withKey);
    AnchorMeans(host, t.(checkpoints := cps), i, withKey);
  }

  // ------------------------------------------------- past the last checkpoint

  /** Honest rows keep the checkpoints before any that is dropped, whatever follows the last of them. */
  lemma {:induction false} CheckpointsOverOther(host: Host, written: Table, m: nat, other: seq<Row>)
    requires Honest(host, written) && m <= |written.checkpoints| && HonestRows(host, other)
    requires var c := LastSequence(written.checkpoints[..m]);
             0 <= c <= |written.rows| && c <= |other| && other[..c] == written.rows[..c]
    ensures Honest(host, Table(other, written.checkpoints[..m]))
  {
    var cps, kept := written.checkpoints, written.checkpoints[..m];
    var c := LastSequence(kept);
    forall i | 0 <= i < m ensures HonestCheckpoint(host, other, kept, i) {
      assert HonestCheckpoint(host, written.rows, cps, i);
      if i < m - 1 { CheckpointsIncrease(host, written.rows, cps, i, m - 1); }
      CheckpointOverPrefix(host, written.rows, cps, i, c);
      assert PriorTo(kept, i) == PriorTo(cps, i);
      CheckpointOverPrefix(host, other, kept, i, c);
    }
  }

  /**
   * Rows after the last checkpoint left in the table can be replaced by any others that hash and
   * link, or by none, and no range is reported, with or without the key.
   */
  lemma {:induction false} TailRewritingUnseen(
      host: Host, written: Table, m: nat, other: seq<Row>, fromSeq: int, toSeq: int, withKey: bool)
    requires WellBehaved(host) && Honest(host, written) && m <= |written.checkpoints| && HonestRows(host, other)
    requires var c := LastSequence(written.checkpoints[..m]);
             c <= |other| && c <= |written.rows| && 0 <= c && other[..c] == written.rows[..c]
    ensures Accepts(host, Table(other, written.checkpoints[..m]), fromSeq, toSeq, withKey)
  {
    CheckpointsOverOther(host, written, m, other);
    HonestAccepted(host, Table(other, written.checkpoints[..m]), fromSeq, toSeq, withKey);
  }

  /** Without the key a whole log written and signed by any other host is accepted over every range. */
  lemma {:induction false} WithoutKeyAnyLogPasses(host: Host, other: Host, t: Table, fromSeq: int, toSeq: int)
    requires other.hash == host.hash && other.round == host.round && WellBehaved(other) && Honest(other, t)
    ensures Accepts(host, t, fromSeq, toSeq, false)
  {
    var lo, hi := Max(1, fromSeq), Min(toSeq, Tip(t.rows));
    HonestRowsAreFormed(other, t.rows);
    FormedInOrder(other, t);
    HonestAccepted(other, t, fromSeq, toSeq, false);
    AcceptsMeans(other, t, fromSeq, toSeq, false);
    AcceptsMeans(host, t, fromSeq, toSeq, false);
    forall i | 0 <= i < |t.rows| && lo <= t.rows[i].sequence <= hi ensures RowHolds(host, t.rows, lo, i) {
      assert RowHolds(other, t.rows, lo, i);
    }
    forall i | 0 <= i < |t.checkpoints| && lo <= t.checkpoints[i].atSequence <= hi ensures AnchorHolds(host, t, i, false) {
      assert AnchorHolds(other, t, i, false);
      SameHashAlike(host, other, Anchored(t, i));
      AnchorMeans(host, t, i, false);
      AnchorMeans(other, t, i, false);
    }
  }

  lemma {:induction false} SameHashAlike(host: Host, other: Host, rows: seq<Row>)
    requires other.hash == host.hash && other.round == host.round
    ensures RehashedAll(host, rows) == RehashedAll(other, rows)
  {
    if rows != [] { SameHashAlike(host, other, rows[1..]); }
  }

  // ------------------------------------------------------ exactly what is proved

  /** How many of the checkpoints lie below `at`. */
  lemma {:induction false} CountBelow(cps: seq<Checkpoint>, at: int) returns (i: nat)
    requires NonDecreasing(cps)
    ensures i <= |cps| && PriorSequence(cps, at) == PriorTo(cps, i)
    ensures forall j | 0 <= j < |cps| :: j < i <==> cps[j].atSequence < at
    decreases |cps|
  {
    if cps == [] {
      i := 0;
    } else if cps[|cps| - 1].atSequence < at {
      i := |cps|;
    } else {
      i := CountBelow(cps[..|cps| - 1], at);
    }
  }

  lemma {:induction false} LinkedChainHolds(host: Host, t: Table)
    requires InOrder(t) && Tip(t.rows) >= 1 && |ChainOf(t)| == Tip(t.rows) && Linked(host, ChainOf(t))
    ensures ChainHolds(host, t.rows, 1, Tip(t.rows))
  {
    var rows, chain := t.rows, ChainOf(t);
    var p := ChainIsTail(t);
    forall i | 0 <= i < |rows| && 1 <= rows[i].sequence <= Tip(rows) ensures RowHolds(host, rows, 1, i) {
      LinkedRowHolds(host, rows, p, i);
    }
  }

  lemma {:induction false} ChainIsTail(t: Table) returns (p: nat)
    requires InOrder(t) && Tip(t.rows) >= 1
    ensures p <= |t.rows| && ChainOf(t) == t.rows[p..]
    ensures forall i | 0 <= i < |t.rows| :: i < p <==> t.rows[i].sequence < 1
  {
    var q;
    p, q := BetweenIsSlice(t.rows, 1, Tip(t.rows));
    assert t.rows[|t.rows| - 1].sequence == Tip(t.rows);
    assert p <= |t.rows| - 1 < q;
  }

  lemma {:induction false} LinkedRowHolds(host: Host, rows: seq<Row>, p: nat, i: nat)
    requires Increasing(rows) && p <= i < |rows| && Linked(host, rows[p..])
    ensures RowHolds(host, rows, 1, i)
  {
    assert LinkedRow(host, rows[p..], i - p);
    HashAtFinds(rows, i - p);
    if i > p { assert LinkedRow(host, rows[p..], i - p - 1) && rows[i - 1] == rows[p..][i - p - 1]; }
  }

  /** In a chain that counts from 1 the rows between two places are a slice of it. */
  lemma {:induction false} LinkedBetween(host: Host, t: Table, lo: nat, hi: nat)
    requires InOrder(t) && lo <= hi <= Tip(t.rows) == |ChainOf(t)| && Linked(host, ChainOf(t)) && Tip(t.rows) >= 1
    ensures Between(t.rows, lo + 1, hi) == ChainOf(t)[lo..hi]
  {
    var p := ChainIsTail(t);
    var from, to := p + lo, p + hi;
    forall i | 0 <= i < |t.rows| ensures from <= i < to <==> lo + 1 <= t.rows[i].sequence <= hi {
      if i >= p { assert LinkedRow(host, ChainOf(t), i - p); }
    }
    BetweenSelects(t.rows, lo + 1, hi, from, to);
    SliceOfTail(t.rows, p, lo, hi);
  }

  lemma {:induction false} SliceOfTail(rows: seq<Row>, p: nat, lo: nat, hi: nat)
    requires lo <= hi && p + hi <= |rows|
    ensures rows[p + lo..p + hi] == rows[p..][lo..hi]
  {}

  lemma {:induction false} SamePrefixHashes(host: Host, written: Table, t: Table, lo: nat, hi: nat)
    requires lo <= hi && SamePrefix(host, written, t, hi)
    ensures EntryHashes(ChainOf(t)[lo..hi]) == EntryHashes(written.rows[lo..hi])
  {
    forall j | 0 <= j < hi - lo ensures ChainOf(t)[lo..hi][j].entryHash == written.rows[lo..hi][j].entryHash {
      assert SameRow(host, ChainOf(t)[lo + j], written.rows[lo + j]);
    }
  }

  lemma {:induction false} LinkedRehashed(host: Host, rows: seq<Row>, lo: nat, hi: nat)
    requires Linked(host, rows) && lo <= hi <= |rows|
    ensures RehashedAll(host, rows[lo..hi]) == Done(EntryHashes(rows[lo..hi]))
  {
    forall j | 0 <= j < |rows[lo..hi]| ensures Rehashed(host, rows[lo..hi][j]) == Done(rows[lo..hi][j].entryHash) {
      assert LinkedRow(host, rows, lo + j);
    }
    OwnHashes(host, rows[lo..hi]);
  }

  /** A checkpoint of the host holds over any linked chain that is the host's up to it. */
  lemma {:induction false} PrefixAnchorHolds(host: Host, written: Table, t: Table, i: nat, withKey: bool)
    requires WellBehaved(host) && Honest(host, written) && InOrder(t) && SameAnchors(t.checkpoints, written.checkpoints, withKey)
    requires Tip(t.rows) >= 1 && |ChainOf(t)| == Tip(t.rows) && Linked(host, ChainOf(t))
    requires i < |t.checkpoints| && t.checkpoints[i].atSequence <= Tip(t.rows)
    requires SamePrefix(host, written, t, t.checkpoints[i].atSequence)
    ensures AnchorHolds(host, t, i, withKey)
  {
    var prior, at := PriorTo(t.checkpoints, i), t.checkpoints[i].atSequence;
    assert HonestCheckpoint(host, written.rows, written.checkpoints, i);
    LinkedBetween(host, t, prior, at);
    LinkedRehashed(host, ChainOf(t), prior, at);
    SamePrefixHashes(host, written, t, prior, at);
    AnchorMeans(host, t, i, withKey);
  }

  lemma {:induction false} PrefixShorter(host: Host, written: Table, t: Table, m: int, n: int)
    requires SamePrefix(host, written, t, n) && 0 <= m <= n
    ensures SamePrefix(host, written, t, m)
  {}

  /**
   * Exactly what acceptance up to the tip proves where the checkpoints anchor what the host's do, key
   * or no key: the chain counts 1, 2, ... to the tip, each row hashed and linked, and up to the last
   * checkpoint the tip reaches it is the host's own. Past that, any such chain is accepted.
   */
  lemma {:induction false} AcceptedExactly(host: Host, written: Table, t: Table, withKey: bool)
    requires WellBehaved(host) && Honest(host, written) && InOrder(t) && NoCollision(host, written, t)
    requires SameAnchors(t.checkpoints, written.checkpoints, withKey)
    ensures var tip := Tip(t.rows);
            Accepts(host, t, 1, tip, withKey)
            <==> && |ChainOf(t)| == Max(0, tip) && Linked(host, ChainOf(t))
                 && SamePrefix(host, written, t, PriorSequence(t.checkpoints, tip + 1))
  {
    var reached := CountBelow(t.checkpoints, Tip(t.rows) + 1);
    if Accepts(host, t, 1, Tip(t.rows), withKey) {
      AcceptedIsPrefix(host, written, t, reached, withKey);
    } else if |ChainOf(t)| == Max(0, Tip(t.rows)) && Linked(host, ChainOf(t))
              && SamePrefix(host, written, t, PriorSequence(t.checkpoints, Tip(t.rows) + 1)) {
      PrefixIsAccepted(host, written, t, reached, withKey);
    }
  }

  lemma {:induction false} AcceptedIsPrefix(host: Host, written: Table, t: Table, reached: nat, withKey: bool)
    requires WellBehaved(host) && Honest(host, written) && InOrder(t) && NoCollision(host, written, t)
    requires SameAnchors(t.checkpoints, written.checkpoints, withKey) && Accepts(host, t, 1, Tip(t.rows), withKey)
    requires reached <= |t.checkpoints| && forall j | 0 <= j < reached :: t.checkpoints[j].atSequence <= Tip(t.rows)
    ensures |ChainOf(t)| == Max(0, Tip(t.rows)) && Linked(host, ChainOf(t))
    ensures SamePrefix(host, written, t, PriorTo(t.checkpoints, reached))
  {
    ChainNoLongerThanTip(host, t, withKey);
    if Tip(t.rows) >= 1 { AcceptedChain(host, t, withKey); }
    if reached > 0 { KeptCheckpointProvesPrefix(host, written, reached - 1, t, reached - 1, withKey); }
  }

  lemma {:induction false} PrefixIsAccepted(host: Host, written: Table, t: Table, reached: nat, withKey: bool)
    requires WellBehaved(host) && Honest(host, written) && InOrder(t) && SameAnchors(t.checkpoints, written.checkpoints, withKey)
    requires |ChainOf(t)| == Max(0, Tip(t.rows)) && Linked(host, ChainOf(t))
    requires reached <= |t.checkpoints| && SamePrefix(host, written, t, PriorTo(t.checkpoints, reached))
    requires forall j | 0 <= j < |t.checkpoints| :: j < reached <==> t.checkpoints[j].atSequence <= Tip(t.rows)
    ensures Accepts(host, t, 1, Tip(t.rows), withKey)
  {
    if Tip(t.rows) >= 1 {
      LinkedChainHolds(host, t);
      PrefixAnchorsHold(host, written, t, reached, withKey);
    }
    AcceptsMeans(host, t, 1, Tip(t.rows), withKey);
  }

  lemma {:induction false} PrefixAnchorsHold(host: Host, written: Table, t: Table, reached: nat, withKey: bool)
    requires WellBehaved(host) && Honest(host, written) && InOrder(t) && SameAnchors(t.checkpoints, written.checkpoints, withKey)
    requires Tip(t.rows) >= 1 && |ChainOf(t)| == Tip(t.rows) && Linked(host, ChainOf(t))
    requires reached <= |t.checkpoints| && SamePrefix(host, written, t, PriorTo(t.checkpoints, reached))
    requires forall j | 0 <= j < |t.checkpoints| :: j < reached <==> t.checkpoints[j].atSequence <= Tip(t.rows)
    ensures AnchorsHold(host, t, 1, Tip(t.rows), withKey)
  {
    forall i | 0 <= i < |t.checkpoints| && 1 <= t.checkpoints[i].atSequence <= Tip(t.rows) ensures AnchorHolds(host, t, i, withKey) {
      PrefixShorter(host, written, t, t.checkpoints[i].atSequence, PriorTo(t.checkpoints, reached));
      PrefixAnchorHolds(host, written, t, i, withKey);
    }
  }
}
