/**
 * Every history of the host's own writes: the table is gapless and linked, its
 * checkpoints partition what they anchor, and exactly which ranges of it are accepted.
 */
module AuditHistory {
  import opened Wrappers
  import opened Ordering
  import opened Json
  import opened JsonText
  import opened JsonRoundTrip
  import opened JsonHoles
  import opened Merkle
  import opened AuditEntry
  import opened AuditLog
  import opened AuditVerdict

  // ------------------------------------------------------------- formed tables

  /** Row `i` is number i + 1 and carries the hash of the row before it. */
  ghost predicate FormedRow(rows: seq<Row>, i: nat)
    requires i < |rows|
  {
    && rows[i].sequence == i + 1
    && rows[i].prevHash == (if i == 0 then None else Some(rows[i - 1].entryHash))
  }

  ghost predicate FormedRows(rows: seq<Row>) {
    forall i {:trigger FormedRow(rows, i)} | 0 <= i < |rows| :: FormedRow(rows, i)
  }

  /** Checkpoint `i` is the signed root over the rows since the one before it. */
  ghost predicate HonestCheckpoint(host: Host, rows: seq<Row>, cps: seq<Checkpoint>, i: nat)
    requires i < |cps|
  {
    var prior, cp := PriorTo(cps, i), cps[i];
    && 0 <= prior < cp.atSequence <= |rows|
    && cp.merkleRoot == Root(host.hash, EntryHashes(rows[prior..cp.atSequence]))
    && cp.signature == host.sign(HexBytes(cp.merkleRoot))
  }

  /** What every statement of the host keeps, whatever details it is given. */
  ghost predicate Formed(host: Host, t: Table) {
    FormedRows(t.rows) && forall i | 0 <= i < |t.checkpoints| :: HonestCheckpoint(host, t.rows, t.checkpoints, i)
  }

  lemma {:induction false} FormedTip(rows: seq<Row>)
    requires FormedRows(rows)
    ensures Increasing(rows) && Tip(rows) == |rows|
    ensures forall i | 0 <= i < |rows| :: rows[i].sequence == i + 1
  {
    forall i | 0 <= i < |rows| ensures rows[i].sequence == i + 1 {
      assert FormedRow(rows, i);
    }
  }

  lemma {:induction false} FormedBetween(rows: seq<Row>, lo: int, hi: int)
    requires FormedRows(rows) && 0 <= lo <= hi <= |rows|
    ensures Between(rows, lo + 1, hi) == rows[lo..hi]
  {
    FormedTip(rows);
    BetweenSelects(rows, lo + 1, hi, lo, hi);
  }

  lemma {:induction false} CheckpointsIncrease(host: Host, rows: seq<Row>, cps: seq<Checkpoint>, i: nat, j: nat)
    requires forall k | 0 <= k < |cps| :: HonestCheckpoint(host, rows, cps, k)
    requires i < j < |cps|
    ensures cps[i].atSequence < cps[j].atSequence
    decreases j
  {
    assert HonestCheckpoint(host, rows, cps, j);
    if i + 1 < j { CheckpointsIncrease(host, rows, cps, i, j - 1); }
  }

  lemma {:induction false} AllCheckpointsIncrease(host: Host, rows: seq<Row>, cps: seq<Checkpoint>)
    requires forall k | 0 <= k < |cps| :: HonestCheckpoint(host, rows, cps, k)
    ensures forall i, j | 0 <= i < j < |cps| :: cps[i].atSequence < cps[j].atSequence
  {
    forall i, j | 0 <= i < j < |cps| ensures cps[i].atSequence < cps[j].atSequence {
      CheckpointsIncrease(host, rows, cps, i, j);
    }
  }

  lemma {:induction false} FormedInOrder(host: Host, t: Table)
    requires Formed(host, t)
    ensures InOrder(t) && Tip(t.rows) == |t.rows| && 0 <= LastSequence(t.checkpoints) <= |t.rows|
    ensures forall i, j | 0 <= i < j < |t.checkpoints| :: t.checkpoints[i].atSequence < t.checkpoints[j].atSequence
  {
    FormedTip(t.rows);
    AllCheckpointsIncrease(host, t.rows, t.checkpoints);
    if t.checkpoints != [] { assert HonestCheckpoint(host, t.rows, t.checkpoints, |t.checkpoints| - 1); }
  }

  /** The anchored stretches are disjoint and leave nothing out up to the last checkpoint. */
  lemma {:induction false} CheckpointsPartition(host: Host, t: Table, s: int) returns (i: nat)
    requires Formed(host, t) && 1 <= s <= LastSequence(t.checkpoints)
    ensures i < |t.checkpoints| && PriorTo(t.checkpoints, i) < s <= t.checkpoints[i].atSequence
    ensures forall j | 0 <= j < |t.checkpoints| && PriorTo(t.checkpoints, j) < s <= t.checkpoints[j].atSequence :: j == i
  {
    FormedInOrder(host, t);
    var cps := t.checkpoints;
    i := |cps| - 1;
    while s <= PriorTo(cps, i)
      invariant i < |cps| && s <= cps[i].atSequence
      decreases i
    {
      i := i - 1;
    }
    forall j | 0 <= j < |cps| && PriorTo(cps, j) < s <= cps[j].atSequence ensures j == i {
      var before, after := PriorTo(cps, i), PriorTo(cps, j);
    }
  }

  /** A row of a formed table holds exactly if it hashes to what is stored. */
  lemma {:induction false} FormedRowHolds(host: Host, rows: seq<Row>, lo: int, i: nat)
    requires FormedRows(rows) && i < |rows| && 1 <= lo <= i + 1
    ensures RowHolds(host, rows, lo, i) <==> Rehashed(host, rows[i]) == Done(rows[i].entryHash)
  {
    assert FormedRow(rows, i);
    FormedTip(rows);
    HashAtFinds(rows, i);
    if i > 0 { assert rows[i - 1].sequence == i; }
  }

  lemma {:induction false} OwnHashes(host: Host, rows: seq<Row>)
    requires forall i | 0 <= i < |rows| :: Rehashed(host, rows[i]) == Done(rows[i].entryHash)
    ensures RehashedAll(host, rows) == Done(EntryHashes(rows))
  {
    if rows != [] { OwnHashes(host, rows[1..]); }
  }

  /** An honest checkpoint holds once the rows it anchors hash to what is stored. */
  lemma {:induction false} FormedAnchorHolds(host: Host, t: Table, i: nat, withKey: bool)
    requires WellBehaved(host) && FormedRows(t.rows)
    requires i < |t.checkpoints| && HonestCheckpoint(host, t.rows, t.checkpoints, i)
    requires forall j | PriorTo(t.checkpoints, i) <= j < t.checkpoints[i].atSequence ::
               Rehashed(host, t.rows[j]) == Done(t.rows[j].entryHash)
    ensures AnchorHolds(host, t, i, withKey)
  {
    var prior, at := PriorTo(t.checkpoints, i), t.checkpoints[i].atSequence;
    FormedBetween(t.rows, prior, at);
    OwnHashes(host, t.rows[prior..at]);
  }

  // ------------------------------------------------------------ honest tables

  /** The columns are those of the entry with these details. */
  ghost predicate Wrote(host: Host, row: Row, details: Json) {
    row.detailsJson == Canonicalize(details) && row.entryHash == host.hash(EntryText(row, details))
  }

  /** A row whose columns are those of some entry with whole details. */
  ghost predicate Genuine(host: Host, row: Row) {
    exists details :: Passable(details, host.round) && Whole(details) && Wrote(host, row, details)
  }

  ghost predicate HonestRow(host: Host, rows: seq<Row>, i: nat)
    requires i < |rows|
  {
    FormedRow(rows, i) && Genuine(host, rows[i])
  }

  ghost predicate HonestRows(host: Host, rows: seq<Row>) {
    forall i {:trigger HonestRow(host, rows, i)} | 0 <= i < |rows| :: HonestRow(host, rows, i)
  }

  ghost predicate Honest(host: Host, t: Table) {
    HonestRows(host, t.rows) && forall i | 0 <= i < |t.checkpoints| :: HonestCheckpoint(host, t.rows, t.checkpoints, i)
  }

  lemma {:induction false} HonestRowsAreFormed(host: Host, rows: seq<Row>)
    requires HonestRows(host, rows)
    ensures FormedRows(rows)
  {
    forall i | 0 <= i < |rows| ensures FormedRow(rows, i) {
      assert HonestRow(host, rows, i);
    }
  }

  /** A row as it was written hashes to what is stored if its details are whole, and else makes the verifier throw. */
  lemma {:induction false} WrittenRehashes(host: Host, row: Row, details: Json)
    requires Passable(details, host.round) && Wrote(host, row, details)
    ensures Rehashed(host, row) == if Whole(details) then Done(row.entryHash) else Threw
  {
    StoredTextIsEntryText(row, details, host.round);
  }

  lemma {:induction false} GenuineRehashes(host: Host, row: Row)
    requires Genuine(host, row)
    ensures StoredText(row, host.round).Some? && Rehashed(host, row) == Done(row.entryHash)
  {
    var details :| Passable(details, host.round) && Whole(details) && Wrote(host, row, details);
    WrittenRehashes(host, row, details);
  }

  // ------------------------------------------------------- honest is accepted

  lemma {:induction false} HonestRehashedBetween(host: Host, rows: seq<Row>, lo: nat, hi: nat)
    requires HonestRows(host, rows) && lo <= hi <= |rows|
    ensures RehashedAll(host, rows[lo..hi]) == Done(EntryHashes(rows[lo..hi]))
  {
    forall j | 0 <= j < |rows[lo..hi]| ensures Rehashed(host, rows[lo..hi][j]) == Done(rows[lo..hi][j].entryHash) {
      assert HonestRow(host, rows, lo + j);
      GenuineRehashes(host, rows[lo + j]);
    }
    OwnHashes(host, rows[lo..hi]);
  }

  lemma {:induction false} AllGenuineRehash(host: Host, rows: seq<Row>)
    requires HonestRows(host, rows)
    ensures forall j | 0 <= j < |rows| :: Rehashed(host, rows[j]) == Done(rows[j].entryHash)
  {
    forall j | 0 <= j < |rows| ensures Rehashed(host, rows[j]) == Done(rows[j].entryHash) {
      assert HonestRow(host, rows, j);
      GenuineRehashes(host, rows[j]);
    }
  }

  /** The host's own tables are accepted over every range, with or without the key. */
  lemma {:induction false} HonestAccepted(host: Host, t: Table, fromSeq: int, toSeq: int, withKey: bool)
    requires WellBehaved(host) && Honest(host, t)
    ensures Accepts(host, t, fromSeq, toSeq, withKey)
    ensures Verify(host, t, fromSeq, toSeq, withKey).value.anomalies == []
  {
    TruncatedAccepted(host, t, |t.rows|, fromSeq, toSeq, withKey);
    assert t.rows[..|t.rows|] == t.rows;
    ValidIffNoAnomalies(host, t, fromSeq, toSeq, withKey);
  }

  /**
   * So is every truncation of them, with all checkpoints left in place: the range is
   * clamped to the rows there are, and checkpoints beyond the last row are not read.
   */
  lemma {:induction false} TruncatedAccepted(host: Host, t: Table, m: nat, fromSeq: int, toSeq: int, withKey: bool)
    requires WellBehaved(host) && Honest(host, t) && m <= |t.rows|
    ensures Accepts(host, Table(t.rows[..m], t.checkpoints), fromSeq, toSeq, withKey)
  {
    var cut := Table(t.rows[..m], t.checkpoints);
    var lo, hi := Max(1, fromSeq), Min(toSeq, Tip(cut.rows));
    HonestRowsAreFormed(host, t.rows);
    FormedInOrder(host, t);
    PrefixHonest(host, t.rows, m);
    HonestRowsAreFormed(host, cut.rows);
    FormedTip(cut.rows);
    HonestChainHolds(host, cut.rows, lo, hi);
    HonestAnchorsHold(host, t, m, lo, hi, withKey);
    AcceptsMeans(host, cut, fromSeq, toSeq, withKey);
  }

  lemma {:induction false} PrefixHonest(host: Host, rows: seq<Row>, m: nat)
    requires HonestRows(host, rows) && m <= |rows|
    ensures HonestRows(host, rows[..m])
  {
    forall i | 0 <= i < m ensures HonestRow(host, rows[..m], i) {
      assert HonestRow(host, rows, i);
    }
  }

  lemma {:induction false} HonestChainHolds(host: Host, rows: seq<Row>, lo: int, hi: int)
    requires HonestRows(host, rows) && 1 <= lo
    ensures ChainHolds(host, rows, lo, hi)
  {
    HonestRowsAreFormed(host, rows);
    AllGenuineRehash(host, rows);
    FormedTip(rows);
    forall i | 0 <= i < |rows| && lo <= rows[i].sequence <= hi ensures RowHolds(host, rows, lo, i) {
      FormedRowHolds(host, rows, lo, i);
    }
  }

  lemma {:induction false} HonestAnchorsHold(host: Host, t: Table, m: nat, lo: int, hi: int, withKey: bool)
    requires WellBehaved(host) && Honest(host, t) && hi <= m <= |t.rows|
    ensures AnchorsHold(host, Table(t.rows[..m], t.checkpoints), lo, hi, withKey)
  {
    var rows, cps := t.rows[..m], t.checkpoints;
    PrefixHonest(host, t.rows, m);
    HonestRowsAreFormed(host, rows);
    AllGenuineRehash(host, rows);
    forall i | 0 <= i < |cps| && lo <= cps[i].atSequence <= hi ensures AnchorHolds(host, Table(rows, cps), i, withKey) {
      CheckpointOverPrefix(host, t.rows, cps, i, m);
      FormedAnchorHolds(host, Table(rows, cps), i, withKey);
    }
  }

  lemma {:induction false} CheckpointOverPrefix(host: Host, rows: seq<Row>, cps: seq<Checkpoint>, i: nat, m: nat)
    requires i < |cps| && m <= |rows| && cps[i].atSequence <= m
    ensures HonestCheckpoint(host, rows, cps, i) <==> HonestCheckpoint(host, rows[..m], cps, i)
  {
    if 0 <= PriorTo(cps, i) < cps[i].atSequence {
      assert rows[..m][PriorTo(cps, i)..cps[i].atSequence] == rows[PriorTo(cps, i)..cps[i].atSequence];
    }
  }

  // ------------------------------------------------------- rows that do not parse

  /** The verifier re-reads the row with sequence `s`: in the range itself, or under a checkpoint in the range. */
  ghost predicate ReRead(t: Table, lo: int, hi: int, s: int) {
    || lo <= s <= hi
    || (exists i {:trigger t.checkpoints[i]} :: 0 <= i < |t.checkpoints| && lo <= t.checkpoints[i].atSequence <= hi
                                              && PriorTo(t.checkpoints, i) < s <= t.checkpoints[i].atSequence)
  }

  /** A row whose stored details do not parse makes the verifier throw on every range that holds it. */
  lemma {:induction false} UnreadableThrows(host: Host, t: Table, j: nat, fromSeq: int, toSeq: int, withKey: bool)
    requires InOrder(t) && j < |t.rows| && Parse(t.rows[j].detailsJson, host.round).None?
    requires Max(1, fromSeq) <= t.rows[j].sequence <= Min(toSeq, Tip(t.rows))
    ensures Verify(host, t, fromSeq, toSeq, withKey).Threw?
  {
    var lo, hi := Max(1, fromSeq), Min(toSeq, Tip(t.rows));
    var p, q := BetweenIsSlice(t.rows, lo, hi);
    WalkThrows(host, t.rows[p..q], j - p, lo, SeedHash(t.rows, lo));
  }

  lemma {:induction false} WalkThrows(host: Host, rows: seq<Row>, j: nat, expected: int, prev: Option<Text>)
    requires j < |rows| && Rehashed(host, rows[j]).Threw?
    ensures WalkRows(host, rows, expected, prev).Threw?
    decreases |rows|
  {
    if j > 0 && Rehashed(host, rows[0]).Done? {
      WalkThrows(host, rows[1..], j - 1, rows[0].sequence + 1, Some(Rehashed(host, rows[0]).value));
    }
  }

  /** So does one under a checkpoint in the range. */
  lemma {:induction false} UnreadableAnchorThrows(host: Host, t: Table, i: nat, fromSeq: int, toSeq: int, withKey: bool)
    requires InOrder(t) && i < |t.checkpoints| && Examined(host, t.rows, PriorTo(t.checkpoints, i), t.checkpoints[i]).Threw?
    requires Max(1, fromSeq) <= t.checkpoints[i].atSequence <= Min(toSeq, Tip(t.rows))
    ensures Verify(host, t, fromSeq, toSeq, withKey).Threw?
  {
    var cps := t.checkpoints;
    var lo, hi := Max(1, fromSeq), Min(toSeq, Tip(t.rows));
    var p, q := CheckpointsAreSlice(cps, lo, hi);
    assert cps[p..q][i - p] == cps[i];
    if p == i { PriorSequenceIsPriorTo(cps, p); } else { assert cps[p..q][i - p - 1] == cps[i - 1]; }
    FindingsThrow(host, t.rows, cps[p..q], i - p, SeedPrior(t, cps[p..q]));
  }

  lemma {:induction false} FindingsThrow(host: Host, rows: seq<Row>, cps: seq<Checkpoint>, k: nat, prior: int)
    requires k < |cps| && Examined(host, rows, if k == 0 then prior else cps[k - 1].atSequence, cps[k]).Threw?
    ensures Findings(host, rows, cps, prior).Threw?
    decreases k
  {
    if k > 0 { FindingsThrow(host, rows, cps[1..], k - 1, cps[0].atSequence); }
  }

  /** Every row hashes to what is stored, unless its details do not parse. */
  ghost predicate HashesUnlessUnreadable(host: Host, rows: seq<Row>) {
    forall j | 0 <= j < |rows| && Rehashed(host, rows[j]).Done? :: Rehashed(host, rows[j]) == Done(rows[j].entryHash)
  }

  /** Then a formed table is accepted if every row re-read parses, */
  lemma {:induction false} ReadableAccepted(host: Host, t: Table, fromSeq: int, toSeq: int, withKey: bool)
    requires WellBehaved(host) && Formed(host, t) && HashesUnlessUnreadable(host, t.rows)
    requires forall j | 0 <= j < |t.rows| && ReRead(t, Max(1, fromSeq), Min(toSeq, Tip(t.rows)), j + 1) :: Rehashed(host, t.rows[j]).Done?
    ensures Accepts(host, t, fromSeq, toSeq, withKey)
  {
    var lo, hi := Max(1, fromSeq), Min(toSeq, Tip(t.rows));
    FormedInOrder(host, t);
    FormedTip(t.rows);
    forall i | 0 <= i < |t.rows| && lo <= t.rows[i].sequence <= hi ensures RowHolds(host, t.rows, lo, i) {
      assert ReRead(t, lo, hi, i + 1);
      FormedRowHolds(host, t.rows, lo, i);
    }
    forall i | 0 <= i < |t.checkpoints| && lo <= t.checkpoints[i].atSequence <= hi ensures AnchorHolds(host, t, i, withKey) {
      assert HonestCheckpoint(host, t.rows, t.checkpoints, i);
      forall j | PriorTo(t.checkpoints, i) <= j < t.checkpoints[i].atSequence
        ensures Rehashed(host, t.rows[j]) == Done(t.rows[j].entryHash)
      {
        assert ReRead(t, lo, hi, j + 1);
      }
      FormedAnchorHolds(host, t, i, withKey);
    }
    AcceptsMeans(host, t, fromSeq, toSeq, withKey);
  }

  /** and makes the verifier throw if one does not. */
  lemma {:induction false} UnreadableFormedThrows(host: Host, t: Table, j: nat, fromSeq: int, toSeq: int, withKey: bool)
    requires Formed(host, t) && j < |t.rows| && Rehashed(host, t.rows[j]).Threw?
    requires ReRead(t, Max(1, fromSeq), Min(toSeq, Tip(t.rows)), j + 1)
    ensures Verify(host, t, fromSeq, toSeq, withKey).Threw?
  {
    var lo, hi := Max(1, fromSeq), Min(toSeq, Tip(t.rows));
    FormedInOrder(host, t);
    FormedTip(t.rows);
    if lo <= j + 1 <= hi {
      UnreadableThrows(host, t, j, fromSeq, toSeq, withKey);
    } else {
      var i :| 0 <= i < |t.checkpoints| && lo <= t.checkpoints[i].atSequence <= hi
               && PriorTo(t.checkpoints, i) < j + 1 <= t.checkpoints[i].atSequence;
      UnreadableUnder(host, t, i, j);
      UnreadableAnchorThrows(host, t, i, fromSeq, toSeq, withKey);
    }
  }

  lemma {:induction false} UnreadableUnder(host: Host, t: Table, i: nat, j: nat)
    requires Formed(host, t) && j < |t.rows| && Rehashed(host, t.rows[j]).Threw?
    requires i < |t.checkpoints| && PriorTo(t.checkpoints, i) <= j < t.checkpoints[i].atSequence
    ensures Examined(host, t.rows, PriorTo(t.checkpoints, i), t.checkpoints[i]).Threw?
  {
    var prior, at := PriorTo(t.checkpoints, i), t.checkpoints[i].atSequence;
    assert HonestCheckpoint(host, t.rows, t.checkpoints, i);
    FormedBetween(t.rows, prior, at);
    SliceThrows(host, t.rows, prior, at, j);
  }

  lemma {:induction false} SliceThrows(host: Host, rows: seq<Row>, lo: nat, hi: nat, j: nat)
    requires lo <= j < hi <= |rows| && Rehashed(host, rows[j]).Threw?
    ensures RehashedAll(host, rows[lo..hi]).Threw?
  {
    var slice := rows[lo..hi];
    assert slice[j - lo] == rows[j];
    OneThrows(host, slice, j - lo);
  }

  lemma {:induction false} OneThrows(host: Host, rows: seq<Row>, i: nat)
    requires i < |rows| && Rehashed(host, rows[i]).Threw?
    ensures RehashedAll(host, rows).Threw?
  {
    RehashedAllStep(host, rows, 0);
    assert rows[0..] == rows;
    if i > 0 {
      assert rows[1..][i - 1] == rows[i];
      OneThrows(host, rows[1..], i - 1);
    }
  }

  // ------------------------------------------------- exactly when the verifier throws

  lemma {:induction false} WalkThrewAt(host: Host, rows: seq<Row>, p: nat, q: nat, expected: int, prev: Option<Text>) returns (j: nat)
    requires p <= q <= |rows| && WalkRows(host, rows[p..q], expected, prev).Threw?
    ensures p <= j < q && Rehashed(host, rows[j]).Threw?
    decreases q - p
  {
    var here := rows[p..q];
    j := p;
    if Rehashed(host, rows[p]).Done? {
      assert here[0] == rows[p] && here[1..] == rows[p + 1..q];
      j := WalkThrewAt(host, rows, p + 1, q, rows[p].sequence + 1, Some(Rehashed(host, rows[p]).value));
    }
  }

  lemma {:induction false} OneThrewAt(host: Host, rows: seq<Row>, p: nat, q: nat) returns (j: nat)
    requires p <= q <= |rows| && RehashedAll(host, rows[p..q]).Threw?
    ensures p <= j < q && Rehashed(host, rows[j]).Threw?
    decreases q - p
  {
    var here := rows[p..q];
    j := p;
    if Rehashed(host, rows[p]).Done? {
      assert here[0] == rows[p] && here[1..] == rows[p + 1..q];
      j := OneThrewAt(host, rows, p + 1, q);
    }
  }

  lemma {:induction false} FindingsThrewAt(host: Host, rows: seq<Row>, cps: seq<Checkpoint>, p: nat, q: nat) returns (i: nat)
    requires p <= q <= |cps| && Findings(host, rows, cps[p..q], PriorTo(cps, p)).Threw?
    ensures p <= i < q && Examined(host, rows, PriorTo(cps, i), cps[i]).Threw?
    decreases q - p
  {
    i := p;
    FindingsStep(host, rows, cps[p..q], 0, PriorTo(cps, p));
    assert cps[p..q][0..] == cps[p..q] && cps[p..q][1..] == cps[p + 1..q];
    if Examined(host, rows, PriorTo(cps, p), cps[p]).Done? {
      i := FindingsThrewAt(host, rows, cps, p + 1, q);
    }
  }

  /** The stored details of a row that is re-read do not parse. */
  ghost predicate StumblesAt(host: Host, t: Table, lo: int, hi: int, j: nat) {
    j < |t.rows| && Parse(t.rows[j].detailsJson, host.round).None? && ReRead(t, lo, hi, t.rows[j].sequence)
  }

  /** A checkpoint throws exactly if a row under it does. */
  lemma {:induction false} ExaminedThrewAt(host: Host, rows: seq<Row>, prior: int, cp: Checkpoint) returns (j: nat)
    requires Increasing(rows) && Examined(host, rows, prior, cp).Threw?
    ensures j < |rows| && prior < rows[j].sequence <= cp.atSequence && Rehashed(host, rows[j]).Threw?
  {
    var p, q := BetweenIsSlice(rows, prior + 1, cp.atSequence);
    j := OneThrewAt(host, rows, p, q);
  }

  lemma {:induction false} UnderThrows(host: Host, rows: seq<Row>, prior: int, cp: Checkpoint, j: nat)
    requires Increasing(rows) && j < |rows| && prior < rows[j].sequence <= cp.atSequence && Rehashed(host, rows[j]).Threw?
    ensures Examined(host, rows, prior, cp).Threw?
  {
    var p, q := BetweenIsSlice(rows, prior + 1, cp.atSequence);
    SliceThrows(host, rows, p, q, j);
  }

  lemma {:induction false} ThrewAt(host: Host, t: Table, lo: int, hi: int) returns (j: nat)
    requires InOrder(t)
    requires var cps := CheckpointsBetween(t.checkpoints, lo, hi);
             || WalkRows(host, Between(t.rows, lo, hi), lo, SeedHash(t.rows, lo)).Threw?
             || Findings(host, t.rows, cps, SeedPrior(t, cps)).Threw?
    ensures StumblesAt(host, t, lo, hi, j)
  {
    if WalkRows(host, Between(t.rows, lo, hi), lo, SeedHash(t.rows, lo)).Threw? {
      var p, q := BetweenIsSlice(t.rows, lo, hi);
      j := WalkThrewAt(host, t.rows, p, q, lo, SeedHash(t.rows, lo));
    } else {
      var i := AnchorThrewAt(host, t, lo, hi);
      j := ExaminedThrewAt(host, t.rows, PriorTo(t.checkpoints, i), t.checkpoints[i]);
    }
  }

  lemma {:induction false} AnchorThrewAt(host: Host, t: Table, lo: int, hi: int) returns (i: nat)
    requires InOrder(t)
    requires var cps := CheckpointsBetween(t.checkpoints, lo, hi); Findings(host, t.rows, cps, SeedPrior(t, cps)).Threw?
    ensures i < |t.checkpoints| && lo <= t.checkpoints[i].atSequence <= hi
    ensures Examined(host, t.rows, PriorTo(t.checkpoints, i), t.checkpoints[i]).Threw?
  {
    var p, q := CheckpointsAreSlice(t.checkpoints, lo, hi);
    assert p < q && t.checkpoints[p..q][0] == t.checkpoints[p];
    PriorSequenceIsPriorTo(t.checkpoints, p);
    i := FindingsThrewAt(host, t.rows, t.checkpoints, p, q);
  }

  /** On any ordered table the verifier throws exactly if a row in the range, or under a checkpoint in it, does not parse. */
  lemma {:induction false} ThrowsExactly(host: Host, t: Table, fromSeq: int, toSeq: int, withKey: bool)
    requires InOrder(t)
    ensures var lo, hi := Max(1, fromSeq), Min(toSeq, Tip(t.rows));
            Verify(host, t, fromSeq, toSeq, withKey).Threw? <==> lo <= hi && exists j: nat :: StumblesAt(host, t, lo, hi, j)
  {
    var lo, hi := Max(1, fromSeq), Min(toSeq, Tip(t.rows));
    if Verify(host, t, fromSeq, toSeq, withKey).Threw? {
      var j := ThrewAt(host, t, lo, hi);
    }
    if lo <= hi && exists j: nat :: StumblesAt(host, t, lo, hi, j) {
      var j: nat :| StumblesAt(host, t, lo, hi, j);
      StumblingThrows(host, t, fromSeq, toSeq, withKey, j);
    }
  }

  lemma {:induction false} StumblingThrows(host: Host, t: Table, fromSeq: int, toSeq: int, withKey: bool, j: nat)
    requires InOrder(t) && Max(1, fromSeq) <= Min(toSeq, Tip(t.rows))
    requires StumblesAt(host, t, Max(1, fromSeq), Min(toSeq, Tip(t.rows)), j)
    ensures Verify(host, t, fromSeq, toSeq, withKey).Threw?
  {
    var lo, hi := Max(1, fromSeq), Min(toSeq, Tip(t.rows));
    if lo <= t.rows[j].sequence <= hi {
      UnreadableThrows(host, t, j, fromSeq, toSeq, withKey);
    } else {
      var i :| 0 <= i < |t.checkpoints| && lo <= t.checkpoints[i].atSequence <= hi
               && PriorTo(t.checkpoints, i) < t.rows[j].sequence <= t.checkpoints[i].atSequence;
      UnderThrows(host, t.rows, PriorTo(t.checkpoints, i), t.checkpoints[i], j);
      UnreadableAnchorThrows(host, t, i, fromSeq, toSeq, withKey);
    }
  }

  /** The range an answer is for: from 1 at least, to the tip at most; beyond that there is nothing to report. */
  lemma {:induction false} RangeAnswered(host: Host, t: Table, fromSeq: int, toSeq: int, withKey: bool)
    requires Verify(host, t, fromSeq, toSeq, withKey).Done?
    ensures var r := Verify(host, t, fromSeq, toSeq, withKey).value;
            var tip := if t.rows == [] then 0 else t.rows[|t.rows| - 1].sequence;
            && r.fromSeq == (if fromSeq < 1 then 1 else fromSeq) && r.toSeq == (if toSeq > tip then tip else toSeq)
            && (r.toSeq < r.fromSeq ==> r.anomalies == [] && r.checkpoints == [] && r.chainValid && r.checkpointsValid)
  {}

  // ---------------------------------------------------------------- histories

  datatype Operation =
    | Write(input: Input, occurredAt: Text)
    | Anchor(id: Text, now: int)
    | AnchorIfDue(options: Options, id: Text, now: int)

  function Apply(host: Host, t: Table, op: Operation): Table {
    var next := match op
      case Write(input, occurredAt) => Logged(host, t, input, occurredAt)
      case Anchor(id, now) => Checkpointed(host, t, id, now)
      case AnchorIfDue(options, id, now) => Triggered(host, t, options, id, now);
    if next.Threw? then t else next.value
  }

  /** The table after a history of statements, some of which may have thrown. */
  function Run(host: Host, history: seq<Operation>): Table {
    if history == [] then Table([], [])
    else Apply(host, Run(host, history[..|history| - 1]), history[|history| - 1])
  }

  /** A statement as the host may issue it: the details of a write are a value it can pass. */
  ghost predicate Loggable(host: Host, op: Operation) {
    op.Write? ==> Passable(op.input.details, host.round)
  }

  /** The details of the rows a history leaves, in order: those of each write that did not throw. */
  ghost function WrittenDetails(host: Host, history: seq<Operation>): seq<Json> {
    if history == [] then []
    else
      var before, op := history[..|history| - 1], history[|history| - 1];
      WrittenDetails(host, before)
      + (if op.Write? && Logged(host, Run(host, before), op.input, op.occurredAt).Done? then [op.input.details] else [])
  }

  lemma {:induction false} RowKeepsFormed(host: Host, t: Table, row: Row)
    requires Formed(host, t) && row.sequence == |t.rows| + 1
    requires row.prevHash == (if t.rows == [] then None else Some(t.rows[|t.rows| - 1].entryHash))
    ensures Formed(host, t.(rows := t.rows + [row]))
  {
    var rows := t.rows + [row];
    assert rows[..|t.rows|] == t.rows;
    forall i | 0 <= i < |t.checkpoints| ensures HonestCheckpoint(host, rows, t.checkpoints, i) {
      assert HonestCheckpoint(host, t.rows, t.checkpoints, i);
      CheckpointOverPrefix(host, rows, t.checkpoints, i, |t.rows|);
    }
    forall i | 0 <= i < |rows| ensures FormedRow(rows, i) {
      if i < |t.rows| { assert FormedRow(t.rows, i); }
    }
  }

  lemma {:induction false} CheckpointKeepsFormed(host: Host, t: Table, cp: Checkpoint)
    requires Formed(host, t) && HonestCheckpoint(host, t.rows, t.checkpoints + [cp], |t.checkpoints|)
    ensures Formed(host, t.(checkpoints := t.checkpoints + [cp]))
  {
    forall i | 0 <= i < |t.checkpoints| + 1 ensures HonestCheckpoint(host, t.rows, t.checkpoints + [cp], i) {
      if i < |t.checkpoints| { SameCheckpoint(host, t.rows, t.checkpoints, cp, i); }
    }
  }

  lemma {:induction false} SameCheckpoint(host: Host, rows: seq<Row>, cps: seq<Checkpoint>, cp: Checkpoint, i: nat)
    requires i < |cps|
    ensures HonestCheckpoint(host, rows, cps, i) <==> HonestCheckpoint(host, rows, cps + [cp], i)
  {
    assert PriorTo(cps, i) == PriorTo(cps + [cp], i);
  }

  lemma {:induction false} NextCheckpointHonest(host: Host, t: Table, id: Text, now: int)
    requires Formed(host, t) && LastSequence(t.checkpoints) < Tip(t.rows)
    ensures HonestCheckpoint(host, t.rows, t.checkpoints + [NextCheckpoint(host, t, id, now)], |t.checkpoints|)
  {
    var n, last := |t.checkpoints|, LastSequence(t.checkpoints);
    FormedInOrder(host, t);
    FormedBetween(t.rows, last, |t.rows|);
    assert PriorTo(t.checkpoints + [NextCheckpoint(host, t, id, now)], n) == last;
  }

  lemma {:induction false} ApplyKeepsFormed(host: Host, t: Table, op: Operation)
    requires Formed(host, t)
    ensures Formed(host, Apply(host, t, op))
  {
    match op {
      case Write(input, occurredAt) =>
        FormedTip(t.rows);
        RowKeepsFormed(host, t, NextRow(host, t.rows, input, occurredAt));
      case Anchor(id, now) => AnchorKeepsFormed(host, t, id, now);
      case AnchorIfDue(_, id, now) => AnchorKeepsFormed(host, t, id, now);
    }
  }

  lemma {:induction false} AnchorKeepsFormed(host: Host, t: Table, id: Text, now: int)
    requires Formed(host, t)
    ensures var next := Checkpointed(host, t, id, now); next.Done? ==> Formed(host, next.value)
  {
    if LastSequence(t.checkpoints) < Tip(t.rows) {
      NextCheckpointHonest(host, t, id, now);
      CheckpointKeepsFormed(host, t, NextCheckpoint(host, t, id, now));
    }
  }

  /** Every reachable table is gapless, linked and soundly anchored, whatever was logged. */
  lemma {:induction false} HistoryIsFormed(host: Host, history: seq<Operation>)
    ensures Formed(host, Run(host, history))
    decreases |history|
  {
    if history != [] {
      var n := |history| - 1;
      HistoryIsFormed(host, history[..n]);
      ApplyKeepsFormed(host, Run(host, history[..n]), history[n]);
    }
  }

  lemma {:induction false} NextRowWrote(host: Host, rows: seq<Row>, input: Input, occurredAt: Text)
    ensures Wrote(host, NextRow(host, rows, input, occurredAt), input.details)
  {
    var row := NextRow(host, rows, input, occurredAt);
    assert EntryValues(row, input.details) == EntryValues(row.(entryHash := []), input.details);
  }

  /** The rows are those written with these details, in this order. */
  ghost predicate RowsWrote(host: Host, rows: seq<Row>, ds: seq<Json>) {
    |ds| == |rows| && forall j {:trigger ds[j]} | 0 <= j < |rows| :: Passable(ds[j], host.round) && Wrote(host, rows[j], ds[j])
  }

  lemma {:induction false} RowsWroteOneMore(host: Host, rows: seq<Row>, ds: seq<Json>, row: Row, d: Json)
    requires RowsWrote(host, rows, ds) && Passable(d, host.round) && Wrote(host, row, d)
    ensures RowsWrote(host, rows + [row], ds + [d])
  {
    forall j | 0 <= j < |rows| + 1 ensures Passable((ds + [d])[j], host.round) && Wrote(host, (rows + [row])[j], (ds + [d])[j]) {
      if j < |rows| { assert ds[j] == (ds + [d])[j]; }
    }
  }

  lemma {:induction false} HistoryWrote(host: Host, history: seq<Operation>)
    requires forall op | op in history :: Loggable(host, op)
    ensures RowsWrote(host, Run(host, history).rows, WrittenDetails(host, history))
    decreases |history|
  {
    if history != [] {
      var before, op := history[..|history| - 1], history[|history| - 1];
      assert Loggable(host, op);
      HistoryWrote(host, before);
      ApplyWrote(host, Run(host, before), WrittenDetails(host, before), op);
    }
  }

  lemma {:induction false} ApplyWrote(host: Host, t: Table, ds: seq<Json>, op: Operation)
    requires RowsWrote(host, t.rows, ds) && Loggable(host, op)
    ensures var more := if op.Write? && Logged(host, t, op.input, op.occurredAt).Done? then [op.input.details] else [];
            RowsWrote(host, Apply(host, t, op).rows, ds + more)
  {
    assert ds + [] == ds;
    if op.Write? {
      NextRowWrote(host, t.rows, op.input, op.occurredAt);
      RowsWroteOneMore(host, t.rows, ds, NextRow(host, t.rows, op.input, op.occurredAt), op.input.details);
    }
  }

  lemma {:induction false} RowsWroteRehash(host: Host, rows: seq<Row>, ds: seq<Json>)
    requires RowsWrote(host, rows, ds)
    ensures HashesUnlessUnreadable(host, rows)
    ensures forall j | 0 <= j < |rows| :: Rehashed(host, rows[j]).Done? <==> Whole(ds[j])
  {
    forall j | 0 <= j < |rows| ensures Rehashed(host, rows[j]) == if Whole(ds[j]) then Done(rows[j].entryHash) else Threw {
      WrittenRehashes(host, rows[j], ds[j]);
    }
  }

  lemma {:induction false} WholeIsHonest(host: Host, rows: seq<Row>, ds: seq<Json>)
    requires FormedRows(rows) && RowsWrote(host, rows, ds)
    ensures HonestRows(host, rows) <==> forall d | d in ds :: Whole(d)
  {
    if forall d | d in ds :: Whole(d) {
      forall i | 0 <= i < |rows| ensures HonestRow(host, rows, i) {
        assert FormedRow(rows, i);
        assert ds[i] in ds && Passable(ds[i], host.round);
      }
    }
    if HonestRows(host, rows) {
      RowsWroteRehash(host, rows, ds);
      AllGenuineRehash(host, rows);
    }
  }

  /** A reachable table is honest exactly if all details it holds are whole. */
  lemma {:induction false} HistoryIsHonest(host: Host, history: seq<Operation>)
    requires forall op | op in history :: Loggable(host, op)
    ensures Honest(host, Run(host, history)) <==> forall d | d in WrittenDetails(host, history) :: Whole(d)
  {
    HistoryIsFormed(host, history);
    HistoryWrote(host, history);
    WholeIsHonest(host, Run(host, history).rows, WrittenDetails(host, history));
  }

  /** A write throws exactly if a row holds the hash already, and else adds its row and nothing more. */
  lemma {:induction false} LogThrowsIff(host: Host, t: Table, input: Input, occurredAt: Text)
    ensures var next := NextRow(host, t.rows, input, occurredAt);
            Logged(host, t, input, occurredAt)
            == if exists k :: 0 <= k < |t.rows| && t.rows[k].entryHash == next.entryHash then Threw
               else Done(Table(t.rows + [next], t.checkpoints))
  {
    var next, hashes := NextRow(host, t.rows, input, occurredAt), EntryHashes(t.rows);
    if k :| 0 <= k < |t.rows| && t.rows[k].entryHash == next.entryHash { assert hashes[k] == next.entryHash; }
    if next.entryHash in hashes {
      var k :| 0 <= k < |hashes| && hashes[k] == next.entryHash;
      assert t.rows[k].entryHash == next.entryHash;
    }
  }

  /** Entries with different sequences are hashed from different texts. */
  lemma {:induction false} SequencesDiffer(host: Host, x: Row, dx: Json, y: Row, dy: Json)
    requires Passable(dx, host.round) && Whole(dx) && Passable(dy, host.round) && Whole(dy) && x.sequence != y.sequence
    ensures EntryText(x, dx) != EntryText(y, dy)
  {
    WholeIsStorable(dx, host.round);
    WholeIsStorable(dy, host.round);
    FilledPrints(dx);
    FilledPrints(dy);
    SameDetailsSameText(x, dx, Filled(dx));
    SameDetailsSameText(y, dy, Filled(dy));
    EntryTextBinds(x, Filled(dx), y, Filled(dy));
  }

  /** After any history of whole details, a write of whole details throws only if the hash collides. */
  lemma {:induction false} ThrowsOnlyOnCollision(host: Host, history: seq<Operation>, input: Input, occurredAt: Text)
      returns (a: Text, b: Text)
    requires forall op | op in history :: Loggable(host, op)
    requires forall d | d in WrittenDetails(host, history) :: Whole(d)
    requires Passable(input.details, host.round) && Whole(input.details)
    requires Logged(host, Run(host, history), input, occurredAt).Threw?
    ensures a != b && host.hash(a) == host.hash(b)
  {
    var rows, ds := Run(host, history).rows, WrittenDetails(host, history);
    var next := NextRow(host, rows, input, occurredAt);
    HistoryIsFormed(host, history);
    HistoryWrote(host, history);
    FormedTip(rows);
    NextRowWrote(host, rows, input, occurredAt);
    LogThrowsIff(host, Run(host, history), input, occurredAt);
    var k :| 0 <= k < |rows| && rows[k].entryHash == next.entryHash;
    assert ds[k] in ds && rows[k].sequence == k + 1;
    SequencesDiffer(host, rows[k], ds[k], next, input.details);
    a, b := EntryText(rows[k], ds[k]), EntryText(next, input.details);
  }

  /**
   * Every history verifies without anomalies over exactly the ranges all of whose rows, and all
   * rows under whose checkpoints, were written with whole details; over any other the verifier throws.
   */
  lemma {:induction false} RangeAcceptedExactly(host: Host, history: seq<Operation>, fromSeq: int, toSeq: int, withKey: bool)
    requires WellBehaved(host) && forall op | op in history :: Loggable(host, op)
    ensures var t, ds := Run(host, history), WrittenDetails(host, history);
            var r := Verify(host, t, fromSeq, toSeq, withKey);
            && |ds| == |t.rows|
            && (Accepts(host, t, fromSeq, toSeq, withKey)
                <==> forall j | 0 <= j < |ds| && ReRead(t, Max(1, fromSeq), Min(toSeq, Tip(t.rows)), j + 1) :: Whole(ds[j]))
            && (r.Threw? || (r.value.chainValid && r.value.anomalies == []))
  {
    var t, ds := Run(host, history), WrittenDetails(host, history);
    var lo, hi := Max(1, fromSeq), Min(toSeq, Tip(t.rows));
    HistoryIsFormed(host, history);
    HistoryWrote(host, history);
    RowsWroteRehash(host, t.rows, ds);
    if j :| 0 <= j < |ds| && ReRead(t, lo, hi, j + 1) && !Whole(ds[j]) {
      UnreadableFormedThrows(host, t, j, fromSeq, toSeq, withKey);
    } else {
      ReadableAccepted(host, t, fromSeq, toSeq, withKey);
      ValidIffNoAnomalies(host, t, fromSeq, toSeq, withKey);
    }
  }

  /** A history verifies over every range, with and without the key, exactly if all it wrote was whole. */
  lemma {:induction false} HistoryAccepted(host: Host, history: seq<Operation>)
    requires WellBehaved(host) && forall op | op in history :: Loggable(host, op)
    ensures (forall fromSeq, toSeq, withKey :: Accepts(host, Run(host, history), fromSeq, toSeq, withKey))
       <==> forall d | d in WrittenDetails(host, history) :: Whole(d)
  {
    var t, ds := Run(host, history), WrittenDetails(host, history);
    if forall d | d in ds :: Whole(d) {
      forall fromSeq, toSeq, withKey ensures Accepts(host, t, fromSeq, toSeq, withKey) {
        RangeAcceptedExactly(host, history, fromSeq, toSeq, withKey);
      }
    } else if Accepts(host, t, 1, Tip(t.rows), true) {
      AllReadFromOne(host, history);
    }
  }

  lemma {:induction false} AllReadFromOne(host: Host, history: seq<Operation>)
    requires WellBehaved(host) && forall op | op in history :: Loggable(host, op)
    requires Accepts(host, Run(host, history), 1, Tip(Run(host, history).rows), true)
    ensures forall d | d in WrittenDetails(host, history) :: Whole(d)
  {
    var t, ds := Run(host, history), WrittenDetails(host, history);
    RangeAcceptedExactly(host, history, 1, Tip(t.rows), true);
    HistoryIsFormed(host, history);
    FormedTip(t.rows);
    forall d | d in ds ensures Whole(d) {
      var j :| 0 <= j < |ds| && ds[j] == d;
      assert ReRead(t, 1, Tip(t.rows), j + 1);
    }
  }

  // ------------------------------------------------------ the unanchored tail

  datatype Request = Request(input: Input, occurredAt: Text, id: Text, now: int)

  /** The call sites of the host: each write is followed by triggerCheckpointIfDue. */
  function Requests(options: Options, requests: seq<Request>): seq<Operation> {
    if requests == [] then []
    else
      var n := |requests| - 1;
      var r := requests[n];
      Requests(options, requests[..n]) + [Write(r.input, r.occurredAt), AnchorIfDue(options, r.id, r.now)]
  }

  function Unanchored(t: Table): int {
    Tip(t.rows) - LastSequence(t.checkpoints)
  }

  lemma {:induction false} RunTwoMore(host: Host, history: seq<Operation>, a: Operation, b: Operation)
    ensures Run(host, history + [a, b]) == Apply(host, Apply(host, Run(host, history), a), b)
  {
    var all := history + [a, b];
    assert all[..|all| - 1] == history + [a];
    assert (history + [a])[..|history|] == history;
  }

  /** The ids in use are among those requested. */
  ghost predicate IdsFrom(cps: seq<Checkpoint>, ids: set<Text>) {
    forall i | 0 <= i < |cps| :: cps[i].id in ids
  }

  lemma {:induction false} UnusedId(cps: seq<Checkpoint>, ids: set<Text>, id: Text)
    requires IdsFrom(cps, ids) && id !in ids
    ensures !UsedId(cps, id)
  {
    if cps != [] { UnusedId(cps[1..], ids, id); }
  }

  function RequestIds(requests: seq<Request>): set<Text> {
    if requests == [] then {} else RequestIds(requests[..|requests| - 1]) + {requests[|requests| - 1].id}
  }

  /** Ids that never repeat, as randomUUID is relied on to give. */
  predicate FreshIds(requests: seq<Request>) {
    requests == []
    || (var n := |requests| - 1; FreshIds(requests[..n]) && requests[n].id !in RequestIds(requests[..n]))
  }

  /** After every request fewer rows than the interval are unanchored. */
  lemma {:induction false} TailStaysShort(host: Host, options: Options, requests: seq<Request>)
    requires options.intervalEntries >= 1 && FreshIds(requests)
    ensures var t := Run(host, Requests(options, requests));
            0 <= Unanchored(t) < options.intervalEntries && IdsFrom(t.checkpoints, RequestIds(requests))
    decreases |requests|
  {
    if requests != [] {
      var n := |requests| - 1;
      var r := requests[n];
      var before := Requests(options, requests[..n]);
      TailStaysShort(host, options, requests[..n]);
      RunTwoMore(host, before, Write(r.input, r.occurredAt), AnchorIfDue(options, r.id, r.now));
      HistoryIsFormed(host, before);
      var t := Run(host, before);
      FormedInOrder(host, t);
      WriteAddsAtMostOne(host, t, r.input, r.occurredAt);
      UnusedId(t.checkpoints, RequestIds(requests[..n]), r.id);
      TriggerShortens(host, options, Apply(host, t, Write(r.input, r.occurredAt)), r.id, r.now, RequestIds(requests[..n]));
    }
  }

  lemma {:induction false} WriteAddsAtMostOne(host: Host, t: Table, input: Input, occurredAt: Text)
    ensures var t' := Apply(host, t, Write(input, occurredAt));
            t'.checkpoints == t.checkpoints && Tip(t.rows) <= Tip(t'.rows) <= Tip(t.rows) + 1
  {}

  lemma {:induction false} TriggerShortens(host: Host, options: Options, t: Table, id: Text, now: int, ids: set<Text>)
    requires 0 <= LastSequence(t.checkpoints) <= Tip(t.rows) && options.intervalEntries >= 1
    requires IdsFrom(t.checkpoints, ids) && !UsedId(t.checkpoints, id)
    ensures var t' := Apply(host, t, AnchorIfDue(options, id, now));
            0 <= Unanchored(t') < options.intervalEntries && IdsFrom(t'.checkpoints, ids + {id})
  {}
}
