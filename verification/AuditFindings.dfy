/**
 * What each anomaly in a verifier's answer says of the tables, for every ordered table and every
 * range that answers: said of rows and checkpoints, not of the walks that find them.
 */
module AuditFindings {
  import opened Wrappers
  import opened Ordering
  import opened Json
  import opened JsonText
  import opened Merkle
  import opened AuditEntry
  import opened AuditLog
  import opened AuditVerdict

  // ------------------------------------------------------------- what is the case

  predicate RowInRange(rows: seq<Row>, i: nat, lo: int, hi: int) {
    i < |rows| && lo <= rows[i].sequence <= hi
  }

  predicate Present(rows: seq<Row>, s: int) {
    exists i :: 0 <= i < |rows| && rows[i].sequence == s
  }

  /** A row numbered `s` in the range does not hash to what is stored with it. */
  ghost predicate Altered(host: Host, rows: seq<Row>, lo: int, hi: int, s: int) {
    exists i: nat :: RowInRange(rows, i, lo, hi) && rows[i].sequence == s && Rehashed(host, rows[i]) != Done(rows[i].entryHash)
  }

  /** `s` is the first absent number of a gap in the range that a later row of the range follows. */
  ghost predicate Absent(rows: seq<Row>, lo: int, hi: int, s: int) {
    && lo <= s && !Present(rows, s)
    && (s == lo || Present(rows, s - 1))
    && exists i: nat :: RowInRange(rows, i, lo, hi) && s < rows[i].sequence
  }

  /** What row `i` of the range should carry: the rehash of the row before it there, or the seed of the range. */
  function Carried(host: Host, rows: seq<Row>, lo: int, i: nat): Outcome<Option<Text>>
    requires i < |rows|
  {
    if i == 0 || rows[i - 1].sequence < lo then Done(SeedHash(rows, lo))
    else
      var before := Rehashed(host, rows[i - 1]);
      if before.Threw? then Threw else Done(Some(before.value))
  }

  /** Row `s` of the range carries `actual` and should carry `expected`. */
  ghost predicate Unlinked(host: Host, rows: seq<Row>, lo: int, hi: int, s: int, expected: Option<Text>, actual: Option<Text>) {
    && expected != actual
    && exists i: nat :: RowInRange(rows, i, lo, hi) && rows[i].sequence == s && rows[i].prevHash == actual
                        && Carried(host, rows, lo, i) == Done(expected)
  }

  /** The root over the rows since the checkpoint before is the one stored. */
  ghost predicate RootMatches(host: Host, t: Table, k: nat)
    requires k < |t.checkpoints|
  {
    var hashes := RehashedAll(host, Between(t.rows, PriorTo(t.checkpoints, k) + 1, t.checkpoints[k].atSequence));
    hashes.Done? && Root(host.hash, hashes.value) == t.checkpoints[k].merkleRoot
  }

  predicate Signed(host: Host, cp: Checkpoint) {
    host.check(HexBytes(cp.merkleRoot), cp.signature)
  }

  ghost predicate CheckpointInRange(t: Table, k: nat, lo: int, hi: int, s: int, id: Text) {
    k < |t.checkpoints| && t.checkpoints[k].atSequence == s && t.checkpoints[k].id == id && lo <= s <= hi
  }

  /** What an anomaly says is so. */
  ghost predicate IsSo(host: Host, t: Table, lo: int, hi: int, withKey: bool, a: Anomaly) {
    match a
    case HashMismatch(s) => Altered(host, t.rows, lo, hi, s)
    case MissingEntry(s) => Absent(t.rows, lo, hi, s)
    case ChainBreak(s, expected, actual) => Unlinked(host, t.rows, lo, hi, s, expected, actual)
    case MerkleMismatch(s, id) => exists k: nat :: CheckpointInRange(t, k, lo, hi, s, id) && !RootMatches(host, t, k)
    case SignatureInvalid(s, id) =>
      withKey && exists k: nat :: CheckpointInRange(t, k, lo, hi, s, id) && !Signed(host, t.checkpoints[k])
  }

  // ------------------------------------------------------------------ the first loop

  /** The number row k of the range should have: the first of the range, or one more than the row before it there. */
  function Due(rows: seq<Row>, lo: int, k: nat): int
    requires k < |rows|
  {
    if k == 0 || rows[k - 1].sequence < lo then lo else rows[k - 1].sequence + 1
  }

  /** What is wrong with a row, given what is expected in its place. */
  ghost predicate Wrong(row: Row, rehashed: Text, expected: int, prev: Option<Text>, a: Anomaly) {
    match a
    case HashMismatch(s) => s == row.sequence && rehashed != row.entryHash
    case MissingEntry(s) => s == expected && row.sequence != expected
    case ChainBreak(s, e, actual) => s == row.sequence && e == prev && actual == row.prevHash && actual != e
    case _ => false
  }

  lemma {:induction false} RowReports(row: Row, rehashed: Text, expected: int, prev: Option<Text>, a: Anomaly)
    ensures a in RowAnomalies(row, rehashed, expected, prev) <==> Wrong(row, rehashed, expected, prev, a)
  {}

  ghost predicate WrongAt(host: Host, rows: seq<Row>, lo: int, k: nat, a: Anomaly) {
    && k < |rows| && Rehashed(host, rows[k]).Done? && Carried(host, rows, lo, k).Done?
    && Wrong(rows[k], Rehashed(host, rows[k]).value, Due(rows, lo, k), Carried(host, rows, lo, k).value, a)
  }

  /** At which rows anomaly `a` is found. */
  ghost function Found(host: Host, rows: seq<Row>, lo: int, a: Anomaly): (flags: seq<bool>)
    ensures |flags| == |rows|
    ensures forall k {:trigger flags[k]} {:trigger WrongAt(host, rows, lo, k, a)} | 0 <= k < |rows| :: flags[k] == WrongAt(host, rows, lo, k, a)
  {
    seq(|rows|, k requires 0 <= k < |rows| => WrongAt(host, rows, lo, k, a))
  }

  predicate AnyTrue(flags: seq<bool>, k: nat, q: nat)
    requires q <= |flags|
    decreases q - k
  {
    k < q && (flags[k] || AnyTrue(flags, k + 1, q))
  }

  lemma {:induction false} AnyTrueEach(flags: seq<bool>, k: nat, q: nat)
    requires q <= |flags|
    ensures AnyTrue(flags, k, q) <==> exists j :: k <= j < q && flags[j]
    decreases q - k
  {
    if k < q { AnyTrueEach(flags, k + 1, q); }
  }

  /** The first step of the walk over rows[i..q]. */
  lemma {:induction false} WalkFirst(host: Host, rows: seq<Row>, i: nat, q: nat, expected: int, prev: Option<Text>)
    requires i < q <= |rows| && WalkRows(host, rows[i..q], expected, prev).Done?
    ensures Rehashed(host, rows[i]).Done?
    ensures var h := Rehashed(host, rows[i]).value;
            var rest := WalkRows(host, rows[i + 1..q], rows[i].sequence + 1, Some(h));
            rest.Done? && WalkRows(host, rows[i..q], expected, prev).value == RowAnomalies(rows[i], h, expected, prev) + rest.value
  {
    var here := rows[i..q];
    assert here[0] == rows[i] && here[1..] == rows[i + 1..q];
    WalkStep(host, here, expected, prev);
  }

  lemma {:induction false} WalkStep(host: Host, rows: seq<Row>, expected: int, prev: Option<Text>)
    requires rows != [] && WalkRows(host, rows, expected, prev).Done?
    ensures Rehashed(host, rows[0]).Done?
    ensures var h := Rehashed(host, rows[0]).value;
            var rest := WalkRows(host, rows[1..], rows[0].sequence + 1, Some(h));
            rest.Done? && WalkRows(host, rows, expected, prev).value == RowAnomalies(rows[0], h, expected, prev) + rest.value
  {}

  /** The walk over rows[k..q], begun in front of it, reports what is wrong with one of them. */
  lemma {:induction false} WalkReports(host: Host, rows: seq<Row>, lo: int, k: nat, q: nat, expected: int, prev: Option<Text>, a: Anomaly)
    requires k <= q <= |rows| && WalkRows(host, rows[k..q], expected, prev).Done?
    requires forall j | k <= j < q :: lo <= rows[j].sequence
    requires k < q ==> expected == Due(rows, lo, k) && Carried(host, rows, lo, k) == Done(prev)
    ensures a in WalkRows(host, rows[k..q], expected, prev).value <==> AnyTrue(Found(host, rows, lo, a), k, q)
    decreases q - k
  {
    if k < q {
      WalkFirst(host, rows, k, q, expected, prev);
      RowReports(rows[k], Rehashed(host, rows[k]).value, expected, prev, a);
      WalkReports(host, rows, lo, k + 1, q, rows[k].sequence + 1, Some(Rehashed(host, rows[k]).value), a);
    }
  }

  lemma {:induction false} AllRehash(host: Host, rows: seq<Row>, i: nat, q: nat, expected: int, prev: Option<Text>, k: nat)
    requires i <= k < q <= |rows| && WalkRows(host, rows[i..q], expected, prev).Done?
    ensures Rehashed(host, rows[k]).Done?
    decreases q - i
  {
    WalkFirst(host, rows, i, q, expected, prev);
    if i < k { AllRehash(host, rows, i + 1, q, rows[i].sequence + 1, Some(Rehashed(host, rows[i]).value), k); }
  }

  // ---------------------------------------------------- said of the range as a whole

  /** Rows p to q are those of the range, and all of them parse. */
  ghost predicate Spans(host: Host, rows: seq<Row>, p: nat, q: nat, lo: int, hi: int) {
    && Increasing(rows) && p <= q <= |rows|
    && (forall i {:trigger rows[i]} | 0 <= i < |rows| :: p <= i < q <==> lo <= rows[i].sequence <= hi)
    && forall k {:trigger rows[k]} | p <= k < q :: Rehashed(host, rows[k]).Done?
  }

  lemma {:induction false} AlteredIffWrong(host: Host, rows: seq<Row>, p: nat, q: nat, lo: int, hi: int, s: int)
    requires Spans(host, rows, p, q, lo, hi)
    ensures Altered(host, rows, lo, hi, s) <==> exists j :: p <= j < q && WrongAt(host, rows, lo, j, HashMismatch(s))
  {
    forall j | p <= j < q
      ensures WrongAt(host, rows, lo, j, HashMismatch(s))
         <==> rows[j].sequence == s && Rehashed(host, rows[j]) != Done(rows[j].entryHash)
    {
      CarriedInRange(host, rows, p, q, lo, hi, j);
    }
    if i: nat :| RowInRange(rows, i, lo, hi) && rows[i].sequence == s && Rehashed(host, rows[i]) != Done(rows[i].entryHash) {
      assert WrongAt(host, rows, lo, i, HashMismatch(s));
    }
    if j :| p <= j < q && WrongAt(host, rows, lo, j, HashMismatch(s)) {
      assert RowInRange(rows, j, lo, hi);
    }
  }

  lemma {:induction false} CarriedInRange(host: Host, rows: seq<Row>, p: nat, q: nat, lo: int, hi: int, j: nat)
    requires Spans(host, rows, p, q, lo, hi) && p <= j < q
    ensures Carried(host, rows, lo, j).Done?
  {
    if j > 0 && lo <= rows[j - 1].sequence { assert rows[j - 1].sequence < rows[j].sequence; }
  }

  lemma {:induction false} UnlinkedIffWrong(
      host: Host, rows: seq<Row>, p: nat, q: nat, lo: int, hi: int, s: int, expected: Option<Text>, actual: Option<Text>)
    requires Spans(host, rows, p, q, lo, hi)
    ensures Unlinked(host, rows, lo, hi, s, expected, actual)
       <==> exists j :: p <= j < q && WrongAt(host, rows, lo, j, ChainBreak(s, expected, actual))
  {
    var a := ChainBreak(s, expected, actual);
    if j :| p <= j < q && WrongAt(host, rows, lo, j, a) {
      assert RowInRange(rows, j, lo, hi);
    }
    if expected != actual {
      if i: nat :| RowInRange(rows, i, lo, hi) && rows[i].sequence == s && rows[i].prevHash == actual
                   && Carried(host, rows, lo, i) == Done(expected) {
        assert WrongAt(host, rows, lo, i, a);
      }
    }
  }

  lemma {:induction false} AbsentIffWrong(host: Host, rows: seq<Row>, p: nat, q: nat, lo: int, hi: int, s: int)
    requires Spans(host, rows, p, q, lo, hi)
    ensures Absent(rows, lo, hi, s) <==> exists j :: p <= j < q && WrongAt(host, rows, lo, j, MissingEntry(s))
  {
    if j :| p <= j < q && WrongAt(host, rows, lo, j, MissingEntry(s)) { WrongIsAbsent(host, rows, p, q, lo, hi, s, j); }
    if Absent(rows, lo, hi, s) { var j := AbsentIsWrong(host, rows, p, q, lo, hi, s); }
  }

  lemma {:induction false} WrongIsAbsent(host: Host, rows: seq<Row>, p: nat, q: nat, lo: int, hi: int, s: int, j: nat)
    requires Spans(host, rows, p, q, lo, hi) && p <= j < q && WrongAt(host, rows, lo, j, MissingEntry(s))
    ensures Absent(rows, lo, hi, s)
  {
    DueBelow(rows, lo, j);
    assert RowInRange(rows, j, lo, hi);
    NoneBetween(rows, s, j);
  }

  /** The number due at a row in order is at most its own, and is past the row before. */
  lemma {:induction false} DueBelow(rows: seq<Row>, lo: int, j: nat)
    requires Increasing(rows) && j < |rows| && lo <= rows[j].sequence
    ensures lo <= Due(rows, lo, j) <= rows[j].sequence && (j > 0 ==> rows[j - 1].sequence < Due(rows, lo, j))
    ensures Due(rows, lo, j) == lo || Present(rows, Due(rows, lo, j) - 1)
  {}

  lemma {:induction false} NoneBetween(rows: seq<Row>, s: int, j: nat)
    requires Increasing(rows) && j < |rows| && s < rows[j].sequence && (j > 0 ==> rows[j - 1].sequence < s)
    ensures !Present(rows, s)
  {
    forall i | 0 <= i < |rows| ensures rows[i].sequence != s {
      if j > 0 && i < j { assert rows[i].sequence <= rows[j - 1].sequence; }
    }
  }

  /** The first row after an absent number is where the walk misses it. */
  lemma {:induction false} AbsentIsWrong(host: Host, rows: seq<Row>, p: nat, q: nat, lo: int, hi: int, s: int) returns (j: nat)
    requires Spans(host, rows, p, q, lo, hi) && Absent(rows, lo, hi, s)
    ensures p <= j < q && WrongAt(host, rows, lo, j, MissingEntry(s))
  {
    var i: nat :| RowInRange(rows, i, lo, hi) && s < rows[i].sequence;
    j := FirstAfter(rows, s, i);
    CarriedInRange(host, rows, p, q, lo, hi, j);
    if s > lo { NextAfter(rows, s, j); }
  }

  lemma {:induction false} FirstAfter(rows: seq<Row>, s: int, i: nat) returns (j: nat)
    requires Increasing(rows) && i < |rows| && s < rows[i].sequence
    ensures j <= i && s < rows[j].sequence <= rows[i].sequence && (j > 0 ==> rows[j - 1].sequence <= s)
  {
    if i > 0 && s < rows[i - 1].sequence { j := FirstAfter(rows, s, i - 1); } else { j := i; }
  }

  lemma {:induction false} NextAfter(rows: seq<Row>, s: int, j: nat)
    requires Increasing(rows) && j < |rows| && s < rows[j].sequence && (j > 0 ==> rows[j - 1].sequence <= s)
    requires !Present(rows, s) && Present(rows, s - 1)
    ensures j > 0 && rows[j - 1].sequence == s - 1
  {
    var m :| 0 <= m < |rows| && rows[m].sequence == s - 1;
    assert m < j;
    var before := j - 1;
    assert rows[before].sequence != s;
  }

  // ------------------------------------------------------------------ the second loop

  /** What the result lists for checkpoint k. */
  ghost function EntryOf(host: Host, t: Table, k: nat, withKey: bool): CheckedCheckpoint
    requires k < |t.checkpoints|
  {
    var cp := t.checkpoints[k];
    CheckedCheckpoint(cp.id, cp.atSequence, cp.merkleRoot, cp.signature,
                      if withKey then Some(RootMatches(host, t, k) && Signed(host, cp)) else None)
  }

  /** What is so of each of cps[k..q]. */
  ghost function FindingsOf(host: Host, t: Table, k: nat, q: nat): (fs: seq<Finding>)
    requires k <= q <= |t.checkpoints|
    ensures |fs| == q - k
    ensures forall i {:trigger fs[i]} | 0 <= i < q - k :: fs[i] == Finding(RootMatches(host, t, k + i), Signed(host, t.checkpoints[k + i]))
  {
    seq(q - k, i requires 0 <= i < q - k => Finding(RootMatches(host, t, k + i), Signed(host, t.checkpoints[k + i])))
  }

  lemma {:induction false} FindingsEach(host: Host, t: Table, k: nat, q: nat)
    requires k <= q <= |t.checkpoints| && Findings(host, t.rows, t.checkpoints[k..q], PriorTo(t.checkpoints, k)).Done?
    ensures Findings(host, t.rows, t.checkpoints[k..q], PriorTo(t.checkpoints, k)).value == FindingsOf(host, t, k, q)
    decreases q - k
  {
    if k < q {
      FirstFindingIs(host, t, k, q);
      FindingsEach(host, t, k + 1, q);
      FindingsOfFirst(host, t, k, q);
    }
  }

  lemma {:induction false} FindingsOfFirst(host: Host, t: Table, k: nat, q: nat)
    requires k < q <= |t.checkpoints|
    ensures FindingsOf(host, t, k, q) == [Finding(RootMatches(host, t, k), Signed(host, t.checkpoints[k]))] + FindingsOf(host, t, k + 1, q)
  {
    var all, rest := FindingsOf(host, t, k, q), FindingsOf(host, t, k + 1, q);
    forall i | 0 <= i < q - k - 1 ensures all[i + 1] == rest[i] {
      var m := k + 1 + i;
      assert m == k + (i + 1);
    }
  }

  lemma {:induction false} FindingsFirst(host: Host, rows: seq<Row>, cps: seq<Checkpoint>, prior: int)
    requires cps != [] && Findings(host, rows, cps, prior).Done?
    ensures var f, rest := Examined(host, rows, prior, cps[0]), Findings(host, rows, cps[1..], cps[0].atSequence);
            f.Done? && rest.Done? && Findings(host, rows, cps, prior).value == [f.value] + rest.value
  {}

  lemma {:induction false} ExaminedIs(host: Host, t: Table, k: nat)
    requires k < |t.checkpoints| && Examined(host, t.rows, PriorTo(t.checkpoints, k), t.checkpoints[k]).Done?
    ensures Examined(host, t.rows, PriorTo(t.checkpoints, k), t.checkpoints[k]).value
         == Finding(RootMatches(host, t, k), Signed(host, t.checkpoints[k]))
  {}

  lemma {:induction false} FirstFindingIs(host: Host, t: Table, k: nat, q: nat)
    requires k < q <= |t.checkpoints| && Findings(host, t.rows, t.checkpoints[k..q], PriorTo(t.checkpoints, k)).Done?
    ensures var rest := Findings(host, t.rows, t.checkpoints[k + 1..q], PriorTo(t.checkpoints, k + 1));
            && rest.Done?
            && Findings(host, t.rows, t.checkpoints[k..q], PriorTo(t.checkpoints, k)).value
               == [Finding(RootMatches(host, t, k), Signed(host, t.checkpoints[k]))] + rest.value
  {
    var here := t.checkpoints[k..q];
    assert here[0] == t.checkpoints[k] && here[1..] == t.checkpoints[k + 1..q];
    FindingsFirst(host, t.rows, here, PriorTo(t.checkpoints, k));
    ExaminedIs(host, t, k);
  }

  lemma {:induction false} EntriesEach(cps: seq<Checkpoint>, fs: seq<Finding>, withKey: bool)
    requires |cps| == |fs|
    ensures |CheckedEntries(cps, fs, withKey)| == |cps|
    ensures forall i | 0 <= i < |cps| :: CheckedEntries(cps, fs, withKey)[i] == CheckedEntry(cps[i], fs[i], withKey)
    decreases |cps|
  {
    if cps != [] { EntriesEach(cps[..|cps| - 1], fs[..|fs| - 1], withKey); }
  }

  lemma {:induction false} FindingReports(cp: Checkpoint, f: Finding, withKey: bool, a: Anomaly)
    ensures a in FindingAnomalies(cp, f, withKey)
       <==> (a == MerkleMismatch(cp.atSequence, cp.id) && !f.merkleOk)
            || (a == SignatureInvalid(cp.atSequence, cp.id) && withKey && !f.signatureOk)
  {}

  /** What is wrong with one checkpoint. */
  ghost predicate WrongAnchor(host: Host, t: Table, k: nat, withKey: bool, a: Anomaly) {
    k < |t.checkpoints| &&
      match a
      case MerkleMismatch(s, id) => s == t.checkpoints[k].atSequence && id == t.checkpoints[k].id && !RootMatches(host, t, k)
      case SignatureInvalid(s, id) =>
        withKey && s == t.checkpoints[k].atSequence && id == t.checkpoints[k].id && !Signed(host, t.checkpoints[k])
      case _ => false
  }

  lemma {:induction false} AnchorReports(cp: Checkpoint, host: Host, t: Table, k: nat, withKey: bool, a: Anomaly)
    requires k < |t.checkpoints| && cp == t.checkpoints[k]
    ensures a in FindingAnomalies(cp, Finding(RootMatches(host, t, k), Signed(host, cp)), withKey) <==> WrongAnchor(host, t, k, withKey, a)
  {
    FindingReports(cp, Finding(RootMatches(host, t, k), Signed(host, cp)), withKey, a);
  }

  /** The anomalies of each checkpoint. */
  function PerAnchor(cps: seq<Checkpoint>, fs: seq<Finding>, withKey: bool): (lists: seq<seq<Anomaly>>)
    requires |cps| == |fs|
    ensures |lists| == |cps|
    ensures forall i {:trigger lists[i]} | 0 <= i < |cps| :: lists[i] == FindingAnomalies(cps[i], fs[i], withKey)
  {
    seq(|cps|, i requires 0 <= i < |cps| => FindingAnomalies(cps[i], fs[i], withKey))
  }

  function Flat(lists: seq<seq<Anomaly>>): seq<Anomaly> {
    if lists == [] then [] else Flat(lists[..|lists| - 1]) + lists[|lists| - 1]
  }

  lemma {:induction false} FlatMember(lists: seq<seq<Anomaly>>, a: Anomaly)
    ensures a in Flat(lists) <==> exists i :: 0 <= i < |lists| && a in lists[i]
    decreases |lists|
  {
    if lists != [] {
      var front := lists[..|lists| - 1];
      FlatMember(front, a);
      if i :| 0 <= i < |front| && a in front[i] { assert a in lists[i]; }
      if i :| 0 <= i < |front| && a in lists[i] { assert a in front[i]; }
    }
  }

  lemma {:induction false} AnchorsAreFlat(cps: seq<Checkpoint>, fs: seq<Finding>, withKey: bool)
    requires |cps| == |fs|
    ensures AnchorAnomalies(cps, fs, withKey) == Flat(PerAnchor(cps, fs, withKey))
    decreases |cps|
  {
    if cps != [] {
      var n := |cps| - 1;
      AnchorsAreFlat(cps[..n], fs[..n], withKey);
      assert PerAnchor(cps, fs, withKey)[..n] == PerAnchor(cps[..n], fs[..n], withKey);
    }
  }

  /** The checkpoint anomalies of a range are those that are so. */
  lemma {:induction false} AnchorsAreSo(host: Host, t: Table, p: nat, q: nat, lo: int, hi: int, withKey: bool, a: Anomaly)
    requires p <= q <= |t.checkpoints| && forall i | 0 <= i < |t.checkpoints| :: p <= i < q <==> lo <= t.checkpoints[i].atSequence <= hi
    ensures a in AnchorAnomalies(t.checkpoints[p..q], FindingsOf(host, t, p, q), withKey)
       <==> (a.MerkleMismatch? || a.SignatureInvalid?) && IsSo(host, t, lo, hi, withKey, a)
  {
    var lists := PerAnchor(t.checkpoints[p..q], FindingsOf(host, t, p, q), withKey);
    AnchorsAreFlat(t.checkpoints[p..q], FindingsOf(host, t, p, q), withKey);
    FlatMember(lists, a);
    if i :| 0 <= i < |lists| && a in lists[i] { ListedIsSo(host, t, p, q, lo, hi, withKey, a, i, p + i, lists); }
    if (a.MerkleMismatch? || a.SignatureInvalid?) && IsSo(host, t, lo, hi, withKey, a) {
      var k := SoAt(host, t, p, q, lo, hi, withKey, a);
      ListedIs(host, t, p, q, withKey, a, k - p, k, lists);
    }
  }

  lemma {:induction false} ListedIsSo(
      host: Host, t: Table, p: nat, q: nat, lo: int, hi: int, withKey: bool, a: Anomaly, i: nat, k: nat, lists: seq<seq<Anomaly>>)
    requires p <= k < q <= |t.checkpoints| && k == p + i && lo <= t.checkpoints[k].atSequence <= hi
    requires lists == PerAnchor(t.checkpoints[p..q], FindingsOf(host, t, p, q), withKey) && a in lists[i]
    ensures (a.MerkleMismatch? || a.SignatureInvalid?) && IsSo(host, t, lo, hi, withKey, a)
  {
    ListedIs(host, t, p, q, withKey, a, i, k, lists);
    assert CheckpointInRange(t, k, lo, hi, a.atSeq, a.checkpoint);
  }

  lemma {:induction false} ListedIs(
      host: Host, t: Table, p: nat, q: nat, withKey: bool, a: Anomaly, i: nat, k: nat, lists: seq<seq<Anomaly>>)
    requires p <= k < q <= |t.checkpoints| && k == p + i
    requires lists == PerAnchor(t.checkpoints[p..q], FindingsOf(host, t, p, q), withKey)
    ensures a in lists[i] <==> WrongAnchor(host, t, k, withKey, a)
  {
    AnchorReports(t.checkpoints[k], host, t, k, withKey, a);
  }

  lemma {:induction false} SoAt(host: Host, t: Table, p: nat, q: nat, lo: int, hi: int, withKey: bool, a: Anomaly) returns (k: nat)
    requires p <= q <= |t.checkpoints| && forall i | 0 <= i < |t.checkpoints| :: p <= i < q <==> lo <= t.checkpoints[i].atSequence <= hi
    requires (a.MerkleMismatch? || a.SignatureInvalid?) && IsSo(host, t, lo, hi, withKey, a)
    ensures p <= k < q && WrongAnchor(host, t, k, withKey, a)
  {
    if a.MerkleMismatch? {
      k :| CheckpointInRange(t, k, lo, hi, a.atSeq, a.checkpoint) && !RootMatches(host, t, k);
    } else {
      k :| CheckpointInRange(t, k, lo, hi, a.atSeq, a.checkpoint) && !Signed(host, t.checkpoints[k]);
    }
  }

  /** The row anomalies of a range are those that are so. */
  lemma {:induction false} RowsAreSo(host: Host, t: Table, lo: int, hi: int, withKey: bool, a: Anomaly)
    requires InOrder(t) && WalkRows(host, Between(t.rows, lo, hi), lo, SeedHash(t.rows, lo)).Done?
    ensures a in WalkRows(host, Between(t.rows, lo, hi), lo, SeedHash(t.rows, lo)).value
       <==> !a.MerkleMismatch? && !a.SignatureInvalid? && IsSo(host, t, lo, hi, withKey, a)
  {
    var p, q := BetweenIsSlice(t.rows, lo, hi);
    forall k | p <= k < q ensures Rehashed(host, t.rows[k]).Done? {
      AllRehash(host, t.rows, p, q, lo, SeedHash(t.rows, lo), k);
    }
    WalkReports(host, t.rows, lo, p, q, lo, SeedHash(t.rows, lo), a);
    AnyTrueEach(Found(host, t.rows, lo, a), p, q);
    assert Spans(host, t.rows, p, q, lo, hi);
    FoundIsSo(host, t, p, q, lo, hi, withKey, a);
  }

  lemma {:induction false} FoundIsSo(host: Host, t: Table, p: nat, q: nat, lo: int, hi: int, withKey: bool, a: Anomaly)
    requires Spans(host, t.rows, p, q, lo, hi)
    ensures (exists j :: p <= j < q && WrongAt(host, t.rows, lo, j, a))
       <==> !a.MerkleMismatch? && !a.SignatureInvalid? && IsSo(host, t, lo, hi, withKey, a)
  {
    match a {
      case HashMismatch(s) => AlteredIffWrong(host, t.rows, p, q, lo, hi, s);
      case MissingEntry(s) => AbsentIffWrong(host, t.rows, p, q, lo, hi, s);
      case ChainBreak(s, e, actual) => UnlinkedIffWrong(host, t.rows, p, q, lo, hi, s, e, actual);
      case _ =>
    }
  }

  // ------------------------------------------------------------------ the main theorems

  /** Of any ordered table and any range that answers: exactly the anomalies that are so are listed. */
  lemma {:induction false} AnomaliesAreSo(host: Host, t: Table, fromSeq: int, toSeq: int, withKey: bool, a: Anomaly)
    requires InOrder(t) && Verify(host, t, fromSeq, toSeq, withKey).Done?
    ensures a in Verify(host, t, fromSeq, toSeq, withKey).value.anomalies
       <==> IsSo(host, t, Max(1, fromSeq), Min(toSeq, Tip(t.rows)), withKey, a)
  {
    var lo, hi := Max(1, fromSeq), Min(toSeq, Tip(t.rows));
    if lo <= hi {
      var p, q := RangeFindings(host, t, fromSeq, toSeq, withKey);
      RowsAreSo(host, t, lo, hi, withKey, a);
      AnchorsAreSo(host, t, p, q, lo, hi, withKey, a);
    }
  }

  /** The second loop examines the checkpoints of the range, each against the one before it in the table. */
  lemma {:induction false} RangeFindings(host: Host, t: Table, fromSeq: int, toSeq: int, withKey: bool) returns (p: nat, q: nat)
    requires InOrder(t) && Verify(host, t, fromSeq, toSeq, withKey).Done? && Max(1, fromSeq) <= Min(toSeq, Tip(t.rows))
    ensures p <= q <= |t.checkpoints|
    ensures forall i | 0 <= i < |t.checkpoints| :: p <= i < q <==> Max(1, fromSeq) <= t.checkpoints[i].atSequence <= Min(toSeq, Tip(t.rows))
    ensures var lo, hi := Max(1, fromSeq), Min(toSeq, Tip(t.rows));
            var r := Verify(host, t, fromSeq, toSeq, withKey).value;
            var chain := WalkRows(host, Between(t.rows, lo, hi), lo, SeedHash(t.rows, lo));
            && chain.Done?
            && r.anomalies == chain.value + AnchorAnomalies(t.checkpoints[p..q], FindingsOf(host, t, p, q), withKey)
            && r.checkpoints == CheckedEntries(t.checkpoints[p..q], FindingsOf(host, t, p, q), withKey)
  {
    var lo, hi := Max(1, fromSeq), Min(toSeq, Tip(t.rows));
    p, q := CheckpointsAreSlice(t.checkpoints, lo, hi);
    if p < q {
      assert t.checkpoints[p..q][0] == t.checkpoints[p];
      PriorSequenceIsPriorTo(t.checkpoints, p);
    } else {
      assert t.checkpoints[p..q] == [];
    }
    FindingsEach(host, t, p, q);
  }

  /** What the result lists for checkpoints p to q. */
  ghost function EntriesOf(host: Host, t: Table, p: nat, q: nat, withKey: bool): (entries: seq<CheckedCheckpoint>)
    requires p <= q <= |t.checkpoints|
    ensures |entries| == q - p && forall i {:trigger entries[i]} | 0 <= i < q - p :: entries[i] == EntryOf(host, t, p + i, withKey)
  {
    seq(q - p, i requires 0 <= i < q - p => EntryOf(host, t, p + i, withKey))
  }

  /** and exactly the checkpoints of the range are listed, in order, each with what is so of it. */
  lemma {:induction false} CheckpointsListed(host: Host, t: Table, fromSeq: int, toSeq: int, withKey: bool) returns (p: nat, q: nat)
    requires InOrder(t) && Verify(host, t, fromSeq, toSeq, withKey).Done?
    ensures p <= q <= |t.checkpoints|
    ensures forall i | 0 <= i < |t.checkpoints| :: p <= i < q <==> Max(1, fromSeq) <= t.checkpoints[i].atSequence <= Min(toSeq, Tip(t.rows))
    ensures Verify(host, t, fromSeq, toSeq, withKey).value.checkpoints == EntriesOf(host, t, p, q, withKey)
  {
    if Max(1, fromSeq) <= Min(toSeq, Tip(t.rows)) {
      p, q := RangeFindings(host, t, fromSeq, toSeq, withKey);
      EntriesOfRange(host, t, p, q, withKey);
    } else {
      p, q := 0, 0;
      EmptyRange(host, t, fromSeq, toSeq, withKey);
    }
  }

  lemma {:induction false} EmptyRange(host: Host, t: Table, fromSeq: int, toSeq: int, withKey: bool)
    requires Min(toSeq, Tip(t.rows)) < Max(1, fromSeq)
    ensures var r := Verify(host, t, fromSeq, toSeq, withKey); r.Done? && r.value.anomalies == [] && r.value.checkpoints == []
  {}

  lemma {:induction false} EntriesOfRange(host: Host, t: Table, p: nat, q: nat, withKey: bool)
    requires p <= q <= |t.checkpoints|
    ensures CheckedEntries(t.checkpoints[p..q], FindingsOf(host, t, p, q), withKey) == EntriesOf(host, t, p, q, withKey)
  {
    var cps, fs := t.checkpoints[p..q], FindingsOf(host, t, p, q);
    EntriesEach(cps, fs, withKey);
    forall i | 0 <= i < q - p ensures CheckedEntries(cps, fs, withKey)[i] == EntriesOf(host, t, p, q, withKey)[i] {
      EntryIs(host, t, p, q, withKey, i, p + i);
    }
  }

  lemma {:induction false} EntryIs(host: Host, t: Table, p: nat, q: nat, withKey: bool, i: nat, k: nat)
    requires p <= k < q <= |t.checkpoints| && k == p + i
    ensures CheckedEntry(t.checkpoints[p..q][i], FindingsOf(host, t, p, q)[i], withKey) == EntryOf(host, t, k, withKey)
  {}

  // ------------------------------------------------------------------ their order

  /** Rows before checkpoints, each by rising number. */
  ghost predicate Before(a: Anomaly, b: Anomaly) {
    var ca, cb := a.MerkleMismatch? || a.SignatureInvalid?, b.MerkleMismatch? || b.SignatureInvalid?;
    if ca == cb then a.atSeq <= b.atSeq else cb
  }

  ghost predicate Ordered(found: seq<Anomaly>) {
    forall i, j | 0 <= i < j < |found| :: Before(found[i], found[j])
  }

  ghost predicate OfRows(found: seq<Anomaly>, least: int, most: int) {
    forall i | 0 <= i < |found| :: !found[i].MerkleMismatch? && !found[i].SignatureInvalid? && least <= found[i].atSeq <= most
  }

  ghost predicate OfCheckpoints(found: seq<Anomaly>, most: int) {
    forall i | 0 <= i < |found| :: (found[i].MerkleMismatch? || found[i].SignatureInvalid?) && found[i].atSeq <= most
  }

  lemma {:induction false} OrderedConcat(a: seq<Anomaly>, b: seq<Anomaly>)
    requires Ordered(a) && Ordered(b) && forall i, j | 0 <= i < |a| && 0 <= j < |b| :: Before(a[i], b[j])
    ensures Ordered(a + b)
  {
    var all := a + b;
    forall i, j | 0 <= i < j < |all| ensures Before(all[i], all[j]) {
      var x, y := all[i], all[j];
    }
  }

  lemma {:induction false} RowInOrder(row: Row, rehashed: Text, expected: int, prev: Option<Text>)
    requires expected <= row.sequence
    ensures Ordered(RowAnomalies(row, rehashed, expected, prev))
    ensures OfRows(RowAnomalies(row, rehashed, expected, prev), expected, row.sequence)
  {}

  lemma {:induction false} WalkInOrder(host: Host, rows: seq<Row>, k: nat, q: nat, expected: int, prev: Option<Text>, most: int)
    requires Increasing(rows) && k <= q <= |rows| && WalkRows(host, rows[k..q], expected, prev).Done?
    requires (k < q ==> expected <= rows[k].sequence) && forall j | k <= j < q :: rows[j].sequence <= most
    ensures var found := WalkRows(host, rows[k..q], expected, prev).value; Ordered(found) && OfRows(found, expected, most)
    decreases q - k
  {
    if k < q {
      WalkFirst(host, rows, k, q, expected, prev);
      var rehashed := Rehashed(host, rows[k]).value;
      WalkInOrder(host, rows, k + 1, q, rows[k].sequence + 1, Some(rehashed), most);
      RowInOrder(rows[k], rehashed, expected, prev);
      OrderedRows(RowAnomalies(rows[k], rehashed, expected, prev),
                  WalkRows(host, rows[k + 1..q], rows[k].sequence + 1, Some(rehashed)).value, expected, rows[k].sequence, most);
    }
  }

  lemma {:induction false} OrderedRows(a: seq<Anomaly>, b: seq<Anomaly>, least: int, middle: int, most: int)
    requires Ordered(a) && OfRows(a, least, middle) && Ordered(b) && OfRows(b, middle + 1, most) && least <= middle <= most
    ensures Ordered(a + b) && OfRows(a + b, least, most)
  {
    OrderedConcat(a, b);
  }

  lemma {:induction false} AnchorsInOrder(cps: seq<Checkpoint>, fs: seq<Finding>, withKey: bool)
    requires |cps| == |fs| && NonDecreasing(cps)
    ensures Ordered(AnchorAnomalies(cps, fs, withKey))
    ensures cps != [] ==> OfCheckpoints(AnchorAnomalies(cps, fs, withKey), cps[|cps| - 1].atSequence)
    decreases |cps|
  {
    if cps != [] {
      var n := |cps| - 1;
      AnchorsInOrder(cps[..n], fs[..n], withKey);
      FindingInOrder(cps[n], fs[n], withKey);
      OrderedConcat(AnchorAnomalies(cps[..n], fs[..n], withKey), FindingAnomalies(cps[n], fs[n], withKey));
    }
  }

  lemma {:induction false} FindingInOrder(cp: Checkpoint, f: Finding, withKey: bool)
    ensures var found := FindingAnomalies(cp, f, withKey);
            Ordered(found) && OfCheckpoints(found, cp.atSequence) && forall i | 0 <= i < |found| :: found[i].atSeq == cp.atSequence
  {}

  /** The answer lists the anomalies of rows by rising number, then those of checkpoints by rising number. */
  lemma {:induction false} AnomaliesInOrder(host: Host, t: Table, fromSeq: int, toSeq: int, withKey: bool)
    requires InOrder(t) && Verify(host, t, fromSeq, toSeq, withKey).Done?
    ensures Ordered(Verify(host, t, fromSeq, toSeq, withKey).value.anomalies)
  {
    var lo, hi := Max(1, fromSeq), Min(toSeq, Tip(t.rows));
    if lo <= hi {
      var p, q := RangeFindings(host, t, fromSeq, toSeq, withKey);
      RangeInOrder(host, t, lo, hi);
      AnchorsInOrder(t.checkpoints[p..q], FindingsOf(host, t, p, q), withKey);
      if p == q { assert t.checkpoints[p..q] == []; }
      OrderedConcat(WalkRows(host, Between(t.rows, lo, hi), lo, SeedHash(t.rows, lo)).value,
                    AnchorAnomalies(t.checkpoints[p..q], FindingsOf(host, t, p, q), withKey));
    } else {
      EmptyRange(host, t, fromSeq, toSeq, withKey);
    }
  }

  lemma {:induction false} RangeInOrder(host: Host, t: Table, lo: int, hi: int)
    requires InOrder(t) && WalkRows(host, Between(t.rows, lo, hi), lo, SeedHash(t.rows, lo)).Done?
    ensures var found := WalkRows(host, Between(t.rows, lo, hi), lo, SeedHash(t.rows, lo)).value; Ordered(found) && OfRows(found, lo, hi)
  {
    var p, q := BetweenIsSlice(t.rows, lo, hi);
    WalkInOrder(host, t.rows, p, q, lo, SeedHash(t.rows, lo), hi);
  }
}
