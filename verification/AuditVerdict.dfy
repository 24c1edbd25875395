/**
 * What a verdict of the verifier means, for any table: `chainValid` against a
 * definition that does not walk, the agreement of flag and anomaly list, and how
 * verdicts over neighbouring ranges compose.
 */
module AuditVerdict {
  import opened Wrappers
  import opened Ordering
  import opened Json
  import opened JsonText
  import opened Merkle
  import opened AuditEntry
  import opened AuditLog

  // ---------------------------------------------------------------- queries

  ghost predicate Increasing(rows: seq<Row>) {
    forall i, j | 0 <= i < j < |rows| :: rows[i].sequence < rows[j].sequence
  }

  ghost predicate NonDecreasing(cps: seq<Checkpoint>) {
    forall i, j | 0 <= i < j < |cps| :: cps[i].atSequence <= cps[j].atSequence
  }

  /** The places of a sorted list of keys that fall in [lo, hi] are consecutive. */
  lemma {:induction false} KeySlice(keys: seq<int>, lo: int, hi: int) returns (p: nat, q: nat)
    requires forall i, j | 0 <= i < j < |keys| :: keys[i] <= keys[j]
    ensures p <= q <= |keys|
    ensures forall i | 0 <= i < |keys| :: p <= i < q <==> lo <= keys[i] <= hi
    ensures p < q ==> forall i | 0 <= i < p :: keys[i] < lo
  {
    if keys == [] {
      p, q := 0, 0;
    } else {
      var n := |keys| - 1;
      p, q := KeySlice(keys[..n], lo, hi);
      assert forall i | 0 <= i < n :: keys[..n][i] == keys[i];
      if lo <= keys[n] <= hi {
        if p == q { p := n; } else { assert keys[p] <= keys[n]; }
        q := n + 1;
      }
    }
  }

  lemma {:induction false} BetweenSelects(rows: seq<Row>, lo: int, hi: int, p: nat, q: nat)
    requires p <= q <= |rows| && forall i | 0 <= i < |rows| :: p <= i < q <==> lo <= rows[i].sequence <= hi
    ensures Between(rows, lo, hi) == rows[p..q]
  {
    if rows != [] {
      var p', q' := if p == 0 then 0 else p - 1, if q == 0 then 0 else q - 1;
      forall i | 0 <= i < |rows[1..]| ensures p' <= i < q' <==> lo <= rows[1..][i].sequence <= hi {
        assert rows[1..][i] == rows[i + 1];
      }
      BetweenSelects(rows[1..], lo, hi, p', q');
      assert rows[p..q] == (if p == 0 < q then [rows[0]] else []) + rows[1..][p'..q'];
    }
  }

  lemma {:induction false} BetweenIsSlice(rows: seq<Row>, lo: int, hi: int) returns (p: nat, q: nat)
    requires Increasing(rows)
    ensures p <= q <= |rows| && Between(rows, lo, hi) == rows[p..q]
    ensures forall i | 0 <= i < |rows| :: p <= i < q <==> lo <= rows[i].sequence <= hi
    ensures p < q ==> forall i | 0 <= i < p :: rows[i].sequence < lo
  {
    var keys := seq(|rows|, i requires 0 <= i < |rows| => rows[i].sequence);
    assert forall i | 0 <= i < |rows| :: keys[i] == rows[i].sequence;
    p, q := KeySlice(keys, lo, hi);
    BetweenSelects(rows, lo, hi, p, q);
  }

  lemma {:induction false} HashAtFinds(rows: seq<Row>, at: int)
    requires Increasing(rows)
    ensures HashAt(rows, at).Some? <==> exists i :: 0 <= i < |rows| && rows[i].sequence == at
    ensures forall i | 0 <= i < |rows| && rows[i].sequence == at :: HashAt(rows, at) == Some(rows[i].entryHash)
  {
    if rows != [] && rows[0].sequence != at {
      HashAtFinds(rows[1..], at);
      forall i | 0 <= i < |rows| && rows[i].sequence == at ensures HashAt(rows, at) == Some(rows[i].entryHash) {
        assert rows[1..][i - 1] == rows[i];
      }
      if HashAt(rows, at).Some? {
        var i :| 0 <= i < |rows[1..]| && rows[1..][i].sequence == at;
        assert rows[i + 1].sequence == at;
      }
    }
  }

  // ------------------------------------------------------- the chain, unwalked

  /**
   * Row `i` is as it should be in a range that opens at `lo`: its content hashes to the
   * stored hash, it carries the stored hash of the row before it, and that row is there
   * unless the range begins here.
   */
  ghost predicate RowHolds(host: Host, rows: seq<Row>, lo: int, i: nat)
    requires i < |rows|
  {
    var s := rows[i].sequence;
    && Rehashed(host, rows[i]) == Done(rows[i].entryHash)
    && rows[i].prevHash == SeedHash(rows, s)
    && (s == lo || HashAt(rows, s - 1).Some?)
  }

  ghost predicate ChainHolds(host: Host, rows: seq<Row>, lo: int, hi: int) {
    forall i {:trigger RowHolds(host, rows, lo, i)} | 0 <= i < |rows| && lo <= rows[i].sequence <= hi ::
      RowHolds(host, rows, lo, i)
  }

  predicate AllTrue(flags: seq<bool>, i: nat, q: nat)
    requires i <= q <= |flags|
    decreases q - i
  {
    i == q || (flags[i] && AllTrue(flags, i + 1, q))
  }

  lemma {:induction false} AllTrueEach(flags: seq<bool>, i: nat, q: nat)
    requires i <= q <= |flags|
    ensures AllTrue(flags, i, q) <==> forall j | i <= j < q :: flags[j]
    decreases q - i
  {
    if i < q { AllTrueEach(flags, i + 1, q); }
  }

  /** Which rows hold, in order. */
  ghost function Holding(host: Host, rows: seq<Row>, lo: int): (flags: seq<bool>)
    ensures |flags| == |rows|
    ensures forall j {:trigger flags[j]} {:trigger RowHolds(host, rows, lo, j)} | 0 <= j < |rows| :: flags[j] == RowHolds(host, rows, lo, j)
  {
    seq(|rows|, j requires 0 <= j < |rows| => RowHolds(host, rows, lo, j))
  }

  /** Walking rows[i..q] finds nothing exactly when each of them holds. */
  lemma {:induction false} WalkFindsNothing(host: Host, rows: seq<Row>, i: nat, q: nat, lo: int, expected: int)
    requires Increasing(rows) && i <= q <= |rows| && 1 <= lo <= expected
    requires i < q ==> expected <= rows[i].sequence
    requires i > 0 ==> rows[i - 1].sequence < expected
    requires expected == lo || HashAt(rows, expected - 1).Some?
    ensures WalkRows(host, rows[i..q], expected, SeedHash(rows, expected)) == Done([])
       <==> AllTrue(Holding(host, rows, lo), i, q)
    decreases q - i
  {
    if i < q {
      HeadHolds(host, rows, i, lo, expected);
      assert rows[i..q][0] == rows[i] && rows[i..q][1..] == rows[i + 1..q];
      if RowHolds(host, rows, lo, i) {
        HashAtFinds(rows, rows[i].sequence);
        WalkFindsNothing(host, rows, i + 1, q, lo, rows[i].sequence + 1);
        SoundHeadWalks(host, rows[i..q], expected, SeedHash(rows, expected));
      } else {
        HeadAnomaliesStay(host, rows[i..q], expected, SeedHash(rows, expected));
      }
    }
  }

  lemma {:induction false} SoundHeadWalks(host: Host, rows: seq<Row>, expected: int, prev: Option<Text>)
    requires rows != [] && Rehashed(host, rows[0]).Done?
    requires RowAnomalies(rows[0], Rehashed(host, rows[0]).value, expected, prev) == []
    ensures Rehashed(host, rows[0]).value == rows[0].entryHash
    ensures WalkRows(host, rows, expected, prev)
         == WalkRows(host, rows[1..], rows[0].sequence + 1, Some(rows[0].entryHash))
  {
    PrependNothing(WalkRows(host, rows[1..], rows[0].sequence + 1, Some(rows[0].entryHash)));
  }

  /** The first row draws no anomaly exactly when it holds. */
  lemma {:induction false} HeadHolds(host: Host, rows: seq<Row>, i: nat, lo: int, expected: int)
    requires Increasing(rows) && i < |rows| && 1 <= lo <= expected <= rows[i].sequence
    requires i > 0 ==> rows[i - 1].sequence < expected
    requires expected == lo || HashAt(rows, expected - 1).Some?
    ensures RowHolds(host, rows, lo, i)
       <==> && Rehashed(host, rows[i]).Done?
            && RowAnomalies(rows[i], Rehashed(host, rows[i]).value, expected, SeedHash(rows, expected)) == []
  {
    if rows[i].sequence != lo && HashAt(rows, rows[i].sequence - 1).Some? { NothingBetween(rows, i, expected); }
  }

  lemma {:induction false} NothingBetween(rows: seq<Row>, i: nat, expected: int)
    requires Increasing(rows) && i < |rows| && expected <= rows[i].sequence
    requires i > 0 ==> rows[i - 1].sequence < expected
    requires HashAt(rows, rows[i].sequence - 1).Some?
    ensures rows[i].sequence == expected
  {
    HashAtFinds(rows, rows[i].sequence - 1);
    var j :| 0 <= j < |rows| && rows[j].sequence == rows[i].sequence - 1;
    assert j < i;
  }

  lemma {:induction false} HeadAnomaliesStay(host: Host, rows: seq<Row>, expected: int, prev: Option<Text>)
    requires rows != []
    requires Rehashed(host, rows[0]).Threw? || RowAnomalies(rows[0], Rehashed(host, rows[0]).value, expected, prev) != []
    ensures WalkRows(host, rows, expected, prev) != Done([])
  {}

  lemma {:induction false} WalkIffChainHolds(host: Host, rows: seq<Row>, lo: int, hi: int)
    requires Increasing(rows) && 1 <= lo <= hi
    ensures WalkRows(host, Between(rows, lo, hi), lo, SeedHash(rows, lo)) == Done([]) <==> ChainHolds(host, rows, lo, hi)
  {
    var p, q := BetweenIsSlice(rows, lo, hi);
    AllTrueEach(Holding(host, rows, lo), p, q);
    if p < q { WalkFindsNothing(host, rows, p, q, lo, lo); }
  }

  // ------------------------------------------------------------- the anchors

  function PriorTo(cps: seq<Checkpoint>, i: nat): int
    requires i <= |cps|
  {
    if i == 0 then 0 else cps[i - 1].atSequence
  }

  /** Checkpoint `i` anchors the rows since the one before it, and is signed. */
  ghost predicate AnchorHolds(host: Host, t: Table, i: nat, withKey: bool)
    requires i < |t.checkpoints|
  {
    var f := Examined(host, t.rows, PriorTo(t.checkpoints, i), t.checkpoints[i]);
    f.Done? && f.value.merkleOk && (withKey ==> f.value.signatureOk)
  }

  ghost predicate AnchorsHold(host: Host, t: Table, lo: int, hi: int, withKey: bool) {
    forall i {:trigger AnchorHolds(host, t, i, withKey)} | 0 <= i < |t.checkpoints| && lo <= t.checkpoints[i].atSequence <= hi ::
      AnchorHolds(host, t, i, withKey)
  }

  lemma {:induction false} CheckpointsSelect(cps: seq<Checkpoint>, lo: int, hi: int, p: nat, q: nat)
    requires p <= q <= |cps| && forall i | 0 <= i < |cps| :: p <= i < q <==> lo <= cps[i].atSequence <= hi
    ensures CheckpointsBetween(cps, lo, hi) == cps[p..q]
  {
    if cps != [] {
      var p', q' := if p == 0 then 0 else p - 1, if q == 0 then 0 else q - 1;
      forall i | 0 <= i < |cps[1..]| ensures p' <= i < q' <==> lo <= cps[1..][i].atSequence <= hi {
        assert cps[1..][i] == cps[i + 1];
      }
      CheckpointsSelect(cps[1..], lo, hi, p', q');
      assert cps[p..q] == (if p == 0 < q then [cps[0]] else []) + cps[1..][p'..q'];
    }
  }

  lemma {:induction false} CheckpointsAreSlice(cps: seq<Checkpoint>, lo: int, hi: int) returns (p: nat, q: nat)
    requires NonDecreasing(cps)
    ensures p <= q <= |cps| && CheckpointsBetween(cps, lo, hi) == cps[p..q]
    ensures forall i | 0 <= i < |cps| :: p <= i < q <==> lo <= cps[i].atSequence <= hi
    ensures p < q ==> forall i | 0 <= i < p :: cps[i].atSequence < lo
  {
    var keys := seq(|cps|, i requires 0 <= i < |cps| => cps[i].atSequence);
    assert forall i | 0 <= i < |cps| :: keys[i] == cps[i].atSequence;
    p, q := KeySlice(keys, lo, hi);
    CheckpointsSelect(cps, lo, hi, p, q);
  }

  lemma {:induction false} PriorSequenceIsPriorTo(cps: seq<Checkpoint>, i: nat)
    requires NonDecreasing(cps) && i < |cps|
    requires i > 0 ==> cps[i - 1].atSequence < cps[i].atSequence
    ensures PriorSequence(cps, cps[i].atSequence) == PriorTo(cps, i)
    decreases |cps|
  {
    PriorSequenceOfPrefix(cps, i);
    if i > 0 { assert cps[..i][i - 1] == cps[i - 1]; }
  }

  lemma {:induction false} PriorSequenceOfPrefix(cps: seq<Checkpoint>, i: nat)
    requires NonDecreasing(cps) && i < |cps|
    ensures PriorSequence(cps, cps[i].atSequence) == PriorSequence(cps[..i], cps[i].atSequence)
    decreases |cps|
  {
    var n := |cps| - 1;
    if i < n {
      assert cps[..n][i] == cps[i] && cps[..n][..i] == cps[..i];
      PriorSequenceOfPrefix(cps[..n], i);
    }
  }

  ghost predicate Clean(host: Host, rows: seq<Row>, cps: seq<Checkpoint>, prior: int, withKey: bool) {
    var fs := Findings(host, rows, cps, prior);
    fs.Done? && AnchorAnomalies(cps, fs.value, withKey) == []
  }

  /** Which anchors hold, in order. */
  ghost function Anchoring(host: Host, t: Table, withKey: bool): (flags: seq<bool>)
    ensures |flags| == |t.checkpoints|
    ensures forall j {:trigger flags[j]} {:trigger AnchorHolds(host, t, j, withKey)} | 0 <= j < |t.checkpoints| ::
              flags[j] == AnchorHolds(host, t, j, withKey)
  {
    seq(|t.checkpoints|, j requires 0 <= j < |t.checkpoints| => AnchorHolds(host, t, j, withKey))
  }

  /** Nothing is found about cps[i..q] exactly when each of them holds. */
  lemma {:induction false} FindingsClean(host: Host, t: Table, i: nat, q: nat, withKey: bool)
    requires i <= q <= |t.checkpoints|
    ensures Clean(host, t.rows, t.checkpoints[i..q], PriorTo(t.checkpoints, i), withKey)
       <==> AllTrue(Anchoring(host, t, withKey), i, q)
    decreases q - i
  {
    if i < q {
      FindingsClean(host, t, i + 1, q, withKey);
      FirstClean(host, t, i, q, withKey);
    } else {
      assert t.checkpoints[i..q] == [];
    }
  }

  lemma {:induction false} FirstClean(host: Host, t: Table, i: nat, q: nat, withKey: bool)
    requires i < q <= |t.checkpoints|
    ensures Clean(host, t.rows, t.checkpoints[i..q], PriorTo(t.checkpoints, i), withKey)
       <==> && AnchorHolds(host, t, i, withKey)
            && Clean(host, t.rows, t.checkpoints[i + 1..q], PriorTo(t.checkpoints, i + 1), withKey)
  {
    var cps, here := t.checkpoints, t.checkpoints[i..q];
    assert here[0] == cps[i] && here[1..] == cps[i + 1..q];
    FirstFinding(host, t.rows, here, PriorTo(cps, i), withKey);
  }

  lemma {:induction false} FirstFinding(host: Host, rows: seq<Row>, cps: seq<Checkpoint>, prior: int, withKey: bool)
    requires cps != []
    ensures var f := Examined(host, rows, prior, cps[0]);
            Clean(host, rows, cps, prior, withKey)
            <==> && f.Done? && f.value.merkleOk && (withKey ==> f.value.signatureOk)
                 && Clean(host, rows, cps[1..], cps[0].atSequence, withKey)
  {
    var f := Examined(host, rows, prior, cps[0]);
    var rest := Findings(host, rows, cps[1..], cps[0].atSequence);
    if f.Done? && rest.Done? {
      assert Findings(host, rows, cps, prior) == Done([f.value] + rest.value);
      AnchorAnomaliesFirst(cps[0], cps[1..], f.value, rest.value, withKey);
      assert cps == [cps[0]] + cps[1..];
    }
  }

  lemma {:induction false} AnchorAnomaliesFirst(c: Checkpoint, cps: seq<Checkpoint>, f: Finding, fs: seq<Finding>, withKey: bool)
    requires |cps| == |fs|
    ensures AnchorAnomalies([c] + cps, [f] + fs, withKey) == FindingAnomalies(c, f, withKey) + AnchorAnomalies(cps, fs, withKey)
    decreases |cps|
  {
    if cps == [] {
      assert [c] + cps == [c] && [f] + fs == [f] && [c][..0] == [] && [f][..0] == [];
    } else {
      var n := |cps| - 1;
      AnchorAnomaliesFirst(c, cps[..n], f, fs[..n], withKey);
      assert [c] + cps == ([c] + cps[..n]) + [cps[n]] && [f] + fs == ([f] + fs[..n]) + [fs[n]];
      AnchorAnomaliesLast([c] + cps[..n], cps[n], [f] + fs[..n], fs[n], withKey);
      assert cps == cps[..n] + [cps[n]] && fs == fs[..n] + [fs[n]];
      AnchorAnomaliesLast(cps[..n], cps[n], fs[..n], fs[n], withKey);
    }
  }

  lemma {:induction false} AnchorAnomaliesLast(cps: seq<Checkpoint>, c: Checkpoint, fs: seq<Finding>, f: Finding, withKey: bool)
    requires |cps| == |fs|
    ensures AnchorAnomalies(cps + [c], fs + [f], withKey) == AnchorAnomalies(cps, fs, withKey) + FindingAnomalies(c, f, withKey)
  {
    assert (cps + [c])[..|cps|] == cps && (fs + [f])[..|fs|] == fs;
  }

  lemma {:induction false} FindingsIffAnchorsHold(host: Host, t: Table, lo: int, hi: int, withKey: bool)
    requires NonDecreasing(t.checkpoints)
    ensures var cps := CheckpointsBetween(t.checkpoints, lo, hi);
            Clean(host, t.rows, cps, SeedPrior(t, cps), withKey) <==> AnchorsHold(host, t, lo, hi, withKey)
  {
    var p, q := CheckpointsAreSlice(t.checkpoints, lo, hi);
    FindingsClean(host, t, p, q, withKey);
    AllTrueEach(Anchoring(host, t, withKey), p, q);
    if p < q {
      assert t.checkpoints[p..q][0] == t.checkpoints[p];
      PriorSequenceIsPriorTo(t.checkpoints, p);
    }
  }

  // --------------------------------------------------------------- the verdict

  /** The verifier answers, and answers that the range is valid. */
  ghost predicate Accepts(host: Host, t: Table, fromSeq: int, toSeq: int, withKey: bool) {
    var r := Verify(host, t, fromSeq, toSeq, withKey);
    r.Done? && r.value.chainValid
  }

  /** On any table the aggregate flag is true exactly when no anomaly is listed. */
  lemma {:induction false} ValidIffNoAnomalies(host: Host, t: Table, fromSeq: int, toSeq: int, withKey: bool)
    requires Verify(host, t, fromSeq, toSeq, withKey).Done?
    ensures var r := Verify(host, t, fromSeq, toSeq, withKey).value;
            && (r.chainValid <==> r.anomalies == [])
            && (r.checkpointsValid <==> forall a | a in r.anomalies :: !a.MerkleMismatch? && !a.SignatureInvalid?)
  {
    var lo, hi := Max(1, fromSeq), Min(toSeq, Tip(t.rows));
    if lo <= hi {
      var cps := CheckpointsBetween(t.checkpoints, lo, hi);
      var chain := WalkRows(host, Between(t.rows, lo, hi), lo, SeedHash(t.rows, lo)).value;
      var fs := Findings(host, t.rows, cps, SeedPrior(t, cps)).value;
      ChainKinds(host, Between(t.rows, lo, hi), lo, SeedHash(t.rows, lo));
      AnchorKinds(cps, fs, withKey);
      var anchors := AnchorAnomalies(cps, fs, withKey);
      if anchors != [] { assert anchors[0] in anchors && anchors[0] in chain + anchors; }
    }
  }

  lemma {:induction false} ChainKinds(host: Host, rows: seq<Row>, expected: int, prev: Option<Text>)
    requires WalkRows(host, rows, expected, prev).Done?
    ensures forall a | a in WalkRows(host, rows, expected, prev).value :: !a.MerkleMismatch? && !a.SignatureInvalid?
    decreases |rows|
  {
    if rows != [] {
      ChainKinds(host, rows[1..], rows[0].sequence + 1, Some(Rehashed(host, rows[0]).value));
    }
  }

  lemma {:induction false} AnchorKinds(cps: seq<Checkpoint>, fs: seq<Finding>, withKey: bool)
    requires |cps| == |fs|
    ensures forall a | a in AnchorAnomalies(cps, fs, withKey) :: a.MerkleMismatch? || a.SignatureInvalid?
    decreases |cps|
  {
    if cps != [] {
      AnchorKinds(cps[..|cps| - 1], fs[..|cps| - 1], withKey);
    }
  }

  /** Acceptance, said without the walk: clamp the range, then every row and anchor in it holds. */
  lemma {:induction false} AcceptsMeans(host: Host, t: Table, fromSeq: int, toSeq: int, withKey: bool)
    requires InOrder(t)
    ensures var lo, hi := Max(1, fromSeq), Min(toSeq, Tip(t.rows));
            Accepts(host, t, fromSeq, toSeq, withKey)
            <==> ChainHolds(host, t.rows, lo, hi) && AnchorsHold(host, t, lo, hi, withKey)
  {
    var lo, hi := Max(1, fromSeq), Min(toSeq, Tip(t.rows));
    if lo <= hi {
      WalkIffChainHolds(host, t.rows, lo, hi);
      FindingsIffAnchorsHold(host, t, lo, hi, withKey);
      AcceptsNonEmpty(host, t, fromSeq, toSeq, withKey);
    }
  }

  lemma {:induction false} AcceptsNonEmpty(host: Host, t: Table, fromSeq: int, toSeq: int, withKey: bool)
    requires Max(1, fromSeq) <= Min(toSeq, Tip(t.rows))
    ensures var lo, hi := Max(1, fromSeq), Min(toSeq, Tip(t.rows));
            var cps := CheckpointsBetween(t.checkpoints, lo, hi);
            Accepts(host, t, fromSeq, toSeq, withKey)
            <==> && WalkRows(host, Between(t.rows, lo, hi), lo, SeedHash(t.rows, lo)) == Done([])
                 && Clean(host, t.rows, cps, SeedPrior(t, cps), withKey)
  {
    var lo, hi := Max(1, fromSeq), Min(toSeq, Tip(t.rows));
    var cps := CheckpointsBetween(t.checkpoints, lo, hi);
    AnswerValid(lo, hi, WalkRows(host, Between(t.rows, lo, hi), lo, SeedHash(t.rows, lo)),
                cps, Findings(host, t.rows, cps, SeedPrior(t, cps)), withKey);
  }

  lemma {:induction false} AnswerValid(
      lo: int, hi: int, chain: Outcome<seq<Anomaly>>, cps: seq<Checkpoint>, fs: Outcome<seq<Finding>>, withKey: bool)
    requires fs.Done? ==> |fs.value| == |cps|
    ensures var r := Answer(lo, hi, chain, cps, fs, withKey);
            r.Done? && r.value.chainValid <==> chain == Done([]) && fs.Done? && AnchorAnomalies(cps, fs.value, withKey) == []
  {}

  /** Two neighbouring ranges are accepted exactly when their union is, if the row they meet at is present. */
  lemma {:induction false} RangesCompose(host: Host, t: Table, fromSeq: int, k: int, toSeq: int, withKey: bool)
    requires InOrder(t) && HashAt(t.rows, k).Some? && Max(1, fromSeq) <= k <= toSeq
    ensures Accepts(host, t, fromSeq, toSeq, withKey)
       <==> Accepts(host, t, fromSeq, k, withKey) && Accepts(host, t, k + 1, toSeq, withKey)
  {
    AcceptsMeans(host, t, fromSeq, toSeq, withKey);
    AcceptsMeans(host, t, fromSeq, k, withKey);
    AcceptsMeans(host, t, k + 1, toSeq, withKey);
    var lo, hi := Max(1, fromSeq), Min(toSeq, Tip(t.rows));
    HashAtFinds(t.rows, k);
    assert k <= Tip(t.rows);
    ChainSplits(host, t.rows, lo, k, hi);
  }

  lemma {:induction false} ChainSplits(host: Host, rows: seq<Row>, lo: int, k: int, hi: int)
    requires Increasing(rows) && HashAt(rows, k).Some? && lo <= k <= hi
    ensures ChainHolds(host, rows, lo, hi) <==> ChainHolds(host, rows, lo, k) && ChainHolds(host, rows, k + 1, hi)
  {
    forall i | 0 <= i < |rows| && k + 1 <= rows[i].sequence <= hi
      ensures RowHolds(host, rows, lo, i) <==> RowHolds(host, rows, k + 1, i)
    {
      RowAfterPresent(host, rows, lo, k, i);
    }
  }

  /** Past a present row, where the range began no longer matters. */
  lemma {:induction false} RowAfterPresent(host: Host, rows: seq<Row>, lo: int, k: int, i: nat)
    requires Increasing(rows) && HashAt(rows, k).Some? && lo <= k && i < |rows| && k < rows[i].sequence
    ensures RowHolds(host, rows, lo, i) <==> RowHolds(host, rows, k + 1, i)
  {}
}
