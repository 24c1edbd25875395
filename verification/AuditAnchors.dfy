/**
 * When a checkpoint is made and what it holds (examples/hosts/sqlite/src/audit.ts), said of the
 * rows, the checkpoints before it and the clock.
 */
module AuditAnchors {
  import opened Wrappers
  import opened Ordering
  import opened Json
  import opened JsonText
  import opened Merkle
  import opened AuditEntry
  import opened AuditLog
  import opened AuditVerdict

  /** The number the log has come to, and the number of its last checkpoint; 0 where there is none. */
  function Reached(t: Table): int { if t.rows == [] then 0 else t.rows[|t.rows| - 1].sequence }
  function Anchored(t: Table): int { if t.checkpoints == [] then 0 else t.checkpoints[|t.checkpoints| - 1].atSequence }

  ghost predicate Taken(t: Table, id: Text) {
    exists k :: 0 <= k < |t.checkpoints| && t.checkpoints[k].id == id
  }

  /** The checkpoint anchors the rows from position `i`, which are those numbered above the one before. */
  ghost predicate AnchorsFrom(host: Host, t: Table, cp: Checkpoint, i: nat) {
    && i <= |t.rows|
    && (forall k | 0 <= k < i :: t.rows[k].sequence <= Anchored(t))
    && (forall k | i <= k < |t.rows| :: t.rows[k].sequence > Anchored(t))
    && cp.merkleRoot == Root(host.hash, EntryHashes(t.rows[i..]))
  }

  lemma {:induction false} UsedIdIff(cps: seq<Checkpoint>, id: Text)
    ensures UsedId(cps, id) <==> exists k :: 0 <= k < |cps| && cps[k].id == id
  {
    if cps != [] {
      UsedIdIff(cps[1..], id);
      if k :| 0 <= k < |cps| && cps[k].id == id {
        if k > 0 { assert cps[1..][k - 1].id == id; }
      }
      if k :| 0 <= k < |cps[1..]| && cps[1..][k].id == id { assert cps[k + 1].id == id; }
    }
  }

  /** The rows of an ordered table above a number are those from some position on. */
  lemma {:induction false} AboveIsSuffix(rows: seq<Row>, last: int, hi: int) returns (i: nat)
    requires Increasing(rows) && hi > last && rows != [] && rows[|rows| - 1].sequence == hi
    ensures i <= |rows| && Between(rows, last + 1, hi) == rows[i..]
    ensures forall k | 0 <= k < i :: rows[k].sequence <= last
    ensures forall k | i <= k < |rows| :: rows[k].sequence > last
  {
    var p, q := BetweenIsSlice(rows, last + 1, hi);
    var n := |rows| - 1;
    assert p <= n < q;
    i := p;
  }

  lemma {:induction false} NewRowsAnchored(host: Host, t: Table, id: Text, signedAt: int) returns (i: nat)
    requires Increasing(t.rows) && Reached(t) > Anchored(t)
    ensures AnchorsFrom(host, t, NextCheckpoint(host, t, id, signedAt), i)
  {
    if t.rows == [] {
      i := 0;
    } else {
      i := AboveIsSuffix(t.rows, Anchored(t), Reached(t));
    }
  }

  /**
   * A checkpoint is made exactly if the log has passed the last one, throws exactly if its id is
   * taken, and anchors all rows since under the number reached, signed over the bytes of the root.
   */
  lemma {:induction false} CheckpointByFields(host: Host, t: Table, id: Text, signedAt: int)
    requires InOrder(t)
    ensures var after := Checkpointed(host, t, id, signedAt);
            && (Reached(t) <= Anchored(t) ==> after == Done(t))
            && (Reached(t) > Anchored(t) && Taken(t, id) ==> after == Threw)
            && (Reached(t) > Anchored(t) && !Taken(t, id) ==>
                  exists cp: Checkpoint, i: nat ::
                    && after == Done(Table(t.rows, t.checkpoints + [cp]))
                    && cp.id == id && cp.atSequence == Reached(t) && cp.signedAt == signedAt
                    && AnchorsFrom(host, t, cp, i)
                    && cp.signature == host.sign(HexBytes(cp.merkleRoot)))
  {
    UsedIdIff(t.checkpoints, id);
    if Reached(t) > Anchored(t) && !Taken(t, id) {
      var i := NewRowsAnchored(host, t, id, signedAt);
    }
  }

  /**
   * The trigger makes one exactly if there is something new to anchor and enough entries have come,
   * enough time has gone by, or there is none yet.
   */
  lemma {:induction false} TriggersExactly(host: Host, t: Table, options: Options, id: Text, now: int)
    requires !Taken(t, id) && Reached(t) >= 0 && Anchored(t) >= 0
    ensures var after := Triggered(host, t, options, id, now);
            && after.Done? && after.value.rows == t.rows
            && (after.value.checkpoints != t.checkpoints
                <==> && Reached(t) > Anchored(t)
                     && (|| Reached(t) - Anchored(t) >= options.intervalEntries
                         || t.checkpoints == []
                         || now >= t.checkpoints[|t.checkpoints| - 1].signedAt + 1000 * options.intervalSeconds))
            && (after.value.checkpoints != t.checkpoints ==> after == Checkpointed(host, t, id, now))
  {
    UsedIdIff(t.checkpoints, id);
    var cp := NextCheckpoint(host, t, id, now);
    assert |t.checkpoints + [cp]| != |t.checkpoints|;
  }

  /** Two hexadecimal digits from position 2k on. */
  predicate PairAt(t: Text, k: nat) {
    2 * k + 1 < |t| && HexValue(t[2 * k]) >= 0 && HexValue(t[2 * k + 1]) >= 0
  }

  /** The bytes of a text are its pairs of digits, one by one, up to the first place where there is none. */
  lemma {:induction false} HexBytesByPairs(t: Text)
    ensures var bytes := HexBytes(t);
            && (forall k: nat | k < |bytes| :: PairAt(t, k) && bytes[k] == 16 * HexValue(t[2 * k]) + HexValue(t[2 * k + 1]))
            && !PairAt(t, |bytes|)
  {
    if PairAt(t, 0) {
      var rest := t[2..];
      HexBytesByPairs(rest);
      var bytes := HexBytes(t);
      forall k: nat | k < |bytes| ensures PairAt(t, k) && bytes[k] == 16 * HexValue(t[2 * k]) + HexValue(t[2 * k + 1]) {
        if k > 0 { assert PairAt(rest, k - 1) && bytes[k] == HexBytes(rest)[k - 1]; }
      }
      if PairAt(t, |bytes|) { assert PairAt(rest, |bytes| - 1); }
    }
  }
}
