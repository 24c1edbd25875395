/**
 * The audit log of the SQLite host (examples/hosts/sqlite/src/audit.ts): rows,
 * signed checkpoints, and the verifier that walks any range of any table.
 *
 * Tables are sequences in the order the source's queries read them. The hash,
 * the signature pair and number rounding are foreign and are fields of Host.
 */
module AuditLog {
  import opened Wrappers
  import opened Ordering
  import opened Json
  import opened JsonText
  import opened JsonRoundTrip
  import opened JsonHoles
  import opened Merkle
  import opened AuditEntry

  type Bytes = seq<int>

  /** The foreign functions: SHA-256, Ed25519 under the host's key, binary64 rounding. */
  datatype Host = Host(
    hash: Hash,
    sign: Bytes -> Text,
    check: (Bytes, Text) -> bool,
    round: Number -> Number)

  ghost predicate WellBehaved(host: Host) {
    YieldsDigests(host.hash) && forall m :: host.check(m, host.sign(m))
  }

  /** A row of table audit_checkpoints; signedAt in milliseconds. */
  datatype Checkpoint = Checkpoint(id: Text, atSequence: int, merkleRoot: Text, signature: Text, signedAt: int)

  datatype Table = Table(rows: seq<Row>, checkpoints: seq<Checkpoint>)

  /** Primary-key order, and index order of the checkpoints. */
  ghost predicate InOrder(t: Table) {
    && (forall i, j | 0 <= i < j < |t.rows| :: t.rows[i].sequence < t.rows[j].sequence)
    && (forall i, j | 0 <= i < j < |t.checkpoints| :: t.checkpoints[i].atSequence <= t.checkpoints[j].atSequence)
  }

  datatype Input = Input(actor: Text, action: Text, target: Text, details: Json)

  datatype Outcome<+R> = Done(value: R) | Threw

  /** Buffer.from(text, 'hex'): pairs of hexadecimal digits up to the first that is not one. */
  function HexBytes(t: Text): Bytes {
    if |t| >= 2 && HexValue(t[0]) >= 0 && HexValue(t[1]) >= 0 then
      [16 * HexValue(t[0]) + HexValue(t[1])] + HexBytes(t[2..])
    else []
  }

  // ---------------------------------------------------------------- queries

  /** MAX(seq), or 0 on an empty table. */
  function Tip(rows: seq<Row>): int {
    if rows == [] then 0 else rows[|rows| - 1].sequence
  }

  /** WHERE seq BETWEEN lo AND hi ORDER BY seq. */
  function Between(rows: seq<Row>, lo: int, hi: int): seq<Row> {
    if rows == [] then []
    else (if lo <= rows[0].sequence <= hi then [rows[0]] else []) + Between(rows[1..], lo, hi)
  }

  function CheckpointsBetween(cps: seq<Checkpoint>, lo: int, hi: int): seq<Checkpoint> {
    if cps == [] then []
    else (if lo <= cps[0].atSequence <= hi then [cps[0]] else []) + CheckpointsBetween(cps[1..], lo, hi)
  }

  /** The greatest at_sequence below `at`, or 0. */
  function PriorSequence(cps: seq<Checkpoint>, at: int): int {
    if cps == [] then 0
    else if cps[|cps| - 1].atSequence < at then cps[|cps| - 1].atSequence
    else PriorSequence(cps[..|cps| - 1], at)
  }

  function LastSequence(cps: seq<Checkpoint>): int {
    if cps == [] then 0 else cps[|cps| - 1].atSequence
  }

  /** SELECT entry_hash WHERE seq = at. */
  function HashAt(rows: seq<Row>, at: int): Option<Text> {
    if rows == [] then None
    else if rows[0].sequence == at then Some(rows[0].entryHash)
    else HashAt(rows[1..], at)
  }

  function EntryHashes(rows: seq<Row>): (hs: seq<Text>)
    ensures |hs| == |rows| && forall i {:trigger hs[i]} | 0 <= i < |rows| :: hs[i] == rows[i].entryHash
  {
    if rows == [] then [] else [rows[0].entryHash] + EntryHashes(rows[1..])
  }

  // ----------------------------------------------------------------- writing

  /** The row logAudit inserts after `rows`. */
  function NextRow(host: Host, rows: seq<Row>, input: Input, occurredAt: Text): Row {
    var row := Row(Tip(rows) + 1, occurredAt, input.actor, input.action, input.target, Canonicalize(input.details),
                   if rows == [] then None else Some(rows[|rows| - 1].entryHash), []);
    row.(entryHash := host.hash(EntryText(row, input.details)))
  }

  /** The UNIQUE constraint on entry_hash decides whether the insert throws. */
  function Logged(host: Host, t: Table, input: Input, occurredAt: Text): Outcome<Table> {
    var row := NextRow(host, t.rows, input, occurredAt);
    if row.entryHash in EntryHashes(t.rows) then Threw else Done(t.(rows := t.rows + [row]))
  }

  /** The hash stored with a row is that of a text which reads as the row, with these details. */
  ghost predicate HashedAs(host: Host, row: Row, details: Json) {
    exists text :: row.entryHash == host.hash(text) && ReadsAs(text, row, details, host.round)
  }

  /**
   * One row is added: the next number, the columns of the input, the hash of the row before it, and
   * a hash of a text that reads as the row, where the details are whole and the host holds its number.
   */
  ghost predicate Records(host: Host, before: seq<Row>, rows: seq<Row>, input: Input, occurredAt: Text) {
    && |rows| == |before| + 1 && rows[..|before|] == before
    && var row := rows[|before|];
       && row.sequence == (if before == [] then 1 else before[|before| - 1].sequence + 1)
       && row.occurredAt == occurredAt && row.actor == input.actor && row.action == input.action && row.target == input.target
       && row.detailsJson == Canonicalize(input.details)
       && row.prevHash == (if before == [] then None else Some(before[|before| - 1].entryHash))
       && (Passable(input.details, host.round) && Whole(input.details) && Held(Num(IntNumber(row.sequence)), host.round)
           ==> HashedAs(host, row, input.details))
  }

  lemma {:induction false} LoggedRecords(host: Host, rows: seq<Row>, input: Input, occurredAt: Text, row: Row)
    requires row == NextRow(host, rows, input, occurredAt)
    ensures Records(host, rows, rows + [row], input, occurredAt)
  {
    assert EntryValues(row, input.details) == EntryValues(row.(entryHash := []), input.details);
    if Passable(input.details, host.round) && Whole(input.details) && Held(Num(IntNumber(row.sequence)), host.round) {
      EntryTextReads(row, input.details, host.round);
      assert row.entryHash == host.hash(EntryText(row, input.details));
    }
  }

  function NextCheckpoint(host: Host, t: Table, id: Text, signedAt: int): Checkpoint {
    var root := Root(host.hash, EntryHashes(Between(t.rows, LastSequence(t.checkpoints) + 1, Tip(t.rows))));
    Checkpoint(id, Tip(t.rows), root, host.sign(HexBytes(root)), signedAt)
  }

  predicate UsedId(cps: seq<Checkpoint>, id: Text) {
    cps != [] && (cps[0].id == id || UsedId(cps[1..], id))
  }

  /** Done(None) when there is nothing new to anchor; a repeated id throws. */
  function Checkpointed(host: Host, t: Table, id: Text, signedAt: int): Outcome<Table> {
    if Tip(t.rows) < LastSequence(t.checkpoints) + 1 then Done(t)
    else if UsedId(t.checkpoints, id) then Threw
    else Done(t.(checkpoints := t.checkpoints + [NextCheckpoint(host, t, id, signedAt)]))
  }

  datatype Options = Options(intervalEntries: int, intervalSeconds: int)

  /** Whether triggerCheckpointIfDue goes on to create a checkpoint. */
  predicate Due(t: Table, options: Options, now: int) {
    && Tip(t.rows) != 0
    && (|| Tip(t.rows) - LastSequence(t.checkpoints) >= options.intervalEntries
        || t.checkpoints == []
        || now - t.checkpoints[|t.checkpoints| - 1].signedAt >= 1000 * options.intervalSeconds)
  }

  function Triggered(host: Host, t: Table, options: Options, id: Text, now: int): Outcome<Table> {
    if Due(t, options, now) then Checkpointed(host, t, id, now) else Done(t)
  }

  // --------------------------------------------------------------- verifying

  datatype Anomaly =
    | ChainBreak(atSeq: int, expected: Option<Text>, actual: Option<Text>)
    | MissingEntry(atSeq: int)
    | HashMismatch(atSeq: int)
    | MerkleMismatch(atSeq: int, checkpoint: Text)
    | SignatureInvalid(atSeq: int, checkpoint: Text)

  datatype CheckedCheckpoint =
    CheckedCheckpoint(checkpoint: Text, atSequence: int, merkleRoot: Text, signature: Text, verified: Option<bool>)

  datatype VerifyResult = VerifyResult(
    fromSeq: int,
    toSeq: int,
    chainValid: bool,
    checkpointsValid: bool,
    checkpoints: seq<CheckedCheckpoint>,
    anomalies: seq<Anomaly>)

  /** entryHash of a row re-read from its columns; Threw where JSON.parse throws. */
  function Rehashed(host: Host, row: Row): Outcome<Text> {
    var text := StoredText(row, host.round);
    if text.None? then Threw else Done(host.hash(text.value))
  }

  /** What was found so far, in front of what is still to be found. */
  function Prepend<E>(found: seq<E>, rest: Outcome<seq<E>>): Outcome<seq<E>> {
    if rest.Threw? then Threw else Done(found + rest.value)
  }

  lemma {:induction false} PrependNothing<E>(rest: Outcome<seq<E>>)
    ensures Prepend([], rest) == rest
  {
    if rest.Done? { assert [] + rest.value == rest.value; }
  }

  lemma {:induction false} PrependTwice<E>(a: seq<E>, b: seq<E>, rest: Outcome<seq<E>>)
    ensures Prepend(a, Prepend(b, rest)) == Prepend(a + b, rest)
  {
    if rest.Done? { assert a + (b + rest.value) == a + b + rest.value; }
  }

  lemma {:induction false} PrependEnd<E>(found: seq<E>)
    ensures Prepend(found, Done([])) == Done(found)
  {
    assert found + [] == found;
  }

  /** One step of a walk: what it adds, and what is left. */
  lemma {:induction false} PrependStep<E>(all: Outcome<seq<E>>, found: seq<E>, here: Outcome<seq<E>>, next: seq<E>, rest: Outcome<seq<E>>)
    requires all == Prepend(found, here) && here == Prepend(next, rest)
    ensures all == Prepend(found + next, rest)
  {
    PrependTwice(found, next, rest);
  }

  function RehashedAll(host: Host, rows: seq<Row>): Outcome<seq<Text>> {
    if rows == [] then Done([])
    else
      var first := Rehashed(host, rows[0]);
      if first.Threw? then Threw else Prepend([first.value], RehashedAll(host, rows[1..]))
  }

  lemma {:induction false} RehashedAllStep(host: Host, rows: seq<Row>, i: nat)
    requires i < |rows|
    ensures RehashedAll(host, rows[i..])
         == if Rehashed(host, rows[i]).Threw? then Threw
            else Prepend([Rehashed(host, rows[i]).value], RehashedAll(host, rows[i + 1..]))
  {
    assert rows[i..][1..] == rows[i + 1..];
  }

  function RowAnomalies(row: Row, rehashed: Text, expectedSeq: int, expectedPrev: Option<Text>): seq<Anomaly> {
    (if row.sequence != expectedSeq then [MissingEntry(expectedSeq)] else [])
    + (if row.prevHash != expectedPrev then [ChainBreak(row.sequence, expectedPrev, row.prevHash)] else [])
    + (if rehashed != row.entryHash then [HashMismatch(row.sequence)] else [])
  }

  /** The anomalies of the walk over `rows` from the given expectations. */
  function WalkRows(host: Host, rows: seq<Row>, expectedSeq: int, expectedPrev: Option<Text>): Outcome<seq<Anomaly>> {
    if rows == [] then Done([])
    else
      var rehashed := Rehashed(host, rows[0]);
      if rehashed.Threw? then Threw
      else Prepend(RowAnomalies(rows[0], rehashed.value, expectedSeq, expectedPrev),
                   WalkRows(host, rows[1..], rows[0].sequence + 1, Some(rehashed.value)))
  }

  lemma {:induction false} WalkRowsStep(host: Host, rows: seq<Row>, i: nat, expectedSeq: int, expectedPrev: Option<Text>)
    requires i < |rows|
    ensures WalkRows(host, rows[i..], expectedSeq, expectedPrev)
         == var h := Rehashed(host, rows[i]);
            if h.Threw? then Threw
            else Prepend(RowAnomalies(rows[i], h.value, expectedSeq, expectedPrev),
                         WalkRows(host, rows[i + 1..], rows[i].sequence + 1, Some(h.value)))
  {
    assert rows[i..][1..] == rows[i + 1..];
  }

  /** What the verifier finds about one checkpoint that anchors the rows after `prior`. */
  datatype Finding = Finding(merkleOk: bool, signatureOk: bool)

  function Examined(host: Host, rows: seq<Row>, prior: int, cp: Checkpoint): Outcome<Finding> {
    var hashes := RehashedAll(host, Between(rows, prior + 1, cp.atSequence));
    if hashes.Threw? then Threw
    else Done(Finding(Root(host.hash, hashes.value) == cp.merkleRoot, host.check(HexBytes(cp.merkleRoot), cp.signature)))
  }

  function FindingAnomalies(cp: Checkpoint, f: Finding, withKey: bool): seq<Anomaly> {
    (if !f.merkleOk then [MerkleMismatch(cp.atSequence, cp.id)] else [])
    + (if withKey && !f.signatureOk then [SignatureInvalid(cp.atSequence, cp.id)] else [])
  }

  function CheckedEntry(cp: Checkpoint, f: Finding, withKey: bool): CheckedCheckpoint {
    CheckedCheckpoint(cp.id, cp.atSequence, cp.merkleRoot, cp.signature,
                      if withKey then Some(f.merkleOk && f.signatureOk) else None)
  }

  /** Each checkpoint examined against the one before it, the first against `prior`. */
  function Findings(host: Host, rows: seq<Row>, cps: seq<Checkpoint>, prior: int): (r: Outcome<seq<Finding>>)
    ensures r.Done? ==> |r.value| == |cps|
  {
    if cps == [] then Done([])
    else
      var f := Examined(host, rows, prior, cps[0]);
      if f.Threw? then Threw else Prepend([f.value], Findings(host, rows, cps[1..], cps[0].atSequence))
  }

  lemma {:induction false} FindingsStep(host: Host, rows: seq<Row>, cps: seq<Checkpoint>, i: nat, prior: int)
    requires i < |cps|
    ensures Findings(host, rows, cps[i..], prior)
         == var f := Examined(host, rows, prior, cps[i]);
            if f.Threw? then Threw else Prepend([f.value], Findings(host, rows, cps[i + 1..], cps[i].atSequence))
  {
    assert cps[i..][1..] == cps[i + 1..];
  }

  lemma {:induction false} AnchorStep(cps: seq<Checkpoint>, fs: seq<Finding>, i: nat, f: Finding, withKey: bool)
    requires |fs| == i < |cps|
    ensures AnchorAnomalies(cps[..i + 1], fs + [f], withKey)
         == AnchorAnomalies(cps[..i], fs, withKey) + FindingAnomalies(cps[i], f, withKey)
    ensures CheckedEntries(cps[..i + 1], fs + [f], withKey)
         == CheckedEntries(cps[..i], fs, withKey) + [CheckedEntry(cps[i], f, withKey)]
  {
    assert cps[..i + 1][..i] == cps[..i] && (fs + [f])[..i] == fs;
  }

  /** The loop over the checkpoints has examined the first of them, and found and listed what it says. */
  ghost predicate Examining(all: Outcome<seq<Finding>>, rest: Outcome<seq<Finding>>, cps: seq<Checkpoint>, seen: seq<Finding>,
                            withKey: bool, found: seq<Anomaly>, checked: seq<CheckedCheckpoint>)
  {
    && |seen| <= |cps| && all == Prepend(seen, rest)
    && found == AnchorAnomalies(cps[..|seen|], seen, withKey) && checked == CheckedEntries(cps[..|seen|], seen, withKey)
  }

  /** One round of that loop. */
  lemma {:induction false} AnchorsStep(host: Host, rows: seq<Row>, cps: seq<Checkpoint>, i: nat, prior: int,
                                       all: Outcome<seq<Finding>>, seen: seq<Finding>, f: Finding, withKey: bool,
                                       found: seq<Anomaly>, checked: seq<CheckedCheckpoint>)
    requires |seen| == i < |cps| && Examined(host, rows, prior, cps[i]) == Done(f)
    requires Examining(all, Findings(host, rows, cps[i..], prior), cps, seen, withKey, found, checked)
    ensures Examining(all, Findings(host, rows, cps[i + 1..], cps[i].atSequence), cps, seen + [f], withKey,
                      found + FindingAnomalies(cps[i], f, withKey), checked + [CheckedEntry(cps[i], f, withKey)])
  {
    FindingsStep(host, rows, cps, i, prior);
    PrependStep(all, seen, Findings(host, rows, cps[i..], prior), [f],
                Findings(host, rows, cps[i + 1..], cps[i].atSequence));
    AnchorStep(cps, seen, i, f, withKey);
  }

  lemma {:induction false} AnchorsThrow(host: Host, rows: seq<Row>, cps: seq<Checkpoint>, i: nat, prior: int,
                                        all: Outcome<seq<Finding>>, seen: seq<Finding>)
    requires i < |cps| && Examined(host, rows, prior, cps[i]).Threw? && all == Prepend(seen, Findings(host, rows, cps[i..], prior))
    ensures all == Threw
  {
    FindingsStep(host, rows, cps, i, prior);
  }

  lemma {:induction false} AnchorsEnd(all: Outcome<seq<Finding>>, cps: seq<Checkpoint>, seen: seq<Finding>,
                                      withKey: bool, found: seq<Anomaly>, checked: seq<CheckedCheckpoint>)
    requires Examining(all, Done([]), cps, seen, withKey, found, checked) && |seen| == |cps|
    ensures all == Done(seen) && found == AnchorAnomalies(cps, seen, withKey) && checked == CheckedEntries(cps, seen, withKey)
  {
    PrependEnd(seen);
    assert cps[..|cps|] == cps;
  }

  function AnchorAnomalies(cps: seq<Checkpoint>, fs: seq<Finding>, withKey: bool): seq<Anomaly>
    requires |cps| == |fs|
  {
    if cps == [] then []
    else
      var n := |cps| - 1;
      AnchorAnomalies(cps[..n], fs[..n], withKey) + FindingAnomalies(cps[n], fs[n], withKey)
  }

  function CheckedEntries(cps: seq<Checkpoint>, fs: seq<Finding>, withKey: bool): seq<CheckedCheckpoint>
    requires |cps| == |fs|
  {
    if cps == [] then []
    else
      var n := |cps| - 1;
      CheckedEntries(cps[..n], fs[..n], withKey) + [CheckedEntry(cps[n], fs[n], withKey)]
  }

  function Max(a: int, b: int): int { if a >= b then a else b }
  function Min(a: int, b: int): int { if a <= b then a else b }

  function SeedHash(rows: seq<Row>, lo: int): Option<Text> {
    if lo > 1 then HashAt(rows, lo - 1) else None
  }

  /** The prior sequence the first checkpoint of a range is measured from. */
  function SeedPrior(t: Table, cps: seq<Checkpoint>): int {
    if cps == [] then 0 else PriorSequence(t.checkpoints, cps[0].atSequence)
  }

  /** verifyAuditChain as a function of the table. */
  function Verify(host: Host, t: Table, fromSeq: int, toSeq: int, withKey: bool): Outcome<VerifyResult> {
    var lo, hi := Max(1, fromSeq), Min(toSeq, Tip(t.rows));
    if hi < lo then Done(VerifyResult(lo, hi, true, true, [], []))
    else
      var cps := CheckpointsBetween(t.checkpoints, lo, hi);
      Answer(lo, hi, WalkRows(host, Between(t.rows, lo, hi), lo, SeedHash(t.rows, lo)),
             cps, Findings(host, t.rows, cps, SeedPrior(t, cps)), withKey)
  }

  /** The result object, from what the two loops found. */
  function Answer(lo: int, hi: int, chain: Outcome<seq<Anomaly>>, cps: seq<Checkpoint>, fs: Outcome<seq<Finding>>, withKey: bool)
      : Outcome<VerifyResult>
    requires fs.Done? ==> |fs.value| == |cps|
  {
    if chain.Threw? || fs.Threw? then Threw
    else
      var anchors := AnchorAnomalies(cps, fs.value, withKey);
      Done(VerifyResult(lo, hi, chain.value == [] && anchors == [], anchors == [],
                        CheckedEntries(cps, fs.value, withKey), chain.value + anchors))
  }

  /** The two tables and the statements over them. */
  class Log {
    const host: Host
    var rows: seq<Row>
    var checkpoints: seq<Checkpoint>

    function Contents(): Table
      reads this
    {
      Table(rows, checkpoints)
    }

    constructor (host: Host)
      ensures this.host == host && Contents() == Table([], [])
    {
      this.host, rows, checkpoints := host, [], [];
    }

    method LogAudit(input: Input, occurredAt: Text) returns (r: Outcome<(int, Text)>)
      modifies this`rows
      ensures var next := Logged(host, old(Contents()), input, occurredAt);
              if next.Threw? then r.Threw? && rows == old(rows)
              else && Contents() == next.value
                   && r == Done((rows[|rows| - 1].sequence, rows[|rows| - 1].entryHash))
      ensures r.Done? ==> Records(host, old(rows), rows, input, occurredAt)
    {
      var prevHash, sequence := None, 1;
      if rows != [] {
        prevHash, sequence := Some(rows[|rows| - 1].entryHash), rows[|rows| - 1].sequence + 1;
      }
      var row := Row(sequence, occurredAt, input.actor, input.action, input.target, Canonicalize(input.details), prevHash, []);
      row := row.(entryHash := host.hash(EntryText(row, input.details)));
      if row.entryHash in EntryHashes(rows) { return Threw; }
      LoggedRecords(host, rows, input, occurredAt, row);
      rows := rows + [row];
      r := Done((row.sequence, row.entryHash));
    }

    method CreateCheckpoint(id: Text, signedAt: int) returns (r: Outcome<Option<Checkpoint>>)
      modifies this`checkpoints
      ensures var next := Checkpointed(host, old(Contents()), id, signedAt);
              if next.Threw? then r.Threw? && checkpoints == old(checkpoints)
              else && Contents() == next.value
                   && r == Done(if checkpoints == old(checkpoints) then None else Some(checkpoints[|checkpoints| - 1]))
    {
      var fromSeq := LastSequence(checkpoints) + 1;
      var toSeq := Tip(rows);
      if toSeq < fromSeq { return Done(None); }
      var root := MerkleRoot(host.hash, EntryHashes(Between(rows, fromSeq, toSeq)));
      if UsedId(checkpoints, id) { return Threw; }
      var cp := Checkpoint(id, toSeq, root, host.sign(HexBytes(root)), signedAt);
      assert Checkpointed(host, Table(rows, checkpoints), id, signedAt) == Done(Table(rows, checkpoints + [cp]));
      checkpoints := checkpoints + [cp];
      assert |checkpoints| == |old(checkpoints)| + 1;
      r := Done(Some(cp));
    }

    method TriggerCheckpointIfDue(options: Options, id: Text, now: int) returns (r: Outcome<Option<Checkpoint>>)
      modifies this`checkpoints
      ensures var next := Triggered(host, old(Contents()), options, id, now);
              if next.Threw? then r.Threw? && checkpoints == old(checkpoints)
              else && Contents() == next.value
                   && r == Done(if checkpoints == old(checkpoints) then None else Some(checkpoints[|checkpoints| - 1]))
    {
      var tipSeq := Tip(rows);
      if tipSeq == 0 { return Done(None); }
      var entriesSince := tipSeq - LastSequence(checkpoints);
      var late := checkpoints == [] || now - checkpoints[|checkpoints| - 1].signedAt >= 1000 * options.intervalSeconds;
      if entriesSince >= options.intervalEntries || late {
        r := CreateCheckpoint(id, now);
      } else {
        r := Done(None);
      }
    }

    method RehashAll(anchored: seq<Row>) returns (r: Outcome<seq<Text>>)
      ensures r == RehashedAll(host, anchored)
    {
      var hashes: seq<Text> := [];
      var i := 0;
      PrependNothing(RehashedAll(host, anchored));
      assert anchored[0..] == anchored;
      while i < |anchored|
        invariant 0 <= i <= |anchored|
        invariant RehashedAll(host, anchored) == Prepend(hashes, RehashedAll(host, anchored[i..]))
      {
        RehashedAllStep(host, anchored, i);
        var h := Rehashed(host, anchored[i]);
        if h.Threw? { return Threw; }
        PrependTwice(hashes, [h.value], RehashedAll(host, anchored[i + 1..]));
        hashes := hashes + [h.value];
        i := i + 1;
      }
      PrependEnd(hashes);
      r := Done(hashes);
    }

    /** The checks of one row, in the source's order. */
    method CheckRow(row: Row, rehashed: Text, expectedSeq: int, expectedPrev: Option<Text>) returns (found: seq<Anomaly>)
      ensures found == RowAnomalies(row, rehashed, expectedSeq, expectedPrev)
    {
      found := [];
      if row.sequence != expectedSeq { found := found + [MissingEntry(expectedSeq)]; }
      if row.prevHash != expectedPrev { found := found + [ChainBreak(row.sequence, expectedPrev, row.prevHash)]; }
      if rehashed != row.entryHash { found := found + [HashMismatch(row.sequence)]; }
    }

    /** The first loop of verifyAuditChain. */
    method WalkChain(selected: seq<Row>, lo: int, seed: Option<Text>) returns (r: Outcome<seq<Anomaly>>, chainValid: bool)
      ensures r == WalkRows(host, selected, lo, seed)
      ensures r.Done? ==> (chainValid <==> r.value == [])
    {
      var anomalies: seq<Anomaly> := [];
      var expectedPrev, expectedSeq := seed, lo;
      chainValid := true;
      ghost var all := WalkRows(host, selected, lo, seed);
      var i := 0;
      PrependNothing(all);
      assert selected[0..] == selected;
      while i < |selected|
        invariant 0 <= i <= |selected|
        invariant chainValid <==> anomalies == []
        invariant all == Prepend(anomalies, WalkRows(host, selected[i..], expectedSeq, expectedPrev))
      {
        WalkRowsStep(host, selected, i, expectedSeq, expectedPrev);
        var rehashed := Rehashed(host, selected[i]);
        if rehashed.Threw? { return Threw, false; }
        var found := CheckRow(selected[i], rehashed.value, expectedSeq, expectedPrev);
        PrependStep(all, anomalies, WalkRows(host, selected[i..], expectedSeq, expectedPrev), found,
                    WalkRows(host, selected[i + 1..], selected[i].sequence + 1, Some(rehashed.value)));
        chainValid := chainValid && found == [];
        anomalies := anomalies + found;
        expectedPrev, expectedSeq := Some(rehashed.value), selected[i].sequence + 1;
        i := i + 1;
      }
      PrependEnd(anomalies);
      r := Done(anomalies);
    }

    /** The body of the second loop: one checkpoint, its anomalies and its entry in the result. */
    method CheckAnchor(cp: Checkpoint, prior: int, withKey: bool)
      returns (f: Outcome<Finding>, found: seq<Anomaly>, entry: CheckedCheckpoint)
      ensures f == Examined(host, rows, prior, cp)
      ensures f.Done? ==> found == FindingAnomalies(cp, f.value, withKey) && entry == CheckedEntry(cp, f.value, withKey)
    {
      found, entry := [], CheckedCheckpoint(cp.id, cp.atSequence, cp.merkleRoot, cp.signature, None);
      var hashes := RehashAll(Between(rows, prior + 1, cp.atSequence));
      if hashes.Threw? { return Threw, found, entry; }
      var root := MerkleRoot(host.hash, hashes.value);
      var merkleOk := root == cp.merkleRoot;
      var signatureOk := host.check(HexBytes(cp.merkleRoot), cp.signature);
      if !merkleOk { found := found + [MerkleMismatch(cp.atSequence, cp.id)]; }
      if withKey {
        if !signatureOk { found := found + [SignatureInvalid(cp.atSequence, cp.id)]; }
        entry := entry.(verified := Some(merkleOk && signatureOk));
      }
      f := Done(Finding(merkleOk, signatureOk));
    }

    /** The second loop of verifyAuditChain. */
    method WalkAnchors(cps: seq<Checkpoint>, withKey: bool)
      returns (ghost fs: Outcome<seq<Finding>>, threw: bool, found: seq<Anomaly>, checked: seq<CheckedCheckpoint>, checkpointsValid: bool)
      ensures fs == Findings(host, rows, cps, SeedPrior(Contents(), cps)) && threw == fs.Threw?
      ensures !threw ==> && found == AnchorAnomalies(cps, fs.value, withKey)
                         && checked == CheckedEntries(cps, fs.value, withKey)
                         && (checkpointsValid <==> found == [])
    {
      found, checked, checkpointsValid := [], [], true;
      ghost var start := SeedPrior(Contents(), cps);
      fs := Findings(host, rows, cps, start);
      ghost var seen: seq<Finding> := [];
      ghost var before := start;
      var i := 0;
      PrependNothing(fs);
      assert cps[0..] == cps;
      while i < |cps|
        invariant 0 <= i <= |cps| && |seen| == i
        invariant i > 0 ==> before == cps[i - 1].atSequence
        invariant i == 0 < |cps| ==> before == PriorSequence(checkpoints, cps[0].atSequence)
        invariant Examining(fs, Findings(host, rows, cps[i..], before), cps, seen, withKey, found, checked)
        invariant checkpointsValid <==> found == []
      {
        var cp := cps[i];
        var prior := if i > 0 then cps[i - 1].atSequence else PriorSequence(checkpoints, cp.atSequence);
        var f, here, entry := CheckAnchor(cp, prior, withKey);
        if f.Threw? {
          AnchorsThrow(host, rows, cps, i, prior, fs, seen);
          return fs, true, found, checked, checkpointsValid;
        }
        AnchorsStep(host, rows, cps, i, prior, fs, seen, f.value, withKey, found, checked);
        found, checked, checkpointsValid := found + here, checked + [entry], checkpointsValid && here == [];
        seen, before := seen + [f.value], cp.atSequence;
        i := i + 1;
      }
      AnchorsEnd(fs, cps, seen, withKey, found, checked);
      threw := false;
    }

    method VerifyAuditChain(fromSeq: int, toSeq: int, withKey: bool) returns (r: Outcome<VerifyResult>)
      ensures r == Verify(host, Contents(), fromSeq, toSeq, withKey)
    {
      var lo, hi := Max(1, fromSeq), Min(toSeq, Tip(rows));
      if hi < lo { return Done(VerifyResult(lo, hi, true, true, [], [])); }
      var chain, chainValid := WalkChain(Between(rows, lo, hi), lo, SeedHash(rows, lo));
      if chain.Threw? { return Threw; }
      var cps := CheckpointsBetween(checkpoints, lo, hi);
      ghost var fs;
      var threw, anchors, checked, checkpointsValid;
      fs, threw, anchors, checked, checkpointsValid := WalkAnchors(cps, withKey);
      if threw { return Threw; }
      r := Done(VerifyResult(lo, hi, chainValid && checkpointsValid, checkpointsValid, checked, chain.value + anchors));
    }
  }
}
