/**
 * Tamper evidence: what an accepted verdict on an arbitrary table proves about
 * the host's own log, how far it reaches, and what it does not see.
 */
module AuditTamper {
  import opened Wrappers
  import opened Ordering
  import opened Json
  import opened JsonText
  import opened JsonRoundTrip
  import opened Merkle
  import opened AuditEntry
  import opened AuditLog
  import opened AuditVerdict
  import opened AuditHistory

  // --------------------------------------------------- the texts that are hashed

  /** The stored texts of rows that all parse. */
  ghost predicate AllParse(rows: seq<Row>, round: Number -> Number) {
    forall i {:trigger StoredText(rows[i], round)} | 0 <= i < |rows| :: StoredText(rows[i], round).Some?
  }

  ghost function TextsOf(rows: seq<Row>, round: Number -> Number): (ts: seq<Text>)
    requires AllParse(rows, round)
    ensures |ts| == |rows| && forall i {:trigger ts[i]} | 0 <= i < |rows| :: Some(ts[i]) == StoredText(rows[i], round)
  {
    seq(|rows|, i requires 0 <= i < |rows| => StoredText(rows[i], round).value)
  }

  lemma {:induction false} RehashedAllIsHashes(host: Host, rows: seq<Row>)
    requires RehashedAll(host, rows).Done?
    ensures AllParse(rows, host.round)
    ensures RehashedAll(host, rows).value == Hashes(host.hash, TextsOf(rows, host.round))
  {
    if rows != [] {
      RehashedAllIsHashes(host, rows[1..]);
      assert AllParse(rows, host.round) by {
        forall i | 0 <= i < |rows| ensures StoredText(rows[i], host.round).Some? {
          if i > 0 { assert rows[i] == rows[1..][i - 1]; assert StoredText(rows[1..][i - 1], host.round).Some?; }
        }
      }
      assert TextsOf(rows, host.round)[1..] == TextsOf(rows[1..], host.round);
    }
  }

  lemma {:induction false} TextsAreMarked(rows: seq<Row>, round: Number -> Number)
    requires AllParse(rows, round)
    ensures Marked(TextsOf(rows, round))
  {
    forall i | 0 <= i < |rows| ensures TextsOf(rows, round)[i] != [] && !IsLowerHex(TextsOf(rows, round)[i][0]) {
      assert StoredText(rows[i], round).Some?;
      EntryTextIsMarked(rows[i], Parse(rows[i].detailsJson, round).value);
    }
  }

  ghost function Anchored(t: Table, i: nat): seq<Row>
    requires i < |t.checkpoints|
  {
    Between(t.rows, PriorTo(t.checkpoints, i) + 1, t.checkpoints[i].atSequence)
  }

  /** What the host or a verifier feeds the hash over this table, and the empty string. */
  ghost predicate HashedIn(host: Host, t: Table, text: Text) {
    || text == []
    || (exists i :: 0 <= i < |t.rows| && StoredText(t.rows[i], host.round) == Some(text))
    || (exists i :: 0 <= i < |t.checkpoints| && RehashedAll(host, Anchored(t, i)).Done?
                    && text in InnerTexts(host.hash, RehashedAll(host, Anchored(t, i)).value))
  }

  /** The hash does not collide on anything hashed for either table. */
  ghost predicate NoCollision(host: Host, s: Table, t: Table) {
    forall x, y {:trigger HashedInEither(host, s, t, x), HashedInEither(host, s, t, y)} |
      HashedInEither(host, s, t, x) && HashedInEither(host, s, t, y) && host.hash(x) == host.hash(y) :: x == y
  }

  ghost predicate HashedInEither(host: Host, s: Table, t: Table, text: Text) {
    HashedIn(host, s, text) || HashedIn(host, t, text)
  }

  lemma {:induction false} StoredRowHashed(host: Host, t: Table, row: Row, text: Text)
    requires row in t.rows && StoredText(row, host.round) == Some(text)
    ensures HashedIn(host, t, text)
  {
    var k :| 0 <= k < |t.rows| && t.rows[k] == row;
    assert StoredText(t.rows[k], host.round) == Some(text);
  }

  lemma {:induction false} AnchoredTextHashed(host: Host, t: Table, i: nat, j: nat)
    requires i < |t.checkpoints| && AllParse(Anchored(t, i), host.round) && j < |Anchored(t, i)|
    ensures HashedIn(host, t, TextsOf(Anchored(t, i), host.round)[j])
  {
    BetweenMembers(t.rows, PriorTo(t.checkpoints, i) + 1, t.checkpoints[i].atSequence, j);
    StoredRowHashed(host, t, Anchored(t, i)[j], TextsOf(Anchored(t, i), host.round)[j]);
  }

  lemma {:induction false} AnchoredTextsHashed(host: Host, t: Table, i: nat)
    requires i < |t.checkpoints| && RehashedAll(host, Anchored(t, i)).Done?
    ensures AllParse(Anchored(t, i), host.round)
    ensures forall x | x in HashedTexts(host.hash, TextsOf(Anchored(t, i), host.round)) :: HashedIn(host, t, x)
  {
    var rows := Anchored(t, i);
    RehashedAllIsHashes(host, rows);
    var texts := TextsOf(rows, host.round);
    forall x | x in texts ensures HashedIn(host, t, x) {
      var j :| 0 <= j < |texts| && texts[j] == x;
      AnchoredTextHashed(host, t, i, j);
    }
  }

  lemma {:induction false} BetweenMembers(rows: seq<Row>, lo: int, hi: int, j: nat)
    requires j < |Between(rows, lo, hi)|
    ensures Between(rows, lo, hi)[j] in rows && lo <= Between(rows, lo, hi)[j].sequence <= hi
  {
    if rows != [] {
      var first := if lo <= rows[0].sequence <= hi then [rows[0]] else [];
      if j >= |first| {
        BetweenMembers(rows[1..], lo, hi, j - |first|);
        assert Between(rows, lo, hi)[j] == Between(rows[1..], lo, hi)[j - |first|];
      }
    }
  }

  // ------------------------------------------------------------ an accepted chain

  /** Rows 1, 2, ... without a gap, each carrying the hash of the one before. */
  ghost predicate LinkedRow(host: Host, rows: seq<Row>, j: nat)
    requires j < |rows|
  {
    && rows[j].sequence == j + 1
    && Rehashed(host, rows[j]) == Done(rows[j].entryHash)
    && rows[j].prevHash == (if j == 0 then None else Some(rows[j - 1].entryHash))
  }

  ghost predicate Linked(host: Host, rows: seq<Row>) {
    forall j {:trigger LinkedRow(host, rows, j)} | 0 <= j < |rows| :: LinkedRow(host, rows, j)
  }

  /** In an accepted chain the row before is the sequence before. */
  lemma {:induction false} Predecessor(host: Host, rows: seq<Row>, tip: int, j: nat)
    requires Increasing(rows) && ChainHolds(host, rows, 1, tip)
    requires j < |rows| && 1 < rows[j].sequence <= tip
    ensures j > 0 && rows[j - 1].sequence == rows[j].sequence - 1
  {
    assert RowHolds(host, rows, 1, j);
    HashAtFinds(rows, rows[j].sequence - 1);
    var k :| 0 <= k < |rows| && rows[k].sequence == rows[j].sequence - 1;
    assert k < j;
    assert rows[j - 1].sequence < rows[j].sequence;
  }

  lemma {:induction false} AcceptedChainIsLinked(host: Host, rows: seq<Row>)
    requires Increasing(rows) && ChainHolds(host, rows, 1, Tip(rows)) && Tip(rows) >= 1
    ensures var chain := Between(rows, 1, Tip(rows)); |chain| == Tip(rows) && Linked(host, chain)
  {
    var p, q := BetweenIsSlice(rows, 1, Tip(rows));
    var n := |rows|;
    assert rows[n - 1].sequence == Tip(rows);
    SlicePlaces(host, rows, p);
    forall j | 0 <= j < n - p ensures LinkedRow(host, rows[p..], j) {
      assert rows[p + j].sequence == j + 1;
      assert RowHolds(host, rows, 1, p + j);
      if j > 0 { HashAtFinds(rows, j); assert rows[p + j - 1].sequence == j; }
    }
    assert rows[p..q] == rows[p..];
  }

  /** From the first row of the range on, sequences count 1, 2, ... */
  lemma {:induction false} SlicePlaces(host: Host, rows: seq<Row>, p: nat)
    requires Increasing(rows) && ChainHolds(host, rows, 1, Tip(rows)) && p < |rows|
    requires rows[p].sequence >= 1 && forall i | 0 <= i < p :: rows[i].sequence < 1
    ensures forall j | p <= j < |rows| :: rows[j].sequence == j - p + 1
  {
    forall j | p <= j < |rows| ensures rows[j].sequence == j - p + 1 {
      SlicePlace(host, rows, p, j);
    }
  }

  lemma {:induction false} SlicePlace(host: Host, rows: seq<Row>, p: nat, j: nat)
    requires Increasing(rows) && ChainHolds(host, rows, 1, Tip(rows)) && p <= j < |rows|
    requires rows[p].sequence >= 1 && forall i | 0 <= i < p :: rows[i].sequence < 1
    ensures rows[j].sequence == j - p + 1
    decreases j
  {
    if j > p { assert rows[p].sequence < rows[j].sequence; }
    if rows[j].sequence > 1 {
      assert rows[j].sequence <= Tip(rows);
      Predecessor(host, rows, Tip(rows), j);
      if j > p { SlicePlace(host, rows, p, j - 1); }
    }
  }

  lemma {:induction false} HonestRowAt(host: Host, rows: seq<Row>, j: nat)
    requires HonestRows(host, rows) && j < |rows|
    ensures rows[j].sequence == j + 1 && Rehashed(host, rows[j]) == Done(rows[j].entryHash)
  {
    assert HonestRow(host, rows, j);
    GenuineRehashes(host, rows[j]);
  }

  lemma {:induction false} HonestIsLinked(host: Host, rows: seq<Row>)
    requires HonestRows(host, rows)
    ensures Linked(host, rows)
  {
    forall j | 0 <= j < |rows| ensures LinkedRow(host, rows, j) {
      assert HonestRow(host, rows, j);
      GenuineRehashes(host, rows[j]);
    }
  }

  // ------------------------------------------------------------- back to the start

  /** Both rows carry the same entry and the same hashes. */
  ghost predicate SameRow(host: Host, x: Row, y: Row) {
    SameStoredRow(x, y, host.round) && x.entryHash == y.entryHash
  }

  ghost function ChainOf(t: Table): seq<Row> {
    Between(t.rows, 1, Tip(t.rows))
  }

  /**
   * Once an accepted chain meets the host's rows, it agrees with them from there back: equal
   * hashes at some place mean the same rows at every place before.
   */
  lemma {:induction false} ChainsAgreeBelow(host: Host, t: Table, written: Table, n: nat, j: nat)
    requires Linked(host, ChainOf(t)) && Linked(host, written.rows) && j <= n < |ChainOf(t)| && n < |written.rows|
    requires NoCollision(host, written, t) && ChainOf(t)[n].entryHash == written.rows[n].entryHash
    ensures SameRow(host, ChainOf(t)[j], written.rows[j])
    decreases n
  {
    ChainsAgreeHere(host, t, written, n);
    if j < n { ChainsAgreeBelow(host, t, written, n - 1, j); }
  }

  lemma {:induction false} ChainsAgreeHere(host: Host, t: Table, written: Table, n: nat)
    requires Linked(host, ChainOf(t)) && Linked(host, written.rows) && n < |ChainOf(t)| && n < |written.rows|
    requires NoCollision(host, written, t) && ChainOf(t)[n].entryHash == written.rows[n].entryHash
    ensures SameRow(host, ChainOf(t)[n], written.rows[n])
    ensures n > 0 ==> ChainOf(t)[n - 1].entryHash == written.rows[n - 1].entryHash
  {
    assert LinkedRow(host, ChainOf(t), n) && LinkedRow(host, written.rows, n);
    BetweenMembers(t.rows, 1, Tip(t.rows), n);
    SameHashSameRow(host, written, t, written.rows[n], ChainOf(t)[n]);
  }

  lemma {:induction false} SameHashSameRow(host: Host, s: Table, t: Table, x: Row, y: Row)
    requires x in s.rows && y in t.rows && NoCollision(host, s, t)
    requires Rehashed(host, x) == Done(x.entryHash) && Rehashed(host, y) == Done(y.entryHash)
    requires x.entryHash == y.entryHash
    ensures SameRow(host, y, x)
  {
    SameHashSameText(host, s, t, x, y);
    StoredTextBinds(y, x, host.round);
  }

  lemma {:induction false} SameHashSameText(host: Host, s: Table, t: Table, x: Row, y: Row)
    requires x in s.rows && y in t.rows && NoCollision(host, s, t)
    requires Rehashed(host, x) == Done(x.entryHash) && Rehashed(host, y) == Done(y.entryHash)
    requires x.entryHash == y.entryHash
    ensures StoredText(x, host.round).Some? && StoredText(x, host.round) == StoredText(y, host.round)
  {
    var tx, ty := StoredText(x, host.round).value, StoredText(y, host.round).value;
    var i :| 0 <= i < |s.rows| && s.rows[i] == x;
    var j :| 0 <= j < |t.rows| && t.rows[j] == y;
    assert StoredText(s.rows[i], host.round) == Some(tx) && StoredText(t.rows[j], host.round) == Some(ty);
    assert HashedInEither(host, s, t, tx) && HashedInEither(host, s, t, ty);
    assert host.hash(tx) == host.hash(ty);
  }

  // --------------------------------------------------------------- what a root pins

  /** Two anchored stretches with one root hash alike row by row; none is empty. */
  lemma {:induction false} RootPinsRows(host: Host, s: Table, i: nat, t: Table, k: nat)
    requires YieldsDigests(host.hash) && NoCollision(host, s, t)
    requires i < |s.checkpoints| && k < |t.checkpoints|
    requires RehashedAll(host, Anchored(s, i)).Done? && RehashedAll(host, Anchored(t, k)).Done?
    requires Root(host.hash, RehashedAll(host, Anchored(s, i)).value) == Root(host.hash, RehashedAll(host, Anchored(t, k)).value)
    requires Anchored(s, i) != []
    ensures RehashedAll(host, Anchored(s, i)) == RehashedAll(host, Anchored(t, k))
  {
    RehashedAllIsHashes(host, Anchored(s, i));
    RehashedAllIsHashes(host, Anchored(t, k));
    AnchoredTextsHashed(host, s, i);
    AnchoredTextsHashed(host, t, k);
    TextsAreMarked(Anchored(s, i), host.round);
    TextsAreMarked(Anchored(t, k), host.round);
    var a, b := TextsOf(Anchored(s, i), host.round), TextsOf(Anchored(t, k), host.round);
    var hashed := HashedTexts(host.hash, a) + HashedTexts(host.hash, b);
    assert CollisionFree(host.hash, hashed + {[]}) by {
      assert forall x | x in hashed + {[]} :: HashedInEither(host, s, t, x);
    }
    CollisionFreeSubset(host.hash, hashed, hashed + {[]});
    if b == [] {
      EmptyRootIsAlone(host.hash, a, hashed + {[]});
    } else {
      RootBindsMarkedTexts(host.hash, a, b);
    }
  }

  /** The root of the empty list is the root of no list of entry hashes. */
  lemma {:induction false} EmptyRootIsAlone(h: Hash, texts: seq<Text>, all: set<Text>)
    requires texts != [] && YieldsDigests(h) && Marked(texts)
    requires HashedTexts(h, texts) <= all && [] in all && CollisionFree(h, all)
    ensures Root(h, Hashes(h, texts)) != Root(h, [])
  {
    var leaves := Hashes(h, texts);
    if |texts| == 1 {
      assert texts[0] in all && texts[0] != [];
      assert Root(h, leaves) == h(texts[0]);
    } else {
      InnerTextsSplit(h, leaves);
      var k := SplitPoint(|leaves|);
      TreeIsDigest(h, leaves[..k]);
      assert Tree(h, leaves[..k]) + Tree(h, leaves[k..]) != [];
    }
  }

  /** Hexadecimal decoding loses nothing of a digest. */
  lemma {:induction false} HexBytesInjective(a: Text, b: Text)
    requires |a| == |b| && |a| % 2 == 0
    requires forall i | 0 <= i < |a| :: IsLowerHex(a[i]) && IsLowerHex(b[i])
    requires HexBytes(a) == HexBytes(b)
    ensures a == b
    decreases |a|
  {
    if a != [] {
      assert HexBytes(a)[0] == HexBytes(b)[0];
      assert HexBytes(a)[1..] == HexBytes(b)[1..];
      HexBytesInjective(a[2..], b[2..]);
      HexPairInjective(a[0], a[1], b[0], b[1]);
      assert a == [a[0], a[1]] + a[2..] && b == [b[0], b[1]] + b[2..];
    }
  }

  lemma {:induction false} HexPairInjective(a: Unit, b: Unit, c: Unit, d: Unit)
    requires IsLowerHex(a) && IsLowerHex(b) && IsLowerHex(c) && IsLowerHex(d)
    requires 16 * HexValue(a) + HexValue(b) == 16 * HexValue(c) + HexValue(d)
    ensures a == c && b == d
  {
    assert 0 <= HexValue(b) < 16 && 0 <= HexValue(d) < 16;
    assert HexValue(a) == HexValue(c);
  }

  // ------------------------------------------------------------ the main theorems

  /** The first `n` rows of the accepted chain are the first `n` rows the host wrote. */
  ghost predicate SamePrefix(host: Host, written: Table, t: Table, n: int) {
    var chain := ChainOf(t);
    && 0 <= n <= |written.rows| && n <= |chain|
    && forall j {:trigger SameRow(host, chain[j], written.rows[j])} | 0 <= j < n ::
         chain[j].sequence == j + 1 && SameRow(host, chain[j], written.rows[j])
  }

  /**
   * A table is accepted from 1 to its tip. Then any checkpoint of it inside the range
   * whose root the host once signed pins every row up to it to the host's own rows.
   */
  lemma {:induction false} RootPinsPrefix(host: Host, written: Table, i: nat, t: Table, k: nat, withKey: bool)
    requires WellBehaved(host) && Honest(host, written) && InOrder(t) && NoCollision(host, written, t)
    requires Accepts(host, t, 1, Tip(t.rows), withKey)
    requires i < |written.checkpoints| && k < |t.checkpoints| && 1 <= t.checkpoints[k].atSequence <= Tip(t.rows)
    requires t.checkpoints[k].merkleRoot == written.checkpoints[i].merkleRoot
    ensures t.checkpoints[k].atSequence == written.checkpoints[i].atSequence
    ensures SamePrefix(host, written, t, t.checkpoints[k].atSequence)
  {
    AcceptedChain(host, t, withKey);
    AcceptedAnchor(host, t, k, withKey);
    LinkedRootPins(host, written, i, t, k);
  }

  /** The same of any linked chain over which that root comes out. */
  lemma {:induction false} LinkedRootPins(host: Host, written: Table, i: nat, t: Table, k: nat)
    requires YieldsDigests(host.hash) && Honest(host, written) && InOrder(t) && NoCollision(host, written, t)
    requires |ChainOf(t)| == Tip(t.rows) && Linked(host, ChainOf(t))
    requires i < |written.checkpoints| && k < |t.checkpoints| && 1 <= t.checkpoints[k].atSequence <= Tip(t.rows)
    requires RehashedAll(host, Anchored(t, k)).Done?
    requires Root(host.hash, RehashedAll(host, Anchored(t, k)).value) == written.checkpoints[i].merkleRoot
    ensures t.checkpoints[k].atSequence == written.checkpoints[i].atSequence
    ensures SamePrefix(host, written, t, t.checkpoints[k].atSequence)
  {
    RootPinsHashes(host, written, i, t, k);
    var m, n := LastHashesMeet(host, written, i, t, k);
    HonestIsLinked(host, written.rows);
    MeetingGivesPrefix(host, written, t, m, n, t.checkpoints[k].atSequence);
  }

  lemma {:induction false} RootPinsHashes(host: Host, written: Table, i: nat, t: Table, k: nat)
    requires YieldsDigests(host.hash) && Honest(host, written) && NoCollision(host, written, t)
    requires i < |written.checkpoints| && k < |t.checkpoints| && RehashedAll(host, Anchored(t, k)).Done?
    requires Root(host.hash, RehashedAll(host, Anchored(t, k)).value) == written.checkpoints[i].merkleRoot
    ensures Anchored(written, i) != [] && RehashedAll(host, Anchored(written, i)).Done?
    ensures RehashedAll(host, Anchored(written, i)) == RehashedAll(host, Anchored(t, k))
  {
    HonestAnchored(host, written, i);
    RootPinsRows(host, written, i, t, k);
  }

  /** Stretches that hash alike end in rows with one hash. */
  lemma {:induction false} LastHashesMeet(host: Host, written: Table, i: nat, t: Table, k: nat) returns (m: nat, n: nat)
    requires Honest(host, written) && InOrder(t) && |ChainOf(t)| == Tip(t.rows) && Linked(host, ChainOf(t))
    requires i < |written.checkpoints| && k < |t.checkpoints| && 1 <= t.checkpoints[k].atSequence <= Tip(t.rows)
    requires Anchored(written, i) != [] && RehashedAll(host, Anchored(written, i)).Done?
    requires RehashedAll(host, Anchored(written, i)) == RehashedAll(host, Anchored(t, k))
    ensures t.checkpoints[k].atSequence == m + 1 <= |ChainOf(t)| && written.checkpoints[i].atSequence == n + 1 <= |written.rows|
    ensures ChainOf(t)[m].entryHash == written.rows[n].entryHash
  {
    n := HonestLastAnchored(host, written, i);
    m := ChainLastAnchored(host, t, k);
    SameLast(host, Anchored(written, i), Anchored(t, k));
  }

  /** Where two linked chains meet, they meet at one place. */
  lemma {:induction false} MeetingPlace(host: Host, written: Table, t: Table, m: nat, n: nat)
    requires Linked(host, ChainOf(t)) && Linked(host, written.rows) && m < |ChainOf(t)| && n < |written.rows|
    requires NoCollision(host, written, t) && ChainOf(t)[m].entryHash == written.rows[n].entryHash
    ensures m == n
  {
    LinkedPlace(host, ChainOf(t), m);
    LinkedPlace(host, written.rows, n);
    BetweenMembers(t.rows, 1, Tip(t.rows), m);
    SameHashSameSequence(host, written, t, written.rows[n], ChainOf(t)[m]);
  }

  lemma {:induction false} LinkedPlace(host: Host, rows: seq<Row>, j: nat)
    requires Linked(host, rows) && j < |rows|
    ensures rows[j].sequence == j + 1 && Rehashed(host, rows[j]) == Done(rows[j].entryHash)
  {
    assert LinkedRow(host, rows, j);
  }

  ghost function LastOf<E>(s: seq<E>): E
    requires s != []
  {
    s[|s| - 1]
  }

  /** The last anchored row of a checkpoint inside a linked chain is the row it names. */
  lemma {:induction false} ChainLastAnchored(host: Host, t: Table, k: nat) returns (m: nat)
    requires InOrder(t) && |ChainOf(t)| == Tip(t.rows) && Linked(host, ChainOf(t))
    requires k < |t.checkpoints| && 1 <= t.checkpoints[k].atSequence <= Tip(t.rows) && Anchored(t, k) != []
    ensures t.checkpoints[k].atSequence == m + 1 <= |ChainOf(t)| && LastOf(Anchored(t, k)) == ChainOf(t)[m]
    ensures Rehashed(host, LastOf(Anchored(t, k))) == Done(ChainOf(t)[m].entryHash)
  {
    m := t.checkpoints[k].atSequence - 1;
    LinkedPlace(host, ChainOf(t), m);
    LastOfChain(t, k, m);
  }

  lemma {:induction false} SameHashSameSequence(host: Host, s: Table, t: Table, x: Row, y: Row)
    requires x in s.rows && y in t.rows && NoCollision(host, s, t)
    requires Rehashed(host, x) == Done(x.entryHash) && Rehashed(host, y) == Done(y.entryHash)
    requires x.entryHash == y.entryHash
    ensures x.sequence == y.sequence
  {
    SameHashSameRow(host, s, t, x, y);
  }

  lemma {:induction false} RehashedAllLast(host: Host, rows: seq<Row>)
    requires RehashedAll(host, rows).Done? && rows != []
    ensures RehashedAll(host, rows).value != [] && Rehashed(host, LastOf(rows)) == Done(LastOf(RehashedAll(host, rows).value))
  {
    if |rows| > 1 {
      RehashedAllLast(host, rows[1..]);
      assert LastOf(rows[1..]) == LastOf(rows);
    }
  }

  lemma {:induction false} SameLast(host: Host, a: seq<Row>, b: seq<Row>)
    requires a != [] && RehashedAll(host, a).Done? && RehashedAll(host, a) == RehashedAll(host, b)
    ensures b != [] && Rehashed(host, LastOf(a)) == Rehashed(host, LastOf(b))
  {
    RehashedAllLast(host, a);
    if b != [] { RehashedAllLast(host, b); }
  }

  /** What acceptance up to the tip says of one checkpoint and of the chain. */
  lemma {:induction false} AcceptedChain(host: Host, t: Table, withKey: bool)
    requires InOrder(t) && Accepts(host, t, 1, Tip(t.rows), withKey) && Tip(t.rows) >= 1
    ensures |ChainOf(t)| == Tip(t.rows) && Linked(host, ChainOf(t))
  {
    AcceptsMeans(host, t, 1, Tip(t.rows), withKey);
    AcceptedChainIsLinked(host, t.rows);
  }

  lemma {:induction false} AcceptedAnchorHolds(host: Host, t: Table, k: nat, withKey: bool)
    requires InOrder(t) && Accepts(host, t, 1, Tip(t.rows), withKey)
    requires k < |t.checkpoints| && 1 <= t.checkpoints[k].atSequence <= Tip(t.rows)
    ensures AnchorHolds(host, t, k, withKey)
  {
    AcceptsMeans(host, t, 1, Tip(t.rows), withKey);
  }

  lemma {:induction false} AcceptedAnchor(host: Host, t: Table, k: nat, withKey: bool)
    requires InOrder(t) && Accepts(host, t, 1, Tip(t.rows), withKey)
    requires k < |t.checkpoints| && 1 <= t.checkpoints[k].atSequence <= Tip(t.rows)
    ensures RehashedAll(host, Anchored(t, k)).Done?
    ensures Root(host.hash, RehashedAll(host, Anchored(t, k)).value) == t.checkpoints[k].merkleRoot
    ensures withKey ==> host.check(HexBytes(t.checkpoints[k].merkleRoot), t.checkpoints[k].signature)
  {
    AcceptedAnchorHolds(host, t, k, withKey);
    AnchorMeans(host, t, k, withKey);
  }

  lemma {:induction false} AnchorMeans(host: Host, t: Table, k: nat, withKey: bool)
    requires k < |t.checkpoints|
    ensures AnchorHolds(host, t, k, withKey)
       <==> && RehashedAll(host, Anchored(t, k)).Done?
            && Root(host.hash, RehashedAll(host, Anchored(t, k)).value) == t.checkpoints[k].merkleRoot
            && (withKey ==> host.check(HexBytes(t.checkpoints[k].merkleRoot), t.checkpoints[k].signature))
  {}

  lemma {:induction false} HonestAnchored(host: Host, t: Table, i: nat)
    requires Honest(host, t) && i < |t.checkpoints|
    ensures Anchored(t, i) != []
    ensures RehashedAll(host, Anchored(t, i)).Done?
    ensures t.checkpoints[i].merkleRoot == Root(host.hash, RehashedAll(host, Anchored(t, i)).value)
  {
    HonestAnchoredRows(host, t, i);
    assert HonestCheckpoint(host, t.rows, t.checkpoints, i);
    HonestRehashedBetween(host, t.rows, PriorTo(t.checkpoints, i), t.checkpoints[i].atSequence);
  }

  lemma {:induction false} HonestAnchoredRows(host: Host, t: Table, i: nat)
    requires Honest(host, t) && i < |t.checkpoints|
    ensures var prior, at := PriorTo(t.checkpoints, i), t.checkpoints[i].atSequence;
            0 <= prior < at <= |t.rows| && Anchored(t, i) == t.rows[prior..at]
  {
    assert HonestCheckpoint(host, t.rows, t.checkpoints, i);
    HonestRowsAreFormed(host, t.rows);
    FormedBetween(t.rows, PriorTo(t.checkpoints, i), t.checkpoints[i].atSequence);
  }

  /** An accepted chain that meets the host's rows has the host's rows up to there. */
  lemma {:induction false} MeetingGivesPrefix(host: Host, written: Table, t: Table, m: nat, n: nat, count: int)
    requires Linked(host, ChainOf(t)) && Linked(host, written.rows) && m < |ChainOf(t)| && n < |written.rows|
    requires NoCollision(host, written, t) && ChainOf(t)[m].entryHash == written.rows[n].entryHash && count == m + 1
    ensures m == n && SamePrefix(host, written, t, count)
  {
    MeetingPlace(host, written, t, m, n);
    forall j | 0 <= j < count ensures ChainOf(t)[j].sequence == j + 1 && SameRow(host, ChainOf(t)[j], written.rows[j]) {
      LinkedPlace(host, ChainOf(t), j);
      ChainsAgreeBelow(host, t, written, m, j);
    }
  }

  /** The host's own last anchored row is the one the checkpoint names. */
  lemma {:induction false} HonestLastAnchored(host: Host, written: Table, i: nat) returns (n: nat)
    requires Honest(host, written) && i < |written.checkpoints|
    ensures written.checkpoints[i].atSequence == n + 1 <= |written.rows|
    ensures Anchored(written, i) != [] && LastOf(Anchored(written, i)) == written.rows[n]
    ensures Rehashed(host, LastOf(Anchored(written, i))) == Done(written.rows[n].entryHash)
  {
    HonestAnchoredRows(host, written, i);
    n := written.checkpoints[i].atSequence - 1;
    HonestRowAt(host, written.rows, n);
  }

  lemma {:induction false} LastOfChain(t: Table, k: nat, m: nat)
    requires InOrder(t) && k < |t.checkpoints| && m < |ChainOf(t)| && Anchored(t, k) != []
    requires ChainOf(t)[m].sequence == t.checkpoints[k].atSequence
    ensures LastOf(Anchored(t, k)) == ChainOf(t)[m]
  {
    BetweenMembers(t.rows, 1, Tip(t.rows), m);
    LastBetweenIs(t.rows, PriorTo(t.checkpoints, k) + 1, t.checkpoints[k].atSequence, ChainOf(t)[m]);
  }

  lemma {:induction false} LastBetweenIs(rows: seq<Row>, lo: int, hi: int, row: Row)
    requires Increasing(rows) && row in rows && row.sequence == hi && Between(rows, lo, hi) != []
    ensures LastOf(Between(rows, lo, hi)) == row
  {
    BetweenMembers(rows, lo, hi, 0);
    var w :| 0 <= w < |rows| && rows[w] == row;
    LastBetween(rows, lo, hi, w);
  }

  lemma {:induction false} LastBetween(rows: seq<Row>, lo: int, hi: int, w: nat)
    requires Increasing(rows) && w < |rows| && rows[w].sequence == hi && lo <= hi
    ensures Between(rows, lo, hi) != [] && LastOf(Between(rows, lo, hi)) == rows[w]
  {
    var p, q := BetweenIsSlice(rows, lo, hi);
    assert p <= w < q;
    assert lo <= rows[q - 1].sequence <= hi;
  }

  /**
   * Tamper evidence under the host's key. If only messages the host signed verify, then
   * in an accepted table every checkpoint in range proves its whole prefix genuine.
   */
  lemma {:induction false} SignedCheckpointsProvePrefix(host: Host, written: Table, t: Table, k: nat)
    requires WellBehaved(host) && Honest(host, written) && InOrder(t) && NoCollision(host, written, t)
    requires OnlyHostSigns(host, written, t)
    requires Accepts(host, t, 1, Tip(t.rows), true)
    requires k < |t.checkpoints| && 1 <= t.checkpoints[k].atSequence <= Tip(t.rows)
    ensures SamePrefix(host, written, t, t.checkpoints[k].atSequence)
  {
    AcceptedAnchor(host, t, k, true);
    var root := t.checkpoints[k].merkleRoot;
    var i :| 0 <= i < |written.checkpoints| && HexBytes(written.checkpoints[i].merkleRoot) == HexBytes(root);
    HonestAnchored(host, written, i);
    RootOfRehashedIsDigest(host, Anchored(written, i));
    RootOfRehashedIsDigest(host, Anchored(t, k));
    HexBytesInjective(written.checkpoints[i].merkleRoot, root);
    RootPinsPrefix(host, written, i, t, k, true);
  }

  /** Unforgeability, for the signatures stored in `t`. */
  ghost predicate OnlyHostSigns(host: Host, written: Table, t: Table) {
    forall k | 0 <= k < |t.checkpoints| && host.check(HexBytes(t.checkpoints[k].merkleRoot), t.checkpoints[k].signature) ::
      exists i :: 0 <= i < |written.checkpoints| && HexBytes(written.checkpoints[i].merkleRoot) == HexBytes(t.checkpoints[k].merkleRoot)
  }

  lemma {:induction false} RootOfRehashedIsDigest(host: Host, rows: seq<Row>)
    requires YieldsDigests(host.hash) && RehashedAll(host, rows).Done?
    ensures IsDigest(Root(host.hash, RehashedAll(host, rows).value))
  {
    RehashedAllIsHashes(host, rows);
    var hashes := RehashedAll(host, rows).value;
    if hashes != [] { TreeIsDigest(host.hash, hashes); }
  }

  /**
   * Tamper evidence from one checkpoint that still has the place and the root the host gave it, key
   * or no key: the rows up to it are the host's own exactly when the table still reaches that far.
   */
  lemma {:induction false} KeptCheckpointProvesPrefix(host: Host, written: Table, i: nat, t: Table, k: nat, withKey: bool)
    requires WellBehaved(host) && Honest(host, written) && InOrder(t) && NoCollision(host, written, t)
    requires i < |written.checkpoints| && k < |t.checkpoints|
    requires t.checkpoints[k].atSequence == written.checkpoints[i].atSequence
    requires t.checkpoints[k].merkleRoot == written.checkpoints[i].merkleRoot
    requires Accepts(host, t, 1, Tip(t.rows), withKey)
    ensures SamePrefix(host, written, t, t.checkpoints[k].atSequence) <==> t.checkpoints[k].atSequence <= Tip(t.rows)
  {
    assert HonestCheckpoint(host, written.rows, written.checkpoints, i);
    if t.checkpoints[k].atSequence <= Tip(t.rows) {
      RootPinsPrefix(host, written, i, t, k, withKey);
    } else {
      ChainNoLongerThanTip(host, t, withKey);
    }
  }

  lemma {:induction false} ChainNoLongerThanTip(host: Host, t: Table, withKey: bool)
    requires InOrder(t) && Accepts(host, t, 1, Tip(t.rows), withKey)
    ensures |ChainOf(t)| <= Max(0, Tip(t.rows))
  {
    if Tip(t.rows) >= 1 {
      AcceptsMeans(host, t, 1, Tip(t.rows), withKey);
      AcceptedChainIsLinked(host, t.rows);
    } else {
      var p, q := BetweenIsSlice(t.rows, 1, Tip(t.rows));
      var first := if p < |t.rows| then t.rows[p].sequence else 0;
    }
  }
}
