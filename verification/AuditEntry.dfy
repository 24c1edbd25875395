/**
 * One row of the audit log and the text its hash is taken over
 * (examples/hosts/sqlite/src/audit.ts): which fields that text commits to.
 */
module AuditEntry {
  import opened Wrappers
  import opened Ordering
  import opened Json
  import opened JsonText
  import opened JsonRoundTrip
  import opened JsonHoles
  import opened Merkle

  /** A row of table audit_log. */
  datatype Row = Row(
    sequence: int,
    occurredAt: Text,
    actor: Text,
    action: Text,
    target: Text,
    detailsJson: Text,
    prevHash: Option<Text>,
    entryHash: Text)

  /** An integer as the number the host prints for it. */
  function IntNumber(n: int): Number {
    Normalize(n < 0, NatDigits(if n < 0 then -n else n), |NatDigits(if n < 0 then -n else n)|)
  }

  function HashOrNull(h: Option<Text>): Json {
    if h.None? then Null else Str(h.value)
  }

  function EntryNames(): seq<Text> {
    [T("action"), T("actor"), T("atSequence"), T("details"), T("occurredAt"), T("prevHash"), T("target")]
  }

  function EntryValues(row: Row, details: Json): seq<Json> {
    [Str(row.action), Str(row.actor), Num(IntNumber(row.sequence)), details, Str(row.occurredAt),
     HashOrNull(row.prevHash), Str(row.target)]
  }

  /** The canonical text of the object literal entryHash builds. */
  function EntryText(row: Row, details: Json): Text {
    Canonicalize(Obj(Record(EntryNames(), EntryValues(row, details))))
  }

  /** The text a verifier hashes for a stored row; None where JSON.parse throws. */
  function StoredText(row: Row, round: Number -> Number): Option<Text> {
    var details := Parse(row.detailsJson, round);
    if details.None? then None else Some(EntryText(row, details.value))
  }

  // ---------------------------------------------------------------- integers

  function NumberValue(d: seq<Digit>, zeros: nat): nat {
    if zeros == 0 then DigitsValue(d) else 10 * NumberValue(d, zeros - 1)
  }

  /** A normalised integer spells its digits once the zeros are put back. */
  lemma {:induction false} NormalizedValue(neg: bool, d: seq<Digit>, p: nat)
    requires d != [] && d[0] != 0 && |d| <= p
    ensures var x := Normalize(neg, d, p);
            x.Decimal? && x.neg == neg && x.point == p && |x.digits| <= |d|
            && NumberValue(x.digits, p - |x.digits|) == NumberValue(d, p - |d|)
    decreases |d|
  {
    if d[|d| - 1] == 0 {
      NormalizedValue(neg, d[..|d| - 1], p);
      TrailingZero(d, p - |d|);
    }
  }

  lemma {:induction false} TrailingZero(d: seq<Digit>, zeros: nat)
    requires d != [] && d[|d| - 1] == 0
    ensures NumberValue(d[..|d| - 1], zeros + 1) == NumberValue(d, zeros)
  {
    if zeros > 0 { TrailingZero(d, zeros - 1); }
  }

  lemma {:induction false} IntNumberInjective(a: int, b: int)
    requires Norm(Num(IntNumber(a))) == Norm(Num(IntNumber(b)))
    ensures a == b
  {
    IntNumberValue(a);
    IntNumberValue(b);
  }

  lemma {:induction false} IntNumberValue(n: int)
    ensures var x := IntNumber(n);
            if n == 0 then x.Zero?
            else x.Decimal? && x.neg == (n < 0) && |x.digits| <= x.point
                 && n == (if x.neg then -1 else 1) * NumberValue(x.digits, x.point - |x.digits|)
  {
    var m := if n < 0 then -n else n;
    var d := NatDigits(m);
    NatDigitsValue(m);
    if n == 0 {
      assert d == [0];
      assert Normalize(false, [0], 1) == Normalize(false, [], 0);
    } else {
      NatDigitsPositive(m);
      NormalizedValue(n < 0, d, |d|);
    }
  }

  lemma {:induction false} NatDigitsPositive(n: nat)
    requires n > 0
    ensures NatDigits(n)[0] != 0
  {
    if n >= 10 { NatDigitsPositive(n / 10); }
  }

  // ------------------------------------------------------------------ fields

  lemma {:induction false} EntryNamesDistinct()
    ensures |EntryNames()| == 7 && Distinct(EntryNames())
  {
    var ks := EntryNames();
    assert |ks[0]| == 6 && |ks[1]| == 5 && |ks[2]| == 10 && |ks[3]| == 7 && |ks[4]| == 10 && |ks[5]| == 8 && |ks[6]| == 6;
    assert ks[0][0] == 0x61 && ks[6][0] == 0x74;
    assert ks[2][0] == 0x61 && ks[4][0] == 0x6F;
  }

  /** What the hash input fixes: every hashed column, and the details up to normal form. */
  ghost predicate SameEntry(x: Row, dx: Json, y: Row, dy: Json) {
    && x.sequence == y.sequence && x.occurredAt == y.occurredAt && x.actor == y.actor
    && x.action == y.action && x.target == y.target && x.prevHash == y.prevHash
    && Norm(dx) == Norm(dy)
  }

  lemma {:induction false} EntryTextBinds(x: Row, dx: Json, y: Row, dy: Json)
    requires Storable(dx) && Storable(dy)
    ensures EntryText(x, dx) == EntryText(y, dy) <==> SameEntry(x, dx, y, dy)
  {
    EntryNamesDistinct();
    EntryTextBindsOver(EntryNames(), x, dx, y, dy);
  }

  lemma {:induction false} EntryTextBindsOver(ks: seq<Text>, x: Row, dx: Json, y: Row, dy: Json)
    requires |ks| == 7 && Distinct(ks) && Storable(dx) && Storable(dy)
    ensures Canonicalize(Obj(Record(ks, EntryValues(x, dx)))) == Canonicalize(Obj(Record(ks, EntryValues(y, dy))))
       <==> SameEntry(x, dx, y, dy)
  {
    RecordTextBinds(ks, EntryValues(x, dx), EntryValues(y, dy));
    SameEntryPointwise(x, dx, y, dy);
  }

  lemma {:induction false} SameEntryPointwise(x: Row, dx: Json, y: Row, dy: Json)
    ensures SameEntry(x, dx, y, dy)
       <==> forall i | 0 <= i < 7 :: Norm(EntryValues(x, dx)[i]) == Norm(EntryValues(y, dy)[i])
  {
    var vx, vy := EntryValues(x, dx), EntryValues(y, dy);
    if forall i | 0 <= i < 7 :: Norm(vx[i]) == Norm(vy[i]) {
      assert Norm(vx[0]) == Norm(vy[0]) && Norm(vx[1]) == Norm(vy[1]) && Norm(vx[2]) == Norm(vy[2]) && Norm(vx[3]) == Norm(vy[3]);
      assert Norm(vx[4]) == Norm(vy[4]) && Norm(vx[5]) == Norm(vy[5]) && Norm(vx[6]) == Norm(vy[6]);
      IntNumberInjective(x.sequence, y.sequence);
    }
  }

  /** Entry texts open with a brace, so none is a concatenation of digests. */
  lemma {:induction false} EntryTextIsMarked(row: Row, details: Json)
    ensures EntryText(row, details) != [] && EntryText(row, details)[0] == LBRACE && !IsLowerHex(LBRACE)
  {
    ObjectOpens(Record(EntryNames(), EntryValues(row, details)));
  }

  // ------------------------------------------------------------ stored details

  /** Re-reading the details as they were stored gives the hash input exactly if they are whole, and else throws. */
  lemma {:induction false} StoredTextIsEntryText(row: Row, details: Json, round: Number -> Number)
    requires Passable(details, round) && row.detailsJson == Canonicalize(details)
    ensures StoredText(row, round) == if Whole(details) then Some(EntryText(row, details)) else None
  {
    ReadsBackIffWhole(details, round);
    if Whole(details) {
      ParsedIsStorable(row.detailsJson, round);
      SameDetailsSameText(row, Parse(row.detailsJson, round).value, details);
    }
  }

  lemma {:induction false} SameDetailsSameText(row: Row, a: Json, b: Json)
    requires a != Undefined && b != Undefined && Canonicalize(a) == Canonicalize(b)
    ensures EntryText(row, a) == EntryText(row, b)
  {
    EntryNamesDistinct();
    SameTextsSameRecord(EntryNames(), EntryValues(row, a), EntryValues(row, b));
  }

  /** Two stored rows with one hash input: the same entry. */
  ghost predicate SameStoredRow(x: Row, y: Row, round: Number -> Number) {
    && Parse(x.detailsJson, round).Some? && Parse(y.detailsJson, round).Some?
    && SameEntry(x, Parse(x.detailsJson, round).value, y, Parse(y.detailsJson, round).value)
  }

  lemma {:induction false} StoredTextBinds(x: Row, y: Row, round: Number -> Number)
    requires StoredText(x, round).Some? && StoredText(x, round) == StoredText(y, round)
    ensures SameStoredRow(x, y, round)
  {
    ParsedIsStorable(x.detailsJson, round);
    ParsedIsStorable(y.detailsJson, round);
    EntryTextBinds(x, Parse(x.detailsJson, round).value, y, Parse(y.detailsJson, round).value);
  }

  /**
   * The stored text of the details is not itself hashed. Given that a row carries the
   * entry of an honest one, the text is the honest text exactly when it is canonical.
   */
  lemma {:induction false} DetailsTextIffCanonical(x: Row, y: Row, details: Json, round: Number -> Number)
    requires Passable(details, round) && y.detailsJson == Canonicalize(details)
    requires SameStoredRow(x, y, round)
    ensures x.detailsJson == y.detailsJson
       <==> x.detailsJson == Canonicalize(Parse(x.detailsJson, round).value)
  {
    ReadsBackIffWhole(details, round);
    ParsedIsStorable(x.detailsJson, round);
    ParsedIsStorable(y.detailsJson, round);
    SameTextSameNorm(Parse(x.detailsJson, round).value, Parse(y.detailsJson, round).value);
  }

  // ------------------------------------------------- what the hash input reads as

  /** The member of an object under a name. */
  function Field(v: Json, name: Text): Option<Json> {
    if v.Obj? && Has(v.members, name) then Some(v.members[Find(v.members, name)].value) else None
  }

  /** The number is the integer `n`. */
  predicate IsInteger(x: Number, n: int) {
    match x
    case Zero(_) => n == 0
    case Decimal(neg, d, p) => |d| <= p && n == (if neg then -1 else 1) * NumberValue(d, p - |d|)
    case Infinite(_) => false
  }

  const ACTION: Text := T("action")
  const ACTOR: Text := T("actor")
  const TARGET: Text := T("target")
  const OCCURRED_AT: Text := T("occurredAt")
  const PREV_HASH: Text := T("prevHash")
  const DETAILS: Text := T("details")
  const AT_SEQUENCE: Text := T("atSequence")

  predicate IsIntegerField(v: Option<Json>, n: int) {
    v.Some? && v.value.Num? && IsInteger(v.value.x, n)
  }

  /** An object of seven members, which hold the columns of the row under their own names, and the details. */
  ghost predicate ReadsAsRow(v: Json, row: Row, details: Json) {
    && v.Obj? && |v.members| == 7
    && Field(v, ACTION) == Some(Str(row.action))
    && Field(v, ACTOR) == Some(Str(row.actor))
    && Field(v, TARGET) == Some(Str(row.target))
    && Field(v, OCCURRED_AT) == Some(Str(row.occurredAt))
    && Field(v, PREV_HASH) == Some(if row.prevHash.None? then Null else Str(row.prevHash.value))
    && Field(v, DETAILS) == Some(details)
    && IsIntegerField(Field(v, AT_SEQUENCE), row.sequence)
  }

  /** The text is that of such an object, with the details in their normal form. */
  ghost predicate ReadsAs(text: Text, row: Row, details: Json, round: Number -> Number) {
    Parse(text, round).Some? && ReadsAsRow(Parse(text, round).value, row, Norm(Filled(details)))
  }

  /** An object of whole values under distinct names reads back with each under its name. */
  lemma {:induction false} RecordReads(ks: seq<Text>, vs: seq<Json>, round: Number -> Number)
    requires |ks| == |vs| && Distinct(ks)
    requires forall i | 0 <= i < |vs| :: Named(vs[i]) && Held(vs[i], round) && Whole(vs[i])
    ensures var read := Parse(Canonicalize(Obj(Record(ks, vs))), round);
            && read.Some? && read.value.Obj? && |read.value.members| == |ks|
            && forall i | 0 <= i < |ks| :: Field(read.value, ks[i]) == Some(Norm(Filled(vs[i])))
  {
    var ms := Record(ks, vs);
    assert Keys(ms) == ks;
    forall i | 0 <= i < |ms| ensures Named(ms[i].value) && Held(ms[i].value, round) && Whole(ms[i].value) { assert ms[i].value == vs[i]; }
    assert Named(Obj(ms)) && Held(Obj(ms), round) && Whole(Obj(ms));
    WholeIsStorable(Obj(ms), round);
    FilledPrints(Obj(ms));
    ParseOfCanonical(Filled(Obj(ms)), round);
    RecordNorm(ks, vs);
    forall i | 0 <= i < |ks| ensures Field(Norm(Filled(Obj(ms))), ks[i]) == Some(Norm(Filled(vs[i]))) {
      RecordNormField(ks, vs, ms, i);
    }
  }

  /** The normal form of such an object. */
  lemma {:induction false} RecordNorm(ks: seq<Text>, vs: seq<Json>)
    requires |ks| == |vs| && Distinct(ks) && forall i | 0 <= i < |vs| :: vs[i] != Undefined
    ensures var n := Norm(Filled(Obj(Record(ks, vs)))); n.Obj? && |n.members| == |ks|
  {
    var fs := FilledMembers(Record(ks, vs));
    RecordNames(ks, vs);
    FilledSortedKeys(Record(ks, vs));
    SortedKeysAreKeys(fs);
    SameSize(SortedKeys(fs), ks);
  }

  lemma {:induction false} RecordNormField(ks: seq<Text>, vs: seq<Json>, ms: seq<Member>, i: nat)
    requires |ks| == |vs| && Distinct(ks) && i < |ks| && forall j | 0 <= j < |vs| :: vs[j] != Undefined
    requires ms == Record(ks, vs)
    ensures Field(Norm(Filled(Obj(ms))), ks[i]) == Some(Norm(Filled(vs[i])))
  {
    RecordHas(ks, vs, i);
    FilledSortedKeys(ms);
    RecordFind(ks, vs, i);
    FilledFind(ms, ks[i]);
    SortedField(FilledMembers(ms), ks[i]);
  }

  lemma {:induction false} RecordHas(ks: seq<Text>, vs: seq<Json>, i: nat)
    requires |ks| == |vs| && i < |ks| && forall j | 0 <= j < |vs| :: vs[j] != Undefined
    ensures ks[i] in SortedKeys(Record(ks, vs))
  {
    RecordNames(ks, vs);
    assert ks[i] in multiset(ks);
  }

  lemma {:induction false} SortedField(fs: seq<Member>, k: Text)
    requires k in SortedKeys(fs)
    ensures Has(fs, k) && Field(Norm(Obj(fs)), k) == Some(Norm(fs[Find(fs, k)].value))
  {
    SortedKeysAreKeys(fs);
    NormField(fs, SortedKeys(fs), k);
  }

  lemma {:induction false} NormField(fs: seq<Member>, sorted: seq<Text>, k: Text)
    requires k in sorted && forall x | x in sorted :: Has(fs, x)
    ensures Field(Obj(NormMembers(fs, sorted)), k) == Some(Norm(fs[Find(fs, k)].value))
  {
    var ns := NormMembers(fs, sorted);
    assert Keys(ns) == sorted;
    var j := Find(ns, k);
    assert ns[j].key == sorted[j] == k;
  }

  lemma {:induction false} ValuesOfRow(row: Row, details: Json, round: Number -> Number)
    requires Passable(details, round) && Whole(details) && Held(Num(IntNumber(row.sequence)), round)
    ensures var vs := EntryValues(row, details);
            forall i | 0 <= i < |vs| :: Named(vs[i]) && Held(vs[i], round) && Whole(vs[i])
  {}

  lemma {:induction false} IntegerReads(n: int)
    ensures Norm(Filled(Num(IntNumber(n)))).Num? && IsInteger(Norm(Filled(Num(IntNumber(n)))).x, n)
  {
    IntNumberValue(n);
  }

  /** What is hashed for a row reads back as the row. */
  lemma {:induction false} EntryTextReads(row: Row, details: Json, round: Number -> Number)
    requires Passable(details, round) && Whole(details) && Held(Num(IntNumber(row.sequence)), round)
    ensures ReadsAs(EntryText(row, details), row, details, round)
  {
    EntryNamesDistinct();
    ValuesOfRow(row, details, round);
    RecordReads(EntryNames(), EntryValues(row, details), round);
    IntegerReads(row.sequence);
    RowFromFields(Parse(EntryText(row, details), round).value, EntryNames(), EntryValues(row, details), row, details);
  }

  lemma {:induction false} RowFromFields(v: Json, ks: seq<Text>, vs: seq<Json>, row: Row, details: Json)
    requires ks == EntryNames() && vs == EntryValues(row, details) && v.Obj? && |v.members| == 7
    requires forall i | 0 <= i < 7 :: Field(v, ks[i]) == Some(Norm(Filled(vs[i])))
    requires IsIntegerField(Some(Norm(Filled(Num(IntNumber(row.sequence))))), row.sequence)
    ensures ReadsAsRow(v, row, Norm(Filled(details)))
  {
    assert ks[0] == ACTION && ks[1] == ACTOR && ks[2] == AT_SEQUENCE && ks[3] == DETAILS;
    assert ks[4] == OCCURRED_AT && ks[5] == PREV_HASH && ks[6] == TARGET;
  }

  /** So does the text a verifier hashes for a stored row, with the details as they are read. */
  lemma {:induction false} StoredTextReads(row: Row, round: Number -> Number)
    requires StoredText(row, round).Some? && Held(Num(IntNumber(row.sequence)), round)
    requires Held(Parse(row.detailsJson, round).value, round)
    ensures ReadsAs(StoredText(row, round).value, row, Parse(row.detailsJson, round).value, round)
  {
    var details := Parse(row.detailsJson, round).value;
    ParsedIsStorable(row.detailsJson, round);
    StorableIsWhole(details);
    EntryTextReads(row, details, round);
  }

  lemma {:induction false} StorableIsWhole(v: Json)
    requires Storable(v)
    ensures Named(v) && Whole(v)
  {
    match v {
      case Arr(items) =>
        forall i | 0 <= i < |items| ensures Named(items[i]) && Whole(items[i]) { StorableIsWhole(items[i]); }
      case Obj(ms) =>
        forall i | 0 <= i < |ms| ensures Named(ms[i].value) && (ms[i].value == Undefined || Whole(ms[i].value)) {
          if ms[i].value != Undefined { StorableIsWhole(ms[i].value); }
        }
      case _ =>
    }
  }
}
