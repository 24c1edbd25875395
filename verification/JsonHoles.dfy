/**
 * Undefined values inside details (examples/hosts/sqlite/src/audit.ts): an object drops a member
 * that is undefined, but an array prints nothing for an undefined item, which no JSON text has in
 * that place. Exactly which values are printed as text that reads back.
 */
module JsonHoles {
  import opened Wrappers
  import opened Ordering
  import opened Json
  import opened JsonText
  import opened JsonRoundTrip

  /** Member names are distinct at every depth, as those of the host's objects are. */
  ghost predicate Named(v: Json) {
    match v
    case Arr(items) => forall i | 0 <= i < |items| :: Named(items[i])
    case Obj(ms) => Distinct(Keys(ms)) && forall i | 0 <= i < |ms| :: Named(ms[i].value)
    case _ => true
  }

  /** Nothing is undefined but members of objects, at any depth, and the one item of an array, which prints as none. */
  ghost predicate Whole(v: Json) {
    match v
    case Undefined => false
    case Arr(items) => items == [Undefined] || forall i | 0 <= i < |items| :: Whole(items[i])
    case Obj(ms) => forall i | 0 <= i < |ms| :: ms[i].value == Undefined || Whole(ms[i].value)
    case _ => true
  }

  // ------------------------------------------------- whole values print as storable ones

  /** The value with every array of one undefined item emptied. */
  function Filled(v: Json): Json
    decreases v, 0
  {
    match v
    case Arr(items) => if items == [Undefined] then Arr([]) else Arr(FilledItems(items))
    case Obj(ms) => Obj(FilledMembers(ms))
    case _ => v
  }

  function FilledItems(items: seq<Json>): (r: seq<Json>)
    ensures |r| == |items| && forall i {:trigger r[i]} | 0 <= i < |items| :: r[i] == Filled(items[i])
    decreases items, 0
  {
    if items == [] then [] else [Filled(items[0])] + FilledItems(items[1..])
  }

  function FilledMembers(ms: seq<Member>): (r: seq<Member>)
    ensures |r| == |ms| && forall i {:trigger r[i]} | 0 <= i < |ms| :: r[i] == Member(ms[i].key, Filled(ms[i].value))
    decreases ms, 0
  {
    if ms == [] then [] else [Member(ms[0].key, Filled(ms[0].value))] + FilledMembers(ms[1..])
  }

  lemma {:induction false} FilledKeys(ms: seq<Member>)
    ensures Keys(FilledMembers(ms)) == Keys(ms)
  {
    var f := FilledMembers(ms);
    forall i | 0 <= i < |ms| ensures Keys(f)[i] == Keys(ms)[i] {
      assert f[i].key == ms[i].key;
    }
  }

  lemma {:induction false} FilledDefined(ms: seq<Member>)
    ensures Defined(FilledMembers(ms)) == FilledMembers(Defined(ms))
  {
    if ms != [] {
      var first, d := ms[0], Defined(ms[1..]);
      FilledDefined(ms[1..]);
      assert FilledMembers(ms)[1..] == FilledMembers(ms[1..]);
      if first.value != Undefined {
        assert ([first] + d)[1..] == d;
        assert FilledMembers([first] + d) == [Member(first.key, Filled(first.value))] + FilledMembers(d);
      }
    }
  }

  lemma {:induction false} FilledSortedKeys(ms: seq<Member>)
    ensures SortedKeys(FilledMembers(ms)) == SortedKeys(ms)
  {
    FilledDefined(ms);
    FilledKeys(Defined(ms));
  }

  lemma {:induction false} FilledFind(ms: seq<Member>, k: Text)
    requires Has(ms, k)
    ensures Has(FilledMembers(ms), k) && FilledMembers(ms)[Find(FilledMembers(ms), k)].value == Filled(ms[Find(ms, k)].value)
  {
    var f := FilledMembers(ms);
    FilledKeys(ms);
    assert Has(f, k);
    var i, j := Find(ms, k), Find(f, k);
    assert f[i].key == ms[i].key && f[j].key == ms[j].key;
    assert i == j;
    assert f[i] == Member(ms[i].key, Filled(ms[i].value));
  }

  lemma {:induction false} FilledPrints(v: Json)
    ensures Canonicalize(Filled(v)) == Canonicalize(v)
    decreases v, 0
  {
    match v {
      case Arr(items) =>
        if items == [Undefined] {
          assert ItemsText(items) == [] && ItemsText([]) == [];
        } else {
          FilledItemsPrint(items);
        }
      case Obj(ms) =>
        FilledSortedKeys(ms);
        SortedKeysAreKeys(ms);
        FilledMembersPrint(ms, SortedKeys(ms));
      case _ =>
    }
  }

  lemma {:induction false} FilledItemsPrint(items: seq<Json>)
    ensures ItemsText(FilledItems(items)) == ItemsText(items)
    decreases items, 0
  {
    if items != [] {
      FilledPrints(items[0]);
      FilledItemsPrint(items[1..]);
      assert FilledItems(items)[1..] == FilledItems(items[1..]);
    }
  }

  lemma {:induction false} FilledMembersPrint(ms: seq<Member>, ks: seq<Text>)
    requires forall k | k in ks :: Has(ms, k)
    ensures forall k | k in ks :: Has(FilledMembers(ms), k)
    ensures MembersText(FilledMembers(ms), ks) == MembersText(ms, ks)
    decreases ms, 0, |ks|
  {
    if ks != [] {
      FilledFind(ms, ks[0]);
      FilledPrints(ms[Find(ms, ks[0])].value);
      FilledMembersPrint(ms, ks[1..]);
      assert forall k | k in ks :: k == ks[0] || k in ks[1..];
    }
  }

  lemma {:induction false} WholeIsStorable(v: Json, round: Number -> Number)
    requires Named(v) && Held(v, round) && Whole(v)
    ensures Storable(Filled(v)) && Held(Filled(v), round)
    decreases v
  {
    match v {
      case Arr(items) =>
        if items != [Undefined] {
          forall i | 0 <= i < |items| ensures Storable(FilledItems(items)[i]) && Held(FilledItems(items)[i], round) {
            WholeIsStorable(items[i], round);
          }
        }
      case Obj(ms) =>
        FilledKeys(ms);
        var fs := FilledMembers(ms);
        forall i | 0 <= i < |fs| ensures (fs[i].value == Undefined || Storable(fs[i].value)) && Held(fs[i].value, round) {
          if ms[i].value != Undefined { WholeIsStorable(ms[i].value, round); }
        }
      case _ =>
    }
  }

  /** A whole value is read back, with whatever may follow left unread. */
  lemma {:induction false} WholeReads(v: Json, rest: Text, round: Number -> Number)
    requires Named(v) && Held(v, round) && Whole(v) && Ends(rest)
    ensures ParseValue(Canonicalize(v) + rest, round) == Read(Norm(Filled(v)), rest)
  {
    WholeIsStorable(v, round);
    FilledPrints(v);
    PrintedReads(Filled(v), rest, round);
  }

  // ------------------------------------------------------------ others do not read

  /** No value starts at a comma or at the end of an array. */
  lemma {:induction false} NoValueAt(s: Text, round: Number -> Number)
    requires StartsWith(s, COMMA) || StartsWith(s, RBRACKET)
    ensures ParseValue(s, round).Fail? && SkipSpace(s) == s
  {
    assert T("null")[0] == 0x6E && T("true")[0] == 0x74 && T("false")[0] == 0x66;
  }

  lemma {:induction false} FirstItemFails(s: Text, round: Number -> Number)
    requires ParseValue(s, round).Fail?
    ensures ParseItems(s, round).Fail?
  {}

  lemma {:induction false} LaterItemFails(text: Text, v: Json, tail: Text, round: Number -> Number)
    requires ParseValue(text + ([COMMA] + tail), round) == Read(v, [COMMA] + tail)
    requires ParseItems(tail, round).Fail?
    ensures ParseItems(text + ([COMMA] + tail), round).Fail?
  {
    Tail(COMMA, tail);
  }

  /** An item that is undefined, or holds a hole, stops the reading of the items. */
  lemma {:induction false} ItemsFail(items: seq<Json>, rest: Text, round: Number -> Number)
    requires forall i | 0 <= i < |items| :: Named(items[i]) && Held(items[i], round)
    requires exists i :: 0 <= i < |items| && !Whole(items[i])
    ensures ParseItems(ItemsText(items) + ([RBRACKET] + rest), round).Fail?
    decreases items, 0
  {
    var end := [RBRACKET] + rest;
    var text := Canonicalize(items[0]);
    if |items| == 1 {
      if items[0] == Undefined {
        assert [] + end == end;
        NoValueAt(end, round);
      } else {
        HoleFails(items[0], end, round);
      }
      FirstItemFails(text + end, round);
    } else {
      var tail := ItemsText(items[1..]) + end;
      Separated(text, ItemsText(items[1..]), end);
      if Whole(items[0]) {
        WholeReads(items[0], [COMMA] + tail, round);
        var i :| 0 <= i < |items| && !Whole(items[i]);
        assert items[1..][i - 1] == items[i];
        ItemsFail(items[1..], rest, round);
        LaterItemFails(text, Norm(Filled(items[0])), tail, round);
      } else {
        if items[0] == Undefined {
          assert [] + ([COMMA] + tail) == [COMMA] + tail;
          NoValueAt([COMMA] + tail, round);
        } else {
          HoleFails(items[0], [COMMA] + tail, round);
        }
        FirstItemFails(text + ([COMMA] + tail), round);
      }
    }
  }

  lemma {:induction false} ArrayFails(items: seq<Json>, rest: Text, round: Number -> Number)
    requires forall i | 0 <= i < |items| :: Named(items[i]) && Held(items[i], round)
    requires !Whole(Arr(items))
    ensures ParseArray(Canonicalize(Arr(items)) + rest, round).Fail?
    decreases items, 1
  {
    var body := ItemsText(items) + ([RBRACKET] + rest);
    Enclosed(LBRACKET, ItemsText(items), RBRACKET, rest);
    ItemsFail(items, rest, round);
    if items[0] == Undefined {
      assert ItemsText(items) == [COMMA] + ItemsText(items[1..]);
      NoValueAt(body, round);
    } else {
      FirstUnit(items[0]);
      assert body[0] == Canonicalize(items[0])[0];
    }
  }

  /** One printed member whose value does not read. */
  lemma {:induction false} MemberFails(k: Text, v: Json, more: Text, round: Number -> Number)
    requires ParseValue(Canonicalize(v) + more, round).Fail?
    ensures ParseMember(MemberText(k, v) + more, round).Fail?
  {
    var afterKey := [COLON] + (Canonicalize(v) + more);
    Assoc(Quote(k) + [COLON], Canonicalize(v), more);
    Assoc(Quote(k), [COLON], Canonicalize(v) + more);
    QuoteReads(k, afterKey);
    Tail(COLON, Canonicalize(v) + more);
  }

  lemma {:induction false} FirstMemberFails(s: Text, read: seq<Member>, round: Number -> Number)
    requires ParseMember(s, round).Fail?
    ensures ParseMembers(s, read, round).Fail?
  {}

  lemma {:induction false} LaterMemberFails(s: Text, m: Member, read: seq<Member>, tail: Text, round: Number -> Number)
    requires ParseMember(s, round) == Read(m, [COMMA] + tail)
    requires ParseMembers(tail, Put(read, m.key, m.value), round).Fail?
    ensures ParseMembers(s, read, round).Fail?
  {
    Tail(COMMA, tail);
  }

  /** A member that holds a hole stops the reading of the members. */
  lemma {:induction false} MembersFail(ms: seq<Member>, ks: seq<Text>, read: seq<Member>, rest: Text, round: Number -> Number)
    requires forall i | 0 <= i < |ms| :: Named(ms[i].value) && Held(ms[i].value, round)
    requires forall k | k in ks :: Has(ms, k) && ms[Find(ms, k)].value != Undefined
    requires exists k :: k in ks && !Whole(ms[Find(ms, k)].value)
    ensures ParseMembers(MembersText(ms, ks) + ([RBRACE] + rest), read, round).Fail?
    decreases ms, 0, |ks|
  {
    var end := [RBRACE] + rest;
    var v := ms[Find(ms, ks[0])].value;
    MembersTextStep(ms, ks, end);
    if Whole(v) {
      var k :| k in ks && !Whole(ms[Find(ms, k)].value);
      assert k in ks[1..];
      var tail := MembersText(ms, ks[1..]) + end;
      var m := Member(ks[0], Norm(Filled(v)));
      WholeReads(v, [COMMA] + tail, round);
      MemberReadsAs(ks[0], v, m.value, [COMMA] + tail, round);
      MembersFail(ms, ks[1..], Put(read, m.key, m.value), rest, round);
      LaterMemberFails(MemberText(ks[0], v) + ([COMMA] + tail), m, read, tail, round);
    } else {
      var more := if |ks| == 1 then end else [COMMA] + (MembersText(ms, ks[1..]) + end);
      HoleFails(v, more, round);
      MemberFails(ks[0], v, more, round);
      FirstMemberFails(MemberText(ks[0], v) + more, read, round);
    }
  }

  lemma {:induction false} ObjectFails(ms: seq<Member>, rest: Text, round: Number -> Number)
    requires Named(Obj(ms)) && Held(Obj(ms), round) && !Whole(Obj(ms))
    ensures ParseObject(Canonicalize(Obj(ms)) + rest, round).Fail?
    decreases ms, 1, 0
  {
    var ks := SortedKeys(ms);
    SortedKeysHave(ms);
    SortedKeysDistinct(ms);
    SortedKeysAreKeys(ms);
    var i :| 0 <= i < |ms| && ms[i].value != Undefined && !Whole(ms[i].value);
    assert ms[i] in ms && ms[i].key in ks;
    FindDistinct(ms, i);
    MembersFail(ms, ks, [], rest, round);
    QuoteFirst(ms, ks);
    ObjectFailsInside(MembersText(ms, ks), rest, round);
  }

  lemma {:induction false} ObjectFailsInside(inner: Text, rest: Text, round: Number -> Number)
    requires StartsWith(inner, QUOTE) && ParseMembers(inner + ([RBRACE] + rest), [], round).Fail?
    ensures ParseObject([LBRACE] + inner + [RBRACE] + rest, round).Fail?
  {
    Enclosed(LBRACE, inner, RBRACE, rest);
    assert SkipSpace(inner + ([RBRACE] + rest)) == inner + ([RBRACE] + rest);
  }

  /** The text of a value with a hole, however deep, is not read, whatever follows. */
  lemma {:induction false} HoleFails(v: Json, rest: Text, round: Number -> Number)
    requires Named(v) && Held(v, round) && v != Undefined && !Whole(v)
    ensures ParseValue(Canonicalize(v) + rest, round).Fail?
    decreases v, 0
  {
    SpaceThenSame(v, rest);
    match v {
      case Arr(items) => ArrayFails(items, rest, round);
      case Obj(ms) => ObjectFails(ms, rest, round);
      case _ =>
    }
  }

  // -------------------------------------------------------------- exactly which read

  /** A value the host may pass: names are distinct, the numbers are ones it holds, and there is a value. */
  ghost predicate Passable(v: Json, round: Number -> Number) {
    v != Undefined && Named(v) && Held(v, round)
  }

  /** Details whose canonical text JSON.parse reads as a value that prints that text again. */
  ghost predicate ReadsBack(details: Json, round: Number -> Number) {
    var text := Canonicalize(details);
    details != Undefined && Parse(text, round).Some? && Canonicalize(Parse(text, round).value) == text
  }

  /** A value of the host reads back exactly if it is whole, and otherwise its text is refused. */
  lemma {:induction false} ReadsBackIffWhole(v: Json, round: Number -> Number)
    requires Passable(v, round)
    ensures ReadsBack(v, round) <==> Whole(v)
    ensures !Whole(v) ==> Parse(Canonicalize(v), round).None?
  {
    if Whole(v) {
      WholeIsStorable(v, round);
      FilledPrints(v);
      ParseOfCanonical(Filled(v), round);
    } else {
      HoleFails(v, [], round);
      assert Canonicalize(v) + [] == Canonicalize(v);
    }
  }

  /** An object with a member that is an array of something and undefined. */
  lemma {:induction false} HoleInMember(name: Text, x: Json, round: Number -> Number)
    requires Named(x) && Held(x, round)
    ensures var details := Obj([Member(name, Arr([x, Undefined]))]);
            !Whole(details) && Parse(Canonicalize(details), round).None?
  {
    var items := [x, Undefined];
    var details := Obj([Member(name, Arr(items))]);
    assert items[1] == Undefined && !Whole(items[1]) && items != [Undefined];
    assert !Whole(Arr(items)) && Named(Arr(items)) && Held(Arr(items), round);
    var ms := [Member(name, Arr(items))];
    assert ms[0].value == Arr(items) && Distinct(Keys(ms));
    ReadsBackIffWhole(details, round);
  }
}
