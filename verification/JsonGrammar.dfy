/**
 * The grammar of RFC 8259 as derivations: what a text may be made of and what it then means, with
 * every choice of spelling. The reader of JsonText accepts exactly the texts that have a derivation.
 */
module JsonGrammar {
  import opened Wrappers
  import opened Ordering
  import opened Json
  import opened JsonText
  import opened JsonRoundTrip

  datatype Exponent = Exponent(letter: Unit, sign: Text, digits: seq<Digit>)

  datatype Numeral = Numeral(neg: bool, whole: seq<Digit>, frac: seq<Digit>, exponent: Option<Exponent>)

  /** A unit as it is, one of the two-unit escapes, or four hexadecimal digits. */
  datatype Char = Plain(u: Unit) | Short(k: nat) | Long(a: Unit, b: Unit, c: Unit, d: Unit)

  datatype Tree =
    | Word(v: Json)
    | Number(n: Numeral)
    | Quoted(chars: seq<Char>)
    | List(blank: Text, items: seq<Item>)
    | Record(blank: Text, pairs: seq<Pair>)

  /** A value between white space. */
  datatype Item = Item(before: Text, tree: Tree, after: Text)

  /** A name, the white space around it, and after the colon a value. */
  datatype Pair = Pair(before: Text, name: seq<Char>, colon: Text, item: Item)

  // --------------------------------------------------------------- what may be written

  predicate Blank(s: Text) {
    forall i | 0 <= i < |s| :: s[i] == 0x20 || s[i] == 0x09 || s[i] == 0x0A || s[i] == 0x0D
  }

  /** The letters of the two-unit escapes, and what each stands for. */
  const LETTERS: Text := T("\"\\/bfnrt")
  const STAND_FOR: Text := [0x22, 0x5C, 0x2F, 0x08, 0x0C, 0x0A, 0x0D, 0x09]

  predicate IsHex(u: Unit) { 0x30 <= u < 0x3A || 0x41 <= u < 0x47 || 0x61 <= u < 0x67 }

  predicate ExponentFits(e: Exponent) {
    (e.letter == 0x65 || e.letter == 0x45) && (e.sign == [] || e.sign == [PLUS] || e.sign == [MINUS]) && e.digits != []
  }

  predicate NumeralFits(n: Numeral) {
    n.whole != [] && (n.whole[0] == 0 ==> |n.whole| == 1) && (n.exponent.Some? ==> ExponentFits(n.exponent.value))
  }

  predicate CharFits(c: Char) {
    match c
    case Plain(u) => u >= 0x20 && u != QUOTE && u != BACKSLASH
    case Short(k) => k < 8
    case Long(a, b, c, d) => IsHex(a) && IsHex(b) && IsHex(c) && IsHex(d)
  }

  predicate CharsFit(cs: seq<Char>) { forall i | 0 <= i < |cs| :: CharFits(cs[i]) }

  ghost predicate Fits(t: Tree) {
    match t
    case Word(v) => v == Null || v == Bool(true) || v == Bool(false)
    case Number(n) => NumeralFits(n)
    case Quoted(cs) => CharsFit(cs)
    case List(blank, items) => Blank(blank) && forall i | 0 <= i < |items| :: ItemFits(items[i])
    case Record(blank, pairs) => Blank(blank) && forall i | 0 <= i < |pairs| :: PairFits(pairs[i])
  }

  ghost predicate ItemFits(x: Item) { Blank(x.before) && Fits(x.tree) && Blank(x.after) }

  ghost predicate PairFits(p: Pair) { Blank(p.before) && CharsFit(p.name) && Blank(p.colon) && ItemFits(p.item) }

  // ------------------------------------------------------------------ how it is written

  function ExponentSpelled(e: Option<Exponent>): Text {
    if e.None? then [] else [e.value.letter] + (e.value.sign + DigitText(e.value.digits))
  }

  function NumeralSpelled(n: Numeral): Text {
    SignText(n.neg) + (DigitText(n.whole) + (FractionText(n.frac) + ExponentSpelled(n.exponent)))
  }

  function CharSpelled(c: Char): Text {
    match c
    case Plain(u) => [u]
    case Short(k) => if k < 8 then [BACKSLASH, LETTERS[k]] else []
    case Long(a, b, c, d) => [BACKSLASH, LOWER_U, a, b, c, d]
  }

  /** The characters and the quote that closes them. */
  function CharsSpelled(cs: seq<Char>): Text {
    if cs == [] then [QUOTE] else CharSpelled(cs[0]) + CharsSpelled(cs[1..])
  }

  function Spelled(t: Tree): Text
    decreases t, 0
  {
    match t
    case Word(v) => if v == Null then T("null") else if v == Bool(true) then T("true") else T("false")
    case Number(n) => NumeralSpelled(n)
    case Quoted(cs) => [QUOTE] + CharsSpelled(cs)
    case List(blank, items) => [LBRACKET] + if items == [] then blank + [RBRACKET] else ItemsSpelled(items)
    case Record(blank, pairs) => [LBRACE] + if pairs == [] then blank + [RBRACE] else PairsSpelled(pairs)
  }

  function ItemSpelled(x: Item): Text
    decreases x, 0
  {
    x.before + (Spelled(x.tree) + x.after)
  }

  /** Items with commas between them, and the bracket that closes them. */
  function ItemsSpelled(items: seq<Item>): Text
    requires items != []
    decreases items, 0
  {
    ItemSpelled(items[0]) + if |items| == 1 then [RBRACKET] else [COMMA] + ItemsSpelled(items[1..])
  }

  function PairSpelled(p: Pair): Text
    decreases p, 0
  {
    p.before + ([QUOTE] + (CharsSpelled(p.name) + (p.colon + ([COLON] + ItemSpelled(p.item)))))
  }

  function PairsSpelled(pairs: seq<Pair>): Text
    requires pairs != []
    decreases pairs, 0
  {
    PairSpelled(pairs[0]) + if |pairs| == 1 then [RBRACE] else [COMMA] + PairsSpelled(pairs[1..])
  }

  // ---------------------------------------------------------------------- what it means

  function ExponentValue(e: Option<Exponent>): int {
    if e.None? then 0
    else if e.value.sign == [MINUS] then -(DigitsValue(e.value.digits) as int)
    else DigitsValue(e.value.digits)
  }

  function NumeralValue(n: Numeral): Number {
    Normalize(n.neg, n.whole + n.frac, |n.whole| + ExponentValue(n.exponent))
  }

  function CharValue(c: Char): Unit
    requires CharFits(c)
  {
    match c
    case Plain(u) => u
    case Short(k) => STAND_FOR[k]
    case Long(a, b, c, d) => (((HexValue(a) * 16 + HexValue(b)) * 16 + HexValue(c)) * 16 + HexValue(d)) as Unit
  }

  function Units(cs: seq<Char>): Text
    requires CharsFit(cs)
  {
    if cs == [] then [] else [CharValue(cs[0])] + Units(cs[1..])
  }

  ghost function Meaning(t: Tree, round: Number -> Number): Json
    requires Fits(t)
    decreases t, 0
  {
    match t
    case Word(v) => v
    case Number(n) => Num(round(NumeralValue(n)))
    case Quoted(cs) => Str(Units(cs))
    case List(_, items) => Arr(Meanings(items, round))
    case Record(_, pairs) => Obj(Collected([], pairs, round))
  }

  ghost function Meanings(items: seq<Item>, round: Number -> Number): seq<Json>
    requires forall i | 0 <= i < |items| :: ItemFits(items[i])
    decreases items, 0
  {
    if items == [] then []
    else
      assert ItemFits(items[0]);
      [Meaning(items[0].tree, round)] + Meanings(items[1..], round)
  }

  /** Members taken in one after the other, a repeated name in the place of the first. */
  ghost function Collected(read: seq<Member>, pairs: seq<Pair>, round: Number -> Number): seq<Member>
    requires forall i | 0 <= i < |pairs| :: PairFits(pairs[i])
    decreases pairs, 0
  {
    if pairs == [] then read
    else
      assert PairFits(pairs[0]) && ItemFits(pairs[0].item);
      Collected(Put(read, Units(pairs[0].name), Meaning(pairs[0].item.tree, round)), pairs[1..], round)
  }

  // ------------------------------------------------------------------ every derivation is read

  lemma {:induction false} SkipsBlank(blank: Text, s: Text)
    requires Blank(blank) && (s == [] || !IsSpace(s[0]))
    ensures SkipSpace(blank + s) == s
  {
    if blank == [] {
      assert blank + s == s;
    } else {
      assert (blank + s)[1..] == blank[1..] + s;
      SkipsBlank(blank[1..], s);
    }
  }

  /** What may come after a value in a text that goes on: white space, a comma or a closing bracket. */
  predicate Follows(rest: Text) { rest == [] || IsSpace(rest[0]) || Ends(rest) }

  lemma {:induction false} ExponentIsRead(e: Option<Exponent>, rest: Text)
    requires (e.Some? ==> ExponentFits(e.value)) && Follows(rest)
    ensures ParseExponent(ExponentSpelled(e) + rest) == Read(ExponentValue(e), rest)
    ensures AfterDigits(ExponentSpelled(e) + rest)
  {
    if e.None? {
      assert ExponentSpelled(e) + rest == rest;
    } else {
      var x := e.value;
      var text := DigitText(x.digits) + rest;
      ThreeParts([x.letter], x.sign, DigitText(x.digits), rest);
      SplitPrinted(x.digits, rest);
      DigitsFirst(x.digits, rest);
      LetterIsRead(x.letter, x.sign, x.digits, text, rest);
      Tail(x.letter, x.sign + text);
    }
  }

  lemma {:induction false} ThreeParts(a: Text, b: Text, c: Text, d: Text)
    ensures a + (b + c) + d == a + (b + (c + d))
  {
    Assoc(a, b + c, d);
    Assoc(b, c, d);
  }

  lemma {:induction false} LetterIsRead(letter: Unit, sign: Text, digits: seq<Digit>, text: Text, rest: Text)
    requires (letter == 0x65 || letter == 0x45) && (sign == [] || sign == [PLUS] || sign == [MINUS]) && digits != []
    requires SplitDigits(text) == (digits, rest) && text != [] && text[0] != PLUS && text[0] != MINUS
    ensures ParseExponent([letter] + (sign + text)) == Read(if sign == [MINUS] then -(DigitsValue(digits) as int) else DigitsValue(digits), rest)
  {
    var s := [letter] + (sign + text);
    assert s[1..] == sign + text;
    if sign == [] { assert s[1..] == text; } else { assert s[2..] == text; }
  }

  lemma {:induction false} DigitsFirst(d: seq<Digit>, rest: Text)
    requires d != []
    ensures var s := DigitText(d) + rest; s != [] && s[0] == DigitUnit(d[0]) && IsDigit(s[0]) && s[0] != PLUS && s[0] != MINUS
  {}

  lemma {:induction false} NumeralIsRead(n: Numeral, rest: Text)
    requires NumeralFits(n) && Follows(rest)
    ensures ParseNumber(NumeralSpelled(n) + rest) == Read(NumeralValue(n), rest)
  {
    NumeralSplits(n, rest);
    ExponentIsRead(n.exponent, rest);
    PartsAreRead(n, ExponentSpelled(n.exponent) + rest, rest);
  }

  lemma {:induction false} NumeralSplits(n: Numeral, rest: Text)
    ensures NumeralSpelled(n) + rest
         == SignText(n.neg) + (DigitText(n.whole) + (FractionText(n.frac) + (ExponentSpelled(n.exponent) + rest)))
  {
    var frac, exponent := FractionText(n.frac), ExponentSpelled(n.exponent);
    ThreeParts(SignText(n.neg), DigitText(n.whole), frac + exponent, rest);
    Assoc(frac, exponent, rest);
  }

  lemma {:induction false} PartsAreRead(n: Numeral, tail: Text, rest: Text)
    requires NumeralFits(n) && AfterDigits(tail) && ParseExponent(tail) == Read(ExponentValue(n.exponent), rest)
    ensures ParseNumber(SignText(n.neg) + (DigitText(n.whole) + (FractionText(n.frac) + tail))) == Read(NumeralValue(n), rest)
  {
    NumberFromParts(n.neg, n.whole, n.frac, tail, ExponentValue(n.exponent), rest);
  }

  lemma {:induction false} NumeralFirst(n: Numeral)
    requires NumeralFits(n)
    ensures NumeralSpelled(n) != [] && (IsDigit(NumeralSpelled(n)[0]) || NumeralSpelled(n)[0] == MINUS)
  {
    DigitsFirst(n.whole, FractionText(n.frac) + ExponentSpelled(n.exponent));
  }

  lemma {:induction false} ShortIsRead(k: nat)
    requires k < 8
    ensures SimpleEscape(LETTERS[k]) == STAND_FOR[k] as int
  {
    var text := "\"\\/bfnrt";
    assert text[0] == '\"' && text[1] == '\\' && text[2] == '/' && text[3] == 'b';
    assert text[4] == 'f' && text[5] == 'n' && text[6] == 'r' && text[7] == 't';
  }

  lemma {:induction false} HexIffValue(u: Unit)
    ensures IsHex(u) <==> HexValue(u) >= 0
  {}

  /** The digits are 0 to 9, a to f and A to F. */
  lemma {:induction false} HexDigitsSpelled(u: Unit)
    ensures var lower, upper := T("0123456789abcdef"), T("0123456789ABCDEF");
            && (forall k | 0 <= k < 16 :: HexValue(lower[k]) == k && HexValue(upper[k]) == k)
            && (HexValue(u) >= 0 ==> lower[HexValue(u)] == u || upper[HexValue(u)] == u)
  {
    var lower, upper := T("0123456789abcdef"), T("0123456789ABCDEF");
    assert "0123456789abcdef"[0] == '0' && "0123456789ABCDEF"[0] == '0';
  }

  lemma {:induction false} LongIsRead(a: Unit, b: Unit, c: Unit, d: Unit)
    requires CharFits(Long(a, b, c, d))
    ensures HexQuad(a, b, c, d) == CharValue(Long(a, b, c, d)) as int
  {
    HexIffValue(a);
    HexIffValue(b);
    HexIffValue(c);
    HexIffValue(d);
  }

  lemma {:induction false} CharIsRead(c: Char, rest: Text)
    requires CharFits(c)
    ensures ParseChars(CharSpelled(c) + rest) == Push(CharValue(c), ParseChars(rest))
  {
    var s := CharSpelled(c) + rest;
    match c {
      case Plain(u) => assert s[1..] == rest;
      case Short(k) =>
        ShortIsRead(k);
        assert s[2..] == rest;
      case Long(a, b, c, d) =>
        LongIsRead(a, b, c, d);
        assert s[6..] == rest;
    }
  }

  lemma {:induction false} CharsAreRead(cs: seq<Char>, rest: Text)
    requires CharsFit(cs)
    ensures ParseChars(CharsSpelled(cs) + rest) == Read(Units(cs), rest)
  {
    if cs == [] {
      assert (CharsSpelled(cs) + rest)[1..] == rest;
    } else {
      CharsAreRead(cs[1..], rest);
      Assoc(CharSpelled(cs[0]), CharsSpelled(cs[1..]), rest);
      CharIsRead(cs[0], CharsSpelled(cs[1..]) + rest);
    }
  }

  lemma {:induction false} WordIsRead(v: Json, rest: Text)
    requires v == Null || v == Bool(true) || v == Bool(false)
    ensures ParseWord(Spelled(Word(v)) + rest) == Read(v, rest)
  {
    var s := Spelled(Word(v)) + rest;
    if v == Null {
      assert T("null") <= s && s[4..] == rest;
    } else if v == Bool(true) {
      assert !(T("null") <= s) by { assert s[0] == 0x74 && T("null")[0] == 0x6E; }
      assert T("true") <= s && s[4..] == rest;
    } else {
      assert !(T("null") <= s) && !(T("true") <= s) by {
        assert s[0] == 0x66 && T("null")[0] == 0x6E && T("true")[0] == 0x74;
      }
      assert T("false") <= s && s[5..] == rest;
    }
  }

  /** The first unit of a value: no white space, no comma and no closing bracket. */
  predicate Opens(u: Unit) { !IsSpace(u) && u != COMMA && u != COLON && u != RBRACKET && u != RBRACE }

  lemma {:induction false} TreeFirst(t: Tree)
    requires Fits(t)
    ensures Spelled(t) != [] && Opens(Spelled(t)[0])
  {
    match t {
      case Word(v) => assert T("null")[0] == 0x6E && T("true")[0] == 0x74 && T("false")[0] == 0x66;
      case Number(n) => NumeralFirst(n);
      case _ =>
    }
  }

  /** White space in front of a value makes no difference. */
  lemma {:induction false} BlankBefore(blank: Text, s: Text, round: Number -> Number)
    requires Blank(blank) && s != [] && Opens(s[0])
    ensures SkipSpace(blank + s) == s
    ensures ParseValue(blank + s, round) == ParseValue(s, round)
  {
    SkipsBlank(blank, s);
    SkipsBlank([], s);
  }

  lemma {:induction false} TreeIsRead(t: Tree, rest: Text, round: Number -> Number)
    requires Fits(t) && Follows(rest)
    ensures ParseValue(Spelled(t) + rest, round) == Read(Meaning(t, round), rest)
    decreases t, 0
  {
    TreeFirst(t);
    match t {
      case Word(v) => WordChosen(v, rest, round);
      case Number(n) => NumberChosen(n, rest, round);
      case Quoted(cs) =>
        CharsAreRead(cs, rest);
        Assoc([QUOTE], CharsSpelled(cs), rest);
        Tail(QUOTE, CharsSpelled(cs) + rest);
      case List(blank, items) => ListIsRead(blank, items, rest, round);
      case Record(blank, pairs) => RecordIsRead(blank, pairs, rest, round);
    }
  }

  lemma {:induction false} ListIsRead(blank: Text, items: seq<Item>, rest: Text, round: Number -> Number)
    requires Blank(blank) && forall i | 0 <= i < |items| :: ItemFits(items[i])
    ensures ParseArray(Spelled(List(blank, items)) + rest, round) == Read(Arr(Meanings(items, round)), rest)
    decreases items, 2
  {
    if items == [] {
      EmptyIsRead(LBRACKET, blank, RBRACKET, rest);
    } else {
      ItemsAreRead(items, rest, round);
      ItemsOpen(items, rest);
      Assoc([LBRACKET], ItemsSpelled(items), rest);
      Tail(LBRACKET, ItemsSpelled(items) + rest);
    }
  }

  lemma {:induction false} RecordIsRead(blank: Text, pairs: seq<Pair>, rest: Text, round: Number -> Number)
    requires Blank(blank) && forall i | 0 <= i < |pairs| :: PairFits(pairs[i])
    ensures ParseObject(Spelled(Record(blank, pairs)) + rest, round) == Read(Obj(Collected([], pairs, round)), rest)
    decreases pairs, 2
  {
    if pairs == [] {
      EmptyIsRead(LBRACE, blank, RBRACE, rest);
    } else {
      PairsAreRead([], pairs, rest, round);
      PairsOpen(pairs, rest);
      Assoc([LBRACE], PairsSpelled(pairs), rest);
      Tail(LBRACE, PairsSpelled(pairs) + rest);
    }
  }

  lemma {:induction false} WordChosen(v: Json, rest: Text, round: Number -> Number)
    requires v == Null || v == Bool(true) || v == Bool(false)
    ensures ParseValue(Spelled(Word(v)) + rest, round) == Read(v, rest)
  {
    WordIsRead(v, rest);
    assert T("null")[0] == 0x6E && T("true")[0] == 0x74 && T("false")[0] == 0x66;
  }

  lemma {:induction false} NumberChosen(n: Numeral, rest: Text, round: Number -> Number)
    requires NumeralFits(n) && Follows(rest)
    ensures ParseValue(NumeralSpelled(n) + rest, round) == Read(Num(round(NumeralValue(n))), rest)
  {
    NumeralIsRead(n, rest);
    NumeralFirst(n);
    DigitChosen(NumeralSpelled(n) + rest, round);
  }

  lemma {:induction false} DigitChosen(s: Text, round: Number -> Number)
    requires s != [] && (IsDigit(s[0]) || s[0] == MINUS)
    ensures var r := ParseNumber(s);
            ParseValue(s, round) == if r.Fail? then Fail else Read(Num(round(r.value)), r.rest)
  {}

  lemma {:induction false} EmptyIsRead(open: Unit, blank: Text, close: Unit, rest: Text)
    requires Blank(blank) && !IsSpace(close)
    ensures var s := [open] + (blank + [close]) + rest;
            s[0] == open && SkipSpace(s[1..]) == [close] + rest && SkipSpace(s[1..])[1..] == rest
  {
    var s := [open] + (blank + [close]) + rest;
    assert s[1..] == blank + ([close] + rest);
    SkipsBlank(blank, [close] + rest);
  }

  /** A value between white space, in front of a comma, a closing bracket or the end. */
  lemma {:induction false} ItemIsRead(x: Item, rest: Text, round: Number -> Number)
    requires ItemFits(x) && Ends(rest)
    ensures ParseValue(ItemSpelled(x) + rest, round) == Read(Meaning(x.tree, round), x.after + rest)
    ensures SkipSpace(x.after + rest) == rest
    decreases x, 1
  {
    ThreeParts(x.before, Spelled(x.tree), x.after, rest);
    TreeFirst(x.tree);
    BlankBefore(x.before, Spelled(x.tree) + (x.after + rest), round);
    AfterFollows(x.after, rest);
    TreeIsRead(x.tree, x.after + rest, round);
    SkipsBlank(x.after, rest);
  }

  lemma {:induction false} AfterFollows(after: Text, rest: Text)
    requires Blank(after) && Ends(rest)
    ensures Follows(after + rest)
  {
    if after == [] { assert after + rest == rest; }
  }

  /** The text of the items after the first, from its comma or closing bracket on. */
  function MoreItems(items: seq<Item>): Text
    requires items != []
  {
    if |items| == 1 then [RBRACKET] else [COMMA] + ItemsSpelled(items[1..])
  }

  lemma {:induction false} ItemsAreRead(items: seq<Item>, rest: Text, round: Number -> Number)
    requires items != [] && forall i | 0 <= i < |items| :: ItemFits(items[i])
    ensures ParseItems(ItemsSpelled(items) + rest, round) == Read(Meanings(items, round), rest)
    decreases items, 1
  {
    var more := MoreItems(items) + rest;
    Assoc(ItemSpelled(items[0]), MoreItems(items), rest);
    ItemIsRead(items[0], more, round);
    if |items| == 1 {
      Tail(RBRACKET, rest);
      assert Meanings(items, round) == [Meaning(items[0].tree, round)];
    } else {
      Assoc([COMMA], ItemsSpelled(items[1..]), rest);
      Tail(COMMA, ItemsSpelled(items[1..]) + rest);
      ItemsAreRead(items[1..], rest, round);
    }
  }

  lemma {:induction false} ItemsOpen(items: seq<Item>, rest: Text)
    requires items != [] && ItemFits(items[0])
    ensures !StartsWith(SkipSpace(ItemsSpelled(items) + rest), RBRACKET)
  {
    var x := items[0];
    Assoc(ItemSpelled(x), MoreItems(items), rest);
    ThreeParts(x.before, Spelled(x.tree), x.after, MoreItems(items) + rest);
    TreeFirst(x.tree);
    SkipsBlank(x.before, Spelled(x.tree) + (x.after + (MoreItems(items) + rest)));
  }

  lemma {:induction false} PairIsRead(p: Pair, rest: Text, round: Number -> Number)
    requires PairFits(p) && ItemFits(p.item) && Ends(rest)
    ensures ParseMember(PairSpelled(p) + rest, round) == Read(Member(Units(p.name), Meaning(p.item.tree, round)), p.item.after + rest)
    ensures SkipSpace(p.item.after + rest) == rest
    decreases p, 1
  {
    var value := ItemSpelled(p.item) + rest;
    var afterName := p.colon + ([COLON] + value);
    PairSplits(p, rest);
    SkipsBlank(p.before, [QUOTE] + (CharsSpelled(p.name) + afterName));
    Tail(QUOTE, CharsSpelled(p.name) + afterName);
    CharsAreRead(p.name, afterName);
    SkipsBlank(p.colon, [COLON] + value);
    Tail(COLON, value);
    ItemIsRead(p.item, rest, round);
  }

  lemma {:induction false} PairSplits(p: Pair, rest: Text)
    ensures PairSpelled(p) + rest
         == p.before + ([QUOTE] + (CharsSpelled(p.name) + (p.colon + ([COLON] + (ItemSpelled(p.item) + rest)))))
  {
    var item := ItemSpelled(p.item);
    ThreeParts(p.before, [QUOTE], CharsSpelled(p.name) + (p.colon + ([COLON] + item)), rest);
    ThreeParts(CharsSpelled(p.name), p.colon, [COLON] + item, rest);
    Assoc([COLON], item, rest);
  }

  function MorePairs(pairs: seq<Pair>): Text
    requires pairs != []
  {
    if |pairs| == 1 then [RBRACE] else [COMMA] + PairsSpelled(pairs[1..])
  }

  lemma {:induction false} PairsAreRead(read: seq<Member>, pairs: seq<Pair>, rest: Text, round: Number -> Number)
    requires pairs != [] && forall i | 0 <= i < |pairs| :: PairFits(pairs[i])
    ensures ParseMembers(PairsSpelled(pairs) + rest, read, round) == Read(Collected(read, pairs, round), rest)
    decreases pairs, 1
  {
    var more := MorePairs(pairs) + rest;
    Assoc(PairSpelled(pairs[0]), MorePairs(pairs), rest);
    assert PairFits(pairs[0]) && ItemFits(pairs[0].item);
    PairIsRead(pairs[0], more, round);
    var read' := Put(read, Units(pairs[0].name), Meaning(pairs[0].item.tree, round));
    if |pairs| == 1 {
      Tail(RBRACE, rest);
      assert Collected(read', pairs[1..], round) == read';
    } else {
      Assoc([COMMA], PairsSpelled(pairs[1..]), rest);
      Tail(COMMA, PairsSpelled(pairs[1..]) + rest);
      PairsAreRead(read', pairs[1..], rest, round);
    }
  }

  lemma {:induction false} PairsOpen(pairs: seq<Pair>, rest: Text)
    requires pairs != [] && PairFits(pairs[0])
    ensures !StartsWith(SkipSpace(PairsSpelled(pairs) + rest), RBRACE)
  {
    var p := pairs[0];
    Assoc(PairSpelled(p), MorePairs(pairs), rest);
    PairSplits(p, MorePairs(pairs) + rest);
    SkipsBlank(p.before, [QUOTE] + (CharsSpelled(p.name) + (p.colon + ([COLON] + (ItemSpelled(p.item) + (MorePairs(pairs) + rest))))));
  }

  // ------------------------------------------------------- whatever is read has a derivation

  lemma {:induction false} BlankFrom(s: Text) returns (blank: Text)
    ensures Blank(blank) && s == blank + SkipSpace(s) && (SkipSpace(s) == [] || !IsSpace(SkipSpace(s)[0]))
  {
    if s != [] && IsSpace(s[0]) {
      var more := BlankFrom(s[1..]);
      blank := [s[0]] + more;
      Assoc([s[0]], more, SkipSpace(s[1..]));
    } else {
      blank := [];
    }
  }

  lemma {:induction false} DigitsFrom(s: Text)
    ensures s == DigitText(SplitDigits(s).0) + SplitDigits(s).1
  {
    if s != [] && IsDigit(s[0]) {
      var (d, rest) := SplitDigits(s[1..]);
      DigitsFrom(s[1..]);
      var all := [DigitOf(s[0])] + d;
      assert all[1..] == d && DigitUnit(all[0]) == s[0];
      Assoc([s[0]], DigitText(d), rest);
    }
  }

  lemma {:induction false} FractionFrom(s: Text)
    requires ParseFraction(s).Read?
    ensures s == FractionText(ParseFraction(s).value) + ParseFraction(s).rest
  {
    if StartsWith(s, DOT) {
      DigitsFrom(s[1..]);
      var (d, rest) := SplitDigits(s[1..]);
      Assoc([DOT], DigitText(d), rest);
      assert s == [DOT] + s[1..];
    }
  }

  lemma {:induction false} ExponentFrom(s: Text) returns (e: Option<Exponent>)
    requires ParseExponent(s).Read?
    ensures e.Some? ==> ExponentFits(e.value)
    ensures s == ExponentSpelled(e) + ParseExponent(s).rest && ExponentValue(e) == ParseExponent(s).value
  {
    if StartsWith(s, LOWER_E) || StartsWith(s, 0x45) {
      var signed := StartsWith(s[1..], PLUS) || StartsWith(s[1..], MINUS);
      var sign := if signed then [s[1]] else [];
      var text := if signed then s[2..] else s[1..];
      assert s == [s[0]] + (sign + text);
      DigitsFrom(text);
      var (d, rest) := SplitDigits(text);
      e := Some(Exponent(s[0], sign, d));
      ThreeParts([s[0]], sign, DigitText(d), rest);
    } else {
      e := None;
    }
  }

  lemma {:induction false} NumeralFrom(s: Text) returns (n: Numeral)
    requires ParseNumber(s).Read?
    ensures NumeralFits(n) && s == NumeralSpelled(n) + ParseNumber(s).rest && NumeralValue(n) == ParseNumber(s).value
  {
    var neg := StartsWith(s, MINUS);
    var u := if neg then s[1..] else s;
    assert s == SignText(neg) + u;
    var tail, rest;
    n, tail, rest := UnsignedParts(neg, u);
    UnsignedValue(neg, u, n, tail, rest);
    NumeralSplits(n, rest);
  }

  /** The text is the digits, fraction and exponent of the literal and what follows it. */
  ghost predicate Splits(s: Text, n: Numeral, tail: Text, rest: Text) {
    var fraction := SplitDigits(s).1;
    && SplitDigits(s).0 == n.whole && ParseFraction(fraction) == Read(n.frac, tail)
    && ParseExponent(tail) == Read(ExponentValue(n.exponent), rest)
  }

  lemma {:induction false} UnsignedParts(neg: bool, s: Text) returns (n: Numeral, tail: Text, rest: Text)
    requires ParseUnsigned(neg, s).Read?
    ensures NumeralFits(n) && n.neg == neg && Splits(s, n, tail, rest)
    ensures s == DigitText(n.whole) + (FractionText(n.frac) + (ExponentSpelled(n.exponent) + rest))
  {
    DigitsFrom(s);
    var (whole, fraction) := SplitDigits(s);
    FractionFrom(fraction);
    tail := ParseFraction(fraction).rest;
    var e := ExponentFrom(tail);
    rest := ParseExponent(tail).rest;
    n := Numeral(neg, whole, ParseFraction(fraction).value, e);
  }

  lemma {:induction false} UnsignedValue(neg: bool, s: Text, n: Numeral, tail: Text, rest: Text)
    requires NumeralFits(n) && n.neg == neg && Splits(s, n, tail, rest)
    ensures ParseUnsigned(neg, s) == Read(NumeralValue(n), rest)
  {
    FinishOf(neg, n.whole, SplitDigits(s).1, n.frac, tail, ExponentValue(n.exponent), rest);
  }

  lemma {:induction false} ShortFrom(u: Unit) returns (k: nat)
    requires SimpleEscape(u) >= 0
    ensures k < 8 && LETTERS[k] == u && STAND_FOR[k] as int == SimpleEscape(u)
  {
    var text := "\"\\/bfnrt";
    assert text[0] == '\"' && text[1] == '\\' && text[2] == '/' && text[3] == 'b';
    assert text[4] == 'f' && text[5] == 'n' && text[6] == 'r' && text[7] == 't';
    k := if u == QUOTE then 0 else if u == BACKSLASH then 1 else if u == 0x2F then 2 else if u == 0x62 then 3
         else if u == 0x66 then 4 else if u == 0x6E then 5 else if u == 0x72 then 6 else 7;
  }

  lemma {:induction false} CharFrom(s: Text) returns (c: Char, rest: Text)
    requires s != [] && s[0] != QUOTE && ParseChars(s).Read?
    ensures CharFits(c) && s == CharSpelled(c) + rest && |rest| < |s|
    ensures ParseChars(rest).Read? && ParseChars(s) == Push(CharValue(c), ParseChars(rest))
  {
    if s[0] != BACKSLASH {
      c, rest := Plain(s[0]), s[1..];
    } else if |s| >= 2 && SimpleEscape(s[1]) >= 0 {
      var k := ShortFrom(s[1]);
      c, rest := Short(k), s[2..];
    } else {
      c, rest := Long(s[2], s[3], s[4], s[5]), s[6..];
      HexIffValue(s[2]);
      HexIffValue(s[3]);
      HexIffValue(s[4]);
      HexIffValue(s[5]);
    }
  }

  lemma {:induction false} CharsFrom(s: Text) returns (cs: seq<Char>)
    requires ParseChars(s).Read?
    ensures CharsFit(cs) && s == CharsSpelled(cs) + ParseChars(s).rest && Units(cs) == ParseChars(s).value
    decreases |s|
  {
    if s[0] == QUOTE {
      cs := [];
    } else {
      var c, more := CharFrom(s);
      var rest := CharsFrom(more);
      cs := [c] + rest;
      assert cs[1..] == rest;
      Assoc(CharSpelled(c), CharsSpelled(rest), ParseChars(more).rest);
    }
  }

  lemma {:induction false} WordFrom(s: Text)
    requires ParseWord(s).Read?
    ensures var v := ParseWord(s).value;
            (v == Null || v == Bool(true) || v == Bool(false)) && s == Spelled(Word(v)) + ParseWord(s).rest
  {}

  lemma {:induction false} ValueFrom(s: Text, round: Number -> Number) returns (before: Text, t: Tree)
    requires ParseValue(s, round).Read?
    ensures Blank(before) && Fits(t) && s == before + (Spelled(t) + ParseValue(s, round).rest)
    ensures Meaning(t, round) == ParseValue(s, round).value
    decreases |s|, 2
  {
    before := BlankFrom(s);
    var u := SkipSpace(s);
    SkipsBlank([], u);
    t := TreeFrom(u, round);
  }

  lemma {:induction false} TreeFrom(s: Text, round: Number -> Number) returns (t: Tree)
    requires s != [] && !IsSpace(s[0]) && ParseValue(s, round).Read?
    ensures Fits(t) && s == Spelled(t) + ParseValue(s, round).rest && Meaning(t, round) == ParseValue(s, round).value
    decreases |s|, 1
  {
    if s[0] == QUOTE {
      t := QuotedFrom(s);
    } else if s[0] == LBRACKET {
      t := ListFrom(s, round);
    } else if s[0] == LBRACE {
      t := RecordFrom(s, round);
    } else if IsDigit(s[0]) || s[0] == MINUS {
      var n := NumeralFrom(s);
      t := Number(n);
    } else {
      WordFrom(s);
      t := Word(ParseWord(s).value);
    }
  }

  lemma {:induction false} QuotedFrom(s: Text) returns (t: Tree)
    requires s != [] && s[0] == QUOTE && ParseString(s).Read?
    ensures t.Quoted? && CharsFit(t.chars) && s == Spelled(t) + ParseString(s).rest && Str(Units(t.chars)) == ParseString(s).value
  {
    var cs := CharsFrom(s[1..]);
    t := Quoted(cs);
    Assoc([QUOTE], CharsSpelled(cs), ParseChars(s[1..]).rest);
  }

  lemma {:induction false} ListFrom(s: Text, round: Number -> Number) returns (t: Tree)
    requires s != [] && s[0] == LBRACKET && ParseArray(s, round).Read?
    ensures Fits(t) && s == Spelled(t) + ParseArray(s, round).rest && Meaning(t, round) == ParseArray(s, round).value
    decreases |s|, 0
  {
    if StartsWith(SkipSpace(s[1..]), RBRACKET) {
      var blank := BlankFrom(s[1..]);
      t := List(blank, []);
      ClosedAtOnce(s, LBRACKET, blank, RBRACKET);
    } else {
      var items := ItemsFrom(s[1..], round);
      t := List([], items);
      Assoc([LBRACKET], ItemsSpelled(items), ParseItems(s[1..], round).rest);
    }
  }

  lemma {:induction false} ClosedAtOnce(s: Text, open: Unit, blank: Text, close: Unit)
    requires s != [] && s[0] == open && s[1..] == blank + SkipSpace(s[1..]) && StartsWith(SkipSpace(s[1..]), close)
    ensures s == [open] + (blank + [close]) + SkipSpace(s[1..])[1..]
  {
    var u := SkipSpace(s[1..]);
    assert u == [close] + u[1..] && s == [open] + (blank + u);
  }

  lemma {:induction false} RecordFrom(s: Text, round: Number -> Number) returns (t: Tree)
    requires s != [] && s[0] == LBRACE && ParseObject(s, round).Read?
    ensures Fits(t) && s == Spelled(t) + ParseObject(s, round).rest && Meaning(t, round) == ParseObject(s, round).value
    decreases |s|, 0
  {
    if StartsWith(SkipSpace(s[1..]), RBRACE) {
      var blank := BlankFrom(s[1..]);
      t := Record(blank, []);
      ClosedAtOnce(s, LBRACE, blank, RBRACE);
    } else {
      var pairs := PairsFrom(s[1..], [], round);
      t := Record([], pairs);
      Assoc([LBRACE], PairsSpelled(pairs), ParseMembers(s[1..], [], round).rest);
    }
  }

  /** A value and the white space after it. */
  lemma {:induction false} ItemFrom(s: Text, round: Number -> Number) returns (x: Item)
    requires ParseValue(s, round).Read?
    ensures ItemFits(x) && s == ItemSpelled(x) + SkipSpace(ParseValue(s, round).rest) && Meaning(x.tree, round) == ParseValue(s, round).value
    decreases |s|, 3
  {
    var before, t := ValueFrom(s, round);
    var rest := ParseValue(s, round).rest;
    var after := BlankFrom(rest);
    x := Item(before, t, after);
    ThreeParts(before, Spelled(t), after, SkipSpace(rest));
  }

  lemma {:induction false} ItemsFrom(s: Text, round: Number -> Number) returns (items: seq<Item>)
    requires ParseItems(s, round).Read?
    ensures items != [] && forall i | 0 <= i < |items| :: ItemFits(items[i])
    ensures s == ItemsSpelled(items) + ParseItems(s, round).rest && Meanings(items, round) == ParseItems(s, round).value
    decreases |s|, 4
  {
    var x := ItemFrom(s, round);
    var t, rest := SkipSpace(ParseValue(s, round).rest), ParseItems(s, round).rest;
    var more := [];
    if StartsWith(t, COMMA) {
      more := ItemsFrom(t[1..], round);
      Assoc([COMMA], ItemsSpelled(more), rest);
    }
    items := [x] + more;
    ItemFirst(x, more, t, rest, round);
  }

  lemma {:induction false} ItemFirst(x: Item, more: seq<Item>, t: Text, rest: Text, round: Number -> Number)
    requires ItemFits(x) && forall i | 0 <= i < |more| :: ItemFits(more[i])
    requires t == if more == [] then [RBRACKET] + rest else [COMMA] + (ItemsSpelled(more) + rest)
    ensures ItemsSpelled([x] + more) + rest == ItemSpelled(x) + t
    ensures forall i | 0 <= i < |[x] + more| :: ItemFits(([x] + more)[i])
    ensures Meanings([x] + more, round) == [Meaning(x.tree, round)] + Meanings(more, round)
  {
    var items := [x] + more;
    assert items[1..] == more && items[0] == x;
    if more != [] { Assoc([COMMA], ItemsSpelled(more), rest); }
    Assoc(ItemSpelled(x), MoreItems(items), rest);
  }

  lemma {:induction false} PairFrom(s: Text, round: Number -> Number) returns (p: Pair)
    requires ParseMember(s, round).Read?
    ensures PairFits(p) && ItemFits(p.item) && s == PairSpelled(p) + SkipSpace(ParseMember(s, round).rest)
    ensures Member(Units(p.name), Meaning(p.item.tree, round)) == ParseMember(s, round).value
    decreases |s|, 4
  {
    var before := BlankFrom(s);
    var u := SkipSpace(s);
    var name := CharsFrom(u[1..]);
    var k := ParseChars(u[1..]).rest;
    var colon := BlankFrom(k);
    var v := SkipSpace(k);
    var x := ItemFrom(v[1..], round);
    p := Pair(before, name, colon, x);
    PairSplits(p, SkipSpace(ParseMember(s, round).rest));
    assert v == [COLON] + v[1..] && u == [QUOTE] + u[1..];
  }

  lemma {:induction false} PairsFrom(s: Text, read: seq<Member>, round: Number -> Number) returns (pairs: seq<Pair>)
    requires ParseMembers(s, read, round).Read?
    ensures pairs != [] && forall i | 0 <= i < |pairs| :: PairFits(pairs[i])
    ensures s == PairsSpelled(pairs) + ParseMembers(s, read, round).rest
    ensures Collected(read, pairs, round) == ParseMembers(s, read, round).value
    decreases |s|, 5
  {
    var p := PairFrom(s, round);
    var m := ParseMember(s, round);
    var t, rest, read' := SkipSpace(m.rest), ParseMembers(s, read, round).rest, Put(read, m.value.key, m.value.value);
    var more := [];
    if StartsWith(t, COMMA) {
      more := PairsFrom(t[1..], read', round);
      Assoc([COMMA], PairsSpelled(more), rest);
    }
    pairs := [p] + more;
    PairFirst(read, p, more, t, rest, round);
  }

  lemma {:induction false} PairFirst(read: seq<Member>, p: Pair, more: seq<Pair>, t: Text, rest: Text, round: Number -> Number)
    requires PairFits(p) && ItemFits(p.item) && forall i | 0 <= i < |more| :: PairFits(more[i])
    requires t == if more == [] then [RBRACE] + rest else [COMMA] + (PairsSpelled(more) + rest)
    ensures PairsSpelled([p] + more) + rest == PairSpelled(p) + t
    ensures forall i | 0 <= i < |[p] + more| :: PairFits(([p] + more)[i])
    ensures Collected(read, [p] + more, round) == Collected(Put(read, Units(p.name), Meaning(p.item.tree, round)), more, round)
  {
    var pairs := [p] + more;
    assert pairs[1..] == more && pairs[0] == p;
    if more != [] { Assoc([COMMA], PairsSpelled(more), rest); }
    Assoc(PairSpelled(p), MorePairs(pairs), rest);
  }

  // ---------------------------------------------------------------------- the main results

  /** The text is spelled by a derivation of the value. */
  ghost predicate Denotes(s: Text, v: Json, round: Number -> Number) {
    exists x: Item :: ItemFits(x) && ItemSpelled(x) == s && Meaning(x.tree, round) == v
  }

  /** JSON.parse gives a value exactly for the texts that have a derivation of it, and throws for all others. */
  lemma {:induction false} ReadsExactly(s: Text, v: Json, round: Number -> Number)
    ensures Parse(s, round) == Some(v) <==> Denotes(s, v, round)
    ensures Parse(s, round) == None <==> forall x: Item | ItemFits(x) :: ItemSpelled(x) != s
  {
    if Parse(s, round).Some? {
      var x := ItemFrom(s, round);
      assert ItemSpelled(x) + [] == ItemSpelled(x);
    }
    forall x: Item | ItemFits(x) && ItemSpelled(x) == s ensures Parse(s, round) == Some(Meaning(x.tree, round)) {
      ItemIsRead(x, [], round);
      assert ItemSpelled(x) + [] == s;
    }
  }

  /** However a text is derived, it means one thing. */
  lemma {:induction false} OneMeaning(x: Item, y: Item, round: Number -> Number)
    requires ItemFits(x) && ItemFits(y) && ItemSpelled(x) == ItemSpelled(y)
    ensures Meaning(x.tree, round) == Meaning(y.tree, round)
  {
    assert Denotes(ItemSpelled(x), Meaning(x.tree, round), round) && Denotes(ItemSpelled(y), Meaning(y.tree, round), round);
    ReadsExactly(ItemSpelled(x), Meaning(x.tree, round), round);
    ReadsExactly(ItemSpelled(y), Meaning(y.tree, round), round);
  }

  // ------------------------------------------------------------ what the meanings come to

  function ValueUnder(ms: seq<Member>, name: Text): Option<Json> {
    if Has(ms, name) then Some(ms[Find(ms, name)].value) else None
  }

  /** The value written last under a name. */
  ghost function LastUnder(pairs: seq<Pair>, name: Text, round: Number -> Number): Option<Json>
    requires forall i | 0 <= i < |pairs| :: PairFits(pairs[i])
  {
    if pairs == [] then None
    else
      assert PairFits(pairs[0]) && ItemFits(pairs[0].item);
      var later := LastUnder(pairs[1..], name, round);
      if later.None? && Units(pairs[0].name) == name then Some(Meaning(pairs[0].item.tree, round)) else later
  }

  lemma {:induction false} PutByName(ms: seq<Member>, k: Text, v: Json, name: Text)
    requires Distinct(Keys(ms))
    ensures ValueUnder(Put(ms, k, v), name) == if name == k then Some(v) else ValueUnder(ms, name)
  {
    var r := Put(ms, k, v);
    if Has(ms, k) {
      assert Keys(r) == Keys(ms);
      if Has(ms, name) {
        FindDistinct(ms, Find(ms, name));
        FindDistinct(r, Find(ms, name));
      }
    } else {
      assert Keys(r) == Keys(ms) + [k];
      if Has(ms, name) { FindDistinct(r, Find(ms, name)); }
      FindDistinct(r, |ms|);
    }
  }

  lemma {:induction false} CollectedByName(read: seq<Member>, pairs: seq<Pair>, name: Text, round: Number -> Number)
    requires Distinct(Keys(read)) && forall i | 0 <= i < |pairs| :: PairFits(pairs[i])
    ensures Distinct(Keys(Collected(read, pairs, round)))
    ensures var last := LastUnder(pairs, name, round);
            ValueUnder(Collected(read, pairs, round), name) == if last.Some? then last else ValueUnder(read, name)
    decreases |pairs|
  {
    if pairs != [] {
      assert PairFits(pairs[0]) && ItemFits(pairs[0].item);
      var k, v := Units(pairs[0].name), Meaning(pairs[0].item.tree, round);
      PutByName(read, k, v, name);
      CollectedByName(Put(read, k, v), pairs[1..], name, round);
    }
  }

  /** An object has a member under each name that is written, once, with the value written last under it. */
  lemma {:induction false} LastOfNameCounts(blank: Text, pairs: seq<Pair>, name: Text, round: Number -> Number)
    requires Blank(blank) && forall i | 0 <= i < |pairs| :: PairFits(pairs[i])
    ensures var v := Meaning(Record(blank, pairs), round);
            v.Obj? && Distinct(Keys(v.members)) && ValueUnder(v.members, name) == LastUnder(pairs, name, round)
  {
    CollectedByName([], pairs, name, round);
  }

  /**
   * The number a literal stands for before rounding: its digits without the zeros around them, the
   * point where it was, carried as far as the exponent says; and zero if there is no other digit.
   */
  lemma {:induction false} NumeralByDigits(n: Numeral) returns (k: nat, j: nat)
    requires NumeralFits(n)
    ensures var x := NumeralValue(n);
            && x.neg == n.neg && !x.Infinite?
            && (x.Zero? <==> n.whole + n.frac == Zeros(|n.whole| + |n.frac|))
            && (x.Decimal? ==> n.whole + n.frac == Zeros(k) + x.digits + Zeros(j)
                               && x.point == |n.whole| + ExponentValue(n.exponent) - k)
  {
    k, j := NormalizeStrips(n.neg, n.whole + n.frac, |n.whole| + ExponentValue(n.exponent));
  }

  lemma {:induction false} NormalizeStrips(neg: bool, d: seq<Digit>, p: int) returns (k: nat, j: nat)
    ensures var x := Normalize(neg, d, p);
            && x.neg == neg && !x.Infinite?
            && (x.Zero? <==> d == Zeros(|d|))
            && (x.Decimal? ==> d == Zeros(k) + x.digits + Zeros(j) && x.point == p - k)
    decreases |d|
  {
    k, j := 0, 0;
    if d == [] {
    } else if d[0] == 0 {
      k, j := NormalizeStrips(neg, d[1..], p - 1);
      if Normalize(neg, d, p).Decimal? { ZeroBefore(d, k, Normalize(neg, d, p).digits, j); }
      k := k + 1;
    } else if d[|d| - 1] == 0 {
      k, j := NormalizeStrips(neg, d[..|d| - 1], p);
      if Normalize(neg, d, p).Decimal? { ZeroAfter(d, k, Normalize(neg, d, p).digits, j); }
      j := j + 1;
    } else {
      assert Zeros(0) + d + Zeros(0) == d;
    }
  }

  lemma {:induction false} ZeroBefore(d: seq<Digit>, k: nat, x: seq<Digit>, j: nat)
    requires d != [] && d[0] == 0 && d[1..] == Zeros(k) + x + Zeros(j)
    ensures d == Zeros(k + 1) + x + Zeros(j)
  {
    assert d == [0] + d[1..];
    ThreeDigits([0], Zeros(k), x, Zeros(j));
  }

  lemma {:induction false} ZeroAfter(d: seq<Digit>, k: nat, x: seq<Digit>, j: nat)
    requires d != [] && d[|d| - 1] == 0 && d[..|d| - 1] == Zeros(k) + x + Zeros(j)
    ensures d == Zeros(k) + x + Zeros(j + 1)
  {
    assert d == d[..|d| - 1] + [0];
    Assoc(Zeros(k) + x, Zeros(j), [0]);
    assert Zeros(j) + [0] == Zeros(j + 1);
  }

  lemma {:induction false} ThreeDigits(a: seq<Digit>, b: seq<Digit>, c: seq<Digit>, e: seq<Digit>)
    ensures a + (b + c + e) == a + b + c + e
  {
    Assoc(a, b + c, e);
    Assoc(a, b, c);
  }
}
